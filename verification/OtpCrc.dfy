// The 16-bit CRC that guards OTP frames, slot configurations and tickets
// (src/fido/otp.c; the FCS of RFC 1662, appendix C.2).
module OtpCrc {
  import opened Basics

  type word = n: int | 0 <= n < 0x1_0000

  const POLYNOMIAL: word := 0x8408
  const ONES: word := 0xFFFF
  const RESIDUE: word := 0xF0B8

  // ---------- exclusive or ----------

  function Xor(a: nat, b: nat): nat {
    if a == 0 && b == 0 then 0 else 2 * Xor(a / 2, b / 2) + (a + b) % 2
  }

  lemma {:induction false} XorZero(a: nat)
    ensures Xor(a, 0) == a
  {
    if a != 0 { XorZero(a / 2); }
  }

  lemma {:induction false} XorSelf(a: nat)
    ensures Xor(a, a) == 0
  {
    if a != 0 { XorSelf(a / 2); }
  }

  lemma {:induction false} XorCommutes(a: nat, b: nat)
    ensures Xor(a, b) == Xor(b, a)
  {
    if a != 0 || b != 0 { XorCommutes(a / 2, b / 2); }
  }

  lemma XorHalves(a: nat, b: nat)
    ensures Xor(a, b) / 2 == Xor(a / 2, b / 2) && Xor(a, b) % 2 == (a + b) % 2
  {
  }

  lemma Parity(x: nat, a: nat, b: nat, c: nat)
    requires x % 2 == (a + b) % 2
    ensures (x + c) % 2 == (a + b + c) % 2 == (c + x) % 2
  {
  }

  lemma SameHalves(x: nat, y: nat)
    requires x / 2 == y / 2 && x % 2 == y % 2
    ensures x == y
  {
  }

  lemma {:induction false} XorAssociates(a: nat, b: nat, c: nat)
    ensures Xor(Xor(a, b), c) == Xor(a, Xor(b, c))
    decreases a + b + c
  {
    if a != 0 || b != 0 || c != 0 {
      var left, right := Xor(Xor(a, b), c), Xor(a, Xor(b, c));
      assert left / 2 == Xor(Xor(a / 2, b / 2), c / 2) && left % 2 == (a + b + c) % 2 by {
        XorHalves(a, b);
        XorHalves(Xor(a, b), c);
        Parity(Xor(a, b), a, b, c);
      }
      assert right / 2 == Xor(a / 2, Xor(b / 2, c / 2)) && right % 2 == (b + c + a) % 2 by {
        XorHalves(b, c);
        XorHalves(a, Xor(b, c));
        Parity(Xor(b, c), b, c, a);
      }
      XorAssociates(a / 2, b / 2, c / 2);
      SameHalves(left, right);
    }
  }

  // c moved k places up.
  function Raise(c: nat, k: nat): nat {
    if k == 0 then c else 2 * Raise(c, k - 1)
  }

  lemma RaiseIs(c: nat)
    ensures Raise(c, 3) == 8 * c && Raise(c, 8) == 256 * c && Raise(c, 10) == 0x400 * c
    ensures Raise(c, 15) == 0x8000 * c && Raise(c, 16) == 0x1_0000 * c
  {
    assert Raise(c, 1) == 2 * c;
    assert Raise(c, 2) == 4 * c;
    assert Raise(c, 4) == 16 * c;
    assert Raise(c, 6) == 64 * c;
    assert Raise(c, 8) == 256 * c;
    assert Raise(c, 10) == 0x400 * c;
    assert Raise(c, 12) == 0x1000 * c;
    assert Raise(c, 14) == 0x4000 * c;
  }

  lemma XorDoubled(p: nat, q: nat)
    ensures Xor(2 * p, 2 * q) == 2 * Xor(p, q)
  {
    Halved(p, 0);
    Halved(q, 0);
    EvenSum(p, q);
  }

  lemma Halved(p: nat, bit: nat)
    requires bit < 2
    ensures (2 * p + bit) / 2 == p && (2 * p + bit) % 2 == bit
  {
  }

  lemma EvenSum(p: nat, q: nat)
    ensures (2 * p + 2 * q) % 2 == 0
  {
    Halved(p + q, 0);
  }

  lemma {:induction false} XorRaised(c: nat, d: nat, k: nat)
    ensures Xor(Raise(c, k), Raise(d, k)) == Raise(Xor(c, d), k)
    decreases k
  {
    if k > 0 {
      XorRaised(c, d, k - 1);
      XorDoubled(Raise(c, k - 1), Raise(d, k - 1));
    }
  }

  // Below a power of two, exclusive or stays below it.
  lemma {:induction false} XorBound(a: nat, b: nat, k: nat)
    requires a < Raise(1, k) && b < Raise(1, k)
    ensures Xor(a, b) < Raise(1, k)
    decreases k
  {
    if k > 0 { XorBound(a / 2, b / 2, k - 1); }
  }

  lemma XorWord(a: word, b: word)
    ensures Xor(a, b) < 0x1_0000
  {
    RaiseIs(1);
    XorBound(a, b, 16);
  }

  // Numbers without common bits just add up.
  lemma {:induction false} XorDisjoint(a: nat, c: nat, k: nat)
    requires a < Raise(1, k)
    ensures Xor(a, Raise(c, k)) == a + Raise(c, k)
    decreases k
  {
    if k == 0 {
      XorCommutes(0, c);
      XorZero(c);
    } else {
      var high := Raise(c, k - 1);
      XorDisjoint(a / 2, c, k - 1);
      XorHalves(a, 2 * high);
      SameHalves(Xor(a, 2 * high), a + 2 * high);
    }
  }

  lemma XorCancels(x: nat, y: nat, w: nat)
    ensures Xor(x, w) == y <==> w == Xor(x, y)
  {
    XorSelf(x);
    XorAssociates(x, x, w);
    XorAssociates(x, x, y);
    XorCommutes(0, w);
    XorCommutes(0, y);
    XorZero(w);
    XorZero(y);
  }

  // ---------- the register ----------

  // One turn of the bit loop.
  function Shift(x: word): word {
    XorWord(x / 2, POLYNOMIAL);
    if x % 2 == 1 then Xor(x / 2, POLYNOMIAL) else x / 2
  }

  function Shifts(x: word, n: nat): word {
    if n == 0 then x else Shift(Shifts(x, n - 1))
  }

  function Mix(x: word, b: byte): word {
    XorWord(x, b);
    Xor(x, b)
  }

  function Feed(x: word, b: byte): word {
    Shifts(Mix(x, b), 8)
  }

  function Fed(x: word, m: bytes): word {
    if m == [] then x else Feed(Fed(x, m[..|m| - 1]), m[|m| - 1])
  }

  function Crc(m: bytes): word {
    Fed(ONES, m)
  }

  // put_uint16_t_le
  function LittleEndian(x: word): bytes {
    [x % 256, x / 256]
  }

  // ~crc as 16 bits
  function Complement(x: word): word {
    ONES - x
  }

  method CalculateCrc(data: array<byte>, len: nat) returns (crc: word)
    requires len <= data.Length
    ensures crc == Crc(data[..len])
  {
    crc := ONES;
    for idx := 0 to len
      invariant crc == Crc(data[..idx])
    {
      ghost var before := crc;
      assert data[..idx + 1][..idx] == data[..idx];
      crc := Mix(crc, data[idx]);
      for i := 0 to 8
        invariant crc == Shifts(Mix(before, data[idx]), i)
      {
        var j := crc % 2;
        crc := crc / 2;
        if j == 1 { crc := Toggle(crc); }
      }
    }
  }

  // crc ^= 0x8408
  function Toggle(x: word): word {
    XorWord(x, POLYNOMIAL);
    Xor(x, POLYNOMIAL)
  }

  // ---------- the register is linear and loses nothing ----------

  lemma XorSwap(p: nat, m: nat, q: nat)
    ensures Xor(Xor(p, m), q) == Xor(Xor(p, q), m)
  {
    XorAssociates(p, m, q);
    XorCommutes(m, q);
    XorAssociates(p, q, m);
  }

  lemma XorBoth(p: nat, q: nat, m: nat)
    ensures Xor(Xor(p, m), Xor(q, m)) == Xor(p, q)
  {
    XorAssociates(Xor(p, m), q, m);
    XorSwap(p, m, q);
    XorAssociates(Xor(p, q), m, m);
    XorSelf(m);
    XorZero(Xor(p, q));
  }

  lemma ShiftLinear(x: word, y: word)
    ensures Shift(Combined(x, y)) == Combined(Shift(x), Shift(y))
  {
    XorHalves(x, y);
    ParityCases(x, y);
    XorSwap(x / 2, POLYNOMIAL, y / 2);
    XorAssociates(x / 2, y / 2, POLYNOMIAL);
    XorBoth(x / 2, y / 2, POLYNOMIAL);
  }

  lemma ParityCases(x: nat, y: nat)
    ensures (x + y) % 2 == if x % 2 == y % 2 then 0 else 1
  {
  }

  function Combined(x: word, y: word): word {
    XorWord(x, y);
    Xor(x, y)
  }

  lemma {:induction false} ShiftsLinear(x: word, y: word, n: nat)
    ensures Shifts(Combined(x, y), n) == Combined(Shifts(x, n), Shifts(y, n))
  {
    if n > 0 {
      ShiftsLinear(x, y, n - 1);
      ShiftLinear(Shifts(x, n - 1), Shifts(y, n - 1));
    }
  }

  lemma ShiftInjective(x: word, y: word)
    requires Shift(x) == Shift(y)
    ensures x == y
  {
    XorCancels(POLYNOMIAL, x / 2, y / 2);
    ShiftTop(x);
    ShiftTop(y);
    XorCommutes(x / 2, POLYNOMIAL);
    XorCommutes(y / 2, POLYNOMIAL);
    XorCancels(POLYNOMIAL, Shift(x), x / 2);
    XorCancels(POLYNOMIAL, Shift(y), y / 2);
    SameHalves(x, y);
  }

  // The top bit tells which bit was shifted out.
  lemma ShiftTop(x: word)
    ensures Shift(x) >= 0x8000 <==> x % 2 == 1
  {
    if x % 2 == 1 {
      var low := Xor(x / 2, 0x408);
      RaiseIs(1);
      XorBound(x / 2, 0x408, 15);
      XorDisjoint(0x408, 1, 15);
      XorDisjoint(low, 1, 15);
      XorAssociates(x / 2, 0x408, 0x8000);
    }
  }

  lemma {:induction false} ShiftsInjective(x: word, y: word, n: nat)
    requires Shifts(x, n) == Shifts(y, n)
    ensures x == y
  {
    if n > 0 {
      ShiftInjective(Shifts(x, n - 1), Shifts(y, n - 1));
      ShiftsInjective(x, y, n - 1);
    }
  }

  lemma TwiceInjective(x: word, y: word, n: nat)
    requires Shifts(Shifts(x, n), n) == Shifts(Shifts(y, n), n)
    ensures x == y
  {
    ShiftsInjective(Shifts(x, n), Shifts(y, n), n);
    ShiftsInjective(x, y, n);
  }

  // Bits that never reach the bottom just move down.
  lemma {:induction false} ShiftsDown(c: nat, n: nat)
    requires Raise(c, n) < 0x1_0000
    ensures Shifts(Raise(c, n), n) == c
    decreases n
  {
    if n > 0 {
      RaiseInside(c, n - 1);
      ShiftsDown(2 * c, n - 1);
    }
  }

  lemma {:induction false} RaiseInside(c: nat, n: nat)
    ensures Raise(2 * c, n) == 2 * Raise(c, n)
    decreases n
  {
    if n > 0 { RaiseInside(c, n - 1); }
  }

  // Feeding two bytes is sixteen turns on both at once.
  lemma TwoBytes(x: word, a: byte, b: byte)
    ensures Feed(Feed(x, a), b) == Shifts(Shifts(Combined(x, a + 256 * b), 8), 8)
  {
    RaiseIs(1);
    RaiseIs(b);
    ShiftsDown(b, 8);
    ShiftsLinear(Mix(x, a), 256 * b, 8);
    XorAssociates(x, a, 256 * b);
    XorDisjoint(a, b, 8);
  }

  // ---------- what the CRC guarantees ----------

  lemma XorOne(c: nat)
    ensures Xor(c, 1) == if c % 2 == 1 then c - 1 else c + 1
  {
    XorHalves(c, 1);
    XorZero(c / 2);
  }

  lemma XorBit(low: nat, c: nat, k: nat)
    requires low < Raise(1, k)
    ensures Xor(low + Raise(c, k), Raise(1, k)) == low + Raise(Xor(c, 1), k)
  {
    XorDisjoint(low, c, k);
    XorAssociates(low, Raise(c, k), Raise(1, k));
    XorRaised(c, 1, k);
    XorDisjoint(low, Xor(c, 1), k);
  }

  function Flip(a: nat, bit: nat): nat
    requires bit > 0
  {
    if a / bit % 2 == 1 then a - bit else a + bit
  }

  lemma FlipThird(a: nat)
    ensures Xor(a, 8) == Flip(a, 8)
  {
    RaiseIs(1);
    RaiseIs(a / 8);
    RaiseIs(Xor(a / 8, 1));
    XorBit(a % 8, a / 8, 3);
    XorOne(a / 8);
  }

  lemma FlipTenth(a: nat)
    ensures Xor(a, 0x400) == Flip(a, 0x400)
  {
    RaiseIs(1);
    RaiseIs(a / 0x400);
    RaiseIs(Xor(a / 0x400, 1));
    XorBit(a % 0x400, a / 0x400, 10);
    XorOne(a / 0x400);
  }

  lemma FlipTop(a: nat)
    ensures Xor(a, 0x8000) == Flip(a, 0x8000)
  {
    RaiseIs(1);
    RaiseIs(a / 0x8000);
    RaiseIs(Xor(a / 0x8000, 1));
    XorBit(a % 0x8000, a / 0x8000, 15);
    XorOne(a / 0x8000);
  }

  // The three bits of the polynomial, one after the other.
  lemma FlipPolynomial(a: nat)
    ensures Xor(a, POLYNOMIAL) == Flip(Flip(Flip(a, 8), 0x400), 0x8000)
  {
    FlipThird(a);
    FlipTenth(Flip(a, 8));
    FlipTop(Flip(Flip(a, 8), 0x400));
    FlipTenth(8);
    FlipTop(0x408);
    XorAssociates(a, 8, 0x400);
    XorAssociates(a, 0x408, 0x8000);
  }

  predicate Turned(x: word, y: word) {
    y == if x % 2 == 1 then Flip(Flip(Flip(x / 2, 8), 0x400), 0x8000) else x / 2
  }

  lemma TurnedOnce(x: word, y: word)
    requires Turned(x, y)
    ensures Shift(x) == y
  {
    FlipPolynomial(x / 2);
  }

  lemma {:induction false} TurnedAlong(xs: seq<word>)
    requires xs != [] && forall i :: 0 < i < |xs| ==> Turned(xs[i - 1], xs[i])
    ensures Shifts(xs[0], |xs| - 1) == xs[|xs| - 1]
  {
    var n := |xs| - 1;
    if n > 0 {
      TurnedAlong(xs[..n]);
      TurnedOnce(xs[n - 1], xs[n]);
    }
  }

  lemma ResidueFirst()
    ensures Shifts(ONES, 8) == 0x0F87
  {
    TurnedAlong([0xFFFF, 0xFBF7, 0xF9F3, 0xF8F1, 0xF870, 0x7C38, 0x3E1C, 0x1F0E, 0x0F87]);
  }

  lemma ResidueSecond()
    ensures Shifts(0x0F87, 8) == RESIDUE
  {
    TurnedAlong([0x0F87, 0x83CB, 0xC5ED, 0xE6FE, 0x737F, 0xBDB7, 0xDAD3, 0xE961, 0xF0B8]);
  }

  lemma FedLast(x: word, m: bytes, b: byte)
    ensures Fed(x, m + [b]) == Feed(Fed(x, m), b)
  {
    assert (m + [b])[..|m|] == m;
  }

  lemma FedPair(x: word, m: bytes, a: byte, b: byte)
    ensures Fed(x, m + [a, b]) == Feed(Feed(Fed(x, m), a), b)
  {
    var head := m + [a];
    assert m + [a, b] == head + [b];
    FedLast(x, m, a);
    FedLast(x, head, b);
  }

  lemma ResidueOfOnes(w: word)
    ensures Shifts(Shifts(w, 8), 8) == RESIDUE <==> w == ONES
  {
    ResidueFirst();
    ResidueSecond();
    if Shifts(Shifts(w, 8), 8) == RESIDUE {
      TwiceInjective(w, ONES, 8);
    }
  }

  lemma OnesCombined(x: word, y: word)
    ensures Combined(x, y) == ONES <==> y == Complement(x)
  {
    RaiseIs(1);
    XorOnes(x, 16);
    XorCancels(x, ONES, y);
  }

  // The two bytes that leave the residue in the register.
  lemma ResiduePair(x: word, a: byte, b: byte)
    ensures Feed(Feed(x, a), b) == RESIDUE <==> a + 256 * b == Complement(x)
  {
    TwoBytes(x, a, b);
    ResidueOfOnes(Combined(x, a + 256 * b));
    OnesCombined(x, a + 256 * b);
  }

  lemma XorOdd(x: nat, q: nat)
    ensures Xor(x, 2 * q + 1) == 2 * Xor(x / 2, q) + 1 - x % 2
  {
    Halved(q, 1);
    ParityCases(x, 2 * q + 1);
  }

  lemma {:induction false} XorOnes(x: nat, k: nat)
    requires x < Raise(1, k)
    ensures Xor(x, Raise(1, k) - 1) == Raise(1, k) - 1 - x
    decreases k
  {
    if k > 0 {
      XorOnes(x / 2, k - 1);
      XorOdd(x, Raise(1, k - 1) - 1);
    }
  }

  // A message ends in the complement of its CRC, low byte first, exactly when the CRC over
  // all of it is the residue.
  lemma Residue(m: bytes, a: byte, b: byte)
    ensures Crc(m + [a, b]) == RESIDUE <==> [a, b] == LittleEndian(Complement(Crc(m)))
  {
    FedPair(ONES, m, a, b);
    ResiduePair(Crc(m), a, b);
    LittleEndianPair(Complement(Crc(m)), a, b);
  }

  lemma LittleEndianPair(x: word, a: byte, b: byte)
    ensures [a, b] == LittleEndian(x) <==> a + 256 * b == x
  {
    assert [a, b] == LittleEndian(x) <==> a == x % 256 && b == x / 256;
  }

  lemma FeedInjective(x: word, a: byte, y: word, b: byte)
    requires Feed(x, a) == Feed(y, b)
    ensures a == b <==> x == y
  {
    ShiftsInjective(Mix(x, a), Mix(y, b), 8);
    MixInjective(x, a, y, b);
  }

  lemma MixInjective(x: nat, a: nat, y: nat, b: nat)
    requires Xor(x, a) == Xor(y, b)
    ensures a == b <==> x == y
  {
    XorCommutes(x, a);
    XorCommutes(y, b);
    XorCancels(x, Xor(x, a), a);
    XorCancels(a, Xor(x, a), x);
    XorCancels(y, Xor(y, b), b);
    XorCancels(b, Xor(y, b), y);
  }

  lemma PairInjective(a: byte, b: byte, c: byte, d: byte)
    requires a + 256 * b == c + 256 * d
    ensures a == c && b == d
  {
  }

  lemma TwoBytesInjective(x: word, a: byte, b: byte, c: byte, d: byte)
    requires Feed(Feed(x, a), b) == Feed(Feed(x, c), d)
    ensures a == c && b == d
  {
    TwoBytes(x, a, b);
    TwoBytes(x, c, d);
    var p, q := Combined(x, a + 256 * b), Combined(x, c + 256 * d);
    TwiceInjective(p, q, 8);
    MixInjective(x, a + 256 * b, x, c + 256 * d);
    PairInjective(a, b, c, d);
  }

  // The CRC tells apart any two messages of one length that differ in two adjacent bytes only.
  lemma {:induction false} AdjacentErrors(m: bytes, n: bytes, i: nat)
    requires |m| == |n| && forall k :: 0 <= k < |m| && k != i && k != i + 1 ==> m[k] == n[k]
    ensures Crc(m) == Crc(n) <==> m == n
  {
    if m != [] && Crc(m) == Crc(n) {
      var last := |m| - 1;
      var p, q := m[..last], n[..last];
      assert m == p + [m[last]] && n == q + [n[last]];
      FeedInjective(Crc(p), m[last], Crc(q), n[last]);
      if last == i + 1 {
        var r := p[..i];
        assert q[..i] == r && p == r + [m[i]] && q == r + [n[i]];
        FedLast(ONES, r, m[i]);
        FedLast(ONES, r, n[i]);
        TwoBytesInjective(Crc(r), m[i], m[last], n[i], n[last]);
      } else if last == i {
        assert p == q;
      } else {
        AdjacentErrors(p, q, i);
      }
    }
  }

  // A message with the complement of its CRC behind it: a frame to the host, a slot
  // configuration, the encrypted part of a ticket.
  function Sealed(m: bytes): bytes {
    m + LittleEndian(Complement(Crc(m)))
  }

  // check_crc over a configuration or a received frame.
  predicate Passes(m: bytes) {
    Crc(m) == RESIDUE
  }

  // What passes is exactly what was sealed, and no damage to two adjacent bytes of a sealed
  // message goes unnoticed.
  lemma PassesIffSealed(all: bytes)
    requires |all| >= 2
    ensures Passes(all) <==> all == Sealed(all[..|all| - 2])
  {
    var m, a, b := all[..|all| - 2], all[|all| - 2], all[|all| - 1];
    assert all == m + [a, b];
    Residue(m, a, b);
    assert all[|all| - 2..] == [a, b];
  }

  lemma DamageIsNoticed(m: bytes, n: bytes, i: nat)
    requires |n| == |m| + 2 && n != Sealed(m)
    requires forall k :: 0 <= k < |n| && k != i && k != i + 1 ==> n[k] == Sealed(m)[k]
    ensures Passes(Sealed(m)) && !Passes(n)
  {
    assert Sealed(m)[..|m|] == m;
    PassesIffSealed(Sealed(m));
    if Passes(n) { AdjacentErrors(n, Sealed(m), i); }
  }
}
