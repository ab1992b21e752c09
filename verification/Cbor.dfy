// The subset of CBOR (RFC 8949) a credential id is written in: unsigned and negative
// integers, byte and text strings of definite length, booleans, and maps of indefinite
// length (section 3.2.2).
module Cbor {
  import opened Basics

  const MAP_START: byte := 0xBF
  const BREAK: byte := 0xFF
  const UINT: byte := 0
  const NEGATIVE: byte := 1
  const BYTES: byte := 2
  const TEXT: byte := 3
  const SIMPLE: byte := 7

  const WORD: int := 0x1_0000_0000_0000_0000

  // ---------- big-endian numbers ----------

  function Power(k: nat): nat {
    if k == 0 then 1 else 256 * Power(k - 1)
  }

  function BigEndian(n: nat, k: nat): (r: bytes)
    ensures |r| == k
  {
    if k == 0 then [] else BigEndian(n / 256, k - 1) + [n % 256]
  }

  function Number(b: bytes): nat {
    if b == [] then 0 else Number(b[..|b| - 1]) * 256 + b[|b| - 1]
  }

  lemma {:induction false} BigEndianRoundTrip(n: nat, k: nat)
    requires n < Power(k)
    ensures Number(BigEndian(n, k)) == n
  {
    if k > 0 {
      BigEndianRoundTrip(n / 256, k - 1);
      assert BigEndian(n, k)[..k - 1] == BigEndian(n / 256, k - 1);
    }
  }

  lemma {:induction false} NumberBound(b: bytes)
    ensures Number(b) < Power(|b|)
  {
    if b != [] {
      NumberBound(b[..|b| - 1]);
    }
  }

  lemma PowerValues()
    ensures Power(1) == 256 && Power(2) == 65536 && Power(4) == 0x1_0000_0000 && Power(8) == WORD
  {
    assert Power(4) == 256 * (256 * Power(2));
    assert Power(8) == 256 * (256 * (256 * (256 * Power(4))));
  }

  // ---------- heads ----------

  // How many bytes follow the initial byte of a head that carries n.
  function Width(n: nat): nat {
    if n < 24 then 0 else if n < 256 then 1 else if n < 65536 then 2 else if n < 0x1_0000_0000 then 4 else 8
  }

  // The additional information of a head, and the width it announces.
  function Info(n: nat): byte {
    if n < 24 then n else if n < 256 then 24 else if n < 65536 then 25 else if n < 0x1_0000_0000 then 26 else 27
  }

  function WidthOf(info: byte): nat {
    if info == 24 then 1 else if info == 25 then 2 else if info == 26 then 4 else if info == 27 then 8 else 0
  }

  function Head(major: byte, n: nat): bytes
    requires major < 8
  {
    [major * 32 + Info(n)] + BigEndian(n, Width(n))
  }

  datatype Item = Item(major: byte, n: nat, rest: bytes)

  // Reads a head of definite length; any width is accepted for any number.
  function ReadHead(b: bytes): (r: Option<Item>)
    ensures r.Some? ==> |r.value.rest| < |b| && r.value.n < WORD
  {
    if b == [] then None
    else
      var major, info := b[0] / 32, b[0] % 32;
      var w := WidthOf(info);
      if info >= 28 || |b| < 1 + w then None
      else if info < 24 then Some(Item(major, info, b[1..]))
      else
        PowerValues();
        NumberBound(b[1..1 + w]);
        Some(Item(major, Number(b[1..1 + w]), b[1 + w..]))
  }

  lemma HeadRoundTrip(major: byte, n: nat, tail: bytes)
    requires major < 8 && n < WORD
    ensures ReadHead(Head(major, n) + tail) == Some(Item(major, n, tail))
  {
    var w := Width(n);
    var b := Head(major, n) + tail;
    assert b[0] == major * 32 + Info(n);
    assert b[0] / 32 == major && b[0] % 32 == Info(n);
    if n >= 24 {
      PowerValues();
      BigEndianRoundTrip(n, w);
      assert WidthOf(Info(n)) == w;
      assert b[1..1 + w] == BigEndian(n, w);
    }
    assert b[1 + w..] == tail;
  }

  // ---------- the items a credential uses ----------

  function Uint(n: nat): bytes {
    Head(UINT, n)
  }

  function Int(i: int): bytes {
    if i >= 0 then Head(UINT, i) else Head(NEGATIVE, -1 - i)
  }

  function String(major: byte, s: bytes): bytes
    requires major < 8
  {
    Head(major, |s|) + s
  }

  function Bool(v: bool): bytes {
    [if v then 0xF5 else 0xF4]
  }

  function ReadUint(b: bytes): (r: Option<(nat, bytes)>)
    ensures r.Some? ==> |r.value.1| < |b| && r.value.0 < WORD
  {
    var h := ReadHead(b);
    if h.Some? && h.value.major == UINT then Some((h.value.n, h.value.rest)) else None
  }

  function ReadInt(b: bytes): (r: Option<(int, bytes)>)
    ensures r.Some? ==> |r.value.1| < |b| && -WORD <= r.value.0 < WORD
  {
    var h := ReadHead(b);
    if h.Some? && h.value.major == UINT then Some((h.value.n, h.value.rest))
    else if h.Some? && h.value.major == NEGATIVE then Some((-1 - h.value.n, h.value.rest))
    else None
  }

  function ReadString(major: byte, b: bytes): (r: Option<(bytes, bytes)>)
    ensures r.Some? ==> |r.value.1| < |b|
  {
    var h := ReadHead(b);
    if h.Some? && h.value.major == major && h.value.n <= |h.value.rest|
    then Some((h.value.rest[..h.value.n], h.value.rest[h.value.n..])) else None
  }

  function ReadBool(b: bytes): (r: Option<(bool, bytes)>)
    ensures r.Some? ==> |r.value.1| < |b|
  {
    if b != [] && (b[0] == 0xF4 || b[0] == 0xF5) then Some((b[0] == 0xF5, b[1..])) else None
  }

  // Steps over one item that is not a container.
  function Skip(b: bytes): (r: Option<bytes>)
    ensures r.Some? ==> |r.value| < |b|
  {
    var h := ReadHead(b);
    if h.None? then None
    else if h.value.major == BYTES || h.value.major == TEXT then
      if h.value.n <= |h.value.rest| then Some(h.value.rest[h.value.n..]) else None
    else if h.value.major == UINT || h.value.major == NEGATIVE || h.value.major == SIMPLE then Some(h.value.rest)
    else None
  }

  lemma UintRoundTrip(n: nat, tail: bytes)
    requires n < WORD
    ensures ReadUint(Uint(n) + tail) == Some((n, tail))
  {
    HeadRoundTrip(UINT, n, tail);
  }

  lemma IntRoundTrip(i: int, tail: bytes)
    requires -WORD <= i < WORD
    ensures ReadInt(Int(i) + tail) == Some((i, tail))
  {
    if i >= 0 {
      HeadRoundTrip(UINT, i, tail);
    } else {
      HeadRoundTrip(NEGATIVE, -1 - i, tail);
    }
  }

  lemma StringRoundTrip(major: byte, s: bytes, tail: bytes)
    requires (major == BYTES || major == TEXT) && |s| < WORD
    ensures ReadString(major, String(major, s) + tail) == Some((s, tail))
    ensures Skip(String(major, s) + tail) == Some(tail)
  {
    HeadRoundTrip(major, |s|, s + tail);
    assert String(major, s) + tail == Head(major, |s|) + (s + tail);
    assert (s + tail)[..|s|] == s && (s + tail)[|s|..] == tail;
  }

  lemma BoolRoundTrip(v: bool, tail: bytes)
    ensures ReadBool(Bool(v) + tail) == Some((v, tail))
  {
    assert (Bool(v) + tail)[1..] == tail;
  }

  // No item starts with the break byte.
  lemma HeadIsNoBreak(major: byte, n: nat)
    requires major < 7
    ensures Head(major, n)[0] != BREAK
  {
  }
}
