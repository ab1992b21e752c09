// The large-blob array: fragments assembled in one RAM buffer and committed to one file when
// the last byte arrives and the trailing hash matches (src/fido/cbor_large_blobs.c; CTAP 2.1
// section 6.10).
module LargeBlobs {
  import opened Basics
  import ClientPin
  import Presence
  import opened Runs
  import Tokens

  const MAX_FRAGMENT: nat := 960
  const MAX_BLOB: nat := 2048
  const NO_OFFSET: nat := 0xFFFF_FFFF_FFFF_FFFF

  // Absent integers keep the values the parser starts from: 0, and NO_OFFSET for the offset.
  datatype Request = Request(
    get: nat,
    fragment: Option<bytes>,
    offset: nat,
    length: nat,
    param: Option<bytes>,
    protocol: nat)

  // A request and the PIN/UV auth token at that time.
  datatype Event = Event(r: Request, token: bytes32, permissions: ClientPin.Permissions)

  // Every refusal reaches the platform as the same error code.
  datatype Reply = Done | Data(data: bytes) | Refused

  // The blob being assembled as the bytes received so far; the committed file.
  datatype State = State(expected: nat, received: bytes, file: bytes)

  function LittleEndian32(n: nat): bytes {
    [n % 256, n / 0x100 % 256, n / 0x1_0000 % 256, n / 0x100_0000 % 256]
  }

  function SignedData(c: ClientPin.Crypto, offset: nat, fragment: bytes): bytes {
    seq(32, _ => 0xFF) + [0x0C, 0x00] + LittleEndian32(offset) + c.sha256(fragment)
  }

  predicate WellFormed(r: Request) {
    r.offset != NO_OFFSET && (r.get == 0 <==> r.fragment.Some?)
  }

  predicate Authorised(c: ClientPin.Crypto, ev: Event) {
    && ev.r.fragment.Some? && ev.r.param.Some?
    && ev.r.protocol != 0
    && Tokens.MacAccepts(c, ev.r.protocol % 256, ev.token, SignedData(c, ev.r.offset, ev.r.fragment.value), ev.r.param.value)
    && ClientPin.LBW in ev.permissions
  }

  // A first fragment with an acceptable total length; it starts over even if it is refused
  // afterwards.
  predicate Restarts(r: Request) {
    && WellFormed(r) && r.fragment.Some? && |r.fragment.value| <= MAX_FRAGMENT
    && r.offset == 0 && 17 <= r.length <= MAX_BLOB
  }

  predicate Continues(r: Request) {
    && WellFormed(r) && r.fragment.Some? && |r.fragment.value| <= MAX_FRAGMENT
    && r.offset != 0 && r.length == 0
  }

  // The 17-byte empty array is exempt from the hash check.
  predicate Sound(c: ClientPin.Crypto, blob: bytes) {
    |blob| == 17 || (|blob| > 17 && c.sha256(blob[..|blob| - 16])[..16] == blob[|blob| - 16..])
  }

  predicate Accepted(c: ClientPin.Crypto, s: State, ev: Event) {
    && (Restarts(ev.r) || (Continues(ev.r) && ev.r.offset == |s.received|))
    && Authorised(c, ev)
    && ev.r.offset + |ev.r.fragment.value| <= if Restarts(ev.r) then ev.r.length else s.expected
  }

  function WriteStep(c: ClientPin.Crypto, s: State, ev: Event): (State, Reply)
  {
    var s1 := if Restarts(ev.r) then s.(expected := ev.r.length, received := []) else s;
    if !Accepted(c, s, ev) then (s1, Refused)
    else
      var all := s1.received + ev.r.fragment.value;
      var s2 := s1.(received := all);
      if |all| < s1.expected then (s2, Done)
      else if !Sound(c, all) then (s2, Refused)
      else (s2.(file := all), Done)
  }

  function ReadStep(s: State, r: Request): Reply {
    if !WellFormed(r) || r.get == 0 || r.length != 0 || r.offset > |s.file| then Refused
    else Data(s.file[r.offset..r.offset + Least(r.get, |s.file| - r.offset)])
  }

  function Step(c: ClientPin.Crypto, s: State, ev: Event): (State, Reply)
  {
    if WellFormed(ev.r) && ev.r.fragment.Some? then WriteStep(c, s, ev) else (s, ReadStep(s, ev.r))
  }

  predicate Bounded(s: State) {
    |s.received| <= s.expected <= MAX_BLOB && (s.expected == 0 || s.expected >= 17)
  }

  // ---------- what is accepted ----------

  // The 70 bytes under the MAC: 32 times FF, 0C 00, the offset as four bytes from the lowest
  // on, and the hash of the fragment.
  ghost predicate IsSigned(c: ClientPin.Crypto, offset: nat, fragment: bytes, data: bytes) {
    && |data| == 70
    && (forall i :: 0 <= i < 32 ==> data[i] == 0xFF) && data[32] == 0x0C && data[33] == 0x00
    && (data[34] as int) + 0x100 * (data[35] as int) + 0x1_0000 * (data[36] as int) + 0x100_0000 * (data[37] as int)
       == offset % 0x1_0000_0000
    && data[38..] == c.sha256(fragment)
  }

  lemma Quotient(n: nat, q: nat, r: nat)
    requires n == 0x1_0000_0000 * q + r && r < 0x1_0000_0000
    ensures n % 0x1_0000_0000 == r
  {
  }

  lemma QuotientTwice(n: nat)
    ensures n / 0x100 / 0x100 == n / 0x1_0000
  {
  }

  lemma WordDigits(n: nat)
    ensures n % 256 + 0x100 * (n / 0x100 % 256) + 0x1_0000 * (n / 0x1_0000 % 256) + 0x100_0000 * (n / 0x100_0000 % 256)
            == n % 0x1_0000_0000
  {
    var p, q, r := n / 0x100, n / 0x1_0000, n / 0x100_0000;
    assert q == p / 0x100 by { QuotientTwice(n); }
    assert r == q / 0x100 by { assert n / 0x1_0000 / 0x100 == n / 0x100_0000; }
    var low := n % 256 + 0x100 * (p % 256) + 0x1_0000 * (q % 256) + 0x100_0000 * (r % 256);
    assert n == low + 0x1_0000_0000 * (r / 0x100);
    Quotient(n, r / 0x100, low);
  }

  lemma LowDigit(a: byte, x: nat, b: byte, y: nat)
    requires a as int + 256 * x == b as int + 256 * y
    ensures a == b && x == y
  {
  }

  lemma SignedIs(c: ClientPin.Crypto, offset: nat, fragment: bytes, data: bytes)
    ensures IsSigned(c, offset, fragment, data) <==> data == SignedData(c, offset, fragment)
  {
    var d := SignedData(c, offset, fragment);
    WordDigits(offset);
    assert d[38..] == c.sha256(fragment);
    if IsSigned(c, offset, fragment, data) {
      WordIsDigits(offset, data[34], data[35], data[36], data[37]);
      assert data == data[..34] + data[34..38] + data[38..];
    }
  }

  lemma WordIsDigits(n: nat, a: byte, b: byte, d: byte, e: byte)
    requires (a as int) + 0x100 * (b as int) + 0x1_0000 * (d as int) + 0x100_0000 * (e as int) == n % 0x1_0000_0000
    ensures [a, b, d, e] == LittleEndian32(n)
  {
    WordDigits(n);
    var w := LittleEndian32(n);
    SameDigits(a, b, d, e, w[0], w[1], w[2], w[3]);
  }

  lemma SameDigits(a: byte, b: byte, d: byte, e: byte, a': byte, b': byte, d': byte, e': byte)
    requires a as int + 256 * (b as int + 256 * (d as int + 256 * (e as int)))
             == a' as int + 256 * (b' as int + 256 * (d' as int + 256 * (e' as int)))
    ensures a == a' && b == b' && d == d' && e == e'
  {
    LowDigit(a, b as int + 256 * (d as int + 256 * (e as int)), a', b' as int + 256 * (d' as int + 256 * (e' as int)));
    LowDigit(b, d as int + 256 * (e as int), b', d' as int + 256 * (e' as int));
    LowDigit(d, e as int, d', e' as int);
  }

  // The MAC over that data was made with the token, under protocol 1 or 2.
  ghost predicate MacIsOver(c: ClientPin.Crypto, ev: Event, fragment: bytes, param: bytes) {
    exists data: bytes :: IsSigned(c, ev.r.offset, fragment, data)
                          && Tokens.MacAccepts(c, ev.r.protocol % 256, ev.token, data, param)
  }

  // A fragment is taken into the buffer exactly if it is well-formed, of at most 960 bytes and
  // in its place (the first of a blob of 17 to 2048 bytes, or the next of the blob under way),
  // does not pass the blob's end, and comes from who holds the token with the permission for
  // large-blob writing, the fifth.
  lemma AcceptedIff(c: ClientPin.Crypto, s: State, ev: Event)
    requires Bounded(s)
    ensures Accepted(c, s, ev) <==>
            var r := ev.r;
            && r.get == 0 && r.fragment.Some? && |r.fragment.value| <= 960
            && (if r.offset == 0 then 17 <= r.length <= 2048 && |r.fragment.value| <= r.length
                else r.length == 0 && r.offset == |s.received| && r.offset + |r.fragment.value| <= s.expected)
            && r.param.Some? && 4 in ev.permissions && MacIsOver(c, ev, r.fragment.value, r.param.value)
  {
    if ev.r.fragment.Some? && ev.r.param.Some? {
      var data := SignedData(c, ev.r.offset, ev.r.fragment.value);
      SignedIs(c, ev.r.offset, ev.r.fragment.value, data);
      forall d: bytes | IsSigned(c, ev.r.offset, ev.r.fragment.value, d)
        ensures d == data
      {
        SignedIs(c, ev.r.offset, ev.r.fragment.value, d);
      }
      Presence.MacMeans(c, ev.r.protocol % 256, ev.token, data, ev.r.param.value);
    }
  }

  // Nothing else changes the file: neither a read nor a fragment that is not taken.
  lemma OnlyAcceptedWrites(c: ClientPin.Crypto, s: State, ev: Event)
    ensures var (t, reply) := Step(c, s, ev);
            !Accepted(c, s, ev) ==> t.file == s.file && reply != Done && |t.received| <= |s.received|
  {
  }

  lemma StepKeeps(c: ClientPin.Crypto, s: State, ev: Event)
    requires Bounded(s)
    ensures var t := Step(c, s, ev).0;
            Bounded(t) && (t.file == s.file || (17 <= |t.file| <= MAX_BLOB && Sound(c, t.file)))
  {
  }

  // ---------- the handler ----------

  class Store {
    const c: ClientPin.Crypto
    const buffer: array<byte>
    var expectedLength: nat
    var expectedNextOffset: nat
    var file: bytes

    ghost predicate Valid()
      reads this
    {
      && buffer.Length == MAX_BLOB
      && expectedNextOffset <= expectedLength <= MAX_BLOB
      && (expectedLength == 0 || expectedLength >= 17)
    }

    // The buffer's prefix is what has been received.
    ghost function Now(): State
      requires Valid()
      reads this, buffer
    {
      State(expectedLength, buffer[..expectedNextOffset], file)
    }

    constructor (c: ClientPin.Crypto, stored: bytes)
      ensures Valid() && fresh(buffer) && this.c == c
      ensures Now() == State(0, [], if stored == [] then EMPTY_ARRAY else stored)
    {
      this.c := c;
      buffer := new byte[MAX_BLOB](_ => 0);
      expectedLength, expectedNextOffset := 0, 0;
      file := if stored == [] then EMPTY_ARRAY else stored;
    }

    // The checks on the header of a fragment, setting up a new assembly at offset 0.
    method CheckHeader(r: Request) returns (ok: bool)
      requires Valid() && WellFormed(r) && r.fragment.Some?
      modifies this`expectedLength, this`expectedNextOffset
      ensures Valid()
      ensures Now() == if Restarts(r) then State(r.length, [], file) else old(Now())
      ensures ok == (Restarts(r) || (Continues(r) && r.offset == |old(Now()).received|))
    {
      if |r.fragment.value| > MAX_FRAGMENT { return false; }
      if r.offset == 0 {
        if r.length == 0 || r.length > MAX_BLOB || r.length < 17 { return false; }
        expectedLength := r.length;
        expectedNextOffset := 0;
      } else if r.length != 0 {
        return false;
      }
      return r.offset == expectedNextOffset;
    }

    // memset and memcpy into the buffer behind what is already there.
    method Append(fragment: bytes, first: bool)
      requires Valid() && expectedNextOffset + |fragment| <= expectedLength
      requires first ==> expectedNextOffset == 0
      modifies this`expectedNextOffset, buffer
      ensures Valid()
      ensures Now() == old(Now()).(received := old(Now()).received + fragment)
    {
      if first {
        forall i | 0 <= i < MAX_BLOB { buffer[i] := 0; }
      }
      assert first ==> buffer[..expectedNextOffset] == [];
      ghost var before := buffer[..expectedNextOffset];
      forall i | 0 <= i < |fragment| { buffer[expectedNextOffset + i] := fragment[i]; }
      expectedNextOffset := expectedNextOffset + |fragment|;
      assert buffer[..expectedNextOffset] == before + fragment;
    }

    // A complete buffer replaces the file if its hash is right.
    method Commit() returns (ok: bool)
      requires Valid() && expectedNextOffset == expectedLength >= 17
      modifies this`file
      ensures Valid() && ok == Sound(c, Now().received)
      ensures Now() == if ok then old(Now()).(file := old(Now()).received) else old(Now())
    {
      var sha := c.sha256(buffer[..expectedLength - 16]);
      ghost var all := buffer[..expectedLength];
      assert all[..expectedLength - 16] == buffer[..expectedLength - 16];
      assert all[expectedLength - 16..] == buffer[expectedLength - 16..expectedLength];
      if expectedLength > 17 && sha[..16] != buffer[expectedLength - 16..expectedLength] { return false; }
      file := buffer[..expectedLength];
      return true;
    }

    method Write(ev: Event) returns (reply: Reply)
      requires Valid() && WellFormed(ev.r) && ev.r.fragment.Some?
      modifies this, buffer
      ensures Valid() && (Now(), reply) == WriteStep(c, old(Now()), ev)
    {
      var ok := CheckHeader(ev.r);
      if !ok { return Refused; }
      if !Authorised(c, ev) { return Refused; }
      if ev.r.offset + |ev.r.fragment.value| > expectedLength { return Refused; }
      Append(ev.r.fragment.value, ev.r.offset == 0);
      if expectedNextOffset == expectedLength {
        ok := Commit();
        if !ok { return Refused; }
      }
      return Done;
    }

    method Handle(ev: Event) returns (reply: Reply)
      requires Valid()
      modifies this, buffer
      ensures Valid() && (Now(), reply) == Step(c, old(Now()), ev)
    {
      var r := ev.r;
      if r.offset == NO_OFFSET { return Refused; }
      if r.get == 0 && r.fragment.None? { return Refused; }
      if r.get != 0 && r.fragment.Some? { return Refused; }
      if r.get > 0 {
        if r.length != 0 { return Refused; }
        if r.offset > |file| { return Refused; }
        return Data(file[r.offset..r.offset + Least(r.get, |file| - r.offset)]);
      }
      reply := Write(ev);
    }
  }

  // What a device without the file starts from.
  const EMPTY_ARRAY: bytes :=
    [0x80, 0x76, 0xbe, 0x8b, 0x52, 0x8d, 0x00, 0x75, 0xf7, 0xaa, 0xe9, 0x8d, 0x6f, 0xa5, 0x7a, 0x6d, 0x3c]

  // ---------- runs ----------

  function After(c: ClientPin.Crypto, s: State, evs: seq<Event>): State
  {
    if evs == [] then s else Step(c, After(c, s, evs[..|evs| - 1]), evs[|evs| - 1]).0
  }

  lemma {:induction false} RunKeeps(c: ClientPin.Crypto, s: State, evs: seq<Event>)
    requires Bounded(s)
    ensures var t := After(c, s, evs);
            Bounded(t) && (t.file == s.file || (17 <= |t.file| <= MAX_BLOB && Sound(c, t.file)))
  {
    if evs != [] {
      RunKeeps(c, s, evs[..|evs| - 1]);
      StepKeeps(c, After(c, s, evs[..|evs| - 1]), evs[|evs| - 1]);
    }
  }

  // The fragments accepted from event k on, joined.
  function Joined(c: ClientPin.Crypto, s: State, evs: seq<Event>, k: nat): bytes
    requires k <= |evs|
    decreases |evs|
  {
    if k == |evs| then []
    else
      var n := |evs| - 1;
      Joined(c, s, evs[..n], k) + if Accepted(c, After(c, s, evs[..n]), evs[n]) then evs[n].r.fragment.value else []
  }

  // Event k began the assembly of a blob of that length and none after it began another.
  ghost predicate BeganAt(evs: seq<Event>, k: nat, length: nat) {
    k < |evs| && Restarts(evs[k].r) && evs[k].r.length == length && forall i :: k < i < |evs| ==> !Restarts(evs[i].r)
  }

  // The buffer starts over at a restart and grows by what is accepted, whether or not the
  // finished blob passes its hash.
  lemma BufferStep(c: ClientPin.Crypto, s: State, ev: Event)
    ensures Step(c, s, ev).0.received
              == (if Restarts(ev.r) then [] else s.received) + (if Accepted(c, s, ev) then ev.r.fragment.value else [])
    ensures Step(c, s, ev).0.expected == if Restarts(ev.r) then ev.r.length else s.expected
  {
  }

  lemma {:induction false} BeganGrows(c: ClientPin.Crypto, s: State, evs: seq<Event>, k: nat, length: nat)
    requires evs != [] && BeganAt(evs[..|evs| - 1], k, length) && !Restarts(evs[|evs| - 1].r)
    ensures BeganAt(evs, k, length)
  {
    var n := |evs| - 1;
    forall i | k < i < |evs| ensures !Restarts(evs[i].r) {
      if i < n { assert evs[..n][i] == evs[i]; }
    }
  }

  // What is in the buffer is the fragments accepted since the last beginning, in order.
  lemma {:induction false} BufferIsFragments(c: ClientPin.Crypto, s: State, evs: seq<Event>)
    requires s.expected == 0 && s.received == []
    ensures var r := After(c, s, evs);
            (r.expected == 0 && r.received == [])
            || exists k: nat :: BeganAt(evs, k, r.expected) && r.received == Joined(c, s, evs, k)
  {
    if evs != [] {
      var n := |evs| - 1;
      var before := After(c, s, evs[..n]);
      BufferStep(c, before, evs[n]);
      if Restarts(evs[n].r) {
        assert BeganAt(evs, n, evs[n].r.length);
        assert Joined(c, s, evs[..n], n) == [];
      } else {
        BufferIsFragments(c, s, evs[..n]);
        if exists k: nat :: BeganAt(evs[..n], k, before.expected) && before.received == Joined(c, s, evs[..n], k) {
          var k: nat :| BeganAt(evs[..n], k, before.expected) && before.received == Joined(c, s, evs[..n], k);
          BeganGrows(c, s, evs, k, before.expected);
        }
      }
    }
  }

  // A step that changes the file is an accepted fragment that completes a sound blob.
  lemma FileStep(c: ClientPin.Crypto, s: State, ev: Event)
    requires Step(c, s, ev).0.file != s.file
    ensures var (t, reply) := Step(c, s, ev);
            Accepted(c, s, ev) && reply == Done && t.file == t.received && |t.file| >= t.expected && Sound(c, t.file)
  {
  }

  // The file is the blob that the fragments up to event j, accepted since event k began it,
  // add up to.
  ghost predicate CommittedAt(c: ClientPin.Crypto, s: State, evs: seq<Event>, j: nat, k: nat, file: bytes) {
    && k <= j < |evs|
    && Accepted(c, After(c, s, evs[..j]), evs[j])
    && BeganAt(evs[..j + 1], k, |file|)
    && file == Joined(c, s, evs[..j + 1], k)
    && Sound(c, file)
  }

  lemma CommittedStays(c: ClientPin.Crypto, s: State, evs: seq<Event>, j: nat, k: nat, file: bytes)
    requires evs != [] && CommittedAt(c, s, evs[..|evs| - 1], j, k, file)
    ensures CommittedAt(c, s, evs, j, k, file)
  {
    var n := |evs| - 1;
    assert evs[..n][..j] == evs[..j] && evs[..n][..j + 1] == evs[..j + 1];
  }

  // The last event changed the file.
  lemma CommittedNow(c: ClientPin.Crypto, s: State, evs: seq<Event>) returns (k: nat)
    requires s.expected == 0 && s.received == [] && evs != []
    requires After(c, s, evs).file != After(c, s, evs[..|evs| - 1]).file
    ensures CommittedAt(c, s, evs, |evs| - 1, k, After(c, s, evs).file)
  {
    var n := |evs| - 1;
    var after := After(c, s, evs);
    FileStep(c, After(c, s, evs[..n]), evs[n]);
    BufferIsFragments(c, s, evs);
    RunKeeps(c, s, evs);
    k :| BeganAt(evs, k, after.expected) && after.received == Joined(c, s, evs, k);
    assert evs[..n + 1] == evs;
  }

  // Over every run from power-up, the file is the one there was, or one blob put together
  // from the accepted fragments of a single assembly and nothing else.
  lemma {:induction false} FileIsOneAssembly(c: ClientPin.Crypto, s: State, evs: seq<Event>)
    requires s.expected == 0 && s.received == []
    ensures var file := After(c, s, evs).file;
            file == s.file || exists j: nat, k: nat :: CommittedAt(c, s, evs, j, k, file)
  {
    if evs != [] {
      var n := |evs| - 1;
      var file := After(c, s, evs).file;
      FileIsOneAssembly(c, s, evs[..n]);
      if file != After(c, s, evs[..n]).file {
        var k := CommittedNow(c, s, evs);
      } else if file != s.file {
        var j: nat, k: nat :| CommittedAt(c, s, evs[..n], j, k, file);
        CommittedStays(c, s, evs, j, k, file);
      }
    }
  }

  // ---------- two refusals that should be otherwise ----------

  // A read is refused for everything but its length: the check against the longest fragment
  // looks at another variable. It returns more than 960 bytes exactly if so many are asked for
  // and there.
  lemma LongReads(s: State, r: Request)
    requires r.get > 0
    ensures ReadStep(s, r) == Refused <==> ReadStep(s, r.(get := 1)) == Refused
    ensures ReadStep(s, r).Data? ==>
              (|ReadStep(s, r).data| > MAX_FRAGMENT <==> r.get > MAX_FRAGMENT && |s.file| - r.offset > MAX_FRAGMENT)
  {
  }

  // 961 bytes of a file of 1000.
  lemma LongReadIsAnswered()
    ensures var s := State(0, [], seq(1000, _ => 0));
            var reply := ReadStep(s, Request(961, None, 0, 0, None, 0));
            reply.Data? && |reply.data| == 961
  {
  }

  // An event refused before its fragment is taken changes the state if and only if it restarts
  // an assembly other than the one just begun for that length, authorised or not.
  lemma RefusedRestart(c: ClientPin.Crypto, s: State, ev: Event)
    requires Step(c, s, ev).1 == Refused && !Accepted(c, s, ev)
    ensures Step(c, s, ev).0 != s <==> Restarts(ev.r) && !(s.expected == ev.r.length && s.received == [])
  {
  }

  // Ten of twenty bytes have arrived; a first fragment without authorisation discards them.
  lemma UnauthorisedRestartDiscards(c: ClientPin.Crypto, token: bytes32)
    ensures var s := State(20, seq(10, _ => 7), []);
            var ev := Event(Request(0, Some([0]), 0, 17, None, 0), token, {});
            !Authorised(c, ev) && Step(c, s, ev) == (State(17, [], []), Refused)
  {
  }

  // A refusal leaves all as it was, except that a first fragment of acceptable length has
  // already started over (authorised or not), and that a last fragment stays in the buffer
  // when the hash is wrong.
  lemma RefusalKeeps(c: ClientPin.Crypto, s: State, ev: Event)
    requires Step(c, s, ev).1 == Refused
    ensures Step(c, s, ev).0.file == s.file
    ensures !Accepted(c, s, ev) ==>
              Step(c, s, ev).0 == if Restarts(ev.r) then s.(expected := ev.r.length, received := []) else s
  {
  }

  // ---------- writing and reading back ----------

  function Machine(c: ClientPin.Crypto): (State, Event) -> (State, Reply) {
    (s: State, ev: Event) => Step(c, s, ev)
  }

  // Authorised requests that carry blob from offset on, cut into non-empty fragments.
  predicate Writes(c: ClientPin.Crypto, evs: seq<Event>, blob: bytes, offset: nat)
    requires offset <= |blob|
    decreases |evs|
  {
    if evs == [] then offset == |blob|
    else
      var r := evs[0].r;
      && WellFormed(r) && Authorised(c, evs[0])
      && r.offset == offset && r.length == (if offset == 0 then |blob| else 0)
      && 0 < |r.fragment.value| <= MAX_FRAGMENT
      && offset + |r.fragment.value| <= |blob|
      && r.fragment.value == blob[offset..offset + |r.fragment.value|]
      && Writes(c, evs[1..], blob, offset + |r.fragment.value|)
  }

  // Read requests that follow one another to the end of size bytes.
  predicate Reads(evs: seq<Event>, size: nat, offset: nat)
    requires offset <= size
    decreases |evs|
  {
    if evs == [] then offset == size
    else
      var r := evs[0].r;
      && r.get > 0 && r.fragment.None? && r.length == 0 && r.offset == offset
      && Reads(evs[1..], size, offset + Least(r.get, size - offset))
  }

  predicate AllDone(replies: seq<Reply>) {
    forall i :: 0 <= i < |replies| ==> replies[i] == Done
  }

  function Text(replies: seq<Reply>): bytes {
    if replies == [] then [] else (if replies[0].Data? then replies[0].data else []) + Text(replies[1..])
  }

  // One fragment of such a sequence.
  lemma WritesStep(c: ClientPin.Crypto, s: State, evs: seq<Event>, blob: bytes, offset: nat)
    requires 17 <= |blob| <= MAX_BLOB && offset <= |blob| && evs != []
    requires Writes(c, evs, blob, offset)
    requires offset > 0 ==> s.expected == |blob| && s.received == blob[..offset]
    ensures var (t, reply) := Step(c, s, evs[0]);
            var next := offset + |evs[0].r.fragment.value|;
            && (reply == Done <==> next < |blob| || Sound(c, blob))
            && t.expected == |blob| && t.received == blob[..next]
            && t.file == if next == |blob| && Sound(c, blob) then blob else s.file
  {
    var next := offset + |evs[0].r.fragment.value|;
    assert blob[..next] == blob[..offset] + blob[offset..next];
    assert blob[..|blob|] == blob;
  }

  lemma {:induction false} WritesCommit(c: ClientPin.Crypto, s: State, evs: seq<Event>, blob: bytes, offset: nat)
    requires 17 <= |blob| <= MAX_BLOB && offset < |blob|
    requires Writes(c, evs, blob, offset)
    requires offset > 0 ==> s.expected == |blob| && s.received == blob[..offset]
    ensures var (t, replies) := Walk(Machine(c), s, evs);
            (AllDone(replies) <==> Sound(c, blob)) && t.file == if Sound(c, blob) then blob else s.file
    decreases |evs|
  {
    var next := offset + |evs[0].r.fragment.value|;
    var (s1, reply) := Step(c, s, evs[0]);
    var rest := Walk(Machine(c), s1, evs[1..]).1;
    WritesStep(c, s, evs, blob, offset);
    assert AllDone([reply] + rest) <==> reply == Done && AllDone(rest) by {
      assert forall i :: 0 <= i < |rest| ==> ([reply] + rest)[i + 1] == rest[i];
      assert ([reply] + rest)[0] == reply;
    }
    if next < |blob| {
      WritesCommit(c, s1, evs[1..], blob, next);
    }
  }

  lemma {:induction false} ReadsAll(c: ClientPin.Crypto, s: State, evs: seq<Event>, offset: nat)
    requires offset <= |s.file| < NO_OFFSET && Reads(evs, |s.file|, offset)
    ensures var (t, replies) := Walk(Machine(c), s, evs); t == s && Text(replies) == s.file[offset..]
    decreases |evs|
  {
    if evs != [] {
      var next := offset + Least(evs[0].r.get, |s.file| - offset);
      var rest := Walk(Machine(c), s, evs[1..]).1;
      ReadsAll(c, s, evs[1..], next);
      var replies := [Data(s.file[offset..next])] + rest;
      assert replies[1..] == rest;
      assert s.file[offset..] == s.file[offset..next] + s.file[next..];
    }
  }

  // From any state, a sound blob written in any cut reads back unchanged in any chunks; one
  // that is not sound is refused at its last fragment and leaves the file alone.
  lemma WriteThenRead(c: ClientPin.Crypto, s: State, puts: seq<Event>, gets: seq<Event>, blob: bytes)
    requires 17 <= |blob| <= MAX_BLOB && Writes(c, puts, blob, 0)
    ensures var (t, done) := Walk(Machine(c), s, puts);
            if Sound(c, blob) then
              AllDone(done)
              && (Reads(gets, |blob|, 0) ==> Walk(Machine(c), t, gets).0 == t && Text(Walk(Machine(c), t, gets).1) == blob)
            else !AllDone(done) && t.file == s.file
  {
    WritesCommit(c, s, puts, blob, 0);
    if Sound(c, blob) && Reads(gets, |blob|, 0) {
      ReadsAll(c, Walk(Machine(c), s, puts).0, gets, 0);
      assert blob[0..] == blob;
    }
  }
}
