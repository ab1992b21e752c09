// The stateful cursors of authenticatorCredentialManagement over the credential and RP files
// (src/fido/cbor_cred_mgmt.c; CTAP 2.1 section 6.8), and the class that owns the files.
module CredentialManagement {
  import opened Basics
  import opened Credentials
  import opened CredentialStore
  import opened Runs

  // rp_counter, rp_total, cred_counter, cred_total (one byte each) and rpIdHashx.
  datatype Cursors = Cursors(rpCounter: byte, rpTotal: byte, credCounter: byte, credTotal: byte, rp: bytes32)

  // A found file by its slot, with the total that a begin reports.
  datatype Reply = Found(slot: nat, total: Option<byte>) | Refused(status: Status)

  datatype Event = RpBegin | RpNext | CredBegin(rp: bytes32) | CredNext

  // ---------- the files a cursor walks over ----------

  predicate Live(slot: Option<RpFile>) {
    slot.Some? && slot.value.count > 0
  }

  // The slots below n with a positive RP count, in order.
  function LiveSlots(rps: seq<Option<RpFile>>, n: nat): (r: seq<nat>)
    requires n <= |rps|
    ensures |r| <= n && forall k :: 0 <= k < |r| ==> r[k] < n && Live(rps[r[k]])
  {
    if n == 0 then [] else LiveSlots(rps, n - 1) + if Live(rps[n - 1]) then [n - 1] else []
  }

  // The slots below n with a credential of rp, in order.
  function OwnSlots(creds: seq<Option<CredFile>>, rp: bytes32, n: nat): (r: seq<nat>)
    requires n <= |creds|
    ensures |r| <= n && forall k :: 0 <= k < |r| ==> r[k] < n && Owned(creds[r[k]], rp) == 1
  {
    if n == 0 then [] else OwnSlots(creds, rp, n - 1) + if Owned(creds[n - 1], rp) == 1 then [n - 1] else []
  }

  function RpSlots(t: Tables): (r: seq<nat>)
    ensures |r| <= |t.rps| && forall k :: 0 <= k < |r| ==> r[k] < |t.rps| && Live(t.rps[r[k]])
  {
    LiveSlots(t.rps, |t.rps|)
  }

  function CredSlots(t: Tables, rp: bytes32): (r: seq<nat>)
    ensures |r| <= |t.creds| && forall k :: 0 <= k < |r| ==> r[k] < |t.creds| && Owned(t.creds[r[k]], rp) == 1
  {
    OwnSlots(t.creds, rp, |t.creds|)
  }

  // The position an 8-bit counter that counts hits from 1 stands for.
  function Position(counter: byte): nat {
    if counter == 0 then 255 else counter - 1
  }

  function Successor(b: byte): byte {
    (b + 1) % 256
  }

  // ---------- one request ----------

  function RpBeginStep(t: Tables, c: Cursors): (Cursors, Reply) {
    var live := RpSlots(t);
    var c1 := c.(rpCounter := 1, rpTotal := |live| % 256);
    if live == [] then (c1, Refused(NoCredentials))
    else (c1.(rpCounter := 2), Found(live[0], Some(|live| % 256)))
  }

  function RpNextStep(t: Tables, c: Cursors): (Cursors, Reply) {
    var live := RpSlots(t);
    if c.rpCounter > c.rpTotal then (c, Refused(NotAllowed))
    else if Position(c.rpCounter) >= |live| then (c, Refused(NoCredentials))
    else (c.(rpCounter := Successor(c.rpCounter)), Found(live[Position(c.rpCounter)], None))
  }

  // A credential that cannot be loaded, or whose key cannot be derived, refuses the request.
  function Shown(v: Vault, usable: Credential -> bool, t: Tables, c: Cursors, slot: nat, rp: bytes32, total: Option<byte>)
    : (Cursors, Reply)
    requires slot < |t.creds| && t.creds[slot].Some?
  {
    var loaded := v.load(t.creds[slot].value.id, rp);
    if loaded.None? || !usable(loaded.value) then (c, Refused(NotAllowed))
    else
      var c1 := c.(credCounter := Successor(c.credCounter));
      (if c1.credCounter <= c1.credTotal then c1.(rp := rp) else c1, Found(slot, total))
  }

  function CredBeginStep(v: Vault, usable: Credential -> bool, t: Tables, c: Cursors, rp: bytes32): (Cursors, Reply) {
    var own := CredSlots(t, rp);
    var c1 := c.(credCounter := 1, credTotal := |own| % 256);
    if own == [] then (c1, Refused(NoCredentials))
    else Shown(v, usable, t, c1, own[0], rp, Some(|own| % 256))
  }

  function CredNextStep(v: Vault, usable: Credential -> bool, t: Tables, c: Cursors): (Cursors, Reply) {
    var own := CredSlots(t, c.rp);
    if c.credCounter > c.credTotal then (c, Refused(NotAllowed))
    else if Position(c.credCounter) >= |own| then (c, Refused(NoCredentials))
    else Shown(v, usable, t, c, own[Position(c.credCounter)], c.rp, None)
  }

  function CursorStep(v: Vault, usable: Credential -> bool, t: Tables, c: Cursors, ev: Event): (Cursors, Reply) {
    match ev
    case RpBegin => RpBeginStep(t, c)
    case RpNext => RpNextStep(t, c)
    case CredBegin(rp) => CredBeginStep(v, usable, t, c, rp)
    case CredNext => CredNextStep(v, usable, t, c)
  }

  function Machine(v: Vault, usable: Credential -> bool, t: Tables): (Cursors, Event) -> (Cursors, Reply) {
    (c: Cursors, ev: Event) => CursorStep(v, usable, t, c, ev)
  }

  // Only a credential of the RP asked for, or remembered, that loads and whose key can be
  // derived is ever shown; one that is not is refused, and a begin then stays before it.
  lemma ShownIsUsable(v: Vault, usable: Credential -> bool, t: Tables, c: Cursors, ev: Event, rp: bytes32)
    requires ev == CredBegin(rp) || (ev == CredNext && c.rp == rp)
    ensures var (c1, reply) := CursorStep(v, usable, t, c, ev);
            && (reply.Found? ==>
                  && reply.slot < |t.creds| && t.creds[reply.slot].Some? && t.creds[reply.slot].value.rp == rp
                  && v.load(t.creds[reply.slot].value.id, rp).Some?
                  && usable(v.load(t.creds[reply.slot].value.id, rp).value))
            && (reply.Refused? && ev == CredNext ==> c1 == c)
            && (reply.Refused? && ev != CredNext ==> c1 == c.(credCounter := 1, credTotal := c1.credTotal))
  {
  }

  // ---------- neither cursor disturbs the other ----------

  predicate OnRps(ev: Event) {
    ev.RpBegin? || ev.RpNext?
  }

  // The events and replies of one cursor.
  function Only(rps: bool, evs: seq<Event>): seq<Event> {
    if evs == [] then [] else (if OnRps(evs[0]) == rps then [evs[0]] else []) + Only(rps, evs[1..])
  }

  function RepliesTo(rps: bool, evs: seq<Event>, replies: seq<Reply>): seq<Reply>
    requires |evs| == |replies|
  {
    if evs == [] then []
    else (if OnRps(evs[0]) == rps then [replies[0]] else []) + RepliesTo(rps, evs[1..], replies[1..])
  }

  predicate SameCursor(rps: bool, c: Cursors, d: Cursors) {
    if rps then c.rpCounter == d.rpCounter && c.rpTotal == d.rpTotal
    else c.credCounter == d.credCounter && c.credTotal == d.credTotal && c.rp == d.rp
  }

  lemma StepIndependent(v: Vault, usable: Credential -> bool, t: Tables, c: Cursors, d: Cursors, ev: Event, rps: bool)
    requires SameCursor(rps, c, d)
    ensures OnRps(ev) != rps ==> SameCursor(rps, CursorStep(v, usable, t, c, ev).0, d)
    ensures OnRps(ev) == rps ==>
              var (c1, reply) := CursorStep(v, usable, t, c, ev);
              var (d1, reply') := CursorStep(v, usable, t, d, ev);
              SameCursor(rps, c1, d1) && reply == reply'
  {
  }

  // Interleaved requests to the other cursor change no reply of this one.
  lemma {:induction false} CursorsIndependent(v: Vault, usable: Credential -> bool, t: Tables,
                                              c: Cursors, d: Cursors, evs: seq<Event>, rps: bool)
    requires SameCursor(rps, c, d)
    ensures var (c1, replies) := Walk(Machine(v, usable, t), c, evs);
            var (d1, alone) := Walk(Machine(v, usable, t), d, Only(rps, evs));
            SameCursor(rps, c1, d1) && RepliesTo(rps, evs, replies) == alone
    decreases |evs|
  {
    if evs != [] {
      var ev, rest := evs[0], evs[1..];
      StepIndependent(v, usable, t, c, d, ev, rps);
      var (c1, reply) := CursorStep(v, usable, t, c, ev);
      var (c2, replies) := Walk(Machine(v, usable, t), c1, rest);
      assert Walk(Machine(v, usable, t), c, evs) == (c2, [reply] + replies);
      assert ([reply] + replies)[1..] == replies;
      if OnRps(ev) == rps {
        var d1 := CursorStep(v, usable, t, d, ev).0;
        CursorsIndependent(v, usable, t, c1, d1, rest, rps);
        WalkFirst(Machine(v, usable, t), d, ev, Only(rps, rest));
      } else {
        CursorsIndependent(v, usable, t, c1, d, rest, rps);
        assert [] + Only(rps, rest) == Only(rps, rest);
        assert [] + RepliesTo(rps, rest, replies) == RepliesTo(rps, rest, replies);
      }
    }
  }

  // ---------- one cursor visits every file once ----------

  function Repeat(ev: Event, n: nat): seq<Event> {
    if n == 0 then [] else [ev] + Repeat(ev, n - 1)
  }

  // The replies that show the slots in order, the first with the total.
  function Showing(slots: seq<nat>, total: Option<byte>): seq<Reply> {
    if slots == [] then [] else [Found(slots[0], total)] + Showing(slots[1..], None)
  }

  lemma FitsByte(n: nat)
    requires n <= 255
    ensures n % 256 == n
  {
  }

  lemma RpStepShows(t: Tables, c: Cursors, k: nat)
    requires k < |RpSlots(t)| <= 255
    requires k > 0 ==> c.rpCounter == (k + 1) % 256 && c.rpTotal == |RpSlots(t)|
    ensures (if k == 0 then RpBeginStep(t, c) else RpNextStep(t, c)) ==
            (c.(rpCounter := (k + 2) % 256, rpTotal := |RpSlots(t)|),
             Found(RpSlots(t)[k], if k == 0 then Some(|RpSlots(t)|) else None))
  {
  }

  lemma ShowingFrom(slots: seq<nat>, k: nat)
    requires k < |slots|
    ensures Showing(slots[k..], None) == [Found(slots[k], None)] + Showing(slots[k + 1..], None)
  {
    assert slots[k..][1..] == slots[k + 1..];
  }

  lemma {:induction false} RpNexts(v: Vault, usable: Credential -> bool, t: Tables, c: Cursors, k: nat)
    requires 1 <= k <= |RpSlots(t)| <= 255
    requires c.rpCounter == (k + 1) % 256 && c.rpTotal == |RpSlots(t)|
    ensures Walk(Machine(v, usable, t), c, Repeat(RpNext, |RpSlots(t)| - k)) ==
            (c.(rpCounter := (|RpSlots(t)| + 1) % 256), Showing(RpSlots(t)[k..], None))
    decreases |RpSlots(t)| - k
  {
    var live := RpSlots(t);
    if k < |live| {
      var c1 := c.(rpCounter := (k + 2) % 256);
      assert CursorStep(v, usable, t, c, RpNext) == (c1, Found(live[k], None)) by {
        RpStepShows(t, c, k);
      }
      RpNexts(v, usable, t, c1, k + 1);
      WalkFirst(Machine(v, usable, t), c, RpNext, Repeat(RpNext, |live| - k - 1));
      ShowingFrom(live, k);
    }
  }

  lemma PastLastRp(v: Vault, usable: Credential -> bool, t: Tables, c: Cursors)
    requires 1 <= |RpSlots(t)| <= 255 && c.rpTotal == |RpSlots(t)| && c.rpCounter == (|RpSlots(t)| + 1) % 256
    ensures CursorStep(v, usable, t, c, RpNext) == (c, Refused(if |RpSlots(t)| <= 254 then NotAllowed else NoCredentials))
  {
  }

  function RpRun(t: Tables): seq<Event>
    requires RpSlots(t) != []
  {
    [RpBegin] + Repeat(RpNext, |RpSlots(t)| - 1)
  }

  // The RP cursor when all RPs have been shown.
  function PastRps(t: Tables, c: Cursors): Cursors {
    c.(rpCounter := (|RpSlots(t)| + 1) % 256, rpTotal := |RpSlots(t)| % 256)
  }

  lemma RpRunShows(v: Vault, usable: Credential -> bool, t: Tables, c: Cursors)
    requires 1 <= |RpSlots(t)| <= 255
    ensures Walk(Machine(v, usable, t), c, RpRun(t)) == (PastRps(t, c), Showing(RpSlots(t), Some(|RpSlots(t)|)))
  {
    var live := RpSlots(t);
    var c1 := c.(rpCounter := 2, rpTotal := |live|);
    assert CursorStep(v, usable, t, c, RpBegin) == (c1, Found(live[0], Some(|live|))) by {
      RpStepShows(t, c, 0);
    }
    RpNexts(v, usable, t, c1, 1);
    WalkFirst(Machine(v, usable, t), c, RpBegin, Repeat(RpNext, |live| - 1));
    FitsByte(|live|);
  }

  // begin and n - 1 times next show the n RPs once each in slot order, and the total is n.
  // One further next is always refused: as not allowed up to 254 RPs, as out of credentials
  // with 255, where the byte counter has wrapped.
  lemma RpEnumeration(v: Vault, usable: Credential -> bool, t: Tables, c: Cursors)
    requires 1 <= |RpSlots(t)| <= 255
    ensures var live := RpSlots(t);
            var (c1, replies) := Walk(Machine(v, usable, t), c, RpRun(t));
            && replies == Showing(live, Some(|live|))
            && CursorStep(v, usable, t, c1, RpNext).1 == Refused(if |live| <= 254 then NotAllowed else NoCredentials)
  {
    RpRunShows(v, usable, t, c);
    FitsByte(|RpSlots(t)|);
    PastLastRp(v, usable, t, PastRps(t, c));
  }

  // With all 256 RP slots in use the total wraps to 0 and enumeration stops after the first.
  lemma FullRpTable(v: Vault, usable: Credential -> bool, t: Tables, c: Cursors)
    requires |RpSlots(t)| == 256
    ensures var (c1, reply) := CursorStep(v, usable, t, c, RpBegin);
            && reply == Found(RpSlots(t)[0], Some(0))
            && CursorStep(v, usable, t, c1, RpNext) == (c1, Refused(NotAllowed))
  {
  }

  // Tables with 256 RPs, of one credential each.
  function RpOf(i: byte): bytes32 {
    [i] + Zeros32()[1..]
  }

  function FileNumber(i: byte): CredFile {
    CredFile(RpOf(i), seq(RESIDENT_LEN, _ => 0), [])
  }

  function Owners(n: nat): seq<Option<CredFile>>
    requires n <= SLOTS
  {
    seq(n, i requires 0 <= i < n => Some(FileNumber(i)))
  }

  function Records(n: nat): seq<Option<RpFile>>
    requires n <= SLOTS
  {
    seq(n, i requires 0 <= i < n => Some(RpFile(1, RpOf(i), [])))
  }

  lemma RpsDistinct(i: byte, j: byte)
    ensures RpOf(i) == RpOf(j) <==> i == j
  {
    assert RpOf(i)[0] == i && RpOf(j)[0] == j;
  }

  lemma {:induction false} OneEach(n: nat, j: byte)
    requires n <= SLOTS
    ensures Count(Owners(n), RpOf(j)) == if j < n then 1 else 0
  {
    if n > 0 {
      assert Owners(n)[..n - 1] == Owners(n - 1);
      OneEach(n - 1, j);
      RpsDistinct(n - 1, j);
    }
  }

  lemma {:induction false} AllLive(n: nat, m: nat)
    requires n <= m <= SLOTS
    ensures |LiveSlots(Records(m), n)| == n
  {
    if n > 0 { AllLive(n - 1, m); }
  }

  lemma ManyOwnersAgree()
    ensures Agrees(Tables(Owners(SLOTS), Records(SLOTS)))
  {
    var t := Tables(Owners(SLOTS), Records(SLOTS));
    forall j | 0 <= j < SLOTS ensures CountsRight(t.creds, t.rps[j]) {
      OneEach(SLOTS, j);
    }
    forall i, j | 0 <= i < j < SLOTS ensures t.rps[i].value.rp != t.rps[j].value.rp {
      RpsDistinct(i, j);
    }
    forall i | 0 <= i < SLOTS ensures HasRecord(t.rps, t.creds[i].value.rp) {
      assert RecordFor(t.rps[i], RpOf(i));
    }
  }

  // They agree, and the enumeration stops after the first RP with a total of 0.
  lemma ManyOwnersAreNotListed(v: Vault, usable: Credential -> bool, c: Cursors)
    ensures var t := Tables(Owners(SLOTS), Records(SLOTS));
            var (c1, reply) := CursorStep(v, usable, t, c, RpBegin);
            && Agrees(t) && |RpSlots(t)| == SLOTS
            && reply.Found? && reply.total == Some(0)
            && CursorStep(v, usable, t, c1, RpNext) == (c1, Refused(NotAllowed))
  {
    ManyOwnersAgree();
    AllLive(SLOTS, SLOTS);
    FullRpTable(v, usable, Tables(Owners(SLOTS), Records(SLOTS)), c);
  }

  // Every credential of rp can be shown.
  ghost predicate Showable(v: Vault, usable: Credential -> bool, t: Tables, rp: bytes32) {
    forall i :: 0 <= i < |t.creds| && Owned(t.creds[i], rp) == 1 ==>
      v.load(t.creds[i].value.id, rp).Some? && usable(v.load(t.creds[i].value.id, rp).value)
  }

  // The credential cursor when k credentials of rp have been shown.
  predicate Past(t: Tables, rp: bytes32, k: nat, c: Cursors) {
    var n := |CredSlots(t, rp)|;
    c.credCounter == (k + 1) % 256 && c.credTotal == n && (k < n || n == 255 ==> c.rp == rp)
  }

  predicate SameRpCursor(c: Cursors, d: Cursors) {
    c.rpCounter == d.rpCounter && c.rpTotal == d.rpTotal
  }

  lemma CredStepShows(v: Vault, usable: Credential -> bool, t: Tables, c: Cursors, rp: bytes32, k: nat, first: bool)
    requires k < |CredSlots(t, rp)| <= 255 && Showable(v, usable, t, rp)
    requires if first then k == 0 else k > 0 && Past(t, rp, k, c)
    ensures var own := CredSlots(t, rp);
            var (c1, reply) := CursorStep(v, usable, t, c, if first then CredBegin(rp) else CredNext);
            && reply == Found(own[k], if first then Some(|own|) else None)
            && Past(t, rp, k + 1, c1) && SameRpCursor(c, c1)
  {
    FitsByte(k + 1);
    assert Owned(t.creds[CredSlots(t, rp)[k]], rp) == 1;
  }

  lemma {:induction false} CredNexts(v: Vault, usable: Credential -> bool, t: Tables, c: Cursors, rp: bytes32, k: nat)
    requires 1 <= k <= |CredSlots(t, rp)| <= 255 && Showable(v, usable, t, rp) && Past(t, rp, k, c)
    ensures var own := CredSlots(t, rp);
            var (c1, replies) := Walk(Machine(v, usable, t), c, Repeat(CredNext, |own| - k));
            && replies == Showing(own[k..], None)
            && Past(t, rp, |own|, c1) && SameRpCursor(c, c1)
    decreases |CredSlots(t, rp)| - k
  {
    var own := CredSlots(t, rp);
    if k < |own| {
      CredStepShows(v, usable, t, c, rp, k, false);
      CredNexts(v, usable, t, CursorStep(v, usable, t, c, CredNext).0, rp, k + 1);
      WalkFirst(Machine(v, usable, t), c, CredNext, Repeat(CredNext, |own| - k - 1));
      ShowingFrom(own, k);
    }
  }

  function CredRun(t: Tables, rp: bytes32): seq<Event> {
    var n := |CredSlots(t, rp)|;
    [CredBegin(rp)] + Repeat(CredNext, if n == 0 then 0 else n - 1)
  }

  lemma CredRunShows(v: Vault, usable: Credential -> bool, t: Tables, c: Cursors, rp: bytes32)
    requires 1 <= |CredSlots(t, rp)| <= 255 && Showable(v, usable, t, rp)
    ensures var own := CredSlots(t, rp);
            var (c1, replies) := Walk(Machine(v, usable, t), c, CredRun(t, rp));
            replies == Showing(own, Some(|own|)) && Past(t, rp, |own|, c1) && SameRpCursor(c, c1)
  {
    var own := CredSlots(t, rp);
    CredStepShows(v, usable, t, c, rp, 0, true);
    CredNexts(v, usable, t, CursorStep(v, usable, t, c, CredBegin(rp)).0, rp, 1);
    WalkFirst(Machine(v, usable, t), c, CredBegin(rp), Repeat(CredNext, |own| - 1));
  }

  // begin and next show the credentials of one RP once each in slot order with their number,
  // and leave the RP cursor alone. One further next is always refused: as not allowed up to 254
  // credentials, as out of credentials with 255, where the byte counter has wrapped.
  lemma CredEnumeration(v: Vault, usable: Credential -> bool, t: Tables, c: Cursors, rp: bytes32)
    requires 1 <= |CredSlots(t, rp)| <= 255 && Showable(v, usable, t, rp)
    ensures var own := CredSlots(t, rp);
            var (c1, replies) := Walk(Machine(v, usable, t), c, CredRun(t, rp));
            && replies == Showing(own, Some(|own|))
            && c1.rpCounter == c.rpCounter && c1.rpTotal == c.rpTotal
            && CursorStep(v, usable, t, c1, CredNext) == (c1, Refused(if |own| <= 254 then NotAllowed else NoCredentials))
  {
    CredRunShows(v, usable, t, c, rp);
    PastLast(v, usable, t, Walk(Machine(v, usable, t), c, CredRun(t, rp)).0, rp);
  }

  lemma PastLast(v: Vault, usable: Credential -> bool, t: Tables, c: Cursors, rp: bytes32)
    requires 1 <= |CredSlots(t, rp)| <= 255 && Past(t, rp, |CredSlots(t, rp)|, c)
    ensures CursorStep(v, usable, t, c, CredNext)
            == (c, Refused(if |CredSlots(t, rp)| <= 254 then NotAllowed else NoCredentials))
  {
  }

  // With all 256 credential files the total wraps to 0 and enumeration stops after the first.
  lemma FullCredTable(v: Vault, usable: Credential -> bool, t: Tables, c: Cursors, rp: bytes32)
    requires |CredSlots(t, rp)| == 256 && Showable(v, usable, t, rp)
    ensures var (c1, reply) := CursorStep(v, usable, t, c, CredBegin(rp));
            && reply == Found(CredSlots(t, rp)[0], Some(0))
            && CursorStep(v, usable, t, c1, CredNext) == (c1, Refused(NotAllowed))
  {
    assert Owned(t.creds[CredSlots(t, rp)[0]], rp) == 1;
  }

  // An RP is listed if and only if it has a credential and does not own all the files: its
  // one-byte count then reads 0.
  lemma ListedIff(t: Tables, rp: bytes32)
    requires Agrees(t)
    ensures (exists k :: 0 <= k < |RpSlots(t)| && RpAt(t, k) == rp) <==> 0 < Count(t.creds, rp) < SLOTS
  {
    AgreementPerRp(t, rp);
    if k :| 0 <= k < |RpSlots(t)| && RpAt(t, k) == rp {
      assert RecordFor(t.rps[RpSlots(t)[k]], rp) && CountsRight(t.creds, t.rps[RpSlots(t)[k]]);
    }
    if 0 < Count(t.creds, rp) < SLOTS {
      var j :| 0 <= j < SLOTS && RecordFor(t.rps[j], rp) && t.rps[j].value.count == Count(t.creds, rp);
      LiveSlotsExact(t.rps, SLOTS, j);
      var k :| 0 <= k < |RpSlots(t)| && RpSlots(t)[k] == j;
      assert RpAt(t, k) == rp;
    }
  }

  // Tables in which one RP owns every file.
  function OneOwner(f: CredFile): Tables {
    Tables(seq(SLOTS, _ => Some(f)), [Some(RpFile(0, f.rp, []))] + EmptyTables().rps[1..])
  }

  lemma {:induction false} OneOwnerCount(f: CredFile, n: nat, rp: bytes32)
    ensures Count(seq(n, _ => Some(f)), rp) == if rp == f.rp then n else 0
  {
    if n > 0 {
      var s: seq<Option<CredFile>> := seq(n, _ => Some(f));
      assert s[..n - 1] == seq(n - 1, _ => Some(f));
      OneOwnerCount(f, n - 1, rp);
    }
  }

  // They agree, and list no RP at all.
  lemma OneOwnerIsNotListed(v: Vault, usable: Credential -> bool, f: CredFile, c: Cursors)
    ensures Agrees(OneOwner(f)) && Count(OneOwner(f).creds, f.rp) == SLOTS
    ensures CursorStep(v, usable, OneOwner(f), c, RpBegin).1 == Refused(NoCredentials)
  {
    var t := OneOwner(f);
    OneOwnerCount(f, SLOTS, f.rp);
    assert RecordFor(t.rps[0], f.rp);
    assert Agrees(t);
    if RpSlots(t) != [] {
      ListedIff(t, RpAt(t, 0));
      OneOwnerCount(f, SLOTS, RpAt(t, 0));
      assert false;
    }
  }

  // ---------- the nested enumeration visits every credential exactly once ----------

  function RpAt(t: Tables, k: nat): bytes32
    requires k < |RpSlots(t)|
  {
    t.rps[RpSlots(t)[k]].value.rp
  }

  // One round: a request for the k-th RP and those for its credentials.
  function Round(t: Tables, k: nat): seq<Event>
    requires k < |RpSlots(t)|
  {
    [if k == 0 then RpBegin else RpNext] + CredRun(t, RpAt(t, k))
  }

  // The requests of a platform that lists everything, from the k-th RP on.
  function Listing(t: Tables, k: nat): seq<Event>
    requires k <= |RpSlots(t)|
    decreases |RpSlots(t)| - k
  {
    var live := RpSlots(t);
    if k == |live| then [] else Round(t, k) + Listing(t, k + 1)
  }

  // The replies to a round: the RP and its credentials, the first of a kind with the total.
  function ListedRound(t: Tables, k: nat): seq<Reply>
    requires k < |RpSlots(t)|
  {
    var own := CredSlots(t, RpAt(t, k));
    [Found(RpSlots(t)[k], if k == 0 then Some(|RpSlots(t)| % 256) else None)] + Showing(own, Some(|own| % 256))
  }

  function Listed(t: Tables, k: nat): seq<Reply>
    requires k <= |RpSlots(t)|
    decreases |RpSlots(t)| - k
  {
    if k == |RpSlots(t)| then [] else ListedRound(t, k) + Listed(t, k + 1)
  }

  lemma {:induction false} OwnSlotsCount(creds: seq<Option<CredFile>>, rp: bytes32, n: nat)
    requires n <= |creds|
    ensures |OwnSlots(creds, rp, n)| == Count(creds[..n], rp)
  {
    if n > 0 {
      OwnSlotsCount(creds, rp, n - 1);
      assert creds[..n][..n - 1] == creds[..n - 1];
    }
  }

  // One round of the listing: an RP request and the requests for its credentials.
  lemma ListingRound(v: Vault, usable: Credential -> bool, t: Tables, c: Cursors, k: nat, rp: bytes32, head: Event)
    requires k < |RpSlots(t)| <= 255 && head == if k == 0 then RpBegin else RpNext
    requires 1 <= |CredSlots(t, rp)| <= 255 && Showable(v, usable, t, rp)
    requires k > 0 ==> c.rpCounter == (k + 1) % 256 && c.rpTotal == |RpSlots(t)|
    ensures var (c1, replies) := Walk(Machine(v, usable, t), c, [head] + CredRun(t, rp));
            && replies == [Found(RpSlots(t)[k], if k == 0 then Some(|RpSlots(t)|) else None)]
                          + Showing(CredSlots(t, rp), Some(|CredSlots(t, rp)|))
            && c1.rpCounter == (k + 2) % 256 && c1.rpTotal == |RpSlots(t)|
  {
    var c1 := c.(rpCounter := (k + 2) % 256, rpTotal := |RpSlots(t)|);
    var reply := Found(RpSlots(t)[k], if k == 0 then Some(|RpSlots(t)|) else None);
    assert CursorStep(v, usable, t, c, head) == (c1, reply) by {
      RpStepShows(t, c, k);
    }
    CredRunShows(v, usable, t, c1, rp);
    var (c2, replies) := Walk(Machine(v, usable, t), c1, CredRun(t, rp));
    assert Walk(Machine(v, usable, t), c, [head] + CredRun(t, rp)) == (c2, [reply] + replies) by {
      WalkFirst(Machine(v, usable, t), c, head, CredRun(t, rp));
    }
  }

  lemma CredSlotsOfLive(t: Tables, k: nat)
    requires Agrees(t) && k < |RpSlots(t)|
    ensures |CredSlots(t, RpAt(t, k))| == Count(t.creds, RpAt(t, k)) >= 1
  {
    OwnSlotsCount(t.creds, RpAt(t, k), SLOTS);
    assert t.creds[..SLOTS] == t.creds;
    assert CountsRight(t.creds, t.rps[RpSlots(t)[k]]);
  }

  // The p-th RP has credentials, all of which can be shown.
  ghost predicate Listable(v: Vault, usable: Credential -> bool, t: Tables, p: nat)
    requires p < |RpSlots(t)|
  {
    1 <= |CredSlots(t, RpAt(t, p))| <= 255 && Showable(v, usable, t, RpAt(t, p))
  }

  lemma {:induction false} ListingReplies(v: Vault, usable: Credential -> bool, t: Tables, c: Cursors, k: nat)
    requires k <= |RpSlots(t)| <= 255
    requires forall p :: 0 <= p < |RpSlots(t)| ==> Listable(v, usable, t, p)
    requires k > 0 ==> c.rpCounter == (k + 1) % 256 && c.rpTotal == |RpSlots(t)|
    ensures Walk(Machine(v, usable, t), c, Listing(t, k)).1 == Listed(t, k)
    decreases |RpSlots(t)| - k
  {
    if k < |RpSlots(t)| {
      RoundShown(v, usable, t, c, k);
      var c1 := Walk(Machine(v, usable, t), c, Round(t, k)).0;
      ListingReplies(v, usable, t, c1, k + 1);
      WalkConcat(Machine(v, usable, t), c, Round(t, k), Listing(t, k + 1));
    }
  }

  lemma RoundShown(v: Vault, usable: Credential -> bool, t: Tables, c: Cursors, k: nat)
    requires k < |RpSlots(t)| <= 255 && Listable(v, usable, t, k)
    requires k > 0 ==> c.rpCounter == (k + 1) % 256 && c.rpTotal == |RpSlots(t)|
    ensures var (c1, shown) := Walk(Machine(v, usable, t), c, Round(t, k));
            shown == ListedRound(t, k) && c1.rpCounter == (k + 2) % 256 && c1.rpTotal == |RpSlots(t)|
  {
    FitsByte(|RpSlots(t)|);
    FitsByte(|CredSlots(t, RpAt(t, k))|);
    ListingRound(v, usable, t, c, k, RpAt(t, k), if k == 0 then RpBegin else RpNext);
  }

  // The slots the credential replies of the listing name, one block per RP.
  function Visited(t: Tables, k: nat): seq<nat>
    requires k <= |RpSlots(t)|
    decreases |RpSlots(t)| - k
  {
    var live := RpSlots(t);
    if k == |live| then []
    else CredSlots(t, RpAt(t, k)) + Visited(t, k + 1)
  }

  function Occurrences(s: seq<nat>, i: nat): nat {
    if s == [] then 0 else (if s[0] == i then 1 else 0) + Occurrences(s[1..], i)
  }

  lemma {:induction false} OccurrencesConcat(a: seq<nat>, b: seq<nat>, i: nat)
    ensures Occurrences(a + b, i) == Occurrences(a, i) + Occurrences(b, i)
  {
    if a == [] {
      assert a + b == b;
    } else {
      assert (a + b)[1..] == a[1..] + b;
      OccurrencesConcat(a[1..], b, i);
    }
  }

  lemma {:induction false} OccursIfIn(s: seq<nat>, i: nat)
    ensures Occurrences(s, i) > 0 <==> i in s
  {
    if s != [] {
      OccursIfIn(s[1..], i);
      assert s == [s[0]] + s[1..];
    }
  }

  lemma {:induction false} OwnSlotsExact(creds: seq<Option<CredFile>>, rp: bytes32, n: nat, i: nat)
    requires n <= |creds|
    ensures Occurrences(OwnSlots(creds, rp, n), i) == if i < n && Owned(creds[i], rp) == 1 then 1 else 0
  {
    if n > 0 {
      OwnSlotsExact(creds, rp, n - 1, i);
      OccurrencesConcat(OwnSlots(creds, rp, n - 1), if Owned(creds[n - 1], rp) == 1 then [n - 1] else [], i);
    }
  }

  lemma {:induction false} LiveSlotsExact(rps: seq<Option<RpFile>>, n: nat, j: nat)
    requires n <= |rps| && j < n && Live(rps[j])
    ensures j in LiveSlots(rps, n)
  {
    if j < n - 1 {
      LiveSlotsExact(rps, n - 1, j);
    }
  }

  lemma {:induction false} LiveSlotsIncrease(rps: seq<Option<RpFile>>, n: nat)
    requires n <= |rps|
    ensures forall a, b :: 0 <= a < b < |LiveSlots(rps, n)| ==> LiveSlots(rps, n)[a] < LiveSlots(rps, n)[b]
  {
    if n > 0 {
      LiveSlotsIncrease(rps, n - 1);
    }
  }

  // Slot i belongs to the p-th RP and to no other.
  ghost predicate OnlyAt(t: Tables, i: nat, p: nat) {
    i < |t.creds| && t.creds[i].Some?
    && forall q :: 0 <= q < |RpSlots(t)| ==> (RpAt(t, q) == t.creds[i].value.rp <==> q == p)
  }

  lemma VisitedStep(t: Tables, k: nat, i: nat)
    requires k < |RpSlots(t)| && i < |t.creds| && t.creds[i].Some?
    ensures Occurrences(Visited(t, k), i)
            == (if RpAt(t, k) == t.creds[i].value.rp then 1 else 0) + Occurrences(Visited(t, k + 1), i)
  {
    OwnSlotsExact(t.creds, RpAt(t, k), |t.creds|, i);
    OccurrencesConcat(CredSlots(t, RpAt(t, k)), Visited(t, k + 1), i);
  }

  // How often the listing from the k-th RP on visits slot i, whose RP is the p-th: once if
  // the p-th is still to come.
  lemma {:induction false} VisitedExact(t: Tables, k: nat, i: nat, p: nat)
    requires k <= |RpSlots(t)| && OnlyAt(t, i, p)
    ensures Occurrences(Visited(t, k), i) == if k <= p < |RpSlots(t)| then 1 else 0
    decreases |RpSlots(t)| - k
  {
    if k < |RpSlots(t)| {
      VisitedExact(t, k + 1, i, p);
      VisitedStep(t, k, i);
      assert RpAt(t, k) == t.creds[i].value.rp <==> k == p;
    }
  }

  lemma {:induction false} VisitsOnlyStored(t: Tables, k: nat, i: nat)
    requires Agrees(t) && k <= |RpSlots(t)|
    requires i in Visited(t, k)
    ensures i < SLOTS && t.creds[i].Some?
    decreases |RpSlots(t)| - k
  {
    var live := RpSlots(t);
    if k < |live| && i !in CredSlots(t, RpAt(t, k)) {
      VisitsOnlyStored(t, k + 1, i);
    }
  }

  // ---------- the visits are what the replies say ----------

  // The slots that replies show.
  function SlotsOf(replies: seq<Reply>): seq<nat> {
    if replies == [] then [] else SlotOf(replies[0]) + SlotsOf(replies[1..])
  }

  function SlotOf(reply: Reply): seq<nat> {
    if reply.Found? then [reply.slot] else []
  }

  lemma {:induction false} SlotsConcat(a: seq<Reply>, b: seq<Reply>)
    ensures SlotsOf(a + b) == SlotsOf(a) + SlotsOf(b)
  {
    if a == [] {
      assert a + b == b;
    } else {
      assert (a + b)[1..] == a[1..] + b && (a + b)[0] == a[0];
      SlotsConcat(a[1..], b);
      Associate(SlotOf(a[0]), SlotsOf(a[1..]), SlotsOf(b));
    }
  }

  lemma {:induction false} SlotsShown(slots: seq<nat>, total: Option<byte>)
    ensures SlotsOf(Showing(slots, total)) == slots && |Showing(slots, total)| == |slots|
    decreases |slots|
  {
    if slots != [] {
      SlotsShown(slots[1..], None);
      assert Showing(slots, total)[1..] == Showing(slots[1..], None);
    }
  }

  // The reply to one request, if it is one to this cursor.
  function Own(rps: bool, ev: Event, reply: Reply): seq<Reply> {
    if OnRps(ev) == rps then [reply] else []
  }

  lemma RepliesFirst(rps: bool, ev: Event, evs: seq<Event>, reply: Reply, replies: seq<Reply>)
    requires |evs| == |replies|
    ensures RepliesTo(rps, [ev] + evs, [reply] + replies) == Own(rps, ev, reply) + RepliesTo(rps, evs, replies)
  {
    assert ([ev] + evs)[1..] == evs && ([reply] + replies)[1..] == replies;
  }

  lemma {:induction false} RepliesConcat(rps: bool, a: seq<Event>, b: seq<Event>, ra: seq<Reply>, rb: seq<Reply>)
    requires |a| == |ra| && |b| == |rb|
    ensures RepliesTo(rps, a + b, ra + rb) == RepliesTo(rps, a, ra) + RepliesTo(rps, b, rb)
    decreases |a|
  {
    if a == [] {
      assert a + b == b && ra + rb == rb;
    } else {
      var ev, reply, evs, replies := a[0], ra[0], a[1..], ra[1..];
      RepliesConcat(rps, evs, b, replies, rb);
      RepliesFirst(rps, ev, evs, reply, replies);
      RepliesFirst(rps, ev, evs + b, reply, replies + rb);
      assert a == [ev] + evs && a + b == [ev] + (evs + b);
      assert ra == [reply] + replies && ra + rb == [reply] + (replies + rb);
      Associate(Own(rps, ev, reply), RepliesTo(rps, evs, replies), RepliesTo(rps, b, rb));
    }
  }

  // Requests of one cursor only: all replies are its own, none the other's.
  lemma {:induction false} RepliesOfOne(rps: bool, evs: seq<Event>, replies: seq<Reply>)
    requires |evs| == |replies| && forall i :: 0 <= i < |evs| ==> OnRps(evs[i]) == rps
    ensures RepliesTo(rps, evs, replies) == replies && RepliesTo(!rps, evs, replies) == []
    decreases |evs|
  {
    if evs != [] { RepliesOfOne(rps, evs[1..], replies[1..]); }
  }

  lemma {:induction false} RepeatOf(ev: Event, n: nat)
    ensures |Repeat(ev, n)| == n && forall i :: 0 <= i < n ==> Repeat(ev, n)[i] == ev
  {
    if n > 0 { RepeatOf(ev, n - 1); }
  }

  // One round of the listing shows the k-th RP and then its credentials.
  lemma RoundSlots(t: Tables, k: nat, head: Reply, shown: seq<Reply>)
    requires k < |RpSlots(t)| && |shown| == |CredSlots(t, RpAt(t, k))| >= 1
    ensures |Round(t, k)| == |[head] + shown|
    ensures RepliesTo(true, Round(t, k), [head] + shown) == [head]
    ensures RepliesTo(false, Round(t, k), [head] + shown) == shown
  {
    var rp := RpAt(t, k);
    var first := [if k == 0 then RpBegin else RpNext];
    RepeatOf(CredNext, |CredSlots(t, rp)| - 1);
    RepliesOfOne(true, first, [head]);
    RepliesOfOne(false, CredRun(t, rp), shown);
    RepliesConcat(true, first, CredRun(t, rp), [head], shown);
    RepliesConcat(false, first, CredRun(t, rp), [head], shown);
  }

  // The RP replies of the listing show the RPs in order, its credential replies the slots
  // visited.
  ghost predicate ShowsAll(t: Tables, k: nat, evs: seq<Event>, replies: seq<Reply>)
    requires k <= |RpSlots(t)|
  {
    && |evs| == |replies|
    && SlotsOf(RepliesTo(true, evs, replies)) == RpSlots(t)[k..]
    && SlotsOf(RepliesTo(false, evs, replies)) == Visited(t, k)
  }

  lemma SlotsOfBoth(rps: bool, a: seq<Event>, b: seq<Event>, ra: seq<Reply>, rb: seq<Reply>, own: seq<Reply>)
    requires |a| == |ra| && |b| == |rb| && RepliesTo(rps, a, ra) == own
    ensures SlotsOf(RepliesTo(rps, a + b, ra + rb)) == SlotsOf(own) + SlotsOf(RepliesTo(rps, b, rb))
  {
    RepliesConcat(rps, a, b, ra, rb);
    SlotsConcat(own, RepliesTo(rps, b, rb));
  }

  lemma DropOne(s: seq<nat>, k: nat)
    requires k < |s|
    ensures s[k..] == [s[k]] + s[k + 1..]
  {
  }

  lemma RoundThenRest(t: Tables, k: nat, head: Reply, shown: seq<Reply>, evs: seq<Event>, rest: seq<Reply>)
    requires k < |RpSlots(t)| && head.Found? && |evs| == |rest|
    requires |shown| == |CredSlots(t, RpAt(t, k))| >= 1
    ensures |Round(t, k) + evs| == |[head] + shown + rest|
    ensures SlotsOf(RepliesTo(true, Round(t, k) + evs, [head] + shown + rest)) == [head.slot] + SlotsOf(RepliesTo(true, evs, rest))
    ensures SlotsOf(RepliesTo(false, Round(t, k) + evs, [head] + shown + rest)) == SlotsOf(shown) + SlotsOf(RepliesTo(false, evs, rest))
  {
    RoundSlots(t, k, head, shown);
    SlotsOfBoth(true, Round(t, k), evs, [head] + shown, rest, [head]);
    SlotsOfBoth(false, Round(t, k), evs, [head] + shown, rest, shown);
    SlotsConcat([head], []);
  }

  lemma ShowsRound(t: Tables, k: nat, head: Reply, shown: seq<Reply>, evs: seq<Event>, rest: seq<Reply>)
    requires k < |RpSlots(t)| && ShowsAll(t, k + 1, evs, rest)
    requires head.Found? && head.slot == RpSlots(t)[k]
    requires |shown| == |CredSlots(t, RpAt(t, k))| >= 1 && SlotsOf(shown) == CredSlots(t, RpAt(t, k))
    ensures ShowsAll(t, k, Round(t, k) + evs, [head] + shown + rest)
  {
    RoundThenRest(t, k, head, shown, evs, rest);
    DropOne(RpSlots(t), k);
  }

  lemma {:induction false} ListedShowsAll(t: Tables, k: nat)
    requires Agrees(t) && k <= |RpSlots(t)|
    ensures ShowsAll(t, k, Listing(t, k), Listed(t, k))
    decreases |RpSlots(t)| - k
  {
    if k < |RpSlots(t)| {
      ListedShowsAll(t, k + 1);
      RoundShowsAll(t, k, Listing(t, k + 1), Listed(t, k + 1));
    }
  }

  lemma RoundShowsAll(t: Tables, k: nat, evs: seq<Event>, rest: seq<Reply>)
    requires Agrees(t) && k < |RpSlots(t)| && ShowsAll(t, k + 1, evs, rest)
    ensures ShowsAll(t, k, Round(t, k) + evs, ListedRound(t, k) + rest)
  {
    var own := CredSlots(t, RpAt(t, k));
    CredSlotsOfLive(t, k);
    SlotsShown(own, Some(|own| % 256));
    ShowsRound(t, k, ListedRound(t, k)[0], Showing(own, Some(|own| % 256)), evs, rest);
    assert ListedRound(t, k) == [ListedRound(t, k)[0]] + Showing(own, Some(|own| % 256));
  }

  // The RP that owns slot i has one place among the RPs listed.
  lemma PlaceOf(t: Tables, i: nat) returns (p: nat)
    requires Agrees(t) && i < SLOTS && t.creds[i].Some? && Count(t.creds, t.creds[i].value.rp) <= 255
    ensures p < |RpSlots(t)| && OnlyAt(t, i, p)
  {
    var rp := t.creds[i].value.rp;
    CountPositive(t.creds, rp);
    assert Owned(t.creds[i], rp) == 1;
    AgreementPerRp(t, rp);
    var j :| 0 <= j < SLOTS && RecordFor(t.rps[j], rp) && t.rps[j].value.count == Count(t.creds, rp);
    LiveSlotsExact(t.rps, SLOTS, j);
    p :| 0 <= p < |RpSlots(t)| && RpSlots(t)[p] == j;
    LiveSlotsIncrease(t.rps, SLOTS);
    forall q | 0 <= q < |RpSlots(t)|
      ensures RpAt(t, q) == rp <==> q == p
    {
      assert RecordFor(t.rps[RpSlots(t)[q]], RpAt(t, q));
    }
  }

  lemma VisitedOnce(t: Tables, i: nat)
    requires Agrees(t) && forall rp: bytes32 :: Count(t.creds, rp) <= 255
    ensures Occurrences(Visited(t, 0), i) == if i < SLOTS && t.creds[i].Some? then 1 else 0
  {
    if i < SLOTS && t.creds[i].Some? {
      var p := PlaceOf(t, i);
      VisitedExact(t, 0, i, p);
    } else {
      OccursIfIn(Visited(t, 0), i);
      if i in Visited(t, 0) {
        VisitsOnlyStored(t, 0, i);
      }
    }
  }

  // Every credential of every RP can be shown, and no RP has more than a byte can count.
  ghost predicate AllListable(v: Vault, usable: Credential -> bool, t: Tables) {
    forall rp: bytes32 :: Showable(v, usable, t, rp) && Count(t.creds, rp) <= 255
  }

  // Listing everything, the RP replies show every live RP in slot order, and the credential
  // replies show every stored credential exactly once and nothing else.
  lemma FullEnumeration(v: Vault, usable: Credential -> bool, t: Tables, c: Cursors, i: nat)
    requires Agrees(t) && |RpSlots(t)| <= 255 && AllListable(v, usable, t)
    ensures var evs := Listing(t, 0);
            var replies := Walk(Machine(v, usable, t), c, evs).1;
            && replies == Listed(t, 0)
            && SlotsOf(RepliesTo(true, evs, replies)) == RpSlots(t)
            && Occurrences(SlotsOf(RepliesTo(false, evs, replies)), i) == if i < SLOTS && t.creds[i].Some? then 1 else 0
  {
    forall p | 0 <= p < |RpSlots(t)|
      ensures Listable(v, usable, t, p)
    {
      CredSlotsOfLive(t, p);
    }
    ListingReplies(v, usable, t, c, 0);
    ListedShowsAll(t, 0);
    assert RpSlots(t)[0..] == RpSlots(t);
    VisitedOnce(t, i);
  }
}
