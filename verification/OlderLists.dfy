// Two answers of getAssertion and getNextAssertion that the specification does not know: one
// from the list of an older request, and one without a credential
// (src/fido/cbor_get_assertion.c; CTAP 2.1 sections 6.2.2 and 6.3).
module OlderLists {
  import opened Assertions
  import opened Basics
  import opened Credentials
  import opened CredentialSearch
  import opened CredentialStore
  import opened Runs
  import ClientPin
  import Tokens

  // ---------- an older list ----------

  // The opening leaves a list.
  predicate Several(ev: Event)
    requires ev.Open?
  {
    ev.found.Some? && |ev.es| > 1 && !Single(ev.a, ev.found.value)
  }

  // The second answer from the list an opening leaves.
  function SecondOf(ev: Event): Reply
    requires ev.Open? && |ev.es| > 1
  {
    Answer(ev.es[1], ev.a.up, ev.a.uv, ev.a.rp, ev.a.allow != [], None)
  }

  lemma WalkThree(p: Pending, e1: Event, e2: Event, e3: Event)
    ensures var p1 := Step(p, e1).0;
            var p2 := Step(p1, e2).0;
            Walk(EventMachine(), p, [e1, e2, e3]).1 == [Step(p, e1).1, Step(p1, e2).1, Step(p2, e3).1]
  {
    var p1 := Step(p, e1).0;
    var p2 := Step(p1, e2).0;
    WalkFirst(EventMachine(), p2, e3, []);
    WalkFirst(EventMachine(), p1, e2, [e3]);
    WalkFirst(EventMachine(), p, e1, [e2, e3]);
    assert [e1] + [e2, e3] == [e1, e2, e3] && [e2] + [e3] == [e2, e3] && [e3] + [] == [e3];
  }

  // After an opening that left a list and another opening, the next request is answered from
  // the second list if and only if the second opening left one, and otherwise from the first,
  // for the first's RP and under its flags.
  lemma OlderListStays(p: Pending, first: Event, second: Event, r: Request)
    requires first.Open? && second.Open? && Several(first) && r.signed
    requires !Tokens.Expired((if Several(second) then second else first).a.r.now, r.now)
    ensures Walk(EventMachine(), p, [first, second, Next(r)]).1[2] == SecondOf(if Several(second) then second else first)
  {
    WalkThree(p, first, second, Next(r));
  }

  // Every credential loads, created at a time that is the length of its id.
  function OpenVault(): Vault {
    Vault((b: bytes) => Zeros32(),
          (id: bytes, rp: bytes32) => Some(BLANK.(creation := |id|)),
          (id: bytes) => Zeros32() + Zeros32()[..10],
          (c: Credential, stamp: Stamp) => None)
  }

  function OtherRp(): bytes32 {
    [1] + Zeros32()[1..]
  }

  function FileOf(rp: bytes32, id: bytes): Option<CredFile> {
    Some(CredFile(rp, OpenVault().resident(id), id))
  }

  function EntryOf(id: bytes): Entry {
    Entry(BLANK.(creation := |id|), id)
  }

  // Two credentials of one RP and one of another.
  function ThreeFiles(x: bytes, y: bytes, z: bytes): seq<Option<CredFile>> {
    [FileOf(Zeros32(), x), FileOf(Zeros32(), y), FileOf(OtherRp(), z)]
  }

  // A getAssertion without an allow list at time 0.
  function Plain(rp: bytes32): Ask {
    Ask(rp, [], true, false, false, 0, Request(0, true))
  }

  // The openings that find the two, the newer of which comes second, and the one.
  function TwoFound(files: seq<Option<CredFile>>, x: Entry, y: Entry): Event {
    Open(files, Some(Search([x, y], true)), [y, x], Plain(Zeros32()))
  }

  function OneFound(files: seq<Option<CredFile>>, z: Entry): Event {
    Open(files, Some(Search([z], true)), [z], Plain(OtherRp()))
  }

  lemma CollectedNext(v: Vault, files: seq<Option<CredFile>>, rp: bytes32, n: nat, before: seq<Entry>)
    requires n < |files| && Collected(v, files, rp, n) == before && |before| < LIST_MAX
    ensures Collected(v, files, rp, n + 1)
            == before + if Loadable(v, files[n], rp).Some? then [Loadable(v, files[n], rp).value] else []
  {
  }

  lemma FileLoads(owner: bytes32, id: bytes, rp: bytes32)
    ensures Loadable(OpenVault(), FileOf(owner, id), rp) == if owner == rp then Some(EntryOf(id)) else None
  {
  }

  lemma RpsDiffer()
    ensures OtherRp() != Zeros32()
  {
    assert OtherRp()[0] != Zeros32()[0];
  }

  lemma TwoCollected(x: bytes, y: bytes, z: bytes)
    ensures Collected(OpenVault(), ThreeFiles(x, y, z), Zeros32(), 3) == [EntryOf(x), EntryOf(y)]
  {
    var v, files, rp := OpenVault(), ThreeFiles(x, y, z), Zeros32();
    RpsDiffer();
    FileLoads(rp, x, rp);
    FileLoads(rp, y, rp);
    FileLoads(OtherRp(), z, rp);
    CollectedNext(v, files, rp, 0, []);
    CollectedNext(v, files, rp, 1, [EntryOf(x)]);
    CollectedNext(v, files, rp, 2, [EntryOf(x), EntryOf(y)]);
  }

  lemma OneCollected(x: bytes, y: bytes, z: bytes)
    ensures Collected(OpenVault(), ThreeFiles(x, y, z), OtherRp(), 3) == [EntryOf(z)]
  {
    var v, files, rp := OpenVault(), ThreeFiles(x, y, z), OtherRp();
    RpsDiffer();
    FileLoads(Zeros32(), x, rp);
    FileLoads(Zeros32(), y, rp);
    FileLoads(rp, z, rp);
    CollectedNext(v, files, rp, 0, []);
    CollectedNext(v, files, rp, 1, []);
    CollectedNext(v, files, rp, 2, []);
  }

  lemma {:induction false} AllEligible(es: seq<Entry>)
    requires forall i :: 0 <= i < |es| ==> es[i].cred.extensions.None?
    ensures Eligible(es, false, false) == es
  {
    if es != [] { AllEligible(es[..|es| - 1]); }
  }

  lemma SelectionOf(v: Vault, files: seq<Option<CredFile>>, rp: bytes32, found: seq<Entry>, es: seq<Entry>)
    requires Collected(v, files, rp, |files|) == found && multiset(es) == multiset(found) && NewestFirst(es)
    requires forall i :: 0 <= i < |found| ==> found[i].cred.extensions.None?
    ensures Selection(v, files, Plain(rp), Some(Search(found, true)), es)
  {
    AllEligible(found);
  }

  lemma Exchanged<T>(x: T, y: T)
    ensures multiset([y, x]) == multiset([x, y])
  {
  }

  lemma TwoLawful(v: Vault, files: seq<Option<CredFile>>, x: Entry, y: Entry)
    requires Collected(v, files, Zeros32(), |files|) == [x, y] && x.cred.creation <= y.cred.creation
    requires x.cred.extensions.None? && y.cred.extensions.None?
    ensures Lawful(v, TwoFound(files, x, y))
  {
    Exchanged(x, y);
    SelectionOf(v, files, Zeros32(), [x, y], [y, x]);
  }

  lemma OneLawful(v: Vault, files: seq<Option<CredFile>>, z: Entry)
    requires Collected(v, files, OtherRp(), |files|) == [z] && z.cred.extensions.None?
    ensures Lawful(v, OneFound(files, z))
  {
    SelectionOf(v, files, OtherRp(), [z], [z]);
  }

  lemma OlderAnswer(files: seq<Option<CredFile>>, x: Entry, y: Entry, z: Entry, now: nat)
    requires now <= 30000
    ensures Walk(EventMachine(), Cleared(), [TwoFound(files, x, y), OneFound(files, z), Next(Request(now, true))]).1[2]
            == Answer(x, true, false, Zeros32(), false, None)
  {
    OlderListStays(Cleared(), TwoFound(files, x, y), OneFound(files, z), Request(now, true));
  }

  // A run in which that happens, whatever the ids are: the last getAssertion was for another
  // RP, and the next request is answered with a credential of the RP before.
  lemma OlderRpIsAnswered(x: bytes, y: bytes, z: bytes)
    requires |x| <= |y|
    ensures var files := ThreeFiles(x, y, z);
            var first, second := TwoFound(files, EntryOf(x), EntryOf(y)), OneFound(files, EntryOf(z));
            && Lawful(OpenVault(), first) && Lawful(OpenVault(), second) && first.a.rp != second.a.rp
            && Walk(EventMachine(), Cleared(), [first, second, Next(Request(1000, true))]).1[2]
               == Answer(EntryOf(x), true, false, first.a.rp, false, None)
  {
    var files := ThreeFiles(x, y, z);
    TwoCollected(x, y, z);
    TwoLawful(OpenVault(), files, EntryOf(x), EntryOf(y));
    OneCollected(x, y, z);
    OneLawful(OpenVault(), files, EntryOf(z));
    RpsDiffer();
    OlderAnswer(files, EntryOf(x), EntryOf(y), EntryOf(z), 1000);
  }

  // ---------- an answer without a credential ----------

  // A request that wants the user's presence is answered without a credential if and only if
  // it has no options at all, nothing in its allow list loads, some silent tag verifies, and
  // the answer can be put together.
  lemma BogusAnswers(v: Vault, files: seq<Option<CredFile>>, p: Pending, a: Ask, r: Tokens.AssertionRequest,
                     found: Option<Search>, es: seq<Entry>)
    requires Describes(v, files, a, r) && Selection(v, files, a, found, es) && Tokens.WantsPresence(r)
    ensures OpenStep(p, found, es, a).1.Bogus? <==>
            !r.options && found.Some? && a.allow != [] && found.value.es == [] && a.known > 0 && r.signed
  {
    if found.Some? { SelectionSize(v, files, a, found, es); }
  }

  // The vault of a device that cannot open any credential.
  function ShutVault(): Vault {
    OpenVault().(load := (id: bytes, rp: bytes32) => None)
  }

  // One listed id that does not load, whose silent tag verifies.
  function OneKnown(): Ask {
    Ask(Zeros32(), [Descriptor(Some(true), Some([1]))], true, false, true, 1, Request(0, true))
  }

  function WithoutOptions(): Tokens.AssertionRequest {
    Tokens.AssertionRequest(Zeros32(), [], None, 0, false, None, None, None, true, 1, 1, false, true, true, false, true, 0)
  }

  // A request in which that happens: presence is wanted and given, and the signature made up.
  lemma PresenceIsAnsweredBogus()
    ensures var found := Some(Search([], false));
            && Describes(ShutVault(), [], OneKnown(), WithoutOptions()) && Tokens.WantsPresence(WithoutOptions())
            && Selection(ShutVault(), [], OneKnown(), found, [])
            && OpenStep(Cleared(), found, [], OneKnown()).1 == Bogus(true, false, Zeros32(), None)
  {
    var v, a := ShutVault(), OneKnown();
    assert !IsResident([1]);
    assert Given(v, [], a.rp, a.allow[0]).None?;
    assert Listed(v, [], a.rp, a.allow, 0) == Some((Search([], false), false));
    assert Listed(v, [], a.rp, a.allow, 1) == Some((Search([], false), false));
    assert Searched(v, [], a.rp, a.allow) == Some(Search([], false));
  }
}
