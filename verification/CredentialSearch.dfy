// The credentials a getAssertion finds: all that the RP has on the device, or those its allow
// list names (src/fido/cbor_get_assertion.c; CTAP 2.1 section 6.2.2).
module CredentialSearch {
  import opened Basics
  import opened Credentials
  import opened CredentialStore

  const LIST_MAX: nat := 16

  // Behind the first four bytes of a resident id.
  const RESIDENT_MARK: bytes := [0xF1, 0xD0, 0x02, 0x03]

  // A loaded credential and the id it came from.
  datatype Entry = Entry(cred: Credential, id: bytes)

  // A member of an allow list: whether its type is "public-key", and its id; None is missing.
  datatype Descriptor = Descriptor(publicKey: Option<bool>, id: Option<bytes>)

  // What was found, in order, and whether it counts as stored on the device.
  datatype Search = Search(es: seq<Entry>, resident: bool)

  // ---------- without an allow list ----------

  function Loadable(v: Vault, slot: Option<CredFile>, rp: bytes32): Option<Entry> {
    if slot.Some? && slot.value.rp == rp && v.load(slot.value.id, rp).Some?
    then Some(Entry(v.load(slot.value.id, rp).value, slot.value.id)) else None
  }

  // The first 16 credentials of rp that load, in slot order, among the first n files.
  function Collected(v: Vault, files: seq<Option<CredFile>>, rp: bytes32, n: nat): (r: seq<Entry>)
    requires n <= |files|
    ensures |r| <= LIST_MAX
  {
    if n == 0 then []
    else
      var before, e := Collected(v, files, rp, n - 1), Loadable(v, files[n - 1], rp);
      if e.Some? && |before| < LIST_MAX then before + [e.value] else before
  }

  // These are the credentials of the first 16 slots that load for rp: ascending slots, none
  // left out but behind a full list.
  lemma {:induction false} CollectedExact(v: Vault, files: seq<Option<CredFile>>, rp: bytes32, n: nat) returns (slots: seq<nat>)
    requires n <= |files|
    ensures |slots| == |Collected(v, files, rp, n)|
    ensures forall k :: 0 <= k < |slots| ==> slots[k] < n && Loadable(v, files[slots[k]], rp) == Some(Collected(v, files, rp, n)[k])
    ensures forall j, k :: 0 <= j < k < |slots| ==> slots[j] < slots[k]
    ensures forall i :: 0 <= i < n && Loadable(v, files[i], rp).Some? && i !in slots ==>
              |slots| == LIST_MAX && slots[LIST_MAX - 1] < i
  {
    if n == 0 { return []; }
    slots := CollectedExact(v, files, rp, n - 1);
    if Loadable(v, files[n - 1], rp).Some? && |slots| < LIST_MAX {
      slots := slots + [n - 1];
    }
  }

  lemma {:induction false} CollectedFull(v: Vault, files: seq<Option<CredFile>>, rp: bytes32, i: nat, n: nat)
    requires i <= n <= |files| && (i == n || |Collected(v, files, rp, i)| == LIST_MAX)
    ensures Collected(v, files, rp, n) == Collected(v, files, rp, i)
  {
    if i < n {
      CollectedFull(v, files, rp, i, n - 1);
    }
  }

  method Collect(v: Vault, files: seq<Option<CredFile>>, rp: bytes32, a: array<Entry>) returns (len: nat)
    requires a.Length == LIST_MAX
    modifies a
    ensures len <= LIST_MAX && a[..len] == Collected(v, files, rp, |files|)
  {
    len := 0;
    var i := 0;
    while i < |files| && len < LIST_MAX
      invariant i <= |files| && len <= LIST_MAX
      invariant a[..len] == Collected(v, files, rp, i)
    {
      var e := Loadable(v, files[i], rp);
      if e.Some? {
        a[len] := e.value;
        len := len + 1;
      }
      i := i + 1;
    }
    CollectedFull(v, files, rp, i, |files|);
  }

  // ---------- with an allow list ----------

  // credential_is_resident
  predicate IsResident(id: bytes) {
    |id| >= 8 && id[4..8] == RESIDENT_MARK
  }

  // The file a resident id names at rp: the first one with that id that loads.
  predicate Stored(v: Vault, slot: Option<CredFile>, rp: bytes32, id: bytes) {
    Named(slot, id) && Loadable(v, slot, rp).Some?
  }

  function FirstStored(v: Vault, files: seq<Option<CredFile>>, rp: bytes32, id: bytes, i: nat): (r: nat)
    requires i <= |files|
    ensures i <= r <= |files| && (r < |files| ==> Stored(v, files[r], rp, id))
    ensures forall k :: i <= k < r ==> !Stored(v, files[k], rp, id)
    decreases |files| - i
  {
    if i == |files| || Stored(v, files[i], rp, id) then i else FirstStored(v, files, rp, id, i + 1)
  }

  // The credential an id stands for: the one stored under it, or the one sealed in it.
  function Meant(v: Vault, files: seq<Option<CredFile>>, rp: bytes32, id: bytes): Option<Entry> {
    if IsResident(id) then
      var i := FirstStored(v, files, rp, id, 0);
      if i == |files| then None else Loadable(v, files[i], rp)
    else
      match v.load(id, rp)
      case None => None
      case Some(c) => Some(Entry(c, id))
  }

  // The file of rp starts, behind the RP hash, with the id.
  predicate StartsWith(slot: Option<CredFile>, rp: bytes32, id: bytes) {
    slot.Some? && slot.value.rp == rp && id <= slot.value.resident + slot.value.id
  }

  ghost predicate OnDevice(files: seq<Option<CredFile>>, rp: bytes32, id: bytes) {
    exists i :: 0 <= i < |files| && StartsWith(files[i], rp, id)
  }

  predicate Complete(d: Descriptor) {
    d.publicKey.Some? && d.id.Some?
  }

  // What a member of the allow list contributes; other types than "public-key" nothing.
  function Given(v: Vault, files: seq<Option<CredFile>>, rp: bytes32, d: Descriptor): Option<Entry> {
    if Complete(d) && d.publicKey.value then Meant(v, files, rp, d.id.value) else None
  }

  // The credential an id stands for at rp, in the files' own terms. A resident id, whose bytes
  // 4 to 7 are F1 D0 02 03, stands for what the first file of rp with this id that loads
  // holds; any other id for the credential sealed in it.
  ghost predicate StandsFor(v: Vault, files: seq<Option<CredFile>>, rp: bytes32, id: bytes, e: Entry) {
    if |id| >= 8 && id[4..8] == [0xF1, 0xD0, 0x02, 0x03] then
      exists i :: 0 <= i < |files| && HoldsFor(v, files[i], rp, id) && files[i].value.id == e.id
                  && v.load(e.id, rp) == Some(e.cred)
                  && forall k :: 0 <= k < i ==> !HoldsFor(v, files[k], rp, id)
    else v.load(id, rp) == Some(e.cred) && e.id == id
  }

  // The file belongs to rp, carries the resident id, and loads.
  predicate HoldsFor(v: Vault, slot: Option<CredFile>, rp: bytes32, id: bytes) {
    && slot.Some? && slot.value.rp == rp && |id| >= 42 && slot.value.resident == id[..42]
    && v.load(slot.value.id, rp).Some?
  }

  // A member of the list gives a credential exactly when it is of the type "public-key" and
  // its id stands for that credential.
  lemma GivenIff(v: Vault, files: seq<Option<CredFile>>, rp: bytes32, d: Descriptor, e: Entry)
    ensures Given(v, files, rp, d) == Some(e) <==>
            d.publicKey == Some(true) && d.id.Some? && StandsFor(v, files, rp, d.id.value, e)
  {
    if d.id.Some? && IsResident(d.id.value) {
      var id := d.id.value;
      assert forall k :: 0 <= k < |files| ==> (HoldsFor(v, files[k], rp, id) <==> Stored(v, files[k], rp, id));
      var i := FirstStored(v, files, rp, id, 0);
      if i < |files| {
        assert HoldsFor(v, files[i], rp, id);
      }
    }
  }

  // One member more. An id that is not resident but of a credential on the device ends the
  // search, unless a credential on the device has been found before.
  ghost function Added(v: Vault, files: seq<Option<CredFile>>, rp: bytes32, s: Search, d: Descriptor): (Search, bool)
    requires Complete(d)
  {
    match Given(v, files, rp, d)
    case None => (s, false)
    case Some(e) =>
      var es := s.es + [e];
      if s.resident || IsResident(d.id.value) then (Search(es, true), false)
      else
        var found := |es| < LIST_MAX && OnDevice(files, rp, d.id.value);
        (Search(es, found), found)
  }

  // The search over the first n members, and whether it has ended; None for a member that
  // lacks its type or id.
  ghost function Listed(v: Vault, files: seq<Option<CredFile>>, rp: bytes32, allow: seq<Descriptor>, n: nat): (r: Option<(Search, bool)>)
    requires n <= |allow|
    ensures r.Some? ==> |r.value.0.es| <= n
  {
    if n == 0 then Some((Search([], false), false))
    else
      match Listed(v, files, rp, allow, n - 1)
      case None => None
      case Some((s, ended)) =>
        if ended then Some((s, true))
        else if !Complete(allow[n - 1]) then None
        else Some(Added(v, files, rp, s, allow[n - 1]))
  }

  // What the search finds: with an empty allow list the RP's credentials on the device.
  ghost function Searched(v: Vault, files: seq<Option<CredFile>>, rp: bytes32, allow: seq<Descriptor>): Option<Search> {
    if allow == [] then Some(Search(Collected(v, files, rp, |files|), true))
    else
      match Listed(v, files, rp, allow, |allow|)
      case None => None
      case Some((s, _)) => Some(s)
  }

  // Members places of the allow list, in order, that gave these entries.
  ghost predicate GivenBy(v: Vault, files: seq<Option<CredFile>>, rp: bytes32, allow: seq<Descriptor>, n: nat,
                          places: seq<nat>, es: seq<Entry>)
    requires n <= |allow|
  {
    && |places| == |es|
    && (forall k :: 0 <= k < |places| ==> places[k] < n && Given(v, files, rp, allow[places[k]]) == Some(es[k]))
    && (forall j, k :: 0 <= j < k < |places| ==> places[j] < places[k])
  }

  // No member that gives something is left out but behind the one that ended the search.
  ghost predicate LeavesOut(v: Vault, files: seq<Option<CredFile>>, rp: bytes32, allow: seq<Descriptor>, n: nat,
                            places: seq<nat>, ended: bool)
    requires n <= |allow|
  {
    forall i :: 0 <= i < n && Given(v, files, rp, allow[i]).Some? && i !in places ==>
      ended && places != [] && places[|places| - 1] < i
  }

  // The search over n members: what they gave, what is left out, and on which one it ended.
  ghost predicate Covers(v: Vault, files: seq<Option<CredFile>>, rp: bytes32, allow: seq<Descriptor>, n: nat,
                         places: seq<nat>, s: Search, ended: bool)
    requires n <= |allow|
  {
    && GivenBy(v, files, rp, allow, n, places, s.es)
    && LeavesOut(v, files, rp, allow, n, places, ended)
    && (ended ==> s.resident && places != [] && places[|places| - 1] < n && EndsSearch(files, rp, allow[places[|places| - 1]]))
  }

  ghost predicate EndsSearch(files: seq<Option<CredFile>>, rp: bytes32, d: Descriptor) {
    d.id.Some? && OnDevice(files, rp, d.id.value)
  }

  lemma PlaceTaken(v: Vault, files: seq<Option<CredFile>>, rp: bytes32, allow: seq<Descriptor>, n: nat,
                   places: seq<nat>, s: Search)
    requires n < |allow| && Covers(v, files, rp, allow, n, places, s, false)
    requires Given(v, files, rp, allow[n]).Some?
    ensures var (t, ended) := Added(v, files, rp, s, allow[n]); Covers(v, files, rp, allow, n + 1, places + [n], t, ended)
  {
    var es := s.es + [Given(v, files, rp, allow[n]).value];
    assert GivenBy(v, files, rp, allow, n + 1, places + [n], es);
    assert LeavesOut(v, files, rp, allow, n + 1, places + [n], false);
  }

  lemma PlacePassed(v: Vault, files: seq<Option<CredFile>>, rp: bytes32, allow: seq<Descriptor>, n: nat,
                    places: seq<nat>, s: Search, ended: bool)
    requires n < |allow| && Covers(v, files, rp, allow, n, places, s, ended)
    requires ended || Given(v, files, rp, allow[n]).None?
    ensures Covers(v, files, rp, allow, n + 1, places, s, ended)
  {
  }

  // The search finds what the members of the allow list give, each in its turn, up to the one
  // that ends it.
  lemma {:induction false} ListedExact(v: Vault, files: seq<Option<CredFile>>, rp: bytes32, allow: seq<Descriptor>, n: nat)
    returns (places: seq<nat>)
    requires n <= |allow| && Listed(v, files, rp, allow, n).Some?
    ensures var (s, ended) := Listed(v, files, rp, allow, n).value; Covers(v, files, rp, allow, n, places, s, ended)
  {
    if n == 0 { return []; }
    places := ListedExact(v, files, rp, allow, n - 1);
    var (s, ended) := Listed(v, files, rp, allow, n - 1).value;
    if !ended && Given(v, files, rp, allow[n - 1]).Some? {
      PlaceTaken(v, files, rp, allow, n - 1, places, s);
      places := places + [n - 1];
    } else {
      PlacePassed(v, files, rp, allow, n - 1, places, s, ended);
    }
  }

  lemma {:induction false} EndStays(v: Vault, files: seq<Option<CredFile>>, rp: bytes32, allow: seq<Descriptor>, k: nat, n: nat)
    requires k <= n <= |allow|
    requires var r := Listed(v, files, rp, allow, k); r.None? || r.value.1 || k == n
    ensures Listed(v, files, rp, allow, n) == Listed(v, files, rp, allow, k)
  {
    if k < n {
      EndStays(v, files, rp, allow, k, n - 1);
    }
  }

  // ---------- nothing ends the search ----------

  // Every file carries a resident id, as every file that store writes does.
  ghost predicate Marked(files: seq<Option<CredFile>>) {
    forall i :: 0 <= i < |files| && files[i].Some? ==> IsResident(files[i].value.resident)
  }

  ghost predicate Marks(v: Vault) {
    && (forall id: bytes :: IsResident(v.resident(id)))
    && (forall id: bytes, rp: bytes32 :: v.load(id, rp).Some? ==> |id| >= 8)
  }

  lemma {:induction false} RunMarked(v: Vault, ops: seq<Op>)
    requires Marks(v)
    ensures Marked(Run(v, EmptyTables(), ops).creds)
  {
    if ops != [] {
      RunMarked(v, ops[..|ops| - 1]);
      OpMarked(v, Run(v, EmptyTables(), ops[..|ops| - 1]), ops[|ops| - 1]);
    }
  }

  lemma StoreMarked(v: Vault, t: Tables, id: bytes, rp: bytes32)
    requires Marks(v) && Marked(t.creds)
    ensures Marked(StoreStep(v, t, id, rp).0.creds)
  {
  }

  lemma OpMarked(v: Vault, t: Tables, op: Op)
    requires Marks(v) && Marked(t.creds)
    ensures Marked(OpStep(v, t, op).0.creds)
  {
    match op
    case Store(id, rp) => StoreMarked(v, t, id, rp);
    case Delete(_) =>
    case Update(name, user, names, stamp) =>
      var i := FirstNamed(t.creds, name, 0);
      if i < |t.creds| {
        var f := t.creds[i].value;
        if v.load(f.id, f.rp).Some? && v.create(Renamed(v.load(f.id, f.rp).value, names), stamp).Some? {
          StoreMarked(v, t, v.create(Renamed(v.load(f.id, f.rp).value, names), stamp).value, f.rp);
        }
      }
  }

  // The id of a credential is compared with what starts with a resident id, and so is never
  // recognised as one of a credential on the device.
  lemma NeverOnDevice(files: seq<Option<CredFile>>, rp: bytes32, id: bytes)
    requires Marked(files) && |id| >= 8 && !IsResident(id)
    ensures !OnDevice(files, rp, id)
  {
    forall i | 0 <= i < |files| && files[i].Some?
      ensures !StartsWith(files[i], rp, id)
    {
      var f := files[i].value;
      assert IsResident(f.resident);
      MarkOfPrefix(id, f.resident, f.id);
    }
  }

  lemma MarkOfPrefix(id: bytes, resident: bytes42, rest: bytes)
    requires |id| >= 8
    ensures id <= resident + rest ==> id[4..8] == resident[4..8]
  {
    assert (resident + rest)[4..8] == resident[4..8];
  }

  lemma {:induction false} NeverEnds(v: Vault, files: seq<Option<CredFile>>, rp: bytes32, allow: seq<Descriptor>, n: nat)
    requires Marks(v) && Marked(files) && n <= |allow|
    ensures Listed(v, files, rp, allow, n).Some? ==> !Listed(v, files, rp, allow, n).value.1
  {
    if n > 0 {
      NeverEnds(v, files, rp, allow, n - 1);
      var d := allow[n - 1];
      if Complete(d) && !IsResident(d.id.value) && |d.id.value| >= 8 { NeverOnDevice(files, rp, d.id.value); }
    }
  }

  // So over the files of any run, a complete allow list yields the credential of every member
  // that stands for one, each in its turn.
  lemma AllGiven(v: Vault, ops: seq<Op>, rp: bytes32, allow: seq<Descriptor>) returns (places: seq<nat>)
    requires Marks(v) && allow != [] && Searched(v, Run(v, EmptyTables(), ops).creds, rp, allow).Some?
    ensures var files := Run(v, EmptyTables(), ops).creds;
            && GivenBy(v, files, rp, allow, |allow|, places, Searched(v, files, rp, allow).value.es)
            && forall i :: 0 <= i < |allow| && Given(v, files, rp, allow[i]).Some? ==> i in places
  {
    var files := Run(v, EmptyTables(), ops).creds;
    RunMarked(v, ops);
    NeverEnds(v, files, rp, allow, |allow|);
    places := ListedExact(v, files, rp, allow, |allow|);
  }

  // The credential of a member of the list that is named by its resident id.
  ghost predicate GivesResident(v: Vault, files: seq<Option<CredFile>>, rp: bytes32, d: Descriptor) {
    && d.id.Some? && |d.id.value| >= 8 && d.id.value[4..8] == [0xF1, 0xD0, 0x02, 0x03]
    && Given(v, files, rp, d).Some?
  }

  ghost predicate SomeResident(v: Vault, files: seq<Option<CredFile>>, rp: bytes32, allow: seq<Descriptor>, n: nat)
    requires n <= |allow|
  {
    exists i :: 0 <= i < n && GivesResident(v, files, rp, allow[i])
  }

  lemma {:induction false} ListedResident(v: Vault, files: seq<Option<CredFile>>, rp: bytes32, allow: seq<Descriptor>, n: nat)
    requires Marks(v) && Marked(files) && n <= |allow| && Listed(v, files, rp, allow, n).Some?
    ensures Listed(v, files, rp, allow, n).value.0.resident <==> SomeResident(v, files, rp, allow, n)
  {
    if n > 0 {
      var d := allow[n - 1];
      ListedResident(v, files, rp, allow, n - 1);
      NeverEnds(v, files, rp, allow, n - 1);
      if Complete(d) && !IsResident(d.id.value) && |d.id.value| >= 8 { NeverOnDevice(files, rp, d.id.value); }
      assert SomeResident(v, files, rp, allow, n) <==> SomeResident(v, files, rp, allow, n - 1) || GivesResident(v, files, rp, d);
    }
  }

  // And what is found counts as on the device exactly if there is no list, or a member of it
  // names its credential by resident id.
  lemma ResidentIff(v: Vault, ops: seq<Op>, rp: bytes32, allow: seq<Descriptor>)
    requires Marks(v) && Searched(v, Run(v, EmptyTables(), ops).creds, rp, allow).Some?
    ensures var files := Run(v, EmptyTables(), ops).creds;
            Searched(v, files, rp, allow).value.resident <==>
            allow == [] || exists i :: 0 <= i < |allow| && GivesResident(v, files, rp, allow[i])
  {
    if allow != [] {
      RunMarked(v, ops);
      ListedResident(v, Run(v, EmptyTables(), ops).creds, rp, allow, |allow|);
    }
  }

  // ---------- the loops ----------

  // The loop over the files for a resident id.
  method FindStored(v: Vault, files: seq<Option<CredFile>>, rp: bytes32, id: bytes) returns (e: Option<Entry>)
    requires IsResident(id)
    ensures e == Meant(v, files, rp, id)
  {
    var i := 0;
    while i < |files|
      invariant i <= |files| && FirstStored(v, files, rp, id, i) == FirstStored(v, files, rp, id, 0)
    {
      if files[i].Some? && files[i].value.rp == rp && Named(files[i], id) {
        e := Loadable(v, files[i], rp);
        if e.Some? { return; }
      }
      i := i + 1;
    }
    return None;
  }

  // The loop over the files for any other id.
  method FindOnDevice(files: seq<Option<CredFile>>, rp: bytes32, id: bytes) returns (found: bool)
    ensures found == OnDevice(files, rp, id)
  {
    var i := 0;
    while i < |files|
      invariant i <= |files| && forall k :: 0 <= k < i ==> !StartsWith(files[k], rp, id)
    {
      if StartsWith(files[i], rp, id) { return true; }
      i := i + 1;
    }
    return false;
  }

  // The loop over the allow list.
  method CollectListed(v: Vault, files: seq<Option<CredFile>>, rp: bytes32, allow: seq<Descriptor>, a: array<Entry>)
    returns (ok: bool, len: nat, resident: bool)
    requires a.Length == LIST_MAX && 0 < |allow| <= LIST_MAX
    modifies a
    ensures len <= LIST_MAX
    ensures Searched(v, files, rp, allow) == if ok then Some(Search(a[..len], resident)) else None
  {
    len, resident := 0, false;
    var k, ended := 0, false;
    while k < |allow| && !ended
      invariant k <= |allow| && len <= k
      invariant Listed(v, files, rp, allow, k) == Some((Search(a[..len], resident), ended))
    {
      if !Complete(allow[k]) {
        EndStays(v, files, rp, allow, k + 1, |allow|);
        return false, 0, false;
      }
      len, resident, ended := Add(v, files, rp, allow[k], a, len, resident);
      k := k + 1;
    }
    EndStays(v, files, rp, allow, k, |allow|);
    return true, len, resident;
  }

  method Add(v: Vault, files: seq<Option<CredFile>>, rp: bytes32, d: Descriptor, a: array<Entry>, len: nat, resident: bool)
    returns (len': nat, resident': bool, ended: bool)
    requires a.Length == LIST_MAX && len < LIST_MAX && Complete(d)
    modifies a
    ensures len <= len' <= len + 1
    ensures (Search(a[..len'], resident'), ended) == Added(v, files, rp, Search(old(a[..len]), resident), d)
  {
    len', resident', ended := len, resident, false;
    if !d.publicKey.value { return; }
    var id := d.id.value;
    if IsResident(id) {
      var e := FindStored(v, files, rp, id);
      if e.Some? {
        a[len] := e.value;
        assert a[..len + 1] == old(a[..len]) + [e.value];
        len', resident' := len + 1, true;
      }
    } else {
      var c := v.load(id, rp);
      if c.Some? {
        a[len] := Entry(c.value, id);
        assert a[..len + 1] == old(a[..len]) + [Entry(c.value, id)];
        len' := len + 1;
        if !resident && len' < LIST_MAX {
          ended := FindOnDevice(files, rp, id);
          resident' := ended;
        }
      }
    }
  }

  // Everything found loads for rp from the id kept with it.
  ghost predicate AllLoad(v: Vault, es: seq<Entry>, rp: bytes32) {
    forall i :: 0 <= i < |es| ==> v.load(es[i].id, rp) == Some(es[i].cred)
  }

  lemma {:induction false} CollectedLoads(v: Vault, files: seq<Option<CredFile>>, rp: bytes32, n: nat)
    requires n <= |files|
    ensures AllLoad(v, Collected(v, files, rp, n), rp)
  {
    if n > 0 { CollectedLoads(v, files, rp, n - 1); }
  }

  lemma SearchedLoads(v: Vault, files: seq<Option<CredFile>>, rp: bytes32, allow: seq<Descriptor>)
    requires Searched(v, files, rp, allow).Some?
    ensures AllLoad(v, Searched(v, files, rp, allow).value.es, rp)
  {
    if allow == [] {
      CollectedLoads(v, files, rp, |files|);
    } else {
      var places := ListedExact(v, files, rp, allow, |allow|);
      var es := Searched(v, files, rp, allow).value.es;
      forall k | 0 <= k < |es|
        ensures v.load(es[k].id, rp) == Some(es[k].cred)
      {
        assert Given(v, files, rp, allow[places[k]]) == Some(es[k]);
      }
    }
  }
}
