// What a store, an update and a delete leave in the credential and RP files, in the files' own
// terms, and that what was deleted is gone (src/fido/credential.c, src/fido/cbor_cred_mgmt.c).
module StoredFiles {
  import opened Basics
  import opened Credentials
  import opened CredentialStore
  import opened CredentialSearch
  import CredentialManagement

  // The file carries the resident id a request starts with.
  predicate Carries(slot: Option<CredFile>, name: bytes) {
    slot.Some? && |name| >= 42 && slot.value.resident == name[..42]
  }

  // The first file that does.
  ghost predicate FirstCarries(files: seq<Option<CredFile>>, name: bytes, i: nat) {
    && i < |files| && Carries(files[i], name)
    && forall k :: 0 <= k < i ==> !Carries(files[k], name)
  }

  ghost predicate NoneCarries(files: seq<Option<CredFile>>, name: bytes) {
    forall k :: 0 <= k < |files| ==> !Carries(files[k], name)
  }

  // File i has the new content and every other file its old one.
  ghost predicate OnlyFile(before: seq<Option<CredFile>>, after: seq<Option<CredFile>>, i: nat, content: Option<CredFile>) {
    && i < |before| == |after| && after[i] == content
    && forall k :: 0 <= k < |before| && k != i ==> after[k] == before[k]
  }

  ghost predicate IsOf(slot: Option<RpFile>, rp: bytes32) {
    slot.Some? && slot.value.rp == rp
  }

  // The RP's record now reads the number of its credentials in one byte, or is gone with the
  // last one, and the other RPs' records are as before.
  ghost predicate Recounted(t: Tables, t1: Tables, rp: bytes32) {
    && |t1.rps| == |t.rps|
    && forall j :: 0 <= j < |t.rps| ==>
         t1.rps[j] == if !IsOf(t.rps[j], rp) then t.rps[j]
                      else if Count(t1.creds, rp) == 0 then None
                      else Some(RpFile(Count(t1.creds, rp) % 256, rp, t.rps[j].value.rpId))
  }

  // ---------- counting ----------

  // The count of an RP is how many files carry its hash.
  lemma {:induction false} CountIsSize(files: seq<Option<CredFile>>, rp: bytes32)
    ensures Count(files, rp) == |set i: nat | i < |files| && files[i].Some? && files[i].value.rp == rp|
  {
    var own := set i: nat | i < |files| && files[i].Some? && files[i].value.rp == rp;
    if files == [] {
      assert own == {};
    } else {
      var n := |files| - 1;
      var before := set i: nat | i < |files[..n]| && files[..n][i].Some? && files[..n][i].value.rp == rp;
      CountIsSize(files[..n], rp);
      if files[n].Some? && files[n].value.rp == rp {
        assert own == before + {n};
      } else {
        assert own == before;
      }
    }
  }

  // ---------- delete ----------

  // A delete is answered Ok if and only if some file carries the id; then exactly the first
  // such file is emptied, the count of its RP drops by one, and the RP's record follows. A
  // delete that finds nothing changes nothing.
  lemma DeleteMeans(v: Vault, t: Tables, name: bytes) returns (i: nat)
    requires Agrees(t)
    ensures var (t1, status) := OpStep(v, t, Delete(name));
            if NoneCarries(t.creds, name) then status == NoCredentials && t1 == t
            else status == Ok && FirstCarries(t.creds, name, i) && Deleted(t, t1, i)
  {
    i := FirstNamed(t.creds, name, 0);
    if i < SLOTS {
      assert Carries(t.creds[i], name);
      CountUpdated(t.creds, i, None, t.creds[i].value.rp);
      RecountedAfterDelete(t, i);
    }
  }

  // The tables after a delete of file i.
  ghost predicate Deleted(t: Tables, t1: Tables, i: nat) {
    && i < |t.creds| && t.creds[i].Some?
    && var rp := t.creds[i].value.rp;
    && OnlyFile(t.creds, t1.creds, i, None)
    && Count(t1.creds, rp) == Count(t.creds, rp) - 1
    && Recounted(t, t1, rp)
  }

  lemma RecountedAfterDelete(t: Tables, i: nat)
    requires Agrees(t) && i < SLOTS && t.creds[i].Some?
    ensures var rp := t.creds[i].value.rp; Recounted(t, Tables(t.creds[i := None], CountDown(t.rps, rp)), rp)
  {
    var rp := t.creds[i].value.rp;
    var k := FirstRecord(t.rps, rp, 0);
    var r :| 0 <= r < SLOTS && RecordFor(t.rps[r], rp);
    RecordStepped(t, i, None, rp, k);
    forall j | 0 <= j < SLOTS && IsOf(t.rps[j], rp)
      ensures j == k
    {
      RecordIsFirst(t.rps, rp, j);
    }
  }

  // ---------- store ----------

  // The file holds a credential of the RP whose user id starts with the new one, or the other
  // way round.
  predicate GivesWay(v: Vault, slot: Option<CredFile>, rp: bytes32, user: bytes) {
    && slot.Some? && slot.value.rp == rp && v.load(slot.value.id, rp).Some?
    && var old_ := Contents(v.load(slot.value.id, rp).value.userId);
    old_ <= user || user <= old_
  }

  // Where a store writes: the first file that gives way, and if none does the first empty one.
  ghost predicate Place(v: Vault, files: seq<Option<CredFile>>, rp: bytes32, user: bytes, i: nat) {
    && i < |files|
    && if exists k :: 0 <= k < |files| && GivesWay(v, files[k], rp, user)
       then GivesWay(v, files[i], rp, user) && forall k :: 0 <= k < i ==> !GivesWay(v, files[k], rp, user)
       else files[i].None? && forall k :: 0 <= k < i ==> files[k].Some?
  }

  lemma GivesWayIff(v: Vault, slot: Option<CredFile>, rp: bytes32, user: bytes)
    ensures GivesWay(v, slot, rp, user) <==> Replaceable(v, slot, rp, user)
  {
    if slot.Some? && slot.value.rp == rp && v.load(slot.value.id, rp).Some? {
      var old_ := Contents(v.load(slot.value.id, rp).value.userId);
      assert old_[..|old_|] == old_ && user[..|user|] == user;
    }
  }

  // The first empty RP file becomes the record of one credential, under the RP id it names.
  ghost predicate NewRecord(rps: seq<Option<RpFile>>, rps1: seq<Option<RpFile>>, rp: bytes32, rpId: bytes) {
    && |rps1| == |rps|
    && exists j :: 0 <= j < |rps| && rps[j].None? && (forall k :: 0 <= k < j ==> rps[k].Some?)
                   && rps1[j] == Some(RpFile(1, rp, rpId))
                   && forall k :: 0 <= k < |rps| && k != j ==> rps1[k] == rps[k]
  }

  ghost predicate HasPlace(v: Vault, files: seq<Option<CredFile>>, rp: bytes32, user: bytes) {
    exists i :: 0 <= i < |files| && (files[i].None? || GivesWay(v, files[i], rp, user))
  }

  // A store is answered Ok if and only if the id loads for the RP and a file gives way or is
  // empty. Then the file at its place is the new one, the others stay, and the records count
  // it: not at all when a credential of the RP gave way, in the RP's record when it has one,
  // and in a new one otherwise. A store that is refused changes nothing.
  lemma StoreMeans(v: Vault, t: Tables, id: bytes, rp: bytes32) returns (i: nat)
    requires Agrees(t)
    ensures var (t1, status) := OpStep(v, t, Store(id, rp));
            if v.load(id, rp).None? then status == Invalid && t1 == t
            else
              var user := Contents(v.load(id, rp).value.userId);
              if !HasPlace(v, t.creds, rp, user) then status == Full && t1 == t
              else status == Ok && Place(v, t.creds, rp, user, i) && StoredAt(v, t, t1, id, rp, i)
  {
    i := 0;
    if v.load(id, rp).Some? {
      var user := Contents(v.load(id, rp).value.userId);
      StoreAllOrNothing(v, t, id, rp);
      AllGiveWayIff(v, t.creds, rp, user);
      assert HasPlace(v, t.creds, rp, user) <==> HasRoom(v, t, rp, user);
      var m, e := FirstReplaceable(v, t.creds, rp, user, 0), FirstEmpty(t.creds, 0);
      if HasPlace(v, t.creds, rp, user) {
        i := if m < SLOTS then m else e;
        StoredAtPlace(v, t, id, rp, i);
      }
    }
  }

  lemma AllGiveWayIff(v: Vault, files: seq<Option<CredFile>>, rp: bytes32, user: bytes)
    ensures forall k :: 0 <= k < |files| ==> (GivesWay(v, files[k], rp, user) <==> Replaceable(v, files[k], rp, user))
  {
    forall k | 0 <= k < |files|
      ensures GivesWay(v, files[k], rp, user) <==> Replaceable(v, files[k], rp, user)
    {
      GivesWayIff(v, files[k], rp, user);
    }
  }

  // The tables after a store at place i.
  ghost predicate StoredAt(v: Vault, t: Tables, t1: Tables, id: bytes, rp: bytes32, i: nat)
    requires v.load(id, rp).Some?
  {
    && OnlyFile(t.creds, t1.creds, i, Some(CredFile(rp, v.resident(id), id)))
    && (t.creds[i].Some? ==> t1.rps == t.rps && Count(t1.creds, rp) == Count(t.creds, rp))
    && (t.creds[i].None? ==>
          && Count(t1.creds, rp) == Count(t.creds, rp) + 1
          && if exists j :: 0 <= j < |t.rps| && IsOf(t.rps[j], rp) then Recounted(t, t1, rp)
             else NewRecord(t.rps, t1.rps, rp, Contents(v.load(id, rp).value.rpId)))
  }

  lemma StoredAtPlace(v: Vault, t: Tables, id: bytes, rp: bytes32, i: nat)
    requires Agrees(t) && v.load(id, rp).Some? && Place(v, t.creds, rp, Contents(v.load(id, rp).value.userId), i)
    ensures StoredAt(v, t, OpStep(v, t, Store(id, rp)).0, id, rp, i)
  {
    var c := v.load(id, rp).value;
    var user, f := Contents(c.userId), CredFile(rp, v.resident(id), id);
    var m, e := FirstReplaceable(v, t.creds, rp, user, 0), FirstEmpty(t.creds, 0);
    AllGiveWayIff(v, t.creds, rp, user);
    CountUpdated(t.creds, i, Some(f), rp);
    if GivesWay(v, t.creds[i], rp, user) {
      assert m == i;
    } else {
      assert m == SLOTS && e == i;
      AddedAgrees(t, i, f, Contents(c.rpId));
      AddedRecord(t, i, f, Contents(c.rpId));
    }
  }

  lemma AddedRecord(t: Tables, e: nat, f: CredFile, rpId: bytes)
    requires Agrees(t) && e < SLOTS && t.creds[e].None? && CountUp(t.rps, f.rp, rpId).Some?
    ensures var t1 := Tables(t.creds[e := Some(f)], CountUp(t.rps, f.rp, rpId).value);
            if exists j :: 0 <= j < |t.rps| && IsOf(t.rps[j], f.rp) then Recounted(t, t1, f.rp)
            else NewRecord(t.rps, t1.rps, f.rp, rpId)
  {
    var k := FirstRecord(t.rps, f.rp, 0);
    CountUpdated(t.creds, e, Some(f), f.rp);
    if j :| 0 <= j < |t.rps| && IsOf(t.rps[j], f.rp) {
      RecordStepped(t, e, Some(f), f.rp, k);
      forall j | 0 <= j < SLOTS && IsOf(t.rps[j], f.rp)
        ensures j == k
      {
        RecordIsFirst(t.rps, f.rp, j);
      }
    } else {
      assert k == SLOTS;
    }
  }

  // ---------- update ----------

  // An update finds the first file that carries the id, loads its credential, and stores what
  // re-creating it under the new names and time gives, as a store of that new id does. It is
  // refused, and changes nothing, when no file carries the id, when the credential does not
  // load, when the user id is neither a prefix of the stored one nor the other way round, and
  // when the credential cannot be created or stored.
  lemma UpdateMeans(v: Vault, t: Tables, name: bytes, user: bytes, names: Names, stamp: Stamp) returns (i: nat)
    requires Agrees(t)
    ensures var (t1, status) := OpStep(v, t, Update(name, user, names, stamp));
            && (status != Ok ==> t1 == t)
            && if NoneCarries(t.creds, name) then status == NoCredentials
               else
                 && FirstCarries(t.creds, name, i)
                 && var f := t.creds[i].value;
                 match v.load(f.id, f.rp)
                 case None => status == NotAllowed
                 case Some(c) =>
                   var stored := Contents(c.userId);
                   var id := v.create(c.(userName := names.user, userDisplayName := names.display), stamp);
                   if !(user <= stored || stored <= user) then status == InvalidParameter
                   else if id.None? then status == NotAllowed
                   else
                     var (t2, stored_) := OpStep(v, t, Store(id.value, f.rp));
                     t1 == t2 && status == if stored_ == Ok then Ok else NotAllowed
  {
    i := FirstNamed(t.creds, name, 0);
    if i < SLOTS {
      assert Carries(t.creds[i], name);
      var f := t.creds[i].value;
      if v.load(f.id, f.rp).Some? {
        var stored := Contents(v.load(f.id, f.rp).value.userId);
        assert stored[..|stored|] == stored && user[..|user|] == user;
        var id := v.create(Renamed(v.load(f.id, f.rp).value, names), stamp);
        if id.Some? { StoreAllOrNothing(v, t, id.value, f.rp); }
      }
    }
  }

  // ---------- what was deleted is gone ----------

  // A file with a credential of this user at the RP.
  predicate Has(v: Vault, slot: Option<CredFile>, rp: bytes32, user: bytes) {
    && slot.Some? && slot.value.rp == rp && v.load(slot.value.id, rp).Some?
    && Contents(v.load(slot.value.id, rp).value.userId) == user
  }

  ghost predicate NoneHas(v: Vault, files: seq<Option<CredFile>>, rp: bytes32, user: bytes) {
    forall k :: 0 <= k < |files| ==> !Has(v, files[k], rp, user)
  }

  // The store is of a credential bound to its RP, for a user id of n bytes.
  predicate Regular(v: Vault, op: Op, n: nat) {
    op.Store? && v.load(op.id, op.rp).Some? ==>
      BoundTo(v, op.id, op.rp) && |Contents(v.load(op.id, op.rp).value.userId)| == n
  }

  predicate StoresFor(v: Vault, op: Op, rp: bytes32, user: bytes) {
    && op.Store? && op.rp == rp && v.load(op.id, rp).Some?
    && Contents(v.load(op.id, rp).value.userId) == user
  }

  ghost predicate AllRegular(v: Vault, ops: seq<Op>, n: nat) {
    forall k :: 0 <= k < |ops| ==> Regular(v, ops[k], n)
  }

  ghost predicate NoStoreFor(v: Vault, ops: seq<Op>, rp: bytes32, user: bytes) {
    forall k :: 0 <= k < |ops| ==> !StoresFor(v, ops[k], rp, user)
  }

  // After a delete no file has a credential of that user at that RP.
  lemma DeleteLeavesNone(v: Vault, t: Tables, name: bytes, i: nat, n: nat)
    requires Agrees(t) && Uniform(v, t, n) && OnePerUser(v, t) && FirstCarries(t.creds, name, i)
    ensures var f := t.creds[i].value;
            && v.load(f.id, f.rp).Some?
            && NoneHas(v, OpStep(v, t, Delete(name)).0.creds, f.rp, Contents(v.load(f.id, f.rp).value.userId))
  {
    var d := DeleteMeans(v, t, name);
    assert Carries(t.creds[i], name) && Carries(t.creds[d], name);
    assert d == i;
    var f := t.creds[i].value;
    var user := Contents(v.load(f.id, f.rp).value.userId);
    forall k | 0 <= k < SLOTS && k != i
      ensures !Has(v, t.creds[k], f.rp, user)
    {
      assert t.creds[k].Some? && t.creds[k].value.rp == f.rp ==> UserOf(v, t.creds[k].value) != UserOf(v, f);
    }
  }

  // An operation that is no store for the user gives it no file.
  lemma StaysGone(v: Vault, t: Tables, op: Op, rp: bytes32, user: bytes, n: nat)
    requires Agrees(t) && Uniform(v, t, n) && OnePerUser(v, t) && Recreates(v) && Regular(v, op, n)
    requires NoneHas(v, t.creds, rp, user) && !StoresFor(v, op, rp, user)
    ensures NoneHas(v, OpStep(v, t, op).0.creds, rp, user)
  {
    match op
    case Store(id, of) => var i := StoreMeans(v, t, id, of);
    case Delete(name) => var i := DeleteMeans(v, t, name);
    case Update(name, u, names, stamp) =>
      UpdateChangesOneSlot(v, t, name, u, names, stamp, n);
      var t1, i := OpStep(v, t, op).0, FirstNamed(t.creds, name, 0);
      if OpStep(v, t, op).1 == Ok {
        assert !Has(v, t.creds[i], rp, user);
        assert UserOf(v, t1.creds[i].value) == UserOf(v, t.creds[i].value);
      }
  }

  lemma RunStays(v: Vault, ops: seq<Op>, n: nat)
    requires Recreates(v) && AllRegular(v, ops, n)
    ensures var t := Run(v, EmptyTables(), ops); Agrees(t) && Uniform(v, t, n) && OnePerUser(v, t)
  {
    forall k | 0 <= k < |ops| && ops[k].Store? && v.load(ops[k].id, ops[k].rp).Some?
      ensures BoundTo(v, ops[k].id, ops[k].rp) && |Contents(v.load(ops[k].id, ops[k].rp).value.userId)| == n
    {
      assert Regular(v, ops[k], n);
    }
    RunAgrees(v, ops);
    RunKeepsOnePerUser(v, ops, n);
  }

  lemma RunLast(v: Vault, t: Tables, ops: seq<Op>, op: Op)
    ensures Run(v, t, ops + [op]) == OpStep(v, Run(v, t, ops), op).0
  {
    assert (ops + [op])[..|ops|] == ops;
  }

  lemma RegularAround(v: Vault, before: seq<Op>, name: bytes, after: seq<Op>, n: nat)
    requires AllRegular(v, before, n) && AllRegular(v, after, n)
    ensures AllRegular(v, before + [Delete(name)] + after, n)
  {
  }

  // Over every run: once a credential has been deleted, no file has one of its user at its RP
  // until a store for that user there.
  lemma {:induction false} DeletedIsGone(v: Vault, before: seq<Op>, name: bytes, i: nat, after: seq<Op>, n: nat)
    requires Recreates(v) && AllRegular(v, before, n) && AllRegular(v, after, n)
    requires FirstCarries(Run(v, EmptyTables(), before).creds, name, i)
    requires var f := Run(v, EmptyTables(), before).creds[i].value;
             v.load(f.id, f.rp).Some? ==> NoStoreFor(v, after, f.rp, Contents(v.load(f.id, f.rp).value.userId))
    ensures var f := Run(v, EmptyTables(), before).creds[i].value;
            && v.load(f.id, f.rp).Some?
            && NoneHas(v, Run(v, EmptyTables(), before + [Delete(name)] + after).creds, f.rp,
                       Contents(v.load(f.id, f.rp).value.userId))
    decreases |after|
  {
    var t := Run(v, EmptyTables(), before);
    var f := t.creds[i].value;
    RunStays(v, before, n);
    RunLast(v, EmptyTables(), before, Delete(name));
    if after == [] {
      Nothing(before + [Delete(name)]);
      DeleteLeavesNone(v, t, name, i, n);
    } else {
      var m := |after| - 1;
      var ops := before + [Delete(name)] + after[..m];
      DeletedIsGone(v, before, name, i, after[..m], n);
      assert before + [Delete(name)] + after == ops + [after[m]];
      RunLast(v, EmptyTables(), ops, after[m]);
      RegularAround(v, before, name, after[..m], n);
      RunStays(v, ops, n);
      assert Regular(v, after[m], n);
      StaysGone(v, Run(v, EmptyTables(), ops), after[m], f.rp, Contents(v.load(f.id, f.rp).value.userId), n);
    }
  }

  // Then no getAssertion without an allow list finds it, no resident id stands for it, and no
  // request of credential management shows it.
  lemma GoneIsNotFound(v: Vault, t: Tables, rp: bytes32, user: bytes)
    requires NoneHas(v, t.creds, rp, user)
    ensures forall e :: e in Searched(v, t.creds, rp, []).value.es ==> Contents(e.cred.userId) != user
    ensures forall id: bytes :: IsResident(id) && Meant(v, t.creds, rp, id).Some? ==>
              Contents(Meant(v, t.creds, rp, id).value.cred.userId) != user
  {
    var es := Searched(v, t.creds, rp, []).value.es;
    var slots := CollectedExact(v, t.creds, rp, |t.creds|);
    forall k | 0 <= k < |es|
      ensures Contents(es[k].cred.userId) != user
    {
      assert Loadable(v, t.creds[slots[k]], rp) == Some(es[k]) && !Has(v, t.creds[slots[k]], rp, user);
    }
    forall id: bytes | IsResident(id) && Meant(v, t.creds, rp, id).Some?
      ensures Contents(Meant(v, t.creds, rp, id).value.cred.userId) != user
    {
      assert !Has(v, t.creds[FirstStored(v, t.creds, rp, id, 0)], rp, user);
    }
  }

  lemma GoneIsNotShown(v: Vault, usable: Credential -> bool, t: Tables, c: CredentialManagement.Cursors,
                       ev: CredentialManagement.Event, rp: bytes32, user: bytes)
    requires NoneHas(v, t.creds, rp, user) && (ev == CredentialManagement.CredBegin(rp) || (ev.CredNext? && c.rp == rp))
    ensures var reply := CredentialManagement.CursorStep(v, usable, t, c, ev).1;
            reply.Found? ==>
              && reply.slot < |t.creds| && t.creds[reply.slot].Some? && t.creds[reply.slot].value.rp == rp
              && v.load(t.creds[reply.slot].value.id, rp).Some?
              && Contents(v.load(t.creds[reply.slot].value.id, rp).value.userId) != user
  {
    var reply := CredentialManagement.CursorStep(v, usable, t, c, ev).1;
    if reply.Found? {
      assert !Has(v, t.creds[reply.slot], rp, user);
    }
  }

  // The emptied file is free: after a delete the next store of a credential that loads is
  // accepted.
  lemma DeleteMakesRoom(v: Vault, t: Tables, name: bytes, id: bytes, rp: bytes32)
    requires Agrees(t) && OpStep(v, t, Delete(name)).1 == Ok && v.load(id, rp).Some?
    ensures OpStep(v, OpStep(v, t, Delete(name)).0, Store(id, rp)).1 == Ok
  {
    var i := DeleteMeans(v, t, name);
    var t1 := OpStep(v, t, Delete(name)).0;
    OpAgrees(v, t, Delete(name));
    assert t1.creds[i].None?;
    var j := StoreMeans(v, t1, id, rp);
  }
}
