// Resident credentials: 256 credential files and 256 per-RP counter files that must agree
// (src/fido/credential.c, src/fido/cbor_cred_mgmt.c; CTAP 2.1 section 6.8).
module CredentialStore {
  import opened Basics
  import opened Credentials

  const SLOTS: nat := 256
  const RESIDENT_LEN: nat := 42

  type bytes42 = b: bytes | |b| == 42 witness seq(42, _ => 0)

  // A credential file: RP hash, resident id, credential id.
  datatype CredFile = CredFile(rp: bytes32, resident: bytes42, id: bytes)

  // An RP file: one count byte, RP hash, RP id.
  datatype RpFile = RpFile(count: byte, rp: bytes32, rpId: bytes)

  // The dynamic files 0xCF00.. and 0xD000..; None is a file without data.
  datatype Tables = Tables(creds: seq<Option<CredFile>>, rps: seq<Option<RpFile>>)

  // credential_load, credential_derive_resident and credential_create under one device key.
  datatype Vault = Vault(
    hash: bytes -> bytes32,
    load: (bytes, bytes32) -> Option<Credential>,
    resident: bytes -> bytes42,
    create: (Credential, Stamp) -> Option<bytes>)

  datatype Status = Ok | NotAllowed | InvalidParameter | NoCredentials | Invalid | Full

  // ---------- searching the files ----------

  // memcmp over the shorter of the two user ids.
  predicate SameUser(a: bytes, b: bytes) {
    var n := if |a| < |b| then |a| else |b|;
    a[..n] == b[..n]
  }

  function UserOf(v: Vault, f: CredFile): Option<bytes> {
    var c := v.load(f.id, f.rp);
    if c.Some? then Some(Contents(c.value.userId)) else None
  }

  // The file holds a credential that the user's new one at this RP replaces.
  predicate Replaceable(v: Vault, slot: Option<CredFile>, rp: bytes32, user: bytes) {
    slot.Some? && slot.value.rp == rp && UserOf(v, slot.value).Some? && SameUser(UserOf(v, slot.value).value, user)
  }

  function FirstEmpty<T>(s: seq<Option<T>>, i: nat): (r: nat)
    requires i <= |s|
    ensures i <= r <= |s| && (r < |s| ==> s[r].None?) && forall k :: i <= k < r ==> s[k].Some?
    decreases |s| - i
  {
    if i == |s| || s[i].None? then i else FirstEmpty(s, i + 1)
  }

  function FirstReplaceable(v: Vault, creds: seq<Option<CredFile>>, rp: bytes32, user: bytes, i: nat): (r: nat)
    requires i <= |creds|
    ensures i <= r <= |creds| && (r < |creds| ==> Replaceable(v, creds[r], rp, user))
    ensures forall k :: i <= k < r ==> !Replaceable(v, creds[k], rp, user)
    decreases |creds| - i
  {
    if i == |creds| || Replaceable(v, creds[i], rp, user) then i else FirstReplaceable(v, creds, rp, user, i + 1)
  }

  predicate RecordFor(slot: Option<RpFile>, rp: bytes32) {
    slot.Some? && slot.value.rp == rp
  }

  function FirstRecord(rps: seq<Option<RpFile>>, rp: bytes32, i: nat): (r: nat)
    requires i <= |rps|
    ensures i <= r <= |rps| && (r < |rps| ==> RecordFor(rps[r], rp))
    ensures forall k :: i <= k < r ==> !RecordFor(rps[k], rp)
    decreases |rps| - i
  {
    if i == |rps| || RecordFor(rps[i], rp) then i else FirstRecord(rps, rp, i + 1)
  }

  // memcmp of the first 42 bytes of the requested id.
  predicate Named(slot: Option<CredFile>, id: bytes) {
    slot.Some? && |id| >= RESIDENT_LEN && slot.value.resident == id[..RESIDENT_LEN]
  }

  function FirstNamed(creds: seq<Option<CredFile>>, id: bytes, i: nat): (r: nat)
    requires i <= |creds|
    ensures i <= r <= |creds| && (r < |creds| ==> Named(creds[r], id))
    ensures forall k :: i <= k < r ==> !Named(creds[k], id)
    decreases |creds| - i
  {
    if i == |creds| || Named(creds[i], id) then i else FirstNamed(creds, id, i + 1)
  }

  // ---------- the operations ----------

  // The RP files after one more credential of rp: None when there is no file to count in.
  function CountUp(rps: seq<Option<RpFile>>, rp: bytes32, rpId: bytes): Option<seq<Option<RpFile>>> {
    var j := FirstRecord(rps, rp, 0);
    var e := FirstEmpty(rps, 0);
    if j < |rps| then Some(rps[j := Some(rps[j].value.(count := (rps[j].value.count + 1) % 256))])
    else if e < |rps| then Some(rps[e := Some(RpFile(1, rp, rpId))])
    else None
  }

  function CountDown(rps: seq<Option<RpFile>>, rp: bytes32): seq<Option<RpFile>> {
    var j := FirstRecord(rps, rp, 0);
    if j == |rps| then rps
    else
      var n := (rps[j].value.count + 255) % 256;
      rps[j := if n == 0 then None else Some(rps[j].value.(count := n))]
  }

  function StoreStep(v: Vault, t: Tables, id: bytes, rp: bytes32): (Tables, Status) {
    match v.load(id, rp)
    case None => (t, Invalid)
    case Some(c) =>
      var file := Some(CredFile(rp, v.resident(id), id));
      var m := FirstReplaceable(v, t.creds, rp, Contents(c.userId), 0);
      var e := FirstEmpty(t.creds, 0);
      if m < |t.creds| then (t.(creds := t.creds[m := file]), Ok)
      else if e == |t.creds| then (t, Full)
      else
        match CountUp(t.rps, rp, Contents(c.rpId))
        case None => (t.(creds := t.creds[e := file]), Full)
        case Some(rps) => (Tables(t.creds[e := file], rps), Ok)
  }

  function DeleteStep(t: Tables, id: bytes): (Tables, Status) {
    var i := FirstNamed(t.creds, id, 0);
    if i == |t.creds| then (t, NoCredentials)
    else (Tables(t.creds[i := None], CountDown(t.rps, t.creds[i].value.rp)), Ok)
  }

  // The new user name and display name of an update.
  datatype Names = Names(user: Option<bytes>, display: Option<bytes>)

  function Renamed(c: Credential, names: Names): Credential {
    c.(userName := names.user, userDisplayName := names.display)
  }

  function UpdateStep(v: Vault, t: Tables, id: bytes, user: bytes, names: Names, stamp: Stamp): (Tables, Status) {
    var i := FirstNamed(t.creds, id, 0);
    if i == |t.creds| then (t, NoCredentials)
    else
      var f := t.creds[i].value;
      match v.load(f.id, f.rp)
      case None => (t, NotAllowed)
      case Some(c) =>
        if !SameUser(user, Contents(c.userId)) then (t, InvalidParameter)
        else
          match v.create(Renamed(c, names), stamp)
          case None => (t, NotAllowed)
          case Some(newId) =>
            var (t1, status) := StoreStep(v, t, newId, f.rp);
            (t1, if status == Ok then Ok else NotAllowed)
  }

  datatype Op = Store(id: bytes, rp: bytes32) | Update(name: bytes, user: bytes, names: Names, stamp: Stamp) | Delete(name: bytes)

  function OpStep(v: Vault, t: Tables, op: Op): (Tables, Status) {
    match op
    case Store(id, rp) => StoreStep(v, t, id, rp)
    case Update(name, user, names, stamp) => UpdateStep(v, t, name, user, names, stamp)
    case Delete(name) => DeleteStep(t, name)
  }

  function Run(v: Vault, t: Tables, ops: seq<Op>): Tables {
    if ops == [] then t else OpStep(v, Run(v, t, ops[..|ops| - 1]), ops[|ops| - 1]).0
  }

  function EmptyTables(): Tables {
    Tables(seq(SLOTS, _ => None), seq(SLOTS, _ => None))
  }

  // ---------- counting ----------

  function Owned(slot: Option<CredFile>, rp: bytes32): nat {
    if slot.Some? && slot.value.rp == rp then 1 else 0
  }

  // How many credential files belong to rp.
  function Count(creds: seq<Option<CredFile>>, rp: bytes32): (n: nat)
    ensures n <= |creds|
  {
    if creds == [] then 0 else Count(creds[..|creds| - 1], rp) + Owned(creds[|creds| - 1], rp)
  }

  lemma {:induction false} CountUpdated(creds: seq<Option<CredFile>>, i: nat, x: Option<CredFile>, rp: bytes32)
    requires i < |creds|
    ensures Count(creds[i := x], rp) == Count(creds, rp) - Owned(creds[i], rp) + Owned(x, rp)
  {
    var n := |creds| - 1;
    if i < n {
      assert creds[i := x][..n] == creds[..n][i := x];
      CountUpdated(creds[..n], i, x, rp);
    } else {
      assert creds[i := x][..n] == creds[..n];
    }
  }

  lemma {:induction false} CountPositive(creds: seq<Option<CredFile>>, rp: bytes32)
    ensures Count(creds, rp) > 0 <==> exists i :: 0 <= i < |creds| && Owned(creds[i], rp) == 1
  {
    if creds != [] {
      var n := |creds| - 1;
      CountPositive(creds[..n], rp);
      assert forall i :: 0 <= i < n ==> creds[..n][i] == creds[i];
      if Count(creds, rp) > 0 && Owned(creds[n], rp) == 0 {
        var i :| 0 <= i < n && Owned(creds[..n][i], rp) == 1;
        assert Owned(creds[i], rp) == 1;
      }
    }
  }

  // ---------- index agreement ----------

  ghost predicate HasRecord(rps: seq<Option<RpFile>>, rp: bytes32) {
    exists j :: 0 <= j < |rps| && RecordFor(rps[j], rp)
  }

  // An RP file counts, modulo the byte it counts in, the credentials of an RP that has some.
  ghost predicate CountsRight(creds: seq<Option<CredFile>>, slot: Option<RpFile>) {
    slot.Some? ==>
      Count(creds, slot.value.rp) > 0 && slot.value.count == Count(creds, slot.value.rp) % 256
  }

  ghost predicate RecordsDistinct(rps: seq<Option<RpFile>>) {
    forall i, j :: 0 <= i < j < |rps| && rps[i].Some? && rps[j].Some? ==> rps[i].value.rp != rps[j].value.rp
  }

  // Every RP file counts right, no two count the same RP, and every credential's RP is counted.
  ghost predicate Agrees(t: Tables) {
    && |t.creds| == SLOTS && |t.rps| == SLOTS
    && (forall j :: 0 <= j < SLOTS ==> CountsRight(t.creds, t.rps[j]))
    && RecordsDistinct(t.rps)
    && (forall i :: 0 <= i < SLOTS && t.creds[i].Some? ==> HasRecord(t.rps, t.creds[i].value.rp))
  }

  // What agreement says about one RP: no file without credentials; with n of them exactly one
  // file, whose count is n unless the RP owns every slot, when it reads 0.
  lemma AgreementPerRp(t: Tables, rp: bytes32)
    requires Agrees(t)
    ensures Count(t.creds, rp) == 0 ==> !HasRecord(t.rps, rp)
    ensures Count(t.creds, rp) > 0 ==>
              exists j :: 0 <= j < SLOTS && RecordFor(t.rps[j], rp)
                          && (t.rps[j].value.count == Count(t.creds, rp) <==> Count(t.creds, rp) != SLOTS)
                          && forall k :: 0 <= k < SLOTS && RecordFor(t.rps[k], rp) ==> k == j
  {
    if Count(t.creds, rp) > 0 {
      CountPositive(t.creds, rp);
      var i :| 0 <= i < SLOTS && Owned(t.creds[i], rp) == 1;
      assert t.creds[i].Some?;
      var j :| 0 <= j < SLOTS && RecordFor(t.rps[j], rp);
      assert CountsRight(t.creds, t.rps[j]);
      forall k | 0 <= k < SLOTS && RecordFor(t.rps[k], rp)
        ensures k == j
      {
      }
    }
  }

  // ---------- the late failure of store cannot happen ----------

  ghost function CredHashes(creds: seq<Option<CredFile>>): (h: set<bytes32>)
    ensures |h| <= |creds|
    ensures forall i :: 0 <= i < |creds| && creds[i].Some? ==> creds[i].value.rp in h
  {
    if creds == [] then {}
    else
      var n := |creds| - 1;
      CredHashes(creds[..n]) + if creds[n].Some? then {creds[n].value.rp} else {}
  }

  lemma {:induction false} CredHashesMiss(creds: seq<Option<CredFile>>, e: nat)
    requires e < |creds| && creds[e].None?
    ensures |CredHashes(creds)| < |creds|
  {
    var n := |creds| - 1;
    if e < n {
      CredHashesMiss(creds[..n], e);
    }
  }

  ghost predicate AllUsed(rps: seq<Option<RpFile>>, n: nat) {
    n <= |rps| && forall j :: 0 <= j < n ==> rps[j].Some?
  }

  ghost function RpHashes(rps: seq<Option<RpFile>>, n: nat): set<bytes32>
    requires AllUsed(rps, n)
  {
    if n == 0 then {} else RpHashes(rps, n - 1) + {rps[n - 1].value.rp}
  }

  lemma {:induction false} RpHashFrom(rps: seq<Option<RpFile>>, n: nat, rp: bytes32) returns (j: nat)
    requires AllUsed(rps, n) && rp in RpHashes(rps, n)
    ensures j < n && RecordFor(rps[j], rp)
  {
    if rps[n - 1].value.rp == rp {
      j := n - 1;
    } else {
      j := RpHashFrom(rps, n - 1, rp);
    }
  }

  lemma GrowsByOne<T>(a: set<T>, x: T)
    ensures |a + {x}| == if x in a then |a| else |a| + 1
  {
    if x in a {
      assert a + {x} == a;
    }
  }

  lemma {:induction false} RpHashesDistinct(rps: seq<Option<RpFile>>, n: nat)
    requires AllUsed(rps, n) && RecordsDistinct(rps)
    ensures |RpHashes(rps, n)| == n
  {
    if n > 0 {
      RpHashesDistinct(rps, n - 1);
      var rp := rps[n - 1].value.rp;
      GrowsByOne(RpHashes(rps, n - 1), rp);
      if rp in RpHashes(rps, n - 1) {
        var j := RpHashFrom(rps, n - 1, rp);
        assert false;
      }
    }
  }

  lemma {:induction false} SubsetSize<T>(a: set<T>, b: set<T>)
    requires a <= b
    ensures |a| <= |b|
  {
    if a != {} {
      var x :| x in a;
      SubsetSize(a - {x}, b - {x});
    }
  }

  // Pigeonhole: while a credential file is free, so is an RP file.
  lemma RpFileFree(t: Tables, e: nat)
    requires Agrees(t) && e < SLOTS && t.creds[e].None?
    ensures FirstEmpty(t.rps, 0) < SLOTS
  {
    if FirstEmpty(t.rps, 0) == SLOTS {
      RpHashesDistinct(t.rps, SLOTS);
      CredHashesMiss(t.creds, e);
      forall rp | rp in RpHashes(t.rps, SLOTS)
        ensures rp in CredHashes(t.creds)
      {
        var j := RpHashFrom(t.rps, SLOTS, rp);
        assert CountsRight(t.creds, t.rps[j]);
        CountPositive(t.creds, rp);
        var i :| 0 <= i < SLOTS && Owned(t.creds[i], rp) == 1;
      }
      SubsetSize(RpHashes(t.rps, SLOTS), CredHashes(t.creds));
      assert false;
    }
  }

  // Some credential file is free or replaceable.
  ghost predicate HasRoom(v: Vault, t: Tables, rp: bytes32, user: bytes) {
    exists i :: 0 <= i < |t.creds| && (t.creds[i].None? || Replaceable(v, t.creds[i], rp, user))
  }

  // A store either does everything it promises or leaves both tables alone: a free or
  // replaceable credential file is all it needs.
  lemma StoreAllOrNothing(v: Vault, t: Tables, id: bytes, rp: bytes32)
    requires Agrees(t)
    ensures var (t1, status) := StoreStep(v, t, id, rp);
            && (status != Ok ==> t1 == t)
            && (status == Ok <==> v.load(id, rp).Some? && HasRoom(v, t, rp, Contents(v.load(id, rp).value.userId)))
  {
    var e := FirstEmpty(t.creds, 0);
    if e < SLOTS {
      RpFileFree(t, e);
    }
  }

  // ---------- every operation keeps the agreement ----------

  lemma ReplacedAgrees(t: Tables, m: nat, f: CredFile)
    requires Agrees(t) && m < SLOTS && t.creds[m].Some? && t.creds[m].value.rp == f.rp
    ensures Agrees(t.(creds := t.creds[m := Some(f)]))
  {
    forall rp: bytes32
      ensures Count(t.creds[m := Some(f)], rp) == Count(t.creds, rp)
    {
      CountUpdated(t.creds, m, Some(f), rp);
    }
    assert forall j :: 0 <= j < SLOTS ==> CountsRight(t.creds, t.rps[j]);
  }

  // The counts of the other RPs do not see a change to a file of rp.
  lemma CountsElsewhere(creds: seq<Option<CredFile>>, i: nat, x: Option<CredFile>, rp: bytes32, slot: Option<RpFile>)
    requires i < |creds| && (creds[i].Some? ==> creds[i].value.rp == rp) && (x.Some? ==> x.value.rp == rp)
    requires CountsRight(creds, slot) && !RecordFor(slot, rp)
    ensures CountsRight(creds[i := x], slot)
  {
    if slot.Some? {
      CountUpdated(creds, i, x, slot.value.rp);
    }
  }

  lemma RecordIsFirst(rps: seq<Option<RpFile>>, rp: bytes32, j: nat)
    requires RecordsDistinct(rps) && j < |rps|
    ensures RecordFor(rps[j], rp) ==> j == FirstRecord(rps, rp, 0)
  {
  }

  lemma ByteSteps(n: nat)
    ensures (n % 256 + 1) % 256 == (n + 1) % 256
    ensures 0 < n <= 256 ==> (n % 256 + 255) % 256 == n - 1
  {
  }

  // The record of rp counts right again after one more, or one less, credential of rp.
  lemma RecordStepped(t: Tables, i: nat, x: Option<CredFile>, rp: bytes32, j: nat)
    requires Agrees(t) && i < SLOTS && j < SLOTS && RecordFor(t.rps[j], rp)
    ensures t.creds[i].None? && x.Some? && x.value.rp == rp ==>
              CountsRight(t.creds[i := x], Some(t.rps[j].value.(count := (t.rps[j].value.count + 1) % 256)))
    ensures t.creds[i].Some? && t.creds[i].value.rp == rp && x.None? ==>
              var n := (t.rps[j].value.count + 255) % 256;
              n == Count(t.creds[i := x], rp)
              && CountsRight(t.creds[i := x], if n == 0 then None else Some(t.rps[j].value.(count := n)))
  {
    assert CountsRight(t.creds, t.rps[j]);
    CountUpdated(t.creds, i, x, rp);
    ByteSteps(Count(t.creds, rp));
  }

  lemma AddedCounts(t: Tables, e: nat, f: CredFile, rpId: bytes)
    requires Agrees(t) && e < SLOTS && t.creds[e].None? && CountUp(t.rps, f.rp, rpId).Some?
    ensures forall j :: 0 <= j < SLOTS ==> CountsRight(t.creds[e := Some(f)], CountUp(t.rps, f.rp, rpId).value[j])
  {
    var k := FirstRecord(t.rps, f.rp, 0);
    if k < SLOTS {
      RecordStepped(t, e, Some(f), f.rp, k);
    } else {
      CountUpdated(t.creds, e, Some(f), f.rp);
      CountPositive(t.creds, f.rp);
    }
    forall j | 0 <= j < SLOTS && !RecordFor(t.rps[j], f.rp)
      ensures CountsRight(t.creds[e := Some(f)], t.rps[j])
    {
      CountsElsewhere(t.creds, e, Some(f), f.rp, t.rps[j]);
    }
  }

  lemma AddedAgrees(t: Tables, e: nat, f: CredFile, rpId: bytes)
    requires Agrees(t) && e < SLOTS && t.creds[e].None?
    ensures CountUp(t.rps, f.rp, rpId).Some?
    ensures Agrees(Tables(t.creds[e := Some(f)], CountUp(t.rps, f.rp, rpId).value))
  {
    RpFileFree(t, e);
    var creds, rps := t.creds[e := Some(f)], CountUp(t.rps, f.rp, rpId).value;
    AddedCounts(t, e, f, rpId);
    var k := FirstRecord(t.rps, f.rp, 0);
    assert RecordFor(rps[if k == SLOTS then FirstEmpty(t.rps, 0) else k], f.rp);
    forall i | 0 <= i < SLOTS && creds[i].Some?
      ensures HasRecord(rps, creds[i].value.rp)
    {
      if i != e {
        var r :| 0 <= r < SLOTS && RecordFor(t.rps[r], creds[i].value.rp);
        assert RecordFor(rps[r], creds[i].value.rp);
      }
    }
  }

  lemma StoreAgrees(v: Vault, t: Tables, id: bytes, rp: bytes32)
    requires Agrees(t)
    ensures Agrees(StoreStep(v, t, id, rp).0)
  {
    if v.load(id, rp).Some? {
      var c := v.load(id, rp).value;
      var m, e := FirstReplaceable(v, t.creds, rp, Contents(c.userId), 0), FirstEmpty(t.creds, 0);
      var f := CredFile(rp, v.resident(id), id);
      if m < SLOTS {
        ReplacedAgrees(t, m, f);
      } else if e < SLOTS {
        AddedAgrees(t, e, f, Contents(c.rpId));
      }
    }
  }

  lemma DeleteAgrees(t: Tables, id: bytes)
    requires Agrees(t)
    ensures Agrees(DeleteStep(t, id).0)
  {
    var i := FirstNamed(t.creds, id, 0);
    if i < SLOTS {
      RemovedAgrees(t, i);
    }
  }

  // The record goes with the RP's last credential and stays while it has another.
  lemma RemovedCounts(t: Tables, i: nat)
    requires Agrees(t) && i < SLOTS && t.creds[i].Some?
    ensures var p := t.creds[i].value.rp; var rps := CountDown(t.rps, p);
            && (forall j :: 0 <= j < SLOTS ==> CountsRight(t.creds[i := None], rps[j]))
            && (Count(t.creds[i := None], p) > 0 ==> HasRecord(rps, p))
  {
    var p := t.creds[i].value.rp;
    var k := FirstRecord(t.rps, p, 0);
    RecordStepped(t, i, None, p, k);
    forall j | 0 <= j < SLOTS && j != k
      ensures CountsRight(t.creds[i := None], t.rps[j])
    {
      RecordIsFirst(t.rps, p, j);
      CountsElsewhere(t.creds, i, None, p, t.rps[j]);
    }
    if Count(t.creds[i := None], p) > 0 {
      assert RecordFor(CountDown(t.rps, p)[k], p);
    }
  }

  lemma RemovedAgrees(t: Tables, i: nat)
    requires Agrees(t) && i < SLOTS && t.creds[i].Some?
    ensures Agrees(Tables(t.creds[i := None], CountDown(t.rps, t.creds[i].value.rp)))
  {
    var p := t.creds[i].value.rp;
    var creds, rps := t.creds[i := None], CountDown(t.rps, p);
    RemovedCounts(t, i);
    CountPositive(creds, p);
    forall k | 0 <= k < SLOTS && creds[k].Some?
      ensures HasRecord(rps, creds[k].value.rp)
    {
      if creds[k].value.rp == p {
        assert Owned(creds[k], p) == 1;
      } else {
        var r :| 0 <= r < SLOTS && RecordFor(t.rps[r], creds[k].value.rp);
        assert RecordFor(rps[r], creds[k].value.rp);
      }
    }
  }

  lemma OpAgrees(v: Vault, t: Tables, op: Op)
    requires Agrees(t)
    ensures Agrees(OpStep(v, t, op).0)
  {
    match op
    case Store(id, rp) => StoreAgrees(v, t, id, rp);
    case Delete(name) => DeleteAgrees(t, name);
    case Update(name, user, names, stamp) =>
      var i := FirstNamed(t.creds, name, 0);
      if i < SLOTS {
        var f := t.creds[i].value;
        if v.load(f.id, f.rp).Some? && v.create(Renamed(v.load(f.id, f.rp).value, names), stamp).Some? {
          StoreAgrees(v, t, v.create(Renamed(v.load(f.id, f.rp).value, names), stamp).value, f.rp);
        }
      }
  }

  lemma {:induction false} EmptyCount(n: nat, rp: bytes32)
    ensures Count(seq(n, _ => None), rp) == 0
  {
    if n > 0 {
      var s: seq<Option<CredFile>> := seq(n, _ => None);
      assert s[..n - 1] == seq(n - 1, _ => None);
      EmptyCount(n - 1, rp);
    }
  }

  // From empty tables, after any sequence of store, update and delete, files and counts agree.
  lemma {:induction false} RunAgrees(v: Vault, ops: seq<Op>)
    ensures Agrees(Run(v, EmptyTables(), ops))
  {
    if ops != [] {
      RunAgrees(v, ops[..|ops| - 1]);
      OpAgrees(v, Run(v, EmptyTables(), ops[..|ops| - 1]), ops[|ops| - 1]);
    }
  }

  // ---------- one credential per user ----------

  // The credential belongs to the RP it is stored under: its RP id survives printing.
  predicate BoundTo(v: Vault, id: bytes, rp: bytes32) {
    && v.load(id, rp).Some?
    && var rpId := Contents(v.load(id, rp).value.rpId);
    && 0 !in rpId && v.hash(rpId) == rp
  }

  // Every stored credential loads, belongs to its RP, and has a user id of n bytes.
  ghost predicate Uniform(v: Vault, t: Tables, n: nat) {
    forall i :: 0 <= i < |t.creds| && t.creds[i].Some? ==>
      BoundTo(v, t.creds[i].value.id, t.creds[i].value.rp)
      && UserOf(v, t.creds[i].value).Some? && |UserOf(v, t.creds[i].value).value| == n
  }

  ghost predicate OnePerUser(v: Vault, t: Tables) {
    forall i, j :: 0 <= i < j < |t.creds| && t.creds[i].Some? && t.creds[j].Some?
                   && t.creds[i].value.rp == t.creds[j].value.rp ==>
      UserOf(v, t.creds[i].value) != UserOf(v, t.creds[j].value)
  }

  // A loaded credential of rp, re-created under new names, is one of rp for the same user.
  ghost predicate Recreates(v: Vault) {
    forall id: bytes, rp: bytes32, names: Names, stamp: Stamp ::
      BoundTo(v, id, rp) && v.create(Renamed(v.load(id, rp).value, names), stamp).Some? ==>
        var id' := v.create(Renamed(v.load(id, rp).value, names), stamp).value;
        BoundTo(v, id', rp) && Contents(v.load(id', rp).value.userId) == Contents(v.load(id, rp).value.userId)
  }

  lemma SameUserOfOneLength(a: bytes, b: bytes)
    requires |a| == |b|
    ensures SameUser(a, b) <==> a == b
  {
    assert a[..|a|] == a && b[..|b|] == b;
  }

  // The file is the one that holds the user's credential at rp.
  predicate OwnFile(v: Vault, slot: Option<CredFile>, rp: bytes32, user: bytes) {
    slot.Some? && slot.value.rp == rp && UserOf(v, slot.value) == Some(user)
  }

  ghost predicate NoOtherOwn(v: Vault, t: Tables, i: nat, rp: bytes32, user: bytes) {
    forall k :: 0 <= k < |t.creds| && k != i ==> !OwnFile(v, t.creds[k], rp, user)
  }

  // Among users of one length a file is replaceable exactly if it is the user's own.
  lemma ReplaceableIsOwn(v: Vault, t: Tables, i: nat, rp: bytes32, user: bytes, n: nat)
    requires Uniform(v, t, n) && i < |t.creds| && |user| == n
    ensures Replaceable(v, t.creds[i], rp, user) <==> OwnFile(v, t.creds[i], rp, user)
  {
    if t.creds[i].Some? {
      SameUserOfOneLength(UserOf(v, t.creds[i].value).value, user);
    }
  }

  lemma FirstReplaceableIsOwn(v: Vault, t: Tables, rp: bytes32, user: bytes, n: nat)
    requires Uniform(v, t, n) && OnePerUser(v, t) && |user| == n
    ensures NoOtherOwn(v, t, FirstReplaceable(v, t.creds, rp, user, 0), rp, user)
  {
    var m := FirstReplaceable(v, t.creds, rp, user, 0);
    forall k | 0 <= k < |t.creds| && k != m
      ensures !OwnFile(v, t.creds[k], rp, user)
    {
      ReplaceableIsOwn(v, t, k, rp, user, n);
      if m < |t.creds| {
        ReplaceableIsOwn(v, t, m, rp, user, n);
      }
    }
  }

  // Writing the only file of its user keeps the files uniform and one per user.
  lemma WrittenKeepsOnePerUser(v: Vault, t: Tables, i: nat, f: CredFile, rps: seq<Option<RpFile>>, n: nat)
    requires Uniform(v, t, n) && OnePerUser(v, t) && i < |t.creds|
    requires BoundTo(v, f.id, f.rp) && UserOf(v, f).Some? && |UserOf(v, f).value| == n
    requires NoOtherOwn(v, t, i, f.rp, UserOf(v, f).value)
    ensures var t1 := Tables(t.creds[i := Some(f)], rps); Uniform(v, t1, n) && OnePerUser(v, t1)
  {
    var creds := t.creds[i := Some(f)];
    forall j, k | 0 <= j < k < |creds| && creds[j].Some? && creds[k].Some? && creds[j].value.rp == creds[k].value.rp
      ensures UserOf(v, creds[j].value) != UserOf(v, creds[k].value)
    {
      assert j != i ==> !OwnFile(v, t.creds[j], f.rp, UserOf(v, f).value);
      assert k != i ==> !OwnFile(v, t.creds[k], f.rp, UserOf(v, f).value);
    }
  }

  // A store for a user of the common length replaces exactly the file that user already has,
  // and adds one only for a new user; the other files keep their content either way.
  lemma StoreKeepsOnePerUser(v: Vault, t: Tables, id: bytes, rp: bytes32, n: nat)
    requires Agrees(t) && Uniform(v, t, n) && OnePerUser(v, t)
    requires v.load(id, rp).Some? ==> BoundTo(v, id, rp) && |Contents(v.load(id, rp).value.userId)| == n
    ensures var t1 := StoreStep(v, t, id, rp).0; Uniform(v, t1, n) && OnePerUser(v, t1)
    ensures forall i :: 0 <= i < SLOTS && v.load(id, rp).Some?
                        && OwnFile(v, t.creds[i], rp, Contents(v.load(id, rp).value.userId)) ==>
              StoreStep(v, t, id, rp) == (t.(creds := t.creds[i := Some(CredFile(rp, v.resident(id), id))]), Ok)
  {
    if v.load(id, rp).Some? {
      var user := Contents(v.load(id, rp).value.userId);
      var f := CredFile(rp, v.resident(id), id);
      var m, e := FirstReplaceable(v, t.creds, rp, user, 0), FirstEmpty(t.creds, 0);
      FirstReplaceableIsOwn(v, t, rp, user, n);
      if m < SLOTS {
        WrittenKeepsOnePerUser(v, t, m, f, t.rps, n);
      } else if e < SLOTS {
        WrittenKeepsOnePerUser(v, t, e, f, StoreStep(v, t, id, rp).0.rps, n);
      }
      forall i | 0 <= i < SLOTS && OwnFile(v, t.creds[i], rp, user)
        ensures i == m
      {
        ReplaceableIsOwn(v, t, i, rp, user, n);
      }
    }
  }

  // An update writes the file it found and no other.
  lemma UpdateChangesOneSlot(v: Vault, t: Tables, name: bytes, user: bytes, names: Names, stamp: Stamp, n: nat)
    requires Agrees(t) && Uniform(v, t, n) && OnePerUser(v, t) && Recreates(v)
    ensures var (t1, status) := UpdateStep(v, t, name, user, names, stamp);
            && Uniform(v, t1, n) && OnePerUser(v, t1)
            && t1.rps == t.rps
            && var i := FirstNamed(t.creds, name, 0);
            && (status != Ok ==> t1 == t)
            && (status == Ok ==> i < SLOTS && t1.creds[i].Some? && t1.creds == t.creds[i := t1.creds[i]]
                                 && t1.creds[i].value.rp == t.creds[i].value.rp
                                 && UserOf(v, t1.creds[i].value) == UserOf(v, t.creds[i].value))
  {
    var i := FirstNamed(t.creds, name, 0);
    if i < SLOTS {
      var f := t.creds[i].value;
      var c := Renamed(v.load(f.id, f.rp).value, names);
      if v.create(c, stamp).Some? {
        StoreKeepsOnePerUser(v, t, v.create(c, stamp).value, f.rp, n);
      }
    }
  }

  lemma OpKeepsOnePerUser(v: Vault, t: Tables, op: Op, n: nat)
    requires Agrees(t) && Uniform(v, t, n) && OnePerUser(v, t) && Recreates(v)
    requires op.Store? && v.load(op.id, op.rp).Some? ==>
               BoundTo(v, op.id, op.rp) && |Contents(v.load(op.id, op.rp).value.userId)| == n
    ensures var t1 := OpStep(v, t, op).0; Uniform(v, t1, n) && OnePerUser(v, t1)
  {
    match op
    case Store(id, rp) => StoreKeepsOnePerUser(v, t, id, rp, n);
    case Update(name, user, names, stamp) => UpdateChangesOneSlot(v, t, name, user, names, stamp, n);
    case Delete(_) =>
  }

  // With user ids of one common length no run stores two credentials of one user at one RP.
  lemma {:induction false} RunKeepsOnePerUser(v: Vault, ops: seq<Op>, n: nat)
    requires Recreates(v)
    requires forall k :: 0 <= k < |ops| && ops[k].Store? && v.load(ops[k].id, ops[k].rp).Some? ==>
               BoundTo(v, ops[k].id, ops[k].rp) && |Contents(v.load(ops[k].id, ops[k].rp).value.userId)| == n
    ensures var t := Run(v, EmptyTables(), ops); Uniform(v, t, n) && OnePerUser(v, t)
  {
    if ops != [] {
      var m := |ops| - 1;
      RunKeepsOnePerUser(v, ops[..m], n);
      RunAgrees(v, ops[..m]);
      OpKeepsOnePerUser(v, Run(v, EmptyTables(), ops[..m]), ops[m], n);
    }
  }

  // A store overwrites the credential of a different user exactly when the first file of the
  // RP that agrees with the new user id on the shorter length is a different user's.
  lemma StoreOverwritesAnotherUser(v: Vault, t: Tables, id: bytes, rp: bytes32)
    requires Agrees(t) && v.load(id, rp).Some?
    ensures var user := Contents(v.load(id, rp).value.userId);
            var m := FirstReplaceable(v, t.creds, rp, user, 0);
            (exists i :: 0 <= i < SLOTS && t.creds[i].Some? && UserOf(v, t.creds[i].value) != Some(user)
                         && StoreStep(v, t, id, rp).0.creds[i] != t.creds[i])
            <==> m < SLOTS && UserOf(v, t.creds[m].value) != Some(user)
  {
    var user := Contents(v.load(id, rp).value.userId);
    var m := FirstReplaceable(v, t.creds, rp, user, 0);
    if m < SLOTS && UserOf(v, t.creds[m].value) != Some(user) {
      assert StoreStep(v, t, id, rp).0.creds[m] != t.creds[m];
    }
  }

  lemma StoreIntoEmpty(v: Vault, id: bytes, rp: bytes32)
    requires v.load(id, rp).Some?
    ensures var t := StoreStep(v, EmptyTables(), id, rp).0;
            |t.creds| == SLOTS && t.creds[0] == Some(CredFile(rp, v.resident(id), id)) && Count(t.creds, rp) == 1
  {
    var e := EmptyTables();
    RunAgrees(v, []);
    assert e.creds[0].None?;
    AddedAgrees(e, 0, CredFile(rp, v.resident(id), id), Contents(v.load(id, rp).value.rpId));
    CountUpdated(e.creds, 0, Some(CredFile(rp, v.resident(id), id)), rp);
    EmptyCount(SLOTS, rp);
  }

  lemma StoreOverFirst(v: Vault, t: Tables, id: bytes, rp: bytes32)
    requires v.load(id, rp).Some? && |t.creds| == SLOTS
    requires Replaceable(v, t.creds[0], rp, Contents(v.load(id, rp).value.userId))
    ensures var t1 := StoreStep(v, t, id, rp).0;
            t1.creds == t.creds[0 := Some(CredFile(rp, v.resident(id), id))] && Count(t1.creds, rp) == Count(t.creds, rp)
  {
    CountUpdated(t.creds, 0, Some(CredFile(rp, v.resident(id), id)), rp);
  }

  // It happens without the common length: storing for user 01 drops the credential of 01 02.
  lemma PrefixUserIdDropsCredential(v: Vault, long: bytes, short: bytes, rp: bytes32)
    requires v.load(long, rp).Some? && v.load(long, rp).value.userId == Some([1, 2])
    requires v.load(short, rp).Some? && v.load(short, rp).value.userId == Some([1])
    ensures var t := Run(v, EmptyTables(), [Store(long, rp), Store(short, rp)]);
            Count(t.creds, rp) == 1 && t.creds[0] == Some(CredFile(rp, v.resident(short), short))
  {
    var ops := [Store(long, rp), Store(short, rp)];
    assert ops[..1] == [Store(long, rp)] && ops[..1][..0] == [];
    var t1 := StoreStep(v, EmptyTables(), long, rp).0;
    assert Run(v, EmptyTables(), ops[..1]) == t1;
    StoreIntoEmpty(v, long, rp);
    assert SameUser([1, 2], [1]) by {
      assert [1, 2][..1] == [1][..1];
    }
    StoreOverFirst(v, t1, short, rp);
  }
}
