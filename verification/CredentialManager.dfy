// The credential files, the RP files and the enumeration cursors as the firmware changes
// them: slot scans with early exits, one byte of count, one byte of cursor.
module CredentialManager {
  import opened Basics
  import opened Credentials
  import opened CredentialStore
  import opened CredentialManagement

  function FirstOf(slots: seq<nat>): nat {
    if slots == [] then SLOTS else slots[0]
  }

  class Manager {
    const v: Vault
    const usable: Credential -> bool
    var creds: seq<Option<CredFile>>
    var rps: seq<Option<RpFile>>
    var rpCounter: byte
    var rpTotal: byte
    var credCounter: byte
    var credTotal: byte
    var rpIdHash: bytes32

    predicate Valid()
      reads this
    {
      |creds| == SLOTS && |rps| == SLOTS
    }

    function Files(): Tables
      reads this
    {
      Tables(creds, rps)
    }

    function Cursor(): Cursors
      reads this
    {
      Cursors(rpCounter, rpTotal, credCounter, credTotal, rpIdHash)
    }

    constructor (v: Vault, usable: Credential -> bool)
      ensures Valid() && Files() == EmptyTables() && Cursor() == Cursors(1, 0, 1, 0, Zeros32())
      ensures this.v == v && this.usable == usable
    {
      this.v, this.usable := v, usable;
      creds, rps := seq(SLOTS, _ => None), seq(SLOTS, _ => None);
      rpCounter, rpTotal, credCounter, credTotal, rpIdHash := 1, 0, 1, 0, Zeros32();
    }

    // ---------- credential_store ----------

    // The first loop: the credential slot to write, or SLOTS, and whether it is a new record.
    method ChooseSlot(rp: bytes32, user: bytes) returns (slot: nat, newRecord: bool)
      requires Valid()
      ensures var m := FirstReplaceable(v, creds, rp, user, 0);
              newRecord == (m == SLOTS) && slot == if newRecord then FirstEmpty(creds, 0) else m
    {
      slot, newRecord := SLOTS, true;
      var i := 0;
      while i < SLOTS
        invariant i <= SLOTS
        invariant FirstReplaceable(v, creds, rp, user, 0) == FirstReplaceable(v, creds, rp, user, i)
        invariant if slot == SLOTS then FirstEmpty(creds, 0) == FirstEmpty(creds, i)
                  else slot < i && slot == FirstEmpty(creds, 0)
      {
        if creds[i].None? {
          if slot == SLOTS { slot := i; }
        } else if creds[i].value.rp == rp {
          var stored := v.load(creds[i].value.id, rp);
          if stored.Some? && SameUser(Contents(stored.value.userId), user) {
            return i, false;
          }
        }
        i := i + 1;
      }
    }

    // The second loop: the RP slot to count in, or SLOTS.
    method ChooseRpSlot(rp: bytes32) returns (slot: nat)
      requires Valid()
      ensures slot == if FirstRecord(rps, rp, 0) < SLOTS then FirstRecord(rps, rp, 0) else FirstEmpty(rps, 0)
    {
      slot := SLOTS;
      var i := 0;
      while i < SLOTS
        invariant i <= SLOTS
        invariant FirstRecord(rps, rp, 0) == FirstRecord(rps, rp, i)
        invariant if slot == SLOTS then FirstEmpty(rps, 0) == FirstEmpty(rps, i)
                  else slot < i && slot == FirstEmpty(rps, 0)
      {
        if rps[i].None? {
          if slot == SLOTS { slot := i; }
        } else if rps[i].value.rp == rp {
          return i;
        }
        i := i + 1;
      }
    }

    method Store(id: bytes, rp: bytes32) returns (status: Status)
      requires Valid()
      modifies this`creds, this`rps
      ensures Valid() && (Files(), status) == StoreStep(v, old(Files()), id, rp)
    {
      var loaded := v.load(id, rp);
      if loaded.None? { return Invalid; }
      var slot, newRecord := ChooseSlot(rp, Contents(loaded.value.userId));
      if slot == SLOTS { return Full; }
      creds := creds[slot := Some(CredFile(rp, v.resident(id), id))];
      if newRecord {
        slot := ChooseRpSlot(rp);
        if slot == SLOTS { return Full; }
        if rps[slot].Some? {
          var record := rps[slot].value;
          rps := rps[slot := Some(record.(count := (record.count + 1) % 256))];
        } else {
          rps := rps[slot := Some(RpFile(1, rp, Contents(loaded.value.rpId)))];
        }
      }
      return Ok;
    }

    // ---------- deleteCredential and updateUserInformation ----------

    method FindNamed(id: bytes) returns (slot: nat)
      requires Valid()
      ensures slot == FirstNamed(creds, id, 0)
    {
      slot := 0;
      while slot < SLOTS
        invariant slot <= SLOTS
        invariant FirstNamed(creds, id, 0) == FirstNamed(creds, id, slot)
      {
        if Named(creds[slot], id) { return; }
        slot := slot + 1;
      }
    }

    method Delete(id: bytes) returns (status: Status)
      requires Valid()
      modifies this`creds, this`rps
      ensures Valid() && (Files(), status) == DeleteStep(old(Files()), id)
    {
      var slot := FindNamed(id);
      if slot == SLOTS { return NoCredentials; }
      var rp := creds[slot].value.rp;
      creds := creds[slot := None];
      var j := 0;
      while j < SLOTS
        invariant j <= SLOTS
        invariant FirstRecord(rps, rp, 0) == FirstRecord(rps, rp, j)
        invariant rps == old(rps) && creds == old(creds)[slot := None]
      {
        if rps[j].Some? && rps[j].value.rp == rp {
          var n := (rps[j].value.count + 255) % 256;
          if n == 0 {
            rps := rps[j := None];
          } else {
            rps := rps[j := Some(rps[j].value.(count := n))];
          }
          break;
        }
        j := j + 1;
      }
      return Ok;
    }

    method Update(id: bytes, user: bytes, names: Names, stamp: Stamp) returns (status: Status)
      requires Valid()
      modifies this`creds, this`rps
      ensures Valid() && (Files(), status) == UpdateStep(v, old(Files()), id, user, names, stamp)
    {
      var slot := FindNamed(id);
      if slot == SLOTS { return NoCredentials; }
      var rp := creds[slot].value.rp;
      var loaded := v.load(creds[slot].value.id, rp);
      if loaded.None? { return NotAllowed; }
      if !SameUser(user, Contents(loaded.value.userId)) { return InvalidParameter; }
      var created := v.create(Renamed(loaded.value, names), stamp);
      if created.None? { return NotAllowed; }
      status := Store(created.value, rp);
      if status != Ok { status := NotAllowed; }
    }

    // ---------- enumerateRPsBegin and enumerateRPsGetNextRP ----------

    // The scan of a begin request: the first live record, or SLOTS, and their 8-bit number.
    method ScanLive() returns (found: nat, total: byte)
      requires Valid()
      ensures var live := RpSlots(Files());
              total == |live| % 256 && found == FirstOf(live)
    {
      found, total := SLOTS, 0;
      var skip: byte := 0;
      var i := 0;
      while i < SLOTS
        invariant i <= SLOTS
        invariant skip == total == |LiveSlots(rps, i)| % 256
        invariant found == FirstOf(LiveSlots(rps, i))
      {
        Longer(LiveSlots(rps, i), i);
        if Live(rps[i]) {
          skip := Successor(skip);
          if skip == 1 && found == SLOTS { found := i; }
          total := Successor(total);
        }
        i := i + 1;
      }
    }

    method EnumerateRpsBegin() returns (reply: Reply)
      requires Valid()
      modifies this`rpCounter, this`rpTotal
      ensures (Cursor(), reply) == RpBeginStep(Files(), old(Cursor()))
    {
      var found, total := ScanLive();
      rpCounter, rpTotal := 1, total;
      if found == SLOTS { return Refused(NoCredentials); }
      rpCounter := Successor(rpCounter);
      return Found(found, Some(rpTotal));
    }

    // The scan of a next request: the slot where the 8-bit hit count first equals counter,
    // or SLOTS.
    method SeekRp(counter: byte) returns (slot: nat)
      requires Valid()
      ensures slot == if Position(counter) < |RpSlots(Files())| then RpSlots(Files())[Position(counter)] else SLOTS
    {
      assert RpSlots(Files()) == LiveSlots(rps, SLOTS);
      var skip: byte := 0;
      slot := 0;
      while slot < SLOTS
        invariant slot <= SLOTS && skip == |LiveSlots(rps, slot)| <= Position(counter)
      {
        if Live(rps[slot]) {
          Reaches(|LiveSlots(rps, slot)|, counter);
          skip := Successor(skip);
          if skip == counter {
            LiveSlotAt(rps, slot);
            return;
          }
        }
        slot := slot + 1;
      }
    }

    method EnumerateRpsNext() returns (reply: Reply)
      requires Valid()
      modifies this`rpCounter
      ensures (Cursor(), reply) == RpNextStep(Files(), old(Cursor()))
    {
      if rpCounter > rpTotal { return Refused(NotAllowed); }
      var slot := SeekRp(rpCounter);
      if slot == SLOTS { return Refused(NoCredentials); }
      rpCounter := Successor(rpCounter);
      return Found(slot, None);
    }

    // ---------- enumerateCredentialsBegin and ...GetNextCredential ----------

    // The scan of a begin request: the first slot of rp, or SLOTS, and the 8-bit number of them.
    method ScanOwn(rp: bytes32) returns (found: nat, total: byte)
      requires Valid()
      ensures var own := CredSlots(Files(), rp);
              total == |own| % 256 && found == FirstOf(own)
    {
      found, total := SLOTS, 0;
      var skip: byte := 0;
      var i := 0;
      while i < SLOTS
        invariant i <= SLOTS
        invariant skip == total == |OwnSlots(creds, rp, i)| % 256
        invariant found == FirstOf(OwnSlots(creds, rp, i))
      {
        Longer(OwnSlots(creds, rp, i), i);
        if creds[i].Some? && creds[i].value.rp == rp {
          skip := Successor(skip);
          if skip == 1 && found == SLOTS { found := i; }
          total := Successor(total);
        }
        i := i + 1;
      }
    }

    method EnumerateCredsBegin(rp: bytes32) returns (reply: Reply)
      requires Valid()
      modifies this`credCounter, this`credTotal, this`rpIdHash
      ensures (Cursor(), reply) == CredBeginStep(v, usable, Files(), old(Cursor()), rp)
    {
      var found, total := ScanOwn(rp);
      credCounter, credTotal := 1, total;
      if found == SLOTS { return Refused(NoCredentials); }
      reply := Show(found, rp, Some(credTotal));
    }

    method SeekCred(rp: bytes32, counter: byte) returns (slot: nat)
      requires Valid()
      ensures slot == if Position(counter) < |CredSlots(Files(), rp)| then CredSlots(Files(), rp)[Position(counter)] else SLOTS
    {
      var skip: byte := 0;
      slot := 0;
      while slot < SLOTS
        invariant slot <= SLOTS && skip == |OwnSlots(creds, rp, slot)| <= Position(counter)
      {
        if creds[slot].Some? && creds[slot].value.rp == rp {
          Reaches(|OwnSlots(creds, rp, slot)|, counter);
          skip := Successor(skip);
          if skip == counter {
            OwnSlotAt(creds, rp, slot);
            return;
          }
        }
        slot := slot + 1;
      }
    }

    method EnumerateCredsNext() returns (reply: Reply)
      requires Valid()
      modifies this`credCounter, this`rpIdHash
      ensures (Cursor(), reply) == CredNextStep(v, usable, Files(), old(Cursor()))
    {
      if credCounter > credTotal { return Refused(NotAllowed); }
      var slot := SeekCred(rpIdHash, credCounter);
      if slot == SLOTS { return Refused(NoCredentials); }
      reply := Show(slot, rpIdHash, None);
    }

    // The part begin and next share once a credential file is found.
    method Show(slot: nat, rp: bytes32, total: Option<byte>) returns (reply: Reply)
      requires slot < |creds| && creds[slot].Some?
      modifies this`credCounter, this`rpIdHash
      ensures (Cursor(), reply) == Shown(v, usable, Files(), old(Cursor()), slot, rp, total)
    {
      var loaded := v.load(creds[slot].value.id, rp);
      if loaded.None? { return Refused(NotAllowed); }
      if !usable(loaded.value) { return Refused(NotAllowed); }
      credCounter := Successor(credCounter);
      if credCounter <= credTotal { rpIdHash := rp; }
      return Found(slot, total);
    }
  }

  // Counting on from n, the 8-bit count meets counter at its position and not before.
  lemma Reaches(n: nat, counter: byte)
    requires n <= Position(counter)
    ensures n < 256 && (Successor(n) == counter <==> n == Position(counter))
    ensures Successor(n) != counter ==> Successor(n) == n + 1 <= Position(counter)
  {
  }

  // A list of slots one longer: its length in a byte, and its first.
  lemma Longer(slots: seq<nat>, i: nat)
    requires i < SLOTS && forall k :: 0 <= k < |slots| ==> slots[k] < SLOTS
    ensures |slots + [i]| % 256 == Successor(|slots| % 256)
    ensures FirstOf(slots + [i]) == if FirstOf(slots) == SLOTS then i else FirstOf(slots)
    ensures FirstOf(slots) == SLOTS ==> Successor(|slots| % 256) == 1
  {
  }

  lemma {:induction false} LiveSlotsPrefix(rps: seq<Option<RpFile>>, m: nat, n: nat)
    requires m <= n <= |rps|
    ensures LiveSlots(rps, m) <= LiveSlots(rps, n)
  {
    if m < n {
      LiveSlotsPrefix(rps, m, n - 1);
    }
  }

  lemma {:induction false} OwnSlotsPrefix(creds: seq<Option<CredFile>>, rp: bytes32, m: nat, n: nat)
    requires m <= n <= |creds|
    ensures OwnSlots(creds, rp, m) <= OwnSlots(creds, rp, n)
  {
    if m < n {
      OwnSlotsPrefix(creds, rp, m, n - 1);
    }
  }
  // A live record's place among all of them is the number of live records before it.
  lemma LiveSlotAt(rps: seq<Option<RpFile>>, slot: nat)
    requires slot < |rps| && Live(rps[slot])
    ensures var p := |LiveSlots(rps, slot)|; p < |LiveSlots(rps, |rps|)| && LiveSlots(rps, |rps|)[p] == slot
  {
    LiveSlotsPrefix(rps, slot + 1, |rps|);
  }

  lemma OwnSlotAt(creds: seq<Option<CredFile>>, rp: bytes32, slot: nat)
    requires slot < |creds| && Owned(creds[slot], rp) == 1
    ensures var p := |OwnSlots(creds, rp, slot)|;
            p < |OwnSlots(creds, rp, |creds|)| && OwnSlots(creds, rp, |creds|)[p] == slot
  {
    OwnSlotsPrefix(creds, rp, slot + 1, |creds|);
  }
}
