// Which PIN the device accepts: the last one set, and no other, over every run of commands.
module AcceptedPin {
  import opened Basics
  import opened ClientPin
  import opened KeyConservation
  import opened LockOut
  import opened PinAttempts
  import opened PinPolicy

  // The PIN of a padded PIN is its first n bytes.
  predicate IsPin(p: bytes64, n: nat) {
    n < 64 && (forall i :: 0 <= i < n ==> p[i] != 0) && p[n] == 0
  }

  // What a platform presents for that PIN.
  function HashOf(c: Crypto, p: bytes64, n: nat): bytes16
    requires n < 64
  {
    c.sha256(p[..n])[..16]
  }

  ghost predicate AcceptsOnly(c: Crypto, pin: bytes, h: bytes16) {
    forall g: bytes16 :: Matches(c, pin, g) <==> g == h
  }

  // A command that has set the PIN p.
  predicate Sets(cmd: Command, out: Outcome, p: bytes64) {
    out.status == Ok && (cmd.SetPin? || cmd.ChangePin?) && cmd.newPin == Some(p)
  }

  // ---------- one command ----------

  lemma LengthIs(p: bytes64, n: nat)
    requires IsPin(p, n)
    ensures PinLength(p) == n
  {
  }

  lemma FileAccepts(c: Crypto, n: byte, h: bytes16)
    requires Laws(c)
    ensures var pin := [8, n, 1] + c.verifier(h); AcceptsOnly(c, pin, h)
  {
    assert ([8, n, 1] + c.verifier(h))[3..] == c.verifier(h);
  }

  // What a PIN file accepts: in the older layout every PIN hash with the double hash written
  // there, in the present one just the one whose verifier was written, and without a PIN none.
  lemma FilesAccept(c: Crypto, n: byte, len: byte, g: bytes16, h: bytes16)
    requires Laws(c)
    ensures Matches(c, [n, len] + c.doubleHash(g), h) <==> c.doubleHash(h) == c.doubleHash(g)
    ensures Matches(c, [n, len, 1] + c.verifier(g), h) <==> h == g
    ensures !Matches(c, [], h)
  {
    assert ([n, len] + c.doubleHash(g))[2..] == c.doubleHash(g);
    assert ([n, len, 1] + c.verifier(g))[3..] == c.verifier(g);
  }

  // After an accepted setPIN or changePIN the file has 8 attempts and the PIN's length, and
  // accepts the first half of the PIN's SHA-256 and nothing else; the PIN is not too short.
  lemma SetPinIsAccepted(c: Crypto, s: State, cmd: Command, e: Entropy, p: bytes64, n: nat)
    requires Laws(c) && WellFormed(s) && IsPin(p, n) && Sets(cmd, Step(c, s, cmd, e).1, p)
    ensures var t := Step(c, s, cmd, e).0;
            && |t.pin| == 35 && t.pin[0] == 8 && t.pin[1] == n && t.pin[2] == 1
            && AcceptsOnly(c, t.pin, HashOf(c, p, n))
            && n >= Minimum(s)
  {
    LengthIs(p, n);
    FileAccepts(c, n, HashOf(c, p, n));
    if cmd.ChangePin? {
      var a := Awake(s, e);
      TryPinWellFormed(c, a, cmd.pinHash, e);
    }
  }

  // The shortest PIN allowed.
  function Minimum(s: State): byte {
    if s.minPin == [] then 4 else s.minPin[0]
  }

  // A PIN sent in order, padded to 64 bytes and not too short.
  predicate Settable(s: State, newPin: Option<bytes64>) {
    newPin.Some? && newPin.value[63] == 0 && forall i :: 0 <= i < Minimum(s) ==> i < 64 && newPin.value[i] != 0
  }

  lemma SettableIsLong(s: State, p: bytes64)
    ensures Settable(s, Some(p)) <==> p[63] == 0 && PinLength(p) >= Minimum(s)
  {
  }

  // setPIN succeeds exactly with such a PIN on a device without one.
  lemma SetPinSucceedsIff(c: Crypto, s: State, ch: Channel, newPin: Option<bytes64>, e: Entropy)
    requires WellFormed(s)
    ensures Step(c, s, SetPin(ch, newPin), e).1.status == Ok <==>
            && ch.complete && (ch.protocol == 1 || ch.protocol == 2) && ch.lengthsOk && ch.agreed && ch.macOk
            && s.pin == [] && Settable(s, newPin)
  {
    if newPin.Some? { SettableIsLong(s, newPin.value); }
  }

  // changePIN succeeds exactly with such a PIN on a device whose PIN is presented while an
  // attempt is left, but not with the same PIN again if a change is forced.
  lemma ChangePinSucceedsIff(c: Crypto, s: State, ch: Channel, pinHash: Option<bytes16>, newPin: Option<bytes64>, e: Entropy,
                             k: bytes32, n: nat)
    requires Laws(c) && Holds(c, s, k) && (newPin.Some? && newPin.value[63] == 0 ==> IsPin(newPin.value, n))
    ensures var cmd := ChangePin(ch, pinHash, newPin);
            Step(c, s, cmd, e).1.status == Ok <==>
            && Presented(cmd).Some? && s.pin != [] && s.pin[0] > 0 && Matches(c, s.pin, Presented(cmd).value)
            && Settable(s, newPin)
            && !(|s.minPin| >= 2 && s.minPin[1] == 1 && HashOf(c, newPin.value, n) == Presented(cmd).value)
  {
    var cmd := ChangePin(ch, pinHash, newPin);
    var a := Awake(s, e);
    if ChangePinRefusal(a, ch).None? && pinHash.Some? {
      if Matches(c, s.pin, pinHash.value) {
        TryPinConserves(c, a, pinHash, e, k);
        UnlockedPin(c, a, pinHash.value, e);
        ReplaceSucceedsIff(c, TryPin(c, a, pinHash, e).0, newPin, e, k, n, pinHash.value);
      } else {
        TriedIff(c, a, pinHash.value, e);
        TriedStatus(c, a, pinHash.value, e);
      }
    }
  }

  lemma TriedStatus(c: Crypto, s: State, h: bytes16, e: Entropy)
    requires PinSet(s.pin) && s.pin[0] > 0
    ensures TryPin(c, s, Some(h), e).1.Some? ==> TryPin(c, s, Some(h), e).1.value.status != Ok
  {
  }

  lemma UnlockedPin(c: Crypto, s: State, h: bytes16, e: Entropy)
    requires Laws(c) && WellFormed(s) && PinSet(s.pin) && s.pin[0] > 0 && Matches(c, s.pin, h)
    ensures TryPin(c, s, Some(h), e).1.None? ==>
              var t := TryPin(c, s, Some(h), e).0; |t.pin| == 35 && t.minPin == s.minPin && AcceptsOnly(c, t.pin, h)
  {
    WrongStaysWrongFor(c, s.pin, s.pin[0] - 1, h);
    var pin := RestoredPin(c, Spend(s).pin, h);
    assert pin[3..] == c.verifier(h);
  }

  lemma ReplaceSucceedsIff(c: Crypto, s: State, newPin: Option<bytes64>, e: Entropy, k: bytes32, n: nat, h: bytes16)
    requires Laws(c) && |s.pin| == 35 && AcceptsOnly(c, s.pin, h) && Loads(c, s, k)
    requires newPin.Some? && newPin.value[63] == 0 ==> IsPin(newPin.value, n)
    ensures ReplacePin(c, s, newPin, e).1.status == Ok <==>
            Settable(s, newPin) && !(|s.minPin| >= 2 && s.minPin[1] == 1 && HashOf(c, newPin.value, n) == h)
  {
    if newPin.Some? && newPin.value[63] == 0 {
      SettableIsLong(s, newPin.value);
      LengthIs(newPin.value, n);
      assert Matches(c, s.pin, HashOf(c, newPin.value, n)) <==> HashOf(c, newPin.value, n) == h;
    }
  }

  // A PIN presented in order is accepted if and only if an attempt is left and the file accepts
  // it.
  lemma AcceptedIff(c: Crypto, s: State, cmd: Command, e: Entropy, h: bytes16)
    requires WellFormed(s) && Presented(cmd) == Some(h)
    ensures Step(c, s, cmd, e).1.accepted <==> s.pin != [] && s.pin[0] > 0 && Matches(c, s.pin, h)
  {
    var a := Awake(s, e);
    match cmd
    case ChangePin(ch, _, p) =>
      if ChangePinRefusal(a, ch).None? {
        TriedIff(c, a, h, e);
        TryPinWellFormed(c, a, Some(h), e);
        var (t, end) := TryPin(c, a, Some(h), e);
        if end.None? { ReplacePinAccepts(c, t, p, e); }
      }
    case PinToken(ch, plain, _, perms, rp) =>
      if PinTokenRefusal(a, ch, plain, perms, rp).None? {
        TriedIff(c, a, h, e);
        IssueTokenKeepsFiles(TryPin(c, a, Some(h), e).0, plain, perms, rp, e);
      }
  }

  lemma TriedIff(c: Crypto, s: State, h: bytes16, e: Entropy)
    requires PinSet(s.pin) && s.pin[0] > 0
    ensures var end := TryPin(c, s, Some(h), e).1; (end.None? || end.value.accepted) <==> Matches(c, s.pin, h)
  {
    WrongStaysWrongFor(c, s.pin, s.pin[0] - 1, h);
  }

  lemma WrongStaysWrongFor(c: Crypto, pin: bytes, n: byte, h: bytes16)
    requires PinSet(pin)
    ensures Matches(c, pin[0 := n], h) == Matches(c, pin, h)
  {
    assert pin[0 := n][2..] == pin[2..];
    assert |pin| == 35 ==> pin[0 := n][3..] == pin[3..];
  }

  lemma ReplacePinAccepts(c: Crypto, s: State, p: Option<bytes64>, e: Entropy)
    requires |s.pin| == 35
    ensures ReplacePin(c, s, p, e).1.accepted
  {
  }

  // The PIN file before and after a command that sets no PIN: still absent, or still of the
  // same length and accepting what it did; but bringing an older file to the new layout leaves
  // the accepted PIN the only one.
  ghost predicate SamePin(c: Crypto, before: bytes, after: bytes) {
    if before == [] then after == []
    else
      && PinSet(before) && PinSet(after) && after[1] == before[1]
      && (forall h: bytes16 :: Matches(c, after, h) ==> Matches(c, before, h))
      && (|after| == |before| ==> forall h: bytes16 :: Matches(c, before, h) ==> Matches(c, after, h))
      && (|after| != |before| ==> |before| == 34 && |after| == 35)
  }

  lemma Spending(c: Crypto, pin: bytes, n: byte)
    requires PinSet(pin)
    ensures SamePin(c, pin, pin[0 := n])
  {
    forall h: bytes16 ensures Matches(c, pin[0 := n], h) == Matches(c, pin, h) {
      WrongStaysWrongFor(c, pin, n, h);
    }
  }

  lemma Restoring(c: Crypto, pin: bytes, h: bytes16)
    requires Laws(c) && PinSet(pin) && Matches(c, pin, h)
    ensures SamePin(c, pin, RestoredPin(c, pin, h))
    ensures |pin| == 34 ==> AcceptsOnly(c, RestoredPin(c, pin, h), h)
  {
    if |pin| == 34 {
      FileAccepts(c, pin[1], h);
      assert RestoredPin(c, pin, h) == [8, pin[1], 1] + c.verifier(h);
    } else {
      Spending(c, pin, MAX_PIN_RETRIES);
    }
  }

  lemma SamePinTwice(c: Crypto, a: bytes, b: bytes, d: bytes)
    requires SamePin(c, a, b) && SamePin(c, b, d)
    ensures SamePin(c, a, d)
  {
  }

  lemma TryKeepsPin(c: Crypto, s: State, h: Option<bytes16>, e: Entropy)
    requires Laws(c) && PinSet(s.pin) && s.pin[0] > 0
    ensures SamePin(c, s.pin, TryPin(c, s, h, e).0.pin)
    ensures h.Some? && TryPin(c, s, h, e).0.pin[0] == 8 && |s.pin| == 34 ==>
              TryPin(c, s, h, e).1.Some? || AcceptsOnly(c, TryPin(c, s, h, e).0.pin, h.value)
  {
    Spending(c, s.pin, s.pin[0] - 1);
    if h.Some? && Matches(c, s.pin, h.value) {
      WrongStaysWrongFor(c, s.pin, s.pin[0] - 1, h.value);
      Restoring(c, Spend(s).pin, h.value);
      SamePinTwice(c, s.pin, Spend(s).pin, RestoredPin(c, Spend(s).pin, h.value));
    }
  }

  lemma ReplaceRefusedKeepsPin(c: Crypto, s: State, p: Option<bytes64>, e: Entropy)
    requires |s.pin| == 35
    ensures ReplacePin(c, s, p, e).1.status != Ok ==> ReplacePin(c, s, p, e).0.pin == s.pin
  {
  }

  lemma ChangeRefusedKeepsPin(c: Crypto, s: State, ch: Channel, h: Option<bytes16>, p: Option<bytes64>, e: Entropy)
    requires Laws(c) && WellFormed(s) && ChangePinStep(c, s, ch, h, p, e).1.status != Ok
    ensures SamePin(c, s.pin, ChangePinStep(c, s, ch, h, p, e).0.pin)
  {
    var a := Awake(s, e);
    if ChangePinRefusal(a, ch).None? {
      TryKeepsPin(c, a, h, e);
      TryPinWellFormed(c, a, h, e);
      var (t, end) := TryPin(c, a, h, e);
      if end.None? { ReplaceRefusedKeepsPin(c, t, p, e); }
    }
  }

  lemma TokenKeepsPin(c: Crypto, s: State, ch: Channel, plain: bool, h: Option<bytes16>, perms: Permissions,
                      rp: Option<bytes32>, e: Entropy)
    requires Laws(c) && WellFormed(s)
    ensures SamePin(c, s.pin, PinTokenStep(c, s, ch, plain, h, perms, rp, e).0.pin)
  {
    var a := Awake(s, e);
    if PinTokenRefusal(a, ch, plain, perms, rp).None? {
      TryKeepsPin(c, a, h, e);
      IssueTokenKeepsFiles(TryPin(c, a, h, e).0, plain, perms, rp, e);
    }
  }

  // Whatever does not set a PIN keeps the one there is.
  lemma OthersKeepPin(c: Crypto, s: State, cmd: Command, e: Entropy)
    requires Laws(c) && WellFormed(s)
    requires !((cmd.SetPin? || cmd.ChangePin?) && Step(c, s, cmd, e).1.status == Ok)
    ensures SamePin(c, s.pin, Step(c, s, cmd, e).0.pin)
  {
    match cmd
    case SetPin(ch, p) => assert Step(c, s, cmd, e).0.pin == s.pin;
    case ChangePin(ch, h, p) => ChangeRefusedKeepsPin(c, s, ch, h, p, e);
    case PinToken(ch, plain, h, perms, rp) => TokenKeepsPin(c, s, ch, plain, h, perms, rp, e);
    case _ => OtherCommandsKeepFiles(c, s, cmd, e);
  }

  // ---------- runs ----------

  // The last PIN a run has set.
  function LastSet(c: Crypto, s: State, ins: seq<Input>): Option<bytes64>
    requires WellFormed(s)
  {
    if ins == [] then None
    else
      var n := |ins| - 1;
      var cmd := ins[n].0;
      if (cmd.SetPin? || cmd.ChangePin?) && Answer(c, s, ins, n).status == Ok then cmd.newPin
      else LastSet(c, s, ins[..n])
  }

  // The file holds p, of n bytes, and accepts nothing else.
  ghost predicate HoldsPin(c: Crypto, pin: bytes, p: bytes64, n: nat) {
    n < 64 && |pin| == 35 && pin[1] == n && AcceptsOnly(c, pin, HashOf(c, p, n))
  }

  lemma SamePinHolds(c: Crypto, a: bytes, b: bytes, p: bytes64, n: nat)
    requires HoldsPin(c, a, p, n) && SamePin(c, a, b)
    ensures HoldsPin(c, b, p, n)
  {
  }

  lemma SetterSets(c: Crypto, s: State, cmd: Command, e: Entropy)
    requires WellFormed(s) && (cmd.SetPin? || cmd.ChangePin?) && Step(c, s, cmd, e).1.status == Ok
    ensures cmd.newPin.Some? && cmd.newPin.value[63] == 0
  {
  }

  // Over every run that has set a PIN, the device holds the last one set.
  lemma {:induction false} RunHoldsLastSet(c: Crypto, s: State, ins: seq<Input>, p: bytes64, n: nat)
    requires Laws(c) && WellFormed(s) && LastSet(c, s, ins) == Some(p) && IsPin(p, n)
    ensures HoldsPin(c, Run(c, s, ins).pin, p, n)
  {
    var m := |ins| - 1;
    var before := Run(c, s, ins[..m]);
    var (cmd, e) := ins[m];
    if (cmd.SetPin? || cmd.ChangePin?) && Answer(c, s, ins, m).status == Ok {
      SetPinIsAccepted(c, before, cmd, e, p, n);
    } else {
      RunHoldsLastSet(c, s, ins[..m], p, n);
      OthersKeepPin(c, before, cmd, e);
      SamePinHolds(c, before.pin, Run(c, s, ins).pin, p, n);
    }
  }

  // So the next PIN presented is accepted if and only if it is the last one set and an attempt
  // is left.
  lemma NextPinAccepted(c: Crypto, s: State, ins: seq<Input>, p: bytes64, n: nat, cmd: Command, e: Entropy)
    requires Laws(c) && WellFormed(s) && LastSet(c, s, ins) == Some(p) && IsPin(p, n) && Presented(cmd).Some?
    ensures var t := Run(c, s, ins);
            Step(c, t, cmd, e).1.accepted <==> t.pin != [] && t.pin[0] > 0 && Presented(cmd).value == c.sha256(p[..n])[..16]
  {
    RunHoldsLastSet(c, s, ins, p, n);
    AcceptedIff(c, Run(c, s, ins), cmd, e, Presented(cmd).value);
  }

  // ---------- the minimum length, of the PIN itself ----------

  // After every run a PIN shorter than the minimum has to be changed.
  lemma ShortPinIsMarked(c: Crypto, s: State, ins: seq<Input>, p: bytes64, n: nat)
    requires Laws(c) && PolicyHeld(s) && LastSet(c, s, ins) == Some(p) && IsPin(p, n)
    ensures var t := Run(c, s, ins);
            n < Minimum(t) ==> |t.minPin| >= 2 && t.minPin[1] == 1
  {
    RunHoldsLastSet(c, s, ins, p, n);
    RunPolicy(c, s, ins);
  }

  // And no PIN token is ever issued while it is.
  lemma NoTokenForRealShortPin(c: Crypto, s: State, ins: seq<Input>, i: nat, p: bytes64, n: nat)
    requires Laws(c) && PolicyHeld(s) && i < |ins| && ins[i].0.PinToken? && Answer(c, s, ins, i).granted.Some?
    requires LastSet(c, s, ins[..i + 1]) == Some(p) && IsPin(p, n)
    ensures n >= Minimum(Run(c, s, ins[..i + 1]))
  {
    RunHoldsLastSet(c, s, ins[..i + 1], p, n);
    NoTokenForShortPin(c, s, ins, i);
  }
}
