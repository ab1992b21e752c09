// Bounds on guessing the PIN, and the minimum PIN length, over every run of commands.
module PinAttempts {
  import opened Basics
  import opened ClientPin

  // Attempts left; a device without a PIN counts as fresh.
  function Retries(s: State): byte {
    if s.pin == [] then MAX_PIN_RETRIES else s.pin[0]
  }

  predicate WithinBudget(s: State) {
    WellFormed(s) && s.mismatches + Retries(s) <= MAX_PIN_RETRIES
  }

  // Wrong PINs compared with the stored one since the last right one.
  function Guesses(c: Crypto, s: State, ins: seq<Input>): nat
    requires WellFormed(s)
  {
    if ins == [] then 0
    else
      var n := |ins| - 1;
      var out := Answer(c, s, ins, n);
      if out.accepted then 0 else Guesses(c, s, ins[..n]) + if out.compared then 1 else 0
  }

  // What one command does to the budget: no comparison without an attempt left, a wrong PIN
  // leaves exactly one attempt fewer in flash and the key file alone, and only a right PIN
  // (or the first PIN) raises the number of attempts.
  ghost predicate Charged(s: State, t: State, out: Outcome) {
    && WithinBudget(t)
    && (out.compared ==> s.pin != [] && s.pin[0] > 0)
    && (out.accepted ==> out.compared)
    && (out.compared && !out.accepted ==> t.pin == s.pin[0 := s.pin[0] - 1] && t.keydev == s.keydev)
    && (!out.accepted ==> Retries(t) <= Retries(s))
  }

  lemma TryPinCharged(c: Crypto, s: State, h: Option<bytes16>, e: Entropy)
    requires WithinBudget(s) && PinSet(s.pin) && s.pin[0] > 0
    ensures var (t, end) := TryPin(c, s, h, e);
            && WithinBudget(t) && PinSet(t.pin)
            && (end.Some? ==> Charged(s, t, end.value))
            && (end.None? ==> |t.pin| == 35 && t.mismatches == 0)
  {
  }

  lemma ReplacePinCharged(c: Crypto, s: State, p: Option<bytes64>, e: Entropy)
    requires WithinBudget(s) && |s.pin| == 35 && s.mismatches == 0
    ensures var (t, out) := ReplacePin(c, s, p, e); WithinBudget(t) && out.accepted && out.compared
  {
    ReplacePinWellFormed(c, s, p, e);
  }

  lemma ChangePinCharged(c: Crypto, s: State, ch: Channel, h: Option<bytes16>, p: Option<bytes64>, e: Entropy)
    requires WithinBudget(s)
    ensures var (t, out) := ChangePinStep(c, s, ch, h, p, e); Charged(s, t, out)
  {
    var a := Awake(s, e);
    if ChangePinRefusal(a, ch).None? {
      TryPinCharged(c, a, h, e);
      var (t, end) := TryPin(c, a, h, e);
      if end.None? {
        ReplacePinCharged(c, t, p, e);
      }
    }
  }

  lemma PinTokenCharged(c: Crypto, s: State, ch: Channel, plain: bool, h: Option<bytes16>,
                        perms: Permissions, rp: Option<bytes32>, e: Entropy)
    requires WithinBudget(s)
    ensures var (t, out) := PinTokenStep(c, s, ch, plain, h, perms, rp, e); Charged(s, t, out)
  {
    var a := Awake(s, e);
    if PinTokenRefusal(a, ch, plain, perms, rp).None? {
      TryPinCharged(c, a, h, e);
      IssueTokenKeepsFiles(TryPin(c, a, h, e).0, plain, perms, rp, e);
    }
  }

  lemma StepCharged(c: Crypto, s: State, cmd: Command, e: Entropy)
    requires WithinBudget(s)
    ensures var (t, out) := Step(c, s, cmd, e); Charged(s, t, out)
  {
    match cmd
    case SetPin(_, _) =>
    case ChangePin(ch, h, p) => ChangePinCharged(c, s, ch, h, p, e);
    case PinToken(ch, plain, h, perms, rp) => PinTokenCharged(c, s, ch, plain, h, perms, rp, e);
    case _ => OtherCommandsKeepFiles(c, s, cmd, e);
  }

  // In every run at most 8 PINs are compared with the stored one after the last right PIN,
  // power cycles included, and the RAM mismatch counter stays within the attempts spent.
  lemma {:induction false} GuessesBounded(c: Crypto, s: State, ins: seq<Input>)
    requires WithinBudget(s)
    ensures WithinBudget(Run(c, s, ins))
    ensures Guesses(c, s, ins) + Retries(Run(c, s, ins)) <= MAX_PIN_RETRIES
  {
    if ins != [] {
      var n := |ins| - 1;
      GuessesBounded(c, s, ins[..n]);
      StepCharged(c, Run(c, s, ins[..n]), ins[n].0, ins[n].1);
    }
  }

  predicate Blocked(s: State) {
    WellFormed(s) && s.pin != [] && s.pin[0] == 0
  }

  lemma BlockedStep(c: Crypto, s: State, cmd: Command, e: Entropy)
    requires Blocked(s)
    ensures var (t, out) := Step(c, s, cmd, e);
            && t.pin == s.pin && t.keydev == s.keydev && !out.compared
            && (out.granted.Some? ==> cmd.UvToken?)
  {
    StepWellFormed(c, s, cmd, e);
    if cmd.UvToken? || cmd.SetMinPin? || cmd.PowerCycle? {
      OtherCommandsKeepFiles(c, s, cmd, e);
    }
  }

  // Once the attempts are used up no run changes the PIN or the device-key file, compares
  // a PIN or obtains a token with one.
  lemma {:induction false} BlockedForGood(c: Crypto, s: State, ins: seq<Input>)
    requires Blocked(s)
    ensures Run(c, s, ins).pin == s.pin && Run(c, s, ins).keydev == s.keydev
  {
    if ins != [] {
      var n := |ins| - 1;
      BlockedForGood(c, s, ins[..n]);
      BlockedStep(c, Run(c, s, ins[..n]), ins[n].0, ins[n].1);
    }
  }
}

module PinPolicy {
  import opened Basics
  import opened ClientPin

  // A stored PIN shorter than the stored minimum is marked as having to be changed.
  predicate PolicyHeld(s: State) {
    WellFormed(s) && (s.pin != [] && s.pin[1] < MinPin(s) ==> ForcedChange(s))
  }

  predicate LongEnough(s: State) {
    PinSet(s.pin) && s.pin[1] >= MinPin(s)
  }

  lemma SetMinPinPolicy(c: Crypto, s: State, cmd: Command, e: Entropy)
    requires PolicyHeld(s) && cmd.SetMinPin?
    ensures PolicyHeld(Step(c, s, cmd, e).0)
  {
  }

  lemma ReplacePinPolicy(c: Crypto, s: State, p: Option<bytes64>, e: Entropy)
    requires PolicyHeld(s) && |s.pin| == 35
    ensures var t := ReplacePin(c, s, p, e).0; PolicyHeld(t) && MinPin(t) == MinPin(s)
  {
    ReplacePinWellFormed(c, s, p, e);
  }

  lemma TryPinPolicy(c: Crypto, s: State, h: Option<bytes16>, e: Entropy)
    requires PolicyHeld(s) && PinSet(s.pin) && s.pin[0] > 0
    ensures var (t, end) := TryPin(c, s, h, e);
            && PolicyHeld(t) && t.minPin == s.minPin && PinSet(t.pin)
            && (end.Some? ==> end.value.granted.None?)
            && (end.None? ==> |t.pin| == 35)
  {
  }

  lemma ChangePinPolicy(c: Crypto, s: State, ch: Channel, h: Option<bytes16>, p: Option<bytes64>, e: Entropy)
    requires PolicyHeld(s)
    ensures var t := ChangePinStep(c, s, ch, h, p, e).0; PolicyHeld(t) && MinPin(t) == MinPin(s)
  {
    var a := Awake(s, e);
    if ChangePinRefusal(a, ch).None? {
      TryPinPolicy(c, a, h, e);
      var (t, end) := TryPin(c, a, h, e);
      if end.None? {
        ReplacePinPolicy(c, t, p, e);
      }
    }
  }

  lemma IssueTokenPolicy(s: State, plain: bool, perms: Permissions, rp: Option<bytes32>, e: Entropy)
    requires PolicyHeld(s) && PinSet(s.pin)
    ensures var (t, out) := IssueToken(s, plain, perms, rp, e);
            PolicyHeld(t) && t.minPin == s.minPin && (out.granted.Some? ==> LongEnough(t))
  {
  }

  lemma PinTokenPolicy(c: Crypto, s: State, ch: Channel, plain: bool, h: Option<bytes16>,
                       perms: Permissions, rp: Option<bytes32>, e: Entropy)
    requires PolicyHeld(s)
    ensures var (t, out) := PinTokenStep(c, s, ch, plain, h, perms, rp, e);
            PolicyHeld(t) && t.minPin == s.minPin && (out.granted.Some? ==> LongEnough(t))
  {
    var a := Awake(s, e);
    if PinTokenRefusal(a, ch, plain, perms, rp).None? {
      TryPinPolicy(c, a, h, e);
      IssueTokenPolicy(TryPin(c, a, h, e).0, plain, perms, rp, e);
    }
  }

  lemma SetPinPolicy(c: Crypto, s: State, ch: Channel, p: Option<bytes64>, e: Entropy)
    requires PolicyHeld(s)
    ensures var t := SetPinStep(c, s, ch, p, e).0; PolicyHeld(t) && MinPin(t) == MinPin(s)
  {
  }

  // Whether a command can lower the minimum: only setMinPINLength with a length that does
  // not fit the stored byte.
  predicate Narrowed(s: State, cmd: Command)
    requires WellFormed(s)
  {
    cmd.SetMinPin? && cmd.newMin > 255 && cmd.newMin % 256 < MinPin(s)
  }

  lemma StepPolicy(c: Crypto, s: State, cmd: Command, e: Entropy)
    requires PolicyHeld(s)
    ensures var (t, out) := Step(c, s, cmd, e);
            && PolicyHeld(t)
            && (cmd.PinToken? && out.granted.Some? ==> LongEnough(t))
            && (!Narrowed(s, cmd) ==> MinPin(t) >= MinPin(s))
  {
    match cmd
    case SetPin(ch, p) => SetPinPolicy(c, s, ch, p, e);
    case ChangePin(ch, h, p) => ChangePinPolicy(c, s, ch, h, p, e);
    case PinToken(ch, plain, h, perms, rp) => PinTokenPolicy(c, s, ch, plain, h, perms, rp, e);
    case SetMinPin(_, _, _, _, _, _) => SetMinPinPolicy(c, s, cmd, e);
    case _ => OtherCommandsKeepFiles(c, s, cmd, e);
  }

  // An accepted setMinPINLength keeps the minimum from falling exactly when the requested
  // length fits a byte or its low byte is no smaller than the current minimum.
  lemma MinPinFalls(c: Crypto, s: State, cmd: Command, e: Entropy)
    requires PolicyHeld(s) && cmd.SetMinPin? && Step(c, s, cmd, e).1.status == Ok
    ensures MinPin(Step(c, s, cmd, e).0) >= MinPin(s) <==> !Narrowed(s, cmd)
  {
  }

  // A device with a six-digit PIN, a minimum of 6, and a token that may configure.
  function SixDigits(): State {
    State([MAX_PIN_RETRIES, 6, 1] + Zeros32(), [], [6, 0], Zeros32(), 0, false, true,
          Token(Zeros32(), true, {ACFG}, Zeros32(), false, false, true), Zeros32(), {}, MAX_UV_RETRIES)
  }

  // A run in which it falls: asked for a minimum of 260, the device lowers it from 6 to 4.
  lemma MinPinWraps(c: Crypto, e: Entropy)
    ensures var s := SixDigits();
            var ins := [(SetMinPin(true, 2, true, 260, None, []), e)];
            && PolicyHeld(s) && MinPin(s) == 6
            && Answer(c, s, ins, 0).status == Ok && MinPin(Run(c, s, ins)) == 4
  {
    var s := SixDigits();
    var ins := [(SetMinPin(true, 2, true, 260, None, []), e)];
    assert ins[..0] == [];
    assert Run(c, s, []) == s;
  }

  lemma {:induction false} RunPolicy(c: Crypto, s: State, ins: seq<Input>)
    requires PolicyHeld(s)
    ensures PolicyHeld(Run(c, s, ins))
  {
    if ins != [] {
      var n := |ins| - 1;
      RunPolicy(c, s, ins[..n]);
      StepPolicy(c, Run(c, s, ins[..n]), ins[n].0, ins[n].1);
    }
  }

  // No run ever hands out a token for a PIN while the stored PIN is shorter than the minimum.
  lemma NoTokenForShortPin(c: Crypto, s: State, ins: seq<Input>, i: nat)
    requires PolicyHeld(s) && i < |ins| && ins[i].0.PinToken?
    ensures Answer(c, s, ins, i).granted.Some? ==> LongEnough(Run(c, s, ins[..i + 1]))
  {
    RunPolicy(c, s, ins[..i]);
    StepPolicy(c, Run(c, s, ins[..i]), ins[i].0, ins[i].1);
    RunStep(c, s, ins, i);
  }

  // Over a run whose requested minimum lengths all fit a byte the minimum never decreases.
  lemma {:induction false} MinPinMonotone(c: Crypto, s: State, ins: seq<Input>, i: nat)
    requires PolicyHeld(s) && i <= |ins|
    requires forall j :: i <= j < |ins| && ins[j].0.SetMinPin? ==> ins[j].0.newMin <= 255
    ensures MinPin(Run(c, s, ins)) >= MinPin(Run(c, s, ins[..i]))
    decreases |ins| - i
  {
    if i < |ins| {
      MinPinMonotone(c, s, ins, i + 1);
      RunPolicy(c, s, ins[..i]);
      RunStep(c, s, ins, i);
      StepPolicy(c, Run(c, s, ins[..i]), ins[i].0, ins[i].1);
    } else {
      assert ins[..i] == ins;
    }
  }
}
