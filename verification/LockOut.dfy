// The lock-out the specification asks for after three wrong PINs in a row (CTAP 2.1 section
// 6.5.5.7): the firmware raises a flag, which the query for the retries reports and nothing
// else reads, so that only the attempts count.
module LockOut {
  import opened Basics
  import opened ClientPin
  import opened KeyConservation
  import opened PinAttempts

  // The PIN a request presents, if it is in order in all that does not depend on the device.
  function Presented(cmd: Command): Option<bytes16> {
    match cmd
    case ChangePin(ch, h, _) =>
      if ch.complete && (ch.protocol == 1 || ch.protocol == 2) && ch.lengthsOk && ch.agreed && ch.macOk then h else None
    case PinToken(ch, plain, h, perms, rp) =>
      if ch.complete && (ch.protocol == 1 || ch.protocol == 2) && ch.agreed
         && (if plain then perms == {} && rp.None? else perms != {} && (PCMR in perms ==> perms == {PCMR}))
      then h else None
    case _ => None
  }

  predicate WrongPin(c: Crypto, s: State, cmd: Command) {
    Presented(cmd).Some? && !Matches(c, s.pin, Presented(cmd).value)
  }

  // ---------- when a PIN is compared ----------

  // A PIN presented in order is compared if and only if an attempt is left: neither the
  // mismatches since power-up nor the flag they raise come into it.
  lemma ComparedIffAttemptLeft(c: Crypto, s: State, cmd: Command, e: Entropy)
    requires WellFormed(s) && Presented(cmd).Some?
    ensures Step(c, s, cmd, e).1.compared <==> s.pin != [] && s.pin[0] > 0
  {
    var a := Awake(s, e);
    match cmd
    case ChangePin(ch, h, p) =>
      if ChangePinRefusal(a, ch).None? {
        PresentedIsCompared(c, a, h, e);
        TryPinWellFormed(c, a, h, e);
        var (t, end) := TryPin(c, a, h, e);
        if end.None? { ReplacePinCompares(c, t, p, e); }
      }
    case PinToken(ch, plain, h, perms, rp) =>
      if PinTokenRefusal(a, ch, plain, perms, rp).None? {
        PresentedIsCompared(c, a, h, e);
        IssueTokenKeepsFiles(TryPin(c, a, h, e).0, plain, perms, rp, e);
      }
  }

  lemma PresentedIsCompared(c: Crypto, s: State, h: Option<bytes16>, e: Entropy)
    requires PinSet(s.pin) && s.pin[0] > 0 && h.Some?
    ensures TryPin(c, s, h, e).1.Some? ==> TryPin(c, s, h, e).1.value.compared
  {
  }

  lemma ReplacePinCompares(c: Crypto, s: State, p: Option<bytes64>, e: Entropy)
    requires |s.pin| == 35
    ensures ReplacePin(c, s, p, e).1.compared
  {
  }

  // A wrong PIN is paid for with one attempt, counted, and not accepted.
  lemma WrongPinStep(c: Crypto, s: State, cmd: Command, e: Entropy)
    requires WithinBudget(s) && PinSet(s.pin) && s.pin[0] > 0 && WrongPin(c, s, cmd)
    ensures var (t, out) := Step(c, s, cmd, e);
            && out.compared && !out.accepted && t.pin == s.pin[0 := s.pin[0] - 1]
            && (s.pin[0] > 1 ==>
                  && t.mismatches == s.mismatches + 1
                  && out.status == Err(if s.mismatches >= 2 then PinAuthBlocked else PinInvalid)
                  && t.needsPowerCycle == (s.needsPowerCycle || s.mismatches >= 2))
            && (s.pin[0] == 1 ==> out.status == Err(PinBlocked) && t.mismatches == s.mismatches)
  {
    var a := Awake(s, e);
    match cmd
    case ChangePin(ch, h, _) => MismatchStep(c, a, h.value, e);
    case PinToken(ch, _, h, _, _) => MismatchStep(c, a, h.value, e);
  }

  lemma MismatchStep(c: Crypto, s: State, h: bytes16, e: Entropy)
    requires WithinBudget(s) && PinSet(s.pin) && s.pin[0] > 0 && !Matches(c, s.pin, h)
    ensures var (t, end) := TryPin(c, s, Some(h), e);
            && end.Some? && end.value.compared && !end.value.accepted && t.pin == s.pin[0 := s.pin[0] - 1]
            && (s.pin[0] > 1 ==>
                  && t.mismatches == s.mismatches + 1
                  && end.value.status == Err(if s.mismatches >= 2 then PinAuthBlocked else PinInvalid)
                  && t.needsPowerCycle == (s.needsPowerCycle || s.mismatches >= 2))
            && (s.pin[0] == 1 ==> end.value.status == Err(PinBlocked) && t.mismatches == s.mismatches)
  {
  }

  // ---------- runs of wrong PINs ----------

  ghost predicate AllWrong(c: Crypto, s: State, ins: seq<Input>) {
    forall i :: 0 <= i < |ins| ==> WrongPin(c, s, ins[i].0)
  }

  lemma WrongStaysWrong(c: Crypto, s: State, t: State, cmd: Command, r: byte)
    requires PinSet(s.pin) && t.pin == s.pin[0 := r]
    ensures WrongPin(c, s, cmd) ==> WrongPin(c, t, cmd)
  {
    if |s.pin| == 34 { assert t.pin[2..] == s.pin[2..]; } else { assert t.pin[3..] == s.pin[3..]; }
  }

  // What a wrong PIN does, with or without an attempt left.
  lemma WrongPinSpends(c: Crypto, s: State, cmd: Command, e: Entropy)
    requires WithinBudget(s) && PinSet(s.pin) && WrongPin(c, s, cmd)
    ensures var (t, out) := Step(c, s, cmd, e);
            && !out.accepted && (out.compared <==> s.pin[0] > 0)
            && t.pin == s.pin[0 := if s.pin[0] > 0 then s.pin[0] - 1 else 0]
  {
    ComparedIffAttemptLeft(c, s, cmd, e);
    if s.pin[0] > 0 {
      WrongPinStep(c, s, cmd, e);
    } else {
      BlockedStep(c, s, cmd, e);
      StepCharged(c, s, cmd, e);
    }
  }

  function Left(s: State, n: nat): byte
    requires PinSet(s.pin)
  {
    s.pin[0] - Least(n, s.pin[0])
  }

  // The device s after n wrong PINs.
  predicate Spent(s: State, n: nat, t: State) {
    PinSet(s.pin) && WithinBudget(t) && t.pin == s.pin[0 := Left(s, n)]
  }

  lemma NoneSpent(s: State)
    requires WithinBudget(s) && PinSet(s.pin)
    ensures Spent(s, 0, s)
  {
    assert s.pin[0 := s.pin[0]] == s.pin;
  }

  lemma OneMoreSpent(c: Crypto, s: State, n: nat, t: State, cmd: Command, e: Entropy)
    requires Spent(s, n, t) && WrongPin(c, s, cmd)
    ensures var (u, out) := Step(c, t, cmd, e);
            Spent(s, n + 1, u) && !out.accepted && (out.compared <==> n < s.pin[0])
  {
    WrongStaysWrong(c, s, t, cmd, Left(s, n));
    WrongPinSpends(c, t, cmd, e);
    StepCharged(c, t, cmd, e);
    Rewritten(s.pin, Left(s, n), Left(s, n + 1));
  }

  lemma Rewritten(pin: bytes, m: byte, n: byte)
    requires pin != []
    ensures pin[0 := m][0 := n] == pin[0 := n] && pin[0 := m][0] == m
  {
  }

  lemma {:induction false} WrongPinsSpend(c: Crypto, s: State, ins: seq<Input>)
    requires WithinBudget(s) && PinSet(s.pin) && AllWrong(c, s, ins)
    ensures Spent(s, |ins|, Run(c, s, ins))
  {
    if ins == [] {
      NoneSpent(s);
    } else {
      var n := |ins| - 1;
      WrongPinsSpend(c, s, ins[..n]);
      assert WrongPin(c, s, ins[n].0);
      OneMoreSpent(c, s, n, Run(c, s, ins[..n]), ins[n].0, ins[n].1);
    }
  }

  lemma EachGuess(c: Crypto, s: State, ins: seq<Input>, i: nat)
    requires WithinBudget(s) && PinSet(s.pin) && AllWrong(c, s, ins) && i < |ins|
    ensures !Answer(c, s, ins, i).accepted && (Answer(c, s, ins, i).compared <==> i < s.pin[0])
  {
    WrongPinsSpend(c, s, ins[..i]);
    assert WrongPin(c, s, ins[i].0);
    OneMoreSpent(c, s, i, Run(c, s, ins[..i]), ins[i].0, ins[i].1);
  }

  lemma {:induction false} WrongPinsCounted(c: Crypto, s: State, ins: seq<Input>)
    requires WithinBudget(s) && PinSet(s.pin) && AllWrong(c, s, ins)
    ensures Guesses(c, s, ins) == Least(|ins|, s.pin[0])
  {
    if ins != [] {
      var n := |ins| - 1;
      WrongPinsCounted(c, s, ins[..n]);
      EachGuess(c, s, ins, n);
    }
  }

  // However many wrong PINs follow one another without a power cycle, exactly the attempts
  // left are spent on comparing them: the i-th is compared if and only if i is below their
  // number. The lock-out would end this after three.
  lemma NoLockOut(c: Crypto, s: State, ins: seq<Input>)
    requires WithinBudget(s) && PinSet(s.pin) && AllWrong(c, s, ins)
    ensures Spent(s, |ins|, Run(c, s, ins)) && Guesses(c, s, ins) == Least(|ins|, s.pin[0])
    ensures forall i :: 0 <= i < |ins| ==>
              !Answer(c, s, ins, i).accepted && (Answer(c, s, ins, i).compared <==> i < s.pin[0])
  {
    WrongPinsSpend(c, s, ins);
    WrongPinsCounted(c, s, ins);
    forall i | 0 <= i < |ins|
      ensures !Answer(c, s, ins, i).accepted && (Answer(c, s, ins, i).compared <==> i < s.pin[0])
    {
      EachGuess(c, s, ins, i);
    }
  }

  // As long as attempts remain, each wrong PIN counts as a mismatch, and the third raises the
  // flag.
  lemma {:induction false} MismatchesCount(c: Crypto, s: State, ins: seq<Input>)
    requires WithinBudget(s) && PinSet(s.pin) && AllWrong(c, s, ins) && |ins| < s.pin[0]
    ensures var t := Run(c, s, ins);
            && t.mismatches == s.mismatches + |ins|
            && (ins != [] && t.mismatches >= 3 ==> t.needsPowerCycle && Answer(c, s, ins, |ins| - 1).status == Err(PinAuthBlocked))
  {
    if ins != [] {
      var n := |ins| - 1;
      var t := Run(c, s, ins[..n]);
      MismatchesCount(c, s, ins[..n]);
      WrongPinsSpend(c, s, ins[..n]);
      GuessesBounded(c, s, ins[..n]);
      assert WrongPin(c, s, ins[n].0);
      WrongStaysWrong(c, s, t, ins[n].0, Left(s, n));
      WrongPinStep(c, t, ins[n].0, ins[n].1);
    }
  }

  // ---------- a run in which the lock-out should have come ----------

  // The PIN file of a device in the padding cryptography, whose PIN hashes to zeros.
  function ZeroPin(attempts: byte): bytes {
    [attempts, 4, 1] + Zeros32()
  }

  function ZeroPinDevice(): State {
    State(ZeroPin(MAX_PIN_RETRIES), PlainKeydev(PaddingCrypto(Zeros32()), Zeros32()), [], Zeros32(), 0, false, true,
          Token(Zeros32(), false, {}, Zeros32(), false, false, false), Zeros32(), {}, MAX_UV_RETRIES)
  }

  function WrongHash(): bytes16 {
    [1] + Zeros32()[..15]
  }

  // A getPinToken with that hash.
  function Guess(): Command {
    PinToken(Channel(true, 2, true, true, true), true, Some(WrongHash()), {}, None)
  }

  lemma WrongHashIsWrong(k: bytes32)
    ensures WrongPin(PaddingCrypto(k), ZeroPinDevice(), Guess())
  {
    var c, s := PaddingCrypto(k), ZeroPinDevice();
    assert c.verifier(WrongHash())[0] == 1 && s.pin[3..][0] == s.pin[3] == 0;
  }

  // Three wrong PINs raise the flag and are answered as a lock-out, and the fourth is compared
  // all the same.
  lemma FourthGuessIsCompared(e: Entropy)
    ensures var c, s := PaddingCrypto(Zeros32()), ZeroPinDevice();
            var ins := [(Guess(), e), (Guess(), e), (Guess(), e), (Guess(), e)];
            && Laws(c) && WithinBudget(s) && AllWrong(c, s, ins)
            && Answer(c, s, ins[..3], 2).status == Err(PinAuthBlocked) && Run(c, s, ins[..3]).needsPowerCycle
            && Answer(c, s, ins, 3).compared
  {
    LawsCanHold(Zeros32());
    WrongHashIsWrong(Zeros32());
    FourGuesses(PaddingCrypto(Zeros32()), ZeroPinDevice(), [(Guess(), e), (Guess(), e), (Guess(), e), (Guess(), e)]);
  }

  lemma FourGuesses(c: Crypto, s: State, ins: seq<Input>)
    requires WithinBudget(s) && PinSet(s.pin) && s.pin[0] == 8 && |ins| == 4 && AllWrong(c, s, ins)
    ensures Answer(c, s, ins[..3], 2).status == Err(PinAuthBlocked) && Run(c, s, ins[..3]).needsPowerCycle
    ensures Answer(c, s, ins, 3).compared
  {
    MismatchesCount(c, s, ins[..3]);
    EachGuess(c, s, ins, 3);
  }

  // ---------- the flag decides nothing ----------

  function Flagged(s: State, flag: bool): State {
    s.(needsPowerCycle := flag)
  }

  // The same outcome, and the same state but for the flag.
  predicate SameButFlag(a: (State, Outcome), b: (State, Outcome)) {
    a.1 == b.1 && a.0 == Flagged(b.0, a.0.needsPowerCycle)
  }

  lemma MismatchFlag(s: State, flag: bool)
    requires s.pin != []
    ensures SameButFlag(Mismatch(Flagged(s, flag)), Mismatch(s))
  {
  }

  lemma UnlockFlag(c: Crypto, s: State, h: bytes16, e: Entropy, flag: bool)
    requires PinSet(s.pin)
    ensures Unlock(c, Flagged(s, flag), h, e) == (Flagged(Unlock(c, s, h, e).0, flag), Unlock(c, s, h, e).1)
  {
    assert UpgradedKeydev(c, Flagged(s, flag), h) == UpgradedKeydev(c, s, h);
  }

  lemma TryPinFlag(c: Crypto, s: State, h: Option<bytes16>, e: Entropy, flag: bool)
    requires PinSet(s.pin) && s.pin[0] > 0
    ensures var (t, end) := TryPin(c, s, h, e);
            var (u, end') := TryPin(c, Flagged(s, flag), h, e);
            end' == end && u == Flagged(t, u.needsPowerCycle)
  {
    assert Spend(Flagged(s, flag)) == Flagged(Spend(s), flag);
    MismatchFlag(Spend(s), flag);
    if h.Some? { UnlockFlag(c, Spend(s), h.value, e, flag); }
  }

  lemma ReplacePinFlag(c: Crypto, s: State, p: Option<bytes64>, e: Entropy, flag: bool)
    requires |s.pin| == 35
    ensures SameButFlag(ReplacePin(c, Flagged(s, flag), p, e), ReplacePin(c, s, p, e))
  {
  }

  lemma ChangePinFlag(c: Crypto, s: State, ch: Channel, h: Option<bytes16>, p: Option<bytes64>, e: Entropy, flag: bool)
    requires WellFormed(s)
    ensures SameButFlag(ChangePinStep(c, Flagged(s, flag), ch, h, p, e), ChangePinStep(c, s, ch, h, p, e))
  {
    var a := Awake(s, e);
    assert Awake(Flagged(s, flag), e) == Flagged(a, flag);
    if ChangePinRefusal(a, ch).None? {
      TryPinFlag(c, a, h, e, flag);
      TryPinWellFormed(c, a, h, e);
      var (t, end) := TryPin(c, a, h, e);
      var u := TryPin(c, Flagged(a, flag), h, e).0;
      if end.None? { ReplacePinFlag(c, t, p, e, u.needsPowerCycle); }
    }
  }

  lemma IssueTokenFlag(s: State, plain: bool, perms: Permissions, rp: Option<bytes32>, e: Entropy, flag: bool)
    ensures SameButFlag(IssueToken(Flagged(s, flag), plain, perms, rp, e), IssueToken(s, plain, perms, rp, e))
  {
  }

  lemma PinTokenFlag(c: Crypto, s: State, ch: Channel, plain: bool, h: Option<bytes16>,
                     perms: Permissions, rp: Option<bytes32>, e: Entropy, flag: bool)
    requires WellFormed(s)
    ensures SameButFlag(PinTokenStep(c, Flagged(s, flag), ch, plain, h, perms, rp, e),
                        PinTokenStep(c, s, ch, plain, h, perms, rp, e))
  {
    var a := Awake(s, e);
    assert Awake(Flagged(s, flag), e) == Flagged(a, flag);
    if PinTokenRefusal(a, ch, plain, perms, rp).None? {
      TryPinFlag(c, a, h, e, flag);
      var u := TryPin(c, Flagged(a, flag), h, e).0;
      IssueTokenFlag(TryPin(c, a, h, e).0, plain, perms, rp, e, u.needsPowerCycle);
    }
  }

  lemma SetPinFlag(c: Crypto, s: State, ch: Channel, p: Option<bytes64>, e: Entropy, flag: bool)
    ensures SameButFlag(SetPinStep(c, Flagged(s, flag), ch, p, e), SetPinStep(c, s, ch, p, e))
  {
    assert Awake(Flagged(s, flag), e) == Flagged(Awake(s, e), flag);
  }

  lemma UvTokenFlag(c: Crypto, s: State, cmd: Command, e: Entropy, flag: bool)
    requires WellFormed(s) && cmd.UvToken?
    ensures SameButFlag(Step(c, Flagged(s, flag), cmd, e), Step(c, s, cmd, e))
  {
    var a := Awake(s, e);
    assert Awake(Flagged(s, flag), e) == Flagged(a, flag);
    var (t, out) := Step(c, s, cmd, e);
    assert Step(c, Flagged(s, flag), cmd, e) == (Flagged(t, flag), out);
  }

  lemma SetMinPinFlag(s: State, present: bool, protocol: nat, macOk: bool, newMin: nat, force: Option<bool>,
                      rpIdHashes: seq<bytes32>, e: Entropy, flag: bool)
    requires WellFormed(s)
    ensures SameButFlag(SetMinPinStep(Flagged(s, flag), present, protocol, macOk, newMin, force, rpIdHashes, e),
                        SetMinPinStep(s, present, protocol, macOk, newMin, force, rpIdHashes, e))
  {
    StoreMinPinFlag(s, if newMin == 0 then MinPin(s) else newMin, force, rpIdHashes, e, flag);
  }

  lemma StoreMinPinFlag(s: State, m: nat, force: Option<bool>, rpIdHashes: seq<bytes32>, e: Entropy, flag: bool)
    requires WellFormed(s)
    ensures StoreMinPin(Flagged(s, flag), m, force, rpIdHashes, e) == Flagged(StoreMinPin(s, m, force, rpIdHashes, e), flag)
  {
  }

  // None of the commands that compare a PIN, grant a token or change anything answers or does
  // anything else because of the flag.
  lemma FlagDecidesNothing(c: Crypto, s: State, cmd: Command, e: Entropy, flag: bool)
    requires WellFormed(s)
    ensures SameButFlag(Step(c, Flagged(s, flag), cmd, e), Step(c, s, cmd, e))
  {
    match cmd
    case SetPin(ch, p) => SetPinFlag(c, s, ch, p, e, flag);
    case ChangePin(ch, h, p) => ChangePinFlag(c, s, ch, h, p, e, flag);
    case PinToken(ch, plain, h, perms, rp) => PinTokenFlag(c, s, ch, plain, h, perms, rp, e, flag);
    case UvToken(_, _, _, _, _, _, _, _) => UvTokenFlag(c, s, cmd, e, flag);
    case SetMinPin(present, proto, macOk, newMin, force, rps) =>
      SetMinPinFlag(s, present, proto, macOk, newMin, force, rps, e, flag);
    case PowerCycle =>
  }

  // So over whole runs it makes no difference to any answer.
  lemma {:induction false} FlagMakesNoDifference(c: Crypto, s: State, ins: seq<Input>, flag: bool)
    requires WellFormed(s)
    ensures var t := Run(c, Flagged(s, flag), ins); t == Flagged(Run(c, s, ins), t.needsPowerCycle)
  {
    if ins != [] {
      var n := |ins| - 1;
      FlagMakesNoDifference(c, s, ins[..n], flag);
      FlagDecidesNothing(c, Run(c, s, ins[..n]), ins[n].0, ins[n].1, Run(c, Flagged(s, flag), ins[..n]).needsPowerCycle);
    }
  }

  lemma AnswersIgnoreFlag(c: Crypto, s: State, ins: seq<Input>, flag: bool, i: nat)
    requires WellFormed(s) && i < |ins|
    ensures Answer(c, Flagged(s, flag), ins, i) == Answer(c, s, ins, i)
  {
    FlagMakesNoDifference(c, s, ins[..i], flag);
    FlagDecidesNothing(c, Run(c, s, ins[..i]), ins[i].0, ins[i].1, Run(c, Flagged(s, flag), ins[..i]).needsPowerCycle);
  }
}
