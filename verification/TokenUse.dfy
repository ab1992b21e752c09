// What the PIN/UV auth token is worth: what a grant puts into it, what each command asks of
// it, and where its permissions and its user presence come from, over every run.
module TokenUse {
  import opened Basics
  import opened ClientPin
  import opened KeyConservation
  import opened LockOut
  import opened Tokens

  // ---------- grants ----------

  // A PIN token is granted exactly to who presents the stored PIN in order while an attempt is
  // left and no change of the PIN is forced.
  lemma PinTokenGrantedIff(c: Crypto, s: State, cmd: Command, e: Entropy, k: bytes32)
    requires Laws(c) && Holds(c, s, k) && cmd.PinToken?
    ensures Step(c, s, cmd, e).1.granted.Some? <==>
            && Presented(cmd).Some? && s.pin != [] && s.pin[0] > 0 && Matches(c, s.pin, Presented(cmd).value)
            && !(|s.minPin| >= 2 && s.minPin[1] == 1)
  {
    var a := Awake(s, e);
    if PinTokenRefusal(a, cmd.channel, cmd.plain, cmd.permissions, cmd.rpIdHash).None? {
      TryPinConserves(c, a, cmd.pinHash, e, k);
      TryPinWellFormed(c, a, cmd.pinHash, e);
      TriedForToken(c, a, cmd.pinHash, e);
      IssuedUnlessForced(TryPin(c, a, cmd.pinHash, e).0, cmd.plain, cmd.permissions, cmd.rpIdHash, e);
    }
  }

  lemma TriedForToken(c: Crypto, s: State, h: Option<bytes16>, e: Entropy)
    requires PinSet(s.pin) && s.pin[0] > 0
    ensures var (t, end) := TryPin(c, s, h, e);
            && (end.Some? ==> end.value.granted.None?)
            && (end.None? ==> h.Some? && Matches(c, s.pin, h.value))
            && (end.Some? && !end.value.accepted ==> h.None? || !Matches(c, s.pin, h.value))
  {
    if |s.pin| == 34 { assert Spend(s).pin[2..] == s.pin[2..]; } else { assert Spend(s).pin[3..] == s.pin[3..]; }
  }

  lemma IssuedUnlessForced(s: State, plain: bool, perms: Permissions, rp: Option<bytes32>, e: Entropy)
    ensures IssueToken(s, plain, perms, rp, e).1.granted.Some? <==> !(|s.minPin| >= 2 && s.minPin[1] == 1)
  {
  }

  // A finger's token is granted exactly to a request in order, with retries left, whose finger
  // matches.
  predicate AsksFinger(s: State, cmd: Command) {
    && cmd.UvToken? && cmd.complete && cmd.ready && cmd.keyPresent && cmd.agreed
    && cmd.protocol > 0 && (cmd.protocol % 256 == 1 || cmd.protocol % 256 == 2)
    && cmd.permissions != {} && (6 in cmd.permissions ==> cmd.permissions == {6})
    && s.uvRetries > 0
  }

  lemma UvTokenGrantedIff(c: Crypto, s: State, cmd: Command, e: Entropy)
    requires WellFormed(s) && cmd.UvToken?
    ensures Step(c, s, cmd, e).1.granted.Some? <==> AsksFinger(s, cmd) && cmd.finger.Match?
  {
  }

  // The permissions a command asks for: without permissions a getPinToken asks for
  // makeCredential and getAssertion. Only eight of them are kept.
  function Asked(cmd: Command): Permissions
    requires cmd.PinToken? || cmd.UvToken?
  {
    if cmd.PinToken? && cmd.plain then {0, 1} else set b | b in cmd.permissions && b < 8
  }

  // What a granted token is: a new value, in use, for a verified user, for what was asked and
  // the RP named; the user counts as present after a finger and not after a PIN.
  predicate IsGranted(t: Token, g: Grant, cmd: Command, e: Entropy)
    requires cmd.PinToken? || cmd.UvToken?
  {
    && t.value == g.value == e.token && t.inUse && t.userVerified && (t.userPresent <==> cmd.UvToken?)
    && t.permissions == g.permissions == Asked(cmd)
    && t.hasRpId == cmd.rpIdHash.Some? && g.rpIdHash == cmd.rpIdHash
    && (cmd.rpIdHash.Some? ==> t.rpIdHash == cmd.rpIdHash.value)
  }

  lemma GrantMeans(c: Crypto, s: State, cmd: Command, e: Entropy)
    requires WellFormed(s) && Step(c, s, cmd, e).1.granted.Some?
    ensures var (t, out) := Step(c, s, cmd, e);
            var g := out.granted.value;
            && (cmd.PinToken? || cmd.UvToken?) && VerifiesUser(c, s, cmd)
            && (g.persistent <==> cmd.PinToken? && 6 in cmd.permissions)
            && (if g.persistent then g.value == s.persistentValue && t.persistentPermissions == {6}
                                     && (t.token == s.token || t.token.permissions == {})
                else IsGranted(t.token, g, cmd, e))
  {
    GrantNeedsUser(c, s, cmd, e);
    if cmd.PinToken? {
      var a := Awake(s, e);
      TryPinWellFormed(c, a, cmd.pinHash, e);
      TriedForToken(c, a, cmd.pinHash, e);
      TryKeepsTokens(c, a, cmd.pinHash, e);
      IssueMeans(TryPin(c, a, cmd.pinHash, e).0, cmd, e);
    }
  }

  lemma TryKeepsTokens(c: Crypto, s: State, h: Option<bytes16>, e: Entropy)
    requires PinSet(s.pin) && s.pin[0] > 0
    ensures var t := TryPin(c, s, h, e).0; t.token == s.token && t.persistentValue == s.persistentValue
  {
  }

  lemma IssueMeans(s: State, cmd: Command, e: Entropy)
    requires cmd.PinToken? && (cmd.plain ==> cmd.permissions == {})
    ensures var (t, out) := IssueToken(s, cmd.plain, cmd.permissions, cmd.rpIdHash, e);
            out.granted.Some? ==>
              var g := out.granted.value;
              && (g.persistent <==> 6 in cmd.permissions)
              && (if g.persistent then g.value == s.persistentValue && t.persistentPermissions == {6} && t.token == s.token
                  else IsGranted(t.token, g, cmd, e))
  {
    assert cmd.plain ==> LowByte({MC, GA}) == {0, 1};
  }

  // ---------- the fingerprint retries ----------

  // A finger that does not match, or is not laid on in time, costs a retry; one that matches
  // restores all five, as does a power cycle; nothing else changes them.
  lemma FingerRetries(c: Crypto, s: State, cmd: Command, e: Entropy)
    requires WellFormed(s)
    ensures var t := Step(c, s, cmd, e).0;
            t.uvRetries == if cmd.PowerCycle? || (AsksFinger(s, cmd) && cmd.finger.Match?) then 5
                           else if AsksFinger(s, cmd) && (cmd.finger.Rejected? || cmd.finger.TimedOut?) then s.uvRetries - 1
                           else s.uvRetries
  {
    match cmd
    case ChangePin(ch, h, p) => ChangeKeepsRetries(c, s, ch, h, p, e);
    case PinToken(ch, plain, h, perms, rp) => PinTokenKeepsRetries(c, s, ch, plain, h, perms, rp, e);
    case _ =>
  }

  // What a finger that gives no token is answered with: a time-out, or that it is not the
  // user's, and with the last retry that fingers are blocked, as they then are.
  lemma FingerAnswers(c: Crypto, s: State, cmd: Command, e: Entropy)
    requires WellFormed(s) && cmd.UvToken?
    ensures var status := Step(c, s, cmd, e).1.status;
            && (AsksFinger(s, cmd) ==>
                  status == match cmd.finger
                            case Match => Ok
                            case CannotBegin => Err(UvInvalid)
                            case WaitExpired => Err(UserActionTimeout)
                            case TimedOut => Err(UserActionTimeout)
                            case Rejected => Err(if s.uvRetries - 1 == 0 then UvBlocked else UvInvalid))
            && (cmd.complete && cmd.protocol != 0 && cmd.ready && s.uvRetries == 0 ==> status == Err(UvBlocked))
  {
  }

  // Whatever else is wrong, a request that lacks a member or its protocol is told so first, and
  // one with an unknown protocol next; both change no file.
  lemma ProtocolFirst(c: Crypto, s: State, cmd: Command, e: Entropy)
    requires WellFormed(s) && (cmd.SetPin? || cmd.ChangePin? || cmd.PinToken?)
    ensures var (t, out) := Step(c, s, cmd, e);
            && (!cmd.channel.complete || cmd.channel.protocol == 0 ==> out.status == Err(MissingParameter))
            && (cmd.channel.complete && cmd.channel.protocol > 2 ==> out.status == Err(InvalidParameter))
            && (!cmd.channel.complete || cmd.channel.protocol !in {1, 2} ==>
                  t.pin == s.pin && t.keydev == s.keydev && t.minPin == s.minPin && !out.compared)
  {
  }

  lemma TryKeepsRetries(c: Crypto, s: State, h: Option<bytes16>, e: Entropy)
    requires PinSet(s.pin) && s.pin[0] > 0
    ensures TryPin(c, s, h, e).0.uvRetries == s.uvRetries
  {
  }

  lemma ChangeKeepsRetries(c: Crypto, s: State, ch: Channel, h: Option<bytes16>, p: Option<bytes64>, e: Entropy)
    requires WellFormed(s)
    ensures ChangePinStep(c, s, ch, h, p, e).0.uvRetries == s.uvRetries
  {
    var a := Awake(s, e);
    if ChangePinRefusal(a, ch).None? {
      TryKeepsRetries(c, a, h, e);
      TryPinWellFormed(c, a, h, e);
    }
  }

  lemma PinTokenKeepsRetries(c: Crypto, s: State, ch: Channel, plain: bool, h: Option<bytes16>,
                             perms: Permissions, rp: Option<bytes32>, e: Entropy)
    requires WellFormed(s)
    ensures PinTokenStep(c, s, ch, plain, h, perms, rp, e).0.uvRetries == s.uvRetries
  {
    var a := Awake(s, e);
    if PinTokenRefusal(a, ch, plain, perms, rp).None? { TryKeepsRetries(c, a, h, e); }
  }

  // Fingers that failed since the last match or power cycle.
  function FailedFingers(c: Crypto, s: State, ins: seq<Input>): nat
    requires WellFormed(s)
  {
    if ins == [] then 0
    else
      var n := |ins| - 1;
      var cmd := ins[n].0;
      if cmd.PowerCycle? || (cmd.UvToken? && Answer(c, s, ins, n).granted.Some?) then 0
      else
        FailedFingers(c, s, ins[..n])
          + if AsksFinger(Run(c, s, ins[..n]), cmd) && (cmd.finger.Rejected? || cmd.finger.TimedOut?) then 1 else 0
  }

  // In every run at most five fingers fail after the last that matched, power cycles aside.
  lemma {:induction false} FailedFingersBounded(c: Crypto, s: State, ins: seq<Input>)
    requires WellFormed(s) && s.uvRetries <= 5
    ensures FailedFingers(c, s, ins) + Run(c, s, ins).uvRetries <= 5
  {
    if ins != [] {
      var n := |ins| - 1;
      FailedFingersBounded(c, s, ins[..n]);
      FingerRetries(c, Run(c, s, ins[..n]), ins[n].0, ins[n].1);
      if ins[n].0.UvToken? { UvTokenGrantedIff(c, Run(c, s, ins[..n]), ins[n].0, ins[n].1); }
    }
  }

  // ---------- what takes the tokens away ----------

  predicate TokensGone(t: State, e: Entropy) {
    && t.token.value == e.token && t.token.permissions == {}
    && t.persistentValue == e.persistent && t.persistentPermissions == {}
  }

  // A changed PIN leaves neither token with a value or permission of before, and no change
  // forced.
  lemma ChangedPinTakesTokens(c: Crypto, s: State, cmd: Command, e: Entropy)
    requires WellFormed(s) && cmd.ChangePin? && Step(c, s, cmd, e).1.status == Ok
    ensures var t := Step(c, s, cmd, e).0; TokensGone(t, e) && !(|t.minPin| >= 2 && t.minPin[1] == 1)
  {
    var a := Awake(s, e);
    if ChangePinRefusal(a, cmd.channel).None? { TryPinWellFormed(c, a, cmd.pinHash, e); }
  }

  // The first client-PIN command after power-up renews the token, whether or not it succeeds,
  // and later ones that neither hand out a token nor change the PIN leave it alone; a power
  // cycle makes the next command the first again.
  lemma FirstCommandRenews(c: Crypto, s: State, cmd: Command, e: Entropy)
    requires WellFormed(s)
    ensures var (t, out) := Step(c, s, cmd, e);
            if cmd.PowerCycle? then
              && !t.keyAgreement && !t.needsPowerCycle && t.mismatches == 0 && t.session == Zeros32()
              && t.persistentPermissions == {}
              && t.token.permissions == {} && !t.token.inUse && !t.token.hasRpId
              && !t.token.userPresent && !t.token.userVerified
            else if cmd.SetMinPin? then t.keyAgreement == s.keyAgreement
            else
              && t.keyAgreement
              && (out.granted.None? && !(cmd.ChangePin? && out.status == Ok) ==>
                    t.token == if s.keyAgreement then s.token else s.token.(value := e.initial, permissions := {}))
  {
    match cmd
    case ChangePin(ch, h, p) => ChangeRenews(c, s, ch, h, p, e);
    case PinToken(ch, plain, h, perms, rp) => PinTokenRenews(c, s, ch, plain, h, perms, rp, e);
    case _ =>
  }

  lemma TryKeepsRest(c: Crypto, s: State, h: Option<bytes16>, e: Entropy)
    requires PinSet(s.pin) && s.pin[0] > 0
    ensures var t := TryPin(c, s, h, e).0; t.token == s.token && t.keyAgreement == s.keyAgreement
    ensures TryPin(c, s, h, e).1.Some? ==> TryPin(c, s, h, e).1.value.status != Ok
  {
  }

  lemma ChangeRenews(c: Crypto, s: State, ch: Channel, h: Option<bytes16>, p: Option<bytes64>, e: Entropy)
    requires WellFormed(s)
    ensures var (t, out) := ChangePinStep(c, s, ch, h, p, e);
            && t.keyAgreement
            && (out.status != Ok ==>
                  t.token == if s.keyAgreement then s.token else s.token.(value := e.initial, permissions := {}))
  {
    var a := Awake(s, e);
    if ChangePinRefusal(a, ch).None? {
      TryKeepsRest(c, a, h, e);
      TryPinWellFormed(c, a, h, e);
    }
  }

  lemma PinTokenRenews(c: Crypto, s: State, ch: Channel, plain: bool, h: Option<bytes16>,
                       perms: Permissions, rp: Option<bytes32>, e: Entropy)
    requires WellFormed(s)
    ensures var (t, out) := PinTokenStep(c, s, ch, plain, h, perms, rp, e);
            && t.keyAgreement
            && (out.granted.None? ==>
                  t.token == if s.keyAgreement then s.token else s.token.(value := e.initial, permissions := {}))
  {
    var a := Awake(s, e);
    if PinTokenRefusal(a, ch, plain, perms, rp).None? { TryKeepsRest(c, a, h, e); }
  }

  // ---------- setMinPINLength ----------

  // The minimum a request asks for; 0 keeps the one there is.
  function AskedMinimum(s: State, newMin: nat): nat {
    if newMin > 0 then newMin else if s.minPin == [] then 4 else s.minPin[0]
  }

  lemma SetMinPinSucceedsIff(c: Crypto, s: State, cmd: Command, e: Entropy)
    requires WellFormed(s) && cmd.SetMinPin?
    ensures Step(c, s, cmd, e).1.status == Ok <==>
            && cmd.present && (cmd.protocol == 1 || cmd.protocol == 2) && cmd.macOk && 5 in s.token.permissions
            && AskedMinimum(s, cmd.newMin) >= AskedMinimum(s, 0)
            && (cmd.force == Some(true) ==> s.pin != [])
  {
  }

  lemma {:induction false} FlattenedAt(hs: seq<bytes32>, i: nat)
    requires i < |hs|
    ensures |Flatten(hs)| == 32 * |hs| && Flatten(hs)[32 * i..32 * i + 32] == hs[i]
  {
    if i > 0 {
      FlattenedAt(hs[1..], i - 1);
      assert Flatten(hs)[32 * i..32 * i + 32] == Flatten(hs[1..])[32 * (i - 1)..32 * (i - 1) + 32];
    } else {
      FlattenedLength(hs);
    }
  }

  lemma {:induction false} FlattenedLength(hs: seq<bytes32>)
    ensures |Flatten(hs)| == 32 * |hs|
  {
    if hs != [] { FlattenedLength(hs[1..]); }
  }

  // The file holds the low byte of the minimum, the flag, and the hashes in their order. The
  // flag is set exactly if the request says so or the PIN is too short for the new minimum.
  // Whenever the request says anything of it, or the PIN is too short, both tokens go;
  // otherwise they stay.
  lemma SetMinPinMeans(c: Crypto, s: State, cmd: Command, e: Entropy, i: nat)
    requires WellFormed(s) && cmd.SetMinPin? && Step(c, s, cmd, e).1.status == Ok
    ensures var t := Step(c, s, cmd, e).0;
            var m := AskedMinimum(s, cmd.newMin);
            var short := s.pin != [] && s.pin[1] < m;
            && |t.minPin| == 2 + 32 * |cmd.rpIdHashes| && t.minPin[0] == m % 256
            && t.minPin[1] == (if short || cmd.force == Some(true) then 1 else 0)
            && (i < |cmd.rpIdHashes| ==> t.minPin[2 + 32 * i..2 + 32 * i + 32] == cmd.rpIdHashes[i])
            && (if short || cmd.force.Some? then TokensGone(t, e)
                else t.token == s.token && t.persistentValue == s.persistentValue
                     && t.persistentPermissions == s.persistentPermissions)
  {
    var t := Step(c, s, cmd, e).0;
    FlattenedLength(cmd.rpIdHashes);
    if i < |cmd.rpIdHashes| {
      FlattenedAt(cmd.rpIdHashes, i);
      assert t.minPin[2..] == Flatten(cmd.rpIdHashes);
      assert t.minPin[2 + 32 * i..2 + 32 * i + 32] == t.minPin[2..][32 * i..32 * i + 32];
    }
  }
}
