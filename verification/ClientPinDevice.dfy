// The client-PIN commands as the firmware performs them: one flash or RAM write after the
// other, with the early exits in between, proved to have the effect of the step functions.
module ClientPinDevice {
  import opened Basics
  import opened ClientPin
  import opened KeyConservation
  import opened PinAttempts
  import opened PinPolicy
  import opened Tokens

  class Authenticator {
    const c: Crypto
    var pin: bytes
    var keydev: bytes
    var minPin: bytes
    var session: bytes32
    var mismatches: byte
    var needsPowerCycle: bool
    var keyAgreement: bool
    var token: Token
    var persistentValue: bytes32
    var persistentPermissions: Permissions
    var uvRetries: byte

    function Now(): State
      reads this
    {
      State(pin, keydev, minPin, session, mismatches, needsPowerCycle, keyAgreement, token,
            persistentValue, persistentPermissions, uvRetries)
    }

    // What every command keeps: comparisons are paid for, and a PIN shorter than the minimum
    // is marked for change.
    ghost predicate Valid()
      reads this
    {
      WithinBudget(Now()) && PolicyHeld(Now())
    }

    // A device as flash left it: the RAM globals have their initial values.
    constructor (c: Crypto, pin: bytes, keydev: bytes, minPin: bytes, token: bytes32, persistent: bytes32)
      requires WellFormed(State(pin, keydev, minPin, Zeros32(), 0, false, false,
                                Token(token, false, {}, Zeros32(), false, false, false), persistent, {}, MAX_UV_RETRIES))
      ensures this.c == c && WellFormed(Now()) && Now() == PowerCycleStep(Now())
      ensures this.pin == pin && this.keydev == keydev && this.minPin == minPin
      ensures this.token.value == token && persistentValue == persistent
      ensures pin == [] ==> Valid()
    {
      this.c := c;
      this.pin, this.keydev, this.minPin := pin, keydev, minPin;
      this.token := Token(token, false, {}, Zeros32(), false, false, false);
      session, mismatches, needsPowerCycle, keyAgreement := Zeros32(), 0, false, false;
      persistentValue, persistentPermissions, uvRetries := persistent, {}, MAX_UV_RETRIES;
    }

    method PowerUp()
      modifies this
      ensures Now() == PowerCycleStep(old(Now()))
    {
      session := Zeros32();
      mismatches := 0;
      needsPowerCycle := false;
      keyAgreement := false;
      token := Token(token.value, false, {}, Zeros32(), false, false, false);
      persistentPermissions := {};
      uvRetries := MAX_UV_RETRIES;
    }

    // initialize(), on the first client-PIN command only.
    method Awaken(e: Entropy)
      modifies this`keyAgreement, this`token
      ensures Now() == Awake(old(Now()), e)
    {
      if !keyAgreement {
        keyAgreement := true;
        token := ResetToken(token, e.initial);
      }
    }

    // while (paddedNewPin[pin_len] != 0 && pin_len < sizeof(paddedNewPin)) pin_len++
    method MeasurePin(p: bytes64) returns (n: byte)
      requires p[63] == 0
      ensures n == PinLength(p)
    {
      n := 0;
      while p[n] != 0
        invariant n <= 63
        invariant n + PinLength(p[n..]) == PinLength(p)
        decreases 63 - n
      {
        assert p[n..][1..] == p[n + 1..];
        n := n + 1;
      }
    }

    method CheckKeydevEncrypted(key: bytes32, nonce: bytes, beyond: bytes32)
      modifies this`keydev
      ensures keydev == SealKeydev(c, old(keydev), key, nonce, beyond)
    {
      if keydev != [] && keydev[0] == 0x01 {
        var sealed := [0x02] + c.seal(key, nonce, KeydevBody(keydev, beyond));
        keydev := sealed;
      }
    }

    method ResetPinUvAuthToken(value: bytes32)
      modifies this`token
      ensures token == ResetToken(old(token), value)
    {
      token := token.(value := value);
      token := token.(permissions := {});
    }

    method BeginUsingPinUvAuthToken(userIsPresent: bool)
      modifies this`token
      ensures token == old(token).(userPresent := userIsPresent, userVerified := true, inUse := true)
    {
      token := token.(userPresent := userIsPresent);
      token := token.(userVerified := true);
      token := token.(inUse := true);
    }

    // A fresh token value, in use, with the permissions asked for and the RP binding.
    method GrantToken(value: bytes32, userIsPresent: bool, permissions: Permissions, rpIdHash: Option<bytes32>)
      modifies this`token
      ensures token == OpenToken(ResetToken(old(token), value), userIsPresent, permissions, rpIdHash)
    {
      ResetPinUvAuthToken(value);
      BeginUsingPinUvAuthToken(userIsPresent);
      token := token.(permissions := LowByte(permissions));
      if rpIdHash.Some? {
        token := token.(rpIdHash := rpIdHash.value);
        token := token.(hasRpId := true);
      } else {
        token := token.(hasRpId := false);
      }
    }

    method SetPin(ch: Channel, newPin: Option<bytes64>, e: Entropy) returns (out: Outcome)
      modifies this
      ensures (Now(), out) == SetPinStep(c, old(Now()), ch, newPin, e)
    {
      Awaken(e);
      if !ch.complete || ch.protocol == 0 { return Refuse(MissingParameter); }
      if ch.protocol != 1 && ch.protocol != 2 { return Refuse(InvalidParameter); }
      if pin != [] { return Refuse(NotAllowed); }
      if !ch.lengthsOk || !ch.agreed { return Refuse(InvalidParameter); }
      if !ch.macOk || newPin.None? { return Refuse(PinAuthInvalid); }
      var padded := newPin.value;
      if padded[63] != 0 { return Refuse(PinPolicyViolation); }
      var n := MeasurePin(padded);
      var least: byte := 4;
      if minPin != [] { least := minPin[0]; }
      if n < least { return Refuse(PinPolicyViolation); }
      var h := c.sha256(padded[..n])[..16];
      pin := [MAX_PIN_RETRIES, n, 1] + c.verifier(h);
      session := c.sessionKey(h);
      CheckKeydevEncrypted(session, e.nonce, e.beyond);
      out := Outcome(Ok, false, false, None);
    }

    // The branch taken when the compared hashes differ; the attempt is already in flash.
    method CountMismatch() returns (out: Outcome)
      requires pin != []
      modifies this`mismatches, this`needsPowerCycle
      ensures (Now(), out) == Mismatch(old(Now()))
    {
      if pin[0] == 0 { return Outcome(Err(PinBlocked), true, false, None); }
      mismatches := (mismatches + 1) % 256;
      if mismatches >= 3 {
        needsPowerCycle := true;
        return Outcome(Err(PinAuthBlocked), true, false, None);
      }
      return Outcome(Err(PinInvalid), true, false, None);
    }

    // "Upgrade pin file to new format": the device key only; the image is the caller's.
    method UpgradeKeydev(h: bytes16) returns (ok: bool)
      modifies this`session, this`keydev
      ensures session == c.hashMulti(h)
      ensures match LoadKeydev(c, old(keydev), session)
              case None => !ok && keydev == old(keydev)
              case Some(k) => ok && keydev == PlainKeydev(c, k)
    {
      session := c.hashMulti(h);
      var k := LoadKeydev(c, keydev, session);
      if k.None? { return false; }
      keydev := PlainKeydev(c, k.value);
      return true;
    }

    // The attempt is paid for and in flash before the hash is even decrypted, then compared;
    // a right PIN upgrades an older PIN file, takes over the session key, restores the
    // attempts and seals the device key.
    method AttemptPin(pinHash: Option<bytes16>, e: Entropy) returns (end: Option<Outcome>)
      requires PinSet(pin) && pin[0] > 0
      modifies this
      ensures (Now(), end) == TryPin(c, old(Now()), pinHash, e)
    {
      pin := pin[0 := pin[0] - 1];
      if pinHash.None? { return Some(Refuse(PinAuthInvalid)); }
      var h := pinHash.value;
      var off, dhash := 3, c.verifier(h);
      if |pin| == 34 { off, dhash := 2, c.doubleHash(h); }
      assert pin[off..] == old(pin)[off..];
      if dhash != pin[off..] {
        var out := CountMismatch();
        return Some(out);
      }
      var ok := TakeOver(h, e);
      return if ok then None else Some(Outcome(Err(PinInvalid), true, true, None));
    }

    // What follows a right PIN: the upgrade, the session key, the attempts, the sealed key.
    method TakeOver(h: bytes16, e: Entropy) returns (ok: bool)
      requires PinSet(pin)
      modifies this
      ensures (Now(), ok) == Unlock(c, old(Now()), h, e)
    {
      var pinData := pin;
      if |pin| == 34 {
        pinData := pinData[..2] + [1] + c.verifier(h);
        ok := UpgradeKeydev(h);
        if !ok { return; }
      }
      session := c.sessionKey(h);
      pinData := pinData[0 := MAX_PIN_RETRIES];
      assert pinData == RestoredPin(c, pin, h);
      pin := pinData;
      CheckKeydevEncrypted(session, e.nonce, e.beyond);
      mismatches := 0;
      return true;
    }

    method ChangePin(ch: Channel, pinHash: Option<bytes16>, newPin: Option<bytes64>, e: Entropy) returns (out: Outcome)
      requires WellFormed(Now())
      modifies this
      ensures (Now(), out) == ChangePinStep(c, old(Now()), ch, pinHash, newPin, e)
    {
      Awaken(e);
      if !ch.complete || ch.protocol == 0 { return Refuse(MissingParameter); }
      if ch.protocol != 1 && ch.protocol != 2 { return Refuse(InvalidParameter); }
      if pin == [] { return Refuse(PinNotSet); }
      if pin[0] == 0 { return Refuse(PinBlocked); }
      if !ch.lengthsOk || !ch.agreed { return Refuse(InvalidParameter); }
      if !ch.macOk { return Refuse(PinAuthInvalid); }
      TryPinWellFormed(c, Now(), pinHash, e);
      var end := AttemptPin(pinHash, e);
      if end.Some? { return end.value; }
      out := StoreNewPin(newPin, e);
    }

    // The rest of changePIN, from decrypting the new PIN on.
    method StoreNewPin(newPin: Option<bytes64>, e: Entropy) returns (out: Outcome)
      requires WellFormed(Now()) && |pin| == 35
      modifies this
      ensures (Now(), out) == ReplacePin(c, old(Now()), newPin, e)
    {
      if newPin.None? { return Outcome(Err(PinAuthInvalid), true, true, None); }
      var padded := newPin.value;
      if padded[63] != 0 { return Outcome(Err(InvalidParameter), true, true, None); }
      var n := MeasurePin(padded);
      var least: byte := 4;
      if minPin != [] { least := minPin[0]; }
      if n < least { return Outcome(Err(PinPolicyViolation), true, true, None); }
      var k := LoadKeydev(c, keydev, session);
      if k.None? { return Outcome(Err(PinInvalid), true, true, None); }
      out := ExchangePin(k.value, n, c.sha256(padded[..n])[..16], e);
    }

    // The writes of a successful changePIN, with the early exit between them.
    method ExchangePin(k: bytes32, n: byte, h: bytes16, e: Entropy) returns (out: Outcome)
      requires WellFormed(Now()) && |pin| == 35
      modifies this
      ensures (Now(), out) == StorePin(c, old(Now()), k, n, h, e)
    {
      keydev := PlainKeydev(c, k);
      session := c.sessionKey(h);
      CheckKeydevEncrypted(session, e.nonce', e.beyond);
      var pinData := [MAX_PIN_RETRIES, n, 1] + c.verifier(h);
      assert pinData[3..] == c.verifier(h);
      if minPin != [] && minPin[1] == 1 && pinData[3..] == pin[3..] {
        return Outcome(Err(PinPolicyViolation), true, true, None);
      }
      pin := pinData;
      if minPin != [] && minPin[1] == 1 { minPin := minPin[1 := 0]; }
      ResetPinUvAuthToken(e.token);
      persistentValue, persistentPermissions := e.persistent, {};
      out := Outcome(Ok, true, true, None);
    }

    method GetPinToken(ch: Channel, plain: bool, pinHash: Option<bytes16>, permissions: Permissions,
                       rpIdHash: Option<bytes32>, e: Entropy) returns (out: Outcome)
      requires WellFormed(Now())
      modifies this
      ensures (Now(), out) == PinTokenStep(c, old(Now()), ch, plain, pinHash, permissions, rpIdHash, e)
    {
      Awaken(e);
      if !ch.complete || ch.protocol == 0 { return Refuse(MissingParameter); }
      if ch.protocol != 1 && ch.protocol != 2 { return Refuse(InvalidParameter); }
      if plain && (permissions != {} || rpIdHash.Some?) { return Refuse(InvalidParameter); }
      if !plain {
        if permissions == {} { return Refuse(InvalidParameter); }
        if PCMR in permissions && permissions != {PCMR} { return Refuse(UnauthorizedPermission); }
      }
      if pin == [] { return Refuse(PinNotSet); }
      if pin[0] == 0 { return Refuse(PinBlocked); }
      if !ch.agreed { return Refuse(InvalidParameter); }
      TryPinWellFormed(c, Now(), pinHash, e);
      var end := AttemptPin(pinHash, e);
      if end.Some? { return end.value; }
      out := HandOut(plain, permissions, rpIdHash, e);
    }

    // The rest of getPinToken, from the forced-change check on.
    method HandOut(plain: bool, permissions: Permissions, rpIdHash: Option<bytes32>, e: Entropy) returns (out: Outcome)
      requires WellFormed(Now())
      modifies this`token, this`persistentPermissions
      ensures (Now(), out) == IssueToken(old(Now()), plain, permissions, rpIdHash, e)
    {
      if minPin != [] && minPin[1] == 1 { return Outcome(Err(PinInvalid), true, true, None); }
      if PCMR in permissions {
        persistentPermissions := {PCMR};
        return Outcome(Ok, true, true, Some(Grant(persistentValue, {PCMR}, None, true)));
      }
      var p := permissions;
      if plain { p := {MC, GA}; }
      GrantToken(e.token, false, p, rpIdHash);
      out := Outcome(Ok, true, true, Some(Grant(token.value, LowByte(p), rpIdHash, false)));
    }

    method GetUvToken(complete: bool, protocol: nat, ready: bool, keyPresent: bool, agreed: bool, finger: Finger,
                      permissions: Permissions, rpIdHash: Option<bytes32>, e: Entropy) returns (out: Outcome)
      modifies this
      ensures (Now(), out) ==
              UvTokenStep(old(Now()), complete, protocol, ready, keyPresent, agreed, finger, permissions, rpIdHash, e)
    {
      Awaken(e);
      if !complete || protocol == 0 { return Refuse(MissingParameter); }
      if !ready { return Refuse(UnsupportedOption); }
      if uvRetries == 0 { return Refuse(UvBlocked); }
      if protocol % 256 != 1 && protocol % 256 != 2 { return Refuse(InvalidParameter); }
      if !keyPresent { return Refuse(MissingParameter); }
      if permissions == {} { return Refuse(InvalidParameter); }
      if PCMR in permissions && permissions != {PCMR} { return Refuse(UnauthorizedPermission); }
      if !agreed { return Refuse(InvalidParameter); }
      match finger
      case CannotBegin => return Refuse(UvInvalid);
      case WaitExpired => return Refuse(UserActionTimeout);
      case TimedOut =>
        uvRetries := uvRetries - 1;
        return Refuse(UserActionTimeout);
      case Rejected =>
        uvRetries := uvRetries - 1;
        return Refuse(if uvRetries == 0 then UvBlocked else UvInvalid);
      case Match =>
        uvRetries := MAX_UV_RETRIES;
        GrantToken(e.token, true, permissions, rpIdHash);
        return Outcome(Ok, false, false, Some(Grant(token.value, LowByte(permissions), rpIdHash, false)));
    }

    method Concatenate(hashes: seq<bytes32>) returns (data: bytes)
      ensures data == Flatten(hashes)
    {
      data := [];
      for i := 0 to |hashes|
        invariant data + Flatten(hashes[i..]) == Flatten(hashes)
      {
        assert hashes[i..][1..] == hashes[i + 1..];
        data := data + hashes[i];
      }
      assert data + Flatten([]) == data;
    }

    method SetMinPinLength(present: bool, protocol: nat, macOk: bool, newMin: nat, force: Option<bool>,
                           rpIdHashes: seq<bytes32>, e: Entropy) returns (out: Outcome)
      requires WellFormed(Now())
      modifies this
      ensures (Now(), out) == SetMinPinStep(old(Now()), present, protocol, macOk, newMin, force, rpIdHashes, e)
    {
      if !present { return Refuse(PuatRequired); }
      if protocol == 0 { return Refuse(MissingParameter); }
      if protocol != 1 && protocol != 2 { return Refuse(InvalidParameter); }
      if !macOk || ACFG !in token.permissions { return Refuse(PinAuthInvalid); }
      var current: byte := 4;
      if minPin != [] { current := minPin[0]; }
      var m := newMin;
      if m == 0 { m := current; } else if m < current { return Refuse(PinPolicyViolation); }
      if force == Some(true) && pin == [] { return Refuse(PinNotSet); }
      WriteMinPin(m, force, rpIdHashes, e);
      out := Outcome(Ok, false, false, None);
    }

    // The writes, from the length check of the stored PIN on.
    method WriteMinPin(m: nat, force: Option<bool>, rpIdHashes: seq<bytes32>, e: Entropy)
      requires WellFormed(Now())
      modifies this
      ensures Now() == StoreMinPin(old(Now()), m, force, rpIdHashes, e)
    {
      var f := force;
      if pin != [] && pin[1] < m { f := Some(true); }
      if f.Some? {
        persistentValue, persistentPermissions := e.persistent, {};
        ResetPinUvAuthToken(e.token);
      }
      var data := Concatenate(rpIdHashes);
      minPin := [m % 256, if f == Some(true) then 1 else 0] + data;
    }

    // One command, whichever it is. It is charged for its comparison, hands out no token for a
    // PIN that is too short, and leaves the device key what it was.
    method Perform(cmd: Command, e: Entropy) returns (out: Outcome)
      requires Valid()
      modifies this
      ensures Valid() && (Now(), out) == Step(c, old(Now()), cmd, e)
      ensures Charged(old(Now()), Now(), out)
      ensures cmd.PinToken? && out.granted.Some? ==> LongEnough(Now())
      ensures forall k: bytes32 :: Laws(c) && Holds(c, old(Now()), k) ==>
                Holds(c, Now(), k) && (out.accepted ==> Loads(c, Now(), k))
    {
      StepKeeps(c, Now(), cmd, e);
      match cmd
      case SetPin(ch, p) => out := SetPin(ch, p, e);
      case ChangePin(ch, h, p) => out := ChangePin(ch, h, p, e);
      case PinToken(ch, plain, h, perms, rp) => out := GetPinToken(ch, plain, h, perms, rp, e);
      case UvToken(full, proto, ready, key, agreed, finger, perms, rp) =>
        out := GetUvToken(full, proto, ready, key, agreed, finger, perms, rp, e);
      case SetMinPin(present, proto, macOk, newMin, force, rps) =>
        out := SetMinPinLength(present, proto, macOk, newMin, force, rps, e);
      case PowerCycle =>
        PowerUp();
        out := Outcome(Ok, false, false, None);
    }

    // ---------- the token in getAssertion and makeCredential ----------

    method GetUserVerifiedFlag() returns (flag: bool)
      modifies this`token
      ensures token == ReadVerified(old(token)) && flag == (token.inUse && token.userVerified)
    {
      if !token.inUse { token := token.(userVerified := false); }
      flag := token.userVerified;
    }

    // The checks of getAssertion up to the credential search, with the search's results.
    method AuthorizeAssertion(r: AssertionRequest) returns (refusal: Option<Code>)
      modifies this`token
      ensures refusal == AssertionRefusal(c, old(Now()), r)
      ensures token == TokenChecked(c, old(Now()), r)
    {
      if r.param.Some? {
        if r.param.value == [] {
          if !r.present { return Some(OperationDenied); }
          return Some(if pin == [] then PinNotSet else PinAuthInvalid);
        }
        if r.protocol == 0 { return Some(MissingParameter); }
        if r.protocol != 1 && r.protocol != 2 { return Some(InvalidParameter); }
      }
      if r.options {
        if r.uv == Some(true) { return Some(InvalidOption); }
        if r.rk.Some? { return Some(UnsupportedOption); }
      }
      var found := r.found;
      if r.param.Some? {
        if !MacAccepts(c, r.protocol, token.value, r.clientDataHash, r.param.value) { return Some(PinAuthInvalid); }
        var verified := GetUserVerifiedFlag();
        if !verified { return Some(PinAuthInvalid); }
        if GA !in token.permissions { return Some(PinAuthInvalid); }
        if token.hasRpId && token.rpIdHash != r.rpIdHash { return Some(PinAuthInvalid); }
        found := r.foundVerified;
      }
      if !r.extensionsOk { return Some(MissingParameter); }
      if found == 0 { return Some(NoCredentials); }
      return None;
    }

    // clearUserPresentFlag, clearUserVerifiedFlag, clearPinUvAuthTokenPermissionsExceptLbw
    method ClearFlags()
      modifies this`token
      ensures token == UseUp(old(token))
    {
      if token.inUse { token := token.(userPresent := false); }
      if token.inUse { token := token.(userVerified := false); }
      if token.inUse { token := token.(permissions := {LBW}); }
    }

    // Step 9 of getAssertion: false when the user did not confirm.
    method TakePresence(r: AssertionRequest) returns (ok: bool)
      modifies this`token
      ensures ok == (WantsPresence(r) ==> PresenceGiven(old(token), r))
      ensures token == if ok && WantsPresence(r) then UseUp(old(token)) else old(token)
    {
      if !r.options || r.up.None? || r.up.value {
        var flag := r.param.Some? && token.inUse && token.userPresent;
        if !flag && !r.present { return false; }
        ClearFlags();
      }
      return true;
    }

    // The token check of makeCredential, which binds an unbound token to the RP.
    method AuthorizeCredential(rpIdHash: bytes32, clientDataHash: bytes, param: bytes, protocol: nat) returns (ok: bool)
      modifies this`token
      ensures forall pending ::
        MakeStep(c, System(old(Now()), pending), rpIdHash, clientDataHash, Some(param), protocol, true)
        == (System(Now(), pending),
            if ok then Seen(None, None, Some(rpIdHash), false, Silent) else Quiet(Refused(PinAuthInvalid)))
    {
      if !MacAccepts(c, protocol, token.value, clientDataHash, param) { return false; }
      if MC !in token.permissions { return false; }
      if token.hasRpId && token.rpIdHash != rpIdHash { return false; }
      var verified := GetUserVerifiedFlag();
      if !verified { return false; }
      if !token.hasRpId {
        token := token.(rpIdHash := rpIdHash);
        token := token.(hasRpId := true);
      }
      return true;
    }
  }
  // What the results about single commands say together.
  lemma StepKeeps(c: Crypto, s: State, cmd: Command, e: Entropy)
    requires WithinBudget(s) && PolicyHeld(s)
    ensures var (t, out) := Step(c, s, cmd, e);
            && WithinBudget(t) && PolicyHeld(t) && Charged(s, t, out)
            && (cmd.PinToken? && out.granted.Some? ==> LongEnough(t))
            && forall k: bytes32 :: Laws(c) && Holds(c, s, k) ==> Holds(c, t, k) && (out.accepted ==> Loads(c, t, k))
  {
    StepCharged(c, s, cmd, e);
    StepPolicy(c, s, cmd, e);
    forall k: bytes32 | Laws(c) && Holds(c, s, k)
      ensures Holds(c, Step(c, s, cmd, e).0, k) && (Step(c, s, cmd, e).1.accepted ==> Loads(c, Step(c, s, cmd, e).0, k))
    {
      StepConserves(c, s, cmd, e, k);
    }
  }
}
