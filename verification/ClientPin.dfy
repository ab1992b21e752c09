// Client PIN, PIN/UV auth token and device-key files (CTAP 2.1 sections 6.5 and 6.11):
// the flash files and RAM globals that src/fido/cbor_client_pin.c, src/fido/fido.c and
// src/fido/cbor_config.c change, and one step function per command.
module ClientPin {
  import opened Basics

  const MAX_PIN_RETRIES: byte := 8
  const MAX_UV_RETRIES: byte := 5

  // A permissions word as the set of its bit positions.
  type Permissions = set<nat>

  const MC: nat := 0
  const GA: nat := 1
  const LBW: nat := 4
  const ACFG: nat := 5
  const PCMR: nat := 6

  // (uint8_t) permissions
  function LowByte(p: Permissions): Permissions {
    set b | b in p && b < 8
  }

  // The foreign cryptography, as functions about which only Laws is known.
  datatype Crypto = Crypto(
    sha256: bytes -> bytes32,
    mac: (bytes, bytes) -> bytes32,                 // HMAC-SHA-256: key, data
    doubleHash: bytes16 -> bytes32,                 // double_hash_pin, the 34-byte PIN file
    hashMulti: bytes16 -> bytes32,                  // hash_multi, the session key of that file
    verifier: bytes16 -> bytes32,                   // pin_derive_verifier, the 35-byte PIN file
    sessionKey: bytes16 -> bytes32,                 // pin_derive_session
    wrap: bytes32 -> bytes32,                       // AES-CBC under derive_kbase
    unwrap: bytes32 -> bytes32,
    seal: (bytes32, bytes, bytes32) -> bytes,       // encrypt_with_aad: key, nonce, plaintext
    open: (bytes32, bytes) -> Option<bytes32>,      // decrypt_with_aad
    legacyOpen: (bytes32, bytes) -> Option<bytes32> // mkek_decrypt and the OTP key: session, file
  )

  ghost predicate Laws(c: Crypto) {
    && (forall k: bytes32 :: c.unwrap(c.wrap(k)) == k)
    && (forall k: bytes32, n: bytes, p: bytes32 ::
          |c.seal(k, n, p)| == 60 && c.open(k, c.seal(k, n, p)) == Some(p))
    && (forall g: bytes16, h: bytes16 :: c.verifier(g) == c.verifier(h) ==> g == h)
  }

  // The RAM record paut; value is the content of EF_AUTHTOKEN it points at.
  datatype Token = Token(
    value: bytes32,
    inUse: bool,
    permissions: Permissions,
    rpIdHash: bytes32,
    hasRpId: bool,
    userPresent: bool,
    userVerified: bool)

  // pin, keydev and minPin are flash files (empty when the file has no data), as are
  // token.value and persistentValue; the rest is RAM.
  datatype State = State(
    pin: bytes,
    keydev: bytes,
    minPin: bytes,
    session: bytes32,
    mismatches: byte,
    needsPowerCycle: bool,
    keyAgreement: bool,
    token: Token,
    persistentValue: bytes32,
    persistentPermissions: Permissions,
    uvRetries: byte)

  // A PIN file in one of the two layouts the firmware has written.
  predicate PinSet(pin: bytes) {
    |pin| == 34 || |pin| == 35
  }

  // The files have only the sizes the firmware writes: the PIN file is absent, in the
  // older 34-byte layout or in the 35-byte layout.
  predicate WellFormed(s: State) {
    && (s.pin == [] || PinSet(s.pin))
    && (s.minPin == [] || |s.minPin| >= 2)
  }

  datatype Code =
    | MissingParameter | InvalidParameter | NotAllowed | PinAuthInvalid | PinPolicyViolation
    | PinNotSet | PinBlocked | PinAuthBlocked | PinInvalid | UnauthorizedPermission
    | UnsupportedOption | UvBlocked | UvInvalid | UserActionTimeout | PuatRequired
    | OperationDenied | InvalidOption | NoCredentials | Other

  datatype Status = Ok | Err(code: Code)

  // What parsing and the ECDH channel established about a request: all mandatory members
  // present, the protocol number, the encrypted lengths fit it, the shared secret could be
  // computed, and the request's MAC verified under it.
  datatype Channel = Channel(complete: bool, protocol: nat, lengthsOk: bool, agreed: bool, macOk: bool)

  // The bytes random_gen hands out during one command, and the bytes that happen to lie
  // behind the device-key file in flash.
  datatype Entropy = Entropy(initial: bytes32, nonce: bytes, nonce': bytes,
                             token: bytes32, persistent: bytes32, beyond: bytes32)

  datatype Finger = CannotBegin | WaitExpired | Match | Rejected | TimedOut

  datatype Command =
    | SetPin(channel: Channel, newPin: Option<bytes64>)
    | ChangePin(channel: Channel, pinHash: Option<bytes16>, newPin: Option<bytes64>)
    | PinToken(channel: Channel, plain: bool, pinHash: Option<bytes16>, permissions: Permissions, rpIdHash: Option<bytes32>)
    | UvToken(complete: bool, protocol: nat, ready: bool, keyPresent: bool, agreed: bool,
              finger: Finger, permissions: Permissions, rpIdHash: Option<bytes32>)
    | SetMinPin(present: bool, protocol: nat, macOk: bool, newMin: nat, force: Option<bool>, rpIdHashes: seq<bytes32>)
    | PowerCycle

  // A token handed to the platform.
  datatype Grant = Grant(value: bytes32, permissions: Permissions, rpIdHash: Option<bytes32>, persistent: bool)

  // What a command answers, with the observations the run properties speak of: whether a
  // PIN was compared with the stored one, whether it matched, and the token granted.
  datatype Outcome = Outcome(status: Status, compared: bool, accepted: bool, granted: Option<Grant>)

  function Refuse(code: Code): Outcome {
    Outcome(Err(code), false, false, None)
  }

  // ---------- pieces the commands share ----------

  // Bytes before the first zero byte; all of them when there is none.
  function PinLength(p: bytes): (n: nat)
    ensures n <= |p|
    ensures forall i :: 0 <= i < n ==> p[i] != 0
    ensures n < |p| ==> p[n] == 0
  {
    if p == [] || p[0] == 0 then 0 else 1 + PinLength(p[1..])
  }

  function PinHash(c: Crypto, p: bytes64): bytes16 {
    c.sha256(p[..PinLength(p)])[..16]
  }

  function MinPin(s: State): byte {
    if s.minPin == [] then 4 else s.minPin[0]
  }

  predicate ForcedChange(s: State) {
    |s.minPin| >= 2 && s.minPin[1] == 1
  }

  predicate Matches(c: Crypto, pin: bytes, h: bytes16) {
    if |pin| == 34 then c.doubleHash(h) == pin[2..] else |pin| == 35 && c.verifier(h) == pin[3..]
  }

  function PlainKeydev(c: Crypto, k: bytes32): bytes {
    [1] + c.wrap(k)
  }

  // The 32 bytes behind the format byte, read past the end of a shorter file.
  function KeydevBody(keydev: bytes, beyond: bytes32): bytes32
    requires keydev != []
  {
    (keydev[1..] + beyond)[..32]
  }

  // check_keydev_encrypted: a file whose first byte says "plain" is sealed under key.
  function SealKeydev(c: Crypto, keydev: bytes, key: bytes32, nonce: bytes, beyond: bytes32): bytes {
    if keydev != [] && keydev[0] == 1
    then [2] + c.seal(key, nonce, KeydevBody(keydev, beyond))
    else keydev
  }

  // load_keydev into a zeroed buffer; None is an error return. A file of any other size or
  // format leaves the buffer as it was and still reports success.
  function LoadKeydev(c: Crypto, keydev: bytes, session: bytes32): Option<bytes32> {
    if keydev == [] then None
    else if |keydev| == 32 then c.legacyOpen(session, keydev)
    else if (|keydev| == 33 || |keydev| == 61) && keydev[0] == 2 then
      match c.open(session, keydev[1..])
      case None => None
      case Some(w) => Some(c.unwrap(w))
    else if (|keydev| == 33 || |keydev| == 61) && keydev[0] == 1 then
      Some(c.unwrap(keydev[1..33]))
    else Some(Zeros32())
  }

  function ResetToken(t: Token, value: bytes32): Token {
    t.(value := value, permissions := {})
  }

  function OpenToken(t: Token, userIsPresent: bool, permissions: Permissions, rpIdHash: Option<bytes32>): Token {
    t.(inUse := true, userPresent := userIsPresent, userVerified := true, permissions := LowByte(permissions),
       hasRpId := rpIdHash.Some?, rpIdHash := if rpIdHash.Some? then rpIdHash.value else t.rpIdHash)
  }

  // The lazy initialize() that the first client-PIN command after power-up performs.
  function Awake(s: State, e: Entropy): State {
    if s.keyAgreement then s
    else s.(keyAgreement := true, token := ResetToken(s.token, e.initial))
  }

  // A wrong PIN, after the attempt has been paid for.
  function Mismatch(s: State): (State, Outcome)
    requires s.pin != []
  {
    if s.pin[0] == 0 then (s, Outcome(Err(PinBlocked), true, false, None))
    else
      var m := (s.mismatches + 1) % 256;
      if m >= 3 then (s.(mismatches := m, needsPowerCycle := true), Outcome(Err(PinAuthBlocked), true, false, None))
      else (s.(mismatches := m), Outcome(Err(PinInvalid), true, false, None))
  }

  // The device key of a 34-byte PIN file is brought to the plain format; a 35-byte file
  // leaves it alone. None when the key cannot be loaded.
  function UpgradedKeydev(c: Crypto, s: State, h: bytes16): Option<bytes> {
    if |s.pin| != 34 then Some(s.keydev)
    else
      match LoadKeydev(c, s.keydev, c.hashMulti(h))
      case None => None
      case Some(k) => Some(PlainKeydev(c, k))
  }

  // The PIN file once h was accepted: 35 bytes, all attempts restored.
  function RestoredPin(c: Crypto, pin: bytes, h: bytes16): (r: bytes)
    requires PinSet(pin)
    ensures |r| == 35 && r[0] == MAX_PIN_RETRIES && r[1] == pin[1]
    ensures Matches(c, pin, h) ==> r[3..] == c.verifier(h)
  {
    if |pin| == 34 then [MAX_PIN_RETRIES, pin[1], 1] + c.verifier(h) else pin[0 := MAX_PIN_RETRIES]
  }

  // The right PIN h, its attempt already paid for: upgrade, new session key, device key
  // sealed under it, attempts restored. The flag is false when the upgrade failed.
  function Unlock(c: Crypto, s: State, h: bytes16, e: Entropy): (State, bool)
    requires PinSet(s.pin)
  {
    match UpgradedKeydev(c, s, h)
    case None => (s.(session := c.hashMulti(h)), false)
    case Some(f) =>
      (s.(session := c.sessionKey(h), pin := RestoredPin(c, s.pin, h), mismatches := 0,
          keydev := SealKeydev(c, f, c.sessionKey(h), e.nonce, e.beyond)), true)
  }

  function Spend(s: State): State
    requires s.pin != [] && s.pin[0] > 0
  {
    s.(pin := s.pin[0 := s.pin[0] - 1])
  }

  // Pay for an attempt, compare, unlock: the part changePIN and getPinToken have in common.
  // An outcome ends the command; None means the PIN was right and the state is unlocked.
  function TryPin(c: Crypto, s: State, pinHash: Option<bytes16>, e: Entropy): (State, Option<Outcome>)
    requires PinSet(s.pin) && s.pin[0] > 0
  {
    if pinHash.None? then (Spend(s), Some(Refuse(PinAuthInvalid)))
    else if !Matches(c, s.pin, pinHash.value) then
      var (t, out) := Mismatch(Spend(s));
      (t, Some(out))
    else
      var (t, ok) := Unlock(c, Spend(s), pinHash.value, e);
      (t, if ok then None else Some(Outcome(Err(PinInvalid), true, true, None)))
  }

  // ---------- setPIN ----------

  function SetPinStep(c: Crypto, s0: State, ch: Channel, newPin: Option<bytes64>, e: Entropy): (State, Outcome) {
    var s := Awake(s0, e);
    if !ch.complete || ch.protocol == 0 then (s, Refuse(MissingParameter))
    else if ch.protocol != 1 && ch.protocol != 2 then (s, Refuse(InvalidParameter))
    else if s.pin != [] then (s, Refuse(NotAllowed))
    else if !ch.lengthsOk || !ch.agreed then (s, Refuse(InvalidParameter))
    else if !ch.macOk || newPin.None? then (s, Refuse(PinAuthInvalid))
    else if newPin.value[63] != 0 || PinLength(newPin.value) < MinPin(s) then (s, Refuse(PinPolicyViolation))
    else
      var h := PinHash(c, newPin.value);
      (s.(pin := [MAX_PIN_RETRIES, PinLength(newPin.value), 1] + c.verifier(h),
          session := c.sessionKey(h),
          keydev := SealKeydev(c, s.keydev, c.sessionKey(h), e.nonce, e.beyond)),
       Outcome(Ok, false, false, None))
  }

  // ---------- changePIN ----------

  // The checks before an attempt is paid for, in order.
  function ChangePinRefusal(s: State, ch: Channel): Option<Code> {
    if !ch.complete || ch.protocol == 0 then Some(MissingParameter)
    else if ch.protocol != 1 && ch.protocol != 2 then Some(InvalidParameter)
    else if s.pin == [] then Some(PinNotSet)
    else if s.pin[0] == 0 then Some(PinBlocked)
    else if !ch.lengthsOk || !ch.agreed then Some(InvalidParameter)
    else if !ch.macOk then Some(PinAuthInvalid)
    else None
  }

  function ChangePinStep(c: Crypto, s0: State, ch: Channel, pinHash: Option<bytes16>, newPin: Option<bytes64>, e: Entropy)
    : (State, Outcome)
    requires WellFormed(s0)
  {
    var s := Awake(s0, e);
    var refusal := ChangePinRefusal(s, ch);
    if refusal.Some? then (s, Refuse(refusal.value))
    else
      var (t, end) := TryPin(c, s, pinHash, e);
      if end.Some? then (t, end.value) else ReplacePin(c, t, newPin, e)
  }

  // The second half of changePIN: the current PIN was right and ef_pin already says so.
  function ReplacePin(c: Crypto, s: State, newPin: Option<bytes64>, e: Entropy): (State, Outcome)
    requires |s.pin| == 35
  {
    if newPin.None? then (s, Outcome(Err(PinAuthInvalid), true, true, None))
    else if newPin.value[63] != 0 then (s, Outcome(Err(InvalidParameter), true, true, None))
    else if PinLength(newPin.value) < MinPin(s) then (s, Outcome(Err(PinPolicyViolation), true, true, None))
    else
      match LoadKeydev(c, s.keydev, s.session)
      case None => (s, Outcome(Err(PinInvalid), true, true, None))
      case Some(k) => StorePin(c, s, k, PinLength(newPin.value), PinHash(c, newPin.value), e)
  }

  // The new PIN is acceptable and the device key k loaded: seal k for the new PIN, refuse a
  // forced change to the current PIN, then exchange the PIN and both tokens.
  function StorePin(c: Crypto, s: State, k: bytes32, n: byte, h: bytes16, e: Entropy): (State, Outcome)
    requires |s.pin| == 35
  {
    var s1 := s.(session := c.sessionKey(h),
                 keydev := SealKeydev(c, PlainKeydev(c, k), c.sessionKey(h), e.nonce', e.beyond));
    if ForcedChange(s) && c.verifier(h) == s.pin[3..] then (s1, Outcome(Err(PinPolicyViolation), true, true, None))
    else
      (s1.(pin := [MAX_PIN_RETRIES, n, 1] + c.verifier(h),
           minPin := if ForcedChange(s) then s.minPin[1 := 0] else s.minPin,
           token := ResetToken(s.token, e.token),
           persistentValue := e.persistent,
           persistentPermissions := {}),
       Outcome(Ok, true, true, None))
  }

  // ---------- getPinToken and getPinUvAuthTokenUsingPinWithPermissions ----------

  // The checks before an attempt is paid for, in order; plain is subcommand 5.
  function PinTokenRefusal(s: State, ch: Channel, plain: bool, permissions: Permissions, rpIdHash: Option<bytes32>): Option<Code> {
    if !ch.complete || ch.protocol == 0 then Some(MissingParameter)
    else if ch.protocol != 1 && ch.protocol != 2 then Some(InvalidParameter)
    else if plain && (permissions != {} || rpIdHash.Some?) then Some(InvalidParameter)
    else if !plain && permissions == {} then Some(InvalidParameter)
    else if !plain && PCMR in permissions && permissions != {PCMR}
    then Some(UnauthorizedPermission)
    else if s.pin == [] then Some(PinNotSet)
    else if s.pin[0] == 0 then Some(PinBlocked)
    else if !ch.agreed then Some(InvalidParameter)
    else None
  }

  function PinTokenStep(c: Crypto, s0: State, ch: Channel, plain: bool, pinHash: Option<bytes16>,
                        permissions: Permissions, rpIdHash: Option<bytes32>, e: Entropy): (State, Outcome)
    requires WellFormed(s0)
  {
    var s := Awake(s0, e);
    var refusal := PinTokenRefusal(s, ch, plain, permissions, rpIdHash);
    if refusal.Some? then (s, Refuse(refusal.value))
    else
      var (t, end) := TryPin(c, s, pinHash, e);
      if end.Some? then (t, end.value) else IssueToken(t, plain, permissions, rpIdHash, e)
  }

  // The second half of getPinToken: the PIN was right.
  function IssueToken(s: State, plain: bool, permissions: Permissions, rpIdHash: Option<bytes32>, e: Entropy): (State, Outcome) {
    if ForcedChange(s) then (s, Outcome(Err(PinInvalid), true, true, None))
    else if PCMR in permissions then
      (s.(persistentPermissions := {PCMR}),
       Outcome(Ok, true, true, Some(Grant(s.persistentValue, {PCMR}, None, true))))
    else
      var p := if plain then {MC, GA} else permissions;
      (s.(token := OpenToken(ResetToken(s.token, e.token), false, p, rpIdHash)),
       Outcome(Ok, true, true, Some(Grant(e.token, LowByte(p), rpIdHash, false))))
  }

  // ---------- getPinUvAuthTokenUsingUvWithPermissions ----------

  // The protocol number is narrowed to a byte after the check that it is present.
  function UvTokenStep(s0: State, complete: bool, protocol: nat, ready: bool, keyPresent: bool, agreed: bool,
                       finger: Finger, permissions: Permissions, rpIdHash: Option<bytes32>, e: Entropy): (State, Outcome)
  {
    var s := Awake(s0, e);
    if !complete || protocol == 0 then (s, Refuse(MissingParameter))
    else if !ready then (s, Refuse(UnsupportedOption))
    else if s.uvRetries == 0 then (s, Refuse(UvBlocked))
    else if protocol % 256 != 1 && protocol % 256 != 2 then (s, Refuse(InvalidParameter))
    else if !keyPresent then (s, Refuse(MissingParameter))
    else if permissions == {} then (s, Refuse(InvalidParameter))
    else if PCMR in permissions && permissions != {PCMR} then (s, Refuse(UnauthorizedPermission))
    else if !agreed then (s, Refuse(InvalidParameter))
    else
      match finger
      case CannotBegin => (s, Refuse(UvInvalid))
      case WaitExpired => (s, Refuse(UserActionTimeout))
      case TimedOut => (s.(uvRetries := s.uvRetries - 1), Refuse(UserActionTimeout))
      case Rejected =>
        (s.(uvRetries := s.uvRetries - 1), Refuse(if s.uvRetries == 1 then UvBlocked else UvInvalid))
      case Match =>
        (s.(uvRetries := MAX_UV_RETRIES,
            token := OpenToken(ResetToken(s.token, e.token), true, permissions, rpIdHash)),
         Outcome(Ok, false, false, Some(Grant(e.token, LowByte(permissions), rpIdHash, false))))
  }

  // ---------- authenticatorConfig, subcommand setMinPINLength ----------

  function Flatten(hs: seq<bytes32>): bytes {
    if hs == [] then [] else hs[0] + Flatten(hs[1..])
  }

  // The checks before anything is written, in order.
  function SetMinPinRefusal(s: State, present: bool, protocol: nat, macOk: bool, newMin: nat, force: Option<bool>): Option<Code> {
    if !present then Some(PuatRequired)
    else if protocol == 0 then Some(MissingParameter)
    else if protocol != 1 && protocol != 2 then Some(InvalidParameter)
    else if !macOk || ACFG !in s.token.permissions then Some(PinAuthInvalid)
    else if 0 < newMin < MinPin(s) then Some(PinPolicyViolation)
    else if force == Some(true) && s.pin == [] then Some(PinNotSet)
    else None
  }

  function SetMinPinStep(s: State, present: bool, protocol: nat, macOk: bool, newMin: nat, force: Option<bool>,
                         rpIdHashes: seq<bytes32>, e: Entropy): (State, Outcome)
    requires WellFormed(s)
  {
    var refusal := SetMinPinRefusal(s, present, protocol, macOk, newMin, force);
    if refusal.Some? then (s, Refuse(refusal.value))
    else (StoreMinPin(s, if newMin == 0 then MinPin(s) else newMin, force, rpIdHashes, e), Outcome(Ok, false, false, None))
  }

  // A PIN shorter than the new minimum has to be changed; a request that says anything about
  // forcing a change, or has to, also takes both tokens away.
  function StoreMinPin(s: State, m: nat, force: Option<bool>, rpIdHashes: seq<bytes32>, e: Entropy): State
    requires WellFormed(s)
  {
    var f := if s.pin != [] && s.pin[1] < m then Some(true) else force;
    var s1 := if f.None? then s
              else s.(persistentValue := e.persistent, persistentPermissions := {}, token := ResetToken(s.token, e.token));
    s1.(minPin := [m % 256, if f == Some(true) then 1 else 0] + Flatten(rpIdHashes))
  }

  // ---------- power ----------

  function PowerCycleStep(s: State): State {
    s.(session := Zeros32(), mismatches := 0, needsPowerCycle := false, keyAgreement := false,
       token := Token(s.token.value, false, {}, Zeros32(), false, false, false),
       persistentPermissions := {}, uvRetries := MAX_UV_RETRIES)
  }

  // ---------- one command, and runs of commands ----------

  function Step(c: Crypto, s: State, cmd: Command, e: Entropy): (State, Outcome)
    requires WellFormed(s)
  {
    match cmd
    case SetPin(ch, p) => SetPinStep(c, s, ch, p, e)
    case ChangePin(ch, h, p) => ChangePinStep(c, s, ch, h, p, e)
    case PinToken(ch, plain, h, perms, rp) => PinTokenStep(c, s, ch, plain, h, perms, rp, e)
    case UvToken(full, proto, ready, key, agreed, finger, perms, rp) =>
      UvTokenStep(s, full, proto, ready, key, agreed, finger, perms, rp, e)
    case SetMinPin(present, proto, macOk, newMin, force, rps) => SetMinPinStep(s, present, proto, macOk, newMin, force, rps, e)
    case PowerCycle => (PowerCycleStep(s), Outcome(Ok, false, false, None))
  }

  lemma ReplacePinWellFormed(c: Crypto, s: State, newPin: Option<bytes64>, e: Entropy)
    requires WellFormed(s) && |s.pin| == 35
    ensures WellFormed(ReplacePin(c, s, newPin, e).0)
  {
  }

  lemma TryPinWellFormed(c: Crypto, s: State, h: Option<bytes16>, e: Entropy)
    requires WellFormed(s) && PinSet(s.pin) && s.pin[0] > 0
    ensures var (t, end) := TryPin(c, s, h, e); WellFormed(t) && t.minPin == s.minPin && (end.None? ==> |t.pin| == 35)
  {
  }

  lemma ChangePinWellFormed(c: Crypto, s: State, ch: Channel, h: Option<bytes16>, p: Option<bytes64>, e: Entropy)
    requires WellFormed(s)
    ensures WellFormed(ChangePinStep(c, s, ch, h, p, e).0)
  {
    var a := Awake(s, e);
    if ChangePinRefusal(a, ch).None? {
      TryPinWellFormed(c, a, h, e);
      var (t, end) := TryPin(c, a, h, e);
      if end.None? {
        ReplacePinWellFormed(c, t, p, e);
      }
    }
  }

  // Issuing a token writes no file the PIN or the device key is in.
  lemma IssueTokenKeepsFiles(s: State, plain: bool, permissions: Permissions, rpIdHash: Option<bytes32>, e: Entropy)
    ensures var (t, out) := IssueToken(s, plain, permissions, rpIdHash, e);
            && t.pin == s.pin && t.keydev == s.keydev && t.minPin == s.minPin && t.session == s.session
            && t.mismatches == s.mismatches && out.accepted && out.compared
  {
  }

  lemma PinTokenWellFormed(c: Crypto, s: State, ch: Channel, plain: bool, h: Option<bytes16>,
                           perms: Permissions, rp: Option<bytes32>, e: Entropy)
    requires WellFormed(s)
    ensures WellFormed(PinTokenStep(c, s, ch, plain, h, perms, rp, e).0)
  {
    var a := Awake(s, e);
    if PinTokenRefusal(a, ch, plain, perms, rp).None? {
      TryPinWellFormed(c, a, h, e);
      IssueTokenKeepsFiles(TryPin(c, a, h, e).0, plain, perms, rp, e);
    }
  }

  // Fingerprint tokens, configuration and power leave the PIN, the attempts spent and the
  // device key alone.
  lemma OtherCommandsKeepFiles(c: Crypto, s: State, cmd: Command, e: Entropy)
    requires WellFormed(s) && (cmd.UvToken? || cmd.SetMinPin? || cmd.PowerCycle?)
    ensures var (t, out) := Step(c, s, cmd, e);
            && t.pin == s.pin && t.keydev == s.keydev && WellFormed(t)
            && !out.compared && !out.accepted
            && (t.mismatches == s.mismatches || (cmd.PowerCycle? && t.mismatches == 0))
  {
  }

  lemma StepWellFormed(c: Crypto, s: State, cmd: Command, e: Entropy)
    requires WellFormed(s)
    ensures WellFormed(Step(c, s, cmd, e).0)
  {
    match cmd
    case ChangePin(ch, h, p) => ChangePinWellFormed(c, s, ch, h, p, e);
    case PinToken(ch, plain, h, perms, rp) => PinTokenWellFormed(c, s, ch, plain, h, perms, rp, e);
    case SetPin(_, _) =>
    case _ => OtherCommandsKeepFiles(c, s, cmd, e);
  }

  type Input = (Command, Entropy)

  // The state after a run of commands, the last command being the most recent.
  function Run(c: Crypto, s: State, ins: seq<Input>): (r: State)
    requires WellFormed(s)
    ensures WellFormed(r)
  {
    if ins == [] then s
    else
      var before := Run(c, s, ins[..|ins| - 1]);
      var last := ins[|ins| - 1];
      StepWellFormed(c, before, last.0, last.1);
      Step(c, before, last.0, last.1).0
  }

  lemma RunStep(c: Crypto, s: State, ins: seq<Input>, k: nat)
    requires WellFormed(s) && k < |ins|
    ensures Run(c, s, ins[..k + 1]) == Step(c, Run(c, s, ins[..k]), ins[k].0, ins[k].1).0
  {
    assert ins[..k + 1][..k] == ins[..k];
  }

  // What the k-th command of a run answered.
  function Answer(c: Crypto, s: State, ins: seq<Input>, k: nat): Outcome
    requires WellFormed(s) && k < |ins|
  {
    Step(c, Run(c, s, ins[..k]), ins[k].0, ins[k].1).1
  }
}
