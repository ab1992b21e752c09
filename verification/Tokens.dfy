// Which assertions may carry the user-verified flag: the PIN/UV auth token as
// getAssertion and makeCredential consume it (CTAP 2.1 sections 6.1, 6.2 and 6.3), and the
// histories in which that flag appears.
module Tokens {
  import opened Basics
  import opened ClientPin

  // verify(): the first 16 or 32 bytes of the MAC.
  predicate MacAccepts(c: Crypto, protocol: nat, key: bytes32, data: bytes, sign: bytes) {
    var n := if protocol == 1 then 16 else 32;
    (protocol == 1 || protocol == 2) && |sign| >= n && sign[..n] == c.mac(key, data)[..n]
  }

  // The parts of a getAssertion request the token logic looks at, with what the credential
  // search found (with and without the UV flag), the user-presence check answered and
  // signing made of it.
  datatype AssertionRequest = AssertionRequest(
    rpIdHash: bytes32,
    clientDataHash: bytes,
    param: Option<bytes>,
    protocol: nat,
    options: bool,
    up: Option<bool>,
    uv: Option<bool>,
    rk: Option<bool>,
    extensionsOk: bool,
    found: nat,
    foundVerified: nat,
    single: bool,
    silent: bool,
    present: bool,
    blobKeyRefused: bool,
    signed: bool,
    now: nat)

  datatype Event =
    | Pin(cmd: Command, e: Entropy)
    | MakeCredential(rpIdHash: bytes32, clientDataHash: bytes, param: Option<bytes>, protocol: nat, wellFormed: bool)
    | GetAssertion(r: AssertionRequest)
    | GetNextAssertion(now: nat, signed: bool)

  // The list a getAssertion leaves for getNextAssertion: its flags, the RP of the request
  // kept with it, its size and cursor.
  datatype Pending = Pending(up: bool, uv: bool, rpIdHash: bytes32, total: nat, counter: nat, timer: nat)

  function NothingPending(): Pending { Pending(false, false, Zeros32(), 0, 1, 0) }

  function ClearedPending(): Pending { Pending(false, false, Zeros32(), 0, 0, 0) }

  datatype System = System(s: State, pending: Pending)

  // An assertion carries its flags and RP in the authenticator data.
  datatype Reply = Silent | Assertion(up: bool, uv: bool, first: bool, rpIdHash: bytes32) | Refused(code: Code)

  // A getAssertion that passed the token checks, and the token value it was checked under.
  datatype Opening = Opening(value: bytes32, rpIdHash: bytes32)

  // What an event was seen to do: the token it granted, the opening it was, the RP a
  // makeCredential used the token for, whether it left a list, its reply.
  datatype Seen = Seen(grant: Option<Grant>, opening: Option<Opening>, bound: Option<bytes32>, listed: bool, reply: Reply)

  function Quiet(reply: Reply): Seen { Seen(None, None, None, false, reply) }

  // getUserVerifiedFlagValue: reading the flag of an unused token drops it.
  function ReadVerified(t: Token): Token {
    t.(userVerified := t.inUse && t.userVerified)
  }

  // The checks of the token against a MAC over the client data, for one permission.
  predicate TokenAccepted(c: Crypto, t: Token, permission: nat, protocol: nat, clientDataHash: bytes, param: bytes, rpIdHash: bytes32) {
    && MacAccepts(c, protocol, t.value, clientDataHash, param)
    && t.inUse && t.userVerified
    && permission in t.permissions
    && (t.hasRpId ==> t.rpIdHash == rpIdHash)
  }

  // The refusals before the token is looked at.
  function EarlyRefusal(s: State, r: AssertionRequest): Option<Code> {
    if r.param == Some([]) then
      Some(if !r.present then OperationDenied else if s.pin == [] then PinNotSet else PinAuthInvalid)
    else if r.param.Some? && r.protocol == 0 then Some(MissingParameter)
    else if r.param.Some? && r.protocol != 1 && r.protocol != 2 then Some(InvalidParameter)
    else if r.options && r.uv == Some(true) then Some(InvalidOption)
    else if r.options && r.rk.Some? then Some(UnsupportedOption)
    else None
  }

  // Steps 1 to 7 of getAssertion: None lets the request pass.
  function AssertionRefusal(c: Crypto, s: State, r: AssertionRequest): Option<Code> {
    var early := EarlyRefusal(s, r);
    if early.Some? then early
    else if r.param.Some? && !TokenAccepted(c, s.token, GA, r.protocol, r.clientDataHash, r.param.value, r.rpIdHash)
    then Some(PinAuthInvalid)
    else if !r.extensionsOk then Some(MissingParameter)
    else if (if r.param.Some? then r.foundVerified else r.found) == 0 then Some(NoCredentials)
    else None
  }

  // The flags are read once the MAC has been accepted.
  function TokenChecked(c: Crypto, s: State, r: AssertionRequest): Token {
    if EarlyRefusal(s, r).None? && r.param.Some?
       && MacAccepts(c, r.protocol, s.token.value, r.clientDataHash, r.param.value)
    then ReadVerified(s.token) else s.token
  }

  // Step 9: user presence, which uses the token up except for large-blob writes.
  function UseUp(t: Token): Token {
    if t.inUse then t.(userPresent := false, userVerified := false, permissions := {LBW}) else t
  }

  predicate WantsPresence(r: AssertionRequest) {
    !r.options || r.up != Some(false)
  }

  predicate PresenceGiven(t: Token, r: AssertionRequest) {
    r.present || (r.param.Some? && t.inUse && t.userPresent)
  }

  function AssertionStep(c: Crypto, y: System, r: AssertionRequest): (System, Seen) {
    var refusal := AssertionRefusal(c, y.s, r);
    var verified := r.param.Some?;
    var s0 := y.s.(token := TokenChecked(c, y.s, r));
    if refusal.Some? then (y.(s := s0), Quiet(Refused(refusal.value)))
    else
      var opening := if verified then Some(Opening(y.s.token.value, r.rpIdHash)) else None;
      if WantsPresence(r) && !PresenceGiven(s0.token, r)
      then (y.(s := s0), Seen(None, opening, None, false, Refused(OperationDenied)))
      else
        var s1 := if WantsPresence(r) then s0.(token := UseUp(s0.token)) else s0;
        if r.blobKeyRefused then (y.(s := s1), Seen(None, opening, None, false, Refused(InvalidOption)))
        else
          var n := if r.single then 1 else if verified then r.foundVerified else r.found;
          var listed := !r.silent && n > 1;
          (System(s1, if listed then Pending(WantsPresence(r), verified, r.rpIdHash, n, 1, r.now) else y.pending),
           Seen(None, opening, None, listed,
                if r.signed then Assertion(WantsPresence(r), verified, true, r.rpIdHash) else Refused(Other)))
  }

  // More than 30 seconds since timer, in the 32-bit arithmetic of the millisecond clock.
  predicate Expired(timer: nat, now: nat) {
    (timer + 30000) % 0x1_0000_0000 < now
  }

  function NextStep(y: System, now: nat, signed: bool): (System, Seen) {
    var p := y.pending;
    var cleared := y.(pending := ClearedPending());
    if p.counter >= p.total || Expired(p.timer, now) then (cleared, Quiet(Refused(NotAllowed)))
    else if !signed then (cleared, Quiet(Refused(Other)))
    else
      (if p.counter + 1 == p.total then cleared else y.(pending := p.(counter := p.counter + 1, timer := now)),
       Quiet(Assertion(p.up, p.uv, false, p.rpIdHash)))
  }

  // The token part of makeCredential: the check, and binding an unbound token to the RP. The
  // branch that would use the token up tests an option that has been refused before.
  function MakeStep(c: Crypto, y: System, rpIdHash: bytes32, clientDataHash: bytes, param: Option<bytes>,
                    protocol: nat, wellFormed: bool): (System, Seen)
  {
    if !wellFormed then (y, Quiet(Refused(Other)))
    else if param.None? then (y, Quiet(Silent))
    else
      var t := if MacAccepts(c, protocol, y.s.token.value, clientDataHash, param.value)
                  && MC in y.s.token.permissions && (y.s.token.hasRpId ==> y.s.token.rpIdHash == rpIdHash)
               then ReadVerified(y.s.token) else y.s.token;
      if !TokenAccepted(c, y.s.token, MC, protocol, clientDataHash, param.value, rpIdHash)
      then (y.(s := y.s.(token := t)), Quiet(Refused(PinAuthInvalid)))
      else (y.(s := y.s.(token := if t.hasRpId then t else t.(hasRpId := true, rpIdHash := rpIdHash))),
            Seen(None, None, Some(rpIdHash), false, Silent))
  }

  function PinStep(c: Crypto, y: System, cmd: Command, e: Entropy): (System, Seen)
    requires WellFormed(y.s)
  {
    var (s1, out) := Step(c, y.s, cmd, e);
    (System(s1, if cmd.PowerCycle? then NothingPending() else y.pending), Seen(out.granted, None, None, false, Silent))
  }

  function SystemStep(c: Crypto, y: System, ev: Event): (System, Seen)
    requires WellFormed(y.s)
  {
    match ev
    case Pin(cmd, e) => PinStep(c, y, cmd, e)
    case MakeCredential(rp, data, param, protocol, ok) => MakeStep(c, y, rp, data, param, protocol, ok)
    case GetAssertion(r) => AssertionStep(c, y, r)
    case GetNextAssertion(now, signed) => NextStep(y, now, signed)
  }

  // ---------- what a grant is good for ----------

  // A token just granted is accepted for exactly the permissions and the RP it was granted
  // for, and only under its own value.
  lemma GrantedTokenAccepts(c: Crypto, t: Token, value: bytes32, present: bool, perms: Permissions, rp: Option<bytes32>,
                            permission: nat, protocol: nat, data: bytes, sign: bytes, rpIdHash: bytes32)
    ensures TokenAccepted(c, OpenToken(ResetToken(t, value), present, perms, rp), permission, protocol, data, sign, rpIdHash)
            <==> MacAccepts(c, protocol, value, data, sign) && permission in LowByte(perms)
                 && (rp.Some? ==> rp.value == rpIdHash)
  {
  }

  // makeCredential never uses its token up: what was accepted once is accepted again.
  lemma MakeCanRepeat(c: Crypto, y: System, rp: bytes32, data: bytes, param: Option<bytes>, protocol: nat)
    requires MakeStep(c, y, rp, data, param, protocol, true).1.bound.Some?
    ensures var (z, x) := MakeStep(c, y, rp, data, param, protocol, true);
            MakeStep(c, z, rp, data, param, protocol, true) == (z, x) && z.s.token.permissions == y.s.token.permissions
  {
  }

  // ---------- histories ----------

  lemma SystemStepWellFormed(c: Crypto, y: System, ev: Event)
    requires WellFormed(y.s)
    ensures WellFormed(SystemStep(c, y, ev).0.s)
  {
    if ev.Pin? {
      StepWellFormed(c, y.s, ev.cmd, ev.e);
    }
  }

  function After(c: Crypto, y: System, evs: seq<Event>): (r: System)
    requires WellFormed(y.s)
    ensures WellFormed(r.s)
  {
    if evs == [] then y
    else
      var before := After(c, y, evs[..|evs| - 1]);
      SystemStepWellFormed(c, before, evs[|evs| - 1]);
      SystemStep(c, before, evs[|evs| - 1]).0
  }

  // What event k of a run was seen to do.
  function SeenAt(c: Crypto, y: System, evs: seq<Event>, k: nat): Seen
    requires WellFormed(y.s) && k < |evs|
  {
    SystemStep(c, After(c, y, evs[..k]), evs[k]).1
  }

  function History(c: Crypto, y: System, evs: seq<Event>): (h: seq<Seen>)
    requires WellFormed(y.s)
    ensures |h| == |evs|
  {
    seq(|evs|, k requires 0 <= k < |evs| => SeenAt(c, y, evs, k))
  }

  lemma SeenInPrefix(c: Crypto, y: System, evs: seq<Event>, n: nat)
    requires WellFormed(y.s) && n <= |evs|
    ensures forall k :: 0 <= k < n ==> SeenAt(c, y, evs[..n], k) == SeenAt(c, y, evs, k)
  {
    assert forall k :: 0 <= k < n ==> evs[..n][..k] == evs[..k];
  }

  lemma PrefixAgrees(c: Crypto, y: System, evs: seq<Event>, n: nat)
    requires WellFormed(y.s) && n <= |evs|
    ensures History(c, y, evs[..n]) == History(c, y, evs)[..n]
  {
    SeenInPrefix(c, y, evs, n);
  }

  lemma HistoryOfPrefix(c: Crypto, y: System, evs: seq<Event>, n: nat)
    requires WellFormed(y.s) && n < |evs|
    ensures History(c, y, evs[..n]) == History(c, y, evs)[..n]
    ensures History(c, y, evs)[n] == SystemStep(c, After(c, y, evs[..n]), evs[n]).1
  {
    PrefixAgrees(c, y, evs, n);
  }

  lemma LastApart<T>(s: seq<T>)
    requires s != []
    ensures s == s[..|s| - 1] + [s[|s| - 1]]
  {
  }

  lemma HistoryGrows(c: Crypto, y: System, evs: seq<Event>)
    requires WellFormed(y.s) && evs != []
    ensures History(c, y, evs) == History(c, y, evs[..|evs| - 1]) + [History(c, y, evs)[|evs| - 1]]
  {
    PrefixAgrees(c, y, evs, |evs| - 1);
    LastApart(History(c, y, evs));
  }

  // A device that has just been powered up.
  predicate Fresh(y: System) {
    WellFormed(y.s) && y.s.token.permissions == {} && y.pending == NothingPending()
  }

  // A getAssertion response with both the user-present and the user-verified flag.
  predicate BothFlags(x: Seen) {
    x.reply.Assertion? && x.reply.first && x.reply.up && x.reply.uv
  }

  // A grant of the token that expires, and one that allows assertions.
  predicate Grants(x: Seen) {
    x.grant.Some? && !x.grant.value.persistent
  }

  predicate GrantsAssertion(x: Seen) {
    Grants(x) && GA in x.grant.value.permissions
  }

  // The command verified the user: the PIN it carried is the stored one, or a finger matched.
  predicate VerifiesUser(c: Crypto, s: State, cmd: Command) {
    match cmd
    case PinToken(_, _, h, _, _) => h.Some? && Matches(c, s.pin, h.value)
    case UvToken(_, _, _, _, _, finger, _, _) => finger.Match?
    case _ => false
  }

  lemma PinGrantNeedsPin(c: Crypto, s: State, ch: Channel, plain: bool, h: Option<bytes16>,
                         perms: Permissions, rp: Option<bytes32>, e: Entropy)
    requires WellFormed(s) && PinTokenStep(c, s, ch, plain, h, perms, rp, e).1.granted.Some?
    ensures h.Some? && Matches(c, s.pin, h.value)
  {
    var a := Awake(s, e);
    if PinTokenRefusal(a, ch, plain, perms, rp).None? { TryPinKeepsToken(c, a, h, e); }
  }

  // No command grants a token without having verified the user.
  lemma GrantNeedsUser(c: Crypto, s: State, cmd: Command, e: Entropy)
    requires WellFormed(s) && Step(c, s, cmd, e).1.granted.Some?
    ensures VerifiesUser(c, s, cmd)
  {
    match cmd
    case PinToken(ch, plain, h, perms, rp) => PinGrantNeedsPin(c, s, ch, plain, h, perms, rp, e);
    case ChangePin(ch, h, p) => ChangePinKept(c, s, ch, h, p, e);
    case _ =>
  }

  // After a grant, an event leaves a token good for assertions standing: no other grant, no
  // response with both flags, and a makeCredential only at the RP the token is bound to.
  predicate Keeps(x: Seen, t: Token) {
    && !Grants(x) && !BothFlags(x)
    && (x.bound.Some? ==> t.hasRpId && t.rpIdHash == x.bound.value)
  }

  predicate GrantOf(x: Seen, t: Token) {
    && GrantsAssertion(x) && x.grant.value.value == t.value
    && (x.grant.value.rpIdHash.Some? ==> t.hasRpId && t.rpIdHash == x.grant.value.rpIdHash.value)
  }

  // Event g granted the token t for assertions, and every event since has kept it standing.
  ghost predicate Stands(h: seq<Seen>, g: nat, t: Token) {
    g < |h| && GrantOf(h[g], t) && forall i | g < i < |h| :: Keeps(h[i], t)
  }

  ghost predicate Backed(h: seq<Seen>, t: Token) {
    GA in t.permissions ==> exists g: nat :: Stands(h, g, t)
  }

  predicate SameBinding(before: Token, after: Token) {
    before.hasRpId ==> after.hasRpId && after.rpIdHash == before.rpIdHash
  }

  // What one event does to the token: a grant of its own, a permission set without
  // assertions, or the same value, still bound as it was.
  predicate TokenKept(before: Token, after: Token, x: Seen) {
    || GrantOf(x, after)
    || GA !in after.permissions
    || (after.value == before.value && GA in before.permissions && Keeps(x, after) && SameBinding(before, after))
  }

  lemma ChangePinKept(c: Crypto, s: State, ch: Channel, h: Option<bytes16>, p: Option<bytes64>, e: Entropy)
    requires WellFormed(s)
    ensures var (t, out) := ChangePinStep(c, s, ch, h, p, e);
            out.granted.None? && (t.token.permissions == {} || t.token == s.token)
  {
    var a := Awake(s, e);
    if ChangePinRefusal(a, ch).None? {
      TryPinKeepsToken(c, a, h, e);
      var (t, end) := TryPin(c, a, h, e);
      if end.None? {
        TryPinWellFormed(c, a, h, e);
        ReplacePinKept(c, t, p, e);
      }
    }
  }

  lemma ReplacePinKept(c: Crypto, s: State, p: Option<bytes64>, e: Entropy)
    requires |s.pin| == 35
    ensures var (t, out) := ReplacePin(c, s, p, e);
            out.granted.None? && (t.token.permissions == {} || t.token == s.token)
  {
  }

  lemma IssueTokenKept(s: State, plain: bool, perms: Permissions, rp: Option<bytes32>, e: Entropy)
    ensures var (t, out) := IssueToken(s, plain, perms, rp, e);
            TokenKept(s.token, t.token, Seen(out.granted, None, None, false, Silent))
  {
  }

  lemma PinTokenKept(c: Crypto, s: State, ch: Channel, plain: bool, h: Option<bytes16>,
                     perms: Permissions, rp: Option<bytes32>, e: Entropy)
    requires WellFormed(s)
    ensures var (t, out) := PinTokenStep(c, s, ch, plain, h, perms, rp, e);
            TokenKept(s.token, t.token, Seen(out.granted, None, None, false, Silent))
  {
    var a := Awake(s, e);
    if PinTokenRefusal(a, ch, plain, perms, rp).None? {
      TryPinKeepsToken(c, a, h, e);
      IssueTokenKept(TryPin(c, a, h, e).0, plain, perms, rp, e);
    }
  }

  lemma CommandTokenKept(c: Crypto, s: State, cmd: Command, e: Entropy)
    requires WellFormed(s)
    ensures var (t, out) := Step(c, s, cmd, e);
            TokenKept(s.token, t.token, Seen(out.granted, None, None, false, Silent))
  {
    match cmd
    case ChangePin(ch, h, p) => ChangePinKept(c, s, ch, h, p, e);
    case PinToken(ch, plain, h, perms, rp) => PinTokenKept(c, s, ch, plain, h, perms, rp, e);
    case UvToken(_, _, _, _, _, _, _, _) => UvTokenKept(c, s, cmd, e);
    case SetPin(ch, p) => SetPinKept(c, s, ch, p, e);
    case SetMinPin(present, proto, macOk, newMin, force, rps) =>
      SetMinPinKept(s, present, proto, macOk, newMin, force, rps, e);
    case PowerCycle =>
  }

  lemma UvTokenKept(c: Crypto, s: State, cmd: Command, e: Entropy)
    requires WellFormed(s) && cmd.UvToken?
    ensures var (t, out) := Step(c, s, cmd, e);
            TokenKept(s.token, t.token, Seen(out.granted, None, None, false, Silent))
  {
  }

  lemma SetPinKept(c: Crypto, s: State, ch: Channel, p: Option<bytes64>, e: Entropy)
    ensures var (t, out) := SetPinStep(c, s, ch, p, e);
            out.granted.None? && (t.token.permissions == {} || t.token == s.token)
  {
  }

  lemma SetMinPinKept(s: State, present: bool, protocol: nat, macOk: bool, newMin: nat, force: Option<bool>,
                      rpIdHashes: seq<bytes32>, e: Entropy)
    requires WellFormed(s)
    ensures var (t, out) := SetMinPinStep(s, present, protocol, macOk, newMin, force, rpIdHashes, e);
            out.granted.None? && (t.token.permissions == {} || t.token == s.token)
  {
  }

  lemma TryPinKeepsToken(c: Crypto, s: State, h: Option<bytes16>, e: Entropy)
    requires PinSet(s.pin) && s.pin[0] > 0
    ensures var (t, end) := TryPin(c, s, h, e);
            && t.token == s.token && (end.Some? ==> end.value.granted.None?)
            && (end.None? ==> h.Some? && Matches(c, s.pin, h.value))
  {
  }

  lemma AssertionTokenKept(c: Crypto, y: System, r: AssertionRequest)
    ensures var (z, x) := AssertionStep(c, y, r); TokenKept(y.s.token, z.s.token, x)
  {
  }

  lemma MakeTokenKept(c: Crypto, y: System, rp: bytes32, data: bytes, param: Option<bytes>, protocol: nat, ok: bool)
    ensures var (z, x) := MakeStep(c, y, rp, data, param, protocol, ok); TokenKept(y.s.token, z.s.token, x)
  {
  }

  lemma EventTokenKept(c: Crypto, y: System, ev: Event)
    requires WellFormed(y.s)
    ensures var (z, x) := SystemStep(c, y, ev); TokenKept(y.s.token, z.s.token, x)
  {
    match ev
    case Pin(cmd, e) => CommandTokenKept(c, y.s, cmd, e);
    case MakeCredential(rp, data, param, protocol, ok) => MakeTokenKept(c, y, rp, data, param, protocol, ok);
    case GetAssertion(r) => AssertionTokenKept(c, y, r);
    case GetNextAssertion(_, _) =>
  }

  lemma KeptIsBacked(h: seq<Seen>, x: Seen, before: Token, after: Token)
    requires Backed(h, before) && TokenKept(before, after, x)
    ensures Backed(h + [x], after)
  {
    if GA in after.permissions {
      if GrantOf(x, after) {
        assert Stands(h + [x], |h|, after);
      } else {
        var g: nat :| Stands(h, g, before);
        assert Stands(h + [x], g, after);
      }
    }
  }

  // A token that allows assertions was granted by an event of the run, the last one that
  // granted any, and has not yet produced a response with both flags.
  lemma {:induction false} PermissionIsBacked(c: Crypto, y: System, evs: seq<Event>)
    requires Fresh(y)
    ensures Backed(History(c, y, evs), After(c, y, evs).s.token)
  {
    if evs != [] {
      var n := |evs| - 1;
      var before := After(c, y, evs[..n]);
      var (after, x) := SystemStep(c, before, evs[n]);
      PermissionIsBacked(c, y, evs[..n]);
      EventTokenKept(c, before, evs[n]);
      HistoryGrows(c, y, evs);
      HistoryOfPrefix(c, y, evs, n);
      KeptIsBacked(History(c, y, evs[..n]), x, before.s.token, after.s.token);
    }
  }

  // Event g verified the user and was given a token for assertions.
  ghost predicate UserGrant(c: Crypto, y: System, evs: seq<Event>, g: nat)
    requires WellFormed(y.s) && g < |evs|
  {
    evs[g].Pin? && VerifiesUser(c, After(c, y, evs[..g]).s, evs[g].cmd) && GrantsAssertion(History(c, y, evs)[g])
  }

  lemma GrantIsUserGrant(c: Crypto, y: System, evs: seq<Event>, g: nat)
    requires WellFormed(y.s) && g < |evs| && GrantsAssertion(History(c, y, evs)[g])
    ensures UserGrant(c, y, evs, g)
  {
    HistoryOfPrefix(c, y, evs, g);
    var before := After(c, y, evs[..g]);
    GrantIsPin(c, before, evs[g]);
    GrantNeedsUser(c, before.s, evs[g].cmd, evs[g].e);
  }

  lemma GrantIsPin(c: Crypto, y: System, ev: Event)
    requires WellFormed(y.s) && SystemStep(c, y, ev).1.grant.Some?
    ensures ev.Pin? && Step(c, y.s, ev.cmd, ev.e).1.granted.Some?
  {
  }

  // Event m is no grant and no response with both flags, and if it is an accepted
  // makeCredential it is one of rp.
  predicate StaysWith(x: Seen, rp: bytes32) {
    !Grants(x) && !BothFlags(x) && (x.bound.Some? ==> x.bound.value == rp)
  }

  // Event o is a getAssertion whose MAC was made with the token value that the earlier event
  // g granted for assertions after verifying the user; the RP is the one of the grant if it
  // named one, and the one of every makeCredential that used the token since.
  ghost predicate OpenedUnderGrant(c: Crypto, y: System, evs: seq<Event>, o: nat, g: nat)
    requires WellFormed(y.s)
  {
    && g < o < |evs|
    && UserGrant(c, y, evs, g)
    && evs[o].GetAssertion? && evs[o].r.param.Some? && History(c, y, evs)[o].opening.Some?
    && var grant := History(c, y, evs)[g].grant.value;
    && MacAccepts(c, evs[o].r.protocol, grant.value, evs[o].r.clientDataHash, evs[o].r.param.value)
    && (grant.rpIdHash.Some? ==> grant.rpIdHash.value == evs[o].r.rpIdHash)
    && forall m | g < m < o :: StaysWith(History(c, y, evs)[m], evs[o].r.rpIdHash)
  }

  // An opening is a getAssertion whose token was accepted.
  lemma OpeningMeans(c: Crypto, y: System, ev: Event)
    requires WellFormed(y.s) && SystemStep(c, y, ev).1.opening.Some?
    ensures ev.GetAssertion? && ev.r.param.Some?
    ensures SystemStep(c, y, ev).1.opening == Some(Opening(y.s.token.value, ev.r.rpIdHash))
    ensures TokenAccepted(c, y.s.token, GA, ev.r.protocol, ev.r.clientDataHash, ev.r.param.value, ev.r.rpIdHash)
  {
  }

  lemma StandingAt(h: seq<Seen>, g: nat, t: Token, rp: bytes32)
    requires Stands(h, g, t) && (t.hasRpId ==> t.rpIdHash == rp)
    ensures forall m | g < m < |h| :: StaysWith(h[m], rp)
  {
  }

  lemma OpeningIsBacked(c: Crypto, y: System, evs: seq<Event>, o: nat)
    requires Fresh(y) && o < |evs|
    ensures History(c, y, evs)[o].opening.Some? ==> exists g: nat :: OpenedUnderGrant(c, y, evs, o, g)
  {
    var h, t := History(c, y, evs), After(c, y, evs[..o]).s.token;
    HistoryOfPrefix(c, y, evs, o);
    if h[o].opening.Some? {
      PermissionIsBacked(c, y, evs[..o]);
      OpeningMeans(c, After(c, y, evs[..o]), evs[o]);
      var g: nat :| Stands(h[..o], g, t);
      StandingAt(h[..o], g, t, evs[o].r.rpIdHash);
      assert forall m | g <= m < o :: h[..o][m] == h[m];
      GrantIsUserGrant(c, y, evs, g);
      assert OpenedUnderGrant(c, y, evs, o, g);
    }
  }

  // ---------- where an assertion comes from ----------

  predicate Active(p: Pending) { p.counter < p.total }

  predicate SameList(p: Pending, q: Pending) {
    p.up == q.up && p.uv == q.uv && p.rpIdHash == q.rpIdHash
  }

  // The list p has the flags and the RP of the getAssertion r, which was seen as x.
  predicate ListOf(p: Pending, r: AssertionRequest, x: Seen) {
    p.up == WantsPresence(r) && p.uv == x.opening.Some? && p.rpIdHash == r.rpIdHash
  }

  lemma ListStep(c: Crypto, y: System, ev: Event)
    requires WellFormed(y.s)
    ensures var (z, x) := SystemStep(c, y, ev);
            if x.listed then ev.GetAssertion? && ListOf(z.pending, ev.r, x)
            else Active(z.pending) ==> Active(y.pending) && SameList(z.pending, y.pending)
  {
  }

  // Event o left the list p, and none after it left one.
  ghost predicate LeftBy(h: seq<Seen>, evs: seq<Event>, o: nat, p: Pending)
    requires |h| == |evs|
  {
    && o < |h| && h[o].listed && evs[o].GetAssertion? && ListOf(p, evs[o].r, h[o])
    && forall i | o < i < |h| :: !h[i].listed
  }

  lemma LeftGrows(h: seq<Seen>, evs: seq<Event>, o: nat, p: Pending, x: Seen, ev: Event, q: Pending)
    requires |h| == |evs| && LeftBy(h, evs, o, p) && !x.listed && SameList(q, p)
    ensures LeftBy(h + [x], evs + [ev], o, q)
  {
  }

  // A list from which there is something left to hand out was left by the last getAssertion
  // of the run that left one, with that request's flags and RP.
  lemma {:induction false} PendingIsTraced(c: Crypto, y: System, evs: seq<Event>)
    requires Fresh(y)
    ensures var p := After(c, y, evs).pending;
            Active(p) ==> exists o: nat :: LeftBy(History(c, y, evs), evs, o, p)
  {
    if evs != [] {
      var n := |evs| - 1;
      var before := After(c, y, evs[..n]);
      var (after, x) := SystemStep(c, before, evs[n]);
      HistoryGrows(c, y, evs);
      HistoryOfPrefix(c, y, evs, n);
      ListStep(c, before, evs[n]);
      if x.listed {
        assert LeftBy(History(c, y, evs), evs, n, after.pending);
      } else if Active(after.pending) {
        PendingIsTraced(c, y, evs[..n]);
        var o: nat :| LeftBy(History(c, y, evs[..n]), evs[..n], o, before.pending);
        LeftGrows(History(c, y, evs[..n]), evs[..n], o, before.pending, x, evs[n], after.pending);
        LastApart(evs);
      }
    }
  }

  lemma ReplyMeans(c: Crypto, y: System, ev: Event)
    requires WellFormed(y.s) && SystemStep(c, y, ev).1.reply.Assertion?
    ensures var x := SystemStep(c, y, ev).1;
            var list := Pending(x.reply.up, x.reply.uv, x.reply.rpIdHash, 0, 0, 0);
            if x.reply.first then ev.GetAssertion? && ListOf(list, ev.r, x)
            else Active(y.pending) && SameList(list, y.pending)
  {
  }

  // The assertion of event j answers the getAssertion o: itself if it is a first assertion,
  // otherwise the last one before it that left a list. It names that request's RP, is
  // user-verified if and only if that request's token was accepted, and user-present if and
  // only if that request wanted presence.
  ghost predicate Answers(h: seq<Seen>, evs: seq<Event>, j: nat, o: nat)
    requires |h| == |evs| && j < |h| && h[j].reply.Assertion?
  {
    var reply := h[j].reply;
    && o <= j && evs[o].GetAssertion?
    && ListOf(Pending(reply.up, reply.uv, reply.rpIdHash, 0, 0, 0), evs[o].r, h[o])
    && if reply.first then o == j else o < j && h[o].listed && forall i | o < i < j :: !h[i].listed
  }

  lemma AssertionHasOrigin(c: Crypto, y: System, evs: seq<Event>, j: nat)
    requires Fresh(y) && j < |evs|
    ensures History(c, y, evs)[j].reply.Assertion? ==> exists o: nat :: Answers(History(c, y, evs), evs, j, o)
  {
    var h, before := History(c, y, evs), After(c, y, evs[..j]);
    HistoryOfPrefix(c, y, evs, j);
    if h[j].reply.Assertion? {
      ReplyMeans(c, before, evs[j]);
      if h[j].reply.first {
        assert Answers(h, evs, j, j);
      } else {
        PendingIsTraced(c, y, evs[..j]);
        var o: nat :| LeftBy(h[..j], evs[..j], o, before.pending);
        assert forall i | o <= i < j :: h[..j][i] == h[i] && evs[..j][i] == evs[i];
        assert Answers(h, evs, j, o);
      }
    }
  }

  // Every assertion with the user-verified flag, first or next, answers a getAssertion that
  // was opened under a token granted for a PIN or a fingerprint.
  lemma UvAssertionIsBacked(c: Crypto, y: System, evs: seq<Event>, j: nat)
    requires Fresh(y) && j < |evs|
    ensures var h := History(c, y, evs);
            h[j].reply.Assertion? && h[j].reply.uv ==>
              exists o: nat, g: nat :: Answers(h, evs, j, o) && OpenedUnderGrant(c, y, evs, o, g)
  {
    var h := History(c, y, evs);
    AssertionHasOrigin(c, y, evs, j);
    if h[j].reply.Assertion? && h[j].reply.uv {
      var o: nat :| Answers(h, evs, j, o);
      OpeningIsBacked(c, y, evs, o);
      var g: nat :| OpenedUnderGrant(c, y, evs, o, g);
    }
  }

  lemma BothFlagsMean(c: Crypto, y: System, ev: Event)
    requires WellFormed(y.s) && BothFlags(SystemStep(c, y, ev).1)
    ensures SystemStep(c, y, ev).1.opening.Some? && SystemStep(c, y, ev).1.grant.None?
  {
  }

  lemma BothFlagsNeedPermission(c: Crypto, y: System, evs: seq<Event>, k: nat)
    requires WellFormed(y.s) && k < |evs| && BothFlags(History(c, y, evs)[k])
    ensures GA in After(c, y, evs[..k]).s.token.permissions
    ensures !Grants(History(c, y, evs)[k])
  {
    var before := After(c, y, evs[..k]);
    HistoryOfPrefix(c, y, evs, k);
    BothFlagsMean(c, before, evs[k]);
    OpeningMeans(c, before, evs[k]);
  }

  lemma StandsSince(h: seq<Seen>, g: nat, t: Token, i: nat)
    requires Stands(h, g, t) && i < |h| && BothFlags(h[i]) && !Grants(h[i])
    ensures i < g && GrantsAssertion(h[g])
  {
  }

  // Between two getAssertion responses with both flags lies another grant for assertions, for
  // which the user was verified again.
  lemma OneResponsePerGrant(c: Crypto, y: System, evs: seq<Event>, i: nat, j: nat)
    requires Fresh(y) && i < j < |evs|
    requires BothFlags(History(c, y, evs)[i]) && BothFlags(History(c, y, evs)[j])
    ensures exists g: nat :: i < g < j && UserGrant(c, y, evs, g)
  {
    var h := History(c, y, evs);
    BothFlagsNeedPermission(c, y, evs, i);
    BothFlagsNeedPermission(c, y, evs, j);
    PermissionIsBacked(c, y, evs[..j]);
    HistoryOfPrefix(c, y, evs, j);
    var t := After(c, y, evs[..j]).s.token;
    var g: nat :| Stands(h[..j], g, t);
    StandsSince(h[..j], g, t, i);
    GrantIsUserGrant(c, y, evs, g);
  }
}
