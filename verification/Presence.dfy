// What getAssertion and makeCredential ask before they use a token, and where the
// user-present flag comes from, over every run.
module Presence {
  import opened Basics
  import opened ClientPin
  import opened Tokens
  import opened TokenUse

  // ---------- the MAC ----------

  // Under protocol 1 the first half of the MAC authenticates a request, under protocol 2 all
  // of it, and under any other protocol nothing does.
  lemma MacMeans(c: Crypto, protocol: nat, key: bytes32, data: bytes, sign: bytes)
    ensures protocol == 1 && |sign| == 16 ==> (MacAccepts(c, protocol, key, data, sign) <==> sign == c.mac(key, data)[..16])
    ensures protocol == 2 && |sign| == 32 ==> (MacAccepts(c, protocol, key, data, sign) <==> sign == c.mac(key, data))
    ensures protocol != 1 && protocol != 2 ==> !MacAccepts(c, protocol, key, data, sign)
    ensures |sign| < 16 ==> !MacAccepts(c, protocol, key, data, sign)
  {
    if |sign| == 16 { assert sign[..16] == sign; }
    if |sign| == 32 { assert sign[..32] == sign && c.mac(key, data)[..32] == c.mac(key, data); }
  }

  // The token is good for a permission at an RP, for who made the MAC with it.
  predicate GoodFor(c: Crypto, t: Token, permission: nat, rp: bytes32, protocol: nat, data: bytes, sign: bytes) {
    && t.inUse && t.userVerified && permission in t.permissions && (t.hasRpId ==> t.rpIdHash == rp)
    && MacAccepts(c, protocol, t.value, data, sign)
  }

  // ---------- makeCredential ----------

  // makeCredential uses the token exactly if it is good for it, with the first permission;
  // from then on the token is bound to the RP, and else as it was.
  lemma MakeUsesTokenIff(c: Crypto, y: System, rp: bytes32, data: bytes, param: Option<bytes>, protocol: nat)
    ensures var (z, x) := MakeStep(c, y, rp, data, param, protocol, true);
            && (x.bound == Some(rp) <==> param.Some? && GoodFor(c, y.s.token, 0, rp, protocol, data, param.value))
            && (x.bound.Some? ==> z.s.token == y.s.token.(hasRpId := true, rpIdHash := rp))
            && (x.bound.None? && param.Some? ==> x.reply == Refused(PinAuthInvalid))
            && z.pending == y.pending
  {
  }

  // A request that is malformed does nothing, and one without a MAC leaves the token alone.
  lemma MakeWithoutToken(c: Crypto, y: System, rp: bytes32, data: bytes, param: Option<bytes>, protocol: nat, ok: bool)
    requires !ok || param.None?
    ensures var (z, x) := MakeStep(c, y, rp, data, param, protocol, ok);
            z == y && x.bound == None && (x.reply == Refused(Other) <==> !ok)
  {
  }

  // A power cycle forgets the list, so that the next request is refused; no other client-PIN
  // command touches it.
  lemma PowerCycleForgetsList(c: Crypto, y: System, cmd: Command, e: Entropy, now: nat, signed: bool)
    requires WellFormed(y.s)
    ensures var z := SystemStep(c, y, Pin(cmd, e)).0;
            if cmd.PowerCycle? then NextStep(z, now, signed).1.reply == Refused(NotAllowed) else z.pending == y.pending
  {
  }

  // ---------- getAssertion ----------

  // A request wants the user's presence unless it says otherwise.
  predicate Wants(r: AssertionRequest) {
    !(r.options && r.up == Some(false))
  }

  // All that comes before presence is in order: the token, if there is one to check, the
  // options, the extensions, and a credential found.
  predicate InOrder(c: Crypto, s: State, r: AssertionRequest) {
    && (r.param.Some? ==>
          && (r.protocol == 1 || r.protocol == 2) && r.param.value != []
          && GoodFor(c, s.token, 1, r.rpIdHash, r.protocol, r.clientDataHash, r.param.value))
    && !(r.options && r.uv == Some(true)) && !(r.options && r.rk.Some?)
    && r.extensionsOk
    && (if r.param.Some? then r.foundVerified else r.found) > 0
  }

  // The user confirms now, or the request is under a token for which they were present.
  predicate UserThere(s: State, r: AssertionRequest) {
    r.present || (r.param.Some? && s.token.inUse && s.token.userPresent)
  }

  // A getAssertion is answered exactly if it is in order, the user is there if they are wanted,
  // and what follows succeeds; the answer's flags and RP are the request's.
  lemma AssertionAnsweredIff(c: Crypto, y: System, r: AssertionRequest)
    ensures var (z, x) := AssertionStep(c, y, r);
            && (x.reply.Assertion? <==>
                  InOrder(c, y.s, r) && (Wants(r) ==> UserThere(y.s, r)) && !r.blobKeyRefused && r.signed)
            && (x.reply.Assertion? ==> x.reply == Assertion(Wants(r), r.param.Some?, true, r.rpIdHash))
  {
  }

  // Without the user a request in order that wants them is denied, and the token is kept.
  lemma DeniedWithoutUser(c: Crypto, y: System, r: AssertionRequest)
    requires InOrder(c, y.s, r) && Wants(r) && !UserThere(y.s, r)
    ensures var (z, x) := AssertionStep(c, y, r); x.reply == Refused(OperationDenied) && z == y
  {
  }

  // An empty MAC is the platform's way to ask for a touch and for whether a PIN is set; it
  // changes nothing.
  lemma EmptyMacProbes(c: Crypto, y: System, r: AssertionRequest)
    requires r.param == Some([])
    ensures AssertionStep(c, y, r).0 == y
    ensures AssertionStep(c, y, r).1.reply ==
            Refused(if !r.present then OperationDenied else if y.s.pin == [] then PinNotSet else PinAuthInvalid)
  {
  }

  // With any other MAC, under a protocol there is and without an option there is not, the token
  // decides: a request it is not good for is refused as unauthenticated, whatever was found.
  lemma BadTokenIsRefused(c: Crypto, y: System, r: AssertionRequest)
    requires r.param.Some? && r.param.value != []
    ensures var reply := AssertionStep(c, y, r).1.reply;
            if r.protocol == 0 then reply == Refused(MissingParameter)
            else if r.protocol > 2 then reply == Refused(InvalidParameter)
            else if r.options && r.uv == Some(true) then reply == Refused(InvalidOption)
            else if r.options && r.rk.Some? then reply == Refused(UnsupportedOption)
            else !GoodFor(c, y.s.token, 1, r.rpIdHash, r.protocol, r.clientDataHash, r.param.value)
                 ==> reply == Refused(PinAuthInvalid)
  {
  }

  lemma TakenPresence(c: Crypto, y: System, r: AssertionRequest)
    requires InOrder(c, y.s, r) && y.s.token.inUse && Wants(r) && UserThere(y.s, r)
    ensures AssertionStep(c, y, r).0.s.token
            == y.s.token.(permissions := {4}, userPresent := false, userVerified := false)
  {
  }

  lemma SparedPresence(c: Crypto, y: System, r: AssertionRequest)
    requires InOrder(c, y.s, r) && y.s.token.inUse && !(Wants(r) && UserThere(y.s, r))
    ensures AssertionStep(c, y, r).0.s.token == y.s.token
  {
  }

  // What presence costs: a token in use keeps only its fifth permission, and no flag; else it
  // keeps all.
  lemma PresenceUsesUp(c: Crypto, y: System, r: AssertionRequest)
    requires InOrder(c, y.s, r) && y.s.token.inUse
    ensures AssertionStep(c, y, r).0.s.token
            == if Wants(r) && UserThere(y.s, r) then y.s.token.(permissions := {4}, userPresent := false, userVerified := false)
               else y.s.token
  {
    if Wants(r) && UserThere(y.s, r) { TakenPresence(c, y, r); } else { SparedPresence(c, y, r); }
  }

  // ---------- where permissions come from ----------

  // Event i was a client-PIN command that verified the user and gave out this value.
  ghost predicate GaveOut(c: Crypto, y: System, evs: seq<Event>, i: nat, value: bytes32)
    requires WellFormed(y.s)
  {
    && i < |evs| && evs[i].Pin? && (evs[i].cmd.PinToken? || evs[i].cmd.UvToken?)
    && var s := After(c, y, evs[..i]).s;
    && VerifiesUser(c, s, evs[i].cmd)
    && var g := Step(c, s, evs[i].cmd, evs[i].e).1.granted;
    g.Some? && !g.value.persistent && g.value.value == value
  }

  // An event that ends the use of a token: another grant, a power cycle, a change of the PIN,
  // or an answer of getAssertion for which the user was present.
  ghost predicate Ends(c: Crypto, y: System, ev: Event)
    requires WellFormed(y.s)
  {
    if ev.Pin? then
      var out := Step(c, y.s, ev.cmd, ev.e).1;
      || ev.cmd.PowerCycle? || (ev.cmd.ChangePin? && out.status == Ok)
      || (out.granted.Some? && !out.granted.value.persistent)
    else
      var x := SystemStep(c, y, ev).1;
      x.reply.Assertion? && x.reply.first && x.reply.up
  }

  ghost predicate UnusedSince(c: Crypto, y: System, evs: seq<Event>, i: nat, n: nat)
    requires WellFormed(y.s) && n <= |evs|
  {
    forall m | i < m < n :: !Ends(c, After(c, y, evs[..m]), evs[m])
  }

  predicate ForRp(cmd: Command, t: Token)
    requires cmd.PinToken? || cmd.UvToken?
  {
    cmd.rpIdHash.Some? ==> t.hasRpId && t.rpIdHash == cmd.rpIdHash.value
  }

  // The token's permission q goes back to event i, and the user's presence, if the token has
  // it, to a finger.
  ghost predicate PermissionFrom(c: Crypto, y: System, evs: seq<Event>, q: nat, i: nat)
    requires WellFormed(y.s)
  {
    var t := After(c, y, evs).s.token;
    && GaveOut(c, y, evs, i, t.value) && q in Asked(evs[i].cmd) && ForRp(evs[i].cmd, t)
    && (t.userPresent ==> evs[i].cmd.UvToken?)
    && UnusedSince(c, y, evs, i, |evs|)
  }

  predicate InUseIfAny(t: Token) {
    t.permissions != {} ==> t.inUse
  }

  // Permissions only ever leave the token, all at once; the value stays with them, and so do a
  // binding to an RP and the absence of the user.
  predicate Kept(before: Token, after: Token) {
    || after.permissions <= {4}
    || (&& after.value == before.value && after.permissions == before.permissions
        && (after.userPresent ==> before.userPresent)
        && (before.hasRpId ==> after.hasRpId && after.rpIdHash == before.rpIdHash))
  }

  ghost predicate Granting(c: Crypto, y: System, ev: Event)
    requires WellFormed(y.s)
  {
    && ev.Pin?
    && var g := Step(c, y.s, ev.cmd, ev.e).1.granted;
    g.Some? && !g.value.persistent
  }

  // ---------- one event ----------

  lemma GrantingMeans(c: Crypto, y: System, ev: Event)
    requires WellFormed(y.s) && Granting(c, y, ev)
    ensures (ev.cmd.PinToken? || ev.cmd.UvToken?) && VerifiesUser(c, y.s, ev.cmd)
    ensures var t := SystemStep(c, y, ev).0.s.token;
            && t.value == Step(c, y.s, ev.cmd, ev.e).1.granted.value.value && t.permissions == Asked(ev.cmd)
            && (t.userPresent ==> ev.cmd.UvToken?) && ForRp(ev.cmd, t) && t.inUse
  {
    GrantMeans(c, y.s, ev.cmd, ev.e);
  }

  lemma ChangeKeeps(c: Crypto, s: State, ch: Channel, h: Option<bytes16>, p: Option<bytes64>, e: Entropy)
    requires WellFormed(s) && InUseIfAny(s.token)
    ensures var (t, out) := ChangePinStep(c, s, ch, h, p, e);
            && Kept(s.token, t.token) && InUseIfAny(t.token)
            && (out.status == Ok ==> t.token.permissions == {})
  {
    ChangePinKept(c, s, ch, h, p, e);
    if ChangePinStep(c, s, ch, h, p, e).1.status == Ok {
      ChangedPinTakesTokens(c, s, ChangePin(ch, h, p), e);
    }
  }

  lemma PinTokenKeeps(c: Crypto, s: State, ch: Channel, plain: bool, h: Option<bytes16>,
                      perms: Permissions, rp: Option<bytes32>, e: Entropy)
    requires WellFormed(s) && InUseIfAny(s.token)
    ensures var (t, out) := PinTokenStep(c, s, ch, plain, h, perms, rp, e);
            !(out.granted.Some? && !out.granted.value.persistent) ==> Kept(s.token, t.token) && InUseIfAny(t.token)
  {
    var a := Awake(s, e);
    if PinTokenRefusal(a, ch, plain, perms, rp).None? {
      TryPinKeepsToken(c, a, h, e);
    }
  }

  lemma CommandKeeps(c: Crypto, s: State, cmd: Command, e: Entropy)
    requires WellFormed(s) && InUseIfAny(s.token)
    ensures var (t, out) := Step(c, s, cmd, e);
            && (!(out.granted.Some? && !out.granted.value.persistent) ==> Kept(s.token, t.token) && InUseIfAny(t.token))
            && (cmd.PowerCycle? || (cmd.ChangePin? && out.status == Ok) ==> t.token.permissions == {})
  {
    match cmd
    case ChangePin(ch, h, p) => ChangeKeeps(c, s, ch, h, p, e);
    case PinToken(ch, plain, h, perms, rp) => PinTokenKeeps(c, s, ch, plain, h, perms, rp, e);
    case SetPin(ch, p) => SetPinKept(c, s, ch, p, e);
    case SetMinPin(present, proto, macOk, newMin, force, rps) =>
      SetMinPinKept(s, present, proto, macOk, newMin, force, rps, e);
    case UvToken(_, _, _, _, _, _, _, _) => UvTokenKeeps(c, s, cmd, e);
    case PowerCycle =>
  }

  lemma UvTokenKeeps(c: Crypto, s: State, cmd: Command, e: Entropy)
    requires WellFormed(s) && InUseIfAny(s.token) && cmd.UvToken?
    ensures var (t, out) := Step(c, s, cmd, e);
            out.granted.None? ==> Kept(s.token, t.token) && InUseIfAny(t.token)
    ensures Step(c, s, cmd, e).1.granted.Some? ==> !Step(c, s, cmd, e).1.granted.value.persistent
  {
  }

  lemma MakeKeeps(c: Crypto, y: System, rp: bytes32, data: bytes, param: Option<bytes>, protocol: nat, ok: bool)
    requires InUseIfAny(y.s.token)
    ensures var (z, x) := MakeStep(c, y, rp, data, param, protocol, ok);
            Kept(y.s.token, z.s.token) && InUseIfAny(z.s.token) && !x.reply.Assertion?
  {
  }

  lemma AssertionKeeps(c: Crypto, y: System, r: AssertionRequest)
    requires InUseIfAny(y.s.token)
    ensures var (z, x) := AssertionStep(c, y, r);
            && Kept(y.s.token, z.s.token) && InUseIfAny(z.s.token)
            && (x.reply.Assertion? && x.reply.up ==> z.s.token.permissions <= {4})
  {
  }

  lemma EventKeeps(c: Crypto, y: System, ev: Event)
    requires WellFormed(y.s) && InUseIfAny(y.s.token) && !Granting(c, y, ev)
    ensures var t := SystemStep(c, y, ev).0.s.token;
            Kept(y.s.token, t) && InUseIfAny(t) && (Ends(c, y, ev) ==> t.permissions <= {4})
  {
    match ev
    case Pin(cmd, e) => CommandKeeps(c, y.s, cmd, e);
    case MakeCredential(rp, data, param, protocol, ok) => MakeKeeps(c, y, rp, data, param, protocol, ok);
    case GetAssertion(r) => AssertionKeeps(c, y, r);
    case GetNextAssertion(_, _) => NextIsNoFirst(y, ev.now, ev.signed);
  }

  lemma NextIsNoFirst(y: System, now: nat, signed: bool)
    ensures var (z, x) := NextStep(y, now, signed); z.s == y.s && (x.reply.Assertion? ==> !x.reply.first)
  {
  }

  // ---------- runs ----------

  predicate PoweredUp(y: System) {
    Fresh(y) && InUseIfAny(y.s.token)
  }

  lemma AfterLast(c: Crypto, y: System, evs: seq<Event>)
    requires WellFormed(y.s) && evs != []
    ensures var n := |evs| - 1; After(c, y, evs) == SystemStep(c, After(c, y, evs[..n]), evs[n]).0
  {
  }

  lemma AfterPrefix(evs: seq<Event>, n: nat)
    requires n <= |evs|
    ensures forall m :: 0 <= m <= n ==> evs[..n][..m] == evs[..m]
  {
  }

  lemma NewGrant(c: Crypto, y: System, evs: seq<Event>, q: nat)
    requires WellFormed(y.s) && evs != [] && Granting(c, After(c, y, evs[..|evs| - 1]), evs[|evs| - 1])
    requires q in After(c, y, evs).s.token.permissions
    ensures PermissionFrom(c, y, evs, q, |evs| - 1)
  {
    var n := |evs| - 1;
    AfterLast(c, y, evs);
    GrantingMeans(c, After(c, y, evs[..n]), evs[n]);
  }

  lemma OldGrant(c: Crypto, y: System, evs: seq<Event>, q: nat, i: nat)
    requires WellFormed(y.s) && evs != [] && q != 4
    requires var n := |evs| - 1;
             && PermissionFrom(c, y, evs[..n], q, i)
             && InUseIfAny(After(c, y, evs[..n]).s.token) && !Granting(c, After(c, y, evs[..n]), evs[n])
    requires q in After(c, y, evs).s.token.permissions
    ensures PermissionFrom(c, y, evs, q, i)
  {
    var n := |evs| - 1;
    AfterLast(c, y, evs);
    EventKeeps(c, After(c, y, evs[..n]), evs[n]);
    assert evs[..n][..i] == evs[..i];
    UnusedGrows(c, y, evs, i);
  }

  lemma UnusedGrows(c: Crypto, y: System, evs: seq<Event>, i: nat)
    requires WellFormed(y.s) && evs != []
    requires var n := |evs| - 1; UnusedSince(c, y, evs[..n], i, n) && !Ends(c, After(c, y, evs[..n]), evs[n])
    ensures UnusedSince(c, y, evs, i, |evs|)
  {
    var n := |evs| - 1;
    AfterPrefix(evs, n);
    forall m | i < m < |evs| ensures !Ends(c, After(c, y, evs[..m]), evs[m]) {
      if m < n { assert !Ends(c, After(c, y, evs[..n][..m]), evs[..n][m]); }
    }
  }

  lemma {:induction false} RunInUse(c: Crypto, y: System, evs: seq<Event>)
    requires PoweredUp(y)
    ensures InUseIfAny(After(c, y, evs).s.token)
  {
    if evs != [] {
      var n := |evs| - 1;
      var before := After(c, y, evs[..n]);
      RunInUse(c, y, evs[..n]);
      AfterLast(c, y, evs);
      if Granting(c, before, evs[n]) { GrantingMeans(c, before, evs[n]); } else { EventKeeps(c, before, evs[n]); }
    }
  }

  // Every permission of the token but the fifth goes back to one client-PIN command that
  // verified the user, was asked for it, and whose token has not been ended since.
  lemma {:induction false} PermissionHasGrant(c: Crypto, y: System, evs: seq<Event>, q: nat)
    requires PoweredUp(y) && q != 4
    ensures q in After(c, y, evs).s.token.permissions ==> exists i: nat :: PermissionFrom(c, y, evs, q, i)
  {
    if evs != [] && q in After(c, y, evs).s.token.permissions {
      var n := |evs| - 1;
      var before := After(c, y, evs[..n]);
      if Granting(c, before, evs[n]) {
        NewGrant(c, y, evs, q);
      } else {
        RunInUse(c, y, evs[..n]);
        AfterLast(c, y, evs);
        EventKeeps(c, before, evs[n]);
        PermissionHasGrant(c, y, evs[..n], q);
        var i: nat :| PermissionFrom(c, y, evs[..n], q, i);
        OldGrant(c, y, evs, q, i);
      }
    }
  }

  // A makeCredential that used the token stands on a grant asked for makeCredential, at its RP
  // if the grant named one, and was MACed with the value handed out then.
  lemma MakeHasGrant(c: Crypto, y: System, evs: seq<Event>, j: nat)
    requires PoweredUp(y) && j < |evs| && evs[j].MakeCredential? && SeenAt(c, y, evs, j).bound.Some?
    ensures var t := After(c, y, evs[..j]).s.token;
            && evs[j].param.Some? && MacAccepts(c, evs[j].protocol, t.value, evs[j].clientDataHash, evs[j].param.value)
            && exists i: nat :: PermissionFrom(c, y, evs[..j], 0, i)
                                && (evs[i].cmd.rpIdHash.Some? ==> evs[i].cmd.rpIdHash.value == evs[j].rpIdHash)
  {
    var ev := evs[j];
    MakeAccepted(c, After(c, y, evs[..j]), ev.rpIdHash, ev.clientDataHash, ev.param, ev.protocol, ev.wellFormed);
    PermissionHasGrant(c, y, evs[..j], 0);
    var i: nat :| PermissionFrom(c, y, evs[..j], 0, i);
  }

  lemma MakeAccepted(c: Crypto, y: System, rp: bytes32, data: bytes, param: Option<bytes>, protocol: nat, ok: bool)
    ensures MakeStep(c, y, rp, data, param, protocol, ok).1.bound.Some? ==>
              param.Some? && GoodFor(c, y.s.token, 0, rp, protocol, data, param.value)
  {
  }

  // So does an accepted setMinPINLength, on one asked for configuration.
  lemma SetMinPinHasGrant(c: Crypto, y: System, evs: seq<Event>, j: nat)
    requires PoweredUp(y) && j < |evs| && evs[j].Pin? && evs[j].cmd.SetMinPin?
    requires Step(c, After(c, y, evs[..j]).s, evs[j].cmd, evs[j].e).1.status == Ok
    ensures exists i: nat :: PermissionFrom(c, y, evs[..j], 5, i)
  {
    SetMinPinSucceedsIff(c, After(c, y, evs[..j]).s, evs[j].cmd, evs[j].e);
    PermissionHasGrant(c, y, evs[..j], 5);
  }

  // Event o, a getAssertion, took the user's presence from a token that a matching finger was
  // handed at event i, asked for getAssertion and not ended since.
  ghost predicate FromFinger(c: Crypto, y: System, evs: seq<Event>, o: nat, i: nat)
    requires WellFormed(y.s)
  {
    && i < o < |evs| && evs[o].GetAssertion? && evs[o].r.param.Some?
    && PermissionFrom(c, y, evs[..o], 1, i) && evs[i].cmd.UvToken? && evs[i].cmd.finger.Match?
    && (evs[i].cmd.rpIdHash.Some? ==> evs[i].cmd.rpIdHash.value == evs[o].r.rpIdHash)
  }

  // The user was there for event o: they confirmed it, or it took their presence from such a
  // token.
  ghost predicate UserWasThere(c: Crypto, y: System, evs: seq<Event>, o: nat)
    requires WellFormed(y.s)
  {
    o < |evs| && evs[o].GetAssertion? && (evs[o].r.present || exists i: nat :: FromFinger(c, y, evs, o, i))
  }

  // A getAssertion that is answered, or leaves a list, was in order and had the user it wanted.
  lemma OpeningHadUser(c: Crypto, y: System, r: AssertionRequest)
    requires var x := AssertionStep(c, y, r).1; x.reply.Assertion? || x.listed
    ensures InOrder(c, y.s, r) && (Wants(r) ==> UserThere(y.s, r))
  {
  }

  lemma WantedUserWasThere(c: Crypto, y: System, evs: seq<Event>, o: nat)
    requires PoweredUp(y) && o < |evs| && evs[o].GetAssertion? && Wants(evs[o].r)
    requires SeenAt(c, y, evs, o).reply.Assertion? || SeenAt(c, y, evs, o).listed
    ensures UserWasThere(c, y, evs, o)
  {
    OpeningHadUser(c, After(c, y, evs[..o]), evs[o].r);
    if !evs[o].r.present {
      PermissionHasGrant(c, y, evs[..o], 1);
      var i: nat :| PermissionFrom(c, y, evs[..o], 1, i);
      assert evs[..o][i] == evs[i];
      assert FromFinger(c, y, evs, o, i);
    }
  }

  // Every answer with the user-present flag, first or next, answers a getAssertion that wanted
  // the user and for which they were there.
  lemma UpHasUser(c: Crypto, y: System, evs: seq<Event>, j: nat)
    requires PoweredUp(y) && j < |evs|
    ensures var h := History(c, y, evs);
            h[j].reply.Assertion? && h[j].reply.up ==>
              exists o: nat :: Answers(h, evs, j, o) && Wants(evs[o].r) && UserWasThere(c, y, evs, o)
  {
    var h := History(c, y, evs);
    AssertionHasOrigin(c, y, evs, j);
    if h[j].reply.Assertion? && h[j].reply.up {
      var o: nat :| Answers(h, evs, j, o);
      WantedUserWasThere(c, y, evs, o);
    }
  }
}
