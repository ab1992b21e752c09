// PIN/UV auth token, pending list and credential files together: what stands behind an answer
// with a protected credential, over every run of all the commands that touch one of them.
module JointDevice {
  import opened Basics
  import opened ClientPin
  import opened CredentialSearch
  import opened CredentialStore
  import A = Assertions
  import T = Tokens

  datatype Device = Device(s: State, p: A.Pending, t: Tables)

  // Of the request r of an Assert the parts the search decides are overwritten by what it
  // finds; es is the order the sort puts the entries in. Manage is any change to the files.
  datatype Event =
    | Pin(cmd: Command, e: Entropy)
    | Make(rpIdHash: bytes32, clientDataHash: bytes, param: Option<bytes>, protocol: nat, wellFormed: bool)
    | Assert(r: T.AssertionRequest, allow: seq<Descriptor>, known: nat, es: seq<Entry>)
    | Next(at: A.Request)
    | Manage(op: Op)

  function AskOf(ev: Event): A.Ask
    requires ev.Assert?
  {
    var r := ev.r;
    A.Ask(r.rpIdHash, ev.allow, T.WantsPresence(r), r.param.Some?, !r.options || r.up == Some(false), ev.known,
          A.Request(r.now, r.signed))
  }

  ghost function FoundBy(v: Vault, d: Device, ev: Event): Option<Search>
    requires ev.Assert?
  {
    Searched(v, d.t.creds, ev.r.rpIdHash, ev.allow)
  }

  // The request as the token logic sees it.
  ghost function Sought(v: Vault, d: Device, ev: Event): T.AssertionRequest
    requires ev.Assert?
  {
    var a := AskOf(ev);
    match FoundBy(v, d, ev)
    case None => ev.r.(extensionsOk := false)
    case Some(s) =>
      ev.r.(found := A.Number(a, s, false), foundVerified := A.Number(a, s, true),
            single := A.Single(a, s), silent := A.Silent(a, s))
  }

  // ---------- one event ----------

  // Nothing before the answer refuses the request.
  predicate Passes(c: Crypto, s: State, r: T.AssertionRequest) {
    T.AssertionRefusal(c, s, r).None? && A.Confirmed(c, s, r)
  }

  function RefusedWith(c: Crypto, s: State, r: T.AssertionRequest): Code {
    var refusal := T.AssertionRefusal(c, s, r);
    if refusal.Some? then refusal.value
    else if T.WantsPresence(r) && !T.PresenceGiven(T.TokenChecked(c, s, r), r) then OperationDenied
    else InvalidOption
  }

  ghost function AssertStep(c: Crypto, v: Vault, d: Device, ev: Event): (Device, A.Reply)
    requires ev.Assert?
  {
    var r := Sought(v, d, ev);
    var s := T.AssertionStep(c, Project(d), r).0.s;
    if Passes(c, d.s, r) then
      var (p, reply) := A.OpenStep(d.p, FoundBy(v, d, ev), ev.es, AskOf(ev));
      (Device(s, p, d.t), reply)
    else (Device(s, d.p, d.t), A.Refused(RefusedWith(c, d.s, r)))
  }

  function NoList(): A.Pending {
    A.Pending([], 1, 0, false, false, Zeros32(), false)
  }

  ghost function Step(c: Crypto, v: Vault, d: Device, ev: Event): (Device, Option<A.Reply>)
    requires WellFormed(d.s)
  {
    match ev
    case Pin(cmd, e) =>
      (Device(ClientPin.Step(c, d.s, cmd, e).0, if cmd.PowerCycle? then NoList() else d.p, d.t), None)
    case Make(rp, data, param, protocol, ok) =>
      (d.(s := T.MakeStep(c, Project(d), rp, data, param, protocol, ok).0.s), None)
    case Assert(_, _, _, _) =>
      var (d1, reply) := AssertStep(c, v, d, ev);
      (d1, Some(reply))
    case Next(at) =>
      var (p, reply) := A.NextStep(d.p, at);
      (d.(p := p), Some(reply))
    case Manage(op) => (d.(t := OpStep(v, d.t, op).0), None)
  }

  // The entries of an Assert are a selection from what the files hold at that time.
  ghost predicate Lawful(v: Vault, d: Device, ev: Event) {
    ev.Assert? ==> A.Selection(v, d.t.creds, AskOf(ev), FoundBy(v, d, ev), ev.es)
  }

  // ---------- the token results see the same events ----------

  function Project(d: Device): T.System {
    T.System(d.s, A.Abstract(d.p))
  }

  // To them a change of the files is a makeCredential that fails to parse: nothing happens.
  ghost function Shadow(v: Vault, d: Device, ev: Event): T.Event {
    match ev
    case Pin(cmd, e) => T.Pin(cmd, e)
    case Make(rp, data, param, protocol, ok) => T.MakeCredential(rp, data, param, protocol, ok)
    case Assert(_, _, _, _) => T.GetAssertion(Sought(v, d, ev))
    case Next(at) => T.GetNextAssertion(at.now, at.signed)
    case Manage(_) => T.MakeCredential(Zeros32(), [], None, 0, false)
  }

  lemma SoughtIsDescribed(v: Vault, d: Device, ev: Event)
    requires ev.Assert?
    ensures A.Describes(v, d.t.creds, AskOf(ev), Sought(v, d, ev))
  {
  }

  lemma NotPassed(c: Crypto, y: T.System, r: T.AssertionRequest)
    requires !Passes(c, y.s, r)
    ensures var (z, x) := T.AssertionStep(c, y, r);
            z.pending == y.pending && x.reply == T.Refused(RefusedWith(c, y.s, r)) && !x.listed
  {
  }

  // Whether a step was seen as the token results see it.
  predicate SeenAs(ev: Event, reply: Option<A.Reply>, x: T.Seen) {
    if reply.Some? then x.reply == A.AbstractReply(reply.value, ev.Assert?) else !x.reply.Assertion?
  }

  lemma AssertProjects(c: Crypto, v: Vault, d: Device, ev: Event)
    requires ev.Assert? && Lawful(v, d, ev)
    ensures var (d1, reply) := AssertStep(c, v, d, ev);
            var (y, x) := T.AssertionStep(c, Project(d), Sought(v, d, ev));
            y == Project(d1) && x.reply == A.AbstractReply(reply, true)
  {
    var r := Sought(v, d, ev);
    SoughtIsDescribed(v, d, ev);
    if Passes(c, d.s, r) {
      A.OpenRefines(c, v, d.t.creds, d.s, d.p, AskOf(ev), r, FoundBy(v, d, ev), ev.es);
    } else {
      NotPassed(c, Project(d), r);
    }
  }

  lemma StepProjects(c: Crypto, v: Vault, d: Device, ev: Event)
    requires WellFormed(d.s) && Lawful(v, d, ev)
    ensures var (d1, reply) := Step(c, v, d, ev);
            var (y, x) := T.SystemStep(c, Project(d), Shadow(v, d, ev));
            y == Project(d1) && SeenAs(ev, reply, x)
  {
    match ev
    case Assert(_, _, _, _) => AssertProjects(c, v, d, ev);
    case Next(at) => A.NextRefines(d.p, at, d.s);
    case Make(rp, data, param, protocol, ok) => MakeProjects(c, Project(d), rp, data, param, protocol, ok);
    case _ =>
  }

  lemma MakeProjects(c: Crypto, y: T.System, rp: bytes32, data: bytes, param: Option<bytes>, protocol: nat, ok: bool)
    ensures var (z, x) := T.MakeStep(c, y, rp, data, param, protocol, ok); z.pending == y.pending && !x.reply.Assertion?
  {
  }

  // ---------- runs ----------

  ghost function After(c: Crypto, v: Vault, d: Device, evs: seq<Event>): (r: Device)
    requires WellFormed(d.s)
    ensures WellFormed(r.s)
  {
    if evs == [] then d
    else
      var before := After(c, v, d, evs[..|evs| - 1]);
      StepKeepsForm(c, v, before, evs[|evs| - 1]);
      Step(c, v, before, evs[|evs| - 1]).0
  }

  lemma MakeKeepsForm(c: Crypto, y: T.System, rp: bytes32, data: bytes, param: Option<bytes>, protocol: nat, ok: bool)
    requires WellFormed(y.s)
    ensures WellFormed(T.MakeStep(c, y, rp, data, param, protocol, ok).0.s)
  {
  }

  lemma AssertKeepsForm(c: Crypto, y: T.System, r: T.AssertionRequest)
    requires WellFormed(y.s)
    ensures WellFormed(T.AssertionStep(c, y, r).0.s)
  {
  }

  lemma StepKeepsForm(c: Crypto, v: Vault, d: Device, ev: Event)
    requires WellFormed(d.s)
    ensures WellFormed(Step(c, v, d, ev).0.s)
  {
    match ev
    case Pin(cmd, e) => StepWellFormed(c, d.s, cmd, e);
    case Make(rp, data, param, protocol, ok) => MakeKeepsForm(c, Project(d), rp, data, param, protocol, ok);
    case Assert(_, _, _, _) => AssertKeepsForm(c, Project(d), Sought(v, d, ev));
    case _ =>
  }

  ghost function ReplyAt(c: Crypto, v: Vault, d: Device, evs: seq<Event>, j: nat): Option<A.Reply>
    requires WellFormed(d.s) && j < |evs|
  {
    Step(c, v, After(c, v, d, evs[..j]), evs[j]).1
  }

  ghost predicate LawfulRun(c: Crypto, v: Vault, d: Device, evs: seq<Event>)
    requires WellFormed(d.s)
  {
    forall i :: 0 <= i < |evs| ==> Lawful(v, After(c, v, d, evs[..i]), evs[i])
  }

  ghost function ShadowAt(c: Crypto, v: Vault, d: Device, evs: seq<Event>, k: nat): T.Event
    requires WellFormed(d.s) && k < |evs|
  {
    Shadow(v, After(c, v, d, evs[..k]), evs[k])
  }

  ghost function Shadows(c: Crypto, v: Vault, d: Device, evs: seq<Event>): (r: seq<T.Event>)
    requires WellFormed(d.s)
    ensures |r| == |evs|
  {
    seq(|evs|, k requires 0 <= k < |evs| => ShadowAt(c, v, d, evs, k))
  }

  lemma ShadowsInPrefix(c: Crypto, v: Vault, d: Device, evs: seq<Event>, n: nat)
    requires WellFormed(d.s) && n <= |evs|
    ensures forall k :: 0 <= k < n ==> ShadowAt(c, v, d, evs[..n], k) == ShadowAt(c, v, d, evs, k)
  {
    assert forall k :: 0 <= k < n ==> evs[..n][..k] == evs[..k];
  }

  lemma ShadowsOfPrefix(c: Crypto, v: Vault, d: Device, evs: seq<Event>, n: nat)
    requires WellFormed(d.s) && n <= |evs|
    ensures Shadows(c, v, d, evs[..n]) == Shadows(c, v, d, evs)[..n]
  {
    ShadowsInPrefix(c, v, d, evs, n);
  }

  lemma LawfulPrefix(c: Crypto, v: Vault, d: Device, evs: seq<Event>, j: nat)
    requires WellFormed(d.s) && LawfulRun(c, v, d, evs) && j <= |evs|
    ensures LawfulRun(c, v, d, evs[..j])
  {
    forall i | 0 <= i < j ensures Lawful(v, After(c, v, d, evs[..j][..i]), evs[..j][i]) {
      assert evs[..j][..i] == evs[..i];
    }
  }

  lemma {:induction false} RunProjects(c: Crypto, v: Vault, d: Device, evs: seq<Event>)
    requires WellFormed(d.s) && LawfulRun(c, v, d, evs)
    ensures Project(After(c, v, d, evs)) == T.After(c, Project(d), Shadows(c, v, d, evs))
  {
    if evs != [] {
      var n := |evs| - 1;
      LawfulPrefix(c, v, d, evs, n);
      RunProjects(c, v, d, evs[..n]);
      StepProjects(c, v, After(c, v, d, evs[..n]), evs[n]);
      ShadowsOfPrefix(c, v, d, evs, n);
    }
  }

  // Event j as the token results have it in their history.
  ghost function SeenIn(c: Crypto, v: Vault, d: Device, evs: seq<Event>): (h: seq<T.Seen>)
    requires WellFormed(d.s)
    ensures |h| == |evs|
  {
    T.History(c, Project(d), Shadows(c, v, d, evs))
  }

  lemma EventIsSeen(c: Crypto, v: Vault, d: Device, evs: seq<Event>, j: nat)
    requires WellFormed(d.s) && LawfulRun(c, v, d, evs) && j < |evs|
    ensures SeenAs(evs[j], ReplyAt(c, v, d, evs, j), SeenIn(c, v, d, evs)[j])
    ensures SeenIn(c, v, d, evs)[j]
            == T.SystemStep(c, Project(After(c, v, d, evs[..j])), Shadow(v, After(c, v, d, evs[..j]), evs[j])).1
  {
    LawfulPrefix(c, v, d, evs, j);
    RunProjects(c, v, d, evs[..j]);
    ShadowsOfPrefix(c, v, d, evs, j);
    T.HistoryOfPrefix(c, Project(d), Shadows(c, v, d, evs), j);
    StepProjects(c, v, After(c, v, d, evs[..j]), evs[j]);
  }
  // ---------- what the pending list holds ----------

  predicate ListProper(v: Vault, p: A.Pending) {
    A.AllProper(v, p.list, p.rp, p.uv, p.listed)
  }

  lemma StepProper(c: Crypto, v: Vault, d: Device, ev: Event)
    requires WellFormed(d.s) && Lawful(v, d, ev) && ListProper(v, d.p)
    ensures var (d1, reply) := Step(c, v, d, ev); ListProper(v, d1.p) && (reply.Some? ==> A.ProperReply(v, reply.value))
  {
    match ev
    case Assert(_, _, _, _) =>
      A.SelectionProper(v, d.t.creds, AskOf(ev), FoundBy(v, d, ev), ev.es);
      A.OpenProper(v, d.p, FoundBy(v, d, ev), ev.es, AskOf(ev));
    case Next(at) => A.NextProper(v, d.p, at);
    case _ =>
  }

  lemma {:induction false} RunProper(c: Crypto, v: Vault, d: Device, evs: seq<Event>)
    requires WellFormed(d.s) && LawfulRun(c, v, d, evs) && d.p.list == []
    ensures ListProper(v, After(c, v, d, evs).p)
  {
    if evs != [] {
      var n := |evs| - 1;
      LawfulPrefix(c, v, d, evs, n);
      RunProper(c, v, d, evs[..n]);
      StepProper(c, v, After(c, v, d, evs[..n]), evs[n]);
    }
  }

  predicate Active(p: A.Pending) {
    p.counter < |p.list|
  }

  // An event that leaves a list is an Assert, whose entries the list is; any other keeps the
  // entries of a list of which something is left.
  lemma ListStep(c: Crypto, v: Vault, d: Device, ev: Event)
    requires WellFormed(d.s) && Lawful(v, d, ev)
    ensures var d1 := Step(c, v, d, ev).0;
            if T.SystemStep(c, Project(d), Shadow(v, d, ev)).1.listed then ev.Assert? && d1.p.list == ev.es
            else Active(d1.p) ==> Active(d.p) && d1.p.list == d.p.list
  {
    if ev.Assert? {
      var r := Sought(v, d, ev);
      SoughtIsDescribed(v, d, ev);
      if Passes(c, d.s, r) {
        PassedList(c, v, d, ev);
      } else {
        NotPassed(c, Project(d), r);
      }
    } else {
      NotListed(c, v, d, ev);
    }
  }

  lemma PassedList(c: Crypto, v: Vault, d: Device, ev: Event)
    requires ev.Assert? && Lawful(v, d, ev) && Passes(c, d.s, Sought(v, d, ev))
    ensures var p := A.OpenStep(d.p, FoundBy(v, d, ev), ev.es, AskOf(ev)).0;
            if T.AssertionStep(c, Project(d), Sought(v, d, ev)).1.listed then p.list == ev.es else p == d.p
  {
    var found := FoundBy(v, d, ev);
    A.RefusedIfNoneFound(c, d.s, Sought(v, d, ev));
    assert found.Some?;
    A.SelectionSize(v, d.t.creds, AskOf(ev), found, ev.es);
  }

  lemma NotListed(c: Crypto, v: Vault, d: Device, ev: Event)
    requires WellFormed(d.s) && !ev.Assert?
    ensures !T.SystemStep(c, Project(d), Shadow(v, d, ev)).1.listed
    ensures var d1 := Step(c, v, d, ev).0; Active(d1.p) ==> Active(d.p) && d1.p.list == d.p.list
  {
  }

  // Event o is the last that left a list.
  ghost predicate LastListed(h: seq<T.Seen>, n: nat, o: nat) {
    o < n <= |h| && h[o].listed && forall i | o < i < n :: !h[i].listed
  }

  ghost function At(c: Crypto, v: Vault, d: Device, evs: seq<Event>, k: nat): Device
    requires WellFormed(d.s) && k <= |evs|
  {
    After(c, v, d, evs[..k])
  }

  lemma NextAt(c: Crypto, v: Vault, d: Device, evs: seq<Event>, k: nat)
    requires WellFormed(d.s) && k < |evs|
    ensures At(c, v, d, evs, k + 1) == Step(c, v, At(c, v, d, evs, k), evs[k]).0
  {
    assert evs[..k + 1][..k] == evs[..k];
  }

  // From the list p to the list q by an event.
  predicate ListMoves(p: A.Pending, q: A.Pending, x: T.Seen, ev: Event) {
    if x.listed then ev.Assert? && q.list == ev.es else Active(q) ==> Active(p) && q.list == p.list
  }

  lemma ListStepAt(c: Crypto, v: Vault, d: Device, evs: seq<Event>, k: nat)
    requires WellFormed(d.s) && LawfulRun(c, v, d, evs) && k < |evs|
    ensures ListMoves(At(c, v, d, evs, k).p, At(c, v, d, evs, k + 1).p, SeenIn(c, v, d, evs)[k], evs[k])
  {
    NextAt(c, v, d, evs, k);
    EventIsSeen(c, v, d, evs, k);
    ListStep(c, v, At(c, v, d, evs, k), evs[k]);
  }

  ghost predicate ListsMove(ps: seq<A.Pending>, h: seq<T.Seen>, evs: seq<Event>) {
    |ps| == |evs| + 1 == |h| + 1 && forall k :: 0 <= k < |evs| ==> ListMoves(ps[k], ps[k + 1], h[k], evs[k])
  }

  lemma {:induction false} ListOfLast(ps: seq<A.Pending>, h: seq<T.Seen>, evs: seq<Event>, n: nat, o: nat)
    requires ListsMove(ps, h, evs) && LastListed(h, n, o) && Active(ps[n])
    ensures evs[o].Assert? && ps[n].list == evs[o].es
    decreases n
  {
    assert ListMoves(ps[n - 1], ps[n], h[n - 1], evs[n - 1]);
    if o < n - 1 {
      ListOfLast(ps, h, evs, n - 1, o);
    }
  }

  lemma ListIsOf(c: Crypto, v: Vault, d: Device, evs: seq<Event>, n: nat, o: nat)
    requires WellFormed(d.s) && LawfulRun(c, v, d, evs) && n <= |evs| && LastListed(SeenIn(c, v, d, evs), n, o)
    requires Active(At(c, v, d, evs, n).p)
    ensures evs[o].Assert? && At(c, v, d, evs, n).p.list == evs[o].es
  {
    var ps := seq(|evs| + 1, k requires 0 <= k <= |evs| => At(c, v, d, evs, k).p);
    forall k | 0 <= k < |evs| ensures ListMoves(ps[k], ps[k + 1], SeenIn(c, v, d, evs)[k], evs[k]) {
      ListStepAt(c, v, d, evs, k);
    }
    ListOfLast(ps, SeenIn(c, v, d, evs), evs, n, o);
  }

  // ---------- what stands behind an answer ----------

  // The answer of event j comes from the getAssertion o of the run: for its RP, with an entry
  // it selected from the files as they were then.
  ghost predicate ComesFrom(c: Crypto, v: Vault, d: Device, evs: seq<Event>, j: nat, o: nat)
    requires WellFormed(d.s) && j < |evs|
  {
    && o <= j && evs[o].Assert?
    && ReplyAt(c, v, d, evs, j).Some? && ReplyAt(c, v, d, evs, j).value.Answer?
    && var reply := ReplyAt(c, v, d, evs, j).value;
    && reply.rp == evs[o].r.rpIdHash && reply.entry in evs[o].es
    && (reply.uv ==> evs[o].r.param.Some?)
  }

  // The getAssertion o was authorised by a token that event g granted for assertions after
  // it had verified the user by the stored PIN or a finger.
  ghost predicate AuthorisedBy(c: Crypto, v: Vault, d: Device, evs: seq<Event>, o: nat, g: nat)
    requires WellFormed(d.s)
  {
    && g < o < |evs|
    && evs[g].Pin? && T.VerifiesUser(c, After(c, v, d, evs[..g]).s, evs[g].cmd)
    && T.OpenedUnderGrant(c, Project(d), Shadows(c, v, d, evs), o, g)
  }

  predicate JustPowered(d: Device) {
    WellFormed(d.s) && d.s.token.permissions == {} && d.p == NoList()
  }

  // An answer's entry: the first of the selection, or the one the list is at.
  lemma EntryOfAnswer(c: Crypto, v: Vault, d: Device, ev: Event)
    requires WellFormed(d.s) && Step(c, v, d, ev).1.Some? && Step(c, v, d, ev).1.value.Answer?
    ensures var entry := Step(c, v, d, ev).1.value.entry;
            if ev.Assert? then entry in ev.es else Active(d.p) && entry in d.p.list
  {
  }

  // What the token results say of the answer.
  predicate Traced(reply: A.Reply, r: T.AssertionRequest) {
    reply.Answer? && reply.rp == r.rpIdHash && (reply.uv ==> r.param.Some?)
  }

  lemma TracedBy(h: seq<T.Seen>, shadows: seq<T.Event>, evs: seq<Event>, reply: A.Reply, j: nat, o: nat)
    requires |h| == |shadows| == |evs| && j < |h| && o < |h| && h[j].reply.Assertion? && T.Answers(h, shadows, j, o)
    requires reply.Answer? && SeenAs(evs[j], Some(reply), h[j])
    requires shadows[o].GetAssertion? ==> evs[o].Assert? && shadows[o].r.rpIdHash == evs[o].r.rpIdHash
    requires h[o].opening.Some? ==> evs[o].Assert? && evs[o].r.param.Some?
    ensures evs[o].Assert? && Traced(reply, evs[o].r)
    ensures if evs[j].Assert? then o == j else LastListed(h, j, o)
  {
  }

  lemma TracedAnswer(c: Crypto, v: Vault, d: Device, evs: seq<Event>, j: nat, o: nat)
    requires JustPowered(d) && LawfulRun(c, v, d, evs) && j < |evs|
    requires ReplyAt(c, v, d, evs, j).Some? && ReplyAt(c, v, d, evs, j).value.Answer?
    requires SeenIn(c, v, d, evs)[j].reply.Assertion? && T.Answers(SeenIn(c, v, d, evs), Shadows(c, v, d, evs), j, o)
    ensures evs[o].Assert? && Traced(ReplyAt(c, v, d, evs, j).value, evs[o].r)
    ensures if evs[j].Assert? then o == j else LastListed(SeenIn(c, v, d, evs), j, o)
  {
    EventIsSeen(c, v, d, evs, j);
    ShadowIs(c, v, d, evs, o);
    TracedBy(SeenIn(c, v, d, evs), Shadows(c, v, d, evs), evs, ReplyAt(c, v, d, evs, j).value, j, o);
  }

  lemma ShadowRequest(v: Vault, d: Device, ev: Event)
    ensures var shadow := Shadow(v, d, ev);
            shadow.GetAssertion? ==> ev.Assert? && shadow.r.rpIdHash == ev.r.rpIdHash && shadow.r.param == ev.r.param
  {
  }

  lemma ShadowIs(c: Crypto, v: Vault, d: Device, evs: seq<Event>, o: nat)
    requires WellFormed(d.s) && LawfulRun(c, v, d, evs) && o < |evs|
    ensures var ev := Shadows(c, v, d, evs)[o];
            ev.GetAssertion? ==> evs[o].Assert? && ev.r.rpIdHash == evs[o].r.rpIdHash && ev.r.param == evs[o].r.param
    ensures SeenIn(c, v, d, evs)[o].opening.Some? ==> evs[o].Assert? && evs[o].r.param.Some?
  {
    var before := After(c, v, d, evs[..o]);
    EventIsSeen(c, v, d, evs, o);
    assert Shadows(c, v, d, evs)[o] == ShadowAt(c, v, d, evs, o) == Shadow(v, before, evs[o]);
    ShadowRequest(v, before, evs[o]);
    OpeningHasMac(c, Project(before), Shadow(v, before, evs[o]));
  }

  lemma OpeningHasMac(c: Crypto, y: T.System, ev: T.Event)
    requires WellFormed(y.s)
    ensures T.SystemStep(c, y, ev).1.opening.Some? ==> ev.GetAssertion? && ev.r.param.Some?
  {
  }

  lemma AnswerComesFrom(c: Crypto, v: Vault, d: Device, evs: seq<Event>, j: nat, o: nat)
    requires JustPowered(d) && LawfulRun(c, v, d, evs) && j < |evs|
    requires ReplyAt(c, v, d, evs, j).Some? && ReplyAt(c, v, d, evs, j).value.Answer?
    requires SeenIn(c, v, d, evs)[j].reply.Assertion? && T.Answers(SeenIn(c, v, d, evs), Shadows(c, v, d, evs), j, o)
    ensures ComesFrom(c, v, d, evs, j, o)
  {
    TracedAnswer(c, v, d, evs, j, o);
    EntryOfAnswer(c, v, At(c, v, d, evs, j), evs[j]);
    if !evs[j].Assert? {
      ListIsOf(c, v, d, evs, j, o);
    }
  }

  // Over every run, with the files changing in between: an answer with a credential that
  // requires user verification loads for the RP it is given for, was selected by the
  // getAssertion it answers, and stands on a PIN or a finger that verified the user.
  lemma ProtectedIsBacked(c: Crypto, v: Vault, d: Device, evs: seq<Event>, j: nat)
    requires JustPowered(d) && LawfulRun(c, v, d, evs) && j < |evs|
    requires ReplyAt(c, v, d, evs, j).Some? && ReplyAt(c, v, d, evs, j).value.Answer?
    requires A.RequiresVerification(ReplyAt(c, v, d, evs, j).value.entry)
    ensures var reply := ReplyAt(c, v, d, evs, j).value;
            && reply.uv && v.load(reply.entry.id, reply.rp) == Some(reply.entry.cred)
            && exists o: nat, g: nat :: ComesFrom(c, v, d, evs, j, o) && AuthorisedBy(c, v, d, evs, o, g)
  {
    var y, shadows := Project(d), Shadows(c, v, d, evs);
    LawfulPrefix(c, v, d, evs, j);
    RunProper(c, v, d, evs[..j]);
    StepProper(c, v, After(c, v, d, evs[..j]), evs[j]);
    EventIsSeen(c, v, d, evs, j);
    T.UvAssertionIsBacked(c, y, shadows, j);
    var o: nat, g: nat :| T.Answers(SeenIn(c, v, d, evs), shadows, j, o) && T.OpenedUnderGrant(c, y, shadows, o, g);
    AnswerComesFrom(c, v, d, evs, j, o);
    GrantIsPin(c, v, d, evs, o, g);
  }

  lemma GrantIsPin(c: Crypto, v: Vault, d: Device, evs: seq<Event>, o: nat, g: nat)
    requires WellFormed(d.s) && LawfulRun(c, v, d, evs)
    requires T.OpenedUnderGrant(c, Project(d), Shadows(c, v, d, evs), o, g)
    ensures AuthorisedBy(c, v, d, evs, o, g)
  {
    assert Shadows(c, v, d, evs)[g] == ShadowAt(c, v, d, evs, g);
    LawfulPrefix(c, v, d, evs, g);
    RunProjects(c, v, d, evs[..g]);
    ShadowsOfPrefix(c, v, d, evs, g);
  }
}
