// getAssertion and getNextAssertion: filtering and sorting what the search found in one array
// of 16, then handing the list out one by one
// (src/fido/cbor_get_assertion.c; CTAP 2.1 sections 6.2, 6.3 and 12.1).
module Assertions {
  import opened Basics
  import opened Credentials
  import opened CredentialSearch
  import opened CredentialStore
  import opened Runs
  import Tokens
  import ClientPin

  // ---------- what the list should be ----------

  // What credProtect allows; listed says that the request has an allow list.
  predicate Allowed(e: Entry, verified: bool, listed: bool) {
    verified || e.cred.extensions.None?
    || (e.cred.extensions.value.credProtect != PROTECT_REQUIRED
        && (listed || e.cred.extensions.value.credProtect != PROTECT_OPTIONAL_WITH_LIST))
  }

  function Eligible(es: seq<Entry>, verified: bool, listed: bool): (r: seq<Entry>)
    ensures |r| <= |es|
  {
    if es == [] then []
    else
      var n := |es| - 1;
      Eligible(es[..n], verified, listed) + if Allowed(es[n], verified, listed) then [es[n]] else []
  }

  // The filter keeps exactly what is allowed, as often as it occurs.
  lemma {:induction false} EligibleExact(es: seq<Entry>, verified: bool, listed: bool, e: Entry)
    ensures multiset(Eligible(es, verified, listed))[e] == if Allowed(e, verified, listed) then multiset(es)[e] else 0
  {
    if es != [] {
      var n := |es| - 1;
      EligibleExact(es[..n], verified, listed, e);
      assert es == es[..n] + [es[n]];
      assert multiset(es) == multiset(es[..n]) + multiset([es[n]]);
    }
  }

  predicate NewestFirst(es: seq<Entry>) {
    forall i, j :: 0 <= i < j < |es| ==> es[i].cred.creation >= es[j].cred.creation
  }

  // ---------- in place ----------

  // A survivor moves down over the gap, if there is one.
  method Keep(a: array<Entry>, n: nat, i: nat)
    requires n <= i < a.Length
    modifies a
    ensures a[..n + 1] == old(a[..n]) + [old(a[i])]
    ensures forall k :: i < k < a.Length ==> a[k] == old(a[k])
  {
    if n != i { a[n] := a[i]; }
  }

  lemma EligibleNext(es: seq<Entry>, i: nat, verified: bool, listed: bool)
    requires i < |es|
    ensures Eligible(es[..i + 1], verified, listed)
            == Eligible(es[..i], verified, listed) + if Allowed(es[i], verified, listed) then [es[i]] else []
  {
    assert es[..i + 1][..i] == es[..i];
  }

  // The filter loop.
  method Compact(a: array<Entry>, len: nat, verified: bool, listed: bool) returns (n: nat)
    requires len <= a.Length
    modifies a
    ensures n <= len && a[..n] == Eligible(old(a[..len]), verified, listed)
  {
    n := 0;
    var i := 0;
    ghost var all := a[..len];
    while i < len
      invariant n <= i <= len
      invariant a[..n] == Eligible(all[..i], verified, listed)
      invariant forall k :: i <= k < len ==> a[k] == all[k]
    {
      EligibleNext(all, i, verified, listed);
      var e := a[i];
      if e.cred.extensions.Some? && e.cred.extensions.value.credProtect == PROTECT_REQUIRED && !verified {
      } else if e.cred.extensions.Some? && e.cred.extensions.value.credProtect == PROTECT_OPTIONAL_WITH_LIST
                && !listed && !verified {
      } else {
        Keep(a, n, i);
        n := n + 1;
      }
      i := i + 1;
    }
    assert all[..len] == all;
  }

  function Swapped(es: seq<Entry>, i: nat, j: nat): seq<Entry>
    requires i < j < |es|
  {
    es[i := es[j]][j := es[i]]
  }

  // The first i places hold what they will hold in the end.
  predicate Settled(es: seq<Entry>, i: nat) {
    forall p, q :: 0 <= p < i && p < q < |es| ==> es[p].cred.creation >= es[q].cred.creation
  }

  // Entry i is no older than those up to j.
  predicate Ahead(es: seq<Entry>, i: nat, j: nat)
    requires i < j <= |es|
  {
    forall q :: i < q < j ==> es[i].cred.creation >= es[q].cred.creation
  }

  lemma SwapKeeps(es: seq<Entry>, i: nat, j: nat)
    requires i < j < |es| && Settled(es, i) && Ahead(es, i, j)
    requires es[j].cred.creation > es[i].cred.creation
    ensures multiset(Swapped(es, i, j)) == multiset(es)
    ensures Settled(Swapped(es, i, j), i) && Ahead(Swapped(es, i, j), i, j + 1)
  {
  }

  // The exchange sort: newest credential first.
  method SortNewestFirst(a: array<Entry>, n: nat)
    requires n <= a.Length
    modifies a
    ensures NewestFirst(a[..n]) && multiset(a[..n]) == old(multiset(a[..n]))
  {
    var i := 0;
    while i < n
      invariant i <= n
      invariant Settled(a[..n], i)
      invariant multiset(a[..n]) == old(multiset(a[..n]))
    {
      var j := i + 1;
      while j < n
        invariant i < j <= n
        invariant Settled(a[..n], i) && Ahead(a[..n], i, j)
        invariant multiset(a[..n]) == old(multiset(a[..n]))
      {
        ghost var es := a[..n];
        if a[j].cred.creation > a[i].cred.creation {
          SwapKeeps(es, i, j);
          a[i], a[j] := a[j], a[i];
          assert a[..n] == Swapped(es, i, j);
        }
        j := j + 1;
      }
      i := i + 1;
    }
  }

  // ---------- the pending list ----------

  // credsx, credentialCounter, timerx, flagsx, and of the request kept in datax its RP and
  // whether it had an allow list; numberOfCredentialsx is the list's length.
  datatype Pending = Pending(list: seq<Entry>, counter: nat, timer: nat, up: bool, uv: bool, rp: bytes32, listed: bool)

  // Bogus is the answer without a credential that a silent request gets.
  datatype Reply =
    | Answer(entry: Entry, up: bool, uv: bool, rp: bytes32, listed: bool, total: Option<nat>)
    | Bogus(up: bool, uv: bool, rp: bytes32, total: Option<nat>)
    | Refused(code: ClientPin.Code)

  // One request's time; what follows the choice of a credential, signing above all, may fail.
  datatype Request = Request(now: nat, signed: bool)

  // A getAssertion past the token checks: quiet when nothing asks for presence explicitly,
  // known the number of ids in the allow list whose silent tag verifies.
  datatype Ask = Ask(rp: bytes32, allow: seq<Descriptor>, up: bool, uv: bool, quiet: bool, known: nat, r: Request)

  function Cleared(): Pending { Pending([], 0, 0, false, false, Zeros32(), false) }

  function NextStep(p: Pending, r: Request): (Pending, Reply) {
    if p.counter >= |p.list| || Tokens.Expired(p.timer, r.now) then (Cleared(), Refused(ClientPin.NotAllowed))
    else if !r.signed then (Cleared(), Refused(ClientPin.Other))
    else
      (if p.counter + 1 == |p.list| then Cleared() else p.(counter := p.counter + 1, timer := r.now),
       Answer(p.list[p.counter], p.up, p.uv, p.rp, p.listed, None))
  }

  // With a credential on the device and more than one id listed, one answer is all there is.
  predicate Single(a: Ask, s: Search) {
    s.resident && |a.allow| > 1
  }

  // A silent request: its allow list names no credential that loads.
  predicate Silent(a: Ask, s: Search) {
    a.quiet && a.allow != [] && s.es == []
  }

  function Total(n: nat): Option<nat> {
    if n > 1 then Some(n) else None
  }

  // A getAssertion whose search found so much, of which es may be asserted: the first is
  // answered, with their number if there are several, and only then they become the list.
  function OpenStep(p: Pending, found: Option<Search>, es: seq<Entry>, a: Ask): (Pending, Reply) {
    if found.None? then (p, Refused(ClientPin.MissingParameter))
    else if es == [] then
      (p, if !Silent(a, found.value) || a.known == 0 then Refused(ClientPin.NoCredentials)
          else if a.r.signed then Bogus(a.up, a.uv, a.rp, Total(a.known))
          else Refused(ClientPin.Other))
    else
      var n := if Single(a, found.value) then 1 else |es|;
      (if n > 1 then Pending(es, 1, a.r.now, a.up, a.uv, a.rp, a.allow != []) else p,
       if a.r.signed then Answer(es[0], a.up, a.uv, a.rp, a.allow != [], Total(n)) else Refused(ClientPin.Other))
  }

  function EntriesOf(found: Option<Search>): seq<Entry> {
    if found.Some? then found.value.es else []
  }

  // What a getAssertion finds in the files, and of that what it may assert, newest first.
  ghost predicate Selection(v: Vault, files: seq<Option<CredFile>>, a: Ask, found: Option<Search>, es: seq<Entry>) {
    && found == Searched(v, files, a.rp, a.allow)
    && multiset(es) == multiset(Eligible(EntriesOf(found), a.uv, a.allow != []))
    && NewestFirst(es)
  }

  // ---------- the token results are about these lists ----------

  // The token logic sees the same list by its length.
  function Abstract(p: Pending): Tokens.Pending {
    Tokens.Pending(p.up, p.uv, p.rp, |p.list|, p.counter, p.timer)
  }

  function AbstractReply(reply: Reply, first: bool): Tokens.Reply {
    if reply.Refused? then Tokens.Refused(reply.code) else Tokens.Assertion(reply.up, reply.uv, first, reply.rp)
  }

  lemma NextRefines(p: Pending, r: Request, s: ClientPin.State)
    ensures var (q, reply) := NextStep(p, r);
            var (y, seen) := Tokens.NextStep(Tokens.System(s, Abstract(p)), r.now, r.signed);
            y == Tokens.System(s, Abstract(q)) && seen.reply == AbstractReply(reply, false)
  {
  }

  // How many credentials a search counts as found, with or without user verification.
  function Number(a: Ask, s: Search, uv: bool): nat {
    var n := |Eligible(s.es, uv, a.allow != [])|;
    if n == 0 && Silent(a, s) then a.known else n
  }

  // The request r of the token logic is the request a over these files.
  ghost predicate Describes(v: Vault, files: seq<Option<CredFile>>, a: Ask, r: Tokens.AssertionRequest) {
    && a.rp == r.rpIdHash && a.up == Tokens.WantsPresence(r) && a.uv == r.param.Some?
    && a.quiet == (!r.options || r.up == Some(false))
    && a.r == Request(r.now, r.signed)
    && match Searched(v, files, a.rp, a.allow)
       case None => !r.extensionsOk
       case Some(s) =>
         && r.found == Number(a, s, false) && r.foundVerified == Number(a, s, true)
         && r.single == Single(a, s) && r.silent == Silent(a, s)
  }

  function FoundFor(r: Tokens.AssertionRequest): nat {
    if r.param.Some? then r.foundVerified else r.found
  }

  lemma SelectionSize(v: Vault, files: seq<Option<CredFile>>, a: Ask, found: Option<Search>, es: seq<Entry>)
    requires Selection(v, files, a, found, es) && found.Some?
    ensures |es| == |Eligible(found.value.es, a.uv, a.allow != [])|
    ensures es != [] ==> !Silent(a, found.value)
  {
    var eligible := Eligible(found.value.es, a.uv, a.allow != []);
    assert |multiset(es)| == |es| && |multiset(eligible)| == |eligible|;
  }

  lemma RefusedIfNoneFound(c: ClientPin.Crypto, s: ClientPin.State, r: Tokens.AssertionRequest)
    requires var refusal := Tokens.AssertionRefusal(c, s, r); refusal.None? || refusal == Some(ClientPin.NoCredentials)
    ensures r.extensionsOk && (Tokens.AssertionRefusal(c, s, r).Some? <==> FoundFor(r) == 0)
  {
  }

  // The user was present, if the request asked for it, and the last check passed.
  predicate Confirmed(c: ClientPin.Crypto, s: ClientPin.State, r: Tokens.AssertionRequest) {
    !r.blobKeyRefused && (Tokens.WantsPresence(r) ==> Tokens.PresenceGiven(Tokens.TokenChecked(c, s, r), r))
  }

  // What the token logic makes of a request that nothing refuses.
  lemma PassedStep(c: ClientPin.Crypto, y: Tokens.System, r: Tokens.AssertionRequest)
    requires Tokens.AssertionRefusal(c, y.s, r).None? && Confirmed(c, y.s, r)
    ensures var (z, seen) := Tokens.AssertionStep(c, y, r);
            var n := if r.single then 1 else FoundFor(r);
            && z.pending == (if !r.silent && n > 1
                             then Tokens.Pending(Tokens.WantsPresence(r), r.param.Some?, r.rpIdHash, n, 1, r.now)
                             else y.pending)
            && seen.reply == if r.signed then Tokens.Assertion(Tokens.WantsPresence(r), r.param.Some?, true, r.rpIdHash)
                             else Tokens.Refused(ClientPin.Other)
  {
  }

  // The same of an opening: refused if nothing counts as found, else answered and kept by number.
  lemma OpenByNumber(v: Vault, files: seq<Option<CredFile>>, p: Pending, a: Ask, found: Option<Search>, es: seq<Entry>)
    requires Selection(v, files, a, found, es) && found.Some?
    ensures var (q, reply) := OpenStep(p, found, es, a);
            var number := Number(a, found.value, a.uv);
            var n := if Single(a, found.value) then 1 else number;
            && (reply == Refused(ClientPin.NoCredentials) <==> number == 0)
            && (number > 0 ==>
                  && Abstract(q) == (if !Silent(a, found.value) && n > 1 then Tokens.Pending(a.up, a.uv, a.rp, n, 1, a.r.now)
                                     else Abstract(p))
                  && AbstractReply(reply, true) == if a.r.signed then Tokens.Assertion(a.up, a.uv, true, a.rp)
                                                   else Tokens.Refused(ClientPin.Other))
  {
    SelectionSize(v, files, a, found, es);
  }

  // Once the token has passed, the token logic refuses for want of credentials exactly when
  // none may be asserted; otherwise, the user being present, it replies and keeps its list as
  // the list of credentials does.
  lemma OpenRefines(c: ClientPin.Crypto, v: Vault, files: seq<Option<CredFile>>, s: ClientPin.State, p: Pending,
                    a: Ask, r: Tokens.AssertionRequest, found: Option<Search>, es: seq<Entry>)
    requires Describes(v, files, a, r) && Selection(v, files, a, found, es)
    requires var refusal := Tokens.AssertionRefusal(c, s, r); refusal.None? || refusal == Some(ClientPin.NoCredentials)
    ensures var (q, reply) := OpenStep(p, found, es, a);
            && (Tokens.AssertionRefusal(c, s, r).Some? <==> reply == Refused(ClientPin.NoCredentials))
            && (reply != Refused(ClientPin.NoCredentials) && Confirmed(c, s, r) ==>
                  var (y, seen) := Tokens.AssertionStep(c, Tokens.System(s, Abstract(p)), r);
                  y.pending == Abstract(q) && seen.reply == AbstractReply(reply, true))
  {
    RefusedIfNoneFound(c, s, r);
    assert found.Some?;
    OpenByNumber(v, files, p, a, found, es);
    assert FoundFor(r) == Number(a, found.value, a.uv);
    if FoundFor(r) != 0 && Confirmed(c, s, r) { PassedStep(c, Tokens.System(s, Abstract(p)), r); }
  }

  // ---------- handing out a list ----------

  // No request finds the list expired since the answer before it; Clock relates that to time.
  predicate Timely(timer: nat, rs: seq<Request>)
    decreases |rs|
  {
    rs == [] || (rs[0].signed && !Tokens.Expired(timer, rs[0].now) && Timely(rs[0].now, rs[1..]))
  }

  // The entries as answers to the request that left the list.
  function Answers(es: seq<Entry>, p: Pending): seq<Reply> {
    if es == [] then [] else [Answer(es[0], p.up, p.uv, p.rp, p.listed, None)] + Answers(es[1..], p)
  }

  lemma {:induction false} AnswersLike(es: seq<Entry>, p: Pending, q: Pending)
    requires p.up == q.up && p.uv == q.uv && p.rp == q.rp && p.listed == q.listed
    ensures Answers(es, p) == Answers(es, q)
  {
    if es != [] { AnswersLike(es[1..], p, q); }
  }

  function Machine(): (Pending, Request) -> (Pending, Reply) {
    (p: Pending, r: Request) => NextStep(p, r)
  }

  predicate AllRefused(replies: seq<Reply>) {
    forall i :: 0 <= i < |replies| ==> replies[i].Refused?
  }

  // With nothing pending every request is refused and nothing becomes pending.
  lemma {:induction false} ClearedRefuses(rs: seq<Request>)
    ensures var (q, replies) := Walk(Machine(), Cleared(), rs); q == Cleared() && AllRefused(replies)
    decreases |rs|
  {
    if rs != [] { ClearedRefuses(rs[1..]); }
  }

  // Timely requests hand out the rest of the list in order, each entry once, under the flags
  // and for the RP of the opening; then nothing is pending.
  lemma {:induction false} Iteration(p: Pending, rs: seq<Request>)
    requires p.counter < |p.list| && |rs| == |p.list| - p.counter && Timely(p.timer, rs)
    ensures Walk(Machine(), p, rs) == (Cleared(), Answers(p.list[p.counter..], p))
    decreases |rs|
  {
    var (q, reply) := NextStep(p, rs[0]);
    assert p.list[p.counter..][1..] == p.list[p.counter + 1..];
    if |rs| > 1 {
      Iteration(q, rs[1..]);
      AnswersLike(p.list[p.counter + 1..], p, q);
    } else {
      assert rs[1..] == [] && p.list[p.counter + 1..] == [];
    }
  }

  // A request that comes too late or cannot be signed ends the list for good: it and all that
  // follow it get nothing.
  lemma InterruptionEnds(p: Pending, r: Request, rs: seq<Request>)
    requires !r.signed || Tokens.Expired(p.timer, r.now)
    ensures var (q, replies) := Walk(Machine(), p, [r] + rs); q == Cleared() && AllRefused(replies)
  {
    ClearedRefuses(rs);
    WalkFirst(Machine(), p, r, rs);
  }

  function Entries(replies: seq<Reply>): seq<Entry> {
    if replies == [] then []
    else (if replies[0].Answer? then [replies[0].entry] else []) + Entries(replies[1..])
  }

  lemma {:induction false} EntriesOfAnswers(es: seq<Entry>, p: Pending)
    ensures Entries(Answers(es, p)) == es
  {
    if es != [] {
      EntriesOfAnswers(es[1..], p);
      assert Answers(es, p)[1..] == Answers(es[1..], p);
    }
  }

  // Each entry found as often as credProtect allows it.
  ghost predicate ExactlyAllowed(es: seq<Entry>, found: seq<Entry>, uv: bool, listed: bool) {
    forall e :: multiset(es)[e] == if Allowed(e, uv, listed) then multiset(found)[e] else 0
  }

  lemma EligibleCounts(es: seq<Entry>, found: seq<Entry>, uv: bool, listed: bool)
    requires multiset(es) == multiset(Eligible(found, uv, listed))
    ensures ExactlyAllowed(es, found, uv, listed)
  {
    forall e: Entry
      ensures multiset(es)[e] == if Allowed(e, uv, listed) then multiset(found)[e] else 0
    {
      EligibleExact(found, uv, listed, e);
    }
  }

  // The first answer and the timely next ones together are the entries selected, in order.
  lemma AllShown(p: Pending, found: Option<Search>, es: seq<Entry>, a: Ask, rs: seq<Request>)
    requires found.Some? && !Single(a, found.value) && a.r.signed
    requires |es| > 1 && |rs| == |es| - 1 && Timely(a.r.now, rs)
    ensures var (q, first) := OpenStep(p, found, es, a);
            var (last, replies) := Walk(Machine(), q, rs);
            last == Cleared() && Entries([first] + replies) == es
  {
    var (q, first) := OpenStep(p, found, es, a);
    Iteration(q, rs);
    var replies := Walk(Machine(), q, rs).1;
    EntriesOfAnswers(es[1..], q);
    assert ([first] + replies)[1..] == replies && es == [es[0]] + es[1..];
  }

  // A getAssertion that found several credentials and as many timely requests as are left:
  // the answers together are newest first and hold each credential found exactly as often as
  // credProtect allows it; after them every request is refused.
  lemma FullIteration(v: Vault, files: seq<Option<CredFile>>, p: Pending, found: Option<Search>, es: seq<Entry>,
                      a: Ask, rs: seq<Request>, more: seq<Request>)
    requires Selection(v, files, a, found, es) && found.Some? && !Single(a, found.value) && a.r.signed
    requires |es| > 1 && |rs| == |es| - 1 && Timely(a.r.now, rs)
    ensures var (q, first) := OpenStep(p, found, es, a);
            var (last, replies) := Walk(Machine(), q, rs);
            var shown := Entries([first] + replies);
            && NewestFirst(shown) && ExactlyAllowed(shown, found.value.es, a.uv, a.allow != [])
            && AllRefused(Walk(Machine(), last, more).1)
  {
    AllShown(p, found, es, a, rs);
    EligibleCounts(es, found.value.es, a.uv, a.allow != []);
    ClearedRefuses(more);
  }

  // ---------- runs of openings and next requests ----------

  datatype Event =
    | Open(files: seq<Option<CredFile>>, found: Option<Search>, es: seq<Entry>, a: Ask)
    | Next(r: Request)

  function Step(p: Pending, ev: Event): (Pending, Reply) {
    match ev
    case Open(_, found, es, a) => OpenStep(p, found, es, a)
    case Next(r) => NextStep(p, r)
  }

  function EventMachine(): (Pending, Event) -> (Pending, Reply) {
    (p: Pending, ev: Event) => Step(p, ev)
  }

  // The files may change from opening to opening; each selects from what it finds.
  ghost predicate Lawful(v: Vault, ev: Event) {
    ev.Open? ==> Selection(v, ev.files, ev.a, ev.found, ev.es)
  }

  // The entry is a credential of rp that may be asserted with this verification, the request
  // having an allow list or not.
  predicate Proper(v: Vault, e: Entry, rp: bytes32, uv: bool, listed: bool) {
    v.load(e.id, rp) == Some(e.cred) && Allowed(e, uv, listed)
  }

  predicate AllProper(v: Vault, es: seq<Entry>, rp: bytes32, uv: bool, listed: bool) {
    forall i :: 0 <= i < |es| ==> Proper(v, es[i], rp, uv, listed)
  }

  lemma SelectionProper(v: Vault, files: seq<Option<CredFile>>, a: Ask, found: Option<Search>, es: seq<Entry>)
    requires Selection(v, files, a, found, es)
    ensures AllProper(v, es, a.rp, a.uv, a.allow != [])
  {
    if found.Some? { SearchedLoads(v, files, a.rp, a.allow); }
    EligibleCounts(es, EntriesOf(found), a.uv, a.allow != []);
    forall i | 0 <= i < |es| ensures Proper(v, es[i], a.rp, a.uv, a.allow != []) {
      assert es[i] in multiset(es) && multiset(es)[es[i]] > 0;
      assert es[i] in multiset(EntriesOf(found));
      assert es[i] in EntriesOf(found);
    }
  }

  predicate ProperReply(v: Vault, reply: Reply) {
    reply.Answer? ==> Proper(v, reply.entry, reply.rp, reply.uv, reply.listed)
  }

  predicate ProperReplies(v: Vault, replies: seq<Reply>) {
    forall i :: 0 <= i < |replies| ==> ProperReply(v, replies[i])
  }

  lemma ProperFirst(v: Vault, reply: Reply, rest: seq<Reply>)
    requires ProperReply(v, reply) && ProperReplies(v, rest)
    ensures ProperReplies(v, [reply] + rest)
  {
  }

  lemma OpenProper(v: Vault, p: Pending, found: Option<Search>, es: seq<Entry>, a: Ask)
    requires AllProper(v, p.list, p.rp, p.uv, p.listed) && AllProper(v, es, a.rp, a.uv, a.allow != [])
    ensures var (q, reply) := OpenStep(p, found, es, a);
            AllProper(v, q.list, q.rp, q.uv, q.listed) && ProperReply(v, reply)
  {
    if es != [] { assert Proper(v, es[0], a.rp, a.uv, a.allow != []); }
  }

  lemma NextProper(v: Vault, p: Pending, r: Request)
    requires AllProper(v, p.list, p.rp, p.uv, p.listed)
    ensures var (q, reply) := NextStep(p, r); AllProper(v, q.list, q.rp, q.uv, q.listed) && ProperReply(v, reply)
  {
    if p.counter < |p.list| { assert Proper(v, p.list[p.counter], p.rp, p.uv, p.listed); }
  }

  lemma StepProper(v: Vault, p: Pending, ev: Event)
    requires AllProper(v, p.list, p.rp, p.uv, p.listed) && Lawful(v, ev)
    ensures var (q, reply) := Step(p, ev); AllProper(v, q.list, q.rp, q.uv, q.listed) && ProperReply(v, reply)
  {
    match ev
    case Open(files, found, es, a) =>
      SelectionProper(v, files, a, found, es);
      OpenProper(v, p, found, es, a);
    case Next(r) => NextProper(v, p, r);
  }

  // Over every run, with allow lists and without, whatever lists are left behind and picked up
  // later, every answer is a credential of the RP it is given for, and its credProtect allows
  // it under the user-verified flag it carries.
  lemma {:induction false} AnswersAreProper(v: Vault, p: Pending, evs: seq<Event>)
    requires AllProper(v, p.list, p.rp, p.uv, p.listed) && forall i :: 0 <= i < |evs| ==> Lawful(v, evs[i])
    ensures ProperReplies(v, Walk(EventMachine(), p, evs).1)
    decreases |evs|
  {
    if evs != [] {
      var (q, reply) := Step(p, evs[0]);
      StepProper(v, p, evs[0]);
      AnswersAreProper(v, q, evs[1..]);
      ProperFirst(v, reply, Walk(EventMachine(), q, evs[1..]).1);
    }
  }

  // So a credential that requires user verification is never answered without it.
  lemma ProtectedNeedsVerification(v: Vault, evs: seq<Event>, i: nat)
    requires i < |evs| && forall k :: 0 <= k < |evs| ==> Lawful(v, evs[k])
    ensures var reply := Walk(EventMachine(), Cleared(), evs).1[i];
            reply.Answer? && RequiresVerification(reply.entry) ==> reply.uv
  {
    AnswersAreProper(v, Cleared(), evs);
  }

  predicate RequiresVerification(e: Entry) {
    e.cred.extensions.Some? && e.cred.extensions.value.credProtect == PROTECT_REQUIRED
  }

  class Desk {
    const v: Vault
    var list: seq<Entry>
    var counter: nat
    var timer: nat
    var up: bool
    var uv: bool
    var rp: bytes32
    var listed: bool

    function Now(): Pending
      reads this
    {
      Pending(list, counter, timer, up, uv, rp, listed)
    }

    constructor (v: Vault)
      ensures this.v == v && list == [] && counter == 1
    {
      this.v := v;
      list, counter, timer, up, uv, rp, listed := [], 1, 0, false, false, Zeros32(), false;
    }

    // Search, filter and sort: what was found, and what of it may be asserted, newest first.
    method Select(files: seq<Option<CredFile>>, a: Ask) returns (found: Option<Search>, es: seq<Entry>)
      requires |a.allow| <= LIST_MAX
      ensures Selection(v, files, a, found, es) && |es| <= LIST_MAX
    {
      var creds := new Entry[LIST_MAX](_ => Entry(BLANK, []));
      var ok, len, resident := true, 0, true;
      if a.allow != [] {
        ok, len, resident := CollectListed(v, files, a.rp, a.allow, creds);
      } else {
        len := Collect(v, files, a.rp, creds);
      }
      if !ok { return None, []; }
      found := Some(Search(creds[..len], resident));
      var n := Compact(creds, len, a.uv, a.allow != []);
      SortNewestFirst(creds, n);
      es := creds[..n];
    }

    // getAssertion past the token checks.
    method GetAssertion(files: seq<Option<CredFile>>, a: Ask) returns (reply: Reply, found: Option<Search>, es: seq<Entry>)
      requires |a.allow| <= LIST_MAX
      modifies this
      ensures Selection(v, files, a, found, es)
      ensures (Now(), reply) == OpenStep(old(Now()), found, es, a)
    {
      found, es := Select(files, a);
      reply := Conclude(found, es, a);
    }

    // The rest of getAssertion, from counting what is left on.
    method Conclude(found: Option<Search>, es: seq<Entry>, a: Ask) returns (reply: Reply)
      modifies this
      ensures (Now(), reply) == OpenStep(old(Now()), found, es, a)
    {
      if found.None? { return Refused(ClientPin.MissingParameter); }
      var n := |es|;
      if n == 0 && a.quiet && |a.allow| > 0 && found.value.es == [] { n := a.known; }
      if n == 0 { return Refused(ClientPin.NoCredentials); }
      if es == [] {
        return if a.r.signed then Bogus(a.up, a.uv, a.rp, Total(n)) else Refused(ClientPin.Other);
      }
      if found.value.resident && |a.allow| > 1 { n := 1; }
      if n > 1 {
        list, counter, timer, up, uv, rp, listed := es, 1, a.r.now, a.up, a.uv, a.rp, |a.allow| > 0;
      }
      if !a.r.signed { return Refused(ClientPin.Other); }
      return Answer(es[0], a.up, a.uv, a.rp, |a.allow| > 0, Total(n));
    }

    method GetNextAssertion(r: Request) returns (reply: Reply)
      modifies this
      ensures (Now(), reply) == NextStep(old(Now()), r)
    {
      if counter < |list| && !Tokens.Expired(timer, r.now) && r.signed {
        reply := Answer(list[counter], up, uv, rp, listed, None);
        timer := r.now;
        counter := counter + 1;
        if counter != |list| { return; }
      } else if counter >= |list| || Tokens.Expired(timer, r.now) {
        reply := Refused(ClientPin.NotAllowed);
      } else {
        reply := Refused(ClientPin.Other);
      }
      list, counter, timer, up, uv, rp, listed := [], 0, 0, false, false, Zeros32(), false;
    }
  }

  const BLANK := Credential(None, None, None, None, 0, None, None, 0, 0, None)
}
