// What credProtect lets getAssertion and getNextAssertion answer, in the extension's own terms
// (src/fido/cbor_get_assertion.c; CTAP 2.1 section 12.1).
module Protection {
  import opened Basics
  import opened Credentials
  import opened CredentialSearch
  import opened CredentialStore
  import opened Runs
  import opened Assertions
  import ClientPin

  // Without user verification level 3 is withheld always, and level 2 when no list names it.
  predicate Withheld(e: Entry, uv: bool, listed: bool) {
    && !uv && e.cred.extensions.Some?
    && (e.cred.extensions.value.credProtect == 3 || (e.cred.extensions.value.credProtect == 2 && !listed))
  }

  // The places of the entries found that are not withheld.
  function NotWithheld(es: seq<Entry>, uv: bool, listed: bool): set<nat> {
    set i: nat | i < |es| && !Withheld(es[i], uv, listed)
  }

  lemma {:induction false} EligibleNumber(es: seq<Entry>, uv: bool, listed: bool)
    ensures |Eligible(es, uv, listed)| == |NotWithheld(es, uv, listed)|
  {
    if es == [] {
      assert NotWithheld(es, uv, listed) == {};
    } else {
      var n := |es| - 1;
      EligibleNumber(es[..n], uv, listed);
      if Withheld(es[n], uv, listed) {
        assert NotWithheld(es, uv, listed) == NotWithheld(es[..n], uv, listed);
      } else {
        assert NotWithheld(es, uv, listed) == NotWithheld(es[..n], uv, listed) + {n};
      }
    }
  }

  // What is selected: every entry found that is not withheld, as often as it was found, and no
  // other; the newest first.
  lemma SelectedExactly(v: Vault, files: seq<Option<CredFile>>, a: Ask, found: Option<Search>, es: seq<Entry>)
    requires Selection(v, files, a, found, es) && found.Some?
    ensures forall e: Entry :: multiset(es)[e] == if Withheld(e, a.uv, a.allow != []) then 0 else multiset(found.value.es)[e]
    ensures |es| == |NotWithheld(found.value.es, a.uv, a.allow != [])|
    ensures forall i, j :: 0 <= i < j < |es| ==> es[i].cred.creation >= es[j].cred.creation
  {
    forall e: Entry
      ensures multiset(es)[e] == if Withheld(e, a.uv, a.allow != []) then 0 else multiset(found.value.es)[e]
    {
      EligibleExact(found.value.es, a.uv, a.allow != [], e);
    }
    EligibleNumber(found.value.es, a.uv, a.allow != []);
    SelectionSize(v, files, a, found, es);
  }

  // The newest of the entries found that are not withheld.
  ghost predicate Newest(found: seq<Entry>, uv: bool, listed: bool, e: Entry) {
    && e in found && !Withheld(e, uv, listed)
    && forall i :: 0 <= i < |found| && !Withheld(found[i], uv, listed) ==> found[i].cred.creation <= e.cred.creation
  }

  lemma FirstIsNewest(v: Vault, files: seq<Option<CredFile>>, a: Ask, found: Option<Search>, es: seq<Entry>)
    requires Selection(v, files, a, found, es) && found.Some? && es != []
    ensures Newest(found.value.es, a.uv, |a.allow| > 0, es[0])
  {
    SelectedExactly(v, files, a, found, es);
    var all := found.value.es;
    assert es[0] in multiset(es) && multiset(es)[es[0]] > 0;
    assert es[0] in multiset(all);
    forall i | 0 <= i < |all| && !Withheld(all[i], a.uv, a.allow != [])
      ensures all[i].cred.creation <= es[0].cred.creation
    {
      assert all[i] in multiset(all) && multiset(es)[all[i]] > 0;
      assert all[i] in multiset(es) && all[i] in es;
      var k :| 0 <= k < |es| && es[k] == all[i];
    }
  }

  lemma SelectedNumber(v: Vault, files: seq<Option<CredFile>>, a: Ask, found: Option<Search>, es: seq<Entry>)
    requires Selection(v, files, a, found, es) && found.Some?
    ensures |es| == |NotWithheld(found.value.es, a.uv, |a.allow| > 0)|
  {
    EligibleNumber(found.value.es, a.uv, a.allow != []);
    SelectionSize(v, files, a, found, es);
  }

  // Nothing may be asserted: refused, but for the silent request whose allow list names a known
  // id, which is answered without a credential.
  predicate NothingShown(a: Ask, s: Search, reply: Reply) {
    && !reply.Answer?
    && (reply.Bogus? <==> a.quiet && |a.allow| > 0 && s.es == [] && a.known > 0 && a.r.signed)
    && (reply.Bogus? ==> reply.total == if a.known > 1 then Some(a.known) else None)
  }

  // This one of n entries is answered, under the request's flags and for its RP; several says
  // whether their number is reported.
  predicate OneShown(a: Ask, n: nat, several: bool, e: Entry, reply: Reply) {
    && !reply.Bogus?
    && (if a.r.signed then reply == Answer(e, a.up, a.uv, a.rp, |a.allow| > 0, if several then Some(n) else None)
        else reply.Refused?)
  }

  lemma OpenPlain(p: Pending, a: Ask, s: Search, es: seq<Entry>)
    ensures var (q, reply) := OpenStep(p, Some(s), es, a);
            var several := |es| > 1 && !(s.resident && |a.allow| > 1);
            if es == [] then q == p && NothingShown(a, s, reply)
            else
              && q == (if several then Pending(es, 1, a.r.now, a.up, a.uv, a.rp, |a.allow| > 0) else p)
              && OneShown(a, |es|, several, es[0], reply)
  {
  }

  // A getAssertion past the token and presence checks. With n entries not withheld: none is
  // refused, but for the silent request; otherwise the newest is answered, and with more than
  // one their number is reported and they become the list. When several ids are listed and a
  // credential on the device was found, one answer is all there is.
  lemma OpeningMeans(v: Vault, files: seq<Option<CredFile>>, p: Pending, a: Ask, found: Option<Search>, es: seq<Entry>)
    requires Selection(v, files, a, found, es)
    ensures var (q, reply) := OpenStep(p, found, es, a);
            if found.None? then q == p && reply == Refused(ClientPin.MissingParameter)
            else
              var n := |NotWithheld(found.value.es, a.uv, |a.allow| > 0)|;
              var several := n > 1 && !(found.value.resident && |a.allow| > 1);
              if n == 0 then q == p && NothingShown(a, found.value, reply)
              else
                && es != [] && Newest(found.value.es, a.uv, |a.allow| > 0, es[0]) && OneShown(a, n, several, es[0], reply)
                && q == if several then Pending(es, 1, a.r.now, a.up, a.uv, a.rp, |a.allow| > 0) else p
  {
    if found.Some? {
      OpenPlain(p, a, found.value, es);
      SelectedNumber(v, files, a, found, es);
      if es != [] { FirstIsNewest(v, files, a, found, es); }
    }
  }

  // The credentials of the answers to a getAssertion and the requests for the next that follow.
  ghost function Shown(p: Pending, found: Option<Search>, es: seq<Entry>, a: Ask, rs: seq<Request>): seq<Entry> {
    var (q, first) := OpenStep(p, found, es, a);
    Entries([first] + Walk(Assertions.Machine(), q, rs).1)
  }

  lemma EntryOfOne(reply: Reply)
    ensures reply.Answer? ==> Entries([reply]) == [reply.entry]
  {
    assert [reply][1..] == [];
  }

  lemma ShownIsSelected(p: Pending, found: Option<Search>, es: seq<Entry>, a: Ask, rs: seq<Request>)
    requires found.Some? && a.r.signed && !(found.value.resident && |a.allow| > 1)
    requires |rs| + 1 == |es| && Timely(a.r.now, rs)
    ensures Shown(p, found, es, a, rs) == es
  {
    if |es| > 1 {
      AllShown(p, found, es, a, rs);
    } else {
      var (q, first) := OpenStep(p, found, es, a);
      assert Walk(Assertions.Machine(), q, rs).1 == [];
      Nothing([first]);
      EntryOfOne(first);
    }
  }

  // A signed getAssertion that is not cut to one answer, and as many timely requests as are
  // left: the answers together hold every entry found that is not withheld, as often as it was
  // found, and nothing else, the newest first.
  lemma AllNotWithheldShown(v: Vault, files: seq<Option<CredFile>>, p: Pending, found: Option<Search>, es: seq<Entry>,
                            a: Ask, rs: seq<Request>)
    requires Selection(v, files, a, found, es) && found.Some? && a.r.signed
    requires !(found.value.resident && |a.allow| > 1)
    requires |rs| + 1 == |NotWithheld(found.value.es, a.uv, a.allow != [])| && Timely(a.r.now, rs)
    ensures var shown := Shown(p, found, es, a, rs);
            && (forall e: Entry :: multiset(shown)[e] ==
                  if !a.uv && e.cred.extensions.Some?
                     && (e.cred.extensions.value.credProtect == 3 || (e.cred.extensions.value.credProtect == 2 && a.allow == []))
                  then 0 else multiset(found.value.es)[e])
            && forall i, j :: 0 <= i < j < |shown| ==> shown[i].cred.creation >= shown[j].cred.creation
  {
    SelectedExactly(v, files, a, found, es);
    ShownIsSelected(p, found, es, a, rs);
  }

  // ---------- over runs ----------

  // The list is what this opening selected, for its RP, flags and kind of request.
  predicate LeftBy(p: Pending, ev: Event) {
    && ev.Open? && p.list == ev.es
    && p.up == ev.a.up && p.uv == ev.a.uv && p.rp == ev.a.rp && p.listed == (|ev.a.allow| > 0)
  }

  ghost predicate LeftByOne(p: Pending, evs: seq<Event>) {
    p.list == [] || exists j :: 0 <= j < |evs| && LeftBy(p, evs[j])
  }

  // The answer is one of this opening's, to whom it names and as it asks, of an entry that was
  // found and that neither level of credProtect withholds.
  ghost predicate AnswerOf(reply: Reply, ev: Event) {
    && reply.Answer? && ev.Open? && ev.found.Some?
    && reply.rp == ev.a.rp && reply.up == ev.a.up && reply.uv == ev.a.uv && reply.listed == (|ev.a.allow| > 0)
    && reply.entry in ev.found.value.es
    && (!ev.a.uv && reply.entry.cred.extensions.Some? ==>
          && reply.entry.cred.extensions.value.credProtect != 3
          && (ev.a.allow == [] ==> reply.entry.cred.extensions.value.credProtect != 2))
  }

  lemma NothingSelected(v: Vault, ev: Event)
    requires Lawful(v, ev) && ev.Open?
    ensures ev.found.None? ==> ev.es == []
  {
    if ev.es != [] {
      assert ev.es[0] in multiset(ev.es);
    }
  }

  lemma SelectedAnswer(v: Vault, reply: Reply, ev: Event, k: nat)
    requires Lawful(v, ev) && reply.Answer? && ev.Open? && k < |ev.es| && reply.entry == ev.es[k]
    requires reply.rp == ev.a.rp && reply.up == ev.a.up && reply.uv == ev.a.uv && reply.listed == (|ev.a.allow| > 0)
    ensures AnswerOf(reply, ev)
  {
    NothingSelected(v, ev);
    if ev.found.Some? {
      SelectedExactly(v, ev.files, ev.a, ev.found, ev.es);
      assert ev.es[k] in multiset(ev.es) && multiset(ev.es)[ev.es[k]] > 0;
      assert ev.es[k] in multiset(ev.found.value.es);
    }
  }

  lemma StepLeft(p: Pending, evs: seq<Event>, ev: Event)
    requires LeftByOne(p, evs)
    ensures LeftByOne(Assertions.Step(p, ev).0, evs + [ev])
  {
    var q := Assertions.Step(p, ev).0;
    if q.list != [] {
      if q.list == p.list && q.up == p.up && q.uv == p.uv && q.rp == p.rp && q.listed == p.listed {
        var j :| 0 <= j < |evs| && LeftBy(p, evs[j]);
        assert LeftBy(q, (evs + [ev])[j]);
      } else {
        assert LeftBy(q, (evs + [ev])[|evs|]);
      }
    }
  }

  lemma OpenAnswers(v: Vault, p: Pending, ev: Event)
    requires Lawful(v, ev) && ev.Open? && OpenStep(p, ev.found, ev.es, ev.a).1.Answer?
    ensures AnswerOf(OpenStep(p, ev.found, ev.es, ev.a).1, ev)
  {
    SelectedAnswer(v, OpenStep(p, ev.found, ev.es, ev.a).1, ev, 0);
  }

  lemma NextAnswers(v: Vault, p: Pending, r: Request, ev: Event)
    requires Lawful(v, ev) && LeftBy(p, ev) && NextStep(p, r).1.Answer?
    ensures AnswerOf(NextStep(p, r).1, ev)
  {
    SelectedAnswer(v, NextStep(p, r).1, ev, p.counter);
  }

  lemma StepAnswers(v: Vault, p: Pending, evs: seq<Event>, ev: Event) returns (j: nat)
    requires LeftByOne(p, evs) && (forall i :: 0 <= i < |evs| ==> Lawful(v, evs[i])) && Lawful(v, ev)
    ensures Assertions.Step(p, ev).1.Answer? ==> j <= |evs| && AnswerOf(Assertions.Step(p, ev).1, (evs + [ev])[j])
  {
    j := 0;
    if Assertions.Step(p, ev).1.Answer? {
      if ev.Open? {
        j := |evs|;
        OpenAnswers(v, p, ev);
      } else {
        j :| 0 <= j < |evs| && LeftBy(p, evs[j]);
        NextAnswers(v, p, ev.r, evs[j]);
      }
    }
  }

  // Over every run each answer is one of an opening of the run, and what that opening's
  // missing verification withholds is never answered: not level 3, and level 2 only when the
  // opening had an allow list.
  lemma {:induction false} AnswersHaveOpenings(v: Vault, evs: seq<Event>, i: nat) returns (j: nat)
    requires i < |evs| && forall k :: 0 <= k < |evs| ==> Lawful(v, evs[k])
    ensures var reply := Walk(EventMachine(), Cleared(), evs).1[i];
            reply.Answer? ==> j <= i && AnswerOf(reply, evs[j])
  {
    var past := evs[..i];
    RunLeft(past);
    var p, replies := Walk(EventMachine(), Cleared(), past).0, Walk(EventMachine(), Cleared(), past).1;
    j := StepAnswers(v, p, past, evs[i]);
    WalkConcat(EventMachine(), Cleared(), past, evs[i..]);
    assert past + evs[i..] == evs && evs[i..][0] == evs[i];
    assert Walk(EventMachine(), p, evs[i..]).1[0] == Assertions.Step(p, evs[i]).1;
  }

  lemma {:induction false} RunLeft(evs: seq<Event>)
    ensures LeftByOne(Walk(EventMachine(), Cleared(), evs).0, evs)
  {
    if evs != [] {
      var m := |evs| - 1;
      RunLeft(evs[..m]);
      var p := Walk(EventMachine(), Cleared(), evs[..m]).0;
      StepLeft(p, evs[..m], evs[m]);
      WalkConcat(EventMachine(), Cleared(), evs[..m], [evs[m]]);
      assert evs[..m] + [evs[m]] == evs;
      WalkFirst(EventMachine(), p, evs[m], []);
      assert [evs[m]] + [] == [evs[m]];
    }
  }
}
