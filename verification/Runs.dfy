// Runs of a machine whose step answers every event.
module Runs {

  // The state after a sequence of events, and the replies in order.
  function Walk<S, E, R>(step: (S, E) -> (S, R), s: S, evs: seq<E>): (r: (S, seq<R>))
    ensures |r.1| == |evs|
    decreases |evs|
  {
    if evs == [] then (s, [])
    else
      var (s1, reply) := step(s, evs[0]);
      var (s2, rest) := Walk(step, s1, evs[1..]);
      (s2, [reply] + rest)
  }

  lemma WalkFirst<S, E, R>(step: (S, E) -> (S, R), s: S, ev: E, evs: seq<E>)
    ensures var (s1, reply) := step(s, ev);
            var (s2, replies) := Walk(step, s1, evs);
            Walk(step, s, [ev] + evs) == (s2, [reply] + replies)
  {
    assert ([ev] + evs)[1..] == evs;
  }

  lemma {:induction false} WalkConcat<S, E, R>(step: (S, E) -> (S, R), s: S, a: seq<E>, b: seq<E>)
    ensures var (s1, r1) := Walk(step, s, a);
            var (s2, r2) := Walk(step, s1, b);
            Walk(step, s, a + b) == (s2, r1 + r2)
    decreases |a|
  {
    if a == [] {
      assert a + b == b;
      assert [] + Walk(step, s, b).1 == Walk(step, s, b).1;
    } else {
      var (s1, x) := step(s, a[0]);
      var (s2, ra) := Walk(step, s1, a[1..]);
      var (s3, rb) := Walk(step, s2, b);
      WalkConcat(step, s1, a[1..], b);
      WalkFirst(step, s, a[0], a[1..]);
      WalkFirst(step, s, a[0], a[1..] + b);
      assert [a[0]] + a[1..] == a && [a[0]] + (a[1..] + b) == a + b;
      assert [x] + (ra + rb) == [x] + ra + rb;
    }
  }

  lemma WalkFour<S, E, R>(step: (S, E) -> (S, R), s: S, a: E, b: E, c: E, d: E)
    ensures var (t1, r1) := step(s, a);
            var (t2, r2) := step(t1, b);
            var (t3, r3) := step(t2, c);
            var (t4, r4) := step(t3, d);
            Walk(step, s, [a, b, c, d]) == (t4, [r1, r2, r3, r4])
  {
    var t1 := step(s, a).0;
    var t2 := step(t1, b).0;
    var t3 := step(t2, c).0;
    WalkFirst(step, t3, d, []);
    WalkFirst(step, t2, c, [d]);
    WalkFirst(step, t1, b, [c, d]);
    WalkFirst(step, s, a, [b, c, d]);
    assert [a] + [b, c, d] == [a, b, c, d] && [b] + [c, d] == [b, c, d] && [c] + [d] == [c, d] && [d] + [] == [d];
    var r2, r3, r4 := step(t1, b).1, step(t2, c).1, step(t3, d).1;
    assert [r4] + [] == [r4] && [r3] + [r4] == [r3, r4] && [r2] + [r3, r4] == [r2, r3, r4];
    assert [step(s, a).1] + [r2, r3, r4] == [step(s, a).1, r2, r3, r4];
  }
}
