// The 30 seconds getNextAssertion is allowed, in the firmware's 32-bit count of milliseconds
// and in real time (src/fido/cbor_get_assertion.c; CTAP 2.1 section 6.3).
module Clock {
  import opened Assertions
  import Tokens

  // One turn of the millisecond counter: 49 days, 17 hours and 2 minutes.
  const CYCLE: nat := 0x1_0000_0000
  const ALLOWED: nat := 30000

  // What board_millis() gives at real time t.
  function Millis(t: nat): nat {
    t % CYCLE
  }

  // The firmware's test at real time u of a timer set at real time t.
  predicate FoundExpired(t: nat, u: nat) {
    Tokens.Expired(Millis(t), Millis(u))
  }

  predicate Late(t: nat, u: nat) {
    u > t + ALLOWED
  }

  // The deadline falls into the same turn of the counter as the time of the test.
  predicate SameTurn(t: nat, u: nat) {
    (t + ALLOWED) / CYCLE == u / CYCLE
  }

  lemma Turns(t: nat)
    ensures t == CYCLE * (t / CYCLE) + Millis(t) && Millis(t) < CYCLE
  {
  }

  lemma Deadline(t: nat)
    ensures (Millis(t) + ALLOWED) % CYCLE == Millis(t + ALLOWED)
  {
  }

  lemma LaterTurn(a: nat, b: nat)
    requires a / CYCLE < b / CYCLE
    ensures a < b && b - a >= CYCLE - Millis(a) + Millis(b)
  {
    Turns(a);
    Turns(b);
    assert CYCLE * (b / CYCLE) >= CYCLE * (a / CYCLE) + CYCLE;
  }

  // The test is right if and only if the deadline falls into the turn of the test, or the test
  // comes in a later turn and by chance at a greater count. Within one turn after the timer
  // was set there is no such chance: outside the turn of the deadline, what is in time is
  // found expired before the counter wraps, and what is late is not found so afterwards.
  lemma TestIsRight(t: nat, u: nat)
    requires t <= u
    ensures (FoundExpired(t, u) <==> Late(t, u)) <==>
            SameTurn(t, u) || ((t + ALLOWED) / CYCLE < u / CYCLE && Millis(t + ALLOWED) < Millis(u))
    ensures u < t + CYCLE ==> ((FoundExpired(t, u) <==> Late(t, u)) <==> SameTurn(t, u))
  {
    var d := t + ALLOWED;
    Deadline(t);
    Turns(d);
    Turns(u);
    if u / CYCLE < d / CYCLE {
      LaterTurn(u, d);
    } else if d / CYCLE < u / CYCLE {
      LaterTurn(d, u);
    }
  }

  // In the turn of the deadline it is right however long ago the timer was set.
  lemma RightInTurn(t: nat, u: nat)
    requires SameTurn(t, u)
    ensures FoundExpired(t, u) <==> Late(t, u)
  {
    Deadline(t);
    Turns(t + ALLOWED);
    Turns(u);
  }

  // A list left in the last 30 seconds of a turn is found expired at once.
  lemma ExpiredAtOnce(t: nat)
    requires Millis(t) + ALLOWED >= CYCLE
    ensures FoundExpired(t, t) && !Late(t, t)
  {
  }

  // One left before that is not found expired just after the counter has wrapped, however late.
  lemma ForgottenByWrap(t: nat, u: nat)
    requires Millis(t) + ALLOWED < CYCLE && u / CYCLE == t / CYCLE + 1 && Millis(u) <= Millis(t) + ALLOWED
    ensures !FoundExpired(t, u) && Late(t, u)
  {
    Turns(t);
    Turns(u);
  }

  // After 49 days of power: asked again in the same millisecond, the list is gone; and one left
  // a minute before the wrap is still handed out a minute after it.
  lemma TwoRuns(p: Pending)
    requires p.counter < |p.list|
    ensures var t := CYCLE - 1; NextStep(p.(timer := Millis(t)), Request(Millis(t), true)).1.Refused?
    ensures var t, u := CYCLE - 60000, CYCLE + 60000;
            Late(t, u) && NextStep(p.(timer := Millis(t)), Request(Millis(u), true)).1.Answer?
  {
  }

  // ---------- the iteration in real time ----------

  // Each request comes within 30 seconds of the one before it, and no deadline falls into
  // another turn of the counter.
  predicate InTime(t: nat, us: seq<nat>)
    decreases |us|
  {
    us == [] || (t <= us[0] && !Late(t, us[0]) && SameTurn(t, us[0]) && InTime(us[0], us[1..]))
  }

  function At(us: seq<nat>): seq<Request> {
    if us == [] then [] else [Request(Millis(us[0]), true)] + At(us[1..])
  }

  // Such requests are what the results about whole iterations ask for.
  lemma {:induction false} InTimeIsTimely(t: nat, us: seq<nat>)
    requires InTime(t, us)
    ensures Timely(Millis(t), At(us)) && |At(us)| == |us|
    decreases |us|
  {
    if us != [] {
      RightInTurn(t, us[0]);
      InTimeIsTimely(us[0], us[1..]);
      assert At(us)[1..] == At(us[1..]);
    }
  }
}
