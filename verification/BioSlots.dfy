// Fingerprint slots: the cache of used slots against the sensor, and the enrolment commands
// that the protocol side hands to the sensor worker over a queue
// (src/fido/biometric.c, src/fido/cbor_bio_enroll.c; CTAP 2.1 section 6.7).
module BioSlots {
  import opened Basics
  import opened Runs
  import ClientPin

  const SLOTS: nat := 164
  const QUEUE: nat := 2

  // One flag for each slot.
  type slots = s: seq<bool> | |s| == SLOTS witness seq(SLOTS, _ => false)

  function NoSlots(): slots { seq(SLOTS, _ => false) }

  // ---------- the scan ----------

  function Found(s: seq<bool>): (n: nat)
    ensures n <= |s|
  {
    if s == [] then 0 else Found(s[..|s| - 1]) + if s[|s| - 1] then 1 else 0
  }

  // What the scan marks: the first count slots that load.
  function Marked(loads: slots, count: nat): slots {
    seq(SLOTS, id requires 0 <= id < SLOTS => loads[id] && Found(loads[..id]) < count)
  }

  lemma {:induction false} FoundGrows(s: seq<bool>, i: nat)
    requires i <= |s|
    ensures Found(s[..i]) <= Found(s)
    decreases |s|
  {
    if i < |s| {
      FoundGrows(s[..|s| - 1], i);
      assert s[..|s| - 1][..i] == s[..i];
    } else {
      assert s[..i] == s;
    }
  }

  // The scan stops early, and yet marks every slot that loads, if and only if the count the
  // sensor gave covers them all.
  lemma ScanIsExact(loads: slots, count: nat)
    ensures Marked(loads, count) == loads <==> Found(loads) <= count
  {
    if Found(loads) <= count {
      forall id | 0 <= id < SLOTS ensures Marked(loads, count)[id] == loads[id] {
        FoundGrows(loads, id + 1);
        assert loads[..id + 1][..id] == loads[..id];
      }
    } else {
      var id := LastLoad(loads);
      assert loads[..id + 1][..id] == loads[..id];
      assert loads[id] && !Marked(loads, count)[id];
    }
  }

  lemma {:induction false} LastLoad(s: seq<bool>) returns (id: nat)
    requires Found(s) > 0
    ensures id < |s| && s[id] && Found(s[..id + 1]) == Found(s)
    decreases |s|
  {
    id := |s| - 1;
    if s[id] {
      assert s[..id + 1] == s;
    } else {
      var rest := s[..id];
      id := LastLoad(rest);
      assert rest[..id + 1] == s[..id + 1];
    }
  }

  // ---------- the protocol side and the sensor worker ----------

  datatype Command = Enroll(id: nat) | Remove(id: nat) | Wipe | Verify

  // What the sensor made of a command; counted says whether it gave its new count afterwards.
  datatype Outcome = Done(counted: bool) | TimedOut | Cancelled | Failed

  datatype Code = DatabaseFull | NoOperations | UserActionTimeout | OperationDenied | InvalidCredential

  // Verdict is what a fingerprint check hands to the client-PIN commands.
  datatype Reply = Ok | Template(id: nat) | Listing(ids: seq<nat>) | Verdict(finger: ClientPin.Finger) | Refused(code: Code)

  // templates is the sensor's memory; used, valid and count its cache; pending the slot of
  // an enrolment that has begun; queue what the sensor worker has not finished yet, of which
  // it has taken the first out of its queue of two.
  datatype State = State(
    templates: slots,
    used: slots,
    valid: bool,
    count: nat,
    pending: Option<nat>,
    queue: seq<Command>)

  // counted says whether the sensor gives its count if it is asked for it. A request that
  // waits for the sensor worker says how the worker's commands went while it waited; Late is
  // the worker going on after the request has given up.
  datatype Event =
    | Begin(counted: bool)
    | Capture(during: seq<Outcome>)
    | Cancel
    | Delete(id: nat, counted: bool, during: seq<Outcome>)
    | Enumerate(counted: bool)
    | Clear(during: seq<Outcome>)
    | Check(during: seq<Outcome>)
    | Late(outcome: Outcome)

  // What a step did: its reply, and whether the sensor stored a model over another one.
  datatype Seen = Seen(reply: Reply, overwrote: bool)

  // The cache is valid already, or the sensor lets it be filled.
  predicate Known(s: State, counted: bool) {
    s.valid || counted
  }

  // bio_refresh_slot_cache with a sensor that answers truthfully, or not at all.
  function Refreshed(s: State, counted: bool): State {
    if s.valid || !counted then s
    else s.(used := Marked(s.templates, Found(s.templates)), count := Found(s.templates), valid := true)
  }

  function FirstFree(used: seq<bool>): (r: nat)
    ensures r <= |used| && (r < |used| ==> !used[r]) && forall i :: 0 <= i < r ==> used[i]
  {
    if used == [] || !used[0] then 0 else 1 + FirstFree(used[1..])
  }

  function Listed(used: seq<bool>): (ids: seq<nat>)
    ensures forall i :: 0 <= i < |ids| ==> ids[i] < |used|
  {
    if used == [] then []
    else Listed(used[..|used| - 1]) + if used[|used| - 1] then [|used| - 1] else []
  }

  // The sensor's memory after an enrolment or removal: the count is read again, if the sensor
  // gives it, and the cache is not.
  function Changed(s: State, templates: slots, counted: bool): State {
    s.(templates := templates, count := if counted then Found(templates) else s.count, valid := false)
  }

  // One command executed by the sensor worker.
  function Execute(s: State, cmd: Command, outcome: Outcome): (State, bool) {
    if !outcome.Done? then (s, false)
    else
      match cmd
      case Verify => (s, false)
      case Enroll(id) =>
        if id >= SLOTS then (s, false)
        else (Changed(s, s.templates[id := true], outcome.counted), s.templates[id])
      case Remove(id) =>
        if id >= SLOTS then (s, false)
        else (Changed(s, s.templates[id := false], outcome.counted), false)
      case Wipe => (s.(templates := NoSlots(), used := NoSlots(), count := 0, valid := true), false)
  }

  // The worker works through its queue as far as outcomes go.
  function Work(s: State, outcomes: seq<Outcome>): (State, bool)
    decreases |outcomes|
  {
    if outcomes == [] || s.queue == [] then (s, false)
    else
      var (t, over) := Execute(s.(queue := s.queue[1..]), s.queue[0], outcomes[0]);
      var (u, more) := Work(t, outcomes[1..]);
      (u, over || more)
  }

  // The event a waiting request sees first: that of the command at the head of the queue.
  function FirstEvent(queue: seq<Command>, outcomes: seq<Outcome>): Option<(Command, Outcome)> {
    if outcomes == [] || queue == [] then None else Some((queue[0], outcomes[0]))
  }

  // Two commands may wait behind the one the worker is at.
  predicate Room(s: State) {
    |s.queue| <= QUEUE
  }

  // A command is sent, and the worker works while the request waits.
  function Submit(s: State, cmd: Command, during: seq<Outcome>): (State, bool, Option<(Command, Outcome)>) {
    if !Room(s) then (s, false, None)
    else
      var s1 := s.(queue := s.queue + [cmd]);
      var (t, over) := Work(s1, during);
      (t, over, FirstEvent(s1.queue, during))
  }

  // A check of a fingerprint, by the first event it sees.
  function VerdictOf(event: Option<(Command, Outcome)>): ClientPin.Finger {
    match event
    case None => ClientPin.WaitExpired
    case Some((cmd, outcome)) =>
      if cmd.Verify? && outcome.Done? then ClientPin.Match
      else if TimeIsUp(cmd, outcome) || (cmd.Verify? && outcome == Cancelled) then ClientPin.TimedOut
      else ClientPin.Rejected
  }

  // Enrolments and checks report the same time-out.
  predicate TimeIsUp(cmd: Command, outcome: Outcome) {
    (cmd.Enroll? || cmd.Verify?) && outcome == TimedOut
  }

  function Step(s: State, ev: Event): (State, Seen) {
    match ev
    case Begin(counted) =>
      var s1 := Refreshed(s, counted);
      var id := FirstFree(s1.used);
      if !Known(s, counted) || id == SLOTS then (s1, Seen(Refused(DatabaseFull), false))
      else (s1.(pending := Some(id)), Seen(Template(id), false))
    case Capture(during) =>
      if s.pending.None? then (s, Seen(Refused(NoOperations), false))
      else
        var (t, over, event) := Submit(s, Enroll(s.pending.value), during);
        (t.(pending := None),
         Seen(if event.Some? && event.value.0.Enroll? && event.value.1.Done? then Ok
              else if event.Some? && TimeIsUp(event.value.0, event.value.1) then Refused(UserActionTimeout)
              else Refused(OperationDenied), over))
    case Cancel =>
      if s.pending.None? then (s, Seen(Refused(NoOperations), false)) else (s.(pending := None), Seen(Ok, false))
    case Delete(id, counted, during) =>
      var s1 := if id < SLOTS then Refreshed(s, counted) else s;
      if id >= SLOTS || !Known(s, counted) || !s1.used[id] then (s1, Seen(Refused(InvalidCredential), false))
      else
        var (t, over, event) := Submit(s1, Remove(id), during);
        if event.None? || !event.value.0.Remove? || !event.value.1.Done? then (t, Seen(Refused(OperationDenied), over))
        else (if t.pending == Some(id) then t.(pending := None) else t, Seen(Ok, over))
    case Enumerate(counted) =>
      var s1 := Refreshed(s, counted);
      (s1, Seen(if Known(s, counted) then Listing(Listed(s1.used)) else Refused(OperationDenied), false))
    case Clear(during) =>
      var (t, over, event) := Submit(s, Wipe, during);
      var ok := event.Some? && event.value.0.Wipe? && event.value.1.Done?;
      (t, Seen(if ok then Ok else Refused(OperationDenied), over))
    case Check(during) =>
      var (t, over, event) := Submit(s, Verify, during);
      (t, Seen(Verdict(if Room(s) then VerdictOf(event) else ClientPin.CannotBegin), over))
    case Late(outcome) =>
      var (t, over) := Work(s, [outcome]);
      (t, Seen(Ok, over))
  }

  // ---------- the cache is the sensor ----------

  predicate CacheHolds(s: State) {
    s.valid ==> s.used == s.templates && s.count == Found(s.templates)
  }

  lemma RefreshHolds(s: State, counted: bool)
    requires CacheHolds(s)
    ensures Refreshed(s, counted)
            == if Known(s, counted) then s.(used := s.templates, valid := true, count := Found(s.templates)) else s
  {
    ScanIsExact(s.templates, Found(s.templates));
  }

  lemma {:induction false} NothingFound(n: nat)
    requires n <= SLOTS
    ensures Found(NoSlots()[..n]) == 0
  {
    if n > 0 {
      NothingFound(n - 1);
      assert NoSlots()[..n][..n - 1] == NoSlots()[..n - 1];
    }
  }

  lemma ExecuteHolds(s: State, cmd: Command, outcome: Outcome)
    requires CacheHolds(s)
    ensures CacheHolds(Execute(s, cmd, outcome).0)
  {
    NothingFound(SLOTS);
    assert NoSlots()[..SLOTS] == NoSlots();
  }

  lemma {:induction false} WorkHolds(s: State, outcomes: seq<Outcome>)
    requires CacheHolds(s)
    ensures CacheHolds(Work(s, outcomes).0) && Work(s, outcomes).0.pending == s.pending
    decreases |outcomes|
  {
    if outcomes != [] && s.queue != [] {
      var s1 := s.(queue := s.queue[1..]);
      ExecuteHolds(s1, s.queue[0], outcomes[0]);
      WorkHolds(Execute(s1, s.queue[0], outcomes[0]).0, outcomes[1..]);
    }
  }

  // A cache marked valid equals the sensor's memory, whatever is requested and however late
  // the sensor worker is.
  lemma StepHolds(s: State, ev: Event)
    requires CacheHolds(s)
    ensures CacheHolds(Step(s, ev).0)
  {
    match ev
    case Begin(counted) => RefreshHolds(s, counted);
    case Enumerate(counted) => RefreshHolds(s, counted);
    case Capture(during) =>
      if s.pending.Some? { WorkHolds(s.(queue := s.queue + [Enroll(s.pending.value)]), during); }
    case Delete(id, counted, during) =>
      RefreshHolds(s, counted);
      WorkHolds(Refreshed(s, counted).(queue := s.queue + [Remove(id)]), during);
    case Clear(during) => WorkHolds(s.(queue := s.queue + [Wipe]), during);
    case Check(during) => WorkHolds(s.(queue := s.queue + [Verify]), during);
    case Late(outcome) => WorkHolds(s, [outcome]);
    case _ =>
  }

  // ---------- no enrolment over an occupied slot ----------

  // The sensor worker answers before the request gives up.
  predicate InTime(ev: Event) {
    match ev
    case Capture(during) => |during| == 1
    case Delete(_, _, during) => |during| == 1
    case Clear(during) => |during| == 1
    case Check(during) => |during| == 1
    case Late(_) => false
    case _ => true
  }

  // What waits for the sensor worker: enrolments into different slots, all of them free.
  ghost predicate QueueFree(templates: slots, queue: seq<Command>) {
    && (forall i :: 0 <= i < |queue| && queue[i].Enroll? ==> queue[i].id < SLOTS && !templates[queue[i].id])
    && (forall i, j :: 0 <= i < j < |queue| && queue[i].Enroll? && queue[j].Enroll? ==> queue[i].id != queue[j].id)
  }

  // A slot is free, and no enrolment into it waits.
  predicate Unclaimed(templates: slots, queue: seq<Command>, id: nat) {
    id < SLOTS && !templates[id] && Enroll(id) !in queue
  }

  // Besides, the slot of a begun enrolment is free and not waited for.
  ghost predicate Orderly(s: State) {
    CacheHolds(s) && QueueFree(s.templates, s.queue)
    && (s.pending.Some? ==> Unclaimed(s.templates, s.queue, s.pending.value))
  }

  // What a begin has to leave alone: the slot it hands out is not one that an enrolment still
  // in the worker's queue is for.
  predicate Guarded(s: State, ev: Event) {
    ev.Begin? && Known(s, ev.counted) ==> Enroll(FirstFree(s.templates)) !in s.queue
  }

  // The worker executes the first command of its queue: nothing is stored over, and the rest
  // of the queue, and any other unclaimed slot, stays in order.
  lemma ExecuteOrderly(s: State, outcome: Outcome, id: nat)
    requires CacheHolds(s) && s.queue != [] && QueueFree(s.templates, s.queue)
    ensures var (t, over) := Execute(s.(queue := s.queue[1..]), s.queue[0], outcome);
            && CacheHolds(t) && t.queue == s.queue[1..] && t.pending == s.pending
            && QueueFree(t.templates, t.queue) && !over
            && (Unclaimed(s.templates, s.queue, id) ==> Unclaimed(t.templates, t.queue, id))
  {
    ExecuteHolds(s.(queue := s.queue[1..]), s.queue[0], outcome);
  }

  lemma {:induction false} WorkOrderly(s: State, outcomes: seq<Outcome>, id: nat)
    requires CacheHolds(s) && QueueFree(s.templates, s.queue)
    ensures var (t, over) := Work(s, outcomes);
            && CacheHolds(t) && QueueFree(t.templates, t.queue) && !over && t.pending == s.pending
            && (Unclaimed(s.templates, s.queue, id) ==> Unclaimed(t.templates, t.queue, id))
    decreases |outcomes|
  {
    if outcomes != [] && s.queue != [] {
      ExecuteOrderly(s, outcomes[0], id);
      WorkOrderly(Execute(s.(queue := s.queue[1..]), s.queue[0], outcomes[0]).0, outcomes[1..], id);
    }
  }

  // A command that fits the queue: no enrolment, or one into an unclaimed slot.
  predicate Fits(s: State, cmd: Command) {
    cmd.Enroll? ==> Unclaimed(s.templates, s.queue, cmd.id)
  }

  lemma SubmitOrderly(s: State, cmd: Command, during: seq<Outcome>, id: nat)
    requires CacheHolds(s) && QueueFree(s.templates, s.queue) && Fits(s, cmd)
    ensures var (t, over, _) := Submit(s, cmd, during);
            && CacheHolds(t) && QueueFree(t.templates, t.queue) && !over && t.pending == s.pending
            && (Unclaimed(s.templates, s.queue, id) && cmd != Enroll(id) ==> Unclaimed(t.templates, t.queue, id))
  {
    if Room(s) {
      var s1 := s.(queue := s.queue + [cmd]);
      WorkOrderly(s1, during, id);
    }
  }

  lemma BeginOrderly(s: State, counted: bool)
    requires Orderly(s) && Guarded(s, Begin(counted))
    ensures Orderly(Step(s, Begin(counted)).0)
  {
    RefreshHolds(s, counted);
  }

  lemma CaptureOrderly(s: State, during: seq<Outcome>)
    requires Orderly(s)
    ensures Orderly(Step(s, Capture(during)).0) && !Step(s, Capture(during)).1.overwrote
  {
    if s.pending.Some? { SubmitOrderly(s, Enroll(s.pending.value), during, SLOTS); }
  }

  lemma DeleteOrderly(s: State, slot: nat, counted: bool, during: seq<Outcome>)
    requires Orderly(s)
    ensures Orderly(Step(s, Delete(slot, counted, during)).0) && !Step(s, Delete(slot, counted, during)).1.overwrote
  {
    RefreshHolds(s, counted);
    SubmitOrderly(Refreshed(s, counted), Remove(slot), during, Claimed(s));
  }

  // The slot of a begun enrolment.
  function Claimed(s: State): nat {
    if s.pending.Some? then s.pending.value else SLOTS
  }

  lemma PlainOrderly(s: State, cmd: Command, during: seq<Outcome>)
    requires Orderly(s) && !cmd.Enroll?
    ensures Orderly(Submit(s, cmd, during).0) && !Submit(s, cmd, during).1
  {
    SubmitOrderly(s, cmd, during, Claimed(s));
  }

  // However late the worker is, a guarded event stores nothing over another model.
  lemma StepOrderly(s: State, ev: Event)
    requires Orderly(s) && Guarded(s, ev)
    ensures Orderly(Step(s, ev).0) && !Step(s, ev).1.overwrote
  {
    match ev
    case Begin(counted) => BeginOrderly(s, counted);
    case Enumerate(counted) => RefreshHolds(s, counted);
    case Capture(during) => CaptureOrderly(s, during);
    case Delete(slot, counted, during) => DeleteOrderly(s, slot, counted, during);
    case Clear(during) => PlainOrderly(s, Wipe, during);
    case Check(during) => PlainOrderly(s, Verify, during);
    case Late(outcome) => WorkOrderly(s, [outcome], Claimed(s));
    case Cancel =>
  }

  function Machine(): (State, Event) -> (State, Seen) {
    (s: State, ev: Event) => Step(s, ev)
  }

  predicate GuardedRun(s: State, evs: seq<Event>)
    decreases |evs|
  {
    evs == [] || (Guarded(s, evs[0]) && GuardedRun(Step(s, evs[0]).0, evs[1..]))
  }

  ghost predicate NothingOver(seen: seq<Seen>) {
    forall i :: 0 <= i < |seen| ==> !seen[i].overwrote
  }

  // With any late answers: no run whose begins are guarded ever stores a model over another.
  lemma {:induction false} GuardedNeverOverwrites(s: State, evs: seq<Event>)
    requires Orderly(s) && GuardedRun(s, evs)
    ensures var (t, seen) := Walk(Machine(), s, evs); Orderly(t) && NothingOver(seen)
    decreases |evs|
  {
    if evs != [] {
      StepOrderly(s, evs[0]);
      GuardedNeverOverwrites(Step(s, evs[0]).0, evs[1..]);
    }
  }

  // ---------- the guard is exact ----------

  // The sensor completes the enrolments and fails at all else.
  function OnlyEnrolments(queue: seq<Command>): seq<Outcome> {
    if queue == [] then [] else [if queue[0].Enroll? then Done(true) else Failed] + OnlyEnrolments(queue[1..])
  }

  // One more enrolment into a slot that is used, or that an enrolment in the queue is for, is
  // stored over another model.
  lemma {:induction false} WorkEnrols(s: State, id: nat)
    requires id < SLOTS && (s.templates[id] || Enroll(id) in s.queue)
    ensures Work(s.(queue := s.queue + [Enroll(id)]), OnlyEnrolments(s.queue) + [Done(true)]).1
    decreases |s.queue|
  {
    var t, outcomes := s.(queue := s.queue + [Enroll(id)]), OnlyEnrolments(s.queue) + [Done(true)];
    if s.queue == [] {
      assert t.queue == [Enroll(id)] && outcomes == [Done(true)];
    } else {
      var rest := s.queue[1..];
      assert t.queue[0] == s.queue[0] && t.queue[1..] == rest + [Enroll(id)];
      assert outcomes[1..] == OnlyEnrolments(rest) + [Done(true)];
      var u := Execute(s.(queue := rest), s.queue[0], outcomes[0]).0;
      assert Execute(t.(queue := t.queue[1..]), t.queue[0], outcomes[0]).0 == u.(queue := rest + [Enroll(id)]);
      WorkEnrols(u, id);
    }
  }

  // A begin and a capture can store over another model, for some answers of the sensor, if and
  // only if the begin is not guarded and there is room in the queue.
  lemma GuardIsExact(s: State, counted: bool)
    requires Orderly(s)
    ensures (exists during :: Step(Step(s, Begin(counted)).0, Capture(during)).1.overwrote)
            <==> !Guarded(s, Begin(counted)) && Room(s)
  {
    var s1 := Step(s, Begin(counted)).0;
    RefreshHolds(s, counted);
    if Guarded(s, Begin(counted)) {
      StepOrderly(s, Begin(counted));
      forall during ensures !Step(s1, Capture(during)).1.overwrote {
        StepOrderly(s1, Capture(during));
      }
    } else if Room(s) {
      var id := FirstFree(s.templates);
      UnguardedBegin(s, counted);
      WorkEnrols(s1, id);
      assert Step(s1, Capture(OnlyEnrolments(s.queue) + [Done(true)])).1.overwrote;
    }
  }

  lemma UnguardedBegin(s: State, counted: bool)
    requires Orderly(s) && !Guarded(s, Begin(counted))
    ensures var id := FirstFree(s.templates);
            id < SLOTS && Step(s, Begin(counted)).0 == Refreshed(s, counted).(pending := Some(id))
  {
    RefreshHolds(s, counted);
  }

  // ---------- answers in time ----------

  // Nothing waits for the sensor worker.
  ghost predicate Settled(s: State) {
    Orderly(s) && s.queue == []
  }

  lemma WorkOne(s: State, cmd: Command, outcome: Outcome)
    requires s.queue == []
    ensures Submit(s, cmd, [outcome]).0.queue == []
  {
    var s1 := s.(queue := s.queue + [cmd]);
    assert s1.queue == [cmd] && s1.queue[1..] == [];
    var t := Execute(s1.(queue := []), cmd, outcome).0;
    assert [outcome][1..] == [] && Work(t, []) == (t, false);
  }

  lemma StepSettled(s: State, ev: Event)
    requires Settled(s) && InTime(ev)
    ensures Settled(Step(s, ev).0) && !Step(s, ev).1.overwrote
  {
    StepOrderly(s, ev);
    match ev
    case Capture(during) =>
      assert during == [during[0]];
      if s.pending.Some? { WorkOne(s, Enroll(s.pending.value), during[0]); }
    case Delete(id, counted, during) =>
      assert during == [during[0]];
      WorkOne(Refreshed(s, counted), Remove(id), during[0]);
    case Clear(during) =>
      assert during == [during[0]];
      WorkOne(s, Wipe, during[0]);
    case Check(during) =>
      assert during == [during[0]];
      WorkOne(s, Verify, during[0]);
    case _ =>
  }

  lemma {:induction false} InTimeIsGuarded(s: State, evs: seq<Event>)
    requires Settled(s) && forall i :: 0 <= i < |evs| ==> InTime(evs[i])
    ensures GuardedRun(s, evs) && Settled(Walk(Machine(), s, evs).0)
    decreases |evs|
  {
    if evs != [] {
      StepSettled(s, evs[0]);
      InTimeIsGuarded(Step(s, evs[0]).0, evs[1..]);
    }
  }

  // While every answer comes in time every begin is guarded, so no run ever stores a model
  // over another.
  lemma NeverOverwrites(s: State, evs: seq<Event>)
    requires Settled(s) && forall i :: 0 <= i < |evs| ==> InTime(evs[i])
    ensures var (t, seen) := Walk(Machine(), s, evs); Settled(t) && NothingOver(seen)
  {
    InTimeIsGuarded(s, evs);
    GuardedNeverOverwrites(s, evs);
  }

  const POWERED_UP: State := State(NoSlots(), NoSlots(), false, 0, None, [])

  // A capture whose wait runs out is still in the queue: the slot is handed out again, and
  // the sensor stores two models in it.
  lemma LateEnrolmentOverwrites()
    ensures Settled(POWERED_UP)
    ensures var (_, seen) := Walk(Machine(), POWERED_UP, [Begin(true), Capture([]), Begin(true), Capture([Done(true), Done(true)])]);
            seen[0].reply == Template(0) && seen[1].reply == Refused(OperationDenied)
            && seen[2].reply == Template(0) && seen[3] == Seen(Ok, true)
  {
    var s0 := POWERED_UP;
    RefreshHolds(s0, true);
    assert FirstFree(NoSlots()) == 0;
    var s1 := Step(s0, Begin(true)).0;
    var s2 := Step(s1, Capture([])).0;
    assert s2.queue == [Enroll(0)] && s2.pending.None? && s2.valid && s2.used == NoSlots();
    var s3 := Step(s2, Begin(true)).0;
    assert s3.pending == Some(0);
    LateWork(s3);
    WalkFour(Machine(), s0, Begin(true), Capture([]), Begin(true), Capture([Done(true), Done(true)]));
  }

  lemma LateWork(s: State)
    requires s.queue == [Enroll(0)] && s.pending == Some(0) && !s.templates[0]
    ensures Step(s, Capture([Done(true), Done(true)])).1 == Seen(Ok, true)
  {
    var q := s.(queue := s.queue + [Enroll(0)]);
    assert q.queue[1..] == [Enroll(0)] && [Enroll(0)][1..] == [];
    assert [Done(true), Done(true)][1..] == [Done(true)];
    var (t, over) := Execute(q.(queue := q.queue[1..]), Enroll(0), Done(true));
    assert t.templates[0] && t.queue == [Enroll(0)];
    assert Work(t, [Done(true)]).1;
  }

  // ---------- what is handed out and listed ----------

  lemma {:induction false} ListedExact(used: seq<bool>)
    ensures |Listed(used)| == Found(used)
    ensures forall id: nat :: id in Listed(used) <==> id < |used| && used[id]
    ensures forall i, j :: 0 <= i < j < |Listed(used)| ==> Listed(used)[i] < Listed(used)[j]
    decreases |used|
  {
    if used != [] {
      var n := |used| - 1;
      ListedExact(used[..n]);
      forall id: nat ensures id in Listed(used) <==> id < |used| && used[id] {
        if id < n { assert used[..n][id] == used[id]; }
      }
    }
  }

  lemma {:induction false} AllFound(s: seq<bool>)
    ensures Found(s) == |s| <==> forall i :: 0 <= i < |s| ==> s[i]
    decreases |s|
  {
    if s != [] {
      var n := |s| - 1;
      AllFound(s[..n]);
      assert forall i :: 0 <= i < n ==> s[..n][i] == s[i];
    }
  }

  // Enumeration lists exactly the occupied slots, each once, in order; a new enrolment gets
  // the lowest free slot, and is refused exactly when every slot is occupied or nothing is
  // known of the slots because the sensor does not give its count.
  lemma AnswersAreTheSensors(s: State, counted: bool)
    requires CacheHolds(s)
    ensures Step(s, Enumerate(counted)).1.reply
            == if Known(s, counted) then Listing(Listed(s.templates)) else Refused(OperationDenied)
    ensures var reply := Step(s, Begin(counted)).1.reply;
            if !Known(s, counted) || Found(s.templates) == SLOTS then reply == Refused(DatabaseFull)
            else && reply.Template? && reply.id < SLOTS && !s.templates[reply.id]
                 && forall i :: 0 <= i < reply.id ==> s.templates[i]
  {
    RefreshHolds(s, counted);
    AllFound(s.templates);
  }

  // ---------- what the sensor's memory comes to ----------

  // The command has been done and left slot k used, or free.
  predicate Uses(cmd: Command, outcome: Outcome, k: nat) {
    outcome.Done? && cmd == Enroll(k)
  }

  predicate Frees(cmd: Command, outcome: Outcome, k: nat) {
    outcome.Done? && (cmd == Remove(k) || cmd == Wipe)
  }

  // The worker takes one command for each outcome, in order; then a slot is as the last done
  // command that was for it has left it, and as before if there was none.
  ghost predicate LastWord(s: State, outcomes: seq<Outcome>, t: State, k: nat)
    requires k < SLOTS
  {
    var n := Least(|s.queue|, |outcomes|);
    && t.queue == s.queue[n..]
    && (forall i :: 0 <= i < n && Uses(s.queue[i], outcomes[i], k) && Untouched(s.queue, outcomes, i + 1, n, k) ==> t.templates[k])
    && (forall i :: 0 <= i < n && Frees(s.queue[i], outcomes[i], k) && Untouched(s.queue, outcomes, i + 1, n, k) ==> !t.templates[k])
    && (Untouched(s.queue, outcomes, 0, n, k) ==> t.templates[k] == s.templates[k])
  }

  ghost predicate Untouched(queue: seq<Command>, outcomes: seq<Outcome>, from: nat, n: nat, k: nat)
    requires n <= |queue| && n <= |outcomes|
  {
    forall i :: from <= i < n ==> !Uses(queue[i], outcomes[i], k) && !Frees(queue[i], outcomes[i], k)
  }

  // One command changes no slot but what it is for, and only when it is done.
  lemma ExecuteMeans(s: State, cmd: Command, outcome: Outcome, k: nat)
    requires k < SLOTS
    ensures var (t, over) := Execute(s, cmd, outcome);
            && t.templates[k] == (if Uses(cmd, outcome, k) then true
                                  else if Frees(cmd, outcome, k) then false else s.templates[k])
            && t.queue == s.queue && t.pending == s.pending
            && (Uses(cmd, outcome, k) && s.templates[k] ==> over)
            && (outcome == Done(true) && (cmd == Enroll(k) || cmd == Remove(k)) ==> t.count == Found(t.templates))
  {
  }

  lemma {:induction false} WorkMeans(s: State, outcomes: seq<Outcome>, k: nat)
    requires k < SLOTS
    ensures LastWord(s, outcomes, Work(s, outcomes).0, k)
    decreases |outcomes|
  {
    if outcomes != [] && s.queue != [] {
      var s1 := s.(queue := s.queue[1..]);
      var u := Execute(s1, s.queue[0], outcomes[0]).0;
      ExecuteMeans(s1, s.queue[0], outcomes[0], k);
      WorkMeans(u, outcomes[1..], k);
      LastWordFirst(s, outcomes, u, Work(u, outcomes[1..]).0, k);
    }
  }

  lemma LastWordFirst(s: State, outcomes: seq<Outcome>, u: State, t: State, k: nat)
    requires k < SLOTS && outcomes != [] && s.queue != [] && u.queue == s.queue[1..] && LastWord(u, outcomes[1..], t, k)
    requires u.templates[k] == if Uses(s.queue[0], outcomes[0], k) then true
                               else if Frees(s.queue[0], outcomes[0], k) then false else s.templates[k]
    ensures LastWord(s, outcomes, t, k)
  {
    var n := Least(|s.queue|, |outcomes|);
    assert u.queue[n - 1..] == s.queue[n..];
    forall i | 1 <= i <= n && Untouched(s.queue, outcomes, i, n, k)
      ensures Untouched(u.queue, outcomes[1..], i - 1, n - 1, k)
    {
      forall j | i - 1 <= j < n - 1
        ensures !Uses(u.queue[j], outcomes[1..][j], k) && !Frees(u.queue[j], outcomes[1..][j], k)
      {
        assert !Uses(s.queue[j + 1], outcomes[j + 1], k) && !Frees(s.queue[j + 1], outcomes[j + 1], k);
      }
    }
    forall i | 1 <= i < n
      ensures Uses(s.queue[i], outcomes[i], k) <==> Uses(u.queue[i - 1], outcomes[1..][i - 1], k)
      ensures Frees(s.queue[i], outcomes[i], k) <==> Frees(u.queue[i - 1], outcomes[1..][i - 1], k)
    {
    }
  }

  // What a fingerprint check hands on, by the first command the worker reports on while it
  // waits: a match only for a check that was done, a time-out for a check or an enrolment that
  // timed out and for a check that was cancelled, and otherwise a rejection; nothing if the
  // wait runs out first, and no check is begun behind a full queue.
  lemma CheckMeans(s: State, during: seq<Outcome>)
    ensures var reply := Step(s, Check(during)).1.reply;
            var head := (s.queue + [Verify])[0];
            && reply.Verdict?
            && (reply.finger == ClientPin.CannotBegin <==> |s.queue| > 2)
            && (reply.finger == ClientPin.WaitExpired <==> |s.queue| <= 2 && during == [])
            && (reply.finger == ClientPin.Match <==>
                  |s.queue| <= 2 && during != [] && head == Verify && during[0].Done?)
            && (reply.finger == ClientPin.TimedOut <==>
                  |s.queue| <= 2 && during != []
                  && ((during[0] == TimedOut && (head == Verify || head.Enroll?)) || (during[0] == Cancelled && head == Verify)))
  {
  }

  // However long the queue: a request is answered by the first command the worker reports on
  // while it waits, its own or one of the same kind that an earlier request has given up.
  lemma CaptureAnswers(s: State, during: seq<Outcome>)
    requires s.pending.Some?
    ensures var (t, x) := Step(s, Capture(during));
            var head := (s.queue + [Enroll(s.pending.value)])[0];
            var seen := |s.queue| <= 2 && during != [];
            && (x.reply == Ok <==> seen && head.Enroll? && during[0].Done?)
            && (x.reply == Refused(UserActionTimeout) <==> seen && during[0] == TimedOut && (head.Enroll? || head == Verify))
            && t.pending == None
  {
    if Room(s) { WorkPending(s.(queue := s.queue + [Enroll(s.pending.value)]), during); }
  }

  lemma DeleteAnswers(s: State, id: nat, counted: bool, during: seq<Outcome>)
    requires CacheHolds(s)
    ensures var (t, x) := Step(s, Delete(id, counted, during));
            var head := (s.queue + [Remove(id)])[0];
            var listed := id < 164 && (s.valid || counted) && s.templates[id];
            && (x.reply == Refused(InvalidCredential) <==> !listed)
            && (x.reply == Ok <==> listed && |s.queue| <= 2 && during != [] && head.Remove? && during[0].Done?)
  {
    RefreshHolds(s, counted);
  }

  lemma ClearAnswers(s: State, during: seq<Outcome>)
    ensures Step(s, Clear(during)).1.reply == Ok <==>
            |s.queue| <= 2 && during != [] && (s.queue + [Wipe])[0] == Wipe && during[0].Done?
  {
  }

  lemma {:induction false} WorkPending(s: State, outcomes: seq<Outcome>)
    ensures Work(s, outcomes).0.pending == s.pending
    decreases |outcomes|
  {
    if outcomes != [] && s.queue != [] {
      WorkPending(Execute(s.(queue := s.queue[1..]), s.queue[0], outcomes[0]).0, outcomes[1..]);
    }
  }

  // A cancelled enrolment is gone, so that a capture is refused until the next begin; there is
  // nothing else to cancel, and nothing else changes.
  lemma CancelMeans(s: State, during: seq<Outcome>)
    ensures var (t, x) := Step(s, Cancel);
            && x.reply == (if s.pending.Some? then Ok else Refused(NoOperations))
            && t == s.(pending := None)
            && Step(t, Capture(during)) == (t, Seen(Refused(NoOperations), false))
  {
  }

  // With nothing else waiting, a check that is answered in time leaves all as it was.
  lemma CheckKeeps(s: State, outcome: Outcome)
    requires s.queue == []
    ensures Step(s, Check([outcome])).0 == s
  {
    WorkAlone(s, Verify, outcome);
  }

  lemma WorkAlone(s: State, cmd: Command, outcome: Outcome)
    requires s.queue == []
    ensures Submit(s, cmd, [outcome]) == (Execute(s, cmd, outcome).0, Execute(s, cmd, outcome).1, Some((cmd, outcome)))
  {
    var s1 := s.(queue := s.queue + [cmd]);
    assert s1.queue == [cmd] && s1.queue[1..] == [] && s1.(queue := []) == s;
    assert [outcome][1..] == [];
    var (t, over) := Execute(s, cmd, outcome);
    assert Work(t, []) == (t, false);
  }

  // Slot by slot, the memory is the old one but for this slot.
  ghost predicate OnlySlot(before: slots, after: slots, id: nat, used: bool) {
    id < SLOTS && after[id] == used && forall k :: 0 <= k < SLOTS && k != id ==> after[k] == before[k]
  }

  // A removal answered in time succeeds exactly for a used slot, if the slots are known and the
  // sensor has done it. Then that slot and no other is free, an enrolment begun for it is
  // dropped, and it is not listed any more; otherwise the sensor's memory is as before.
  lemma DeleteMeans(s: State, id: nat, counted: bool, outcome: Outcome, again: bool)
    requires CacheHolds(s) && s.queue == []
    ensures var (t, x) := Step(s, Delete(id, counted, [outcome]));
            && (x.reply == Ok <==> id < 164 && (s.valid || counted) && s.templates[id] && outcome.Done?)
            && (x.reply == Ok ==>
                  && OnlySlot(s.templates, t.templates, id, false)
                  && t.pending == (if s.pending == Some(id) then None else s.pending)
                  && (again ==> Step(t, Enumerate(again)).1.reply.Listing? && id !in Step(t, Enumerate(again)).1.reply.ids))
            && (x.reply != Ok ==> t.templates == s.templates && t.pending == s.pending)
  {
    RefreshHolds(s, counted);
    var s1 := Refreshed(s, counted);
    WorkAlone(s1, Remove(id), outcome);
    var (t, x) := Step(s, Delete(id, counted, [outcome]));
    StepHolds(s, Delete(id, counted, [outcome]));
    if x.reply == Ok && again {
      AnswersAreTheSensors(t, true);
      ListedExact(t.templates);
    }
  }

  // An enrolment finished in time, for the slot that was handed out, uses that slot and no
  // other; if the sensor has not done it the memory is as before. Either way it is over.
  lemma CaptureMeans(s: State, outcome: Outcome)
    requires CacheHolds(s) && s.queue == [] && s.pending.Some? && s.pending.value < 164
    ensures var (t, x) := Step(s, Capture([outcome]));
            && (x.reply == Ok <==> outcome.Done?) && (x.reply == Refused(UserActionTimeout) <==> outcome == TimedOut)
            && t.pending == None
            && (if outcome.Done? then OnlySlot(s.templates, t.templates, s.pending.value, true) else t.templates == s.templates)
            && x.overwrote == (outcome.Done? && s.templates[s.pending.value])
  {
    WorkAlone(s, Enroll(s.pending.value), outcome);
  }

  // Deleting all in time leaves every slot free, exactly if the sensor has done it; the next
  // listing is empty, also from a sensor that gives no count.
  lemma ClearMeans(s: State, outcome: Outcome, counted: bool)
    requires CacheHolds(s) && s.queue == []
    ensures var (t, x) := Step(s, Clear([outcome]));
            && (x.reply == Ok <==> outcome.Done?)
            && (if outcome.Done? then forall k :: 0 <= k < SLOTS ==> !t.templates[k] else t == s)
            && (outcome.Done? ==> Step(t, Enumerate(counted)).1.reply == Listing([]))
  {
    WorkAlone(s, Wipe, outcome);
    StepHolds(s, Clear([outcome]));
    AnswersAreTheSensors(Step(s, Clear([outcome])).0, counted);
    ListedExact(NoSlots());
    NothingFound(SLOTS);
    assert NoSlots()[..SLOTS] == NoSlots();
  }

  // ---------- the module's variables ----------

  class Slots {
    const slotUsed: array<bool>
    var templates: slots
    var valid: bool
    var count: nat
    var pending: Option<nat>
    var queue: seq<Command>

    ghost function Now(): State
      requires slotUsed.Length == SLOTS
      reads this, slotUsed
    {
      State(templates, slotUsed[..], valid, count, pending, queue)
    }

    constructor (templates: slots)
      ensures slotUsed.Length == SLOTS && fresh(slotUsed)
      ensures Now() == State(templates, NoSlots(), false, Found(templates), None, [])
    {
      this.templates := templates;
      slotUsed := new bool[SLOTS](_ => false);
      valid, count, pending, queue := false, Found(templates), None, [];
    }

    method Forget()
      requires slotUsed.Length == SLOTS
      modifies slotUsed
      ensures slotUsed[..] == NoSlots()
    {
      forall i | 0 <= i < SLOTS { slotUsed[i] := false; }
    }

    // The scan: from slot 0 until as many have loaded as the sensor counts.
    method Scan(loads: slots, total: nat) returns (found: nat)
      requires slotUsed.Length == SLOTS && slotUsed[..] == NoSlots()
      modifies slotUsed
      ensures slotUsed[..] == Marked(loads, total) && found == Least(total, Found(loads))
    {
      found := 0;
      var id := 0;
      while id < SLOTS && found < total
        invariant id <= SLOTS && found == Found(loads[..id]) <= total
        invariant forall k :: 0 <= k < id ==> slotUsed[k] == Marked(loads, total)[k]
        invariant forall k :: id <= k < SLOTS ==> !slotUsed[k]
      {
        assert loads[..id + 1][..id] == loads[..id];
        if loads[id] {
          slotUsed[id] := true;
          found := found + 1;
        }
        id := id + 1;
      }
      forall k | id <= k < SLOTS ensures !Marked(loads, total)[k] {
        FoundGrows(loads[..k], id);
        assert loads[..k][..id] == loads[..id];
      }
      FoundGrows(loads, id);
      if id == SLOTS { assert loads[..id] == loads; }
    }

    // With whatever the sensor answers for its count and for each slot.
    method RefreshSlotCache(total: Option<nat>, loads: slots) returns (ok: bool)
      requires slotUsed.Length == SLOTS
      modifies this, slotUsed
      ensures ok == total.Some?
      ensures Now() == if ok then old(Now()).(used := Marked(loads, total.value), valid := true,
                                              count := Least(total.value, Found(loads)))
                       else old(Now())
    {
      if total.None? { return false; }
      count := total.value;
      Forget();
      if count == 0 {
        NoneMarked(loads);
      } else {
        var found := Scan(loads, count);
        if found != count { count := found; }
      }
      valid := true;
      return true;
    }

    method EnsureCache(counted: bool) returns (ok: bool)
      requires slotUsed.Length == SLOTS
      modifies this, slotUsed
      ensures ok == Known(old(Now()), counted) && Now() == Refreshed(old(Now()), counted)
    {
      if valid { return true; }
      ok := RefreshSlotCache(if counted then Some(Found(templates)) else None, templates);
    }

    method GetTemplateIds(counted: bool, ids: array<nat>) returns (ok: bool, n: nat)
      requires slotUsed.Length == SLOTS && ids.Length == SLOTS
      modifies this, slotUsed, ids
      ensures n <= SLOTS && (ok ==> ids[..n] == Listed(slotUsed[..]))
      ensures (Now(), Seen(if ok then Listing(Listed(slotUsed[..])) else Refused(OperationDenied), false))
              == Step(old(Now()), Enumerate(counted))
    {
      n := 0;
      ok := EnsureCache(counted);
      if !ok { return; }
      var id := 0;
      while id < SLOTS
        invariant n <= id <= SLOTS && Now() == Refreshed(old(Now()), counted)
        invariant ids[..n] == Listed(slotUsed[..id])
      {
        assert slotUsed[..id + 1][..id] == slotUsed[..id];
        if slotUsed[id] {
          ids[n] := id;
          n := n + 1;
        }
        id := id + 1;
      }
      assert slotUsed[..SLOTS] == slotUsed[..];
    }

    method GetNextFree(counted: bool) returns (free: Option<nat>)
      requires slotUsed.Length == SLOTS
      modifies this, slotUsed
      ensures Now() == Refreshed(old(Now()), counted)
      ensures var id := FirstFree(slotUsed[..]);
              free == if !Known(old(Now()), counted) || id == SLOTS then None else Some(id)
    {
      var ok := EnsureCache(counted);
      if !ok { return None; }
      var id := 0;
      while id < SLOTS && slotUsed[id]
        invariant id <= SLOTS && forall k :: 0 <= k < id ==> slotUsed[k]
      {
        id := id + 1;
      }
      FirstFreeIs(slotUsed[..], id);
      return if id == SLOTS then None else Some(id);
    }

    method EnrollBegin(counted: bool) returns (reply: Reply)
      requires slotUsed.Length == SLOTS
      modifies this, slotUsed
      ensures (Now(), Seen(reply, false)) == Step(old(Now()), Begin(counted))
    {
      var free := GetNextFree(counted);
      if free.None? { return Refused(DatabaseFull); }
      pending := free;
      return Template(free.value);
    }

    // One turn of the sensor worker.
    method RunNext(outcome: Outcome) returns (over: bool)
      requires slotUsed.Length == SLOTS && queue != []
      modifies this, slotUsed
      ensures (Now(), over) == Execute(old(Now()).(queue := old(queue)[1..]), old(queue)[0], outcome)
    {
      var cmd := queue[0];
      queue := queue[1..];
      over := false;
      if !outcome.Done? { return; }
      match cmd
      case Verify =>
      case Enroll(id) =>
        if id < SLOTS {
          over := templates[id];
          templates := templates[id := true];
          if outcome.counted { count := Found(templates); }
          valid := false;
        }
      case Remove(id) =>
        if id < SLOTS {
          templates := templates[id := false];
          if outcome.counted { count := Found(templates); }
          valid := false;
        }
      case Wipe =>
        templates := NoSlots();
        count, valid := 0, true;
        Forget();
    }

    method Wait(during: seq<Outcome>) returns (over: bool)
      requires slotUsed.Length == SLOTS
      modifies this, slotUsed
      ensures (Now(), over) == Work(old(Now()), during)
      decreases |during|
    {
      if during == [] || queue == [] { return false; }
      var now := RunNext(during[0]);
      var more := Wait(during[1..]);
      over := now || more;
    }

    method CaptureNext(during: seq<Outcome>) returns (seen: Seen)
      requires slotUsed.Length == SLOTS
      modifies this, slotUsed
      ensures (Now(), seen) == Step(old(Now()), Capture(during))
    {
      if pending.None? { return Seen(Refused(NoOperations), false); }
      if |queue| > QUEUE {
        pending := None;
        return Seen(Refused(OperationDenied), false);
      }
      queue := queue + [Enroll(pending.value)];
      var event := FirstEvent(queue, during);
      var over := Wait(during);
      pending := None;
      if event.None? || !event.value.0.Enroll? || !event.value.1.Done? {
        if event.Some? && TimeIsUp(event.value.0, event.value.1) {
          return Seen(Refused(UserActionTimeout), over);
        }
        return Seen(Refused(OperationDenied), over);
      }
      return Seen(Ok, over);
    }

    method EnrollCancel() returns (reply: Reply)
      requires slotUsed.Length == SLOTS
      modifies this
      ensures (Now(), Seen(reply, false)) == Step(old(Now()), Cancel)
    {
      if pending.None? { return Refused(NoOperations); }
      pending := None;
      return Ok;
    }

    method RemoveEnrollment(id: nat, counted: bool, during: seq<Outcome>) returns (seen: Seen)
      requires slotUsed.Length == SLOTS
      modifies this, slotUsed
      ensures (Now(), seen) == Step(old(Now()), Delete(id, counted, during))
    {
      if id >= SLOTS { return Seen(Refused(InvalidCredential), false); }
      var ok := EnsureCache(counted);
      if !ok || !slotUsed[id] { return Seen(Refused(InvalidCredential), false); }
      if |queue| > QUEUE { return Seen(Refused(OperationDenied), false); }
      queue := queue + [Remove(id)];
      var event := FirstEvent(queue, during);
      var over := Wait(during);
      if event.None? || !event.value.0.Remove? || !event.value.1.Done? { return Seen(Refused(OperationDenied), over); }
      if pending == Some(id) { pending := None; }
      return Seen(Ok, over);
    }

    // A fingerprint check, as getUvToken and the presence check request it.
    method CheckFinger(during: seq<Outcome>) returns (seen: Seen)
      requires slotUsed.Length == SLOTS
      modifies this, slotUsed
      ensures (Now(), seen) == Step(old(Now()), Check(during))
    {
      if |queue| > QUEUE { return Seen(Verdict(ClientPin.CannotBegin), false); }
      queue := queue + [Verify];
      var event := FirstEvent(queue, during);
      var over := Wait(during);
      return Seen(Verdict(VerdictOf(event)), over);
    }
  }

  lemma {:induction false} FirstFreeIs(used: seq<bool>, id: nat)
    requires id <= |used| && (id < |used| ==> !used[id]) && forall k :: 0 <= k < id ==> used[k]
    ensures id == FirstFree(used)
  {
  }

  lemma NoneMarked(loads: slots)
    ensures Marked(loads, 0) == NoSlots()
  {
  }
}
