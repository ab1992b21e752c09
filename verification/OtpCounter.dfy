// The use counter and session counter of Yubico OTP slots, over button presses, power-ups and
// status queries (src/fido/otp.c).
module OtpCounter {
  import opened Basics
  import opened Runs

  const COUNTER_MAX: nat := 0x7FFF

  type word = n: int | 0 <= n < 0x1_0000

  // A slot file: the flag bits that select its kind, and the counter behind the configuration.
  datatype Slot = Slot(hotp: bool, shortTicket: bool, staticTicket: bool, counter: word)

  datatype State = State(slots: seq<Option<Slot>>, session: seq<byte>, scanned: bool)

  datatype Event = PowerUp | Init | Status | Press(slot: nat)

  datatype Reply =
    | Nothing
    | Ticket(slot: nat, counter: word, session: byte)
    | Empty
    | Challenge
    | HotpCode
    | Text

  // ++ on eight and on sixteen bits.
  function Up8(b: byte): byte { if b == 255 then 0 else b + 1 }

  function Up16(c: word): word { if c == 0xFFFF then 0 else c + 1 }

  predicate Shaped(s: State) {
    |s.slots| == 2 && |s.session| == 2
  }

  predicate IsOtp(slot: Option<Slot>) {
    slot.Some? && !slot.value.hotp && !slot.value.shortTicket && !slot.value.staticTicket
  }

  // The counter, one up while it stays in fifteen bits.
  function Counted(c: word): word {
    if Up16(c) <= COUNTER_MAX then Up16(c) else c
  }

  function CountedSlot(slot: Option<Slot>): Option<Slot> {
    if IsOtp(slot) then Some(slot.value.(counter := Counted(slot.value.counter))) else slot
  }

  // init_otp: once per power-up, every OTP slot counts it.
  function InitStep(s: State): State
    requires Shaped(s)
  {
    if s.scanned then s
    else s.(scanned := true, slots := [CountedSlot(s.slots[0]), CountedSlot(s.slots[1])])
  }

  function Emitted(c: word): word { if c == 0 then 1 else c }

  // The counter a press leaves in the file.
  function Stored(c: word, session: byte): word {
    if session == 255 && Up16(Emitted(c)) <= COUNTER_MAX then Up16(Emitted(c))
    else if c == 0 then Emitted(c)
    else c
  }

  function TicketStep(s: State, i: nat): (State, Reply)
    requires Shaped(s) && i < 2 && IsOtp(s.slots[i])
  {
    var slot := s.slots[i].value;
    (s.(session := s.session[i := Up8(s.session[i])],
        slots := s.slots[i := Some(slot.(counter := Stored(slot.counter, s.session[i])))]),
     Ticket(i, Emitted(slot.counter), s.session[i]))
  }

  function PressStep(s: State, i: nat): (State, Reply)
    requires Shaped(s) && i < 2
  {
    var s1 := InitStep(s);
    var slot := s1.slots[i];
    if slot.None? then (s1, Empty)
    else if slot.value.staticTicket && slot.value.hotp then (s1, Challenge)
    else if slot.value.hotp then (s1, HotpCode)
    else if slot.value.shortTicket || slot.value.staticTicket then (s1, Text)
    else TicketStep(s1, i)
  }

  // otp_status marks the slots as scanned without counting the power-up.
  function Step(s: State, ev: Event): (State, Reply)
    requires Shaped(s)
  {
    match ev
    case PowerUp => (s.(session := [0, 0], scanned := false), Nothing)
    case Init => (InitStep(s), Nothing)
    case Status => (s.(scanned := true), Nothing)
    case Press(i) => if i < 2 then PressStep(s, i) else (s, Nothing)
  }

  // ---------- slot files and RAM counters ----------

  class Otp {
    var slots: seq<Option<Slot>>
    const session: array<byte>
    var scanned: bool

    ghost predicate Valid()
      reads this, session
    {
      |slots| == 2 && session.Length == 2
    }

    ghost function Now(): State
      reads this, session
    {
      State(slots, session[..], scanned)
    }

    constructor (files: seq<Option<Slot>>)
      requires |files| == 2
      ensures Valid() && fresh(session) && Now() == State(files, [0, 0], false)
    {
      slots := files;
      session := new byte[2](_ => 0);
      scanned := false;
    }

    method Initialise()
      requires Valid()
      modifies this
      ensures Valid() && Now() == InitStep(old(Now()))
    {
      if !scanned {
        ghost var before := slots;
        for i := 0 to 2
          invariant Valid() && session[..] == old(session[..]) && !scanned
          invariant forall k :: 0 <= k < 2 ==> slots[k] == if k < i then CountedSlot(before[k]) else before[k]
        {
          if slots[i].Some? && !slots[i].value.hotp && !(slots[i].value.shortTicket || slots[i].value.staticTicket) {
            var counter := Up16(slots[i].value.counter);
            if counter <= COUNTER_MAX {
              slots := slots[i := Some(slots[i].value.(counter := counter))];
            }
          }
        }
        assert slots == [CountedSlot(before[0]), CountedSlot(before[1])];
        scanned := true;
      }
    }

    method EmitTicket(i: nat) returns (reply: Reply)
      requires Valid() && i < 2 && IsOtp(slots[i])
      modifies this, session
      ensures Valid() && (Now(), reply) == TicketStep(old(Now()), i)
    {
      var slot := slots[i].value;
      var update, counter := false, slot.counter;
      if counter == 0 { update, counter := true, 1; }
      reply := Ticket(i, counter, session[i]);
      session[i] := Up8(session[i]);
      if session[i] == 0 {
        counter := Up16(counter);
        if counter <= COUNTER_MAX { update := true; }
      }
      if update { slots := slots[i := Some(slot.(counter := counter))]; }
      assert session[..] == old(session[..])[i := Up8(old(session[i]))];
      assert update || slots == slots[i := Some(slot)];
    }

    method ButtonPressed(i: nat) returns (reply: Reply)
      requires Valid() && i < 2
      modifies this, session
      ensures Valid() && (Now(), reply) == PressStep(old(Now()), i)
    {
      Initialise();
      if slots[i].None? { return Empty; }
      var slot := slots[i].value;
      if slot.staticTicket && slot.hotp { return Challenge; }
      if slot.hotp { return HotpCode; }
      if slot.shortTicket || slot.staticTicket { return Text; }
      reply := EmitTicket(i);
    }
  }

  // ---------- the pair a slot emits only grows ----------

  datatype Pair = Pair(counter: nat, session: nat)

  predicate Less(p: Pair, q: Pair) {
    p.counter < q.counter || (p.counter == q.counter && p.session < q.session)
  }

  // The slot stays an OTP slot within fifteen bits, and RAM is fresh until the first scan.
  predicate Sane(s: State, i: nat) {
    && Shaped(s) && i < 2 && IsOtp(s.slots[i]) && s.slots[i].value.counter <= COUNTER_MAX
    && (!s.scanned ==> s.session[i] == 0)
  }

  function Counter(s: State, i: nat): nat
    requires Sane(s, i)
  {
    s.slots[i].value.counter
  }

  // What the next press of slot i will emit.
  function Next(s: State, i: nat): Pair
    requires Sane(s, i)
  {
    if s.scanned then Pair(Emitted(s.slots[i].value.counter), s.session[i]) else Pair(Counted(s.slots[i].value.counter), 0)
  }

  // The counter has room for the event, and no status query comes before the first scan.
  predicate Regular(s: State, i: nat, ev: Event)
    requires Sane(s, i)
  {
    && (ev.Status? ==> s.scanned)
    && (!s.scanned && (ev.Init? || (ev.Press? && ev.slot < 2)) ==> Counter(s, i) < COUNTER_MAX)
    && (ev == Press(i) && s.session[i] == 255 ==> Counter(s, i) < COUNTER_MAX)
  }

  // All that was emitted lies below what will be.
  ghost predicate Below(last: Option<Pair>, s: State, i: nat)
    requires Sane(s, i)
  {
    last.Some? ==>
      && last.value.counter <= Counter(s, i)
      && (s.scanned || Counter(s, i) < COUNTER_MAX ==> Less(last.value, Next(s, i)))
  }

  function Latest(last: Option<Pair>, reply: Reply, i: nat): Option<Pair> {
    if reply.Ticket? && reply.slot == i then Some(Pair(reply.counter, reply.session)) else last
  }

  lemma SaneKept(s: State, i: nat, ev: Event)
    requires Sane(s, i)
    ensures Sane(Step(s, ev).0, i)
  {
  }

  // What a press of a slot does, by the slot's kind. An OTP slot first counts the power-up, if
  // that has not been done, unless it would leave fifteen bits; its ticket carries that
  // counter, at least 1, and the session counter, which then moves up by one in eight bits;
  // when it was at its end the file's counter moves up too, unless that would leave fifteen
  // bits. The other slot's session counter stays.
  lemma PressMeans(s: State, i: nat)
    requires Shaped(s) && i < 2
    ensures var (t, reply) := Step(s, Press(i));
            && t.scanned && t.session[1 - i] == s.session[1 - i]
            && if s.slots[i].None? then reply == Empty && t.session == s.session
               else
                 var slot := s.slots[i].value;
                 if slot.hotp || slot.shortTicket || slot.staticTicket then
                   && t.session == s.session && t.slots[i] == s.slots[i]
                   && reply == if slot.hotp then (if slot.staticTicket then Challenge else HotpCode) else Text
                 else
                   var up := (slot.counter as int + 1) % 0x1_0000;
                   var c := if !s.scanned && up <= 0x7FFF then up else slot.counter as int;
                   var n := if c == 0 then 1 else c;
                   var m := (n + 1) % 0x1_0000;
                   && reply == Ticket(i, n, s.session[i])
                   && t.session[i] as int == (s.session[i] as int + 1) % 256
                   && t.slots[i] == Some(slot.(counter := if s.session[i] == 255 && m <= 0x7FFF then m else n))
  {
  }

  lemma PressEmits(s: State, i: nat)
    requires Sane(s, i) && Regular(s, i, Press(i))
    ensures var (t, reply) := Step(s, Press(i));
            && Sane(t, i) && reply == Ticket(i, Next(s, i).counter, Next(s, i).session)
            && Less(Next(s, i), Next(t, i)) && Next(s, i).counter <= Counter(t, i)
  {
  }

  lemma StepOrdered(s: State, i: nat, ev: Event, last: Option<Pair>)
    requires Sane(s, i) && Regular(s, i, ev) && Below(last, s, i)
    ensures var (t, reply) := Step(s, ev);
            && Sane(t, i) && Below(Latest(last, reply, i), t, i)
            && (reply.Ticket? && reply.slot == i && last.Some? ==> Less(last.value, Pair(reply.counter, reply.session)))
  {
    if ev == Press(i) { PressEmits(s, i); }
  }

  function Machine(): (State, Event) -> (State, Reply) {
    (s: State, ev: Event) => if Shaped(s) then Step(s, ev) else (s, Nothing)
  }

  // Every event of the run is regular where it happens.
  predicate RegularRun(s: State, i: nat, evs: seq<Event>)
    requires Sane(s, i)
    decreases |evs|
  {
    if evs == [] then true
    else
      SaneKept(s, i, evs[0]);
      Regular(s, i, evs[0]) && RegularRun(Step(s, evs[0]).0, i, evs[1..])
  }

  // The pairs slot i emitted, in order.
  function Pairs(replies: seq<Reply>, i: nat): seq<Pair> {
    if replies == [] then []
    else
      var r := replies[0];
      (if r.Ticket? && r.slot == i then [Pair(r.counter, r.session)] else []) + Pairs(replies[1..], i)
  }

  predicate Increasing(ps: seq<Pair>) {
    forall a, b :: 0 <= a < b < |ps| ==> Less(ps[a], ps[b])
  }

  ghost predicate AllAbove(last: Option<Pair>, ps: seq<Pair>) {
    last.Some? ==> forall a :: 0 <= a < |ps| ==> Less(last.value, ps[a])
  }

  lemma {:induction false} RunIncreasesFrom(s: State, i: nat, evs: seq<Event>, last: Option<Pair>)
    requires Sane(s, i) && RegularRun(s, i, evs) && Below(last, s, i)
    ensures var ps := Pairs(Walk(Machine(), s, evs).1, i); Increasing(ps) && AllAbove(last, ps)
    decreases |evs|
  {
    if evs != [] {
      var (t, reply) := Step(s, evs[0]);
      StepOrdered(s, i, evs[0], last);
      RunIncreasesFrom(t, i, evs[1..], Latest(last, reply, i));
      var rest := Walk(Machine(), t, evs[1..]).1;
      assert ([reply] + rest)[1..] == rest;
    }
  }

  // Over every regular run, the pairs an OTP slot emits strictly increase: across presses, the
  // wrap of the session counter, the start at 0 and power-ups.
  lemma RunIncreases(s: State, i: nat, evs: seq<Event>)
    requires Sane(s, i) && RegularRun(s, i, evs)
    ensures Increasing(Pairs(Walk(Machine(), s, evs).1, i))
  {
    RunIncreasesFrom(s, i, evs, None);
  }

  // ---------- where it fails ----------

  function Emission(s: State, i: nat): Pair
    requires Sane(s, i)
  {
    var reply := Step(s, Press(i)).1;
    Pair(reply.counter, reply.session)
  }

  // Two presses in a row: the second pair is larger unless both counters are at their ends.
  lemma PressTwice(s: State, i: nat)
    requires Sane(s, i) && s.scanned
    ensures var t := Step(s, Press(i)).0;
            Sane(t, i) && (Less(Emission(s, i), Emission(t, i)) <==> !(s.session[i] == 255 && Counter(s, i) == COUNTER_MAX))
  {
  }

  // A press, a power-up and a press: larger as long as the counter has room.
  lemma PressAcrossPowerUp(s: State, i: nat)
    requires Sane(s, i) && s.scanned
    ensures var t := Step(Step(s, Press(i)).0, PowerUp).0;
            Sane(t, i) && (Less(Emission(s, i), Emission(t, i)) <==> Counter(s, i) < COUNTER_MAX)
  {
  }

  // With a status query between the power-up and the press, the power-up goes uncounted: the
  // second pair is larger only if the first press happened to move the counter itself.
  lemma PressAfterStatus(s: State, i: nat)
    requires Sane(s, i) && s.scanned
    ensures var t := Step(Step(Step(s, Press(i)).0, PowerUp).0, Status).0;
            Sane(t, i) && (Less(Emission(s, i), Emission(t, i)) <==> s.session[i] == 255 && Counter(s, i) < COUNTER_MAX)
  {
  }

  // So the same pair comes out twice.
  lemma StatusRepeatsPair(s: State, i: nat)
    requires Sane(s, i) && s.scanned && s.session[i] == 0
    ensures var t := Step(Step(Step(s, Press(i)).0, PowerUp).0, Status).0;
            Sane(t, i) && Emission(t, i) == Emission(s, i)
  {
  }
}
