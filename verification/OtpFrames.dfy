// OTP frames over the keyboard's HID feature reports: 70-byte frames in both directions, cut
// into packets of seven bytes and a sequence byte (src/fido/otp.c).
module OtpFrames {
  import opened Basics
  import opened OtpCrc
  import opened Runs

  const FRAME: nat := 70
  const PAYLOAD: nat := 64

  type frame = f: bytes | |f| == FRAME witness seq(FRAME, _ => 0)

  type packet = p: bytes | |p| == 8 witness seq(8, _ => 0)

  // otp_frame_tx, the bytes of it still to be sent, otp_exp_seq, otp_curr_seq, otp_frame_rx.
  datatype State = State(tx: frame, size: nat, exp: byte, curr: byte, rx: frame)

  // What a command does that is executed on the receive buffer: the bytes it answers with, and
  // what it leaves in the buffer it was handed.
  datatype Effect = Effect(response: bytes, leftover: frame)

  // SetReport carries what the command would do, if it is executed.
  datatype Event = GetReport | SetReport(p: packet, effect: Effect)

  datatype Reply =
    | Nothing
    | Packet(p: packet)
    | StatusRecord
    | Reset
    | Command(slot: byte, payload: bytes)
    | BadCrc

  predicate Valid(s: State) {
    s.size > 0 ==> 7 * s.curr + s.size <= FRAME
  }

  function Zeros(n: nat): (r: bytes)
    ensures |r| == n
  {
    seq(n, _ => 0)
  }

  // The packets n bytes take.
  function Packets(n: nat): nat { (n + 6) / 7 }

  // otp_send_frame over the first n bytes of the buffer.
  function Sent(s: State, n: nat): State
    requires n + 2 <= FRAME
  {
    s.(tx := Sealed(s.tx[..n]) + s.tx[n + 2..], size := n + 2, exp := Packets(n + 2), curr := 0)
  }

  const TERMINATOR: packet := [0, 0, 0, 0, 0, 0, 0, 0x40]

  // 0x40 | seq, for the sequence numbers of a frame that fits its buffer.
  function GetStep(s: State): (State, Reply)
    requires Valid(s)
  {
    if s.size > 0 then
      var n := Least(7, s.size);
      (s.(size := s.size - n, curr := s.curr + 1),
       Packet(s.tx[7 * s.curr..7 * s.curr + n] + Zeros(7 - n) + [0x40 + s.curr]))
    else if s.curr == s.exp && s.exp > 0 then (s.(curr := 0, exp := 0), Packet(TERMINATOR))
    else (s, StatusRecord)
  }

  // Bytes 7k to 7k + 6 of a frame.
  function Chunk(f: frame, k: nat): bytes
    requires k < 10
  {
    f[7 * k..7 * k + 7]
  }

  function Put(f: frame, k: nat, d: bytes): frame
    requires k < 10 && |d| == 7
  {
    f[..7 * k] + d + f[7 * k + 7..]
  }

  // get_uint16_t_le
  function WordAt(f: frame, i: nat): nat
    requires i + 1 < FRAME
  {
    (f[i] as nat) + 256 * (f[i + 1] as nat)
  }

  // The payload, the slot byte behind it, and the CRC of the payload behind that.
  function Check(f: frame): Reply {
    if Crc(f[..PAYLOAD]) == WordAt(f, 65) then Command(f[PAYLOAD], f[..PAYLOAD]) else BadCrc
  }

  predicate IsFrame(p: packet) {
    p[7] != 0xFF && p[7] >= 0x80 && p[7] % 32 < 10
  }

  // The receive buffer after a frame packet.
  function Received(rx: frame, p: packet): frame
    requires IsFrame(p)
  {
    Put(if p[7] % 32 == 0 then Zeros(FRAME) else rx, p[7] % 32, p[..7])
  }

  function Answered(s: State, response: bytes): State
    requires |response| <= FRAME
  {
    s.(tx := response + s.tx[|response|..])
  }

  // A frame that checks is executed; its answer, if any, becomes the next frame to send.
  function Executed(s: State, effect: Effect): (State, Reply) {
    var outcome := Check(s.rx);
    if !outcome.Command? then (s, outcome)
    else
      var s1 := s.(rx := effect.leftover);
      (if 0 < |effect.response| <= FRAME - 2 then Sent(Answered(s1, effect.response), |effect.response|) else s1, outcome)
  }

  function SetStep(s: State, p: packet, effect: Effect): (State, Reply) {
    if p[7] == 0xFF then (s.(tx := Zeros(FRAME), size := 0, exp := 0, curr := 0), Reset)
    else if !IsFrame(p) then (s, Nothing)
    else
      var s1 := s.(rx := Received(s.rx, p));
      if p[7] % 32 < 9 then (s1, Nothing) else Executed(s1, effect)
  }

  function Step(s: State, ev: Event): (State, Reply)
    requires Valid(s)
  {
    if ev.GetReport? then GetStep(s) else SetStep(s, ev.p, ev.effect)
  }

  lemma StepValid(s: State, ev: Event)
    requires Valid(s)
    ensures Valid(Step(s, ev).0)
  {
  }

  class Keyboard {
    const tx: array<byte>
    const rx: array<byte>
    var size: nat
    var exp: byte
    var curr: byte

    ghost predicate Ready()
      reads this, tx, rx
    {
      tx.Length == FRAME && rx.Length == FRAME && tx != rx && Valid(Now())
    }

    ghost function Now(): State
      requires tx.Length == FRAME && rx.Length == FRAME
      reads this, tx, rx
    {
      State(tx[..], size, exp, curr, rx[..])
    }

    constructor ()
      ensures Ready() && fresh(tx) && fresh(rx)
      ensures Now() == State(Zeros(FRAME), 0, 0, 0, Zeros(FRAME))
    {
      tx := new byte[FRAME](_ => 0);
      rx := new byte[FRAME](_ => 0);
      size, exp, curr := 0, 0, 0;
    }

    method SendFrame(n: nat)
      requires Ready() && n + 2 <= FRAME
      modifies this, tx
      ensures Ready() && Now() == Sent(old(Now()), n)
    {
      var crc := CalculateCrc(tx, n);
      ghost var before := tx[..];
      assert before[..n] == tx[..n];
      tx[n], tx[n + 1] := Complement(crc) % 256, Complement(crc) / 256;
      size := n + 2;
      exp := size / 7;
      if size % 7 != 0 { exp := exp + 1; }
      curr := 0;
      assert tx[..] == Sealed(before[..n]) + before[n + 2..];
    }

    method Poll() returns (reply: Reply)
      requires Ready()
      modifies this
      ensures Ready() && (Now(), reply) == GetStep(old(Now()))
    {
      if size > 0 {
        var seqn := curr;
        curr := curr + 1;
        var n := Least(7, size);
        reply := Packet(tx[7 * seqn..7 * seqn + n] + Zeros(7 - n) + [0x40 + seqn]);
        size := size - n;
        assert tx[7 * seqn..7 * seqn + n] == tx[..][7 * seqn..7 * seqn + n];
      } else if curr == exp && exp > 0 {
        reply := Packet(TERMINATOR);
        curr, exp := 0, 0;
      } else {
        reply := StatusRecord;
      }
    }

    // memset and memcpy of one packet.
    method Store(p: packet)
      requires Ready() && IsFrame(p)
      modifies rx
      ensures Ready() && Now() == old(Now()).(rx := Received(old(rx[..]), p))
    {
      var k := p[7] % 32;
      if k == 0 {
        forall i | 0 <= i < FRAME { rx[i] := 0; }
        assert rx[..] == Zeros(FRAME);
      }
      ghost var base := rx[..];
      forall i | 0 <= i < 7 { rx[7 * k + i] := p[i]; }
      assert rx[..] == Put(base, k, p[..7]);
    }

    method Clear()
      requires Ready()
      modifies this, tx
      ensures Ready() && Now() == old(Now()).(tx := Zeros(FRAME), size := 0, exp := 0, curr := 0)
    {
      size, curr, exp := 0, 0, 0;
      forall i | 0 <= i < FRAME { tx[i] := 0; }
      assert tx[..] == Zeros(FRAME);
    }

    method Answer(response: bytes)
      requires Ready() && |response| <= FRAME - 2
      modifies this, tx
      ensures Ready() && Now() == Sent(Answered(old(Now()), response), |response|)
    {
      ghost var before := tx[..];
      forall i | 0 <= i < |response| { tx[i] := response[i]; }
      assert tx[..] == response + before[|response|..];
      SendFrame(|response|);
    }

    method Leave(leftover: frame)
      requires Ready()
      modifies rx
      ensures Ready() && Now() == old(Now()).(rx := leftover)
    {
      forall i | 0 <= i < FRAME { rx[i] := leftover[i]; }
      assert rx[..] == leftover;
    }

    // A complete frame: check it, execute it, and send what it answers.
    method Complete(effect: Effect) returns (reply: Reply)
      requires Ready()
      modifies this, tx, rx
      ensures Ready() && (Now(), reply) == Executed(old(Now()), effect)
    {
      var crc := CalculateCrc(rx, PAYLOAD);
      assert rx[..PAYLOAD] == rx[..][..PAYLOAD];
      if crc != (rx[65] as nat) + 256 * (rx[66] as nat) { return BadCrc; }
      reply := Command(rx[PAYLOAD], rx[..PAYLOAD]);
      assert reply == Check(rx[..]);
      Leave(effect.leftover);
      if 0 < |effect.response| <= FRAME - 2 { Answer(effect.response); }
    }

    method Report(p: packet, effect: Effect) returns (reply: Reply)
      requires Ready()
      modifies this, tx, rx
      ensures Ready() && (Now(), reply) == SetStep(old(Now()), p, effect)
    {
      if p[7] == 0xFF {
        Clear();
        return Reset;
      }
      if !IsFrame(p) { return Nothing; }
      Store(p);
      if p[7] % 32 != 9 { return Nothing; }
      reply := Complete(effect);
    }
  }

  // ---------- to the host ----------

  function Machine(): (State, Event) -> (State, Reply) {
    (s: State, ev: Event) => if Valid(s) then Step(s, ev) else (s, Nothing)
  }

  function Polls(n: nat): seq<Event> {
    if n == 0 then [] else [GetReport] + Polls(n - 1)
  }

  // What the host puts together.
  function Text(replies: seq<Reply>): bytes {
    if replies == [] then []
    else (if replies[0].Packet? then replies[0].p[..7] else []) + Text(replies[1..])
  }

  // Packets numbered from first on.
  ghost predicate Numbered(replies: seq<Reply>, first: nat) {
    forall i :: 0 <= i < |replies| ==> replies[i].Packet? && replies[i].p[7] == 0x40 + first + i
  }

  lemma NumberedFirst(reply: Reply, rest: seq<Reply>, first: nat)
    requires reply.Packet? && reply.p[7] == 0x40 + first && Numbered(rest, first + 1)
    ensures Numbered([reply] + rest, first)
  {
    var all := [reply] + rest;
    forall i | 0 <= i < |all| ensures all[i].Packet? && all[i].p[7] == 0x40 + first + i {
      if i > 0 { assert all[i] == rest[i - 1]; }
    }
  }

  // One poll of a frame under way.
  lemma DrainStep(s: State)
    requires Valid(s) && s.size > 0
    ensures var (t, reply) := Machine()(s, GetReport);
            && Valid(t) && t == s.(size := s.size - Least(7, s.size), curr := s.curr + 1)
            && Packets(s.size) == Packets(t.size) + 1
            && reply.Packet? && reply.p[7] == 0x40 + s.curr
            && reply.p[..7] == s.tx[7 * s.curr..7 * s.curr + Least(7, s.size)] + Zeros(7 - Least(7, s.size))
  {
  }

  // The bytes that wait, filled up to whole packets.
  function Waiting(s: State): bytes
    requires Valid(s) && s.size > 0
  {
    s.tx[7 * s.curr..7 * s.curr + s.size] + Zeros(7 * Packets(s.size) - s.size)
  }

  lemma WaitingStep(s: State, t: State)
    requires Valid(s) && s.size > 0 && Valid(t) && t == s.(size := s.size - Least(7, s.size), curr := s.curr + 1)
    ensures s.tx[7 * s.curr..7 * s.curr + Least(7, s.size)] + Zeros(7 - Least(7, s.size))
              + (if t.size > 0 then Waiting(t) else []) == Waiting(s)
  {
    var from, to := 7 * s.curr, 7 * s.curr + s.size;
    if t.size > 0 {
      assert 7 * Packets(t.size) - t.size == 7 * Packets(s.size) - s.size;
      Joined(s.tx, from, from + 7, to, Zeros(7 * Packets(t.size) - t.size));
    } else {
      assert Packets(s.size) == 1;
      Joined(s.tx, from, to, to, Zeros(7 - s.size));
    }
  }

  lemma Joined(b: bytes, i: nat, j: nat, k: nat, fill: bytes)
    requires i <= j <= k <= |b|
    ensures b[i..j] + Zeros(0) + (b[j..k] + fill) == b[i..k] + fill && b[i..j] + fill + [] == b[i..j] + fill
  {
  }

  lemma DrainsFirst(s: State, t: State, reply: Reply, rest: seq<Reply>)
    requires Valid(s) && s.size > 0 && Valid(t) && t == s.(size := s.size - Least(7, s.size), curr := s.curr + 1)
    requires reply.Packet? && reply.p[7] == 0x40 + s.curr
    requires reply.p[..7] == s.tx[7 * s.curr..7 * s.curr + Least(7, s.size)] + Zeros(7 - Least(7, s.size))
    requires Numbered(rest, t.curr) && Text(rest) == if t.size > 0 then Waiting(t) else []
    ensures Numbered([reply] + rest, s.curr) && Text([reply] + rest) == Waiting(s)
  {
    WaitingStep(s, t);
    NumberedFirst(reply, rest, s.curr);
    TextFirst(reply, rest);
  }

  // As many polls as there are packets hand out exactly the bytes that wait.
  lemma {:induction false} Drains(s: State)
    requires Valid(s) && s.size > 0 && s.curr + Packets(s.size) == s.exp
    ensures var (t, replies) := Walk(Machine(), s, Polls(Packets(s.size)));
            t == s.(size := 0, curr := s.exp) && Numbered(replies, s.curr) && Text(replies) == Waiting(s)
    decreases s.size
  {
    DrainStep(s);
    var (t, reply) := Machine()(s, GetReport);
    var polls := Polls(Packets(t.size));
    var (u, rest) := Walk(Machine(), t, polls);
    if t.size > 0 { Drains(t); }
    DrainsFirst(s, t, reply, rest);
    WalkFirst(Machine(), s, GetReport, polls);
  }

  lemma TextFirst(reply: Reply, rest: seq<Reply>)
    requires reply.Packet?
    ensures Text([reply] + rest) == reply.p[..7] + Text(rest)
  {
    assert ([reply] + rest)[1..] == rest;
  }

  function StatusRecords(n: nat): seq<Reply> {
    if n == 0 then [] else [StatusRecord] + StatusRecords(n - 1)
  }

  lemma {:induction false} IdlePolls(s: State, n: nat)
    requires Valid(s) && s.size == 0 && s.exp == 0
    ensures Walk(Machine(), s, Polls(n)) == (s, StatusRecords(n))
  {
    if n > 0 {
      IdlePolls(s, n - 1);
      WalkFirst(Machine(), s, GetReport, Polls(n - 1));
    }
  }

  // When all packets are out, the next poll gets the terminator, and every further one the
  // status record.
  lemma TerminatorOnce(s: State, n: nat)
    requires Valid(s) && s.size == 0 && s.curr == s.exp > 0
    ensures Walk(Machine(), s, Polls(n + 1)) == (s.(curr := 0, exp := 0), [Packet(TERMINATOR)] + StatusRecords(n))
  {
    IdlePolls(s.(curr := 0, exp := 0), n);
    WalkFirst(Machine(), s, GetReport, Polls(n));
  }

  // A frame of n bytes reaches the host whole: in ceil((n + 2) / 7) packets numbered from 0,
  // followed by one terminator, after which the keyboard is idle however often it is polled.
  // The host finds the frame with a CRC that passes, and only filling zeros behind it.
  lemma FrameArrives(s: State, n: nat, more: nat)
    requires n + 2 <= FRAME
    ensures var s1 := Sent(s, n);
            var k := Packets(n + 2);
            var (t, replies) := Walk(Machine(), s1, Polls(k));
            && Numbered(replies, 0) && |replies| == k && 7 * (k - 1) < n + 2 <= 7 * k
            && Text(replies) == Sealed(s.tx[..n]) + Zeros(7 * k - (n + 2))
            && Passes(Text(replies)[..n + 2])
            && Walk(Machine(), t, Polls(more + 1))
               == (s1.(size := 0, curr := 0, exp := 0), [Packet(TERMINATOR)] + StatusRecords(more))
  {
    var s1, k := Sent(s, n), Packets(n + 2);
    Drains(s1);
    PollCount(k);
    SealedText(s, n);
    TerminatorOnce(s1.(size := 0, curr := s1.exp), more);
  }

  lemma SealedText(s: State, n: nat)
    requires n + 2 <= FRAME
    ensures var fill := Zeros(7 * Packets(n + 2) - (n + 2));
            Waiting(Sent(s, n)) == Sealed(s.tx[..n]) + fill && Passes((Sealed(s.tx[..n]) + fill)[..n + 2])
  {
    var sealed := Sealed(s.tx[..n]);
    assert Sent(s, n).tx[0..n + 2] == sealed;
    assert sealed[..|sealed| - 2] == s.tx[..n];
    PassesIffSealed(sealed);
    assert (sealed + Zeros(7 * Packets(n + 2) - (n + 2)))[..n + 2] == sealed;
  }

  lemma {:induction false} PollCount(n: nat)
    ensures |Polls(n)| == n
  {
    if n > 0 { PollCount(n - 1); }
  }

  // ---------- from the host ----------

  predicate Carries(ev: Event, f: frame, k: nat)
    requires k < 10
  {
    ev.SetReport? && IsFrame(ev.p) && ev.p[7] % 32 == k && ev.p[..7] == Chunk(f, k)
  }

  // The chunks in done are in place, the others still zero.
  ghost predicate Partial(rx: frame, f: frame, done: set<nat>) {
    forall k :: 0 <= k < 10 ==> Chunk(rx, k) == if k in done then Chunk(f, k) else Zeros(7)
  }

  lemma PutChunk(rx: frame, k: nat, d: bytes, j: nat)
    requires k < 10 && |d| == 7 && j < 10
    ensures Chunk(Put(rx, k, d), j) == if j == k then d else Chunk(rx, j)
  {
    if j < k {
      assert 7 * j + 7 <= 7 * k;
    } else if j > k {
      assert 7 * k + 7 <= 7 * j;
    }
  }

  lemma PartialGrows(rx: frame, f: frame, done: set<nat>, k: nat)
    requires k < 10 && Partial(rx, f, done)
    ensures Partial(Put(rx, k, Chunk(f, k)), f, done + {k})
  {
    forall j | 0 <= j < 10 { PutChunk(rx, k, Chunk(f, k), j); }
  }

  lemma FrameOfChunks(rx: frame, f: frame)
    requires forall k :: 0 <= k < 10 ==> Chunk(rx, k) == Chunk(f, k)
    ensures rx == f
  {
    forall i | 0 <= i < FRAME ensures rx[i] == f[i] {
      assert rx[i] == Chunk(rx, i / 7)[i % 7] && f[i] == Chunk(f, i / 7)[i % 7];
    }
  }

  function Numbers(evs: seq<Event>): set<nat> {
    if evs == [] then {} else (if evs[0].SetReport? then {evs[0].p[7] % 32} else {}) + Numbers(evs[1..])
  }

  // Packets 1 to 8, any of them, in any order and any number of times.
  ghost predicate Middle(f: frame, evs: seq<Event>) {
    forall i :: 0 <= i < |evs| ==> Inner(f, evs[i])
  }

  ghost predicate Inner(f: frame, ev: Event) {
    exists k :: 1 <= k <= 8 && Carries(ev, f, k)
  }

  ghost predicate AllNothing(replies: seq<Reply>) {
    forall i :: 0 <= i < |replies| ==> replies[i] == Nothing
  }

  lemma OnePacket(s: State, f: frame, done: set<nat>, ev: Event, k: nat)
    requires Valid(s) && 1 <= k <= 9 && Carries(ev, f, k) && Partial(s.rx, f, done)
    ensures var rx := Received(s.rx, ev.p);
            Partial(rx, f, done + {k})
            && Machine()(s, ev) == if k < 9 then (s.(rx := rx), Nothing) else Executed(s.(rx := rx), ev.effect)
  {
    PartialGrows(s.rx, f, done, k);
  }

  lemma Union(a: set<nat>, k: nat, b: set<nat>)
    ensures a + {k} + b == a + ({k} + b)
  {
  }

  lemma AllNothingFirst(rest: seq<Reply>)
    requires AllNothing(rest)
    ensures AllNothing([Nothing] + rest)
  {
  }

  lemma {:induction false} MiddleFills(s: State, f: frame, done: set<nat>, evs: seq<Event>)
    requires Valid(s) && Middle(f, evs) && Partial(s.rx, f, done)
    ensures var (t, replies) := Walk(Machine(), s, evs);
            t == s.(rx := t.rx) && Partial(t.rx, f, done + Numbers(evs)) && AllNothing(replies)
    decreases |evs|
  {
    if evs != [] {
      assert Inner(f, evs[0]) && Middle(f, evs[1..]);
      var k :| 1 <= k <= 8 && Carries(evs[0], f, k);
      OnePacket(s, f, done, evs[0], k);
      var s1 := s.(rx := Received(s.rx, evs[0].p));
      MiddleFills(s1, f, done + {k}, evs[1..]);
      AllNothingFirst(Walk(Machine(), s1, evs[1..]).1);
      Union(done, k, Numbers(evs[1..]));
      NumbersFirst(evs, k);
    } else {
      assert done + Numbers(evs) == done;
    }
  }

  lemma NumbersFirst(evs: seq<Event>, k: nat)
    requires evs != [] && evs[0].SetReport? && evs[0].p[7] % 32 == k
    ensures Numbers(evs) == {k} + Numbers(evs[1..])
  {
  }

  // A delivery: packet 0 first, packet 9 last, and between them no packet left out but those
  // that carry only zeros.
  ghost predicate Delivery(f: frame, first: Event, middle: seq<Event>, last: Event) {
    && Carries(first, f, 0) && Middle(f, middle) && Carries(last, f, 9)
    && forall k :: 1 <= k <= 8 && k !in Numbers(middle) ==> Chunk(f, k) == Zeros(7)
  }

  lemma FirstPacket(s: State, f: frame, ev: Event)
    requires Valid(s) && Carries(ev, f, 0)
    ensures var rx := Received(s.rx, ev.p); Machine()(s, ev) == (s.(rx := rx), Nothing) && Partial(rx, f, {0})
  {
    assert Partial(Zeros(FRAME), f, {});
    PartialGrows(Zeros(FRAME), f, {}, 0);
    assert {} + {0} == {0 as nat};
  }

  lemma Complete(rx: frame, f: frame, numbers: set<nat>)
    requires Partial(rx, f, {0} + numbers + {9})
    requires forall k :: 1 <= k <= 8 && k !in numbers ==> Chunk(f, k) == Zeros(7)
    ensures rx == f
  {
    FrameOfChunks(rx, f);
  }

  lemma BeforeLast(s: State, f: frame, first: Event, middle: seq<Event>)
    requires Valid(s) && Carries(first, f, 0) && Middle(f, middle)
    ensures var (t, replies) := Walk(Machine(), s, [first] + middle);
            AllNothing(replies) && t == s.(rx := t.rx) && Partial(t.rx, f, {0} + Numbers(middle))
  {
    FirstPacket(s, f, first);
    var s1 := s.(rx := Received(s.rx, first.p));
    MiddleFills(s1, f, {0}, middle);
    WalkFirst(Machine(), s, first, middle);
  }

  // Whatever was in the buffer, a delivery rebuilds the frame; nothing happens before its last
  // packet, which executes the command if and only if the frame checks.
  lemma DeliveryRebuilds(s: State, f: frame, first: Event, middle: seq<Event>, last: Event)
    requires Valid(s) && Delivery(f, first, middle, last)
    ensures var (t, replies) := Walk(Machine(), s, [first] + middle);
            && AllNothing(replies)
            && Machine()(t, last) == Executed(s.(rx := f), last.effect)
            && Machine()(t, last).1 == Check(f)
  {
    BeforeLast(s, f, first, middle);
    var t := Walk(Machine(), s, [first] + middle).0;
    OnePacket(t, f, {0} + Numbers(middle), last, 9);
    Complete(Received(t.rx, last.p), f, Numbers(middle));
  }

  // ---------- which frames are executed ----------

  // The host's frame: 64 bytes of payload, the slot, the payload's CRC from its low byte on,
  // and three bytes that nothing looks at.
  ghost predicate HostFrame(f: frame, payload: bytes, slot: byte) {
    && |payload| == 64 && f[..64] == payload && f[64] == slot
    && (f[65] as int) + 256 * (f[66] as int) == Crc(payload)
  }

  // A frame is executed, as the command of its slot on its payload, exactly if its CRC is the
  // payload's; any other frame is refused and changes nothing but the receive buffer.
  lemma ExecutedIff(s: State, effect: Effect)
    ensures var (t, reply) := Executed(s, effect);
            && (forall payload: bytes, slot: byte ::
                  reply == Command(slot, payload) <==> HostFrame(s.rx, payload, slot))
            && (reply != BadCrc ==> reply.Command?)
            && (reply == BadCrc ==> t == s)
            && (reply.Command? && effect.response == [] ==> t == s.(rx := effect.leftover))
  {
  }

  // Delivered whole, the host's frame is executed for its slot. With up to two adjacent bytes
  // of the payload damaged on the way it is refused.
  lemma HostFrameIsExecuted(s: State, f: frame, g: frame, payload: bytes, slot: byte,
                            first: Event, middle: seq<Event>, last: Event, i: nat)
    requires Valid(s) && HostFrame(f, payload, slot) && Delivery(g, first, middle, last)
    requires i + 1 < 64 && forall k :: 0 <= k < FRAME && k != i && k != i + 1 ==> g[k] == f[k]
    ensures var t := Walk(Machine(), s, [first] + middle).0;
            Machine()(t, last).1 == if g == f then Command(slot, payload) else BadCrc
  {
    DeliveryRebuilds(s, g, first, middle, last);
    assert forall k :: 0 <= k < 64 ==> f[..64][k] == f[k] && g[..64][k] == g[k];
    AdjacentErrors(f[..64], g[..64], i);
    if g != f {
      var k :| 0 <= k < FRAME && g[k] != f[k];
      assert g[..64][k] != f[..64][k];
    }
  }

  // The CRC does not cover the slot: the same payload goes to another slot unnoticed.
  lemma SlotIsNotCovered(f: frame, payload: bytes, slot: byte, other: byte)
    requires HostFrame(f, payload, slot)
    ensures HostFrame(f[64 := other], payload, other)
  {
    assert f[64 := other][..64] == f[..64];
  }

  lemma AnswerSent(s: State, f: frame, payload: bytes, slot: byte, first: Event, middle: seq<Event>, last: Event)
    requires Valid(s) && HostFrame(f, payload, slot) && Delivery(f, first, middle, last)
    requires 0 < |last.effect.response| <= 68
    ensures Machine()(Walk(Machine(), s, [first] + middle).0, last)
            == (Sent(Answered(s.(rx := last.effect.leftover), last.effect.response), |last.effect.response|), Command(slot, payload))
  {
    DeliveryRebuilds(s, f, first, middle, last);
    ExecutedIff(s.(rx := f), last.effect);
  }

  // The polls after a frame of r has been put into the buffer to send.
  ghost predicate Delivers(u: State, r: bytes, more: nat) {
    var k := (|r| + 8) / 7;
    var (w, replies) := Walk(Machine(), u, Polls(k));
    && Numbered(replies, 0) && |replies| == k
    && Text(replies) == Sealed(r) + Zeros(7 * k - (|r| + 2))
    && Walk(Machine(), w, Polls(more + 1)).1 == [Packet(TERMINATOR)] + StatusRecords(more)
  }

  lemma SentDelivers(s: State, r: bytes, more: nat)
    requires |r| <= 68
    ensures Delivers(Sent(Answered(s, r), |r|), r, more)
  {
    assert Answered(s, r).tx[..|r|] == r;
    FrameArrives(Answered(s, r), |r|, more);
  }

  // From command to answer: the host's frame delivered whole is executed, and the next polls
  // hand out what it answers, sealed, and then one terminator and only status records.
  lemma AnswerArrives(s: State, f: frame, payload: bytes, slot: byte, first: Event, middle: seq<Event>, last: Event, more: nat)
    requires Valid(s) && HostFrame(f, payload, slot) && Delivery(f, first, middle, last)
    requires 0 < |last.effect.response| <= 68
    ensures var (u, reply) := Machine()(Walk(Machine(), s, [first] + middle).0, last);
            reply == Command(slot, payload) && u.rx == last.effect.leftover && Delivers(u, last.effect.response, more)
  {
    AnswerSent(s, f, payload, slot, first, middle, last);
    SentDelivers(s.(rx := last.effect.leftover), last.effect.response, more);
  }

  // A command that answers with nothing, or with more than a frame holds, leaves to the host
  // what was waiting before.
  lemma NoAnswer(s: State, effect: Effect)
    requires effect.response == [] || |effect.response| > 68
    ensures var (t, reply) := Executed(s, effect); t == if reply == BadCrc then s else s.(rx := effect.leftover)
  {
  }

  // A report that ends in FF drops all that waits, whatever the state, so that only status
  // records are polled; one that is no packet of a frame changes nothing.
  lemma OtherReports(s: State, p: packet, effect: Effect, n: nat)
    requires Valid(s)
    ensures p[7] == 0xFF ==>
              var (t, reply) := Machine()(s, SetReport(p, effect));
              && reply == Reset && t.rx == s.rx && (forall i :: 0 <= i < FRAME ==> t.tx[i] == 0)
              && Walk(Machine(), t, Polls(n)) == (t, StatusRecords(n))
    ensures p[7] < 0x80 || (p[7] != 0xFF && p[7] % 32 >= 10) ==> Machine()(s, SetReport(p, effect)) == (s, Nothing)
    ensures 0x80 <= p[7] < 0xFF && p[7] % 32 < 9 ==>
              var (t, reply) := Machine()(s, SetReport(p, effect));
              reply == Nothing && t == s.(rx := t.rx) && Chunk(t.rx, p[7] % 32) == p[..7]
  {
    if p[7] == 0xFF {
      IdlePolls(Machine()(s, SetReport(p, effect)).0, n);
    } else if IsFrame(p) {
      PutChunk(if p[7] % 32 == 0 then Zeros(FRAME) else s.rx, p[7] % 32, p[..7], p[7] % 32);
    }
  }
}
