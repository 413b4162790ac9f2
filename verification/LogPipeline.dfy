/** The log pipeline as a state machine: producers that push and kick in any interleaving, the
    flush task of app_log.c, the device side of _write, and the debug host at the mailbox. A
    step is what one context does between two points where another one may run. */
module LogPipeline {
  import opened Machine
  import opened LogRing
  import opened Sdi

  /** The char type of the build and APP_LOG_FLUSH_CHUNK_SIZE. */
  datatype Config = Config(chars: CharModel, chunk: nat)

  datatype Stage = Poll | WriteData1 | WriteData0

  /** Where the flush task stands; Sending is inside _write. */
  datatype Consumer =
    | Idle
    | Entered(msg: bool, flush: bool)
    | Sending(from: nat, len: nat, sent: nat, stage: Stage)
    | Advance(len: nat)
    | Test
    | Arm

  /** The ring, with all bytes it has ever accepted. */
  datatype Queue = Queue(ring: Ring, accepted: seq<Byte>)

  /** What TMOS and the producers hold for the flush task. unkicked counts the producers between
      their push and their kick; kicked says that some kick has found the task registered. */
  datatype Flags = Flags(registered: bool, kicked: bool, unkicked: nat, flush: bool, msg: bool, armed: bool)

  datatype Host = Watching | GotData0(w0: Word) | GotBoth(w0: Word, w1: Word)

  /** The two registers and the host, with all frames posted and all frames acknowledged. */
  datatype Mailbox = Mailbox(data0: Word, data1: Word, posted: seq<Frame>, host: Host, taken: seq<Frame>)

  datatype State = State(q: Queue, flags: Flags, consumer: Consumer, box: Mailbox)

  datatype Step =
    | Push(line: seq<Byte>)
    | Kick
    | Register
    | MessageArrives
    | TimerFires
    | Dispatch
    | Consume(past: seq<Byte>)
    | HostStep

  /** After AppLog_Init and SDI_Printf_Enable. */
  predicate Init(s: State) {
    && WellFormed(s.q.ring) && s.q.ring.head == 0 && s.q.ring.tail == 0 && s.q.accepted == []
    && s.flags == Flags(false, false, 0, false, false, false)
    && s.consumer == Idle
    && s.box.data0 == ZERO && s.box.posted == [] && s.box.taken == [] && s.box.host == Watching
  }

  predicate Shape(ring: Ring, consumer: Consumer) {
    && WellFormed(ring)
    && match consumer
       case Sending(from, len, sent, _) => from + len <= |ring.cells| && sent < len
       case _ => true
  }

  // ----- the steps, part by part -----

  predicate Enabled(s: State, step: Step) {
    match step
    case Push(_) => true
    case Kick => s.flags.unkicked > 0
    case Register => !s.flags.registered
    case MessageArrives => s.flags.registered
    case TimerFires => s.flags.armed
    case Dispatch => s.consumer == Idle && (s.flags.flush || s.flags.msg)
    case Consume(_) => s.consumer != Idle && (s.consumer.Sending? && s.consumer.stage == Poll ==> s.box.data0 == ZERO)
    case HostStep => s.box.host != Watching || s.box.data0 != ZERO
  }

  function PushTo(q: Queue, line: seq<Byte>): Queue
    requires WellFormed(q.ring)
  {
    Queue(PushLine(q.ring, line), q.accepted + line[..Taken(q.ring, line)])
  }

  /** The bytes at &g_log_buf[tail] that one _write was asked to send. */
  function Chunk(ring: Ring, consumer: Consumer): seq<Byte>
    requires Shape(ring, consumer) && consumer.Sending?
  {
    ring.cells[consumer.from..consumer.from + consumer.len]
  }

  /** The place the flush task moves to. */
  function NextPlace(c: Config, ring: Ring, consumer: Consumer): Consumer
    requires Shape(ring, consumer)
  {
    match consumer
    case Idle => Idle
    case Entered(msg, flush) =>
      if msg || !flush then Idle
      else
        var len := ContiguousLen(ring, c.chunk);
        if len > 0 then Sending(ring.tail, len, 0, Poll) else Test
    case Sending(from, len, sent, Poll) => Sending(from, len, sent, WriteData1)
    case Sending(from, len, sent, WriteData1) => Sending(from, len, sent, WriteData0)
    case Sending(from, len, sent, WriteData0) =>
      var end := sent + Min(len - sent, FRAME_BYTES);
      if end < len then Sending(from, len, end, Poll) else Advance(len)
    case Advance(_) => Test
    case Test => if HasData(ring) then Arm else Idle
    case Arm => Idle
  }

  /** What it writes to the mailbox on the way; past is memory behind the chunk. */
  function DeviceWrite(c: Config, ring: Ring, consumer: Consumer, box: Mailbox, past: seq<Byte>): Mailbox
    requires Shape(ring, consumer)
  {
    match consumer
    case Sending(_, _, sent, WriteData1) => box.(data1 := Data1At(c.chars, Chunk(ring, consumer), sent, past))
    case Sending(_, _, sent, WriteData0) => Post(box, Data0At(c.chars, Chunk(ring, consumer), sent, past))
    case _ => box
  }

  function Post(box: Mailbox, data0: Word): Mailbox {
    box.(data0 := data0, posted := box.posted + [Frame(data0, box.data1)])
  }

  /** What it does to the ring. */
  function ConsumerRing(ring: Ring, consumer: Consumer): Ring
    requires WellFormed(ring)
  {
    if consumer.Advance? then AdvanceTail(ring, consumer.len) else ring
  }

  /** What it does to TMOS: bits it did not treat are returned, and Arm starts the timer. */
  function ConsumerFlags(flags: Flags, consumer: Consumer): Flags {
    match consumer
    case Entered(msg, flush) => flags.(flush := flags.flush || (msg && flush))
    case Arm => flags.(armed := true)
    case _ => flags
  }

  /** The host waits for a nonzero DATA0, reads both words, then clears DATA0. */
  function HostMove(box: Mailbox): Mailbox {
    match box.host
    case Watching => box.(host := GotData0(box.data0))
    case GotData0(w0) => box.(host := GotBoth(w0, box.data1))
    case GotBoth(w0, w1) => box.(host := Watching, taken := box.taken + [Frame(w0, w1)], data0 := ZERO)
  }

  function FlagMove(flags: Flags, step: Step): Flags
    requires step.Kick? ==> flags.unkicked > 0
  {
    match step
    case Push(_) => flags.(unkicked := flags.unkicked + 1)
    case Kick =>
      flags.(unkicked := flags.unkicked - 1, flush := flags.flush || flags.registered,
             kicked := flags.kicked || flags.registered)
    case Register => flags.(registered := true)
    case MessageArrives => flags.(msg := true)
    case TimerFires => flags.(armed := false, flush := true)
    case Dispatch => flags.(flush := false, msg := false)
    case _ => flags
  }

  function Apply(c: Config, s: State, step: Step): State
    requires Shape(s.q.ring, s.consumer) && Enabled(s, step)
  {
    match step
    case Push(line) => s.(q := PushTo(s.q, line), flags := FlagMove(s.flags, step))
    case Dispatch => s.(consumer := Entered(s.flags.msg, s.flags.flush), flags := FlagMove(s.flags, step))
    case Consume(past) =>
      State(s.q.(ring := ConsumerRing(s.q.ring, s.consumer)),
            ConsumerFlags(s.flags, s.consumer),
            NextPlace(c, s.q.ring, s.consumer),
            DeviceWrite(c, s.q.ring, s.consumer, s.box, past))
    case HostStep => s.(box := HostMove(s.box))
    case _ => s.(flags := FlagMove(s.flags, step))
  }

  predicate Next(c: Config, s: State, step: Step, s': State) {
    Shape(s.q.ring, s.consumer) && Enabled(s, step) && s' == Apply(c, s, step)
  }

  /** A run of the machine from its start. */
  predicate IsRun(c: Config, trace: seq<State>, steps: seq<Step>) {
    && 1 <= c.chunk
    && |trace| == |steps| + 1
    && Init(trace[0])
    && forall i {:trigger steps[i]} :: 0 <= i < |steps| ==> Next(c, trace[i], steps[i], trace[i + 1])
  }

  // ----- the invariant -----

  /** The bytes of the chunk being sent, and behind it, that have not been posted yet. */
  function SentCount(consumer: Consumer): nat {
    match consumer
    case Sending(_, _, sent, _) => sent
    case Advance(len) => len
    case _ => 0
  }

  function Unsent(ring: Ring, consumer: Consumer): seq<Byte>
    requires WellFormed(ring) && SentCount(consumer) <= |Contents(ring)|
  {
    Contents(ring)[SentCount(consumer)..]
  }

  ghost predicate Data1Ready(m: CharModel, chunk: seq<Byte>, sent: nat, data1: Word) {
    exists past :: data1 == Data1At(m, chunk, sent, past)
  }

  /** The snapshot stands: its cells are the oldest queued bytes. */
  predicate SnapshotInv(ring: Ring, consumer: Consumer) {
    && Shape(ring, consumer)
    && match consumer
       case Sending(from, len, _, _) => from == ring.tail && len <= |Contents(ring)|
       case Advance(len) => len <= |Contents(ring)| && ring.tail + len <= |ring.cells|
       case _ => true
  }

  /** The device writes a word only into an empty mailbox. */
  ghost predicate DeviceInv(c: Config, ring: Ring, consumer: Consumer, box: Mailbox)
    requires Shape(ring, consumer)
  {
    consumer.Sending? && consumer.stage != Poll ==>
      && box.data0 == ZERO
      && (consumer.stage == WriteData0 ==> Data1Ready(c.chars, Chunk(ring, consumer), consumer.sent, box.data1))
  }

  function Waiting(box: Mailbox): seq<Frame> {
    if box.data0 != ZERO then [Frame(box.data0, box.data1)] else []
  }

  predicate MailboxInv(box: Mailbox) {
    && box.posted == box.taken + Waiting(box)
    && match box.host
       case Watching => true
       case GotData0(w0) => box.data0 != ZERO && w0 == box.data0
       case GotBoth(w0, w1) => box.data0 != ZERO && w0 == box.data0 && w1 == box.data1
  }

  /** Each posted frame carries its group, and the groups and the unsent bytes are the accepted ones. */
  predicate Accounts(m: CharModel, posted: seq<Frame>, groups: seq<seq<Byte>>, unsent: seq<Byte>,
                     accepted: seq<Byte>)
  {
    Carries(m, posted, groups) && Flat(groups) + unsent == accepted
  }

  /** Every accepted byte is in the group of a posted frame or still waits to be posted, in order. */
  ghost predicate StreamInv(m: CharModel, posted: seq<Frame>, unsent: seq<Byte>, accepted: seq<Byte>) {
    exists groups :: Accounts(m, posted, groups, unsent, accepted)
  }

  /** Somebody will still look at the ring. */
  predicate WakeUpOwed(flags: Flags, consumer: Consumer) {
    flags.flush || flags.armed || flags.unkicked > 0 ||
    match consumer
    case Idle => false
    case Entered(_, flush) => flush
    case _ => true
  }

  predicate WakeUpInv(flags: Flags, hasData: bool, consumer: Consumer) {
    && (flags.kicked ==> flags.registered)
    && (flags.kicked && hasData ==> WakeUpOwed(flags, consumer))
  }

  ghost predicate Inv(c: Config, s: State) {
    && SnapshotInv(s.q.ring, s.consumer)
    && DeviceInv(c, s.q.ring, s.consumer, s.box)
    && MailboxInv(s.box)
    && StreamInv(c.chars, s.box.posted, Unsent(s.q.ring, s.consumer), s.q.accepted)
    && WakeUpInv(s.flags, HasData(s.q.ring), s.consumer)
  }

  // ----- the parts, one at a time -----

  lemma PushKeepsSnapshot(ring: Ring, consumer: Consumer, line: seq<Byte>)
    requires SnapshotInv(ring, consumer)
    ensures SnapshotInv(PushLine(ring, line), consumer)
    ensures consumer.Sending? ==> Chunk(PushLine(ring, line), consumer) == Chunk(ring, consumer)
    ensures Unsent(PushLine(ring, line), consumer) == Unsent(ring, consumer) + line[..Taken(ring, line)]
  {
    var ring' := PushLine(ring, line);
    var n := SentCount(consumer);
    var added := line[..Taken(ring, line)];
    PushLineRefinesQueue(ring, line);
    assert (Contents(ring) + added)[n..] == Contents(ring)[n..] + added;
    if consumer.Sending? {
      QueuedCellsHold(ring, consumer.len);
      QueuedCellsHold(ring', consumer.len);
      assert Contents(ring')[..consumer.len] == Contents(ring)[..consumer.len];
    }
  }

  lemma MoreUnsentKeepsStream(m: CharModel, posted: seq<Frame>, unsent: seq<Byte>, accepted: seq<Byte>,
                              added: seq<Byte>)
    requires StreamInv(m, posted, unsent, accepted)
    ensures StreamInv(m, posted, unsent + added, accepted + added)
  {
    var groups :| Accounts(m, posted, groups, unsent, accepted);
    assert Flat(groups) + unsent + added == Flat(groups) + (unsent + added);
    assert Accounts(m, posted, groups, unsent + added, accepted + added);
  }

  lemma FlagMoveKeepsWakeUp(flags: Flags, hasData: bool, hasData': bool, consumer: Consumer, step: Step)
    requires WakeUpInv(flags, hasData, consumer)
    requires step.Kick? ==> flags.unkicked > 0
    requires step.Push? || hasData' == hasData
    ensures !step.Dispatch? ==> WakeUpInv(FlagMove(flags, step), hasData', consumer)
    ensures step.Dispatch? && consumer == Idle ==>
      WakeUpInv(FlagMove(flags, step), hasData, Entered(flags.msg, flags.flush))
  {
  }

  lemma ConsumerKeepsWakeUp(c: Config, flags: Flags, ring: Ring, consumer: Consumer)
    requires Shape(ring, consumer) && WakeUpInv(flags, HasData(ring), consumer)
    ensures WakeUpInv(ConsumerFlags(flags, consumer), HasData(ConsumerRing(ring, consumer)),
                      NextPlace(c, ring, consumer))
  {
  }

  lemma PostKeepsMailbox(box: Mailbox, data0: Word)
    requires MailboxInv(box) && box.data0 == ZERO && data0 != ZERO
    ensures MailboxInv(Post(box, data0))
  {
  }

  /** A posted frame moves its group from the unsent bytes to the carried ones. */
  lemma PostKeepsStream(m: CharModel, posted: seq<Frame>, accepted: seq<Byte>, f: Frame, group: seq<Byte>,
                        rest: seq<Byte>)
    requires StreamInv(m, posted, group + rest, accepted)
    requires DecodeFrame(f) == Received(m, group)
    ensures StreamInv(m, posted + [f], rest, accepted)
  {
    var groups :| Accounts(m, posted, groups, group + rest, accepted);
    FlatAppend(groups, group);
    assert Flat(groups) + (group + rest) == Flat(groups) + group + rest;
    assert Accounts(m, posted + [f], groups + [group], rest, accepted);
  }

  lemma NextPlaceKeepsSnapshot(c: Config, ring: Ring, consumer: Consumer)
    requires 1 <= c.chunk && SnapshotInv(ring, consumer)
    ensures SnapshotInv(ConsumerRing(ring, consumer), NextPlace(c, ring, consumer))
  {
    SnapshotIsOldestRun(ring, c.chunk);
    if consumer.Advance? {
      AdvanceTailRefinesQueue(ring, consumer.len);
    }
  }

  lemma QuietPlaceKeepsUnsent(c: Config, ring: Ring, consumer: Consumer)
    requires 1 <= c.chunk && SnapshotInv(ring, consumer)
    requires !(consumer.Sending? && consumer.stage == WriteData0)
    ensures SnapshotInv(ConsumerRing(ring, consumer), NextPlace(c, ring, consumer))
    ensures Unsent(ConsumerRing(ring, consumer), NextPlace(c, ring, consumer)) == Unsent(ring, consumer)
  {
    NextPlaceKeepsSnapshot(c, ring, consumer);
    if consumer.Advance? {
      AdvanceTailRefinesQueue(ring, consumer.len);
    }
  }

  /** The group of bytes that the next frame carries. */
  function Group(ring: Ring, consumer: Consumer): seq<Byte>
    requires Shape(ring, consumer) && consumer.Sending?
  {
    Chunk(ring, consumer)[consumer.sent..FrameEnd(Chunk(ring, consumer), consumer.sent)]
  }

  lemma PostingTakesGroup(c: Config, ring: Ring, consumer: Consumer)
    requires SnapshotInv(ring, consumer) && consumer.Sending? && consumer.stage == WriteData0
    ensures SnapshotInv(ring, NextPlace(c, ring, consumer))
    ensures Unsent(ring, consumer) == Group(ring, consumer) + Unsent(ring, NextPlace(c, ring, consumer))
  {
    QueuedCellsHold(ring, consumer.len);
    var q, sent, end := Contents(ring), consumer.sent, FrameEnd(Chunk(ring, consumer), consumer.sent);
    assert Chunk(ring, consumer)[sent..end] == q[sent..end];
    assert q[sent..] == q[sent..end] + q[end..];
  }

  // ----- every step keeps the whole -----

  lemma PushKeeps(c: Config, s: State, line: seq<Byte>)
    requires Inv(c, s)
    ensures Inv(c, Apply(c, s, Push(line)))
  {
    PushKeepsSnapshot(s.q.ring, s.consumer, line);
    MoreUnsentKeepsStream(c.chars, s.box.posted, Unsent(s.q.ring, s.consumer), s.q.accepted,
                          line[..Taken(s.q.ring, line)]);
    FlagMoveKeepsWakeUp(s.flags, HasData(s.q.ring), HasData(PushLine(s.q.ring, line)), s.consumer, Push(line));
  }

  lemma FlagStepKeeps(c: Config, s: State, step: Step)
    requires Inv(c, s) && Enabled(s, step)
    requires step.Kick? || step.Register? || step.MessageArrives? || step.TimerFires? || step.Dispatch?
    ensures Inv(c, Apply(c, s, step))
  {
  }

  lemma HostStepKeeps(c: Config, s: State)
    requires Inv(c, s) && Enabled(s, HostStep)
    ensures Inv(c, Apply(c, s, HostStep))
  {
  }

  lemma PostKeepsParts(c: Config, s: State, past: seq<Byte>)
    requires Inv(c, s) && s.consumer.Sending? && s.consumer.stage == WriteData0
    ensures var box := DeviceWrite(c, s.q.ring, s.consumer, s.box, past);
      var consumer := NextPlace(c, s.q.ring, s.consumer);
      && MailboxInv(box) && SnapshotInv(s.q.ring, consumer)
      && StreamInv(c.chars, box.posted, Unsent(s.q.ring, consumer), s.q.accepted)
  {
    var ring, consumer, chunk := s.q.ring, s.consumer, Chunk(s.q.ring, s.consumer);
    var past1 :| s.box.data1 == Data1At(c.chars, chunk, consumer.sent, past1);
    var data0 := Data0At(c.chars, chunk, consumer.sent, past);
    FrameCarriesGroup(c.chars, chunk, consumer.sent, past, past1);
    PostKeepsMailbox(s.box, data0);
    PostingTakesGroup(c, ring, consumer);
    PostKeepsStream(c.chars, s.box.posted, s.q.accepted, Frame(data0, s.box.data1),
                    Group(ring, consumer), Unsent(ring, NextPlace(c, ring, consumer)));
  }

  /** While the port is written to, the ring stands still; the rest of the invariant part by part. */
  lemma SendingKeeps(c: Config, s: State, past: seq<Byte>)
    requires Inv(c, s) && s.consumer.Sending?
    requires SnapshotInv(s.q.ring, NextPlace(c, s.q.ring, s.consumer))
    requires DeviceInv(c, s.q.ring, NextPlace(c, s.q.ring, s.consumer),
                       DeviceWrite(c, s.q.ring, s.consumer, s.box, past))
    requires MailboxInv(DeviceWrite(c, s.q.ring, s.consumer, s.box, past))
    requires StreamInv(c.chars, DeviceWrite(c, s.q.ring, s.consumer, s.box, past).posted,
                       Unsent(s.q.ring, NextPlace(c, s.q.ring, s.consumer)), s.q.accepted)
    ensures Inv(c, Apply(c, s, Consume(past)))
  {
    ConsumerKeepsWakeUp(c, s.flags, s.q.ring, s.consumer);
  }

  lemma PostKeeps(c: Config, s: State, past: seq<Byte>)
    requires Inv(c, s) && s.consumer.Sending? && s.consumer.stage == WriteData0
    ensures Inv(c, Apply(c, s, Consume(past)))
  {
    PostKeepsParts(c, s, past);
    SendingKeeps(c, s, past);
  }

  lemma WriteData1MakesReady(c: Config, ring: Ring, consumer: Consumer, box: Mailbox, past: seq<Byte>)
    requires Shape(ring, consumer) && consumer.Sending? && consumer.stage == WriteData1 && box.data0 == ZERO
    ensures DeviceInv(c, ring, NextPlace(c, ring, consumer), DeviceWrite(c, ring, consumer, box, past))
  {
  }

  lemma Data1KeepsMailbox(box: Mailbox, data1: Word)
    requires MailboxInv(box) && box.data0 == ZERO
    ensures MailboxInv(box.(data1 := data1))
  {
  }

  lemma WriteData1Keeps(c: Config, s: State, past: seq<Byte>)
    requires Inv(c, s) && s.consumer.Sending? && s.consumer.stage == WriteData1
    ensures Inv(c, Apply(c, s, Consume(past)))
  {
    WriteData1MakesReady(c, s.q.ring, s.consumer, s.box, past);
    Data1KeepsMailbox(s.box, Data1At(c.chars, Chunk(s.q.ring, s.consumer), s.consumer.sent, past));
    SendingKeeps(c, s, past);
  }

  lemma QuietPlaceKeepsDevice(c: Config, ring: Ring, consumer: Consumer, box: Mailbox, past: seq<Byte>)
    requires Shape(ring, consumer) && Shape(ConsumerRing(ring, consumer), NextPlace(c, ring, consumer))
    requires consumer.Sending? ==> consumer.stage == Poll && box.data0 == ZERO
    ensures DeviceWrite(c, ring, consumer, box, past) == box
    ensures DeviceInv(c, ConsumerRing(ring, consumer), NextPlace(c, ring, consumer), box)
  {
  }

  lemma QuietConsumeKeeps(c: Config, s: State, past: seq<Byte>)
    requires 1 <= c.chunk
    requires Inv(c, s) && Enabled(s, Consume(past))
    requires s.consumer.Sending? ==> s.consumer.stage == Poll
    ensures Inv(c, Apply(c, s, Consume(past)))
  {
    QuietPlaceKeepsUnsent(c, s.q.ring, s.consumer);
    QuietPlaceKeepsDevice(c, s.q.ring, s.consumer, s.box, past);
    ConsumerKeepsWakeUp(c, s.flags, s.q.ring, s.consumer);
  }

  lemma ConsumeKeeps(c: Config, s: State, past: seq<Byte>)
    requires 1 <= c.chunk
    requires Inv(c, s) && Enabled(s, Consume(past))
    ensures Inv(c, Apply(c, s, Consume(past)))
  {
    if s.consumer.Sending? && s.consumer.stage == WriteData0 {
      PostKeeps(c, s, past);
    } else if s.consumer.Sending? && s.consumer.stage == WriteData1 {
      WriteData1Keeps(c, s, past);
    } else {
      QuietConsumeKeeps(c, s, past);
    }
  }

  lemma StepKeeps(c: Config, s: State, step: Step)
    requires 1 <= c.chunk
    requires Inv(c, s) && Enabled(s, step)
    ensures Inv(c, Apply(c, s, step))
  {
    match step
    case Push(line) => PushKeeps(c, s, line);
    case Consume(past) => ConsumeKeeps(c, s, past);
    case HostStep => HostStepKeeps(c, s);
    case _ => FlagStepKeeps(c, s, step);
  }

  lemma InitHolds(c: Config, s: State)
    requires Init(s)
    ensures Inv(c, s)
  {
    assert Accounts(c.chars, [], [], [], []);
  }

  lemma {:induction false} RunKeeps(c: Config, trace: seq<State>, steps: seq<Step>, i: nat)
    requires IsRun(c, trace, steps) && i < |trace|
    ensures Inv(c, trace[i])
  {
    if i == 0 {
      InitHolds(c, trace[0]);
    } else {
      RunKeeps(c, trace, steps, i - 1);
      assert Next(c, trace[i - 1], steps[i - 1], trace[i]);
      StepKeeps(c, trace[i - 1], steps[i - 1]);
    }
  }
}
