/** What the log pipeline guarantees over whole runs. */
module LogPipelineTheorems {
  import opened Machine
  import opened LogRing
  import opened Sdi
  import opened LogPipeline

  // ----- safety -----

  lemma StepExtendsHistory(c: Config, s: State, step: Step)
    requires Shape(s.q.ring, s.consumer) && Enabled(s, step)
    ensures s.q.accepted <= Apply(c, s, step).q.accepted
    ensures s.box.taken <= Apply(c, s, step).box.taken
    ensures s.flags.kicked ==> Apply(c, s, step).flags.kicked
  {
  }

  lemma {:induction false} HistoryGrows(c: Config, trace: seq<State>, steps: seq<Step>, i: nat, j: nat)
    requires IsRun(c, trace, steps) && i <= j < |trace|
    ensures trace[i].q.accepted <= trace[j].q.accepted
    ensures trace[i].box.taken <= trace[j].box.taken
    ensures trace[i].flags.kicked ==> trace[j].flags.kicked
    decreases j - i
  {
    if i < j {
      HistoryGrows(c, trace, steps, i, j - 1);
      assert Next(c, trace[j - 1], steps[j - 1], trace[j]);
      StepExtendsHistory(c, trace[j - 1], steps[j - 1]);
    }
  }

  /** The frames the host has taken carry exactly the oldest accepted bytes, and what it decodes is
      these very bytes if and only if no frame holds a smearing byte before a changed one. */
  ghost predicate CarriesOldest(m: CharModel, taken: seq<Frame>, accepted: seq<Byte>) {
    exists groups ::
      && Carries(m, taken, groups) && Flat(groups) <= accepted && |Flat(groups)| == |Decode(taken)|
      && (Decode(taken) <= accepted <==> AllSafe(m, groups))
  }

  lemma TakenCarryOldest(m: CharModel, taken: seq<Frame>, more: seq<Frame>, groups: seq<seq<Byte>>, accepted: seq<Byte>)
    requires Carries(m, taken + more, groups) && Flat(groups) <= accepted
    ensures |Decode(taken)| <= |accepted|
    ensures SameOrFlooded(m, Decode(taken), accepted[..|Decode(taken)|])
    ensures CarriesOldest(m, taken, accepted)
  {
    var oldest := groups[..|taken|];
    assert forall k :: 0 <= k < |taken| ==> (taken + more)[k] == taken[k];
    FlatPrefix(groups, |taken|);
    CarriedStream(m, taken, oldest);
    assert Flat(oldest) == accepted[..|Flat(oldest)|];
    assert Carries(m, taken, oldest);
  }

  /** The host's bytes stand for the oldest accepted ones, one for one and in push order; none is
      lost, added or moved, and the only change a signed-char build can make is 0xFF for a byte.
      What is missing is in the mailbox or still queued. */
  ghost predicate ReadInOrder(m: CharModel, taken: seq<Frame>, waiting: seq<Frame>, unsent: seq<Byte>,
                              accepted: seq<Byte>)
  {
    var heard := Decode(taken);
    && |heard| + |Decode(waiting)| + |unsent| == |accepted|
    && SameOrFlooded(m, heard, accepted[..|heard|])
    && CarriesOldest(m, taken, accepted)
  }

  lemma AccountedIsReadInOrder(m: CharModel, taken: seq<Frame>, waiting: seq<Frame>, unsent: seq<Byte>,
                               accepted: seq<Byte>)
    requires StreamInv(m, taken + waiting, unsent, accepted)
    ensures ReadInOrder(m, taken, waiting, unsent, accepted)
  {
    var groups :| Accounts(m, taken + waiting, groups, unsent, accepted);
    CarriedStream(m, taken + waiting, groups);
    DecodeConcat(taken, waiting);
    TakenCarryOldest(m, taken, waiting, groups, accepted);
  }

  /** End-to-end refinement, for every build and every interleaving. */
  lemma HostReadsInOrder(c: Config, trace: seq<State>, steps: seq<Step>, i: nat)
    requires IsRun(c, trace, steps) && i < |trace|
    ensures SnapshotInv(trace[i].q.ring, trace[i].consumer)
    ensures StreamInv(c.chars, trace[i].box.taken + Waiting(trace[i].box),
                      Unsent(trace[i].q.ring, trace[i].consumer), trace[i].q.accepted)
    ensures ReadInOrder(c.chars, trace[i].box.taken, Waiting(trace[i].box),
                        Unsent(trace[i].q.ring, trace[i].consumer), trace[i].q.accepted)
  {
    RunKeeps(c, trace, steps, i);
    AccountedIsReadInOrder(c.chars, trace[i].box.taken, Waiting(trace[i].box),
                           Unsent(trace[i].q.ring, trace[i].consumer), trace[i].q.accepted);
  }

  /** What the host has read is never taken back, and what was accepted stays accepted. */
  lemma NothingIsRetracted(c: Config, trace: seq<State>, steps: seq<Step>, i: nat, j: nat)
    requires IsRun(c, trace, steps) && i <= j < |trace|
    ensures Decode(trace[i].box.taken) <= Decode(trace[j].box.taken)
    ensures trace[i].q.accepted <= trace[j].q.accepted
  {
    HistoryGrows(c, trace, steps, i, j);
    var early, late := trace[i].box.taken, trace[j].box.taken;
    assert early + late[|early|..] == late;
    DecodeConcat(early, late[|early|..]);
  }

  lemma PrefixIsFaithful(m: CharModel, whole: seq<Byte>, part: seq<Byte>)
    requires Faithful(m, whole) && part <= whole
    ensures Faithful(m, part)
  {
  }

  lemma FaithfulIsRead(m: CharModel, taken: seq<Frame>, waiting: seq<Frame>, unsent: seq<Byte>, accepted: seq<Byte>)
    requires StreamInv(m, taken + waiting, unsent, accepted) && Faithful(m, accepted)
    ensures accepted == Decode(taken) + Decode(waiting) + unsent
  {
    var groups :| Accounts(m, taken + waiting, groups, unsent, accepted);
    PrefixIsFaithful(m, accepted, Flat(groups));
    FaithfulGroupsAreSafe(m, groups);
    CarriedStream(m, taken + waiting, groups);
    DecodeConcat(taken, waiting);
  }

  /** With unsigned char, or for seven-bit text: what the host has read is a prefix of the accepted
      bytes themselves, and never taken back. */
  lemma HostReadsPrefix(c: Config, trace: seq<State>, steps: seq<Step>, i: nat, j: nat)
    requires IsRun(c, trace, steps) && i <= j < |trace|
    requires Faithful(c.chars, trace[i].q.accepted)
    ensures SnapshotInv(trace[i].q.ring, trace[i].consumer)
    ensures trace[i].q.accepted
         == Decode(trace[i].box.taken) + Decode(Waiting(trace[i].box)) + Unsent(trace[i].q.ring, trace[i].consumer)
    ensures Decode(trace[i].box.taken) <= trace[i].q.accepted <= trace[j].q.accepted
    ensures Decode(trace[i].box.taken) <= Decode(trace[j].box.taken)
  {
    HostReadsInOrder(c, trace, steps, i);
    FaithfulIsRead(c.chars, trace[i].box.taken, Waiting(trace[i].box),
                   Unsent(trace[i].q.ring, trace[i].consumer), trace[i].q.accepted);
    NothingIsRetracted(c, trace, steps, i, j);
  }

  /** Mailbox protocol: the host takes every posted frame once and in order, never a torn one,
      and at most one frame is outstanding; the device writes only when none is. */
  lemma FramesTakenOnce(c: Config, trace: seq<State>, steps: seq<Step>, i: nat)
    requires IsRun(c, trace, steps) && i < |trace|
    ensures var box := trace[i].box;
      && box.taken <= box.posted && |box.posted| <= |box.taken| + 1
      && (box.host.GotBoth? ==> box.posted == box.taken + [Frame(box.host.w0, box.host.w1)])
      && (trace[i].consumer.Sending? && trace[i].consumer.stage != Poll ==>
            box.posted == box.taken && box.host == Watching)
  {
    RunKeeps(c, trace, steps, i);
  }

  /** No lost wake-up: once a kick has found the task registered, a ring that holds data is owed
      a flush in every later state. */
  lemma NoLostWakeUp(c: Config, trace: seq<State>, steps: seq<Step>, k: nat, i: nat)
    requires IsRun(c, trace, steps) && k < i < |trace|
    requires steps[k] == Kick && trace[k].flags.registered
    ensures HasData(trace[i].q.ring) ==> WakeUpOwed(trace[i].flags, trace[i].consumer)
  {
    assert Next(c, trace[k], steps[k], trace[k + 1]);
    HistoryGrows(c, trace, steps, k + 1, i);
    RunKeeps(c, trace, steps, i);
  }

  // ----- progress -----

  /** A step that brings no new work. */
  predicate Quiet(step: Step) {
    !step.Push? && !step.Register? && !step.MessageArrives?
  }

  function FlagWork(flags: Flags): nat {
    6 * flags.unkicked + (if flags.flush then 5 else 0) + (if flags.msg then 2 else 0) + (if flags.armed then 6 else 0)
  }

  function PlaceWork(hasData: bool, consumer: Consumer): nat {
    match consumer
    case Idle => 0
    case Entered(msg, flush) => if msg && flush then 6 else if flush then 4 else 1
    case Sending(_, _, _, stage) => if stage == Poll then 3 else if stage == WriteData1 then 2 else 1
    case Advance(_) => 9
    case Test => if hasData then 8 else 1
    case Arm => 7
  }

  function BoxWork(box: Mailbox): nat {
    match box.host
    case Watching => if box.data0 != ZERO then 3 else 0
    case GotData0(_) => 2
    case GotBoth(_, _) => 1
  }

  /** Steps that can still happen before the pipeline comes to rest. */
  function Work(s: State): nat
    requires SnapshotInv(s.q.ring, s.consumer)
  {
    12 * |Unsent(s.q.ring, s.consumer)| + FlagWork(s.flags) + PlaceWork(HasData(s.q.ring), s.consumer) + BoxWork(s.box)
  }

  lemma FlagMoveWorks(flags: Flags, step: Step)
    requires step.Kick? ==> flags.unkicked > 0
    ensures step.Kick? ==> FlagWork(FlagMove(flags, step)) < FlagWork(flags)
    ensures step.TimerFires? && flags.armed ==> FlagWork(FlagMove(flags, step)) < FlagWork(flags)
    ensures step.Dispatch? && (flags.flush || flags.msg) ==>
      FlagWork(FlagMove(flags, step)) + PlaceWork(true, Entered(flags.msg, flags.flush)) < FlagWork(flags)
  {
  }

  lemma QuietPlaceWorks(c: Config, flags: Flags, ring: Ring, consumer: Consumer)
    requires 1 <= c.chunk && SnapshotInv(ring, consumer) && consumer != Idle
    requires !(consumer.Sending? && consumer.stage == WriteData0)
    ensures FlagWork(ConsumerFlags(flags, consumer))
          + PlaceWork(HasData(ConsumerRing(ring, consumer)), NextPlace(c, ring, consumer))
          < FlagWork(flags) + PlaceWork(HasData(ring), consumer)
  {
  }

  lemma PartsBounded(hasData: bool, consumer: Consumer, box: Mailbox)
    ensures PlaceWork(hasData, consumer) <= 9 && BoxWork(box) <= 3
  {
  }

  lemma PostingWorks(c: Config, s: State, past: seq<Byte>)
    requires 1 <= c.chunk && Inv(c, s)
    requires s.consumer.Sending? && s.consumer.stage == WriteData0
    ensures Inv(c, Apply(c, s, Consume(past))) && Work(Apply(c, s, Consume(past))) < Work(s)
  {
    PostKeeps(c, s, past);
    PostingTakesGroup(c, s.q.ring, s.consumer);
    var s' := Apply(c, s, Consume(past));
    PartsBounded(HasData(s'.q.ring), s'.consumer, s'.box);
    assert s'.flags == s.flags && s'.q == s.q;
    assert BoxWork(s.box) == 0 && PlaceWork(HasData(s.q.ring), s.consumer) == 1;
  }

  lemma QuietWriteKeepsBoxWork(c: Config, ring: Ring, consumer: Consumer, box: Mailbox, past: seq<Byte>)
    requires Shape(ring, consumer) && (consumer.Sending? ==> consumer.stage != WriteData0)
    ensures BoxWork(DeviceWrite(c, ring, consumer, box, past)) == BoxWork(box)
  {
  }

  lemma LessWork(s: State, s': State)
    requires SnapshotInv(s.q.ring, s.consumer) && SnapshotInv(s'.q.ring, s'.consumer)
    requires Unsent(s'.q.ring, s'.consumer) == Unsent(s.q.ring, s.consumer) && BoxWork(s'.box) == BoxWork(s.box)
    requires FlagWork(s'.flags) + PlaceWork(HasData(s'.q.ring), s'.consumer)
           < FlagWork(s.flags) + PlaceWork(HasData(s.q.ring), s.consumer)
    ensures Work(s') < Work(s)
  {
  }

  lemma QuietConsumeWorks(c: Config, s: State, past: seq<Byte>)
    requires 1 <= c.chunk && SnapshotInv(s.q.ring, s.consumer) && Enabled(s, Consume(past))
    requires s.consumer.Sending? ==> s.consumer.stage != WriteData0
    ensures var s' := Apply(c, s, Consume(past));
      SnapshotInv(s'.q.ring, s'.consumer) && Work(s') < Work(s)
  {
    QuietPlaceKeepsUnsent(c, s.q.ring, s.consumer);
    QuietPlaceWorks(c, s.flags, s.q.ring, s.consumer);
    QuietWriteKeepsBoxWork(c, s.q.ring, s.consumer, s.box, past);
    LessWork(s, Apply(c, s, Consume(past)));
  }

  lemma HostStepWorks(c: Config, s: State)
    requires Inv(c, s) && Enabled(s, HostStep)
    ensures Work(Apply(c, s, HostStep)) < Work(s)
  {
  }

  lemma QuietStepWorks(c: Config, s: State, step: Step)
    requires 1 <= c.chunk && Inv(c, s) && Enabled(s, step) && Quiet(step)
    ensures Inv(c, Apply(c, s, step)) && Work(Apply(c, s, step)) < Work(s)
  {
    StepKeeps(c, s, step);
    match step
    case Consume(past) =>
      if s.consumer.Sending? && s.consumer.stage == WriteData0 {
        PostingWorks(c, s, past);
      } else {
        QuietConsumeWorks(c, s, past);
      }
    case HostStep => HostStepWorks(c, s);
    case _ => FlagMoveWorks(s.flags, step);
  }

  lemma QuietRunStepWorks(c: Config, trace: seq<State>, steps: seq<Step>, i: nat)
    requires IsRun(c, trace, steps) && i < |steps| && Quiet(steps[i])
    ensures SnapshotInv(trace[i].q.ring, trace[i].consumer) && SnapshotInv(trace[i + 1].q.ring, trace[i + 1].consumer)
    ensures Work(trace[i + 1]) < Work(trace[i])
  {
    RunKeeps(c, trace, steps, i);
    assert Next(c, trace[i], steps[i], trace[i + 1]);
    QuietStepWorks(c, trace[i], steps[i]);
  }

  /** Without new lines, messages or registration, every run is bounded, whatever the order of
      its steps. */
  lemma {:induction false} QuietRunIsBounded(c: Config, trace: seq<State>, steps: seq<Step>, i: nat, j: nat)
    requires IsRun(c, trace, steps) && i <= j < |trace|
    requires forall k :: i <= k < j ==> Quiet(steps[k])
    ensures SnapshotInv(trace[i].q.ring, trace[i].consumer)
    ensures j - i <= Work(trace[i])
    decreases j - i
  {
    if i < j {
      QuietRunIsBounded(c, trace, steps, i + 1, j);
      QuietRunStepWorks(c, trace, steps, i);
    } else {
      RunKeeps(c, trace, steps, i);
    }
  }

  ghost predicate AtRest(s: State) {
    forall step :: Quiet(step) ==> !Enabled(s, step)
  }

  lemma RestIsIdle(s: State)
    requires AtRest(s)
    ensures s.consumer == Idle && s.box.data0 == ZERO
    ensures !s.flags.flush && !s.flags.armed && s.flags.unkicked == 0
  {
    assert !Enabled(s, HostStep) && !Enabled(s, Consume([])) && !Enabled(s, Dispatch);
    assert !Enabled(s, TimerFires) && !Enabled(s, Kick);
  }

  lemma NothingWaitsAtRest(s: State)
    requires SnapshotInv(s.q.ring, s.consumer) && WakeUpInv(s.flags, HasData(s.q.ring), s.consumer)
    requires s.flags.kicked && AtRest(s)
    ensures Waiting(s.box) == [] && Unsent(s.q.ring, s.consumer) == []
  {
    RestIsIdle(s);
  }

  /** The host has a byte for every accepted byte, in order: the accepted bytes themselves exactly
      when every frame is safe, which is so in particular for faithful bytes. */
  ghost predicate Delivered(m: CharModel, taken: seq<Frame>, accepted: seq<Byte>) {
    && SameOrFlooded(m, Decode(taken), accepted)
    && CarriesOldest(m, taken, accepted)
    && (Faithful(m, accepted) ==> Decode(taken) == accepted)
  }

  lemma ReadToTheEnd(m: CharModel, taken: seq<Frame>, accepted: seq<Byte>)
    requires StreamInv(m, taken + [], [], accepted)
    ensures Delivered(m, taken, accepted)
  {
    AccountedIsReadInOrder(m, taken, [], [], accepted);
    assert accepted[..|accepted|] == accepted;
    if Faithful(m, accepted) {
      FaithfulIsRead(m, taken, [], [], accepted);
    }
  }

  /** The pipeline rests only when everything has arrived: if no quiet step is possible after a
      successful kick, every accepted byte has been delivered. */
  lemma RestMeansDelivered(c: Config, trace: seq<State>, steps: seq<Step>, i: nat)
    requires IsRun(c, trace, steps) && i < |trace|
    requires trace[i].flags.kicked && AtRest(trace[i])
    ensures Delivered(c.chars, trace[i].box.taken, trace[i].q.accepted)
  {
    RunKeeps(c, trace, steps, i);
    HostReadsInOrder(c, trace, steps, i);
    NothingWaitsAtRest(trace[i]);
    ReadToTheEnd(c.chars, trace[i].box.taken, trace[i].q.accepted);
  }

  // ----- start-up -----

  /** AppLog_TaskInit registers the task and then logs a line of its own: from that push on, a kick
      has found the task registered, or one still will. */
  lemma {:induction false} RegistrationIsKicked(c: Config, trace: seq<State>, steps: seq<Step>, r: nat, p: nat, i: nat)
    requires IsRun(c, trace, steps) && r < p < i < |trace|
    requires steps[r] == Register && steps[p].Push?
    ensures trace[i].flags.registered && (trace[i].flags.kicked || trace[i].flags.unkicked > 0)
    decreases i
  {
    assert Next(c, trace[i - 1], steps[i - 1], trace[i]);
    if p + 1 < i {
      RegistrationIsKicked(c, trace, steps, r, p, i - 1);
    } else {
      assert Next(c, trace[r], steps[r], trace[r + 1]);
      StaysRegistered(c, trace, steps, r + 1, p);
    }
  }

  lemma {:induction false} StaysRegistered(c: Config, trace: seq<State>, steps: seq<Step>, i: nat, j: nat)
    requires IsRun(c, trace, steps) && i <= j < |trace|
    ensures trace[i].flags.registered ==> trace[j].flags.registered
    decreases j - i
  {
    if i < j {
      StaysRegistered(c, trace, steps, i, j - 1);
      assert Next(c, trace[j - 1], steps[j - 1], trace[j]);
    }
  }

  /** So after AppLog_TaskInit no wake-up is lost and rest means delivery, without any further
      assumption about kicks. */
  lemma StartedPipelineDelivers(c: Config, trace: seq<State>, steps: seq<Step>, r: nat, p: nat, i: nat)
    requires IsRun(c, trace, steps) && r < p < i < |trace|
    requires steps[r] == Register && steps[p].Push?
    ensures HasData(trace[i].q.ring) ==> WakeUpOwed(trace[i].flags, trace[i].consumer)
    ensures AtRest(trace[i]) ==> Delivered(c.chars, trace[i].box.taken, trace[i].q.accepted)
  {
    RegistrationIsKicked(c, trace, steps, r, p, i);
    RunKeeps(c, trace, steps, i);
    if AtRest(trace[i]) {
      assert !Enabled(trace[i], Kick);
      RestMeansDelivered(c, trace, steps, i);
    }
  }

  // ----- the steps of one write -----

  /** The host works until the mailbox is empty, which is what the device waits for. */
  function HostEmpties(box: Mailbox): (r: Mailbox)
    ensures r.data0 == ZERO && r.host == Watching && r.data1 == box.data1 && r.posted == box.posted
    decreases BoxWork(box)
  {
    if BoxWork(box) == 0 then box else HostEmpties(HostMove(box))
  }

  /** The device steps of one send, with the host emptying the mailbox before every frame. */
  function SendAlone(c: Config, ring: Ring, consumer: Consumer, box: Mailbox, past: seq<Byte>)
    : (r: (Consumer, Mailbox))
    requires Shape(ring, consumer)
    ensures r.0 == if consumer.Sending? then Advance(consumer.len) else consumer
    decreases if consumer.Sending? then consumer.len - consumer.sent else 0, PlaceWork(true, consumer)
  {
    match consumer
    case Sending(_, _, _, stage) =>
      var box' := if stage == Poll then HostEmpties(box) else box;
      SendAlone(c, ring, NextPlace(c, ring, consumer), DeviceWrite(c, ring, consumer, box', past), past)
    case _ => (consumer, box)
  }

  /** One more frame posted. */
  function WithFrame(box: Mailbox, f: Frame): (r: Mailbox)
    ensures r.posted == box.posted + [f]
  {
    Post(HostEmpties(box).(data1 := f.data1), f.data0)
  }

  function AfterFrame(from: nat, len: nat, end: nat): Consumer {
    if end < len then Sending(from, len, end, Poll) else Advance(len)
  }

  lemma FramePlace(c: Config, ring: Ring, from: nat, len: nat, sent: nat)
    requires Shape(ring, Sending(from, len, sent, WriteData0))
    ensures NextPlace(c, ring, Sending(from, len, sent, WriteData0))
         == AfterFrame(from, len, FrameEnd(ring.cells[from..from + len], sent))
  {
  }

  lemma FrameWrites(c: Config, ring: Ring, from: nat, len: nat, sent: nat, box: Mailbox, past: seq<Byte>)
    requires Shape(ring, Sending(from, len, sent, Poll))
    ensures var chunk := ring.cells[from..from + len];
      var box1 := DeviceWrite(c, ring, Sending(from, len, sent, WriteData1), HostEmpties(box), past);
      DeviceWrite(c, ring, Sending(from, len, sent, WriteData0), box1, past)
        == WithFrame(box, FrameAt(c.chars, chunk, sent, past))
  {
  }

  lemma SendStep(c: Config, ring: Ring, from: nat, len: nat, sent: nat, stage: Stage, box: Mailbox, past: seq<Byte>)
    requires Shape(ring, Sending(from, len, sent, stage))
    ensures var at := Sending(from, len, sent, stage);
      var box' := if stage == Poll then HostEmpties(box) else box;
      SendAlone(c, ring, at, box, past) ==
        SendAlone(c, ring, NextPlace(c, ring, at), DeviceWrite(c, ring, at, box', past), past)
  {
  }

  /** Three steps of the device post one frame. */
  lemma OneFrame(c: Config, ring: Ring, from: nat, len: nat, sent: nat, box: Mailbox, past: seq<Byte>)
    requires Shape(ring, Sending(from, len, sent, Poll))
    ensures var chunk := ring.cells[from..from + len];
      SendAlone(c, ring, Sending(from, len, sent, Poll), box, past) ==
        SendAlone(c, ring, AfterFrame(from, len, FrameEnd(chunk, sent)),
                  WithFrame(box, FrameAt(c.chars, chunk, sent, past)), past)
  {
    var box0 := HostEmpties(box);
    SendStep(c, ring, from, len, sent, Poll, box, past);
    SendStep(c, ring, from, len, sent, WriteData1, box0, past);
    var box1 := DeviceWrite(c, ring, Sending(from, len, sent, WriteData1), box0, past);
    SendStep(c, ring, from, len, sent, WriteData0, box1, past);
    FramePlace(c, ring, from, len, sent);
    FrameWrites(c, ring, from, len, sent, box, past);
  }

  /** The steps of one write add up to the frames that Sdi.Port.Write posts for the same bytes. */
  predicate SendsFrames(c: Config, ring: Ring, from: nat, len: nat, sent: nat, box: Mailbox, past: seq<Byte>)
    requires Shape(ring, Sending(from, len, sent, Poll))
  {
    var (place, box') := SendAlone(c, ring, Sending(from, len, sent, Poll), box, past);
    && place == Advance(len)
    && box'.posted == box.posted + FramesFrom(c.chars, ring.cells[from..from + len], sent, past)
  }

  lemma LastFrameSends(c: Config, ring: Ring, from: nat, len: nat, sent: nat, box: Mailbox, past: seq<Byte>)
    requires Shape(ring, Sending(from, len, sent, Poll)) && len - sent <= FRAME_BYTES
    ensures SendsFrames(c, ring, from, len, sent, box, past)
  {
    var chunk := ring.cells[from..from + len];
    var box' := WithFrame(box, FrameAt(c.chars, chunk, sent, past));
    OneFrame(c, ring, from, len, sent, box, past);
    FramesStep(c.chars, chunk, sent, past);
    assert SendAlone(c, ring, Advance(len), box', past) == (Advance(len), box');
  }

  lemma FirstFrameSends(c: Config, ring: Ring, from: nat, len: nat, sent: nat, box: Mailbox, past: seq<Byte>)
    requires Shape(ring, Sending(from, len, sent, Poll)) && len - sent > FRAME_BYTES
    requires var f := FrameAt(c.chars, ring.cells[from..from + len], sent, past);
      SendsFrames(c, ring, from, len, sent + FRAME_BYTES, WithFrame(box, f), past)
    ensures SendsFrames(c, ring, from, len, sent, box, past)
  {
    var chunk, next := ring.cells[from..from + len], sent + FRAME_BYTES;
    OneFrame(c, ring, from, len, sent, box, past);
    FramesStep(c.chars, chunk, sent, past);
    PostedThen(box.posted, FrameAt(c.chars, chunk, sent, past), FramesFrom(c.chars, chunk, next, past));
  }

  lemma {:induction false} StepsMakeWrite(c: Config, ring: Ring, from: nat, len: nat, sent: nat, box: Mailbox,
                                          past: seq<Byte>)
    requires Shape(ring, Sending(from, len, sent, Poll))
    ensures SendsFrames(c, ring, from, len, sent, box, past)
    decreases len - sent
  {
    if len - sent <= FRAME_BYTES {
      LastFrameSends(c, ring, from, len, sent, box, past);
    } else {
      var f := FrameAt(c.chars, ring.cells[from..from + len], sent, past);
      StepsMakeWrite(c, ring, from, len, sent + FRAME_BYTES, WithFrame(box, f), past);
      FirstFrameSends(c, ring, from, len, sent, box, past);
    }
  }

  // ----- the steps of one call of the handler -----

  function StepsLeft(consumer: Consumer): nat {
    match consumer
    case Idle => 0
    case Arm => 1
    case Test => 2
    case Advance(_) => 3
    case Sending(_, _, _, _) => 4
    case Entered(_, _) => 5
  }

  /** The steps of the flush task up to its return, with the host emptying the mailbox before every
      frame and nothing else running. */
  function HandleAlone(c: Config, ring: Ring, flags: Flags, consumer: Consumer, box: Mailbox, past: seq<Byte>)
    : (Ring, Flags, Mailbox)
    requires 1 <= c.chunk && SnapshotInv(ring, consumer)
    decreases StepsLeft(consumer)
  {
    match consumer
    case Idle => (ring, flags, box)
    case Sending(_, _, _, _) =>
      var (place, box') := SendAlone(c, ring, consumer, box, past);
      HandleAlone(c, ring, flags, place, box', past)
    case _ =>
      NextPlaceKeepsSnapshot(c, ring, consumer);
      var ring', flags' := ConsumerRing(ring, consumer), ConsumerFlags(flags, consumer);
      HandleAlone(c, ring', flags', NextPlace(c, ring, consumer), box, past)
  }

  /** The end of a flush: test the ring and arm the timer if bytes are left. */
  lemma TestArms(c: Config, ring: Ring, flags: Flags, box: Mailbox, past: seq<Byte>)
    requires 1 <= c.chunk && WellFormed(ring)
    ensures HandleAlone(c, ring, flags, Test, box, past)
         == (ring, flags.(armed := flags.armed || HasData(ring)), box)
  {
    if HasData(ring) {
      assert HandleAlone(c, ring, flags, Test, box, past) == HandleAlone(c, ring, flags, Arm, box, past);
    }
  }

  /** The cells from the tail on have been sent as the frames of one write and left the ring. */
  predicate Sent(c: Config, ring: Ring, flags: Flags, len: nat, box: Mailbox, past: seq<Byte>,
                 done: (Ring, Flags, Mailbox))
    requires WellFormed(ring) && ring.tail + len <= |ring.cells|
  {
    && done.0 == AdvanceTail(ring, len)
    && done.1 == flags.(armed := flags.armed || HasData(done.0))
    && done.2.posted == box.posted + FramesFrom(c.chars, ring.cells[ring.tail..ring.tail + len], 0, past)
  }

  lemma SendingEnds(c: Config, ring: Ring, flags: Flags, len: nat, box: Mailbox, past: seq<Byte>)
    requires 1 <= c.chunk && SnapshotInv(ring, Sending(ring.tail, len, 0, Poll))
    ensures Sent(c, ring, flags, len, box, past,
                 HandleAlone(c, ring, flags, Sending(ring.tail, len, 0, Poll), box, past))
  {
    StepsMakeWrite(c, ring, ring.tail, len, 0, box, past);
    var (place, box') := SendAlone(c, ring, Sending(ring.tail, len, 0, Poll), box, past);
    AdvanceTailRefinesQueue(ring, len);
    assert HandleAlone(c, ring, flags, Advance(len), box', past)
        == HandleAlone(c, AdvanceTail(ring, len), flags, Test, box', past);
    TestArms(c, AdvanceTail(ring, len), flags, box', past);
  }

  /** A flush has sent the run of LogRing.SnapshotIsOldestRun as the frames of one write, taken it off
      the ring, and armed the timer exactly if bytes are left. */
  predicate Flushed(c: Config, ring: Ring, flags: Flags, box: Mailbox, past: seq<Byte>, done: (Ring, Flags, Mailbox))
    requires WellFormed(ring)
  {
    var len := ContiguousLen(ring, c.chunk);
    && ring.tail + len <= |ring.cells|
    && done.0 == Process(ring, c.chunk)
    && done.1 == flags.(armed := flags.armed || HasData(done.0))
    && done.2.posted == box.posted +
         (if len > 0 then FramesFrom(c.chars, ring.cells[ring.tail..ring.tail + len], 0, past) else [])
  }

  /** What one call does to the ring, to the bits and the timer, and to the port, as the contract of
      AppLog.Log.ProcessEvent says. */
  predicate HandlesEvent(c: Config, ring: Ring, flags: Flags, msg: bool, flush: bool, box: Mailbox, past: seq<Byte>,
                         done: (Ring, Flags, Mailbox))
    requires WellFormed(ring)
  {
    if msg then done == (ring, flags.(flush := flags.flush || flush), box)
    else if !flush then done == (ring, flags, box)
    else Flushed(c, ring, flags, box, past, done)
  }

  lemma EntryHandles(c: Config, ring: Ring, flags: Flags, msg: bool, flush: bool, box: Mailbox, past: seq<Byte>)
    requires 1 <= c.chunk && WellFormed(ring) && (msg || !flush)
    ensures HandlesEvent(c, ring, flags, msg, flush, box, past,
                         HandleAlone(c, ring, flags, Entered(msg, flush), box, past))
  {
    var flags' := ConsumerFlags(flags, Entered(msg, flush));
    assert HandleAlone(c, ring, flags, Entered(msg, flush), box, past) == HandleAlone(c, ring, flags', Idle, box, past);
  }

  lemma FlushEnters(c: Config, ring: Ring, flags: Flags, box: Mailbox, past: seq<Byte>)
    requires 1 <= c.chunk && WellFormed(ring)
    ensures var len := ContiguousLen(ring, c.chunk);
      var place := if len > 0 then Sending(ring.tail, len, 0, Poll) else Test;
      && SnapshotInv(ring, place)
      && HandleAlone(c, ring, flags, Entered(false, true), box, past) == HandleAlone(c, ring, flags, place, box, past)
  {
    NextPlaceKeepsSnapshot(c, ring, Entered(false, true));
  }

  lemma SentIsFlushed(c: Config, ring: Ring, flags: Flags, box: Mailbox, past: seq<Byte>, done: (Ring, Flags, Mailbox))
    requires WellFormed(ring)
    requires var len := ContiguousLen(ring, c.chunk);
      len > 0 && ring.tail + len <= |ring.cells| && Sent(c, ring, flags, len, box, past, done)
    ensures Flushed(c, ring, flags, box, past, done)
  {
  }

  lemma SendingFlushes(c: Config, ring: Ring, flags: Flags, len: nat, box: Mailbox, past: seq<Byte>)
    requires 1 <= c.chunk && SnapshotInv(ring, Sending(ring.tail, len, 0, Poll)) && len == ContiguousLen(ring, c.chunk)
    ensures Flushed(c, ring, flags, box, past,
                    HandleAlone(c, ring, flags, Sending(ring.tail, len, 0, Poll), box, past))
  {
    SendingEnds(c, ring, flags, len, box, past);
    var done := HandleAlone(c, ring, flags, Sending(ring.tail, len, 0, Poll), box, past);
    SentIsFlushed(c, ring, flags, box, past, done);
  }

  lemma EmptyFlushes(c: Config, ring: Ring, flags: Flags, box: Mailbox, past: seq<Byte>)
    requires 1 <= c.chunk && WellFormed(ring) && ContiguousLen(ring, c.chunk) == 0
    ensures Flushed(c, ring, flags, box, past, HandleAlone(c, ring, flags, Test, box, past))
  {
    TestArms(c, ring, flags, box, past);
  }

  lemma FlushHandles(c: Config, ring: Ring, flags: Flags, box: Mailbox, past: seq<Byte>)
    requires 1 <= c.chunk && WellFormed(ring)
    ensures Flushed(c, ring, flags, box, past, HandleAlone(c, ring, flags, Entered(false, true), box, past))
  {
    FlushEnters(c, ring, flags, box, past);
    if ContiguousLen(ring, c.chunk) > 0 {
      SendingFlushes(c, ring, flags, ContiguousLen(ring, c.chunk), box, past);
    } else {
      EmptyFlushes(c, ring, flags, box, past);
    }
  }

  /** The steps of one undisturbed call add up to what AppLog.Log.ProcessEvent does. */
  lemma StepsMakeProcessEvent(c: Config, ring: Ring, flags: Flags, msg: bool, flush: bool, box: Mailbox,
                              past: seq<Byte>)
    requires 1 <= c.chunk && WellFormed(ring)
    ensures HandlesEvent(c, ring, flags, msg, flush, box, past,
                         HandleAlone(c, ring, flags, Entered(msg, flush), box, past))
  {
    if msg || !flush {
      EntryHandles(c, ring, flags, msg, flush, box, past);
    } else {
      FlushHandles(c, ring, flags, box, past);
    }
  }
}
