/** The application task under a dispatcher, timers, kicks from interrupts and messages, step by
    step: a kick may fall between any two calls of the handler into other modules. */
module AppTaskRuns {
  import opened Machine
  import opened Tmos
  import opened AppTask

  /** Where the handler stands. In Io the first call of RunIo, or the first two, have been made;
      in Rearm the bit's work is done and its timer is about to be started. */
  datatype Phase =
    | Idle
    | Entered(events: Events)
    | Io(events: Events, bit: nat, uartDone: bool)
    | Rearm(events: Events, bit: nat)

  datatype State = State(registered: bool, ready: bool, pending: Events, timers: Events, phase: Phase, log: seq<Act>)

  datatype Step =
    | Register              // AppTask_Init stores the task id
    | SetAll                // and then sets every bit
    | Kick(bit: nat)
    | MessageArrives
    | StrayBit(bit: nat)    // a bit the handler does not know
    | TimerFires(bit: nat)
    | Dispatch
    | Handle

  predicate Init(s: State) {
    s == State(false, false, {}, {}, Idle, [])
  }

  predicate Enabled(s: State, step: Step) {
    match step
    case Register => !s.registered
    case SetAll => s.registered && !s.ready
    case Kick(bit) => IsIo(bit)
    case MessageArrives => s.registered
    case StrayBit(bit) => s.registered && bit !in PRIORITY
    case TimerFires(bit) => bit in s.timers
    case Dispatch => s.phase == Idle && s.pending != {}
    case Handle => s.phase != Idle
  }

  function Return(s: State, rest: Events): State {
    s.(pending := s.pending + rest, phase := Idle)
  }

  function HandleStep(s: State): State {
    match s.phase
    case Idle => s
    case Entered(e) =>
      (match Treated(e)
       case None => Return(s, {})
       case Some(bit) =>
         if bit == MSG then Return(s, Xor(e, bit))
         else if bit == HEARTBEAT then s.(log := s.log + [Beat], phase := Rearm(e, bit))
         else s.(log := s.log + [Rx], phase := Io(e, bit, false)))
    case Io(e, bit, uartDone) =>
      if !uartDone then s.(log := s.log + [Uart], phase := Io(e, bit, true))
      else
        var s' := s.(log := s.log + [Tx]);
        if bit == POLL then s'.(phase := Rearm(e, bit)) else Return(s', Xor(e, bit))
    case Rearm(e, bit) => Return(s.(timers := s.timers + {bit}), Xor(e, bit))
  }

  function Apply(s: State, step: Step): State {
    match step
    case Register => s.(registered := true)
    case SetAll => s.(ready := true, pending := s.pending + {HEARTBEAT, USB_RX, USB_TX, UART, POLL})
    case Kick(bit) => if s.registered then s.(pending := s.pending + {bit}) else s
    case MessageArrives => s.(pending := s.pending + {MSG})
    case StrayBit(bit) => s.(pending := s.pending + {bit})
    case TimerFires(bit) => s.(timers := s.timers - {bit}, pending := s.pending + {bit})
    case Dispatch => s.(phase := Entered(s.pending), pending := {})
    case Handle => HandleStep(s)
  }

  predicate IsRun(trace: seq<State>, steps: seq<Step>) {
    && |trace| == |steps| + 1
    && Init(trace[0])
    && forall i {:trigger steps[i]} :: 0 <= i < |steps| ==>
         Enabled(trace[i], steps[i]) && trace[i + 1] == Apply(trace[i], steps[i])
  }

  function HandleTimes(s: State, n: nat): State
    decreases n
  {
    if n == 0 then s else HandleTimes(HandleStep(s), n - 1)
  }

  /** Handler steps that one call takes. */
  function CallSteps(e: Events): nat {
    match Treated(e)
    case None => 1
    case Some(bit) => if bit == MSG then 1 else if bit == HEARTBEAT then 2 else if bit == POLL then 4 else 3
  }

  /** Undisturbed, the steps of one call add up to the handler of module AppTask. */
  lemma StepsMakeHandler(s: State)
    requires s.phase.Entered?
    ensures var e := s.phase.events;
      HandleTimes(s, CallSteps(e)) ==
        State(s.registered, s.ready, s.pending + Returned(e), s.timers + Rearmed(e), Idle, s.log + Acts(e))
  {
    var s1 := HandleStep(s);
    var s2 := HandleStep(s1);
    var s3 := HandleStep(s2);
    var s4 := HandleStep(s3);
    assert HandleTimes(s, 1) == s1 by { assert HandleTimes(s1, 0) == s1; }
    assert HandleTimes(s, 2) == s2 by { assert HandleTimes(s1, 1) == HandleTimes(s2, 0); }
    assert HandleTimes(s, 3) == s3 by { assert HandleTimes(s1, 2) == HandleTimes(s2, 1) == HandleTimes(s3, 0); }
    assert HandleTimes(s, 4) == s4 by {
      assert HandleTimes(s1, 3) == HandleTimes(s2, 2) == HandleTimes(s3, 1) == HandleTimes(s4, 0);
    }
    assert s.log + [Rx] + [Uart] + [Tx] == s.log + [Rx, Uart, Tx];
  }

  // ----- self-perpetuation -----

  /** The handler holds events that it has not given back. */
  function Held(phase: Phase): Events {
    match phase
    case Idle => {}
    case Entered(e) => e
    case Io(e, _, _) => e
    case Rearm(e, _) => e
  }

  predicate Alive(s: State, bit: nat) {
    bit in s.pending || bit in s.timers || bit in Held(s.phase)
  }

  predicate PhaseInv(phase: Phase) {
    match phase
    case Idle => true
    case Entered(_) => true
    case Io(e, bit, _) => bit in e && IsIo(bit) && Treated(e) == Some(bit)
    case Rearm(e, bit) => bit in e && (bit == HEARTBEAT || bit == POLL) && Treated(e) == Some(bit)
  }

  predicate AliveInv(s: State) {
    && PhaseInv(s.phase)
    && s.timers <= {HEARTBEAT, POLL}
    && (s.ready ==> Alive(s, HEARTBEAT) && Alive(s, POLL))
  }

  lemma AliveKeeps(s: State, step: Step)
    requires AliveInv(s) && Enabled(s, step)
    ensures AliveInv(Apply(s, step))
  {
  }

  lemma {:induction false} RunKeepsAlive(trace: seq<State>, steps: seq<Step>, i: nat)
    requires IsRun(trace, steps) && i < |trace|
    ensures AliveInv(trace[i])
  {
    if i > 0 {
      RunKeepsAlive(trace, steps, i - 1);
      AliveKeeps(trace[i - 1], steps[i - 1]);
    }
  }

  /** Self-perpetuation: once AppTask_Init has set its bits, the heartbeat and the poll are always
      pending, or on a timer, or in the handler before their re-arm, whatever arrives. */
  lemma HeartbeatAndPollLiveOn(trace: seq<State>, steps: seq<Step>, i: nat)
    requires IsRun(trace, steps) && i < |trace| && trace[i].ready
    ensures Alive(trace[i], HEARTBEAT) && Alive(trace[i], POLL)
  {
    RunKeepsAlive(trace, steps, i);
  }

  // ----- kick coverage -----

  /** The events that the handler will give back, if it treats what it has begun to treat. */
  function Coming(s: State): Events {
    s.pending +
    match s.phase
    case Idle => {}
    case Entered(e) => if MSG in e then e - {MSG} else if HEARTBEAT in e then e - {HEARTBEAT} else e
    case Io(e, bit, _) => e - {bit}
    case Rearm(e, bit) => e - {bit}
  }

  predicate HasIo(events: Events) {
    USB_RX in events || USB_TX in events || UART in events || POLL in events
  }

  /** A pass over the three modules is still to start. */
  predicate Owes(s: State) {
    HasIo(Coming(s))
  }

  /** A dispatch is running whose call will start a pass. */
  predicate PassNext(phase: Phase) {
    phase.Entered? && MSG !in phase.events && HEARTBEAT !in phase.events && HasIo(phase.events)
  }

  function ToNat(b: bool): nat {
    if b then 1 else 0
  }

  /** Calls that may still go to bits ahead of the I/O bits. */
  function Ahead(s: State): nat {
    ToNat(MSG in Coming(s)) + ToNat(HEARTBEAT in Coming(s))
  }

  function Dispatches(steps: seq<Step>): nat {
    if steps == [] then 0
    else Dispatches(steps[..|steps| - 1]) + ToNat(steps[|steps| - 1] == Dispatch)
  }

  /** Arrivals of bits ahead of the I/O bits. */
  function Arrivals(steps: seq<Step>): nat {
    if steps == [] then 0
    else Arrivals(steps[..|steps| - 1]) + ToNat(BringsAhead(steps[|steps| - 1]))
  }

  predicate BringsAhead(step: Step) {
    step == MessageArrives || step == TimerFires(HEARTBEAT) || step == SetAll
  }

  /** A step either starts a pass or leaves it owed, and a dispatch that starts none uses up one
      of the bits ahead. */
  lemma OwedStep(s: State, step: Step)
    requires PhaseInv(s.phase) && s.timers <= {HEARTBEAT, POLL} && Enabled(s, step) && Owes(s)
    requires Apply(s, step).log == s.log || Apply(s, step).log[|s.log|] != Rx
    ensures Owes(Apply(s, step))
    ensures var s' := Apply(s, step);
      ToNat(step == Dispatch) + Ahead(s') + ToNat(PassNext(s.phase))
      <= ToNat(BringsAhead(step)) + Ahead(s) + ToNat(PassNext(s'.phase))
  {
    assert PRIORITY[0] == MSG && PRIORITY[1] == HEARTBEAT;
  }

  predicate PassLogged(log: seq<Act>, start: nat) {
    exists a :: start <= a < |log| - 2 && log[a] == Rx && log[a + 1] == Uart && log[a + 2] == Tx
  }

  predicate RxLogged(log: seq<Act>, start: nat) {
    exists a :: start <= a < |log| && log[a] == Rx
  }

  lemma LogGrows(s: State, step: Step)
    requires Enabled(s, step)
    ensures s.log <= Apply(s, step).log && |Apply(s, step).log| <= |s.log| + 1
  {
  }

  lemma RxStays(log: seq<Act>, log': seq<Act>, start: nat)
    requires log <= log'
    ensures RxLogged(log, start) ==> RxLogged(log', start)
  {
  }

  /** A pass is still owed, and the dispatches beyond the arrivals have used up bits that were ahead. */
  predicate StillOwed(start: State, s: State, dispatches: nat, arrivals: nat) {
    && Owes(s)
    && dispatches + Ahead(s) + ToNat(PassNext(start.phase)) <= arrivals + Ahead(start) + ToNat(PassNext(s.phase))
  }

  lemma StillOwedStep(start: State, s: State, step: Step, dispatches: nat, arrivals: nat)
    requires PhaseInv(s.phase) && s.timers <= {HEARTBEAT, POLL} && Enabled(s, step)
    requires StillOwed(start, s, dispatches, arrivals)
    requires Apply(s, step).log == s.log || Apply(s, step).log[|s.log|] != Rx
    ensures StillOwed(start, Apply(s, step), dispatches + ToNat(step == Dispatch), arrivals + ToNat(BringsAhead(step)))
  {
    OwedStep(s, step);
  }

  lemma CountsOneMore(steps: seq<Step>, i: nat, j: nat)
    requires i < j <= |steps|
    ensures Dispatches(steps[i..j]) == Dispatches(steps[i..j - 1]) + ToNat(steps[j - 1] == Dispatch)
    ensures Arrivals(steps[i..j]) == Arrivals(steps[i..j - 1]) + ToNat(BringsAhead(steps[j - 1]))
  {
    assert steps[i..j][..j - 1 - i] == steps[i..j - 1];
  }

  lemma NoRxNoPass(s: State, step: Step, start: nat)
    requires Enabled(s, step) && start <= |s.log| && !RxLogged(Apply(s, step).log, start)
    ensures !RxLogged(s.log, start)
    ensures Apply(s, step).log == s.log || Apply(s, step).log[|s.log|] != Rx
  {
    LogGrows(s, step);
    RxStays(s.log, Apply(s, step).log, start);
  }

  lemma {:induction false} LogOnlyGrows(trace: seq<State>, steps: seq<Step>, i: nat, j: nat)
    requires IsRun(trace, steps) && i <= j < |trace|
    ensures trace[i].log <= trace[j].log
    decreases j - i
  {
    if i < j {
      LogOnlyGrows(trace, steps, i, j - 1);
      LogGrows(trace[j - 1], steps[j - 1]);
    }
  }

  /** Until a pass starts, every dispatch beyond the arrivals uses up a bit that was ahead. */
  lemma {:induction false} OwedRun(trace: seq<State>, steps: seq<Step>, i: nat, j: nat)
    requires IsRun(trace, steps) && i <= j < |trace|
    requires Owes(trace[i]) && !RxLogged(trace[j].log, |trace[i].log|)
    ensures StillOwed(trace[i], trace[j], Dispatches(steps[i..j]), Arrivals(steps[i..j]))
    decreases j - i
  {
    if i < j {
      LogOnlyGrows(trace, steps, i, j - 1);
      NoRxNoPass(trace[j - 1], steps[j - 1], |trace[i].log|);
      OwedRun(trace, steps, i, j - 1);
      RunKeepsAlive(trace, steps, j - 1);
      StillOwedStep(trace[i], trace[j - 1], steps[j - 1], Dispatches(steps[i..j - 1]), Arrivals(steps[i..j - 1]));
      CountsOneMore(steps, i, j);
    }
  }

  /** Every pass that has started is complete, unless it ends the log. */
  predicate PassesComplete(log: seq<Act>) {
    forall a :: 0 <= a < |log| && log[a] == Rx ==>
      (a + 1 < |log| ==> log[a + 1] == Uart) && (a + 2 < |log| ==> log[a + 2] == Tx)
  }

  /** The last calls made: how many of a pass's three. */
  function OpenCalls(phase: Phase): nat {
    if phase.Io? then if phase.uartDone then 2 else 1 else 0
  }

  predicate EndsIn(log: seq<Act>, open: nat) {
    && (open == 1 <==> (|log| >= 1 && log[|log| - 1] == Rx))
    && (open == 2 <==> (|log| >= 2 && log[|log| - 2] == Rx))
  }

  predicate LogInv(log: seq<Act>, phase: Phase) {
    PassesComplete(log) && EndsIn(log, OpenCalls(phase))
  }

  /** Calls open after one more call. */
  function OpenAfter(open: nat, act: Act): nat {
    if act == Rx then 1 else if open == 1 then 2 else 0
  }

  /** The calls of a pass come in order. */
  predicate Follows(open: nat, act: Act) {
    match open
    case 0 => act == Beat || act == Rx
    case 1 => act == Uart
    case _ => act == Tx
  }

  lemma ActKeepsLog(log: seq<Act>, open: nat, act: Act)
    requires PassesComplete(log) && EndsIn(log, open) && open <= 2 && Follows(open, act)
    ensures PassesComplete(log + [act]) && EndsIn(log + [act], OpenAfter(open, act))
  {
  }

  /** A step of the handler makes one call, the next in order, or none between passes. */
  lemma HandleActs(s: State)
    requires PhaseInv(s.phase)
    ensures var s', open := HandleStep(s), OpenCalls(s.phase);
      || (s'.log == s.log && OpenCalls(s'.phase) == open)
      || (exists act :: s'.log == s.log + [act] && Follows(open, act) && OpenCalls(s'.phase) == OpenAfter(open, act))
  {
  }

  lemma HandleKeepsLog(s: State)
    requires LogInv(s.log, s.phase) && PhaseInv(s.phase)
    ensures LogInv(HandleStep(s).log, HandleStep(s).phase)
  {
    HandleActs(s);
    var s', open := HandleStep(s), OpenCalls(s.phase);
    if s'.log != s.log {
      var act :| s'.log == s.log + [act] && Follows(open, act) && OpenCalls(s'.phase) == OpenAfter(open, act);
      ActKeepsLog(s.log, open, act);
    }
  }

  lemma LogKeeps(s: State, step: Step)
    requires LogInv(s.log, s.phase) && PhaseInv(s.phase) && Enabled(s, step)
    ensures LogInv(Apply(s, step).log, Apply(s, step).phase)
  {
    if step == Handle {
      HandleKeepsLog(s);
    }
  }

  lemma {:induction false} RunKeepsLog(trace: seq<State>, steps: seq<Step>, i: nat)
    requires IsRun(trace, steps) && i < |trace|
    ensures LogInv(trace[i].log, trace[i].phase)
  {
    if i > 0 {
      RunKeepsLog(trace, steps, i - 1);
      RunKeepsAlive(trace, steps, i - 1);
      LogKeeps(trace[i - 1], steps[i - 1]);
    }
  }

  lemma StartedPassIsComplete(log: seq<Act>, start: nat)
    requires LogInv(log, Idle) && RxLogged(log, start)
    ensures PassLogged(log, start)
  {
    var a :| start <= a < |log| && log[a] == Rx;
    assert log[a + 1] == Uart && log[a + 2] == Tx;
  }

  lemma CoveringEventOwes(s: State, step: Step)
    requires Enabled(s, step) && ((step.Kick? && s.registered) || step == SetAll)
    ensures Owes(Apply(s, step)) && Apply(s, step).log == s.log
    ensures Ahead(Apply(s, step)) <= 2
  {
  }

  /** Kick coverage: a kick of a registered task, even one made while the handler runs, is followed
      by a complete USBRX, UartMgr, USBTX pass that starts after it, as soon as the dispatcher
      has called the handler three times more than messages and heartbeats came in between. */
  lemma KickIsCovered(trace: seq<State>, steps: seq<Step>, k: nat, j: nat)
    requires IsRun(trace, steps) && k < j < |trace|
    requires (steps[k].Kick? && trace[k].registered) || steps[k] == SetAll
    requires trace[j].phase == Idle
    requires Dispatches(steps[k + 1..j]) >= Arrivals(steps[k + 1..j]) + 3
    ensures PassLogged(trace[j].log, |trace[k].log|)
  {
    CoveringEventOwes(trace[k], steps[k]);
    if !RxLogged(trace[j].log, |trace[k + 1].log|) {
      OwedRun(trace, steps, k + 1, j);
    }
    RunKeepsLog(trace, steps, j);
    StartedPassIsComplete(trace[j].log, |trace[k].log|);
  }

  /** The dispatcher can always do its part: while a pass is owed and the handler is idle, there is
      something to dispatch. */
  lemma OwedPassCanBeDispatched(s: State)
    requires Owes(s) && s.phase == Idle
    ensures Enabled(s, Dispatch)
  {
  }

  /** A kick before registration is dropped; the bits set at registration stand in for it. */
  lemma EarlyKickIsDropped(s: State, bit: nat)
    requires !s.registered && IsIo(bit)
    ensures Apply(s, Kick(bit)) == s
    ensures Owes(Apply(Apply(s, Register), SetAll))
  {
  }

  // ----- a heartbeat call for every re-arm -----

  predicate HoldsBeat(phase: Phase) {
    phase.Rearm? && phase.bit == 0
  }

  function Beats(log: seq<Act>): nat {
    if log == [] then 0 else Beats(log[..|log| - 1]) + ToNat(log[|log| - 1] == Beat)
  }

  /** How often the heartbeat timer has been started up to state i. */
  function BeatRearms(trace: seq<State>, steps: seq<Step>, i: nat): nat
    requires |trace| == |steps| + 1 && i < |trace|
  {
    if i == 0 then 0
    else BeatRearms(trace, steps, i - 1) + ToNat(steps[i - 1] == Handle && HoldsBeat(trace[i - 1].phase))
  }

  lemma BeatsAppend(log: seq<Act>, act: Act)
    ensures Beats(log + [act]) == Beats(log) + ToNat(act == Beat)
  {
    assert (log + [act])[..|log|] == log;
  }

  lemma BeatMeansRearm(s: State)
    requires PhaseInv(s.phase) && s.phase != Idle
    ensures var s' := HandleStep(s);
      || (s'.log == s.log && !HoldsBeat(s'.phase))
      || (exists act :: s'.log == s.log + [act] && (act == Beat <==> HoldsBeat(s'.phase)))
  {
  }

  lemma HandleBeats(s: State)
    requires PhaseInv(s.phase) && s.phase != Idle
    ensures Beats(HandleStep(s).log) == Beats(s.log) + ToNat(HoldsBeat(HandleStep(s).phase))
  {
    BeatMeansRearm(s);
    var s' := HandleStep(s);
    if s'.log != s.log {
      var act :| s'.log == s.log + [act] && (act == Beat <==> HoldsBeat(s'.phase));
      BeatsAppend(s.log, act);
    }
  }

  /** Every start of the heartbeat timer has its own call of the heartbeat, and every call leads to one:
      at most one call is still waiting for its re-arm. */
  lemma {:induction false} BeatPerRearm(trace: seq<State>, steps: seq<Step>, i: nat)
    requires IsRun(trace, steps) && i < |trace|
    ensures Beats(trace[i].log) == BeatRearms(trace, steps, i) + ToNat(HoldsBeat(trace[i].phase))
  {
    if i > 0 {
      BeatPerRearm(trace, steps, i - 1);
      RunKeepsAlive(trace, steps, i - 1);
      if steps[i - 1] == Handle {
        HandleBeats(trace[i - 1]);
      }
    }
  }

  lemma {:induction false} EnteredByDispatch(trace: seq<State>, steps: seq<Step>, i: nat) returns (d: nat)
    requires IsRun(trace, steps) && i < |trace| && trace[i].phase.Entered?
    ensures d < i && steps[d] == Dispatch && trace[i].phase.events == trace[d].pending && trace[i].log == trace[d].log
    ensures forall k :: d < k < i ==> steps[k] != Dispatch && steps[k] != Handle
  {
    d := i - 1;
    if steps[d] != Dispatch {
      d := EnteredByDispatch(trace, steps, i - 1);
    }
  }

  /** When the heartbeat timer is about to be started, the heartbeat has been called since the dispatch
      that took its bit, and nothing else has. */
  lemma {:induction false} RearmFollowsBeat(trace: seq<State>, steps: seq<Step>, i: nat) returns (d: nat)
    requires IsRun(trace, steps) && i < |trace| && HoldsBeat(trace[i].phase)
    ensures d < i && steps[d] == Dispatch && 0 in trace[d].pending && trace[i].log == trace[d].log + [Beat]
    ensures forall k :: d < k < i ==> steps[k] != Dispatch
  {
    RunKeepsAlive(trace, steps, i);
    RunKeepsAlive(trace, steps, i - 1);
    if steps[i - 1] == Handle {
      d := EnteredByDispatch(trace, steps, i - 1);
    } else {
      d := RearmFollowsBeat(trace, steps, i - 1);
    }
  }
}
