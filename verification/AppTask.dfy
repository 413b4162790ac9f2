/** app_task.c: one event handler that treats one bit per call, in a fixed order, and returns the
    bits it did not treat. */
module AppTask {
  import opened Machine
  import opened Tmos

  const HEARTBEAT: nat := 0    // APP_TASK_EVT_HEARTBEAT
  const USB_RX: nat := 1       // APP_TASK_EVT_USB_RX
  const USB_TX: nat := 2       // APP_TASK_EVT_USB_TX
  const UART: nat := 3         // APP_TASK_EVT_UART
  const POLL: nat := 4         // APP_TASK_EVT_POLL

  /** The order in which the handler looks for bits. */
  const PRIORITY: seq<nat> := [MSG, HEARTBEAT, USB_RX, USB_TX, UART, POLL]

  /** What the handler does: the calls it makes into other modules. */
  datatype Act = Beat | Rx | Uart | Tx

  predicate IsIo(bit: nat) {
    bit == USB_RX || bit == USB_TX || bit == UART || bit == POLL
  }

  /** The bit that a call with these events treats. */
  function Treated(events: Events): Option<nat> {
    if MSG in events then Some(MSG)
    else if HEARTBEAT in events then Some(HEARTBEAT)
    else if USB_RX in events then Some(USB_RX)
    else if USB_TX in events then Some(USB_TX)
    else if UART in events then Some(UART)
    else if POLL in events then Some(POLL)
    else None
  }

  function Returned(events: Events): Events {
    match Treated(events)
    case Some(bit) => Xor(events, bit)
    case None => {}
  }

  function Acts(events: Events): seq<Act> {
    match Treated(events)
    case None => []
    case Some(bit) => if bit == HEARTBEAT then [Beat] else if IsIo(bit) then [Rx, Uart, Tx] else []
  }

  function Rearmed(events: Events): Events {
    match Treated(events)
    case Some(bit) => if bit == HEARTBEAT || bit == POLL then {bit} else {}
    case None => {}
  }

  /** The task with its recorded calls. */
  class Handler {
    var registered: bool    // g_app_task_id != INVALID_TASK_ID
    const task: Tmos.Task
    ghost var log: seq<Act>

    constructor (task: Tmos.Task)
      ensures !registered && log == [] && this.task == task
    {
      registered, log := false, [];
      this.task := task;
    }

    /** AppTask_SetEvent: dropped before registration. */
    method SetEvent(bit: nat)
      modifies task`pending
      ensures task.pending == if registered then old(task.pending) + {bit} else old(task.pending)
    {
      if registered {
        task.SetEvent({bit});
      }
    }

    /** AppTask_Init: every known application bit is set, so that nothing dropped is missed. */
    method Init()
      modifies this`registered, task`pending
      ensures registered
      ensures task.pending == old(task.pending) + {0, 1, 2, 3, 4}
    {
      registered := true;
      task.SetEvent({HEARTBEAT, USB_RX, USB_TX, UART, POLL});
    }

    /** AppTask_RunIo */
    method RunIo()
      modifies this`log
      ensures log == old(log) + [Rx, Uart, Tx]
    {
      log := log + [Rx];
      log := log + [Uart];
      log := log + [Tx];
    }

    /** AppTask_ProcessEvent */
    method ProcessEvent(events: Events) returns (rest: Events)
      modifies this`log, task`timers, task`messages
      ensures rest == Returned(events)
      ensures log == old(log) + Acts(events)
      ensures task.timers == old(task.timers) + Rearmed(events)
      ensures task.messages == if MSG in events then 0 else old(task.messages)
    {
      if MSG in events {
        task.DrainMessages();
        return Xor(events, MSG);
      }
      if HEARTBEAT in events {
        log := log + [Beat];
        task.StartTask(HEARTBEAT);
        return Xor(events, HEARTBEAT);
      }
      if USB_RX in events {
        RunIo();
        return Xor(events, USB_RX);
      }
      if USB_TX in events {
        RunIo();
        return Xor(events, USB_TX);
      }
      if UART in events {
        RunIo();
        return Xor(events, UART);
      }
      if POLL in events {
        RunIo();
        task.StartTask(POLL);
        return Xor(events, POLL);
      }
      return {};
    }
  }

  // ----- exactly-once dispatch -----

  /** The bits of a mask in a given order. */
  function InOrder(order: seq<nat>, events: Events): seq<nat> {
    if order == [] then []
    else (if order[0] in events then [order[0]] else []) + InOrder(order[1..], events)
  }

  predicate Distinct(order: seq<nat>) {
    forall i, j :: 0 <= i < j < |order| ==> order[i] != order[j]
  }

  lemma {:induction false} InOrderHead(order: seq<nat>, events: Events)
    ensures InOrder(order, events) == [] <==> forall bit :: bit in order ==> bit !in events
  {
    if order != [] {
      InOrderHead(order[1..], events);
      assert order == [order[0]] + order[1..];
    }
  }

  /** Removing the first bit of an order removes it from the list and nothing else. */
  lemma {:induction false} InOrderWithoutFirst(order: seq<nat>, events: Events)
    requires Distinct(order) && InOrder(order, events) != []
    ensures var first := InOrder(order, events)[0];
      && first in events && first in order
      && InOrder(order, events - {first}) == InOrder(order, events)[1..]
  {
    if order[0] in events {
      InOrderIgnores(order[1..], events, order[0]);
    } else {
      InOrderWithoutFirst(order[1..], events);
    }
  }

  lemma {:induction false} InOrderIgnores(order: seq<nat>, events: Events, bit: nat)
    requires bit !in order
    ensures InOrder(order, events - {bit}) == InOrder(order, events)
  {
    if order != [] {
      assert order[0] in order;
      InOrderIgnores(order[1..], events, bit);
    }
  }

  lemma InOrderStep(order: seq<nat>, events: Events)
    requires order != []
    ensures InOrder(order, events) == (if order[0] in events then [order[0]] else []) + InOrder(order[1..], events)
  {
  }

  /** The handler treats the first known bit of its order. */
  lemma TreatedIsFirst(events: Events)
    ensures Treated(events) ==
      var known := InOrder(PRIORITY, events); if known == [] then None else Some(known[0])
  {
    assert PRIORITY[1..][1..][1..][1..][1..][1..] == [];
    InOrderStep(PRIORITY, events);
    InOrderStep(PRIORITY[1..], events);
    InOrderStep(PRIORITY[2..], events);
    InOrderStep(PRIORITY[3..], events);
    InOrderStep(PRIORITY[4..], events);
    InOrderStep(PRIORITY[5..], events);
  }

  /** The known bits of a mask in the order in which the handler treats them: 0x8000, then 0x0001 to
      0x0010. */
  function Known(events: Events): seq<nat> {
    InOrder([15, 0, 1, 2, 3, 4], events)
  }

  /** What a bit is for: one heartbeat call for bit 0, one pass over the three modules for bits 1 to 4,
      and nothing but the message queue for bit 15. */
  function CallsFor(bit: nat): seq<Act> {
    if bit == 0 then [Beat] else if 1 <= bit <= 4 then [Rx, Uart, Tx] else []
  }

  function CallsForAll(bits: seq<nat>): seq<Act> {
    if bits == [] then [] else CallsFor(bits[0]) + CallsForAll(bits[1..])
  }

  /** One call: the first known bit is treated and cleared, the others are returned unchanged, and only
      heartbeat and poll re-arm. Without a known bit nothing is done and nothing returned. */
  lemma OneCall(events: Events)
    ensures Known(events) == [] ==>
      Treated(events) == None && Returned(events) == {} && Acts(events) == [] && Rearmed(events) == {}
    ensures Known(events) != [] ==>
      var first := Known(events)[0];
      && first in events
      && Treated(events) == Some(first)
      && Returned(events) == events - {first}
      && Acts(events) == CallsFor(first)
      && Rearmed(events) == {first} * {0, 4}
  {
    TreatedIsFirst(events);
    if Known(events) != [] {
      InOrderWithoutFirst(PRIORITY, events);
    }
  }

  lemma ReturnedShrinks(events: Events)
    requires events != {}
    ensures |Returned(events)| < |events|
  {
    OneCall(events);
  }

  /** The handler called with what it returned until nothing is returned: the bits treated, the calls
      made into other modules, and the number of calls of the handler. */
  function Rounds(events: Events): (seq<nat>, seq<Act>, nat)
    decreases |events|
  {
    if events == {} then ([], [], 0)
    else
      ReturnedShrinks(events);
      var (bits, acts, calls) := Rounds(Returned(events));
      ((match Treated(events) case None => [] case Some(bit) => [bit]) + bits, Acts(events) + acts, calls + 1)
  }

  predicate OnlyKnown(events: Events) {
    forall bit :: bit in events ==> bit in [15, 0, 1, 2, 3, 4]
  }

  lemma LastRound(events: Events)
    requires Known(events) == []
    ensures Rounds(events) == ([], [], if events == {} then 0 else 1)
    ensures events == {} <==> OnlyKnown(events)
  {
    OneCall(events);
    InOrderHead(PRIORITY, events);
    if events != {} {
      var bit :| bit in events;
      assert bit !in PRIORITY;
    }
  }

  lemma FirstRound(events: Events)
    requires Known(events) != []
    ensures var first, rest := Known(events)[0], Rounds(events - {Known(events)[0]});
      && Known(events - {first}) == Known(events)[1..]
      && Rounds(events) == ([first] + rest.0, CallsFor(first) + rest.1, rest.2 + 1)
      && (OnlyKnown(events - {first}) <==> OnlyKnown(events))
  {
    OneCall(events);
    InOrderWithoutFirst(PRIORITY, events);
  }

  /** Exactly-once dispatch: with no new arrivals, calling the handler with what it returned treats every
      known bit once, in priority order, makes the calls of these bits and no others, and drops
      unknown bits in one last call. */
  lemma {:induction false} EachBitOnce(events: Events)
    ensures Rounds(events).0 == Known(events)
    ensures Rounds(events).1 == CallsForAll(Known(events))
    ensures Rounds(events).2 == |Known(events)| + if OnlyKnown(events) then 0 else 1
    decreases |events|
  {
    if Known(events) == [] {
      LastRound(events);
    } else {
      FirstRound(events);
      OneCall(events);
      EachBitOnce(events - {Known(events)[0]});
    }
  }
}
