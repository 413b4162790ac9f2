/** The part of TMOS that the application relies on: one task's waiting event bits, the bits its
    timers will set, and its message queue. TMOS itself is a closed library; these are the
    contracts its header documents, with every call succeeding. */
module Tmos {

  /** A tmosEvents mask, as the set of its bit numbers. */
  type Events = set<nat>

  const MSG: nat := 15    // SYS_EVENT_MSG

  /** 1 << bit */
  function Mask(bit: nat): nat {
    if bit == 0 then 1 else 2 * Mask(bit - 1)
  }

  lemma MessageMask()
    ensures Mask(MSG) == 0x8000
  {
    assert Mask(4) == 16 && Mask(8) == 256 && Mask(12) == 4096;
  }

  /** events ^ (1 << bit) */
  function Xor(events: Events, bit: nat): Events {
    if bit in events then events - {bit} else events + {bit}
  }

  class Task {
    var pending: Events
    var timers: Events
    var messages: nat

    constructor ()
      ensures pending == {} && timers == {} && messages == 0
    {
      pending, timers, messages := {}, {}, 0;
    }

    /** tmos_set_event */
    method SetEvent(events: Events)
      modifies this`pending
      ensures pending == old(pending) + events
    {
      pending := pending + events;
    }

    /** tmos_start_task */
    method StartTask(bit: nat)
      modifies this`timers
      ensures timers == old(timers) + {bit}
    {
      timers := timers + {bit};
    }

    /** The receive loop at the head of every handler: take messages until none is left. */
    method DrainMessages()
      modifies this`messages
      ensures messages == 0
    {
      while messages != 0
      {
        messages := messages - 1;
      }
    }
  }
}
