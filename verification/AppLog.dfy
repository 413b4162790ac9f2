/** app_log.c on its static variables: a byte array with two indices, a drop counter and a
    task id. Every method is tied to the queue that the ring stands for (module LogRing). */
module AppLog {
  import opened Machine
  import opened LogRing
  import Sdi
  import Tmos

  const FLUSH: nat := 0    // APP_LOG_EVT_FLUSH

  lemma FlushMask()
    ensures Tmos.Mask(FLUSH) == 0x0001
  {
  }

  class Log {
    const buf: array<Byte>
    var head: nat
    var tail: nat
    var dropped: nat
    var registered: bool    // g_log_task_id != INVALID_TASK_ID
    const task: Tmos.Task
    const chunk: nat        // APP_LOG_FLUSH_CHUNK_SIZE
    const lineSize: nat     // APP_LOG_LINE_SIZE

    ghost function Value(): Ring
      reads this, buf
    {
      Ring(buf[..], head, tail, dropped)
    }

    ghost predicate Valid()
      reads this, buf
    {
      WellFormed(Value()) && 1 <= chunk && 1 <= lineSize
    }

    ghost function Queue(): seq<Byte>
      reads this, buf
      requires Valid()
    {
      Contents(Value())
    }

    constructor (size: nat, chunk: nat, lineSize: nat, task: Tmos.Task)
      requires 1 <= size <= TWO16 && 1 <= chunk && 1 <= lineSize
      ensures Valid() && Queue() == [] && buf.Length == size && dropped == 0 && !registered
      ensures this.task == task && this.chunk == chunk && this.lineSize == lineSize && fresh(buf)
    {
      buf := new Byte[size](_ => 0);
      head, tail, dropped, registered := 0, 0, 0, false;
      this.task := task;
      this.chunk := chunk;
      this.lineSize := lineSize;
    }

    /** AppLog_Init */
    method Init()
      requires Valid()
      modifies this`head, this`tail, this`dropped
      ensures Valid() && Queue() == [] && dropped == 0
    {
      head := 0;
      tail := 0;
      dropped := 0;
    }

    /** AppLog_PushByte */
    method PushByte(data: Byte) returns (rc: int)
      requires Valid()
      modifies this`head, this`dropped, buf
      ensures Valid()
      ensures (Value(), rc == 0) == LogRing.PushByte(old(Value()), data)
      ensures rc == if |old(Queue())| < buf.Length - 1 then 0 else -1
      ensures Queue() == if rc == 0 then old(Queue()) + [data] else old(Queue())
      ensures dropped == if rc == 0 then old(dropped) else Wrap32(old(dropped) + 1)
    {
      PushByteRefinesQueue(Value(), data);
      var nextHead := NextIndex(head, buf.Length);
      if nextHead == tail {
        dropped := Wrap32(dropped + 1);
        return -1;
      }
      buf[head] := data;
      head := nextHead;
      rc := 0;
      assert buf[..] == old(buf[..])[old(head) := data];
    }

    /** AppLog_HasData */
    method HasData() returns (yes: bool)
      requires Valid()
      ensures yes <==> Queue() != []
    {
      yes := head != tail;
    }

    /** AppLog_GetContiguousLen: the caller may send these cells without looking for the wrap. */
    method GetContiguousLen() returns (len: nat)
      requires Valid()
      ensures len == ContiguousLen(Value(), chunk)
      ensures len <= |Queue()| && len <= chunk && tail + len <= buf.Length
      ensures buf[tail..tail + len] == Queue()[..len]
      ensures len == 0 <==> Queue() == []
    {
      SnapshotIsOldestRun(Value(), chunk);
      if head == tail {
        return 0;
      }
      if head > tail {
        len := Wrap16(head - tail);
      } else {
        len := Wrap16(buf.Length - tail);
      }
      if len > chunk {
        len := chunk;
      }
    }

    /** The index arithmetic of AppLog_AdvanceTail. */
    static method AdvanceIndex(index: nat, len: nat, size: nat) returns (next: nat)
      ensures next == AdvancedIndex(index, len, size)
    {
      next := Wrap16(index + len);
      if next >= size {
        next := Wrap16(next - size);
      }
    }

    /** AppLog_AdvanceTail */
    method AdvanceTail(len: nat)
      requires Valid()
      requires len <= |Queue()| && tail + len <= buf.Length
      modifies this`tail
      ensures Valid()
      ensures Value() == LogRing.AdvanceTail(old(Value()), len)
      ensures Queue() == old(Queue())[len..]
    {
      AdvanceTailRefinesQueue(Value(), len);
      tail := AdvanceIndex(tail, len, buf.Length);
    }

    /** AppLog_KickTask */
    method KickTask()
      modifies task`pending
      ensures task.pending == if registered then old(task.pending) + {FLUSH} else old(task.pending)
    {
      if registered {
        task.SetEvent({FLUSH});
      }
    }

    /** The locked loop of AppLog_Printf: the bytes not yet tried go the same way from here. */
    method PushLine(line: seq<Byte>)
      requires Valid()
      modifies this`head, this`dropped, buf
      ensures Valid()
      ensures Value() == LogRing.PushLine(old(Value()), line)
      ensures LineAdded(old(Value()), line, Value())
    {
      var i := 0;
      while i < |line|
        invariant Valid() && 0 <= i <= |line|
        invariant LogRing.PushLine(Value(), line[i..]) == LogRing.PushLine(old(Value()), line)
      {
        PushLineStep(Value(), line, i);
        var rc := PushByte(line[i]);
        if rc != 0 {
          break;
        }
        i := i + 1;
      }
      assert Value() == LogRing.PushLine(old(Value()), line);
      PushLineRefinesQueue(old(Value()), line);
    }

    /** AppLog_Printf from the length that vsnprintf returns; text is the fully formatted line.
        Nothing else runs between the unlocked increment and its store here; module DropCount
        lets interrupts in. */
    method Printf(hasFormat: bool, length: int, text: seq<Byte>)
      requires Valid()
      requires length > 0 ==> |text| == length
      modifies this`head, this`dropped, buf, task`pending
      ensures Valid()
      ensures !hasFormat || length <= 0 ==>
        Value() == old(Value()) && task.pending == old(task.pending)
      ensures hasFormat && length > 0 ==>
        && Value() == PrintLine(old(Value()), lineSize, text)
        && TextAdded(old(Value()), lineSize, text, Value())
        && task.pending == (if registered then old(task.pending) + {FLUSH} else old(task.pending))
    {
      if !hasFormat || length <= 0 {
        return;
      }
      PrintLineAddsText(Value(), lineSize, text);
      var len := length;
      if len >= lineSize {
        len := lineSize - 1;
        dropped := Wrap32(dropped + 1);
      }
      PushLine(text[..len]);
      KickTask();
    }

    /** AppLog_TaskInit: registration first, then its own log line, unless the log level leaves that
        line out. The line's kick is the first that finds the task registered. */
    method TaskInit(infoEnabled: bool, text: seq<Byte>)
      requires Valid()
      modifies this`head, this`dropped, this`registered, buf, task`pending
      ensures Valid() && registered
      ensures infoEnabled && text != [] ==>
        TextAdded(old(Value()), lineSize, text, Value()) && task.pending == old(task.pending) + {FLUSH}
      ensures !infoEnabled || text == [] ==>
        Value() == old(Value()) && task.pending == old(task.pending)
    {
      registered := true;
      if infoEnabled {
        Printf(true, |text|, text);
      }
    }

    /** AppLog_Process, undisturbed: the oldest run goes to the port as the frames of one write
        and leaves the queue. The bytes that follow the run in memory do not matter. */
    method Process(port: Sdi.Port, m: Sdi.CharModel, past: seq<Byte>)
      requires Valid()
      modifies this`tail, port
      ensures Valid() && Value() == LogRing.Process(old(Value()), chunk)
      ensures var len := ContiguousLen(old(Value()), chunk);
        && len <= |old(Queue())|
        && (len == 0 <==> old(Queue()) == [])
        && Queue() == old(Queue())[len..]
        && port.Posted() == old(port.Posted())
             + (if len > 0 then Sdi.FramesFrom(m, old(Queue())[..len], 0, past) else [])
    {
      var start := tail;
      var len := GetContiguousLen();
      if len > 0 {
        var run := buf[start..start + len];
        assert run == old(Queue())[..len] && run != [];
        var _ := port.Write(m, run, past);
        assert Value() == old(Value());
        AdvanceTail(len);
      }
    }

    /** AppLog_ProcessEvent: one bit per call, the message bit first. A flush re-arms its timer
        exactly when bytes are left, and the bits it does not treat are returned. */
    method ProcessEvent(events: Tmos.Events, port: Sdi.Port, m: Sdi.CharModel, past: seq<Byte>)
      returns (rest: Tmos.Events)
      requires Valid()
      modifies this`tail, port, task`timers, task`messages
      ensures Valid()
      ensures Tmos.MSG in events ==>
        && rest == events - {Tmos.MSG} && task.messages == 0
        && Value() == old(Value()) && task.timers == old(task.timers) && port.Posted() == old(port.Posted())
      ensures Tmos.MSG !in events && FLUSH in events ==>
        var len := ContiguousLen(old(Value()), chunk);
        && rest == events - {FLUSH} && len <= |old(Queue())| && task.messages == old(task.messages)
        && Value() == LogRing.Process(old(Value()), chunk)
        && Queue() == old(Queue())[len..]
        && (old(Queue()) != [] ==> |Queue()| < |old(Queue())|)
        && port.Posted() == old(port.Posted())
             + (if len > 0 then Sdi.FramesFrom(m, old(Queue())[..len], 0, past) else [])
        && task.timers == (if Queue() != [] then old(task.timers) + {FLUSH} else old(task.timers))
      ensures Tmos.MSG !in events && FLUSH !in events ==>
        && rest == {} && Value() == old(Value()) && task.timers == old(task.timers)
        && task.messages == old(task.messages) && port.Posted() == old(port.Posted())
    {
      if Tmos.MSG in events {
        task.DrainMessages();
        return Tmos.Xor(events, Tmos.MSG);
      }
      if FLUSH in events {
        Process(port, m, past);
        var more := HasData();
        if more {
          task.StartTask(FLUSH);
        }
        return Tmos.Xor(events, FLUSH);
      }
      return {};
    }
  }
}
