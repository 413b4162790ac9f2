/** The byte ring of app_log.c as a value, with the FIFO queue it stands for.
    Class AppLog.Log runs the same operations on an array. */
module LogRing {
  import opened Machine

  /** g_log_buf, g_log_head, g_log_tail and g_log_dropped; the buffer size is |cells|. */
  datatype Ring = Ring(cells: seq<Byte>, head: nat, tail: nat, dropped: nat)

  /** Every buffer size for which the uint16_t indices can name all cells. */
  predicate WellFormed(r: Ring) {
    && 1 <= |r.cells| <= TWO16
    && r.head < |r.cells|
    && r.tail < |r.cells|
    && r.dropped < TWO32
  }

  /** The queue: the bytes from tail up to head, oldest first. */
  function Contents(r: Ring): seq<Byte>
    requires WellFormed(r)
  {
    if r.tail <= r.head then r.cells[r.tail..r.head] else r.cells[r.tail..] + r.cells[..r.head]
  }

  /** One cell stays free so that a full ring differs from an empty one. */
  function Free(r: Ring): (n: nat)
    requires WellFormed(r)
  {
    |r.cells| - 1 - |Contents(r)|
  }

  // ----- the operations, with uint16_t arithmetic -----

  function NextIndex(index: nat, size: nat): nat {
    var next := Wrap16(index + 1);
    if next >= size then 0 else next
  }

  function PushByte(r: Ring, data: Byte): (Ring, bool)
    requires WellFormed(r)
  {
    var nextHead := NextIndex(r.head, |r.cells|);
    if nextHead == r.tail then
      (r.(dropped := Wrap32(r.dropped + 1)), false)
    else
      (r.(cells := r.cells[r.head := data], head := nextHead), true)
  }

  /** The loop under the lock: push until the line ends or a byte is refused. */
  function PushLine(r: Ring, line: seq<Byte>): Ring
    requires WellFormed(r)
    decreases |line|
  {
    if line == [] then r
    else
      var (r', ok) := PushByte(r, line[0]);
      PushByteRefinesQueue(r, line[0]);
      if ok then PushLine(r', line[1..]) else r'
  }

  function HasData(r: Ring): bool {
    r.head != r.tail
  }

  function ContiguousLen(r: Ring, chunk: nat): nat
    requires WellFormed(r)
  {
    if r.head == r.tail then 0
    else
      var len := if r.head > r.tail then Wrap16(r.head - r.tail) else Wrap16(|r.cells| - r.tail);
      if len > chunk then chunk else len
  }

  function AdvancedIndex(index: nat, len: nat, size: nat): nat {
    var next := Wrap16(index + len);
    if next >= size then Wrap16(next - size) else next
  }

  lemma AdvancedIndexIs(index: nat, len: nat, size: nat)
    requires index < size <= TWO16 && index + len <= size
    ensures AdvancedIndex(index, len, size) == if index + len == size then 0 else index + len
  {
  }

  function AdvanceTail(r: Ring, len: nat): Ring
    requires WellFormed(r)
  {
    r.(tail := AdvancedIndex(r.tail, len, |r.cells|))
  }

  // ----- refinement of the bounded queue -----

  /** A push appends exactly when the queue holds fewer than size - 1 bytes. */
  lemma PushByteRefinesQueue(r: Ring, data: Byte)
    requires WellFormed(r)
    ensures var (r', ok) := PushByte(r, data);
      && WellFormed(r')
      && |r'.cells| == |r.cells|
      && r'.tail == r.tail
      && (ok <==> |Contents(r)| < |r.cells| - 1)
      && Contents(r') == (if ok then Contents(r) + [data] else Contents(r))
      && r'.dropped == (if ok then r.dropped else Wrap32(r.dropped + 1))
  {
    var (r', ok) := PushByte(r, data);
    if ok {
      var size := |r.cells|;
      if r.tail <= r.head {
        if r.head + 1 < size {
          assert r'.cells[r.tail..r.head] == r.cells[r.tail..r.head];
          assert Contents(r') == Contents(r) + [data];
        } else {
          assert r'.head == 0;
          assert r'.cells[r.tail..r.head] == r.cells[r.tail..r.head];
          assert Contents(r') == r'.cells[r.tail..];
        }
      } else {
        assert r'.cells[r.tail..] == r.cells[r.tail..];
        assert r'.cells[..r.head + 1] == r.cells[..r.head] + [data];
        assert Contents(r') == Contents(r) + [data];
      }
    }
  }

  lemma AppendStep(q: seq<Byte>, line: seq<Byte>, n: nat)
    requires n < |line|
    ensures q + [line[0]] + line[1..][..n] == q + line[..n + 1]
  {
  }

  /** How much of a line the ring takes. */
  function Taken(r: Ring, line: seq<Byte>): (n: nat)
    requires WellFormed(r)
    ensures n <= |line|
  {
    Min(|line|, Free(r))
  }

  /** A line has gone in as one contiguous prefix, limited by the free space; at most one drop is
      counted, for the line and not for its bytes. */
  predicate LineAdded(r: Ring, line: seq<Byte>, r': Ring)
    requires WellFormed(r) && WellFormed(r')
  {
    && Contents(r') == Contents(r) + line[..Taken(r, line)]
    && r'.dropped == (if Taken(r, line) < |line| then Wrap32(r.dropped + 1) else r.dropped)
  }

  lemma {:induction false} PushLineRefinesQueue(r: Ring, line: seq<Byte>)
    requires WellFormed(r)
    ensures var r' := PushLine(r, line);
      && WellFormed(r')
      && |r'.cells| == |r.cells|
      && r'.tail == r.tail
      && LineAdded(r, line, r')
    decreases |line|
  {
    if line == [] {
    } else {
      PushByteRefinesQueue(r, line[0]);
      var (r', ok) := PushByte(r, line[0]);
      if ok {
        PushLineRefinesQueue(r', line[1..]);
        var n := Taken(r', line[1..]);
        assert Taken(r, line) == n + 1;
        AppendStep(Contents(r), line, n);
      }
    }
  }

  lemma PushLineStep(r: Ring, line: seq<Byte>, i: nat)
    requires WellFormed(r) && i < |line|
    ensures var (r', ok) := PushByte(r, line[i]);
      WellFormed(r') && PushLine(r, line[i..]) == if ok then PushLine(r', line[i + 1..]) else r'
  {
    PushByteRefinesQueue(r, line[i]);
    assert line[i..][1..] == line[i + 1..];
  }

  /** The ring after AppLog_Printf has looked at the length of a formatted text. */
  function CutCounted(r: Ring, lineSize: nat, text: seq<Byte>): Ring {
    if |text| >= lineSize then r.(dropped := Wrap32(r.dropped + 1)) else r
  }

  /** AppLog_Printf from a formatted text on: cut it to the line buffer, counting one drop if that
      cuts anything, and push what is left. */
  function PrintLine(r: Ring, lineSize: nat, text: seq<Byte>): Ring
    requires WellFormed(r) && 1 <= lineSize
  {
    PushLine(CutCounted(r, lineSize, text), text[..Min(|text|, lineSize - 1)])
  }

  lemma CutOnlyCounts(r: Ring, lineSize: nat, text: seq<Byte>)
    requires WellFormed(r)
    ensures var r' := CutCounted(r, lineSize, text);
      && WellFormed(r') && Contents(r') == Contents(r) && Free(r') == Free(r)
      && r'.dropped == Wrap32(r.dropped + if |text| >= lineSize then 1 else 0)
  {
  }

  lemma PrefixOfPrefix(text: seq<Byte>, kept: nat, taken: nat)
    requires taken <= kept <= |text|
    ensures text[..kept][..taken] == text[..taken]
  {
  }

  /** A formatted text has gone in as its prefix of length min(length, line size - 1, free space);
      one drop is counted if the line buffer cut it and one if the ring did. */
  predicate TextAdded(r: Ring, lineSize: nat, text: seq<Byte>, r': Ring)
    requires WellFormed(r) && WellFormed(r') && 1 <= lineSize
  {
    var kept := Min(|text|, lineSize - 1);
    var taken := Min(kept, Free(r));
    && Contents(r') == Contents(r) + text[..taken]
    && r'.dropped
       == Wrap32(r.dropped + (if |text| >= lineSize then 1 else 0) + (if taken < kept then 1 else 0))
  }

  lemma PrintLineAddsText(r: Ring, lineSize: nat, text: seq<Byte>)
    requires WellFormed(r) && 1 <= lineSize
    ensures WellFormed(PrintLine(r, lineSize, text))
    ensures TextAdded(r, lineSize, text, PrintLine(r, lineSize, text))
  {
    var kept := Min(|text|, lineSize - 1);
    CutOnlyCounts(r, lineSize, text);
    PushLineRefinesQueue(CutCounted(r, lineSize, text), text[..kept]);
    PrefixOfPrefix(text, kept, Min(kept, Free(r)));
    WrapAdd(r.dropped + 1, 1);
  }

  /** Up to the wrap point, the oldest queued bytes stand in the cells from the tail on. */
  lemma QueuedCellsHold(r: Ring, len: nat)
    requires WellFormed(r)
    requires len <= |Contents(r)| && r.tail + len <= |r.cells|
    ensures r.cells[r.tail..r.tail + len] == Contents(r)[..len]
  {
    if r.tail <= r.head {
      assert r.cells[r.tail..r.head][..len] == r.cells[r.tail..r.tail + len];
    } else {
      assert Contents(r)[..len] == r.cells[r.tail..][..len];
    }
  }

  /** The snapshot is a run of the oldest bytes that ends at or before the wrap point, of the
      largest length that the chunk size allows. */
  lemma SnapshotIsOldestRun(r: Ring, chunk: nat)
    requires WellFormed(r) && 1 <= chunk
    ensures var len := ContiguousLen(r, chunk);
      && len <= |Contents(r)|
      && r.tail + len <= |r.cells|
      && r.cells[r.tail..r.tail + len] == Contents(r)[..len]
      && (len == 0 <==> Contents(r) == [])
      && (len == chunk || len == |Contents(r)| || r.tail + len == |r.cells|)
      && len <= chunk
  {
    QueuedCellsHold(r, ContiguousLen(r, chunk));
  }

  /** Any number of lines, each pushed under its own lock. */
  function PushLines(r: Ring, lines: seq<seq<Byte>>): Ring
    requires WellFormed(r)
    decreases |lines|
  {
    if lines == [] then r
    else
      PushLineRefinesQueue(r, lines[0]);
      PushLines(PushLine(r, lines[0]), lines[1..])
  }

  /** Snapshot stability: whatever is pushed while the snapshot is being sent, its cells and
      the tail do not move, and the queue only grows at its end. */
  lemma {:induction false} PushesKeepSnapshot(r: Ring, lines: seq<seq<Byte>>, len: nat)
    requires WellFormed(r)
    requires len <= |Contents(r)| && r.tail + len <= |r.cells|
    ensures var r' := PushLines(r, lines);
      && WellFormed(r')
      && r'.tail == r.tail
      && |r'.cells| == |r.cells|
      && Contents(r) <= Contents(r')
      && r'.cells[r.tail..r.tail + len] == r.cells[r.tail..r.tail + len]
    decreases |lines|
  {
    if lines == [] {
    } else {
      PushLineRefinesQueue(r, lines[0]);
      var r1 := PushLine(r, lines[0]);
      PushesKeepSnapshot(r1, lines[1..], len);
      QueuedCellsHold(r, len);
      QueuedCellsHold(r1, len);
      assert Contents(r1)[..len] == Contents(r)[..len];
    }
  }

  /** Advancing by a snapshot length removes exactly the oldest bytes. */
  lemma AdvanceTailRefinesQueue(r: Ring, len: nat)
    requires WellFormed(r)
    requires len <= |Contents(r)| && r.tail + len <= |r.cells|
    ensures var r' := AdvanceTail(r, len);
      && WellFormed(r')
      && r'.head == r.head && r'.cells == r.cells && r'.dropped == r.dropped
      && Contents(r') == Contents(r)[len..]
  {
    var r' := AdvanceTail(r, len);
    AdvancedIndexIs(r.tail, len, |r.cells|);
    if r.tail <= r.head {
      assert Contents(r)[len..] == r.cells[r.tail + len..r.head];
    } else if r.tail + len < |r.cells| {
      assert Contents(r)[len..] == r.cells[r.tail + len..] + r.cells[..r.head];
    } else {
      assert r'.tail == 0;
      assert Contents(r)[len..] == r.cells[..r.head];
    }
  }

  lemma PrefixSplit(a: seq<Byte>, b: seq<Byte>, n: nat)
    requires a <= b && n <= |a|
    ensures b == a[..n] + b[n..]
  {
  }

  /** The two-phase drain of AppLog_Process against concurrent producers: bytes sent are the
      oldest ones, and exactly these leave the queue that grew meanwhile. */
  lemma DrainAcrossPushes(r: Ring, lines: seq<seq<Byte>>, chunk: nat)
    requires WellFormed(r) && 1 <= chunk
    ensures var len := ContiguousLen(r, chunk);
      var r1 := PushLines(r, lines);
      && WellFormed(r1)
      && r1.tail + len <= |r1.cells|
      && r1.cells[r1.tail..r1.tail + len] == Contents(r)[..len]
      && WellFormed(AdvanceTail(r1, len))
      && Contents(r1) == Contents(r)[..len] + Contents(AdvanceTail(r1, len))
  {
    var len := ContiguousLen(r, chunk);
    SnapshotIsOldestRun(r, chunk);
    PushesKeepSnapshot(r, lines, len);
    var r1 := PushLines(r, lines);
    AdvanceTailRefinesQueue(r1, len);
    PrefixSplit(Contents(r), Contents(r1), len);
  }

  // ----- how many calls empty the ring -----

  /** One undisturbed AppLog_Process. */
  function Process(r: Ring, chunk: nat): Ring
    requires WellFormed(r)
  {
    var len := ContiguousLen(r, chunk);
    if len > 0 then AdvanceTail(r, len) else r
  }

  /** Calls of Process until HasData is false. */
  function DrainCalls(r: Ring, chunk: nat): nat
    requires WellFormed(r) && 1 <= chunk
    decreases |Contents(r)|
  {
    if !HasData(r) then 0
    else
      SnapshotIsOldestRun(r, chunk);
      AdvanceTailRefinesQueue(r, ContiguousLen(r, chunk));
      1 + DrainCalls(Process(r, chunk), chunk)
  }

  function CeilDiv(a: nat, c: nat): nat
    requires 1 <= c
  {
    (a + c - 1) / c
  }

  /** The run up to the head or the end of the buffer, and the run after the wrap. */
  function FirstRun(r: Ring): nat
    requires WellFormed(r)
  {
    if r.tail <= r.head then r.head - r.tail else |r.cells| - r.tail
  }

  function WrappedRun(r: Ring): nat
    requires WellFormed(r)
  {
    if r.tail <= r.head then 0 else r.head
  }

  lemma CeilDivStep(a: nat, c: nat)
    requires 1 <= c && 1 <= a
    ensures CeilDiv(a, c) == 1 + CeilDiv(if a > c then a - c else 0, c)
  {
    if a > c {
      QuotientStep(a - 1, c);
    } else {
      QuotientIs(c - 1, c, 0);
      QuotientStep(a - 1, c);
      QuotientIs(a - 1, c, 0);
    }
  }

  lemma CeilDivZero(c: nat)
    requires 1 <= c
    ensures CeilDiv(0, c) == 0
  {
  }

  lemma IndexArithmetic(r: Ring, chunk: nat)
    requires WellFormed(r) && 1 <= chunk && HasData(r)
    ensures 1 <= FirstRun(r)
    ensures ContiguousLen(r, chunk) == Min(FirstRun(r), chunk)
    ensures var end := r.tail + ContiguousLen(r, chunk);
      AdvanceTail(r, ContiguousLen(r, chunk)).tail == if end == |r.cells| then 0 else end
  {
  }

  /** A call takes a chunk off the first run, or finishes it so that the wrapped run comes first. */
  lemma ProcessShortensFirstRun(r: Ring, chunk: nat)
    requires WellFormed(r) && 1 <= chunk && HasData(r)
    ensures var r' := Process(r, chunk);
      && WellFormed(r')
      && 1 <= FirstRun(r)
      && if FirstRun(r) > chunk
         then FirstRun(r') == FirstRun(r) - chunk && WrappedRun(r') == WrappedRun(r)
         else FirstRun(r') == WrappedRun(r) && WrappedRun(r') == 0
  {
    IndexArithmetic(r, chunk);
  }

  /** With no new producers the ring empties in exactly this many calls. */
  lemma {:induction false} DrainBound(r: Ring, chunk: nat)
    requires WellFormed(r) && 1 <= chunk
    ensures DrainCalls(r, chunk) == CeilDiv(FirstRun(r), chunk) + CeilDiv(WrappedRun(r), chunk)
    decreases |Contents(r)|
  {
    if !HasData(r) {
      CeilDivZero(chunk);
    } else {
      SnapshotIsOldestRun(r, chunk);
      AdvanceTailRefinesQueue(r, ContiguousLen(r, chunk));
      var r' := Process(r, chunk);
      ProcessShortensFirstRun(r, chunk);
      DrainBound(r', chunk);
      CeilDivStep(FirstRun(r), chunk);
      CeilDivZero(chunk);
    }
  }
}
