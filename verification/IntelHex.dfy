/** parse_ihex_max_address and the guard of openocd_flash.py: the greatest address of an Intel HEX
    image decides whether it may be flashed. Lines come decoded from their hex text; checksums
    are not looked at. */
module IntelHex {
  import opened Machine

  const LIMIT: nat := 0x0802_8000    // OPENOCD_LIMIT_START

  /** A stripped line of the file. */
  datatype Line =
    | Blank
    | NoColon
    | NotHex
    | Payload(bytes: seq<Byte>)

  datatype Problem = InvalidRecord | UndecodableText | Truncated | LengthMismatch | InvalidLinearAddress

  datatype Result = Ok(maxAddress: Option<nat>) | Error(line: nat, problem: Problem)

  // ----- records -----

  const DATA: nat := 0
  const END_OF_FILE: nat := 1
  const SEGMENT_ADDRESS: nat := 2
  const LINEAR_ADDRESS: nat := 4

  datatype Record = Record(offset: nat, kind: nat, data: seq<Byte>)

  function RecordOf(bytes: seq<Byte>): Record
    requires |bytes| >= 5
  {
    Record((bytes[1] as int) * 0x100 + bytes[2], bytes[3], bytes[4..|bytes| - 1])
  }

  /** Why the parser raises on a line, if it does. */
  function ProblemOf(line: Line): Option<Problem> {
    match line
    case Blank => None
    case NoColon => Some(InvalidRecord)
    case NotHex => Some(UndecodableText)
    case Payload(bytes) =>
      if |bytes| < 5 then Some(Truncated)
      else if bytes[0] != |bytes| - 5 then Some(LengthMismatch)
      else if bytes[3] == LINEAR_ADDRESS && |bytes| != 7 then Some(InvalidLinearAddress)
      else None
  }

  predicate EndsFile(line: Line) {
    line.Payload? && ProblemOf(line) == None && line.bytes[3] == END_OF_FILE
  }

  /** The lines that count: those before the first end-of-file record. */
  function Read(lines: seq<Line>): seq<Line> {
    if lines == [] || EndsFile(lines[0]) then [] else [lines[0]] + Read(lines[1..])
  }

  predicate Clean(lines: seq<Line>) {
    forall i :: 0 <= i < |lines| ==> ProblemOf(lines[i]) == None
  }

  // ----- what an image denotes -----

  /** How addresses are formed: from the last linear or segment base address record. */
  datatype Base = Linear(base: nat) | Segment(base: nat)

  function Word16(data: seq<Byte>): nat
    requires |data| == 2
  {
    (data[0] as int) * 0x100 + data[1]
  }

  function NextBase(mode: Base, r: Record): Base {
    if r.kind == LINEAR_ADDRESS && |r.data| == 2 then Linear(Word16(r.data) * 0x1_0000)
    else if r.kind == SEGMENT_ADDRESS && |r.data| == 2 then Segment(Word16(r.data) * 0x10)
    else mode
  }

  function BaseAfter(lines: seq<Line>): Base
    requires Clean(lines)
  {
    if lines == [] then Linear(0)
    else
      var line := lines[|lines| - 1];
      var mode := BaseAfter(lines[..|lines| - 1]);
      if line.Blank? then mode else NextBase(mode, RecordOf(line.bytes))
  }

  /** The address of byte k of a data record: modulo 4 GiB from a linear base, and with the offset
      modulo 64 KiB from a segment base. */
  function AddressOf(mode: Base, r: Record, k: nat): nat {
    match mode
    case Linear(base) => Wrap32(base + r.offset + k)
    case Segment(base) => base + Wrap16(r.offset + k)
  }

  predicate IsData(line: Line) {
    line.Payload? && |line.bytes| >= 5 && RecordOf(line.bytes).kind == DATA
  }

  /** Some data record before the end of file puts a byte at this address. */
  ghost predicate Denotes(lines: seq<Line>, address: nat)
    requires Clean(lines)
  {
    exists i: nat, k: nat :: PutsByte(lines, i, k, address)
  }

  ghost predicate PutsByte(lines: seq<Line>, i: nat, k: nat, address: nat)
    requires Clean(lines)
  {
    && i < |lines| && IsData(lines[i])
    && k < |RecordOf(lines[i].bytes).data|
    && address == AddressOf(BaseAfter(lines[..i]), RecordOf(lines[i].bytes), k)
  }

  // ----- what the parser computes -----

  /** Its variable base: the last linear base, with segment records passed over. */
  function LinearBase(lines: seq<Line>): nat
    requires Clean(lines)
  {
    if lines == [] then 0
    else
      var line := lines[|lines| - 1];
      if line.Payload? && RecordOf(line.bytes).kind == LINEAR_ADDRESS
      then Word16(RecordOf(line.bytes).data) * 0x1_0000
      else LinearBase(lines[..|lines| - 1])
  }

  predicate HasBytes(line: Line) {
    IsData(line) && RecordOf(line.bytes).data != []
  }

  /** record_max of line i. */
  function RecordMax(lines: seq<Line>, i: nat): nat
    requires Clean(lines) && i < |lines| && HasBytes(lines[i])
  {
    var r := RecordOf(lines[i].bytes);
    LinearBase(lines[..i]) + r.offset + |r.data| - 1
  }

  /** m is the greatest record_max, or None if there is none. */
  predicate IsMaxAddress(lines: seq<Line>, m: Option<nat>)
    requires Clean(lines)
  {
    match m
    case None => forall i :: 0 <= i < |lines| ==> !HasBytes(lines[i])
    case Some(v) =>
      && (exists i :: 0 <= i < |lines| && HasBytes(lines[i]) && RecordMax(lines, i) == v)
      && (forall i :: 0 <= i < |lines| && HasBytes(lines[i]) ==> RecordMax(lines, i) <= v)
  }

  lemma ReadIs(lines: seq<Line>, n: nat)
    requires n <= |lines|
    requires forall i :: 0 <= i < n ==> !EndsFile(lines[i])
    ensures n == |lines| || EndsFile(lines[n]) ==> Read(lines) == lines[..n]
    ensures lines[..n] <= Read(lines)
    decreases n
  {
    if n > 0 {
      ReadIs(lines[1..], n - 1);
      assert lines[1..][..n - 1] == lines[1..n];
      assert lines[..n] == [lines[0]] + lines[1..n];
    }
  }

  lemma PrefixKeepsMax(lines: seq<Line>, line: Line, m: Option<nat>)
    requires Clean(lines + [line]) && Clean(lines) && IsMaxAddress(lines, m)
    ensures !HasBytes(line) ==> IsMaxAddress(lines + [line], m)
    ensures HasBytes(line) ==>
      var v := RecordMax(lines + [line], |lines|);
      IsMaxAddress(lines + [line], Some(if m.Some? && m.value > v then m.value else v))
  {
    var longer := lines + [line];
    forall i | 0 <= i < |lines|
      ensures longer[i] == lines[i] && (HasBytes(lines[i]) ==> RecordMax(longer, i) == RecordMax(lines, i))
    {
      assert longer[..i] == lines[..i];
    }
    if HasBytes(line) {
      var v := RecordMax(longer, |lines|);
      if m.Some? && m.value > v {
        var i :| 0 <= i < |lines| && HasBytes(lines[i]) && RecordMax(lines, i) == m.value;
        assert RecordMax(longer, i) == m.value;
      }
    } else if m.Some? {
      var i :| 0 <= i < |lines| && HasBytes(lines[i]) && RecordMax(lines, i) == m.value;
      assert RecordMax(longer, i) == m.value;
    }
  }

  function Later(m: Option<nat>, v: nat): Option<nat> {
    Some(match m case None => v case Some(u) => if u > v then u else v)
  }

  /** What one more sound line does to the parser's variables. */
  lemma LineStep(done: seq<Line>, line: Line, m: Option<nat>)
    requires Clean(done) && IsMaxAddress(done, m) && ProblemOf(line) == None
    ensures Clean(done + [line])
    ensures line.Blank? ==> LinearBase(done + [line]) == LinearBase(done) && IsMaxAddress(done + [line], m)
    ensures line.Payload? ==>
      var r := RecordOf(line.bytes);
      && LinearBase(done + [line]) == (if r.kind == LINEAR_ADDRESS then Word16(r.data) * 0x1_0000 else LinearBase(done))
      && IsMaxAddress(done + [line],
           if r.kind == DATA && r.data != [] then Later(m, LinearBase(done) + r.offset + |r.data| - 1) else m)
  {
    assert (done + [line])[..|done|] == done;
    PrefixKeepsMax(done, line, m);
  }

  /** What the parser's variables stand for after these lines. */
  predicate Counted(done: seq<Line>, base: nat, m: Option<nat>) {
    Clean(done) && IsMaxAddress(done, m) && base == LinearBase(done)
  }

  /** The parser's variables after one more line. */
  function BaseWith(line: Line, base: nat): nat
    requires ProblemOf(line) == None
  {
    if line.Payload? && RecordOf(line.bytes).kind == LINEAR_ADDRESS then Word16(RecordOf(line.bytes).data) * 0x1_0000
    else base
  }

  function MaxWith(line: Line, base: nat, m: Option<nat>): Option<nat> {
    if HasBytes(line) then Later(m, base + RecordOf(line.bytes).offset + |RecordOf(line.bytes).data| - 1) else m
  }

  lemma CountedNext(done: seq<Line>, line: Line, base: nat, m: Option<nat>)
    requires Counted(done, base, m) && ProblemOf(line) == None
    ensures Counted(done + [line], BaseWith(line, base), MaxWith(line, base, m))
  {
    LineStep(done, line, m);
  }

  /** The parser has read n sound lines, none of them an end of file. */
  predicate Parsed(lines: seq<Line>, n: nat, base: nat, m: Option<nat>)
    requires n <= |lines|
  {
    && (forall i :: 0 <= i < n ==> !EndsFile(lines[i]))
    && Counted(lines[..n], base, m)
  }

  lemma ParsedFault(lines: seq<Line>, n: nat, base: nat, m: Option<nat>)
    requires n < |lines| && Parsed(lines, n, base, m) && ProblemOf(lines[n]) != None
    ensures n < |Read(lines)| && Clean(Read(lines)[..n]) && Read(lines)[n] == lines[n]
  {
    ReadIs(lines, n + 1);
    assert Read(lines)[..n] == lines[..n + 1][..n] == lines[..n];
  }

  lemma ParsedAll(lines: seq<Line>, n: nat, base: nat, m: Option<nat>)
    requires n <= |lines| && Parsed(lines, n, base, m)
    requires n == |lines| || EndsFile(lines[n])
    ensures Clean(Read(lines)) && IsMaxAddress(Read(lines), m)
  {
    ReadIs(lines, n);
  }

  lemma ParsedNext(lines: seq<Line>, n: nat, base: nat, m: Option<nat>)
    requires n < |lines| && Parsed(lines, n, base, m) && ProblemOf(lines[n]) == None && !EndsFile(lines[n])
    ensures Parsed(lines, n + 1, BaseWith(lines[n], base), MaxWith(lines[n], base, m))
  {
    CountedNext(lines[..n], lines[n], base, m);
    assert lines[..n + 1] == lines[..n] + [lines[n]];
  }

  /** The body of the loop for a line with a payload. */
  method ParseRecord(payload: seq<Byte>, base: nat, maxAddr: Option<nat>)
    returns (problem: Option<Problem>, base': nat, maxAddr': Option<nat>, stop: bool)
    ensures problem == ProblemOf(Payload(payload))
    ensures problem == None ==>
      && stop == EndsFile(Payload(payload))
      && base' == BaseWith(Payload(payload), base)
      && maxAddr' == MaxWith(Payload(payload), base, maxAddr)
  {
    problem, base', maxAddr', stop := None, base, maxAddr, false;
    if |payload| < 5 {
      problem := Some(Truncated);
      return;
    }
    var length: Byte, high: Byte, low: Byte := payload[0], payload[1], payload[2];
    var offset: nat := high * 0x100 + low;
    var recordType, data := payload[3], payload[4..|payload| - 1];
    if length != |data| {
      problem := Some(LengthMismatch);
      return;
    }
    if recordType == DATA {
      if length != 0 {
        maxAddr' := Later(maxAddr, base + offset + length - 1);
      }
    } else if recordType == LINEAR_ADDRESS {
      if length != 2 {
        problem := Some(InvalidLinearAddress);
        return;
      }
      base' := Word16(data) * 0x1_0000;
    } else if recordType == END_OF_FILE {
      stop := true;
    }
  }

  /** parse_ihex_max_address: the first faulty line before the end of file is reported with its
      number; without one the result is the greatest record_max. */
  method ParseMaxAddress(lines: seq<Line>) returns (r: Result)
    ensures r.Ok? ==> Clean(Read(lines)) && IsMaxAddress(Read(lines), r.maxAddress)
    ensures r.Error? ==>
      && 1 <= r.line <= |Read(lines)|
      && Clean(Read(lines)[..r.line - 1])
      && ProblemOf(Read(lines)[r.line - 1]) == Some(r.problem)
  {
    var base: nat, maxAddr: Option<nat>, n := 0, None, 0;
    while n < |lines|
      invariant 0 <= n <= |lines|
      invariant Parsed(lines, n, base, maxAddr)
    {
      var line := lines[n];
      match line {
        case Blank =>
          ParsedNext(lines, n, base, maxAddr);
        case NoColon =>
          ParsedFault(lines, n, base, maxAddr);
          return Error(n + 1, InvalidRecord);
        case NotHex =>
          ParsedFault(lines, n, base, maxAddr);
          return Error(n + 1, UndecodableText);
        case Payload(payload) =>
          var problem, base', maxAddr', stop := ParseRecord(payload, base, maxAddr);
          if problem.Some? {
            ParsedFault(lines, n, base, maxAddr);
            return Error(n + 1, problem.value);
          }
          if stop {
            ParsedAll(lines, n, base, maxAddr);
            return Ok(maxAddr);
          }
          ParsedNext(lines, n, base, maxAddr);
          base, maxAddr := base', maxAddr';
      }
      n := n + 1;
    }
    ParsedAll(lines, n, base, maxAddr);
    return Ok(maxAddr);
  }

  // ----- the guard -----

  datatype Verdict = Flash | Refuse | Fail

  /** The decision of main: exit code 2 for an unreadable image, 1 for one past the limit. */
  function Guard(r: Result): Verdict {
    match r
    case Error(_, _) => Fail
    case Ok(None) => Flash
    case Ok(Some(m)) => if m >= LIMIT then Refuse else Flash
  }

  /** In linear mode the parser's base is the image's base. */
  lemma {:induction false} BasesAgree(lines: seq<Line>)
    requires Clean(lines)
    ensures match BaseAfter(lines)
      case Linear(base) => base == LinearBase(lines) <= 0xFFFF_0000
      case Segment(base) => base <= 0xF_FFF0 && LinearBase(lines) <= 0xFFFF_0000
  {
    if lines != [] {
      BasesAgree(lines[..|lines| - 1]);
    }
  }

  lemma WrapNearTop(x: nat)
    requires x < TWO32 + 0x200
    ensures Wrap32(x) == if x < TWO32 then x else x - TWO32
  {
  }

  /** Byte k of data record i, as the image means it and as the parser counts it. */
  lemma ByteAddress(lines: seq<Line>, i: nat, k: nat)
    requires Clean(lines) && i < |lines| && IsData(lines[i]) && k < |RecordOf(lines[i].bytes).data|
    ensures HasBytes(lines[i])
    ensures var r, mode := RecordOf(lines[i].bytes), BaseAfter(lines[..i]);
      var address, counted := AddressOf(mode, r, k), LinearBase(lines[..i]) + r.offset + k;
      && (mode.Linear? ==> address == if counted < TWO32 then counted else counted - TWO32)
      && (mode.Segment? ==> address < LIMIT)
      && (k == 0 ==> counted < TWO32)
      && counted < TWO32 + 0x100
      && counted <= RecordMax(lines, i)
  {
    BasesAgree(lines[..i]);
    var r, mode := RecordOf(lines[i].bytes), BaseAfter(lines[..i]);
    if mode.Linear? {
      WrapNearTop(mode.base + r.offset + k);
    }
  }

  /** A data record under a segment base that the parser places past the limit, because it goes on
      counting from an earlier linear base. */
  predicate StaleHigh(lines: seq<Line>, i: nat)
    requires Clean(lines) && i < |lines|
  {
    HasBytes(lines[i]) && BaseAfter(lines[..i]).Segment? && RecordMax(lines, i) >= LIMIT
  }

  ghost predicate HighByte(lines: seq<Line>)
    requires Clean(lines)
  {
    exists address: nat :: address >= LIMIT && Denotes(lines, address)
  }

  lemma HighByteIsCounted(lines: seq<Line>, m: Option<nat>)
    requires Clean(lines) && IsMaxAddress(lines, m) && HighByte(lines)
    ensures m.Some? && m.value >= LIMIT
  {
    var address: nat :| address >= LIMIT && Denotes(lines, address);
    var i: nat, k: nat :| PutsByte(lines, i, k, address);
    ByteAddress(lines, i, k);
  }

  lemma CountedIsHighOrStale(lines: seq<Line>, m: nat)
    requires Clean(lines) && IsMaxAddress(lines, Some(m)) && m >= LIMIT
    ensures HighByte(lines) || exists i :: 0 <= i < |lines| && StaleHigh(lines, i)
  {
    var i :| 0 <= i < |lines| && HasBytes(lines[i]) && RecordMax(lines, i) == m;
    var r, mode := RecordOf(lines[i].bytes), BaseAfter(lines[..i]);
    if mode.Segment? {
      assert StaleHigh(lines, i);
    } else {
      var k := if m < TWO32 then |r.data| - 1 else 0;
      ByteAddress(lines, i, k);
      ByteAddress(lines, i, |r.data| - 1);
      var address := AddressOf(mode, r, k);
      assert PutsByte(lines, i, k, address);
      assert Denotes(lines, address);
    }
  }

  /** The guard, exactly: a readable image is refused if and only if it denotes a byte at or above
      the limit, or hides a data record under a segment base behind a high linear one. This
      holds for every image, also when a record runs past 4 GiB. */
  lemma GuardExact(lines: seq<Line>, m: Option<nat>)
    requires Clean(Read(lines)) && IsMaxAddress(Read(lines), m)
    ensures var image := Read(lines);
      Guard(Ok(m)) == Refuse <==> HighByte(image) || exists i :: 0 <= i < |image| && StaleHigh(image, i)
  {
    var image := Read(lines);
    if Guard(Ok(m)) == Refuse {
      CountedIsHighOrStale(image, m.value);
    }
    if HighByte(image) {
      HighByteIsCounted(image, m);
    }
  }

  /** main up to the start of OpenOCD: what is flashed reaches no byte at or above the limit. */
  method Inspect(lines: seq<Line>) returns (v: Verdict)
    ensures v == Fail <==> !Clean(Read(lines))
    ensures v == Refuse <==>
      && Clean(Read(lines))
      && (HighByte(Read(lines)) || exists i :: 0 <= i < |Read(lines)| && StaleHigh(Read(lines), i))
  {
    var r := ParseMaxAddress(lines);
    v := Guard(r);
    if r.Ok? {
      GuardExact(lines, r.maxAddress);
    } else {
      assert ProblemOf(Read(lines)[r.line - 1]) != None;
    }
  }

  /** Without segment base records the guard refuses exactly the images that reach the limit. */
  lemma {:induction false} LinearImageHasNoStale(lines: seq<Line>)
    requires Clean(lines)
    requires forall i :: 0 <= i < |lines| && lines[i].Payload? ==> RecordOf(lines[i].bytes).kind != SEGMENT_ADDRESS
    ensures BaseAfter(lines).Linear?
  {
    if lines != [] {
      LinearImageHasNoStale(lines[..|lines| - 1]);
    }
  }

  lemma LinearGuardExact(lines: seq<Line>, m: Option<nat>)
    requires Clean(Read(lines)) && IsMaxAddress(Read(lines), m)
    requires var image := Read(lines);
      forall i :: 0 <= i < |image| && image[i].Payload? ==> RecordOf(image[i].bytes).kind != SEGMENT_ADDRESS
    ensures Guard(Ok(m)) == Refuse <==> HighByte(Read(lines))
  {
    var image := Read(lines);
    GuardExact(lines, m);
    forall i | 0 <= i < |image| ensures !StaleHigh(image, i) {
      LinearImageHasNoStale(image[..i]);
    }
  }

  /** A linear base record for 0x0900_0000, then a segment base record for 0. */
  lemma BasesPartWays(linear: Line, segment: Line)
    requires linear == Payload([2, 0, 0, 4, 0x09, 0, 0]) && segment == Payload([2, 0, 0, 2, 0, 0, 0])
    ensures Clean([linear, segment]) && !HasBytes(linear) && !HasBytes(segment)
    ensures LinearBase([linear, segment]) == 0x0900_0000
    ensures BaseAfter([linear, segment]) == Segment(0)
  {
    assert [linear, segment][..1] == [linear];
    assert RecordOf(linear.bytes).data == [9, 0] && RecordOf(segment.bytes).data == [0, 0];
  }

  /** The over-refusal is real: this image has its one byte at address 0 and is refused. */
  lemma StaleImageIsRefused(lines: seq<Line>)
    requires lines == [Payload([2, 0, 0, 4, 0x09, 0, 0]), Payload([2, 0, 0, 2, 0, 0, 0]),
                       Payload([1, 0, 0, 0, 0xAA, 0])]
    ensures Clean(lines) && IsMaxAddress(lines, Some(0x0900_0000)) && Guard(Ok(Some(0x0900_0000))) == Refuse
    ensures forall address: nat :: Denotes(lines, address) ==> address == 0
  {
    BasesPartWays(lines[0], lines[1]);
    assert lines[..2] == [lines[0], lines[1]];
    assert RecordOf(lines[2].bytes) == Record(0, DATA, [0xAA]);
    assert RecordMax(lines, 2) == 0x0900_0000;
  }

  /** The maximum itself: when every data record lies under a linear base and does not run past
      4 GiB, the result is the greatest address that the image denotes. */
  lemma MaxIsGreatestAddress(lines: seq<Line>, m: Option<nat>)
    requires Clean(lines) && IsMaxAddress(lines, m)
    requires forall i :: 0 <= i < |lines| && HasBytes(lines[i]) ==>
      BaseAfter(lines[..i]).Linear? && RecordMax(lines, i) < TWO32
    ensures m == None <==> forall address: nat :: !Denotes(lines, address)
    ensures m.Some? ==> Denotes(lines, m.value) && forall address: nat :: Denotes(lines, address) ==> address <= m.value
  {
    forall address: nat | Denotes(lines, address) ensures m.Some? && address <= m.value {
      var i: nat, k: nat :| PutsByte(lines, i, k, address);
      ByteAddress(lines, i, k);
    }
    if m.Some? {
      var i :| 0 <= i < |lines| && HasBytes(lines[i]) && RecordMax(lines, i) == m.value;
      var last := |RecordOf(lines[i].bytes).data| - 1;
      ByteAddress(lines, i, last);
      assert PutsByte(lines, i, last, m.value);
      assert Denotes(lines, m.value);
    }
  }
}
