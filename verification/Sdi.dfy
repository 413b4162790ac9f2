/** The SDI branch of _write in debug.c: framing of a byte string into pairs of 32-bit words,
    and the two-word mailbox that a debug host empties. */
module Sdi {
  import opened Machine

  /** Whether plain char is unsigned (the RISC-V default, used by the Makefile) or signed
      (the -fsigned-char switch of the .cproject build). */
  datatype CharModel = UnsignedChar | SignedChar

  /** A 32-bit word as its bytes, lowest first. The code shifts by whole bytes only. */
  datatype Word = Word(b0: Byte, b1: Byte, b2: Byte, b3: Byte) {
    function Or(w: Word): Word {
      Word(OrByte(b0, w.b0), OrByte(b1, w.b1), OrByte(b2, w.b2), OrByte(b3, w.b3))
    }

    function Shl8(): Word {
      Word(0, b0, b1, b2)
    }
  }

  const ZERO: Word := Word(0, 0, 0, 0)

  /** The word as the number a register holds. */
  function ValueOf(w: Word): nat {
    w.b0 + 0x100 * w.b1 + 0x1_0000 * w.b2 + 0x100_0000 * w.b3
  }

  datatype Frame = Frame(data0: Word, data1: Word)

  const FRAME_BYTES: nat := 7

  // ----- device side -----

  /** Seven-bit text. */
  predicate Ascii(data: seq<Byte>) {
    forall k :: 0 <= k < |data| ==> data[k] < 0x80
  }

  /** Integer promotion of a char: a negative one fills the word above it with ones. */
  function Promote(m: CharModel, c: Byte): Word {
    var sign := if Smears(m, c) then 0xFF else 0;
    Word(c, sign, sign, sign)
  }

  predicate Smears(m: CharModel, c: Byte) {
    m.SignedChar? && c >= 0x80
  }

  /** The byte at buf + k; behind the data lies whatever memory holds there. */
  function Peek(data: seq<Byte>, k: nat, past: seq<Byte>): Byte {
    if k < |data| then data[k] else if k - |data| < |past| then past[k - |data|] else 0
  }

  /** low | b << 8 | c << 16 | d << 24 */
  function Pack(m: CharModel, low: Word, b: Byte, c: Byte, d: Byte): Word {
    low.Or(Promote(m, b).Shl8()).Or(Promote(m, c).Shl8().Shl8()).Or(Promote(m, d).Shl8().Shl8().Shl8())
  }

  function Word0(m: CharModel, count: Byte, a: Byte, b: Byte, c: Byte): Word {
    Pack(m, Word(count, 0, 0, 0), a, b, c)
  }

  function Word1(m: CharModel, a: Byte, b: Byte, c: Byte, d: Byte): Word {
    Pack(m, Promote(m, a), b, c, d)
  }

  /** DATA1 for the bytes at buf + i. */
  function Data1At(m: CharModel, data: seq<Byte>, i: nat, past: seq<Byte>): Word {
    Word1(m, Peek(data, i + 3, past), Peek(data, i + 4, past), Peek(data, i + 5, past), Peek(data, i + 6, past))
  }

  /** DATA0 for the bytes at buf + i: a count of at most seven in the lowest byte. */
  function Data0At(m: CharModel, data: seq<Byte>, i: nat, past: seq<Byte>): Word
    requires i <= |data|
  {
    Word0(m, Min(|data| - i, FRAME_BYTES), Peek(data, i, past), Peek(data, i + 1, past), Peek(data, i + 2, past))
  }

  function FrameAt(m: CharModel, data: seq<Byte>, i: nat, past: seq<Byte>): Frame
    requires i <= |data|
  {
    Frame(Data0At(m, data, i, past), Data1At(m, data, i, past))
  }

  /** ceil(n / 7) frames carry n bytes; a write of size zero also sends one. */
  function FrameTotal(n: nat): nat {
    if n == 0 then 1 else (n + FRAME_BYTES - 1) / FRAME_BYTES
  }

  /** All frames of _write from offset i on. */
  function FramesFrom(m: CharModel, data: seq<Byte>, i: nat, past: seq<Byte>): seq<Frame>
    requires i <= |data|
  {
    seq(FrameTotal(|data| - i), k requires 0 <= k < FrameTotal(|data| - i) => FrameAt(m, data, i + 7 * k, past))
  }

  lemma FramesStep(m: CharModel, data: seq<Byte>, i: nat, past: seq<Byte>)
    requires i <= |data|
    ensures FramesFrom(m, data, i, past) == [FrameAt(m, data, i, past)] +
      if |data| - i > FRAME_BYTES then FramesFrom(m, data, i + FRAME_BYTES, past) else []
  {
  }

  // ----- host side -----

  /** The seven payload bytes of a frame, in stream order. */
  function Payload(f: Frame): (p: seq<Byte>)
    ensures |p| == FRAME_BYTES
  {
    [f.data0.b1, f.data0.b2, f.data0.b3, f.data1.b0, f.data1.b1, f.data1.b2, f.data1.b3]
  }

  function Count(f: Frame): nat {
    Min(f.data0.b0, FRAME_BYTES)
  }

  function DecodeFrame(f: Frame): (p: seq<Byte>)
    ensures |p| == Count(f)
  {
    Payload(f)[..Count(f)]
  }

  function Decode(fs: seq<Frame>): seq<Byte> {
    if fs == [] then [] else DecodeFrame(fs[0]) + Decode(fs[1..])
  }

  lemma DecodeCons(f: Frame, fs: seq<Frame>)
    ensures Decode([f] + fs) == DecodeFrame(f) + Decode(fs)
  {
  }

  lemma {:induction false} DecodeConcat(fs: seq<Frame>, gs: seq<Frame>)
    ensures Decode(fs + gs) == Decode(fs) + Decode(gs)
  {
    if fs == [] {
      assert fs + gs == gs;
    } else {
      DecodeConcat(fs[1..], gs);
      var head := DecodeFrame(fs[0]);
      assert (fs + gs)[0] == fs[0] && (fs + gs)[1..] == fs[1..] + gs;
      assert head + (Decode(fs[1..]) + Decode(gs)) == head + Decode(fs[1..]) + Decode(gs);
    }
  }

  // ----- the bytes of one word -----

  /** What a byte becomes when an earlier one in its word smears. */
  function Under(smeared: bool, b: Byte): Byte {
    if smeared then 0xFF else b
  }

  lemma Word0Bytes(m: CharModel, count: Byte, a: Byte, b: Byte, c: Byte)
    ensures Word0(m, count, a, b, c)
         == Word(count, a, Under(Smears(m, a), b), Under(Smears(m, a) || Smears(m, b), c))
  {
  }

  lemma Word1Bytes(m: CharModel, a: Byte, b: Byte, c: Byte, d: Byte)
    ensures Word1(m, a, b, c, d)
         == Word(a, Under(Smears(m, a), b), Under(Smears(m, a) || Smears(m, b), c),
                 Under(Smears(m, a) || Smears(m, b) || Smears(m, c), d))
  {
  }

  // ----- the same in arithmetic -----

  /** Promotion: the word is the char's value, from -128 to 127 in a signed-char build, modulo 2^32. */
  lemma PromoteIsSignExtension(m: CharModel, c: Byte)
    ensures ValueOf(Promote(m, c)) == Wrap32(if m.SignedChar? && c >= 128 then c - 256 else c)
  {
  }

  /** << 8 on a 32-bit word. */
  lemma ShiftIsTimes256(w: Word)
    ensures ValueOf(w.Shl8()) == Wrap32(256 * ValueOf(w))
  {
  }

  /** | puts words together that share no byte. */
  lemma OrIsSum(v: Word, w: Word)
    requires (v.b0 == 0 || w.b0 == 0) && (v.b1 == 0 || w.b1 == 0)
    requires (v.b2 == 0 || w.b2 == 0) && (v.b3 == 0 || w.b3 == 0)
    ensures ValueOf(v.Or(w)) == ValueOf(v) + ValueOf(w)
  {
  }

  /** The frame at offset i in numbers, where no char is negative: the count in the lowest byte of
      DATA0, the first three bytes above it, and the next four in DATA1. */
  lemma FrameInNumbers(m: CharModel, data: seq<Byte>, i: nat, past: seq<Byte>)
    requires i <= |data| && (m.UnsignedChar? || (Ascii(data) && Ascii(past)))
    ensures ValueOf(FrameAt(m, data, i, past).data0)
         == Min(|data| - i, 7) + 0x100 * Peek(data, i, past) + 0x1_0000 * Peek(data, i + 1, past)
            + 0x100_0000 * Peek(data, i + 2, past)
    ensures ValueOf(FrameAt(m, data, i, past).data1)
         == Peek(data, i + 3, past) + 0x100 * Peek(data, i + 4, past) + 0x1_0000 * Peek(data, i + 5, past)
            + 0x100_0000 * Peek(data, i + 6, past)
  {
    Word0Bytes(m, Min(|data| - i, 7), Peek(data, i, past), Peek(data, i + 1, past), Peek(data, i + 2, past));
    Word1Bytes(m, Peek(data, i + 3, past), Peek(data, i + 4, past), Peek(data, i + 5, past), Peek(data, i + 6, past));
  }

  // ----- what the host receives -----

  /** Byte k of a frame shares its word with an earlier byte that smears. */
  predicate Overwritten(m: CharModel, group: seq<Byte>, k: nat)
    requires k < |group|
  {
    exists j :: (if k < 3 then 0 else 3) <= j < k && Smears(m, group[j])
  }

  /** The bytes that arrive when a frame carries this group. */
  function Received(m: CharModel, group: seq<Byte>): (r: seq<Byte>)
    ensures |r| == |group|
  {
    seq(|group|, k requires 0 <= k < |group| => Under(Overwritten(m, group, k), group[k]))
  }

  /** No byte of the group arrives changed. */
  predicate FrameSafe(m: CharModel, group: seq<Byte>) {
    forall k :: 0 <= k < |group| && Overwritten(m, group, k) ==> group[k] == 0xFF
  }

  function FrameEnd(data: seq<Byte>, i: nat): (end: nat)
    requires i <= |data|
    ensures i <= end <= |data|
  {
    i + Min(|data| - i, FRAME_BYTES)
  }

  /** All seven payload bytes of a frame, whatever its count. */
  lemma PayloadOf(m: CharModel, count: Byte, b: seq<Byte>)
    requires |b| == FRAME_BYTES
    ensures Payload(Frame(Word0(m, count, b[0], b[1], b[2]), Word1(m, b[3], b[4], b[5], b[6]))) == Received(m, b)
  {
  }

  lemma ReceivedPrefix(m: CharModel, b: seq<Byte>, n: nat)
    requires n <= |b|
    ensures Received(m, b)[..n] == Received(m, b[..n])
  {
    forall k | 0 <= k < n ensures Overwritten(m, b, k) == Overwritten(m, b[..n], k) {
      if Overwritten(m, b, k) {
        var j :| (if k < 3 then 0 else 3) <= j < k && Smears(m, b[j]);
        assert Smears(m, b[..n][j]);
      }
    }
  }

  /** A frame carries its group and nothing else: not the bytes read behind the data, which may
      even change between the two register writes. */
  lemma FrameCarriesGroup(m: CharModel, data: seq<Byte>, i: nat, past0: seq<Byte>, past1: seq<Byte>)
    requires i <= |data|
    ensures DecodeFrame(Frame(Data0At(m, data, i, past0), Data1At(m, data, i, past1)))
         == Received(m, data[i..FrameEnd(data, i)])
    ensures i < |data| ==> Data0At(m, data, i, past0) != ZERO
  {
    var n := Min(|data| - i, FRAME_BYTES);
    var b := [Peek(data, i, past0), Peek(data, i + 1, past0), Peek(data, i + 2, past0), Peek(data, i + 3, past1),
              Peek(data, i + 4, past1), Peek(data, i + 5, past1), Peek(data, i + 6, past1)];
    PayloadOf(m, n, b);
    Word0Bytes(m, n, b[0], b[1], b[2]);
    ReceivedPrefix(m, b, n);
    assert b[..n] == data[i..i + n];
  }

  lemma ReceivedIntactIffSafe(m: CharModel, group: seq<Byte>)
    ensures Received(m, group) == group <==> FrameSafe(m, group)
  {
  }

  /** Every frame from offset i on is safe. */
  predicate SafeFrom(m: CharModel, data: seq<Byte>, i: nat)
    requires i <= |data|
    decreases |data| - i
  {
    && FrameSafe(m, data[i..FrameEnd(data, i)])
    && (|data| - i > FRAME_BYTES ==> SafeFrom(m, data, i + FRAME_BYTES))
  }

  /** The bytes the host receives for a whole write. */
  function ReceivedFrom(m: CharModel, data: seq<Byte>, i: nat): seq<Byte>
    requires i <= |data|
    decreases |data| - i
  {
    Received(m, data[i..FrameEnd(data, i)]) +
    if |data| - i > FRAME_BYTES then ReceivedFrom(m, data, i + FRAME_BYTES) else []
  }

  /** The decoded stream depends on the data alone, and is as long as the data. */
  lemma {:induction false} DecodedStream(m: CharModel, data: seq<Byte>, i: nat, past: seq<Byte>)
    requires i <= |data|
    ensures Decode(FramesFrom(m, data, i, past)) == ReceivedFrom(m, data, i)
    ensures |ReceivedFrom(m, data, i)| == |data| - i
    decreases |data| - i
  {
    FrameCarriesGroup(m, data, i, past, past);
    FramesStep(m, data, i, past);
    var f := FrameAt(m, data, i, past);
    if |data| - i > FRAME_BYTES {
      DecodedStream(m, data, i + FRAME_BYTES, past);
      DecodeCons(f, FramesFrom(m, data, i + FRAME_BYTES, past));
    } else {
      DecodeCons(f, []);
    }
  }

  lemma {:induction false} ReceivedIntactIffAllSafe(m: CharModel, data: seq<Byte>, i: nat)
    requires i <= |data|
    ensures |ReceivedFrom(m, data, i)| == |data| - i
    ensures ReceivedFrom(m, data, i) == data[i..] <==> SafeFrom(m, data, i)
    decreases |data| - i
  {
    var group := data[i..FrameEnd(data, i)];
    var received := Received(m, group);
    ReceivedIntactIffSafe(m, group);
    if |data| - i > FRAME_BYTES {
      var rest := ReceivedFrom(m, data, i + FRAME_BYTES);
      ReceivedIntactIffAllSafe(m, data, i + FRAME_BYTES);
      SplitEqual(received, rest, group, data[i + FRAME_BYTES..]);
      assert data[i..] == group + data[i + FRAME_BYTES..];
      assert ReceivedFrom(m, data, i) == received + rest;
    } else {
      assert data[i..] == group;
      assert ReceivedFrom(m, data, i) == received + [] == received;
    }
  }

  /** Round trip: the host decodes the very bytes written exactly when every frame is safe. */
  lemma RoundTripIffSafe(m: CharModel, data: seq<Byte>, i: nat, past: seq<Byte>)
    requires i <= |data|
    ensures Decode(FramesFrom(m, data, i, past)) == data[i..] <==> SafeFrom(m, data, i)
  {
    DecodedStream(m, data, i, past);
    ReceivedIntactIffAllSafe(m, data, i);
  }

  lemma SplitEqual(a: seq<Byte>, b: seq<Byte>, c: seq<Byte>, d: seq<Byte>)
    requires |a| == |c|
    ensures a + b == c + d <==> a == c && b == d
  {
    if a + b == c + d {
      assert a == (a + b)[..|a|] && c == (c + d)[..|c|];
      assert b == (a + b)[|a|..] && d == (c + d)[|c|..];
    }
  }

  /** The build carries these bytes unchanged, however they are cut into frames. */
  predicate Faithful(m: CharModel, data: seq<Byte>) {
    m.UnsignedChar? || Ascii(data)
  }

  /** With unsigned char every write is safe; with signed char, every seven-bit one. */
  lemma {:induction false} UnsignedOrAsciiIsSafe(m: CharModel, data: seq<Byte>, i: nat)
    requires i <= |data|
    requires Faithful(m, data)
    ensures SafeFrom(m, data, i)
    decreases |data| - i
  {
    if |data| - i > FRAME_BYTES {
      UnsignedOrAsciiIsSafe(m, data, i + FRAME_BYTES);
    }
  }

  /** A signed-char build corrupts every two-byte write of a byte from 0x80 on and a byte other than
      0xFF: the first floods the second. */
  lemma SignedCharCorrupts(c: Byte, d: Byte, past: seq<Byte>)
    requires c >= 0x80 && d != 0xFF
    ensures Decode(FramesFrom(SignedChar, [c, d], 0, past)) == [c, 0xFF]
    ensures Decode(FramesFrom(SignedChar, [c, d], 0, past)) != [c, d]
  {
    var data: seq<Byte> := [c, d];
    DecodedStream(SignedChar, data, 0, past);
    assert data[0..FrameEnd(data, 0)] == data;
    assert Smears(SignedChar, data[0]) && Overwritten(SignedChar, data, 1) && !Overwritten(SignedChar, data, 0);
  }

  /** All frames but the last carry seven bytes, and the last carries what is left. */
  lemma FrameSizes(m: CharModel, data: seq<Byte>, past: seq<Byte>, k: nat)
    requires k < |FramesFrom(m, data, 0, past)|
    ensures DecodeFrame(FramesFrom(m, data, 0, past)[k]) == Received(m, data[7 * k..FrameEnd(data, 7 * k)])
    ensures FrameEnd(data, 7 * k) - 7 * k ==
      if k < |FramesFrom(m, data, 0, past)| - 1 then FRAME_BYTES else |data| - 7 * k
  {
    FrameCarriesGroup(m, data, 7 * k, past, past);
  }

  // ----- any sequence of frames -----

  lemma DecodeAppend(fs: seq<Frame>, f: Frame)
    ensures Decode(fs + [f]) == Decode(fs) + DecodeFrame(f)
  {
    DecodeConcat(fs, [f]);
    assert [f][1..] == [];
    assert Decode([f]) == DecodeFrame(f) + [];
  }

  /** Groups of bytes, one behind the other. */
  function Flat(groups: seq<seq<Byte>>): seq<Byte> {
    if groups == [] then [] else Flat(groups[..|groups| - 1]) + groups[|groups| - 1]
  }

  /** Each frame carries its own group, as far as the build lets it through. */
  predicate Carries(m: CharModel, fs: seq<Frame>, groups: seq<seq<Byte>>) {
    && |groups| == |fs|
    && forall k :: 0 <= k < |fs| ==> DecodeFrame(fs[k]) == Received(m, groups[k])
  }

  predicate AllSafe(m: CharModel, groups: seq<seq<Byte>>) {
    forall k :: 0 <= k < |groups| ==> FrameSafe(m, groups[k])
  }

  /** Byte for byte the same, except that a signed-char build may put 0xFF for a byte. */
  predicate SameOrFlooded(m: CharModel, received: seq<Byte>, sent: seq<Byte>) {
    && |received| == |sent|
    && forall i :: 0 <= i < |sent| ==> received[i] == sent[i] || (m.SignedChar? && received[i] == 0xFF)
  }

  lemma FlatAppend(groups: seq<seq<Byte>>, group: seq<Byte>)
    ensures Flat(groups + [group]) == Flat(groups) + group
  {
    assert (groups + [group])[..|groups|] == groups;
  }

  lemma {:induction false} FlatPrefix(groups: seq<seq<Byte>>, n: nat)
    requires n <= |groups|
    ensures Flat(groups[..n]) <= Flat(groups)
  {
    if n < |groups| {
      var shorter := groups[..|groups| - 1];
      FlatPrefix(shorter, n);
      assert shorter[..n] == groups[..n];
    } else {
      assert groups[..n] == groups;
    }
  }

  lemma ReceivedIsSameOrFlooded(m: CharModel, group: seq<Byte>)
    ensures SameOrFlooded(m, Received(m, group), group)
  {
  }

  /** The decoded stream against the groups carried: no byte missing, added or out of place, and the
      very same bytes exactly when all groups are safe. */
  lemma {:induction false} CarriedStream(m: CharModel, fs: seq<Frame>, groups: seq<seq<Byte>>)
    requires Carries(m, fs, groups)
    ensures SameOrFlooded(m, Decode(fs), Flat(groups))
    ensures Decode(fs) == Flat(groups) <==> AllSafe(m, groups)
  {
    if fs != [] {
      var n := |fs| - 1;
      var heard, sent := Decode(fs[..n]), Flat(groups[..n]);
      assert fs[..n] + [fs[n]] == fs;
      CarriedStream(m, fs[..n], groups[..n]);
      DecodeAppend(fs[..n], fs[n]);
      ReceivedIsSameOrFlooded(m, groups[n]);
      ReceivedIntactIffSafe(m, groups[n]);
      SplitEqual(heard, DecodeFrame(fs[n]), sent, groups[n]);
      assert AllSafe(m, groups) <==> AllSafe(m, groups[..n]) && FrameSafe(m, groups[n]);
    }
  }

  lemma {:induction false} FaithfulGroupsAreSafe(m: CharModel, groups: seq<seq<Byte>>)
    requires Faithful(m, Flat(groups))
    ensures AllSafe(m, groups)
  {
    if groups != [] {
      var n := |groups| - 1;
      assert Flat(groups) == Flat(groups[..n]) + groups[n];
      if m.SignedChar? {
        assert forall k :: 0 <= k < |groups[n]| ==> groups[n][k] == Flat(groups)[|Flat(groups[..n])| + k];
        assert forall k :: 0 <= k < |Flat(groups[..n])| ==> Flat(groups[..n])[k] == Flat(groups)[k];
      }
      FaithfulGroupsAreSafe(m, groups[..n]);
    }
  }

  // ----- the port -----

  lemma PostedThen(before: seq<Frame>, f: Frame, rest: seq<Frame>)
    ensures before + ([f] + rest) == before + [f] + rest
  {
  }

  /** DATA0 and DATA1, with the frames the host has taken so far. */
  class Port {
    var data0: Word
    var data1: Word
    ghost var taken: seq<Frame>

    /** Frames posted and not lost: those taken, then the one still in the mailbox. */
    ghost function Posted(): seq<Frame>
      reads this
    {
      taken + if data0 != ZERO then [Frame(data0, data1)] else []
    }

    constructor ()
      ensures Posted() == [] && data0 == ZERO
    {
      data0, data1 := ZERO, ZERO;
      taken := [];
    }

    /** SDI_Printf_Enable: the mailbox starts empty. */
    method Enable()
      modifies this
      ensures data0 == ZERO && data1 == old(data1) && taken == old(taken)
    {
      data0 := ZERO;
    }

    /** The busy wait of _write: it ends when the host has emptied the mailbox. */
    method AwaitEmpty()
      modifies this
      ensures data0 == ZERO && data1 == old(data1) && Posted() == old(Posted()) == taken
    {
      if data0 != ZERO {
        taken := taken + [Frame(data0, data1)];
        data0 := ZERO;
      }
    }

    /** _write: nothing already posted is lost, and exactly the frames of the data follow. A
        write of size zero leaves its frame in the words; the host sees it only if DATA0 is
        nonzero. */
    method Write(m: CharModel, data: seq<Byte>, past: seq<Byte>) returns (size: nat)
      modifies this
      ensures size == |data|
      ensures data != [] ==> Posted() == old(Posted()) + FramesFrom(m, data, 0, past)
      ensures data == [] ==> taken == old(Posted()) && [Frame(data0, data1)] == FramesFrom(m, [], 0, past)
    {
      var i, writeSize := 0, |data|;
      size := |data|;
      var again := true;
      while again
        invariant 0 <= i <= |data|
        invariant writeSize == if again then |data| - i else 0
        invariant again ==> data == [] || i < |data|
        invariant data != [] ==>
          Posted() + (if again then FramesFrom(m, data, i, past) else [])
            == old(Posted()) + FramesFrom(m, data, 0, past)
        invariant data == [] ==> if again then Posted() == old(Posted())
          else taken == old(Posted()) && [Frame(data0, data1)] == FramesFrom(m, data, 0, past)
        decreases again, writeSize
      {
        AwaitEmpty();
        FramesStep(m, data, i, past);
        FrameCarriesGroup(m, data, i, past, past);
        data1 := Data1At(m, data, i, past);
        if writeSize > FRAME_BYTES {
          data0 := Word0(m, 7, Peek(data, i, past), Peek(data, i + 1, past), Peek(data, i + 2, past));
          PostedThen(taken, Frame(data0, data1), FramesFrom(m, data, i + FRAME_BYTES, past));
          i := i + FRAME_BYTES;
          writeSize := writeSize - FRAME_BYTES;
        } else {
          data0 := Word0(m, writeSize, Peek(data, i, past), Peek(data, i + 1, past), Peek(data, i + 2, past));
          PostedThen(taken, Frame(data0, data1), []);
          writeSize := 0;
        }
        again := writeSize != 0;
      }
    }
  }
}
