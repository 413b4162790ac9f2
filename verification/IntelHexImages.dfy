/** The parser and guard of module IntelHex against an encoder: images written from the addresses and
    bytes that they are meant to hold. */
module IntelHexImages {
  import opened Machine
  import opened IntelHex

  // ----- one record -----

  /** A record line: length, offset with the high byte first, type, data, checksum. */
  function Encode(offset: nat, kind: Byte, data: seq<Byte>, checksum: Byte): seq<Byte>
    requires offset < 0x1_0000 && |data| < 0x100
  {
    [|data|, offset / 0x100, offset % 0x100, kind] + data + [checksum]
  }

  lemma EncodedFields(offset: nat, kind: Byte, data: seq<Byte>, checksum: Byte)
    requires offset < 0x1_0000 && |data| < 0x100
    ensures var bytes := Encode(offset, kind, data, checksum);
      && |bytes| == |data| + 5 && bytes[0] == |data| && bytes[1] == offset / 0x100 && bytes[2] == offset % 0x100
      && bytes[3] == kind && bytes[4..|bytes| - 1] == data
  {
  }

  /** Reading back what was encoded: same offset, type and data; it ends the file exactly for type 1,
      and has a fault exactly if it is a linear base of the wrong length. */
  lemma RecordRoundTrip(offset: nat, kind: Byte, data: seq<Byte>, checksum: Byte)
    requires offset < 0x1_0000 && |data| < 0x100
    ensures var bytes := Encode(offset, kind, data, checksum);
      && |bytes| >= 5 && RecordOf(bytes) == Record(offset, kind, data)
      && ProblemOf(Payload(bytes)) == (if kind == 4 && |data| != 2 then Some(InvalidLinearAddress) else None)
      && (EndsFile(Payload(bytes)) <==> kind == 1)
      && (HasBytes(Payload(bytes)) <==> kind == 0 && data != [])
  {
    EncodedFields(offset, kind, data, checksum);
  }

  /** Every payload without a fault is such an encoding, and every other one has a fault: too short, a
      length byte that is not the data's length, or a linear base of the wrong length. Blank lines
      are no fault, and lines without colon or hex text are. */
  lemma SoundIffEncoded(bytes: seq<Byte>)
    ensures ProblemOf(Payload(bytes)) == None <==>
      exists offset: nat, kind: Byte, data: seq<Byte>, checksum: Byte ::
        IsEncoding(bytes, offset, kind, data, checksum) && (kind == 4 ==> |data| == 2)
    ensures ProblemOf(Payload(bytes)) == Some(Truncated) <==> |bytes| < 5
    ensures ProblemOf(Payload(bytes)) == Some(LengthMismatch) <==> |bytes| >= 5 && bytes[0] != |bytes| - 5
    ensures ProblemOf(Blank) == None && ProblemOf(NoColon) == Some(InvalidRecord)
    ensures ProblemOf(NotHex) == Some(UndecodableText)
  {
    if ProblemOf(Payload(bytes)) == None {
      var offset: nat, data := (bytes[1] as int) * 0x100 + bytes[2], bytes[4..|bytes| - 1];
      assert bytes == [bytes[0], bytes[1], bytes[2], bytes[3]] + data + [bytes[|bytes| - 1]];
      assert IsEncoding(bytes, offset, bytes[3], data, bytes[|bytes| - 1]);
    }
    if offset: nat, kind: Byte, data: seq<Byte>, checksum: Byte :|
      IsEncoding(bytes, offset, kind, data, checksum) && (kind == 4 ==> |data| == 2)
    {
      RecordRoundTrip(offset, kind, data, checksum);
    }
  }

  predicate IsEncoding(bytes: seq<Byte>, offset: nat, kind: Byte, data: seq<Byte>, checksum: Byte) {
    offset < 0x1_0000 && |data| < 0x100 && bytes == Encode(offset, kind, data, checksum)
  }

  // ----- a whole image -----

  /** Bytes to be placed from a 32-bit address on. */
  datatype Piece = Piece(address: nat, data: seq<Byte>)

  predicate Fits(piece: Piece) {
    1 <= |piece.data| < 0x100 && piece.address + |piece.data| <= 0x1_0000_0000
  }

  /** A linear base record with the upper half of the address, then the data record. */
  function BaseLine(piece: Piece, checksum: Byte): Line
    requires Fits(piece)
  {
    var upper := piece.address / 0x1_0000;
    Payload(Encode(0, 4, [upper / 0x100, upper % 0x100], checksum))
  }

  function DataLine(piece: Piece, checksum: Byte): Line
    requires Fits(piece)
  {
    Payload(Encode(piece.address % 0x1_0000, 0, piece.data, checksum))
  }

  /** The image of these pieces, without its end-of-file record. */
  function Body(pieces: seq<Piece>, checksum: Byte): seq<Line>
    requires forall piece :: piece in pieces ==> Fits(piece)
  {
    if pieces == [] then []
    else
      var last := pieces[|pieces| - 1];
      Body(pieces[..|pieces| - 1], checksum) + [BaseLine(last, checksum)] + [DataLine(last, checksum)]
  }

  function Image(pieces: seq<Piece>, checksum: Byte, behind: seq<Line>): seq<Line>
    requires forall piece :: piece in pieces ==> Fits(piece)
  {
    Body(pieces, checksum) + [Payload(Encode(0, 1, [], checksum))] + behind
  }

  function LastAddress(piece: Piece): nat
    requires Fits(piece)
  {
    piece.address + |piece.data| - 1
  }

  /** The greatest address that any piece covers. */
  function Greatest(pieces: seq<Piece>): Option<nat>
    requires forall piece :: piece in pieces ==> Fits(piece)
  {
    if pieces == [] then None
    else
      var last := pieces[|pieces| - 1];
      assert last in pieces;
      Later(Greatest(pieces[..|pieces| - 1]), LastAddress(last))
  }

  lemma BaseLineCounts(done: seq<Line>, base: nat, m: Option<nat>, piece: Piece, checksum: Byte)
    requires Fits(piece) && Counted(done, base, m)
    ensures Counted(done + [BaseLine(piece, checksum)], piece.address - piece.address % 0x1_0000, m)
    ensures !EndsFile(BaseLine(piece, checksum))
  {
    var upper := piece.address / 0x1_0000;
    RecordRoundTrip(0, 4, [upper / 0x100, upper % 0x100], checksum);
    CountedNext(done, BaseLine(piece, checksum), base, m);
  }

  lemma DataLineCounts(done: seq<Line>, m: Option<nat>, piece: Piece, checksum: Byte)
    requires Fits(piece) && Counted(done, piece.address - piece.address % 0x1_0000, m)
    ensures Counted(done + [DataLine(piece, checksum)], piece.address - piece.address % 0x1_0000,
                    Later(m, LastAddress(piece)))
    ensures !EndsFile(DataLine(piece, checksum))
  {
    RecordRoundTrip(piece.address % 0x1_0000, 0, piece.data, checksum);
    CountedNext(done, DataLine(piece, checksum), piece.address - piece.address % 0x1_0000, m);
  }

  lemma {:induction false} BodyCounts(pieces: seq<Piece>, checksum: Byte) returns (base: nat)
    requires forall piece :: piece in pieces ==> Fits(piece)
    ensures Counted(Body(pieces, checksum), base, Greatest(pieces))
    ensures forall line :: line in Body(pieces, checksum) ==> !EndsFile(line)
  {
    base := 0;
    if pieces != [] {
      var before, last := pieces[..|pieces| - 1], pieces[|pieces| - 1];
      var b := BodyCounts(before, checksum);
      BaseLineCounts(Body(before, checksum), b, Greatest(before), last, checksum);
      DataLineCounts(Body(before, checksum) + [BaseLine(last, checksum)], Greatest(before), last, checksum);
      base := last.address - last.address % 0x1_0000;
    }
  }

  /** Whatever lies behind the end-of-file record, the parser reads exactly the pieces. */
  lemma ImageIsRead(pieces: seq<Piece>, checksum: Byte, behind: seq<Line>)
    requires forall piece :: piece in pieces ==> Fits(piece)
    ensures Read(Image(pieces, checksum, behind)) == Body(pieces, checksum)
    ensures Clean(Body(pieces, checksum)) && IsMaxAddress(Body(pieces, checksum), Greatest(pieces))
  {
    var body, lines := Body(pieces, checksum), Image(pieces, checksum, behind);
    var base := BodyCounts(pieces, checksum);
    RecordRoundTrip(0, 1, [], checksum);
    forall i | 0 <= i < |body| ensures !EndsFile(lines[i]) {
      assert lines[i] == body[i] && body[i] in body;
    }
    ReadIs(lines, |body|);
    assert lines[..|body|] == body;
  }

  /** Some piece holds a byte at or above the limit. */
  predicate Reaches(pieces: seq<Piece>, limit: nat) {
    exists piece :: piece in pieces && piece.address + |piece.data| > limit
  }

  lemma ReachesAppend(pieces: seq<Piece>, piece: Piece, limit: nat)
    ensures Reaches(pieces + [piece], limit) <==> Reaches(pieces, limit) || piece.address + |piece.data| > limit
  {
    assert piece in pieces + [piece];
    if Reaches(pieces, limit) {
      var other :| other in pieces && other.address + |other.data| > limit;
      assert other in pieces + [piece];
    }
  }

  lemma {:induction false} GreatestReaches(pieces: seq<Piece>, limit: nat)
    requires forall piece :: piece in pieces ==> Fits(piece)
    ensures Greatest(pieces).Some? && Greatest(pieces).value >= limit <==> Reaches(pieces, limit)
  {
    if pieces != [] {
      var before, last := pieces[..|pieces| - 1], pieces[|pieces| - 1];
      GreatestReaches(before, limit);
      ReachesAppend(before, last, limit);
      assert pieces == before + [last] && last in pieces;
    }
  }

  // ----- what the image means -----

  /** One line more denotes its own bytes more. */
  lemma DenotesOneMore(lines: seq<Line>, line: Line, address: nat)
    requires Clean(lines) && ProblemOf(line) == None
    ensures Clean(lines + [line])
    ensures Denotes(lines + [line], address)
      <==> Denotes(lines, address) || LineDenotes(BaseAfter(lines), line, address)
  {
    var longer := lines + [line];
    assert longer[..|lines|] == lines;
    assert forall i :: 0 <= i < |lines| ==> longer[i] == lines[i] && longer[..i] == lines[..i];
    if Denotes(longer, address) {
      var i: nat, k: nat :| PutsByte(longer, i, k, address);
      assert i < |lines| ==> PutsByte(lines, i, k, address);
    }
    if Denotes(lines, address) {
      var i: nat, k: nat :| PutsByte(lines, i, k, address);
      assert PutsByte(longer, i, k, address);
    }
    if LineDenotes(BaseAfter(lines), line, address) {
      var k: nat :| k < |RecordOf(line.bytes).data| && address == AddressOf(BaseAfter(lines), RecordOf(line.bytes), k);
      assert PutsByte(longer, |lines|, k, address);
    }
  }

  predicate LineDenotes(mode: Base, line: Line, address: nat) {
    IsData(line) &&
    exists k: nat :: k < |RecordOf(line.bytes).data| && address == AddressOf(mode, RecordOf(line.bytes), k)
  }

  predicate Covers(piece: Piece, address: nat) {
    piece.address <= address < piece.address + |piece.data|
  }

  lemma PieceDenotes(lines: seq<Line>, piece: Piece, checksum: Byte, address: nat)
    requires Clean(lines) && Fits(piece)
    ensures var longer := lines + [BaseLine(piece, checksum)] + [DataLine(piece, checksum)];
      Clean(longer) && (Denotes(longer, address) <==> Denotes(lines, address) || Covers(piece, address))
  {
    var upper, base, data := piece.address / 0x1_0000, BaseLine(piece, checksum), DataLine(piece, checksum);
    RecordRoundTrip(0, 4, [upper / 0x100, upper % 0x100], checksum);
    RecordRoundTrip(piece.address % 0x1_0000, 0, piece.data, checksum);
    DenotesOneMore(lines, base, address);
    DenotesOneMore(lines + [base], data, address);
    assert (lines + [base])[..|lines|] == lines;
    assert BaseAfter(lines + [base]) == Linear(upper * 0x1_0000);
    DataDenotes(piece, checksum, address);
  }

  lemma DataDenotes(piece: Piece, checksum: Byte, address: nat)
    requires Fits(piece)
    ensures LineDenotes(Linear(piece.address / 0x1_0000 * 0x1_0000), DataLine(piece, checksum), address)
      <==> Covers(piece, address)
  {
    RecordRoundTrip(piece.address % 0x1_0000, 0, piece.data, checksum);
    var mode, r := Linear(piece.address / 0x1_0000 * 0x1_0000), RecordOf(DataLine(piece, checksum).bytes);
    assert forall k: nat :: k < |piece.data| ==> AddressOf(mode, r, k) == piece.address + k;
    if Covers(piece, address) {
      assert address == AddressOf(mode, r, address - piece.address);
    }
  }

  predicate Covered(pieces: seq<Piece>, address: nat) {
    exists piece :: piece in pieces && Covers(piece, address)
  }

  lemma CoveredAppend(pieces: seq<Piece>, piece: Piece, address: nat)
    ensures Covered(pieces + [piece], address) <==> Covered(pieces, address) || Covers(piece, address)
  {
    assert piece in pieces + [piece];
    if Covered(pieces, address) {
      var other :| other in pieces && Covers(other, address);
      assert other in pieces + [piece];
    }
  }

  /** Round trip of a whole image: what it denotes is exactly what the pieces cover. */
  lemma {:induction false} ImageDenotesPieces(pieces: seq<Piece>, checksum: Byte, address: nat)
    requires forall piece :: piece in pieces ==> Fits(piece)
    ensures Clean(Body(pieces, checksum))
    ensures Denotes(Body(pieces, checksum), address) <==> Covered(pieces, address)
  {
    if pieces != [] {
      var before, last := pieces[..|pieces| - 1], pieces[|pieces| - 1];
      assert pieces == before + [last] && last in pieces;
      ImageDenotesPieces(before, checksum, address);
      PieceDenotes(Body(before, checksum), last, checksum, address);
      CoveredAppend(before, last, address);
    }
  }

  /** The guard from end to end: for every image written from pieces of memory, with anything behind its
      end-of-file record, flashing is refused if and only if a piece reaches 0x08028000. */
  method InspectImage(pieces: seq<Piece>, checksum: Byte, behind: seq<Line>) returns (v: Verdict)
    requires forall piece :: piece in pieces ==> Fits(piece)
    ensures v == if Reaches(pieces, 0x0802_8000) then Refuse else Flash
  {
    v := Inspect(Image(pieces, checksum, behind));
    ImageIsRead(pieces, checksum, behind);
    GuardExact(Image(pieces, checksum, behind), Greatest(pieces));
    GreatestReaches(pieces, 0x0802_8000);
  }
}
