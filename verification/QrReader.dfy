/** A reader of intact symbols, written from ISO/IEC 18004 section 12, and what it makes of an encoded one. */
module QrReader {
  import opened Bits
  import opened Bitwise
  import opened Bch
  import opened Interleave
  import opened QrData
  import opened QrGrid
  import opened QrLayout
  import opened QrPlacement
  import opened QrStandard
  import opened QrSymbol
  import opened Wrappers
  import opened Zigzag

  // ---- the reader ----

  /** Where bit `i` of the format information stands, in the copy along column 8 or in the one along row 8. */
  function FormatCell(size: nat, alongColumn: bool, i: nat): Coord {
    if alongColumn then
      (if i < 6 then (i, 8) else if i < 8 then (i + 1, 8) else (size - 15 + i, 8))
    else
      (if i < 8 then (8, size - 1 - i) else if i == 8 then (8, 7) else (8, 14 - i))
  }

  function FormatBitsRead(m: Matrix, alongColumn: bool): (bits: seq<bool>)
    ensures |bits| == 15
  {
    seq(15, i requires 0 <= i < 15 => DarkAt(m, FormatCell(|m|, alongColumn, 14 - i)))
  }

  /** The eight modules of codeword `k`, with the mask taken off. */
  function CodewordBits(m: Matrix, cells: seq<Coord>, mask: nat, k: nat): (bits: seq<bool>)
    requires 8 * k + 8 <= |cells| && AllInGrid(|m|, cells)
    ensures |bits| == 8
  {
    seq(8, j requires 0 <= j < 8 =>
      DarkAt(m, cells[8 * k + j]) != Inverted(mask, cells[8 * k + j].0, cells[8 * k + j].1))
  }

  function ByteOf(bits: seq<bool>): byte
    requires |bits| == 8
  {
    ValueRoundTrip(bits);
    assert Pow2(8) == 256;
    ValueOf(bits)
  }

  function CodewordsIn(m: Matrix, cells: seq<Coord>, mask: nat): (codewords: seq<byte>)
    requires AllInGrid(|m|, cells)
    ensures |codewords| == |cells| / 8
  {
    seq(|cells| / 8, k requires 0 <= k < |cells| / 8 => ByteOf(CodewordBits(m, cells, mask, k)))
  }

  lemma {:induction false} CellsInGrid(version: nat)
    requires IsVersion(version)
    ensures AllInGrid(Size(version), DataCells(version))
  {
    DataCellsAre(version);
    forall k | 0 <= k < |DataCells(version)|
      ensures InGrid(Size(version), DataCells(version)[k])
    {
      assert DataCells(version)[k] in DataCells(version);
    }
  }

  ghost function ReadData(m: Matrix, version: nat, level: EccLevel, mask: nat): Option<seq<nat>>
    requires IsVersion(version) && |m| == Size(version)
  {
    CellsInGrid(version);
    var codewords := CodewordsIn(m, DataCells(version), mask);
    var (blocks, ec) := BlocksOf(version, level);
    match ReadStream(codewords, BlockLengths(|codewords|, blocks, ec), ec)
    case None => None
    case Some(data) => ReadPayload(data, version)
  }

  /**
   * Version from the size, level and mask from either copy of the format information, then the data. A symbol that lacks one
   * of the fixed patterns, or whose version or format information is not protected as it should be, is not read at all.
   */
  ghost function ReadQr(m: Matrix, alongColumn: bool): Option<seq<nat>> {
    ReadWith(m, VersionOfSize(|m|), ValueOf(FormatBitsRead(m, alongColumn)))
  }

  ghost function ReadWith(m: Matrix, version: Option<nat>, formatBits: nat): Option<seq<nat>>
    requires version.Some? ==> IsVersion(version.value) && |m| == Size(version.value)
  {
    if version.None? || !ShowsPatterns(m, version.value) || !IsFormatWord(formatBits) then None else
      var (level, mask) := ReadFormat(formatBits);
      ReadData(m, version.value, level, mask)
  }

  /** With its mask taken off, a multiple of the generator of annex C, for level L or M. */
  ghost predicate IsFormatWord(formatBits: nat) {
    var word := Xor(formatBits, 0x5412);
    Protected(word, word / 1024, 0x537, 10) && word / 8192 <= 1
  }

  function VersionOfSize(size: nat): (r: Option<nat>)
    ensures r.Some? ==> IsVersion(r.value) && Size(r.value) == size
    ensures r.None? ==> forall v: nat :: IsVersion(v) ==> Size(v) != size
  {
    if size >= 21 && size <= 57 && size % 4 == 1 then Some((size - 17) / 4) else None
  }

  // ---- what it reads ----

  /** The writer's table of cells and the reader's agree on every bit of both copies. */
  lemma {:induction false} FormatCells(size: nat, alongColumn: bool, i: nat)
    requires size >= 21 && i < 15
    ensures var c := FormatCell(size, alongColumn, i); In(size, c.0, c.1) && FormatIndex(size, c.0, c.1) == i
  {
  }

  lemma {:induction false} FormatWordRead(m: Matrix, size: nat, level: EccLevel, mask: nat, bits: nat, alongColumn: bool)
    requires size >= 21 && IsSquare(m, size) && HasFormat(m, size, level, mask, bits)
    ensures ValueOf(FormatBitsRead(m, alongColumn)) == bits
  {
    forall i | 0 <= i < 15
      ensures FormatBitsRead(m, alongColumn)[i] == BitsOf(bits, 15)[i]
    {
      FormatCells(size, alongColumn, 14 - i);
      BitsOfIndex(bits, 15, i);
    }
    assert FormatBitsRead(m, alongColumn) == BitsOf(bits, 15);
    Pow2Values();
    BitsRoundTrip(bits, 15);
  }

  ghost predicate HoldsStream(m: Matrix, cells: seq<Coord>, mask: nat, stream: seq<byte>)
    requires AllInGrid(|m|, cells)
  {
    forall k :: 0 <= k < |cells| ==>
      (DarkAt(m, cells[k]) == (StreamBit(stream, k) != MaskAt(mask, cells[k].0, cells[k].1)))
  }

  lemma {:induction false} StreamBitIs(stream: seq<byte>, k: nat, j: nat)
    requires k < |stream| && j < 8
    ensures StreamBit(stream, 8 * k + j) == BitsOf(stream[k], 8)[j]
  {
    ByteAndBit(k, j);
    BitsOfIndex(stream[k], 8, j);
  }

  lemma {:induction false} ByteBack(b: byte)
    ensures ByteOf(BitsOf(b, 8)) == b
  {
    assert Pow2(8) == 256;
    BitsRoundTrip(b, 8);
  }

  lemma {:induction false} CodewordRead(m: Matrix, cells: seq<Coord>, mask: nat, stream: seq<byte>, k: nat)
    requires 8 * k + 8 <= |cells| && AllInGrid(|m|, cells) && HoldsStream(m, cells, mask, stream) && k < |stream|
    ensures ByteOf(CodewordBits(m, cells, mask, k)) == stream[k]
  {
    var bits, expected := CodewordBits(m, cells, mask, k), BitsOf(stream[k], 8);
    forall j | 0 <= j < 8
      ensures bits[j] == expected[j]
    {
      StreamBitIs(stream, k, j);
      MaskIs(mask, cells[8 * k + j].0, cells[8 * k + j].1);
    }
    assert bits == expected;
    ByteBack(stream[k]);
  }

  lemma {:induction false} ByteAndBit(k: nat, j: nat)
    requires j < 8
    ensures (8 * k + j) / 8 == k && (8 * k + j) % 8 == j
  {
  }

  /** The stream comes first, then whatever the cells left over spell. */
  lemma {:induction false} StreamRead(m: Matrix, cells: seq<Coord>, mask: nat, stream: seq<byte>) returns (rest: seq<byte>)
    requires AllInGrid(|m|, cells) && HoldsStream(m, cells, mask, stream) && 8 * |stream| <= |cells|
    ensures CodewordsIn(m, cells, mask) == stream + rest
  {
    var codewords := CodewordsIn(m, cells, mask);
    rest := codewords[|stream|..];
    forall k | 0 <= k < |stream|
      ensures codewords[k] == stream[k]
    {
      CodewordRead(m, cells, mask, stream, k);
    }
  }

  lemma {:induction false} DataHolds(m: Matrix, version: nat, mask: nat, stream: seq<byte>)
    requires IsSquare(m, Size(version)) && AllInGrid(|m|, DataCells(version)) && HasData(m, version, mask, stream)
    ensures HoldsStream(m, DataCells(version), mask, stream)
  {
  }

  lemma {:induction false} FormatWordAccepted(bits: nat, level: EccLevel, mask: nat)
    requires mask < 8 && IsFormat(bits, level, mask)
    ensures IsFormatWord(bits)
  {
    Pow2Values();
    ShlIsProduct(LevelBits(level) * 8 + mask, 10);
  }

  // ---- the layout ----

  lemma {:induction false} OffsetRepeat(d: nat, g: nat, tail: seq<nat>, b: nat)
    requires b <= g
    ensures Offset(Repeat(d, g) + tail, b) == b * d
  {
    if b == 0 {
    } else {
      OffsetRepeat(d, g, tail, b - 1);
    }
  }

  lemma {:induction false} OffsetSecond(d1: nat, g1: nat, d2: nat, g2: nat, b: nat)
    requires b <= g2
    ensures Offset(Repeat(d1, g1) + Repeat(d2, g2), g1 + b) == g1 * d1 + b * d2
  {
    if b == 0 {
      OffsetRepeat(d1, g1, Repeat(d2, g2), g1);
    } else {
      OffsetSecond(d1, g1, d2, g2, b - 1);
    }
  }

  function Layout(version: nat, level: EccLevel): seq<nat>
    requires IsVersion(version)
  {
    var s := SpecOf(version, level);
    Repeat(s.d1, s.g1) + Repeat(s.d2, s.g2)
  }

  /** The blocks that the reader works out are those of the encoder's table. */
  lemma {:induction false} LayoutIs(version: nat, level: EccLevel)
    requires IsVersion(version)
    ensures var (blocks, ec) := BlocksOf(version, level);
      BlockLengths(|DataCells(version)| / 8, blocks, ec) == Layout(version, level) && ec == SpecOf(version, level).ec
  {
    var s, total := SpecOf(version, level), TotalCodewords(version, level);
    TableAgrees(version, level);
    RoomForCodewords(version, level);
    assert |DataCells(version)| / 8 == total;
    EvenlyDealt(total, s.ec, s.g1, s.d1, s.g2, s.d2);
  }

  lemma {:induction false} EvenlyDealt(total: nat, ec: nat, g1: nat, d1: nat, g2: nat, d2: nat)
    requires g1 + g2 > 0 && total / (g1 + g2) == d1 + ec && total % (g1 + g2) == g2 && (g2 > 0 ==> d2 == d1 + 1)
    ensures BlockLengths(total, g1 + g2, ec) == Repeat(d1, g1) + Repeat(d2, g2)
  {
  }

  function Width(version: nat, level: EccLevel): nat
    requires IsVersion(version)
  {
    var s := SpecOf(version, level);
    if s.d1 > s.d2 then s.d1 else s.d2
  }

  lemma {:induction false} LayoutTotal(version: nat, level: EccLevel)
    requires IsVersion(version)
    ensures Total(Layout(version, level)) == DataCapacity(version, level)
    ensures forall b :: 0 <= b < |Layout(version, level)| ==> Layout(version, level)[b] <= Width(version, level)
    ensures 0 < SpecOf(version, level).ec <= 30
  {
    var s := SpecOf(version, level);
    OffsetSecond(s.d1, s.g1, s.d2, s.g2, s.g2);
  }

  /** The codeword stream of a symbol. */
  function SymbolStream(codewords: seq<byte>, version: nat, level: EccLevel): seq<byte>
    requires IsVersion(version) && |codewords| == DataCapacity(version, level)
  {
    LayoutTotal(version, level);
    Stream(codewords, Layout(version, level), Width(version, level), SpecOf(version, level).ec)
  }

  lemma {:induction false} EcLengths(blocks: Blocks, ec: nat)
    requires ec > 0
    ensures HasLengths(EcBlocks(blocks, ec), Repeat(ec, |blocks|))
  {
    forall b | 0 <= b < |blocks|
      ensures |EcBlocks(blocks, ec)[b]| == ec
    {
    }
  }

  lemma {:induction false} StreamLength(data: seq<byte>, lengths: seq<nat>, width: nat, ec: nat)
    requires Total(lengths) == |data| && ec > 0 && forall b :: 0 <= b < |lengths| ==> lengths[b] <= width
    ensures |Stream(data, lengths, width, ec)| == |data| + |lengths| * ec
  {
    var blocks := Split(data, lengths);
    EcLengths(blocks, ec);
    TakesBack(blocks, lengths, width, []);
    TakesBack(EcBlocks(blocks, ec), Repeat(ec, |lengths|), ec, []);
    OffsetRepeat(ec, |lengths|, [], |lengths|);
    assert Repeat(ec, |lengths|) + [] == Repeat(ec, |lengths|);
  }

  lemma {:induction false} SymbolStreamLength(codewords: seq<byte>, version: nat, level: EccLevel)
    requires IsVersion(version) && |codewords| == DataCapacity(version, level)
    ensures |SymbolStream(codewords, version, level)| == TotalCodewords(version, level)
  {
    LayoutTotal(version, level);
    var s := SpecOf(version, level);
    StreamLength(codewords, Layout(version, level), Width(version, level), s.ec);
    Commute(|Layout(version, level)|, s.ec);
    TotalIs(version, level);
  }

  lemma {:induction false} TotalIs(version: nat, level: EccLevel)
    requires IsVersion(version)
    ensures TotalCodewords(version, level) ==
      DataCapacity(version, level) + SpecOf(version, level).ec * |Layout(version, level)|
  {
  }

  lemma {:induction false} Commute(a: nat, b: nat)
    ensures a * b == b * a
  {
  }

  // ---- the theorem ----

  lemma {:induction false} DataReadsBack(m: Matrix, version: nat, level: EccLevel, mask: nat, codewords: seq<byte>, data: seq<byte>)
    requires IsVersion(version) && IsSquare(m, Size(version)) && |codewords| == DataCapacity(version, level)
    requires HasData(m, version, mask, SymbolStream(codewords, version, level))
    requires |data| < Pow2(CountBits(version)) && Carries(codewords, data, version)
    ensures ReadData(m, version, level, mask) == Some(data)
  {
    var cells, stream := DataCells(version), SymbolStream(codewords, version, level);
    CellsInGrid(version);
    DataHolds(m, version, mask, stream);
    RoomForCodewords(version, level);
    SymbolStreamLength(codewords, version, level);
    var rest := StreamRead(m, cells, mask, stream);
    LayoutTotal(version, level);
    StreamReadsBack(codewords, Layout(version, level), Width(version, level), SpecOf(version, level).ec, rest);
    LayoutIs(version, level);
    PayloadReadsBack(codewords, data, version);
  }

  /** A symbol that carries the payload is read back to exactly that payload, through either format copy. */
  lemma {:induction false} SymbolReadsBack(m: Matrix, version: nat, level: EccLevel, mask: nat, formatBits: nat,
                        versionBits: nat, codewords: seq<byte>, data: seq<byte>, alongColumn: bool)
    requires IsVersion(version) && IsSquare(m, Size(version)) && mask < 8 && HasPatterns(m, version, versionBits)
    requires HasFormat(m, Size(version), level, mask, formatBits)
    requires |codewords| == DataCapacity(version, level) && HasData(m, version, mask, SymbolStream(codewords, version, level))
    requires |data| < Pow2(CountBits(version)) && Carries(codewords, data, version)
    ensures ReadQr(m, alongColumn) == Some(data)
  {
    FormatWordRead(m, Size(version), level, mask, formatBits, alongColumn);
    FormatReadsBack(formatBits, level, mask);
    FormatWordAccepted(formatBits, level, mask);
    PatternsShown(m, version, versionBits);
    assert VersionOfSize(|m|) == Some(version);
    DataReadsBack(m, version, level, mask, codewords, data);
  }
}
