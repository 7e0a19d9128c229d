/** What a symbol looks like by the figures and tables of ISO/IEC 18004, written apart from the encoder's, for a reader to go by. */
module QrStandard {
  import opened Bch
  import opened Bits
  import opened Bitwise
  import opened QrData
  import opened QrGrid
  import opened QrLayout
  import opened QrPlacement
  import opened QrSymbol
  import opened Zigzag

  predicate DarkAt(m: Matrix, c: Coord) {
    0 <= c.0 < |m| && 0 <= c.1 < |m[c.0]| && m[c.0][c.1]
  }

  // ---- the mask patterns, section 7.8.2 ----

  /** Whether the mask inverts the module at this row and column. */
  predicate Inverted(mask: nat, row: nat, col: nat) {
    match mask
    case 0 => row % 2 == col % 2
    case 1 => row % 2 == 0
    case 2 => col % 3 == 0
    case 3 => (row + col) % 3 == 0
    case 4 => row % 4 < 2 <==> col % 6 < 3
    case 5 => (row * col) % 6 == 0
    case 6 => (row * col) % 2 == 0 <==> (row * col) % 3 != 1
    case _ => row % 2 == col % 2 <==> (row * col) % 3 != 1
  }

  /** The encoder's formulas say the same everywhere. */
  lemma {:induction false} MaskIs(mask: nat, row: nat, col: nat)
    ensures MaskAt(mask, row, col) <==> Inverted(mask, row, col)
  {
    match mask
    case 0 => SameParity(row, col);
    case 1 =>
    case 2 =>
    case 3 =>
    case 4 => Blocks(row, col);
    case 5 => Remainders(row * col);
    case 6 => Remainders(row * col);
    case _ =>
      SameParity(row, col);
      Mixed(row + col, row * col);
  }

  lemma {:induction false} Mixed(s: nat, p: nat)
    ensures (s % 2 + p % 3) % 2 == 0 <==> (s % 2 == 0 <==> p % 3 != 1)
  {
  }

  lemma {:induction false} Remainders(p: nat)
    ensures p % 2 + p % 3 == 0 <==> p % 6 == 0
    ensures (p % 2 + p % 3) % 2 == 0 <==> (p % 2 == 0 <==> p % 3 != 1)
  {
    SixDecides(p / 6, p % 6);
    BelowSix(p % 6);
  }

  lemma {:induction false} SixDecides(q: nat, r: nat)
    ensures (6 * q + r) % 2 == r % 2 && (6 * q + r) % 3 == r % 3
  {
    TwoDecides(3 * q, r);
    ThreeDecides(2 * q, r);
  }

  lemma {:induction false} TwoDecides(q: nat, r: nat)
    ensures (2 * q + r) % 2 == r % 2
  {
  }

  lemma {:induction false} ThreeDecides(q: nat, r: nat)
    ensures (3 * q + r) % 3 == r % 3
  {
  }

  lemma {:induction false} BelowSix(r: nat)
    requires r < 6
    ensures r % 2 + r % 3 == 0 <==> r == 0
    ensures (r % 2 + r % 3) % 2 == 0 <==> (r % 2 == 0 <==> r % 3 != 1)
  {
    match r
    case 0 =>
    case 1 =>
    case 2 =>
    case 3 =>
    case 4 =>
    case _ =>
  }

  lemma {:induction false} SameParity(row: nat, col: nat)
    ensures (row + col) % 2 == 0 <==> row % 2 == col % 2
  {
  }

  lemma {:induction false} Blocks(row: nat, col: nat)
    ensures (row / 2 + col / 3) % 2 == 0 <==> (row % 4 < 2 <==> col % 6 < 3)
  {
    PairOfRows(row);
    ThreeColumns(col);
    SameParity(row / 2, col / 3);
  }

  lemma {:induction false} PairOfRows(row: nat)
    ensures row / 2 % 2 == 0 <==> row % 4 < 2
  {
  }

  lemma {:induction false} ThreeColumns(col: nat)
    ensures col / 3 % 2 == 0 <==> col % 6 < 3
  {
  }

  // ---- the blocks of codewords, table 9 ----

  /** How many blocks there are, and the error-correction codewords in each. */
  function BlocksOf(version: nat, level: EccLevel): (r: (nat, nat))
    ensures r.0 > 0
  {
    match level
    case L =>
      (match version
       case 1 => (1, 7) case 2 => (1, 10) case 3 => (1, 15) case 4 => (1, 20) case 5 => (1, 26)
       case 6 => (2, 18) case 7 => (2, 20) case 8 => (2, 24) case 9 => (2, 30) case _ => (4, 18))
    case M =>
      (match version
       case 1 => (1, 10) case 2 => (1, 16) case 3 => (1, 26) case 4 => (2, 18) case 5 => (2, 24)
       case 6 => (4, 16) case 7 => (4, 18) case 8 => (4, 22) case 9 => (5, 22) case _ => (5, 26))
  }

  /** The codewords dealt out evenly, the longer blocks last. */
  function BlockLengths(total: nat, blocks: nat, ec: nat): (lengths: seq<nat>)
    requires blocks > 0
    ensures |lengths| == blocks
  {
    var short := if total / blocks < ec then 0 else total / blocks - ec;
    seq(blocks, b requires 0 <= b < blocks => if b < blocks - total % blocks then short else short + 1)
  }

  lemma {:induction false} TableAgrees(version: nat, level: EccLevel)
    requires IsVersion(version)
    ensures var s, total, n := SpecOf(version, level), TotalCodewords(version, level), BlocksOf(version, level).0;
      && BlocksOf(version, level) == (s.g1 + s.g2, s.ec)
      && total / n == s.d1 + s.ec && total % n == s.g2 && (s.g2 > 0 ==> s.d2 == s.d1 + 1)
  {
    match version
    case 1 =>
    case 2 =>
    case 3 =>
    case 4 =>
    case 5 =>
    case 6 =>
    case 7 =>
    case 8 =>
    case 9 =>
    case _ =>
  }

  /** How many bytes a symbol holds in byte mode (table 7). */
  function ByteCapacity(version: nat, level: EccLevel): nat {
    match level
    case L =>
      (match version
       case 1 => 17 case 2 => 32 case 3 => 53 case 4 => 78 case 5 => 106
       case 6 => 134 case 7 => 154 case 8 => 192 case 9 => 230 case _ => 271)
    case M =>
      (match version
       case 1 => 14 case 2 => 26 case 3 => 42 case 4 => 62 case 5 => 84
       case 6 => 106 case 7 => 122 case 8 => 152 case 9 => 180 case _ => 213)
  }

  /** The encoder takes a payload for a version exactly up to that many bytes. */
  lemma {:induction false} FitsIs(byteLength: nat, version: nat, level: EccLevel)
    requires IsVersion(version)
    ensures Fits(byteLength, version, level) <==> byteLength <= ByteCapacity(version, level)
  {
    match version
    case 1 =>
    case 2 =>
    case 3 =>
    case 4 =>
    case 5 =>
    case 6 =>
    case 7 =>
    case 8 =>
    case 9 =>
    case _ =>
  }

  // ---- the fixed patterns, sections 6.3.3 to 6.3.6 ----

  /** A finder pattern and the light separator around it. */
  const FINDER: seq<string> := [
    ".........",
    ".#######.",
    ".#.....#.",
    ".#.###.#.",
    ".#.###.#.",
    ".#.###.#.",
    ".#.....#.",
    ".#######.",
    "........."]

  const ALIGNMENT: seq<string> := [
    "#####",
    "#...#",
    "#.#.#",
    "#...#",
    "#####"]

  /** The figure stands at this place, as far as it is inside the symbol. */
  ghost predicate Shown(m: Matrix, figure: seq<string>, top: int, left: int) {
    forall i, j :: 0 <= i < |figure| && 0 <= j < |figure[i]| && In(|m|, top + i, left + j) ==>
      (DarkAt(m, (top + i, left + j)) <==> figure[i][j] == '#')
  }

  ghost predicate ShowsFinders(m: Matrix) {
    Shown(m, FINDER, -1, -1) && Shown(m, FINDER, -1, |m| - 8) && Shown(m, FINDER, |m| - 8, -1)
  }

  /** Dark and light in turn between the finder patterns, and one module that is always dark. */
  ghost predicate ShowsTiming(m: Matrix) {
    && (forall i :: 8 <= i < |m| - 8 ==> (DarkAt(m, (6, i)) <==> i % 2 == 0) && (DarkAt(m, (i, 6)) <==> i % 2 == 0))
    && DarkAt(m, (|m| - 8, 8))
  }

  /** The first centre is on the timing pattern, the last seven from the edge, and any other halfway between. */
  function Centres(size: int): seq<int> {
    if size == 21 then [] else if size < 45 then [6, size - 7] else [6, (size - 1) / 2, size - 7]
  }

  predicate NearFinder(size: int, a: int, b: int) {
    (a < 10 && b < 10) || (a < 10 && b > size - 11) || (a > size - 11 && b < 10)
  }

  ghost predicate ShowsAlignment(m: Matrix) {
    forall a, b :: a in Centres(|m|) && b in Centres(|m|) && !NearFinder(|m|, a, b) ==> Shown(m, ALIGNMENT, a - 2, b - 2)
  }

  /** Where bit `i` of the version information stands: left of the upper right finder, or mirrored above the lower left one. */
  function VersionCell(size: nat, mirrored: bool, i: nat): Coord {
    if mirrored then (size - 11 + i % 3, i / 3) else (i / 3, size - 11 + i % 3)
  }

  /** The eighteen modules of one copy of the version information, the highest bit first. */
  function VersionBitsRead(m: Matrix, mirrored: bool): (bits: seq<bool>)
    ensures |bits| == 18
  {
    seq(18, k requires 0 <= k < 18 => DarkAt(m, VersionCell(|m|, mirrored, 17 - k)))
  }

  /** A multiple of the generator that begins with the value, as annexes C and D have it. */
  ghost predicate Protected(word: nat, value: nat, generator: nat, checkBits: nat) {
    word / Pow2(checkBits) == value && exists q: nat :: ClMul(q, generator) == word
  }

  ghost predicate ShowsVersion(m: Matrix, version: nat) {
    version >= 7 ==> forall mirrored :: Protected(ValueOf(VersionBitsRead(m, mirrored)), version, 0x1f25, 12)
  }

  ghost predicate ShowsPatterns(m: Matrix, version: nat) {
    ShowsFinders(m) && ShowsTiming(m) && ShowsAlignment(m) && ShowsVersion(m, version)
  }

  lemma {:induction false} FinderFigure(i: int, j: int)
    requires 0 <= i < 9 && 0 <= j < 9
    ensures FinderDark(i - 1, j - 1) <==> FINDER[i][j] == '#'
  {
    var row := FINDER[i];
    assert row == if i == 0 || i == 8 then "........." else if i == 1 || i == 7 then ".#######."
      else if i == 2 || i == 6 then ".#.....#." else ".#.###.#.";
  }

  lemma {:induction false} FinderShown(m: Matrix, top: int, left: int)
    requires |m| >= 21 && IsSquare(m, |m|)
    requires forall r, c :: In(|m|, r, c) && InFinder(top, left, r, c) ==> m[r][c] == FinderDark(r - top, c - left)
    ensures Shown(m, FINDER, top - 1, left - 1)
  {
    forall i, j | 0 <= i < 9 && 0 <= j < 9 && In(|m|, top - 1 + i, left - 1 + j)
      ensures DarkAt(m, (top - 1 + i, left - 1 + j)) <==> FINDER[i][j] == '#'
    {
      FinderFigure(i, j);
    }
    assert forall i :: 0 <= i < 9 ==> |FINDER[i]| == 9;
  }

  lemma {:induction false} FindersShown(m: Matrix)
    requires |m| >= 21 && IsSquare(m, |m|) && HasFinders(m, |m|)
    ensures ShowsFinders(m)
  {
    FinderShown(m, 0, 0);
    FinderShown(m, 0, |m| - 7);
    FinderShown(m, |m| - 7, 0);
  }

  lemma {:induction false} AlignmentFigure(i: int, j: int)
    requires 0 <= i < 5 && 0 <= j < 5
    ensures RingDark(i - 2, j - 2) <==> ALIGNMENT[i][j] == '#'
  {
    var row := ALIGNMENT[i];
    assert row == if i == 0 || i == 4 then "#####" else if i == 2 then "#.#.#" else "#...#";
  }

  lemma {:induction false} CentresAre(version: nat)
    requires IsVersion(version)
    ensures Centres(Size(version)) == Alignment(version)
    ensures forall a, b :: a in Alignment(version) && b in Alignment(version) ==>
      (NearFinder(Size(version), a, b) <==> OnFinder(Size(version), a, b))
  {
    AlignmentForm(version);
    CentresApart(version);
  }

  lemma {:induction false} PatternShown(m: Matrix, version: nat, x: int, y: int)
    requires IsVersion(version) && IsSquare(m, Size(version)) && HasAlignment(m, version)
    requires 0 <= x < |Alignment(version)| && 0 <= y < |Alignment(version)|
    requires !OnFinder(Size(version), Alignment(version)[x], Alignment(version)[y])
    ensures Shown(m, ALIGNMENT, Alignment(version)[x] - 2, Alignment(version)[y] - 2)
  {
    var a, b := Alignment(version)[x], Alignment(version)[y];
    forall i, j | 0 <= i < 5 && 0 <= j < 5 && In(|m|, a - 2 + i, b - 2 + j)
      ensures DarkAt(m, (a - 2 + i, b - 2 + j)) <==> ALIGNMENT[i][j] == '#'
    {
      AlignmentFigure(i, j);
      assert InPattern(version, x, y, a - 2 + i, b - 2 + j);
    }
    assert forall i :: 0 <= i < 5 ==> |ALIGNMENT[i]| == 5;
  }

  lemma {:induction false} AlignmentShown(m: Matrix, version: nat)
    requires IsVersion(version) && IsSquare(m, Size(version)) && HasAlignment(m, version)
    ensures ShowsAlignment(m)
  {
    CentresAre(version);
    var centres := Alignment(version);
    forall a, b | a in centres && b in centres && !NearFinder(|m|, a, b)
      ensures Shown(m, ALIGNMENT, a - 2, b - 2)
    {
      var x :| 0 <= x < |centres| && centres[x] == a;
      var y :| 0 <= y < |centres| && centres[y] == b;
      PatternShown(m, version, x, y);
    }
  }

  lemma {:induction false} VersionCellIs(size: nat, mirrored: bool, i: nat)
    requires size >= 21 && i < 18
    ensures var c := VersionCell(size, mirrored, i); In(size, c.0, c.1) && VersionIndex(size, c.0, c.1) == i
  {
  }

  lemma {:induction false} VersionBitRead(m: Matrix, version: nat, bits: nat, c: Coord, i: nat)
    requires version >= 7 && IsSquare(m, Size(version)) && HasVersion(m, version, bits)
    requires In(Size(version), c.0, c.1) && VersionIndex(Size(version), c.0, c.1) == i
    ensures DarkAt(m, c) == BitAt(bits, i)
  {
  }

  lemma {:induction false} VersionAt(m: Matrix, version: nat, bits: nat, mirrored: bool, k: nat)
    requires 7 <= version <= 10 && IsSquare(m, Size(version)) && HasVersion(m, version, bits) && k < 18
    ensures VersionBitsRead(m, mirrored)[k] == BitsOf(bits, 18)[k]
  {
    var i, c := 17 - k, VersionCell(|m|, mirrored, 17 - k);
    VersionCellIs(|m|, mirrored, i);
    VersionBitRead(m, version, bits, c, i);
    assert VersionBitsRead(m, mirrored)[k] == DarkAt(m, c) == BitAt(bits, i);
    BitIs(bits, 18, k);
  }

  lemma {:induction false} VersionWordRead(m: Matrix, version: nat, bits: nat, mirrored: bool)
    requires 7 <= version <= 10 && IsSquare(m, Size(version)) && HasVersion(m, version, bits) && bits < Pow2(18)
    ensures ValueOf(VersionBitsRead(m, mirrored)) == bits
  {
    var read := VersionBitsRead(m, mirrored);
    forall k | 0 <= k < 18
      ensures read[k] == BitsOf(bits, 18)[k]
    {
      VersionAt(m, version, bits, mirrored, k);
    }
    WordRead(read, bits, 18);
  }

  lemma {:induction false} BitIs(bits: nat, n: nat, k: nat)
    requires k < n
    ensures BitsOf(bits, n)[k] == BitAt(bits, n - 1 - k)
  {
    BitsOfIndex(bits, n, k);
  }

  lemma {:induction false} WordRead(read: seq<bool>, bits: nat, n: nat)
    requires bits < Pow2(n) && |read| == n && forall k :: 0 <= k < n ==> read[k] == BitsOf(bits, n)[k]
    ensures ValueOf(read) == bits
  {
    assert read == BitsOf(bits, n);
    BitsRoundTrip(bits, n);
  }

  lemma {:induction false} VersionWordBound(bits: nat, version: nat)
    requires version < 64 && IsBchWord(bits, version, 0x1f25, 12)
    ensures bits < Pow2(18) && bits / Pow2(12) == version
  {
    assert Pow2(6) == 64;
    assert Pow2(12) == 4096;
    assert Pow2(18) == 262144;
    ShlIsProduct(version, 12);
  }

  lemma {:induction false} VersionShown(m: Matrix, version: nat, bits: nat)
    requires IsVersion(version) && IsSquare(m, Size(version)) && HasVersion(m, version, bits)
    ensures ShowsVersion(m, version)
  {
    if version >= 7 {
      VersionWordBound(bits, version);
      VersionWordRead(m, version, bits, true);
      VersionWordRead(m, version, bits, false);
    }
  }

  /** What the encoder paints is what the figures show. */
  lemma {:induction false} PatternsShown(m: Matrix, version: nat, bits: nat)
    requires IsVersion(version) && IsSquare(m, Size(version)) && HasPatterns(m, version, bits)
    ensures ShowsPatterns(m, version)
  {
    FindersShown(m);
    AlignmentShown(m, version);
    VersionShown(m, version, bits);
  }
}
