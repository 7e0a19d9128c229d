/** A finished symbol: its fixed patterns, its format information and its data modules. */
module QrSymbol {
  import opened Bitwise
  import opened Bch
  import opened QrData
  import opened QrGrid
  import opened QrLayout
  import opened QrPlacement

  ghost predicate HasSize(m: Matrix, version: nat) {
    IsSquare(m, Size(version))
  }

  predicate In(size: nat, r: int, c: int) {
    0 <= r < size && 0 <= c < size
  }

  /** Finder patterns with their separators. */
  ghost predicate HasFinders(m: Matrix, s: nat)
    requires IsSquare(m, s)
  {
    && (forall r, c :: In(s, r, c) && InFinder(0, 0, r, c) ==> m[r][c] == FinderDark(r, c))
    && (forall r, c :: In(s, r, c) && InFinder(0, s - 7, r, c) ==> m[r][c] == FinderDark(r, c - s + 7))
    && (forall r, c :: In(s, r, c) && InFinder(s - 7, 0, r, c) ==> m[r][c] == FinderDark(r - s + 7, c))
  }

  /** Both timing patterns and the dark module. */
  ghost predicate HasTiming(m: Matrix, s: nat)
    requires IsSquare(m, s) && s >= 21
  {
    (forall r, c :: In(s, r, c) && InTiming(s, r, c) ==> m[r][c] == TimingDark(r, c)) && m[s - 8][8]
  }

  ghost predicate HasAlignment(m: Matrix, version: nat)
    requires IsSquare(m, Size(version))
  {
    forall i, j, r, c :: In(Size(version), r, c) && InPattern(version, i, j, r, c) ==>
      (m[r][c] == PatternDark(version, i, j, r, c))
  }

  ghost predicate HasVersion(m: Matrix, version: nat, bits: nat)
    requires IsSquare(m, Size(version))
  {
    version >= 7 ==>
      && IsBchWord(bits, version, 0x1f25, 12)
      && forall r, c :: In(Size(version), r, c) && VersionIndex(Size(version), r, c) >= 0 ==>
        (m[r][c] == BitAt(bits, VersionIndex(Size(version), r, c)))
  }

  ghost predicate HasPatterns(m: Matrix, version: nat, bits: nat)
    requires IsVersion(version) && IsSquare(m, Size(version))
  {
    HasFinders(m, Size(version)) && HasTiming(m, Size(version)) && HasAlignment(m, version) && HasVersion(m, version, bits)
  }

  ghost predicate HasFormat(m: Matrix, s: nat, level: EccLevel, mask: nat, bits: nat)
    requires IsSquare(m, s)
  {
    && IsFormat(bits, level, mask)
    && forall r, c :: In(s, r, c) && FormatIndex(s, r, c) >= 0 ==> m[r][c] == BitAt(bits, FormatIndex(s, r, c))
  }

  ghost predicate HasData(m: Matrix, version: nat, mask: nat, stream: seq<byte>)
    requires IsSquare(m, Size(version))
  {
    var cells := DataCells(version);
    forall k :: 0 <= k < |cells| ==>
      In(Size(version), cells[k].0, cells[k].1) &&
      (m[cells[k].0][cells[k].1] == (StreamBit(stream, k) != MaskAt(mask, cells[k].0, cells[k].1)))
  }

  ghost predicate ReservesFunction(grid: Grid, version: nat)
    requires grid.Valid()
    reads grid, grid.reserved
  {
    forall r, c :: grid.In(r, c) ==> (grid.reserved[r, c] <==> IsFunction(version, r, c))
  }

  // ---- the patterns do not run into one another ----

  lemma {:induction false} FindersApart(version: nat, r: int, c: int)
    requires IsVersion(version)
    ensures var s := Size(version);
      InFinder(0, 0, r, c) || InFinder(0, s - 7, r, c) || InFinder(s - 7, 0, r, c) ==>
        !InAlignment(version, r, c) && !InTiming(s, r, c) && !InFormatArea(s, r, c)
        && FormatIndex(s, r, c) < 0 && VersionIndex(s, r, c) < 0 && !InVersionArea(version, r, c)
  {
    CentresApart(version);
  }

  lemma {:induction false} AlignmentApart(version: nat, r: int, c: int)
    requires IsVersion(version) && InAlignment(version, r, c)
    ensures var s := Size(version);
      !InFormatArea(s, r, c) && FormatIndex(s, r, c) < 0 && VersionIndex(s, r, c) < 0 && !InVersionArea(version, r, c)
  {
    AlignmentForm(version);
    CentresApart(version);
  }

  /** Where an alignment pattern crosses a timing pattern, the two agree. */
  lemma {:induction false} AlignmentOnTiming(version: nat, i: int, j: int, r: int, c: int)
    requires IsVersion(version) && InPattern(version, i, j, r, c) && InTiming(Size(version), r, c)
    ensures PatternDark(version, i, j, r, c) == TimingDark(r, c)
  {
    AlignmentForm(version);
  }

  predicate InAnyFinder(size: int, r: int, c: int) {
    InFinder(0, 0, r, c) || InFinder(0, size - 7, r, c) || InFinder(size - 7, 0, r, c)
  }

  // ---- painting them ----

  method PaintFinders(grid: Grid)
    requires grid.Valid() && forall r, c :: grid.In(r, c) ==> !grid.reserved[r, c]
    modifies grid.modules, grid.reserved
    ensures HasFinders(grid.Image(), grid.size)
    ensures forall r, c :: grid.In(r, c) ==> (grid.reserved[r, c] <==> InAnyFinder(grid.size, r, c))
  {
    grid.PlaceFinder(0, 0);
    grid.PlaceFinder(0, grid.size - 7);
    grid.PlaceFinder(grid.size - 7, 0);
  }

  predicate InLines(version: nat, r: int, c: int) {
    InAnyFinder(Size(version), r, c) || InAlignment(version, r, c) || InTiming(Size(version), r, c)
  }

  ghost predicate HasLines(m: Matrix, version: nat)
    requires IsVersion(version) && IsSquare(m, Size(version))
  {
    var s := Size(version);
    && HasFinders(m, s) && HasAlignment(m, version)
    && forall r, c :: In(s, r, c) && InTiming(s, r, c) ==> m[r][c] == TimingDark(r, c)
  }

  method PaintLines(grid: Grid, version: nat)
    requires grid.Valid() && IsVersion(version) && grid.size == Size(version) && HasFinders(grid.Image(), grid.size)
    requires forall r, c :: grid.In(r, c) ==> (grid.reserved[r, c] <==> InAnyFinder(grid.size, r, c))
    modifies grid.modules, grid.reserved
    ensures HasLines(grid.Image(), version)
    ensures forall r, c :: grid.In(r, c) ==> (grid.reserved[r, c] <==> InLines(version, r, c))
  {
    ghost var first := grid.Image();
    grid.PlaceAlignment(version);
    ghost var second := grid.Image();
    AfterAlignment(first, second, version);
    grid.PlaceTiming();
    AfterTiming(second, grid.Image(), version);
  }

  lemma {:induction false} AfterAlignment(a: Matrix, b: Matrix, version: nat)
    requires IsVersion(version) && IsSquare(a, Size(version)) && IsSquare(b, Size(version))
    requires HasFinders(a, Size(version)) && HasAlignment(b, version)
    requires forall r, c :: In(Size(version), r, c) && !InAlignment(version, r, c) ==> b[r][c] == a[r][c]
    ensures HasFinders(b, Size(version))
  {
    forall r, c | In(Size(version), r, c) && InAnyFinder(Size(version), r, c)
      ensures b[r][c] == a[r][c]
    {
      FindersApart(version, r, c);
    }
  }

  lemma {:induction false} AfterTiming(a: Matrix, b: Matrix, version: nat)
    requires IsVersion(version) && IsSquare(a, Size(version)) && IsSquare(b, Size(version))
    requires HasFinders(a, Size(version)) && HasAlignment(a, version)
    requires forall r, c :: In(Size(version), r, c) ==>
      (b[r][c] == if InTiming(Size(version), r, c) then TimingDark(r, c) else a[r][c])
    ensures HasLines(b, version)
  {
    forall r, c | In(Size(version), r, c) && InAnyFinder(Size(version), r, c)
      ensures b[r][c] == a[r][c]
    {
      FindersApart(version, r, c);
    }
    forall i, j, r, c | In(Size(version), r, c) && InPattern(version, i, j, r, c)
      ensures b[r][c] == PatternDark(version, i, j, r, c)
    {
      if InTiming(Size(version), r, c) {
        AlignmentOnTiming(version, i, j, r, c);
      }
    }
  }

  method PaintAreas(grid: Grid, version: nat) returns (ghost bits: nat)
    requires grid.Valid() && IsVersion(version) && grid.size == Size(version) && HasLines(grid.Image(), version)
    requires forall r, c :: grid.In(r, c) ==> (grid.reserved[r, c] <==> InLines(version, r, c))
    modifies grid.modules, grid.reserved
    ensures HasPatterns(grid.Image(), version, bits) && ReservesFunction(grid, version)
  {
    ghost var before := grid.Image();
    grid.ReserveFormat(version);
    ghost var middle := grid.Image();
    bits := grid.WriteVersion(version);
    AfterAreas(before, middle, grid.Image(), version);
  }

  lemma {:induction false} AfterAreas(a: Matrix, b: Matrix, c: Matrix, version: nat)
    requires IsVersion(version) && HasSize(a, version) && HasSize(b, version) && HasSize(c, version)
    requires HasLines(a, version) && b[Size(version) - 8][8]
    requires forall r, c :: In(Size(version), r, c) && !InFormatArea(Size(version), r, c) && !InVersionArea(version, r, c) ==>
      b[r][c] == a[r][c]
    requires forall r, col :: In(Size(version), r, col) && !(version >= 7 && VersionIndex(Size(version), r, col) >= 0) ==>
      c[r][col] == b[r][col]
    ensures HasLines(c, version) && HasTiming(c, Size(version))
  {
    forall r, col | In(Size(version), r, col) && InLines(version, r, col)
      ensures c[r][col] == a[r][col]
    {
      LinesPlain(version, r, col);
    }
    KeepLines(a, c, version);
  }

  /** Everything but the data and the format bits. */
  method PaintPatterns(version: nat) returns (grid: Grid, ghost bits: nat)
    requires IsVersion(version)
    ensures fresh(grid) && fresh(grid.modules) && fresh(grid.reserved)
    ensures grid.Valid() && grid.size == Size(version)
    ensures HasPatterns(grid.Image(), version, bits) && ReservesFunction(grid, version)
  {
    grid := new Grid(version);
    PaintFinders(grid);
    PaintLines(grid, version);
    bits := PaintAreas(grid, version);
  }

  // ---- what is not written over stays ----

  lemma {:induction false} LinesPlain(version: nat, r: int, c: int)
    requires IsVersion(version) && InLines(version, r, c)
    ensures var s := Size(version);
      !InFormatArea(s, r, c) && FormatIndex(s, r, c) < 0 && VersionIndex(s, r, c) < 0 && !InVersionArea(version, r, c)
  {
    if InAlignment(version, r, c) {
      AlignmentApart(version, r, c);
    }
    FindersApart(version, r, c);
  }

  ghost predicate SameLines(a: Matrix, b: Matrix, version: nat)
    requires IsSquare(a, Size(version)) && IsSquare(b, Size(version))
  {
    forall r, c :: In(Size(version), r, c) && InLines(version, r, c) ==> b[r][c] == a[r][c]
  }

  lemma {:induction false} KeepLines(a: Matrix, b: Matrix, version: nat)
    requires IsVersion(version) && IsSquare(a, Size(version)) && IsSquare(b, Size(version))
    requires HasLines(a, version) && SameLines(a, b, version)
    ensures HasLines(b, version)
  {
    forall i, j, r, c | In(Size(version), r, c) && InPattern(version, i, j, r, c)
      ensures b[r][c] == PatternDark(version, i, j, r, c)
    {
      PatternsStep(version, i, j);
      assert InLines(version, r, c);
    }
    forall r, c | In(Size(version), r, c) && InAnyFinder(Size(version), r, c)
      ensures b[r][c] == a[r][c]
    {
      assert InLines(version, r, c);
    }
  }

  predicate IsPatternCell(version: nat, r: int, c: int) {
    || InLines(version, r, c)
    || (version >= 7 && VersionIndex(Size(version), r, c) >= 0) || (r == Size(version) - 8 && c == 8)
  }

  lemma {:induction false} KeepPatterns(a: Matrix, b: Matrix, version: nat, bits: nat)
    requires IsVersion(version) && IsSquare(a, Size(version)) && IsSquare(b, Size(version))
    requires HasPatterns(a, version, bits)
    requires forall r, c :: In(Size(version), r, c) && IsPatternCell(version, r, c) ==> b[r][c] == a[r][c]
    ensures HasPatterns(b, version, bits)
  {
    assert SameLines(a, b, version);
    KeepLines(a, b, version);
  }

  lemma {:induction false} PatternCellPlain(version: nat, r: int, c: int)
    requires IsVersion(version) && In(Size(version), r, c) && IsPatternCell(version, r, c)
    ensures (r, c) in Taken(version) && FormatIndex(Size(version), r, c) < 0
  {
    if InLines(version, r, c) {
      LinesPlain(version, r, c);
    }
  }

  lemma {:induction false} DataCellPlain(version: nat, k: nat)
    requires IsVersion(version) && k < |DataCells(version)|
    ensures var q := DataCells(version)[k];
      In(Size(version), q.0, q.1) && FormatIndex(Size(version), q.0, q.1) < 0
  {
    DataCellsAre(version);
    assert DataCells(version)[k] in DataCells(version);
  }

  // ---- the whole symbol ----

  method Build(version: nat, level: EccLevel, mask: nat, stream: seq<byte>)
    returns (grid: Grid, ghost versionBits: nat, ghost formatBits: nat)
    requires IsVersion(version) && mask < 8
    ensures fresh(grid) && fresh(grid.modules) && fresh(grid.reserved)
    ensures grid.Valid() && grid.size == Size(version)
    ensures HasPatterns(grid.Image(), version, versionBits)
    ensures HasFormat(grid.Image(), Size(version), level, mask, formatBits)
    ensures HasData(grid.Image(), version, mask, stream)
  {
    grid, versionBits := PaintPatterns(version);
    FillData(grid, version, mask, stream, versionBits);
    formatBits := AddFormat(grid, version, level, mask, stream, versionBits);
  }

  method FillData(grid: Grid, version: nat, mask: nat, stream: seq<byte>, ghost versionBits: nat)
    requires grid.Valid() && IsVersion(version) && grid.size == Size(version)
    requires HasPatterns(grid.Image(), version, versionBits) && ReservesFunction(grid, version)
    modifies grid.modules
    ensures HasPatterns(grid.Image(), version, versionBits) && HasData(grid.Image(), version, mask, stream)
  {
    ghost var before := grid.Image();
    PlaceData(grid, stream, mask, Taken(version));
    DataInImage(grid, version, mask, stream);
    forall r, c | In(grid.size, r, c) && IsPatternCell(version, r, c)
      ensures grid.Image()[r][c] == before[r][c]
    {
      PatternCellPlain(version, r, c);
    }
    KeepPatterns(before, grid.Image(), version, versionBits);
  }

  lemma {:induction false} DataInImage(grid: Grid, version: nat, mask: nat, stream: seq<byte>)
    requires grid.Valid() && grid.size == Size(version) && AllInGrid(grid.size, DataCells(version))
    requires Holds(grid, DataCells(version), stream, mask)
    ensures HasData(grid.Image(), version, mask, stream)
  {
  }

  method AddFormat(grid: Grid, version: nat, level: EccLevel, mask: nat, stream: seq<byte>, ghost versionBits: nat)
    returns (ghost formatBits: nat)
    requires grid.Valid() && IsVersion(version) && grid.size == Size(version) && mask < 8
    requires HasPatterns(grid.Image(), version, versionBits) && HasData(grid.Image(), version, mask, stream)
    modifies grid.modules, grid.reserved
    ensures HasPatterns(grid.Image(), version, versionBits) && HasData(grid.Image(), version, mask, stream)
    ensures HasFormat(grid.Image(), grid.size, level, mask, formatBits)
  {
    ghost var before := grid.Image();
    formatBits := grid.WriteFormat(level, mask);
    forall r, c | In(grid.size, r, c) && IsPatternCell(version, r, c)
      ensures grid.Image()[r][c] == before[r][c]
    {
      PatternCellPlain(version, r, c);
    }
    KeepPatterns(before, grid.Image(), version, versionBits);
    ghost var cells := DataCells(version);
    forall k | 0 <= k < |cells|
      ensures In(grid.size, cells[k].0, cells[k].1)
      ensures grid.Image()[cells[k].0][cells[k].1] == before[cells[k].0][cells[k].1]
    {
      DataCellPlain(version, k);
    }
  }
}
