/** Which modules of a symbol are fixed by the standard, and how many are left for data. */
module QrLayout {
  import opened Bch
  import opened QrData
  import opened Zigzag

  function Size(version: nat): nat {
    version * 4 + 17
  }

  /** The centres of the alignment patterns, along either axis. */
  function Alignment(version: nat): seq<int> {
    match version
    case 2 => [6, 18]
    case 3 => [6, 22]
    case 4 => [6, 26]
    case 5 => [6, 30]
    case 6 => [6, 34]
    case 7 => [6, 22, 38]
    case 8 => [6, 24, 42]
    case 9 => [6, 26, 46]
    case 10 => [6, 28, 50]
    case _ => []
  }

  /** The three centres that would collide with a finder pattern. */
  predicate OnFinder(size: nat, a: nat, b: nat) {
    (a == 6 && b == 6) || (a == 6 && b == size - 7) || (a == size - 7 && b == 6)
  }

  predicate InBlock(r: int, c: int, top: int, left: int, height: int, width: int) {
    top <= r < top + height && left <= c < left + width
  }

  predicate InPattern(version: nat, i: int, j: int, r: int, c: int) {
    var centres := Alignment(version);
    && 0 <= i < |centres| && 0 <= j < |centres|
    && !OnFinder(Size(version), centres[i], centres[j])
    && InBlock(r, c, centres[i] - 2, centres[j] - 2, 5, 5)
  }

  predicate InAlignment(version: nat, r: int, c: int) {
    exists i, j :: 0 <= i < 3 && 0 <= j < 3 && InPattern(version, i, j, r, c)
  }

  predicate InVersionArea(version: nat, r: int, c: int) {
    version >= 7 && (InBlock(r, c, 0, Size(version) - 11, 6, 3) || InBlock(r, c, Size(version) - 11, 0, 3, 6))
  }

  /** The function patterns and the areas of the format and version information. */
  predicate IsFunction(version: nat, r: int, c: int) {
    var size := Size(version);
    || InBlock(r, c, 0, 0, 9, 9)
    || InBlock(r, c, 0, size - 8, 9, 8)
    || InBlock(r, c, size - 8, 0, 8, 9)
    || r == 6 || c == 6
    || InAlignment(version, r, c)
    || InVersionArea(version, r, c)
  }

  ghost function AllCells(size: nat): set<Coord> {
    Cells(Rect(0, 0, size, size))
  }

  ghost function Taken(version: nat): set<Coord> {
    set r: int, c: int | 0 <= r < Size(version) && 0 <= c < Size(version) && IsFunction(version, r, c) :: (r, c)
  }

  /** The modules that carry the codeword stream, in the order they are visited. */
  ghost function DataCells(version: nat): seq<Coord> {
    FreeCells(Size(version), Taken(version))
  }

  // ---- counting ----

  datatype Rect = Rect(top: int, left: int, height: nat, width: nat)

  ghost function Cells(q: Rect): set<Coord> {
    set r: int, c: int | q.top <= r < q.top + q.height && q.left <= c < q.left + q.width :: (r, c)
  }

  lemma {:induction false} RowSize(r: int, left: int, width: nat)
    ensures |Cells(Rect(r, left, 1, width))| == width
  {
    if width == 0 {
    } else {
      RowSize(r, left, width - 1);
      assert Cells(Rect(r, left, 1, width)) == Cells(Rect(r, left, 1, width - 1)) + {(r, left + width - 1)};
    }
  }

  lemma {:induction false} RectSplit(q: Rect)
    requires q.height > 0
    ensures var upper, row := q.(height := q.height - 1), Rect(q.top + q.height - 1, q.left, 1, q.width);
      Cells(q) == Cells(upper) + Cells(row) && Cells(upper) !! Cells(row)
  {
  }

  lemma {:induction false} RectSize(q: Rect)
    ensures |Cells(q)| == Product(q.height, q.width)
    decreases q.height
  {
    if q.height <= 0 {
    } else {
      RectSplit(q);
      RectSize(q.(height := q.height - 1));
      RowSize(q.top + q.height - 1, q.left, q.width);
    }
  }

  ghost function Union(rects: seq<Rect>): set<Coord> {
    if rects == [] then {} else Union(rects[..|rects| - 1]) + Cells(rects[|rects| - 1])
  }

  function Area(rects: seq<Rect>): nat {
    if rects == [] then 0 else
      Area(rects[..|rects| - 1]) + Product(rects[|rects| - 1].height, rects[|rects| - 1].width)
  }

  function Product(a: nat, b: nat): nat {
    if a == 0 then 0 else Product(a - 1, b) + b
  }

  lemma {:induction false} ProductIs(a: nat, b: nat)
    ensures Product(a, b) == a * b
  {
    if a == 0 {
    } else {
      ProductIs(a - 1, b);
    }
  }

  /** One lies beside, above or below the other. */
  predicate Apart(a: Rect, b: Rect) {
    a.top + a.height <= b.top || b.top + b.height <= a.top || a.left + a.width <= b.left || b.left + b.width <= a.left
  }

  ghost predicate AllApart(rects: seq<Rect>) {
    forall j, k :: 0 <= j < k < |rects| ==> Apart(rects[j], rects[k])
  }

  lemma {:induction false} ApartFromUnion(rects: seq<Rect>, q: Rect)
    requires forall k :: 0 <= k < |rects| ==> Apart(rects[k], q)
    ensures Union(rects) !! Cells(q)
  {
    if rects == [] {
    } else {
      ApartFromUnion(rects[..|rects| - 1], q);
    }
  }

  /** Rectangles that do not meet have as many cells together as their areas say. */
  lemma {:induction false} UnionExact(rects: seq<Rect>)
    requires AllApart(rects)
    ensures |Union(rects)| == Area(rects)
  {
    if rects == [] {
    } else {
      var n := |rects| - 1;
      UnionExact(rects[..n]);
      ApartFromUnion(rects[..n], rects[n]);
      RectSize(rects[n]);
    }
  }

  lemma {:induction false} UnionMember(rects: seq<Rect>, k: int, c: Coord)
    requires 0 <= k < |rects| && c in Cells(rects[k])
    ensures c in Union(rects)
    decreases |rects|
  {
    if k >= |rects| - 1 {
    } else {
      UnionMember(rects[..|rects| - 1], k, c);
    }
  }

  /** Rectangles that cover the function modules without meeting one another. */
  function Cover(version: nat): seq<Rect>
    requires IsVersion(version)
  {
    var size := Size(version);
    var base := [Rect(0, 0, 9, 9), Rect(0, size - 8, 9, 8), Rect(size - 8, 0, 8, 9),
                 Rect(6, 9, 1, size - 17), Rect(9, 6, size - 17, 1)];
    if version == 1 then base else
      var far := size - 9;
      if version < 7 then base + [Rect(far, far, 5, 5)] else
        var mid := Alignment(version)[1] - 2;
        base + [Rect(4, mid, 2, 5), Rect(7, mid, 2, 5), Rect(mid, 4, 5, 2), Rect(mid, 7, 5, 2),
                Rect(mid, mid, 5, 5), Rect(mid, far, 5, 5), Rect(far, mid, 5, 5), Rect(far, far, 5, 5),
                Rect(0, size - 11, 6, 3), Rect(size - 11, 0, 3, 6)]
  }

  /** The rectangle of the cover that holds a function module. */
  lemma {:induction false} CoverIndex(version: nat, r: int, c: int) returns (k: int)
    requires IsVersion(version) && 0 <= r < Size(version) && 0 <= c < Size(version) && IsFunction(version, r, c)
    ensures 0 <= k < |Cover(version)| && (r, c) in Cells(Cover(version)[k])
  {
    var size := Size(version);
    if InBlock(r, c, 0, 0, 9, 9) {
      k := 0;
    } else if InBlock(r, c, 0, size - 8, 9, 8) {
      k := 1;
    } else if InBlock(r, c, size - 8, 0, 8, 9) {
      k := 2;
    } else if r == 6 {
      k := 3;
    } else if c == 6 {
      k := 4;
    } else if InVersionArea(version, r, c) {
      k := if r < 6 then 13 else 14;
    } else {
      k := AlignmentIndex(version, r, c);
    }
  }

  lemma {:induction false} AlignmentForm(version: nat)
    requires IsVersion(version)
    ensures version == 1 ==> Alignment(version) == []
    ensures 2 <= version < 7 ==> Alignment(version) == [6, Size(version) - 7]
    ensures version >= 7 ==> Alignment(version) == [6, 2 * version + 8, Size(version) - 7]
  {
  }

  lemma {:induction false} AlignmentIndex(version: nat, r: int, c: int) returns (k: int)
    requires IsVersion(version) && InAlignment(version, r, c) && r != 6 && c != 6
    ensures 5 <= k < |Cover(version)| && (r, c) in Cells(Cover(version)[k])
  {
    AlignmentForm(version);
    var i, j :| 0 <= i < 3 && 0 <= j < 3 && InPattern(version, i, j, r, c);
    k := if version < 7 then 5 else PatternIndex(i, j, r, c);
    var a, b := Alignment(version)[i], Alignment(version)[j];
    assert InBlock(r, c, a - 2, b - 2, 5, 5) && !OnFinder(Size(version), a, b);
    if version < 7 {
      assert a == b == Size(version) - 7;
    } else {
      LargeIndex(version, i, j, r, c);
    }
  }

  function PatternIndex(i: int, j: int, r: int, c: int): int {
    if i == 0 then (if r < 6 then 5 else 6)
    else if j == 0 then (if c < 6 then 7 else 8)
    else 9 + 2 * (i - 1) + (j - 1)
  }

  lemma {:induction false} LargeIndex(version: nat, i: int, j: int, r: int, c: int)
    requires 7 <= version <= 10 && InPattern(version, i, j, r, c) && r != 6 && c != 6
    ensures 5 <= PatternIndex(i, j, r, c) < 13
    ensures (r, c) in Cells(Cover(version)[PatternIndex(i, j, r, c)])
  {
    AlignmentForm(version);
    if i == 0 {
      assert j == 1;
    } else if j == 0 {
      assert i == 1;
    }
  }

  /** The cover is exactly the function modules. */
  lemma {:induction false} TakenCovered(version: nat)
    requires IsVersion(version)
    ensures Taken(version) == Union(Cover(version))
  {
    forall q: Coord
      ensures q in Taken(version) <==> q in Union(Cover(version))
    {
      if q in Taken(version) {
        var k := CoverIndex(version, q.0, q.1);
        UnionMember(Cover(version), k, q);
      }
      if q in Union(Cover(version)) {
        var k := InUnion(Cover(version), q);
        CoverTaken(version, k, q.0, q.1);
      }
    }
  }

  lemma {:induction false} InUnion(rects: seq<Rect>, c: Coord) returns (k: int)
    requires c in Union(rects)
    ensures 0 <= k < |rects| && c in Cells(rects[k])
  {
    var n := |rects| - 1;
    if c in Cells(rects[n]) {
      k := n;
    } else {
      k := InUnion(rects[..n], c);
    }
  }

  lemma {:induction false} PatternTaken(version: nat, i: int, j: int, r: int, c: int)
    requires InPattern(version, i, j, r, c) && 0 <= i < 3 && 0 <= j < 3
    ensures IsFunction(version, r, c)
  {
    assert InAlignment(version, r, c);
  }

  /** Every rectangle of the cover lies in the function modules. */
  lemma {:induction false} CoverTaken(version: nat, k: int, r: int, c: int)
    requires IsVersion(version) && 0 <= k < |Cover(version)| && (r, c) in Cells(Cover(version)[k])
    ensures 0 <= r < Size(version) && 0 <= c < Size(version) && IsFunction(version, r, c)
  {
    AlignmentForm(version);
    if version >= 7 && 5 <= k < 13 {
      LargeTaken(version, k, r, c);
    } else if k == 5 {
      PatternTaken(version, 1, 1, r, c);
    }
  }

  lemma {:induction false} LargeTaken(version: nat, k: int, r: int, c: int)
    requires 7 <= version <= 10 && 5 <= k < 13 && (r, c) in Cells(Cover(version)[k])
    ensures 0 <= r < Size(version) && 0 <= c < Size(version) && IsFunction(version, r, c)
  {
    AlignmentForm(version);
    if k < 7 {
      PatternTaken(version, 0, 1, r, c);
    } else if k < 9 {
      PatternTaken(version, 1, 0, r, c);
    } else {
      PatternTaken(version, 1 + (k - 9) / 2, 1 + (k - 9) % 2, r, c);
    }
  }

  lemma {:induction false} BaseApart(version: nat, j: int, k: int)
    requires IsVersion(version) && 0 <= j < k < |Cover(version)| && j < 5
    ensures Apart(Cover(version)[j], Cover(version)[k])
  {
    AlignmentForm(version);
  }

  lemma {:induction false} LargeApart(version: nat, j: int, k: int)
    requires 7 <= version <= 10 && 5 <= j < k < 15
    ensures Apart(Cover(version)[j], Cover(version)[k])
  {
    AlignmentForm(version);
  }

  lemma {:induction false} CoverApart(version: nat)
    requires IsVersion(version)
    ensures AllApart(Cover(version))
  {
    forall j, k | 0 <= j < k < |Cover(version)|
      ensures Apart(Cover(version)[j], Cover(version)[k])
    {
      if j < 5 {
        BaseApart(version, j, k);
      } else {
        LargeApart(version, j, k);
      }
    }
  }

  /** The area of the rectangles from `k` on. */
  function AreaFrom(rects: seq<Rect>, k: nat): nat
    requires k <= |rects|
    decreases |rects| - k
  {
    if k == |rects| then 0 else Product(rects[k].height, rects[k].width) + AreaFrom(rects, k + 1)
  }

  lemma {:induction false} AreaSplit(rects: seq<Rect>, k: nat)
    requires k <= |rects|
    ensures Area(rects) == Area(rects[..k]) + AreaFrom(rects, k)
    decreases |rects| - k
  {
    if k == |rects| {
      assert rects[..k] == rects;
    } else {
      AreaSplit(rects, k + 1);
      assert rects[..k + 1][..k] == rects[..k];
    }
  }

  lemma {:induction false} AreaStep(rects: seq<Rect>, k: nat, height: nat, width: nat)
    requires k < |rects| && rects[k].height == height && rects[k].width == width
    ensures AreaFrom(rects, k) == height * width + AreaFrom(rects, k + 1)
  {
    ProductIs(height, width);
  }

  lemma {:induction false} CoverArea(version: nat)
    requires IsVersion(version)
    ensures Area(Cover(version)) == 225 + 8 * version + (if version == 1 then 0 else if version < 7 then 25 else 176)
  {
    var rects := Cover(version);
    AreaSplit(rects, 0);
    AreaStep(rects, 0, 9, 9);
    AreaStep(rects, 1, 9, 8);
    AreaStep(rects, 2, 8, 9);
    AreaStep(rects, 3, 1, Size(version) - 17);
    AreaStep(rects, 4, Size(version) - 17, 1);
    if version == 1 {
    } else if version < 7 {
      AreaStep(rects, 5, 5, 5);
    } else {
      LargeArea(version);
    }
  }

  lemma {:induction false} LargeArea(version: nat)
    requires 7 <= version <= 10
    ensures AreaFrom(Cover(version), 5) == 176
  {
    var rects := Cover(version);
    AreaStep(rects, 5, 2, 5);
    AreaStep(rects, 6, 2, 5);
    AreaStep(rects, 7, 5, 2);
    AreaStep(rects, 8, 5, 2);
    AreaStep(rects, 9, 5, 5);
    AreaStep(rects, 10, 5, 5);
    AreaStep(rects, 11, 5, 5);
    AreaStep(rects, 12, 5, 5);
    AreaStep(rects, 13, 6, 3);
    AreaStep(rects, 14, 3, 6);
  }

  // ---- room for every codeword ----

  function TotalCodewords(version: nat, level: EccLevel): nat
    requires IsVersion(version)
  {
    var s := SpecOf(version, level);
    DataCapacity(version, level) + s.ec * (s.g1 + s.g2)
  }

  function FunctionModules(version: nat): nat {
    225 + 8 * version + (if version == 1 then 0 else if version < 7 then 25 else 176)
  }

  /** The modules left over behind the last codeword (ISO/IEC 18004:2015, table 1). */
  function Leftover(version: nat): nat {
    if 2 <= version <= 6 then 7 else 0
  }

  lemma {:induction false} GridSize(version: nat)
    ensures |AllCells(Size(version))| == Size(version) * Size(version)
  {
    RectSize(Rect(0, 0, Size(version), Size(version)));
    ProductIs(Size(version), Size(version));
  }

  lemma {:induction false} CodewordsFit(version: nat, level: EccLevel)
    requires IsVersion(version)
    ensures Size(version) * Size(version) == 8 * TotalCodewords(version, level) + Leftover(version) + FunctionModules(version)
  {
    match version
    case 1 =>
    case 2 =>
    case 3 =>
    case 4 =>
    case 5 =>
    case 6 =>
    case 7 =>
    case 8 =>
    case 9 =>
    case _ =>
  }

  /** In the grid and under no function pattern. */
  predicate IsDataCell(version: nat, q: Coord) {
    0 <= q.0 < Size(version) && 0 <= q.1 < Size(version) && !IsFunction(version, q.0, q.1)
  }

  lemma {:induction false} TakenIs(version: nat, q: Coord)
    ensures q in Taken(version) <==> 0 <= q.0 < Size(version) && 0 <= q.1 < Size(version) && IsFunction(version, q.0, q.1)
  {
  }

  lemma {:induction false} TimingColumn(version: nat, q: Coord)
    requires IsDataCell(version, q)
    ensures q.1 != 6
  {
  }

  lemma {:induction false} DataCellIs(version: nat, q: Coord)
    requires IsVersion(version)
    ensures q in DataCells(version) <==> IsDataCell(version, q)
  {
    FreeCellsMember(Size(version), Taken(version), q);
    TakenIs(version, q);
    if IsDataCell(version, q) {
      TimingColumn(version, q);
    }
  }

  lemma {:induction false} DataCellsAre(version: nat)
    requires IsVersion(version)
    ensures Distinct(DataCells(version))
    ensures forall q :: q in DataCells(version) <==> IsDataCell(version, q)
  {
    var size := Size(version);
    var path, taken := Path(size, size - 1, true), Taken(version);
    PathDistinct(size, size - 1, true);
    FreeDistinct(path, taken);
    forall q: Coord
      ensures q in DataCells(version) <==> IsDataCell(version, q)
    {
      DataCellIs(version, q);
    }
  }

  lemma {:induction false} DataCellsCount(version: nat)
    requires IsVersion(version)
    ensures |DataCells(version)| + FunctionModules(version) == |AllCells(Size(version))|
  {
    var all, taken, cells := AllCells(Size(version)), Taken(version), DataCells(version);
    DataCellsAre(version);
    DistinctCount(cells);
    assert (set q | q in cells) == all - taken;
    TakenCovered(version);
    CoverApart(version);
    UnionExact(Cover(version));
    DifferenceSize(all, taken);
    CoverArea(version);
  }

  /** Every codeword of the stream has eight modules to go to, and all but the leftover ones are used. */
  lemma {:induction false} RoomForCodewords(version: nat, level: EccLevel)
    requires IsVersion(version)
    ensures |DataCells(version)| == 8 * TotalCodewords(version, level) + Leftover(version)
  {
    DataCellsCount(version);
    GridSize(version);
    CodewordsFit(version, level);
  }

  /** The modules for data are listed in the reading order. */
  lemma {:induction false} DataCellsInOrder(version: nat)
    requires IsVersion(version)
    ensures InOrder(Size(version), DataCells(version))
  {
    FreeCellsInOrder(Size(version), Taken(version));
  }

  lemma {:induction false} DifferenceSize(a: set<Coord>, b: set<Coord>)
    requires b <= a
    ensures |a - b| == |a| - |b|
  {
    assert (a - b) + b == a;
  }
}
