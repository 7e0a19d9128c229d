/** Function patterns and reserved areas, painted into the module matrix. */
module QrGrid {
  import opened Bitwise
  import opened Bch
  import opened QrData
  import opened QrLayout

  // ---- what each pattern looks like ----

  /** A finder pattern with its separator, whose dark corner is at (`row`, `col`). */
  predicate InFinder(row: int, col: int, r: int, c: int) {
    row - 1 <= r <= row + 7 && col - 1 <= c <= col + 7
  }

  predicate FinderDark(r: int, c: int) {
    || (0 <= r <= 6 && (c == 0 || c == 6))
    || (0 <= c <= 6 && (r == 0 || r == 6))
    || (2 <= r <= 4 && 2 <= c <= 4)
  }

  predicate InTiming(size: nat, r: int, c: int) {
    (r == 6 && 8 <= c < size - 8) || (c == 6 && 8 <= r < size - 8)
  }

  predicate TimingDark(r: int, c: int) {
    (if r == 6 then c else r) % 2 == 0
  }

  function Abs(n: int): nat {
    if n < 0 then -n else n
  }

  /** An alignment pattern around its centre: a dark ring, a light ring, a dark core. */
  predicate RingDark(dr: int, dc: int) {
    (if Abs(dr) > Abs(dc) then Abs(dr) else Abs(dc)) != 1
  }

  /** The format cells around the top-left finder, up to row or column `n`. */
  predicate InFormatStart(n: int, r: int, c: int) {
    (r == 8 && 0 <= c < n && c != 6) || (c == 8 && 0 <= r < n && r != 6)
  }

  /** The last `n` cells of row 8 and of column 8. */
  predicate InFormatEnd(size: int, n: int, r: int, c: int) {
    (r == 8 && size - n <= c < size) || (c == 8 && size - n <= r < size)
  }

  predicate InFormatArea(size: int, r: int, c: int) {
    InFormatStart(9, r, c) || InFormatEnd(size, 8, r, c)
  }

  /** The bit of the format information that a cell carries, or -1. */
  function FormatIndex(size: int, r: int, c: int): int {
    if c == 8 && 0 <= r < 6 then r
    else if c == 8 && 7 <= r < 9 then r - 1
    else if c == 8 && size - 7 <= r < size then r - size + 15
    else if r == 8 && size - 8 <= c < size then size - 1 - c
    else if r == 8 && c == 7 then 8
    else if r == 8 && 0 <= c < 6 then 14 - c
    else -1
  }

  /** The bit of the version information that a cell carries, or -1. */
  function VersionIndex(size: int, r: int, c: int): int {
    if InBlock(r, c, 0, size - 11, 6, 3) then 3 * r + (c - size + 11)
    else if InBlock(r, c, size - 11, 0, 3, 6) then 3 * c + (r - size + 11)
    else -1
  }

  predicate BitAt(bits: nat, i: nat) {
    (bits / Pow2(i)) % 2 == 1
  }

  predicate PatternDark(version: nat, i: int, j: int, r: int, c: int)
    requires InPattern(version, i, j, r, c)
  {
    RingDark(r - Alignment(version)[i], c - Alignment(version)[j])
  }

  // ---- the matrix under construction ----

  /** Rows of modules, dark ones true. */
  type Matrix = seq<seq<bool>>

  ghost predicate IsSquare(m: Matrix, size: nat) {
    |m| == size && forall r :: 0 <= r < size ==> |m[r]| == size
  }

  class Grid {
    const size: nat
    const modules: array2<bool>
    const reserved: array2<bool>

    ghost predicate Valid()
      reads this
    {
      && size >= 21 && modules != reserved
      && modules.Length0 == modules.Length1 == reserved.Length0 == reserved.Length1 == size
    }

    predicate In(r: int, c: int)
      reads this
    {
      0 <= r < size && 0 <= c < size
    }

    /** The modules as a value. */
    function Image(): (m: Matrix)
      requires Valid()
      reads this, modules
      ensures IsSquare(m, size)
      ensures forall r, c :: In(r, c) ==> m[r][c] == modules[r, c]
    {
      seq(size, r requires 0 <= r < size && Valid() reads this, modules =>
        seq(size, c requires 0 <= c < size && Valid() reads this, modules => modules[r, c]))
    }

    constructor (version: nat)
      requires IsVersion(version)
      ensures Valid() && size == Size(version) && fresh(modules) && fresh(reserved)
      ensures forall r, c :: In(r, c) ==> !modules[r, c] && !reserved[r, c]
    {
      size := Size(version);
      modules := new bool[Size(version), Size(version)]((_, _) => false);
      reserved := new bool[Size(version), Size(version)]((_, _) => false);
    }

    method Set(row: int, col: int, value: bool)
      requires Valid() && In(row, col)
      modifies modules, reserved
      ensures forall r, c :: In(r, c) ==>
        (modules[r, c] == if r == row && c == col then value else old(modules[r, c]))
      ensures forall r, c :: In(r, c) ==> reserved[r, c] == (old(reserved[r, c]) || (r == row && c == col))
    {
      modules[row, col] := value;
      reserved[row, col] := true;
    }

    // -- finder patterns --

    method PlaceFinderRow(row: int, col: int, dr: int)
      requires Valid() && 0 <= row + dr < size && -1 <= dr <= 7
      modifies modules, reserved
      ensures forall r, c :: In(r, c) ==>
        (reserved[r, c] ==
          (old(reserved[r, c]) || (r == row + dr && InFinder(row, col, r, c))))
      ensures forall r, c :: In(r, c) ==>
        (modules[r, c] ==
          if r == row + dr && InFinder(row, col, r, c) then FinderDark(r - row, c - col) else old(modules[r, c]))
    {
      for dc := -1 to 8
        invariant forall r, c :: In(r, c) ==>
          (reserved[r, c] ==
            (old(reserved[r, c]) || (r == row + dr && InFinder(row, col, r, c) && c < col + dc)))
        invariant forall r, c :: In(r, c) ==>
          (modules[r, c] ==
            if r == row + dr && InFinder(row, col, r, c) && c < col + dc then FinderDark(r - row, c - col)
            else old(modules[r, c]))
      {
        if 0 <= col + dc < size {
          var inRing := (0 <= dr <= 6 && (dc == 0 || dc == 6)) || (0 <= dc <= 6 && (dr == 0 || dr == 6));
          var inCore := 2 <= dr <= 4 && 2 <= dc <= 4;
          Set(row + dr, col + dc, inRing || inCore);
        }
      }
    }

    method PlaceFinder(row: int, col: int)
      requires Valid()
      modifies modules, reserved
      ensures forall r, c :: In(r, c) ==> reserved[r, c] == (old(reserved[r, c]) || InFinder(row, col, r, c))
      ensures forall r, c :: In(r, c) ==>
        (modules[r, c] ==
          if InFinder(row, col, r, c) then FinderDark(r - row, c - col) else old(modules[r, c]))
    {
      for dr := -1 to 8
        invariant forall r, c :: In(r, c) ==>
          (reserved[r, c] ==
            (old(reserved[r, c]) || (InFinder(row, col, r, c) && r < row + dr)))
        invariant forall r, c :: In(r, c) ==>
          (modules[r, c] ==
            if InFinder(row, col, r, c) && r < row + dr then FinderDark(r - row, c - col) else old(modules[r, c]))
      {
        if 0 <= row + dr < size {
          PlaceFinderRow(row, col, dr);
        }
      }
    }

    // -- alignment patterns --

    method PlacePatternRow(a: int, b: int, dr: int)
      requires Valid() && -2 <= dr <= 2 && 2 <= a < size - 2 && 2 <= b < size - 2
      modifies modules, reserved
      ensures forall r, c :: In(r, c) ==>
        (reserved[r, c] ==
          (old(reserved[r, c]) || (r == a + dr && b - 2 <= c <= b + 2)))
      ensures forall r, c :: In(r, c) ==>
        (modules[r, c] ==
          if r == a + dr && b - 2 <= c <= b + 2 then RingDark(r - a, c - b) else old(modules[r, c]))
    {
      for dc := -2 to 3
        invariant forall r, c :: In(r, c) ==>
          (reserved[r, c] ==
            (old(reserved[r, c]) || (r == a + dr && b - 2 <= c < b + dc)))
        invariant forall r, c :: In(r, c) ==>
          (modules[r, c] ==
            if r == a + dr && b - 2 <= c < b + dc then RingDark(r - a, c - b) else old(modules[r, c]))
      {
        Set(a + dr, b + dc, RingDark(dr, dc));
      }
    }

    method PlacePattern(a: int, b: int)
      requires Valid() && 2 <= a < size - 2 && 2 <= b < size - 2
      modifies modules, reserved
      ensures forall r, c :: In(r, c) ==> reserved[r, c] == (old(reserved[r, c]) || InBlock(r, c, a - 2, b - 2, 5, 5))
      ensures forall r, c :: In(r, c) ==>
        (modules[r, c] ==
          if InBlock(r, c, a - 2, b - 2, 5, 5) then RingDark(r - a, c - b) else old(modules[r, c]))
    {
      for dr := -2 to 3
        invariant forall r, c :: In(r, c) ==>
          (reserved[r, c] ==
            (old(reserved[r, c]) || (InBlock(r, c, a - 2, b - 2, 5, 5) && r < a + dr)))
        invariant forall r, c :: In(r, c) ==>
          (modules[r, c] ==
            if InBlock(r, c, a - 2, b - 2, 5, 5) && r < a + dr then RingDark(r - a, c - b) else old(modules[r, c]))
      {
        PlacePatternRow(a, b, dr);
      }
    }

    // -- timing patterns --

    method PlaceTiming()
      requires Valid()
      modifies modules, reserved
      ensures forall r, c :: In(r, c) ==> reserved[r, c] == (old(reserved[r, c]) || InTiming(size, r, c))
      ensures forall r, c :: In(r, c) ==>
        (modules[r, c] ==
          if InTiming(size, r, c) then TimingDark(r, c) else old(modules[r, c]))
    {
      for i := 8 to size - 8
        invariant forall r, c :: In(r, c) ==>
          (reserved[r, c] ==
            (old(reserved[r, c]) || (InTiming(size, r, c) && r < i && c < i)))
        invariant forall r, c :: In(r, c) ==>
          (modules[r, c] ==
            if InTiming(size, r, c) && r < i && c < i then TimingDark(r, c) else old(modules[r, c]))
      {
        Set(6, i, i % 2 == 0);
        Set(i, 6, i % 2 == 0);
      }
    }

    /** The pattern around centre `i` down and centre `j` across, unless a finder is there. */
    method PlacePatternAt(version: nat, i: int, j: int)
      requires Valid() && IsVersion(version) && size == Size(version)
      requires 0 <= i < |Alignment(version)| && 0 <= j < |Alignment(version)|
      modifies modules, reserved
      ensures forall r, c :: In(r, c) ==> reserved[r, c] == (old(reserved[r, c]) || InPattern(version, i, j, r, c))
      ensures forall r, c :: In(r, c) ==>
        (modules[r, c] == if InPattern(version, i, j, r, c) then PatternDark(version, i, j, r, c) else old(modules[r, c]))
    {
      CentresApart(version);
      var a, b := Alignment(version)[i], Alignment(version)[j];
      if !OnFinder(size, a, b) {
        PlacePattern(a, b);
      }
    }

    method PlaceAlignment(version: nat)
      requires Valid() && IsVersion(version) && size == Size(version)
      modifies modules, reserved
      ensures forall r, c :: In(r, c) ==> reserved[r, c] == (old(reserved[r, c]) || InAlignment(version, r, c))
      ensures forall r, c :: In(r, c) && !InAlignment(version, r, c) ==> modules[r, c] == old(modules[r, c])
      ensures forall i, j, r, c :: In(r, c) && InPattern(version, i, j, r, c) ==>
        (modules[r, c] == PatternDark(version, i, j, r, c))
    {
      var centres := Alignment(version);
      for i := 0 to |centres|
        invariant forall r, c :: In(r, c) ==>
          (reserved[r, c] == (old(reserved[r, c]) || InPatternsBefore(version, i, 0, r, c)))
        invariant forall r, c :: In(r, c) && !InAlignment(version, r, c) ==> modules[r, c] == old(modules[r, c])
        invariant forall a, b, r, c :: In(r, c) && InPattern(version, a, b, r, c) && a < i ==>
          (modules[r, c] == PatternDark(version, a, b, r, c))
      {
        for j := 0 to |centres|
          invariant forall r, c :: In(r, c) ==>
            (reserved[r, c] == (old(reserved[r, c]) || InPatternsBefore(version, i, j, r, c)))
          invariant forall r, c :: In(r, c) && !InAlignment(version, r, c) ==> modules[r, c] == old(modules[r, c])
          invariant forall a, b, r, c :: In(r, c) && InPattern(version, a, b, r, c) && (a < i || (a == i && b < j)) ==>
            (modules[r, c] == PatternDark(version, a, b, r, c))
        {
          PlacePatternAt(version, i, j);
          PatternsStep(version, i, j);
        }
        PatternsRow(version, i);
      }
    }

    // -- format and version areas --

    method ReserveFormat(version: nat)
      requires Valid() && IsVersion(version) && size == Size(version)
      modifies modules, reserved
      ensures forall r, c :: In(r, c) ==>
        (reserved[r, c] == (old(reserved[r, c]) || InFormatArea(size, r, c) || InVersionArea(version, r, c)))
      ensures forall r, c :: In(r, c) ==>
        (modules[r, c] ==
          if r == size - 8 && c == 8 then true
          else if InFormatArea(size, r, c) || InVersionArea(version, r, c) then false
          else old(modules[r, c]))
    {
      for i := 0 to 9
        invariant forall r, c :: In(r, c) ==> reserved[r, c] == (old(reserved[r, c]) || InFormatStart(i, r, c))
        invariant forall r, c :: In(r, c) ==>
          (modules[r, c] == if InFormatStart(i, r, c) then false else old(modules[r, c]))
      {
        if i != 6 {
          Set(8, i, false);
          Set(i, 8, false);
        }
      }
      for i := 0 to 8
        invariant forall r, c :: In(r, c) ==>
          (reserved[r, c] == (old(reserved[r, c]) || InFormatStart(9, r, c) || InFormatEnd(size, i, r, c)))
        invariant forall r, c :: In(r, c) ==>
          (modules[r, c] ==
            if InFormatStart(9, r, c) || InFormatEnd(size, i, r, c) then false else old(modules[r, c]))
      {
        Set(8, size - 1 - i, false);
        Set(size - 1 - i, 8, false);
      }
      Set(size - 8, 8, true);
      if version >= 7 {
        ReserveVersion();
      }
    }

    method ReserveVersion()
      requires Valid()
      modifies modules, reserved
      ensures forall r, c :: In(r, c) ==>
        (reserved[r, c] == (old(reserved[r, c]) || VersionIndex(size, r, c) >= 0))
      ensures forall r, c :: In(r, c) ==>
        (modules[r, c] == if VersionIndex(size, r, c) >= 0 then false else old(modules[r, c]))
    {
      for i := 0 to 18
        invariant forall r, c :: In(r, c) ==>
          (reserved[r, c] == (old(reserved[r, c]) || 0 <= VersionIndex(size, r, c) < i))
        invariant forall r, c :: In(r, c) ==>
          (modules[r, c] == if 0 <= VersionIndex(size, r, c) < i then false else old(modules[r, c]))
      {
        Set(i / 3, size - 11 + i % 3, false);
        Set(size - 11 + i % 3, i / 3, false);
      }
    }

    /** Both copies of the fifteen format bits. */
    method WriteFormat(level: EccLevel, mask: nat) returns (ghost bits: nat)
      requires Valid() && mask < 8
      modifies modules, reserved
      ensures IsFormat(bits, level, mask)
      ensures forall r, c :: In(r, c) ==>
        (modules[r, c] ==
          if FormatIndex(size, r, c) >= 0 then BitAt(bits, FormatIndex(size, r, c)) else old(modules[r, c]))
    {
      var word := FormatBits(level, mask);
      bits := word;
      var last := size - 1;
      for i := 0 to 15
        invariant forall r, c :: In(r, c) ==>
          (modules[r, c] ==
            if 0 <= FormatIndex(size, r, c) < i then BitAt(word, FormatIndex(size, r, c)) else old(modules[r, c]))
      {
        var bit := BitAt(word, i);
        if i < 6 {
          Set(i, 8, bit);
        } else if i < 8 {
          Set(i + 1, 8, bit);
        } else {
          Set(size - 15 + i, 8, bit);
        }
        if i < 8 {
          Set(8, last - i, bit);
        } else if i == 8 {
          Set(8, 7, bit);
        } else {
          Set(8, 14 - i, bit);
        }
      }
    }

    /** Both copies of the eighteen version bits, for the versions that carry them. */
    method WriteVersion(version: nat) returns (ghost bits: nat)
      requires Valid() && IsVersion(version)
      modifies modules, reserved
      ensures version >= 7 ==> IsBchWord(bits, version, 0x1f25, 12)
      ensures forall r, c :: In(r, c) ==>
        (reserved[r, c] == (old(reserved[r, c]) || (version >= 7 && VersionIndex(size, r, c) >= 0)))
      ensures forall r, c :: In(r, c) ==>
        (modules[r, c] ==
          if version >= 7 && VersionIndex(size, r, c) >= 0 then BitAt(bits, VersionIndex(size, r, c))
          else old(modules[r, c]))
    {
      bits := 0;
      if version < 7 {
        return;
      }
      var word := VersionBits(version);
      bits := word;
      for i := 0 to 18
        invariant forall r, c :: In(r, c) ==>
          (reserved[r, c] == (old(reserved[r, c]) || 0 <= VersionIndex(size, r, c) < i))
        invariant forall r, c :: In(r, c) ==>
          (modules[r, c] ==
            if 0 <= VersionIndex(size, r, c) < i then BitAt(word, VersionIndex(size, r, c)) else old(modules[r, c]))
      {
        var bit, row, col := BitAt(word, i), i / 3, size - 11 + i % 3;
        VersionCells(size, i);
        Set(row, col, bit);
        Set(col, row, bit);
      }
    }
  }

  /** Bit `i` of the version information stands in two cells, mirrored in the diagonal, and nowhere else. */
  lemma {:induction false} VersionCells(size: nat, i: nat)
    requires size >= 21 && i < 18
    ensures forall r, c :: VersionIndex(size, r, c) == i <==>
      (r == i / 3 && c == size - 11 + i % 3) || (c == i / 3 && r == size - 11 + i % 3)
  {
  }

  /** The patterns of the first `n` rows of centres, and the first `m` of row `n`. */
  ghost predicate InPatternsBefore(version: nat, n: int, m: int, r: int, c: int) {
    exists i, j :: 0 <= i < 3 && 0 <= j < 3 && (i < n || (i == n && j < m)) && InPattern(version, i, j, r, c)
  }

  /** No cell belongs to two patterns. */
  lemma {:induction false} PatternsApart(version: nat, i: int, j: int, a: int, b: int, r: int, c: int)
    requires IsVersion(version) && InPattern(version, i, j, r, c) && InPattern(version, a, b, r, c)
    ensures i == a && j == b
  {
    CentresApart(version);
  }

  lemma {:induction false} PatternsStep(version: nat, i: int, j: int)
    requires IsVersion(version) && 0 <= i < |Alignment(version)| && 0 <= j < |Alignment(version)|
    ensures forall r, c ::
      (InPatternsBefore(version, i, j + 1, r, c) <==> InPatternsBefore(version, i, j, r, c) || InPattern(version, i, j, r, c))
    ensures forall r, c :: InPattern(version, i, j, r, c) ==> InAlignment(version, r, c)
    ensures forall a, b, r, c :: InPattern(version, a, b, r, c) && InPattern(version, i, j, r, c) ==> a == i && b == j
  {
    forall a, b, r, c | InPattern(version, a, b, r, c) && InPattern(version, i, j, r, c)
      ensures a == i && b == j
    {
      PatternsApart(version, i, j, a, b, r, c);
    }
  }

  lemma {:induction false} PatternsRow(version: nat, i: int)
    requires IsVersion(version) && 0 <= i < |Alignment(version)|
    ensures forall r, c ::
      (InPatternsBefore(version, i + 1, 0, r, c) <==> InPatternsBefore(version, i, |Alignment(version)|, r, c))
  {
  }

  lemma {:induction false} CentresApart(version: nat)
    requires IsVersion(version)
    ensures forall i :: 0 <= i < |Alignment(version)| ==> 6 <= Alignment(version)[i] <= Size(version) - 7
    ensures forall i, j :: 0 <= i < j < |Alignment(version)| ==> Alignment(version)[i] + 12 <= Alignment(version)[j]
  {
    AlignmentForm(version);
  }
}
