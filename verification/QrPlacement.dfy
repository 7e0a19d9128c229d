/** Writing the masked codeword stream along the zigzag. */
module QrPlacement {
  import opened Bitwise
  import opened QrGrid
  import opened Zigzag

  /** The eight mask patterns of ISO/IEC 18004 section 7.8.2. */
  predicate MaskAt(mask: nat, row: nat, col: nat) {
    match mask
    case 0 => (row + col) % 2 == 0
    case 1 => row % 2 == 0
    case 2 => col % 3 == 0
    case 3 => (row + col) % 3 == 0
    case 4 => (row / 2 + col / 3) % 2 == 0
    case 5 => (row * col) % 2 + (row * col) % 3 == 0
    case 6 => ((row * col) % 2 + (row * col) % 3) % 2 == 0
    case _ => ((row + col) % 2 + (row * col) % 3) % 2 == 0
  }

  /** Bit `k` of the stream, most significant bit of each byte first; zero past the end. */
  predicate StreamBit(stream: seq<byte>, k: nat) {
    k / 8 < |stream| && BitAt(stream[k / 8], 7 - k % 8)
  }

  ghost predicate InGrid(size: nat, c: Coord) {
    0 <= c.0 < size && 0 <= c.1 < size
  }

  ghost predicate AllInGrid(size: nat, cells: seq<Coord>) {
    forall k :: 0 <= k < |cells| ==> InGrid(size, cells[k])
  }

  /** The cells hold the first bits of the stream, masked. */
  ghost predicate Holds(grid: Grid, cells: seq<Coord>, stream: seq<byte>, mask: nat)
    requires grid.Valid() && AllInGrid(grid.size, cells)
    reads grid, grid.modules
  {
    forall k :: 0 <= k < |cells| ==>
      (grid.modules[cells[k].0, cells[k].1] == (StreamBit(stream, k) != MaskAt(mask, cells[k].0, cells[k].1)))
  }

  ghost predicate Reserves(grid: Grid, taken: set<Coord>)
    requires grid.Valid()
    reads grid, grid.reserved
  {
    forall r, c :: grid.In(r, c) ==> (grid.reserved[r, c] <==> (r, c) in taken)
  }

  /** One more cell of the path, kept only if it is free. */
  function Kept(cells: seq<Coord>, c: Coord, taken: set<Coord>): seq<Coord> {
    cells + (if c in taken then [] else [c])
  }

  /** One cell of the zigzag: skipped when reserved, otherwise given the next bit. */
  method Visit(grid: Grid, row: int, col: int, stream: seq<byte>, mask: nat, bitIndex: nat,
               ghost cells: seq<Coord>, ghost taken: set<Coord>) returns (next: nat)
    requires grid.Valid() && grid.In(row, col) && Reserves(grid, taken)
    requires (row, col) !in cells && AllInGrid(grid.size, cells)
    requires bitIndex == |cells| && Holds(grid, cells, stream, mask)
    modifies grid.modules
    ensures next == |Kept(cells, (row, col), taken)| && AllInGrid(grid.size, Kept(cells, (row, col), taken))
    ensures Holds(grid, Kept(cells, (row, col), taken), stream, mask)
    ensures forall r, c :: grid.In(r, c) && (r, c) in taken ==> grid.modules[r, c] == old(grid.modules[r, c])
  {
    if grid.reserved[row, col] {
      return bitIndex;
    }
    var bit := StreamBit(stream, bitIndex);
    if MaskAt(mask, row, col) {
      bit := !bit;
    }
    grid.modules[row, col] := bit;
    next := bitIndex + 1;
  }

  /** The two cells of one row of a strip. */
  method VisitPair(grid: Grid, row: int, right: int, stream: seq<byte>, mask: nat, bitIndex: nat,
                   ghost cells: seq<Coord>, ghost taken: set<Coord>) returns (next: nat)
    requires grid.Valid() && grid.In(row, right) && 1 <= right && Reserves(grid, taken)
    requires (row, right) !in cells && (row, right - 1) !in cells && AllInGrid(grid.size, cells)
    requires bitIndex == |cells| && Holds(grid, cells, stream, mask)
    modifies grid.modules
    ensures var after := Kept(Kept(cells, (row, right), taken), (row, right - 1), taken);
      next == |after| && AllInGrid(grid.size, after) && Holds(grid, after, stream, mask)
    ensures forall r, c :: grid.In(r, c) && (r, c) in taken ==> grid.modules[r, c] == old(grid.modules[r, c])
  {
    next := Visit(grid, row, right, stream, mask, bitIndex, cells, taken);
    next := Visit(grid, row, right - 1, stream, mask, next, Kept(cells, (row, right), taken), taken);
  }

  // ---- the cells that the loops keep are the free cells of the path ----

  /** The cells kept after `n` rows of a strip. */
  ghost function KeptStrip(size: nat, right: nat, upward: bool, n: nat, cells: seq<Coord>, taken: set<Coord>): seq<Coord> {
    if n == 0 then cells else
      var row := if upward then size - n else n - 1;
      Kept(Kept(KeptStrip(size, right, upward, n - 1, cells, taken), (row, right), taken), (row, right - 1), taken)
  }

  /** The cells kept from column `right` to the end. */
  ghost function KeptPath(size: nat, right: int, upward: bool, cells: seq<Coord>, taken: set<Coord>): seq<Coord>
    decreases if right > 0 then right else 0
  {
    if right <= 0 then cells else
      KeptPath(size, SkipTiming(right) - 2, !upward,
               KeptStrip(size, SkipTiming(right), upward, size, cells, taken), taken)
  }

  lemma {:induction false} StripPair(size: nat, right: nat, upward: bool, n: nat)
    requires 0 < n <= size
    ensures var row := if upward then size - n else n - 1; var strip := Strip(size, right, upward);
      strip[..2 * n] == strip[..2 * (n - 1)] + [(row, right)] + [(row, right - 1)]
  {
    var row, strip := if upward then size - n else n - 1, Strip(size, right, upward);
    assert strip[2 * n - 2] == (row, right) && strip[2 * n - 1] == (row, right - 1);
  }

  lemma {:induction false} FreePair(before: seq<Coord>, a: Coord, b: Coord, taken: set<Coord>)
    ensures Free(before + [a] + [b], taken) == Kept(Kept(Free(before, taken), a, taken), b, taken)
  {
    FreeSnoc(before, a, taken);
    FreeSnoc(before + [a], b, taken);
  }

  lemma {:induction false} KeptStripFree(size: nat, right: nat, upward: bool, n: nat, done: seq<Coord>, taken: set<Coord>)
    requires n <= size
    ensures KeptStrip(size, right, upward, n, Free(done, taken), taken) ==
      Free(done + Strip(size, right, upward)[..2 * n], taken)
  {
    var strip := Strip(size, right, upward);
    if n == 0 {
      assert done + strip[..0] == done;
    } else {
      var row := if upward then size - n else n - 1;
      var before := done + strip[..2 * (n - 1)];
      KeptStripFree(size, right, upward, n - 1, done, taken);
      FreePair(before, (row, right), (row, right - 1), taken);
      assert before + [(row, right)] + [(row, right - 1)] == done + strip[..2 * n] by {
        StripPair(size, right, upward, n);
        ConcatAssoc(done, strip[..2 * (n - 1)], [(row, right)], [(row, right - 1)]);
      }
    }
  }

  lemma {:induction false} ConcatAssoc(a: seq<Coord>, b: seq<Coord>, c: seq<Coord>, d: seq<Coord>)
    ensures a + b + c + d == a + (b + c + d)
  {
  }

  lemma {:induction false} FullStrip(size: nat, right: nat, upward: bool, done: seq<Coord>, rest: seq<Coord>)
    ensures Strip(size, right, upward)[..2 * size] == Strip(size, right, upward)
    ensures done + Strip(size, right, upward) + rest == done + (Strip(size, right, upward) + rest)
  {
  }

  lemma {:induction false} KeptPathFree(size: nat, right: int, upward: bool, done: seq<Coord>, taken: set<Coord>)
    ensures KeptPath(size, right, upward, Free(done, taken), taken) == Free(done + Path(size, right, upward), taken)
    decreases if right > 0 then right else 0
  {
    if right <= 0 {
      assert done + Path(size, right, upward) == done;
    } else {
      var r := SkipTiming(right);
      KeptStripFree(size, r, upward, size, done, taken);
      FullStrip(size, r, upward, done, Path(size, r - 2, !upward));
      KeptPathFree(size, r - 2, !upward, done + Strip(size, r, upward), taken);
    }
  }

  /** Where the cells kept by a strip lie. */
  lemma {:induction false} KeptStripWhere(size: nat, right: nat, upward: bool, n: nat, cells: seq<Coord>, taken: set<Coord>, c: Coord)
    requires n <= size && c in KeptStrip(size, right, upward, n, cells, taken)
    ensures c in cells || (right - 1 <= c.1 <= right && (if upward then c.0 >= size - n else c.0 < n))
  {
    if n == 0 {
    } else {
      var row := if upward then size - n else n - 1;
      if c != (row, right) && c != (row, right - 1) {
        KeptStripWhere(size, right, upward, n - 1, cells, taken, c);
      }
    }
  }

  ghost predicate RightOf(cells: seq<Coord>, right: int) {
    forall c :: c in cells ==> c.1 > right
  }

  lemma {:induction false} KeptStripRightOf(size: nat, right: nat, upward: bool, cells: seq<Coord>, taken: set<Coord>)
    requires RightOf(cells, right)
    ensures RightOf(KeptStrip(size, right, upward, size, cells, taken), right - 2)
  {
    forall c | c in KeptStrip(size, right, upward, size, cells, taken)
      ensures c.1 > right - 2
    {
      KeptStripWhere(size, right, upward, size, cells, taken, c);
    }
  }

  lemma {:induction false} NewInStrip(size: nat, right: nat, upward: bool, n: nat, cells: seq<Coord>, taken: set<Coord>, row: int)
    requires n < size && RightOf(cells, right) && row == if upward then size - 1 - n else n
    ensures (row, right) !in KeptStrip(size, right, upward, n, cells, taken)
    ensures (row, right - 1) !in KeptStrip(size, right, upward, n, cells, taken)
  {
    forall c | c in KeptStrip(size, right, upward, n, cells, taken)
      ensures c != (row, right) && c != (row, right - 1)
    {
      KeptStripWhere(size, right, upward, n, cells, taken, c);
    }
  }

  lemma {:induction false} WholePath(size: nat, taken: set<Coord>)
    ensures KeptPath(size, size - 1, true, [], taken) == FreeCells(size, taken)
  {
    KeptPathFree(size, size - 1, true, [], taken);
    assert [] + Path(size, size - 1, true) == Path(size, size - 1, true);
  }

  // ---- the loops ----

  /** One strip of two columns. */
  method PlaceStrip(grid: Grid, right: int, upward: bool, stream: seq<byte>, mask: nat, bitIndex: nat,
                    ghost cells: seq<Coord>, ghost taken: set<Coord>) returns (next: nat, ghost after: seq<Coord>)
    requires grid.Valid() && 1 <= right < grid.size && Reserves(grid, taken)
    requires AllInGrid(grid.size, cells) && RightOf(cells, right)
    requires bitIndex == |cells| && Holds(grid, cells, stream, mask)
    modifies grid.modules
    ensures after == KeptStrip(grid.size, right, upward, grid.size, cells, taken) && RightOf(after, right - 2)
    ensures next == |after| && AllInGrid(grid.size, after) && Holds(grid, after, stream, mask)
    ensures forall r, c :: grid.In(r, c) && (r, c) in taken ==> grid.modules[r, c] == old(grid.modules[r, c])
  {
    next := bitIndex;
    after := cells;
    for step := 0 to grid.size
      invariant after == KeptStrip(grid.size, right, upward, step, cells, taken)
      invariant next == |after| && AllInGrid(grid.size, after) && Holds(grid, after, stream, mask)
      invariant forall r, c :: grid.In(r, c) && (r, c) in taken ==> grid.modules[r, c] == old(grid.modules[r, c])
    {
      var row := if upward then grid.size - 1 - step else step;
      NewInStrip(grid.size, right, upward, step, cells, taken, row);
      next := VisitPair(grid, row, right, stream, mask, next, after, taken);
      after := Kept(Kept(after, (row, right), taken), (row, right - 1), taken);
    }
    KeptStripRightOf(grid.size, right, upward, cells, taken);
  }

  lemma {:induction false} KeptPathStep(size: nat, right: int, upward: bool, cells: seq<Coord>, taken: set<Coord>)
    requires right > 0
    ensures KeptPath(size, right, upward, cells, taken) ==
      KeptPath(size, SkipTiming(right) - 2, !upward, KeptStrip(size, SkipTiming(right), upward, size, cells, taken), taken)
    ensures RightOf(cells, right) ==> RightOf(cells, SkipTiming(right))
  {
  }

  /** The whole stream, along the whole zigzag. */
  method PlaceData(grid: Grid, stream: seq<byte>, mask: nat, ghost taken: set<Coord>)
    requires grid.Valid() && grid.size % 2 == 1 && Reserves(grid, taken)
    modifies grid.modules
    ensures AllInGrid(grid.size, FreeCells(grid.size, taken)) && Holds(grid, FreeCells(grid.size, taken), stream, mask)
    ensures forall r, c :: grid.In(r, c) && (r, c) in taken ==> grid.modules[r, c] == old(grid.modules[r, c])
  {
    ghost var cells := PlaceFrom(grid, grid.size - 1, true, stream, mask, 0, [], taken);
    WholePath(grid.size, taken);
  }

  /** The loop over strips, from column `start` leftwards. */
  method PlaceFrom(grid: Grid, start: int, first: bool, stream: seq<byte>, mask: nat, bitStart: nat,
                   ghost before: seq<Coord>, ghost taken: set<Coord>) returns (ghost cells: seq<Coord>)
    requires grid.Valid() && -1 <= start < grid.size && Reserves(grid, taken)
    requires RightOf(before, start) && AllInGrid(grid.size, before)
    requires bitStart == |before| && Holds(grid, before, stream, mask)
    modifies grid.modules
    ensures cells == KeptPath(grid.size, start, first, before, taken)
    ensures AllInGrid(grid.size, cells) && Holds(grid, cells, stream, mask)
    ensures forall r, c :: grid.In(r, c) && (r, c) in taken ==> grid.modules[r, c] == old(grid.modules[r, c])
  {
    cells := before;
    var bitIndex, upward, right := bitStart, first, start;
    while right > 0
      invariant -1 <= right < grid.size && RightOf(cells, right)
      invariant KeptPath(grid.size, right, upward, cells, taken) == KeptPath(grid.size, start, first, before, taken)
      invariant bitIndex == |cells| && AllInGrid(grid.size, cells) && Holds(grid, cells, stream, mask)
      invariant forall r, c :: grid.In(r, c) && (r, c) in taken ==> grid.modules[r, c] == old(grid.modules[r, c])
      decreases right
    {
      KeptPathStep(grid.size, right, upward, cells, taken);
      if right == 6 {
        right := 5;
      }
      bitIndex, cells := PlaceStrip(grid, right, upward, stream, mask, bitIndex, cells, taken);
      upward := !upward;
      right := right - 2;
    }
  }
}
