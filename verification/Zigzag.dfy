/** The order in which data modules are visited: two-column strips, alternately upwards and downwards. */
module Zigzag {

  /** A row and a column. */
  type Coord = (int, int)

  // ---- the path ----

  function StripCell(size: nat, right: nat, upward: bool, k: nat): Coord {
    (if upward then size - 1 - k / 2 else k / 2, right - k % 2)
  }

  /** The cells of columns `right` and `right - 1`, row by row. */
  function Strip(size: nat, right: nat, upward: bool): (s: seq<Coord>)
    ensures |s| == 2 * size
  {
    seq(2 * size, k requires 0 <= k < 2 * size => StripCell(size, right, upward, k))
  }

  /** Column 6 carries the vertical timing pattern, so a strip that would start there starts at 5. */
  function SkipTiming(right: int): int {
    if right == 6 then 5 else right
  }

  /** The strips from column `right` leftwards. */
  function Path(size: nat, right: int, upward: bool): seq<Coord>
    decreases if right > 0 then right else 0
  {
    if right <= 0 then [] else
      Strip(size, SkipTiming(right), upward) + Path(size, SkipTiming(right) - 2, !upward)
  }

  // ---- every cell outside column 6 once, and nothing else ----

  /** The positions of the strip edge that the loop over columns can reach in a symbol of odd size. */
  predicate IsStripEdge(right: int) {
    (right >= 6 && right % 2 == 0) || (-1 <= right <= 5 && right % 2 == 1)
  }

  predicate InStrips(size: nat, right: int, c: Coord) {
    0 <= c.0 < size && 0 <= c.1 <= right && c.1 != 6
  }

  lemma {:induction false} StripMember(size: nat, right: nat, upward: bool, c: Coord)
    requires right > 0
    ensures c in Strip(size, right, upward) <==> 0 <= c.0 < size && right - 1 <= c.1 <= right
  {
    var s := Strip(size, right, upward);
    if c in s {
      var k :| 0 <= k < |s| && s[k] == c;
    }
    if 0 <= c.0 < size && right - 1 <= c.1 <= right {
      var step := if upward then size - 1 - c.0 else c.0;
      assert s[2 * step + (right - c.1)] == c;
    }
  }

  lemma {:induction false} InEither(a: seq<Coord>, b: seq<Coord>, c: Coord)
    ensures c in a + b <==> c in a || c in b
  {
  }

  lemma {:induction false} PathMember(size: nat, right: int, upward: bool, c: Coord)
    requires IsStripEdge(right)
    ensures c in Path(size, right, upward) <==> InStrips(size, right, c)
    decreases if right > 0 then right else 0
  {
    if right <= 0 {
    } else {
      var r := SkipTiming(right);
      var strip, rest := Strip(size, r, upward), Path(size, r - 2, !upward);
      StripMember(size, r, upward, c);
      PathMember(size, r - 2, !upward, c);
      InEither(strip, rest, c);
    }
  }

  ghost predicate Distinct<T>(s: seq<T>) {
    forall j, k :: 0 <= j < k < |s| ==> s[j] != s[k]
  }

  lemma {:induction false} DistinctConcat<T>(a: seq<T>, b: seq<T>)
    requires Distinct(a) && Distinct(b) && forall x :: x in a ==> x !in b
    ensures Distinct(a + b)
  {
    forall j, k | 0 <= j < k < |a + b|
      ensures (a + b)[j] != (a + b)[k]
    {
      if j < |a| <= k {
        assert a[j] in a && b[k - |a|] in b;
      }
    }
  }

  lemma {:induction false} StripDistinct(size: nat, right: nat, upward: bool)
    ensures Distinct(Strip(size, right, upward))
  {
  }

  lemma {:induction false} PathDistinct(size: nat, right: int, upward: bool)
    requires IsStripEdge(right)
    ensures Distinct(Path(size, right, upward))
    decreases if right > 0 then right else 0
  {
    if right <= 0 {
    } else {
      var r := SkipTiming(right);
      var strip, rest := Strip(size, r, upward), Path(size, r - 2, !upward);
      StripDistinct(size, r, upward);
      PathDistinct(size, r - 2, !upward);
      forall c | c in strip
        ensures c !in rest
      {
        StripMember(size, r, upward, c);
        PathMember(size, r - 2, !upward, c);
      }
      DistinctConcat(strip, rest);
    }
  }

  // ---- the order ----

  /** Which two-column strip a column belongs to, counted from the right edge; column 6 belongs to none. */
  function StripOf(size: nat, col: int): int {
    if col > 6 then (size - 1 - col) / 2 else (size - 2 - col) / 2
  }

  /** The reading order: strips from the right, every other one upwards, and the right-hand column of a row first. */
  predicate Before(size: nat, a: Coord, b: Coord) {
    var s, t := StripOf(size, a.1), StripOf(size, b.1);
    if s != t then s < t
    else if a.0 != b.0 then (if s % 2 == 0 then a.0 > b.0 else a.0 < b.0)
    else a.1 > b.1
  }

  ghost predicate InOrder(size: nat, cells: seq<Coord>) {
    forall j, k :: 0 <= j < k < |cells| ==> Before(size, cells[j], cells[k])
  }

  lemma {:induction false} StripNumbers(size: nat, r: int, col: int)
    requires size % 2 == 1 && 0 < r < size && ((r > 6 && r % 2 == 0) || (r < 6 && r % 2 == 1)) && 0 <= col <= r && col != 6
    ensures col >= r - 1 ==> StripOf(size, col) == StripOf(size, r)
    ensures col <= r - 2 ==> StripOf(size, col) > StripOf(size, r)
    ensures r > 2 ==> StripOf(size, SkipTiming(r - 2)) == StripOf(size, r) + 1
  {
  }

  lemma {:induction false} StripInOrder(size: nat, r: nat, upward: bool)
    requires size % 2 == 1 && 0 < r < size && ((r > 6 && r % 2 == 0) || (r < 6 && r % 2 == 1))
    requires upward == (StripOf(size, r) % 2 == 0)
    ensures InOrder(size, Strip(size, r, upward))
  {
    StripNumbers(size, r, r - 1);
  }

  lemma {:induction false} OrderConcat(size: nat, a: seq<Coord>, b: seq<Coord>)
    requires InOrder(size, a) && InOrder(size, b) && forall x, y :: x in a && y in b ==> Before(size, x, y)
    ensures InOrder(size, a + b)
  {
    forall j, k | 0 <= j < k < |a + b|
      ensures Before(size, (a + b)[j], (a + b)[k])
    {
      if j < |a| <= k {
        assert a[j] in a && b[k - |a|] in b;
      }
    }
  }

  lemma {:induction false} StripFirst(size: nat, r: nat, upward: bool, x: Coord, y: Coord)
    requires size % 2 == 1 && 0 < r < size && ((r > 6 && r % 2 == 0) || (r < 6 && r % 2 == 1)) && IsStripEdge(r - 2)
    requires x in Strip(size, r, upward) && y in Path(size, r - 2, !upward)
    ensures Before(size, x, y)
  {
    StripMember(size, r, upward, x);
    PathMember(size, r - 2, !upward, y);
    StripNumbers(size, r, x.1);
    StripNumbers(size, r, y.1);
  }

  lemma {:induction false} StripThenRest(size: nat, r: nat, upward: bool)
    requires size % 2 == 1 && 0 < r < size && ((r > 6 && r % 2 == 0) || (r < 6 && r % 2 == 1)) && IsStripEdge(r - 2)
    requires upward == (StripOf(size, r) % 2 == 0) && InOrder(size, Path(size, r - 2, !upward))
    ensures InOrder(size, Strip(size, r, upward) + Path(size, r - 2, !upward))
  {
    var strip, rest := Strip(size, r, upward), Path(size, r - 2, !upward);
    StripInOrder(size, r, upward);
    forall x, y | x in strip && y in rest
      ensures Before(size, x, y)
    {
      StripFirst(size, r, upward, x, y);
    }
    OrderConcat(size, strip, rest);
  }

  lemma {:induction false} PathInOrder(size: nat, right: int, upward: bool)
    requires size % 2 == 1 && IsStripEdge(right) && right < size
    requires right > 0 ==> upward == (StripOf(size, SkipTiming(right)) % 2 == 0)
    ensures InOrder(size, Path(size, right, upward))
    decreases if right > 0 then right else 0
  {
    if right <= 0 {
    } else {
      var r := SkipTiming(right);
      StripNumbers(size, r, r);
      PathInOrder(size, r - 2, !upward);
      StripThenRest(size, r, upward);
    }
  }

  // ---- the cells left for data ----

  /** The cells of `path` that are not taken, in order. */
  function Free(path: seq<Coord>, taken: set<Coord>): seq<Coord> {
    if path == [] then [] else
      var c := path[|path| - 1];
      Free(path[..|path| - 1], taken) + (if c in taken then [] else [c])
  }

  /** The cells left for data in a grid of this size, in the order of the zigzag. */
  function FreeCells(size: nat, taken: set<Coord>): seq<Coord> {
    Free(Path(size, size - 1, true), taken)
  }

  lemma {:induction false} FreeSnoc(path: seq<Coord>, c: Coord, taken: set<Coord>)
    ensures Free(path + [c], taken) == Free(path, taken) + (if c in taken then [] else [c])
  {
    assert (path + [c])[..|path|] == path;
  }

  lemma {:induction false} FreeMember(path: seq<Coord>, taken: set<Coord>, c: Coord)
    ensures c in Free(path, taken) <==> c in path && c !in taken
  {
    if path == [] {
    } else {
      FreeMember(path[..|path| - 1], taken, c);
      assert path == path[..|path| - 1] + [path[|path| - 1]];
    }
  }

  lemma {:induction false} FreeCellsMember(size: nat, taken: set<Coord>, c: Coord)
    requires IsStripEdge(size - 1)
    ensures c in FreeCells(size, taken) <==> InStrips(size, size - 1, c) && c !in taken
  {
    PathMember(size, size - 1, true, c);
    FreeMember(Path(size, size - 1, true), taken, c);
  }

  lemma {:induction false} FreeInOrder(size: nat, path: seq<Coord>, taken: set<Coord>)
    requires InOrder(size, path)
    ensures InOrder(size, Free(path, taken))
  {
    if path == [] {
    } else {
      var front, c := path[..|path| - 1], path[|path| - 1];
      FreeInOrder(size, front, taken);
      forall x | x in Free(front, taken)
        ensures Before(size, x, c)
      {
        FreeMember(front, taken, x);
      }
      OrderConcat(size, Free(front, taken), if c in taken then [] else [c]);
    }
  }

  /** The free cells are visited in the reading order, which begins upwards at the right edge. */
  lemma {:induction false} FreeCellsInOrder(size: nat, taken: set<Coord>)
    requires size % 2 == 1 && IsStripEdge(size - 1)
    ensures InOrder(size, FreeCells(size, taken))
  {
    PathInOrder(size, size - 1, true);
    FreeInOrder(size, Path(size, size - 1, true), taken);
  }

  lemma {:induction false} OrderIsStrict(size: nat, a: Coord, b: Coord)
    requires Before(size, a, b)
    ensures a != b && !Before(size, b, a)
  {
  }

  lemma {:induction false} SomethingIn(a: seq<Coord>)
    requires a != []
    ensures exists c :: c in a
  {
    assert a[0] in a;
  }

  /** The order leaves only one way to list a set of cells. */
  lemma {:induction false} OrderDecides(size: nat, a: seq<Coord>, b: seq<Coord>)
    requires InOrder(size, a) && InOrder(size, b) && forall c :: c in a <==> c in b
    ensures a == b
    decreases |a|
  {
    if a == [] || b == [] {
      if a != [] {
        SomethingIn(a);
      } else if b != [] {
        SomethingIn(b);
      }
    } else {
      var m, n := |a| - 1, |b| - 1;
      LastAgree(size, a, b);
      forall c
        ensures c in a[..m] <==> c in b[..n]
      {
        FrontMember(size, a, c);
        FrontMember(size, b, c);
      }
      OrderDecides(size, a[..m], b[..n]);
      assert a == a[..m] + [a[m]] && b == b[..n] + [b[n]];
    }
  }

  lemma {:induction false} LastAgree(size: nat, a: seq<Coord>, b: seq<Coord>)
    requires InOrder(size, a) && InOrder(size, b) && a != [] && b != [] && forall c :: c in a <==> c in b
    ensures a[|a| - 1] == b[|b| - 1]
  {
    var m, n := |a| - 1, |b| - 1;
    assert a[m] in b && b[n] in a;
    var j :| 0 <= j <= m && a[j] == b[n];
    var k :| 0 <= k <= n && b[k] == a[m];
    if j < m && k < n {
      OrderIsStrict(size, a[j], a[m]);
    }
  }

  lemma {:induction false} FrontMember(size: nat, a: seq<Coord>, c: Coord)
    requires InOrder(size, a) && a != []
    ensures c in a[..|a| - 1] <==> c in a && c != a[|a| - 1]
  {
    var m := |a| - 1;
    if c in a[..m] {
      var j :| 0 <= j < m && a[j] == c;
      OrderIsStrict(size, a[j], a[m]);
    }
  }

  lemma {:induction false} FreeDistinct(path: seq<Coord>, taken: set<Coord>)
    requires Distinct(path)
    ensures Distinct(Free(path, taken))
  {
    if path == [] {
    } else {
      var n := |path| - 1;
      var c := path[n];
      FreeDistinct(path[..n], taken);
      FreeMember(path[..n], taken, c);
      assert c !in path[..n];
    }
  }

  lemma {:induction false} DistinctCount<T>(s: seq<T>)
    requires Distinct(s)
    ensures |set x | x in s| == |s|
  {
    if s == [] {
    } else {
      var n := |s| - 1;
      DistinctCount(s[..n]);
      assert s[n] !in s[..n];
      assert (set x | x in s) == (set x | x in s[..n]) + {s[n]};
    }
  }
}
