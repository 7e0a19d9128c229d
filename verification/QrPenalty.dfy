/** The four penalty rules of ISO/IEC 18004 section 7.8.3, which choose the mask. */
module QrPenalty {
  import opened Arith
  import opened QrGrid
  import opened Zigzag

  // ---- lines of a matrix ----

  function Column(m: Matrix, c: nat): (line: seq<bool>)
    requires forall r :: 0 <= r < |m| ==> c < |m[r]|
    ensures |line| == |m| && forall r :: 0 <= r < |m| ==> line[r] == m[r][c]
  {
    seq(|m|, r requires 0 <= r < |m| => m[r][c])
  }

  /** Row `a`, or column `a`. */
  function Line(m: Matrix, byRow: bool, a: nat): (line: seq<bool>)
    requires IsSquare(m, |m|) && a < |m|
    ensures |line| == |m|
  {
    if byRow then m[a] else Column(m, a)
  }

  // ---- rule 1: runs of one colour ----

  /** A maximal run begins at `i`. */
  predicate StartsRun(line: seq<bool>, i: nat)
    requires i < |line|
  {
    i == 0 || line[i - 1] != line[i]
  }

  /** How far the colour at `i` goes on from there. */
  function RunLength(line: seq<bool>, i: nat): nat
    requires i < |line|
    decreases |line| - i
  {
    if i + 1 < |line| && line[i + 1] == line[i] then 1 + RunLength(line, i + 1) else 1
  }

  function RunWorth(length: nat): nat {
    if length >= 5 then length - 2 else 0
  }

  /** The worth of every maximal run that begins before `n`. */
  function RunsScore(line: seq<bool>, n: nat): nat
    requires n <= |line|
  {
    if n == 0 then 0
    else RunsScore(line, n - 1) + (if StartsRun(line, n - 1) then RunWorth(RunLength(line, n - 1)) else 0)
  }

  predicate OneColour(line: seq<bool>, from: nat, end: nat)
    requires from < end <= |line|
  {
    forall k :: from <= k < end ==> line[k] == line[from]
  }

  /** A stretch of one colour that cannot be prolonged is as long as its run. */
  lemma {:induction false} RunLengthIs(line: seq<bool>, from: nat, end: nat)
    requires from < end <= |line| && OneColour(line, from, end) && (end < |line| ==> line[end] != line[from])
    ensures RunLength(line, from) == end - from
    decreases end - from
  {
    if from + 1 >= end {
    } else {
      RunLengthIs(line, from + 1, end);
    }
  }

  /** No other run begins inside a stretch of one colour. */
  lemma {:induction false} NoStartInside(line: seq<bool>, from: nat, end: nat)
    requires from < end <= |line| && OneColour(line, from, end)
    ensures RunsScore(line, end) == RunsScore(line, from + 1)
    decreases end - from
  {
    if from + 1 >= end {
    } else {
      NoStartInside(line, from, end - 1);
      assert line[end - 2] == line[end - 1];
    }
  }

  lemma {:induction false} RunEnds(line: seq<bool>, from: nat, end: nat)
    requires from < end <= |line| && OneColour(line, from, end) && (end < |line| ==> line[end] != line[from])
    requires StartsRun(line, from)
    ensures RunsScore(line, end) == RunsScore(line, from) + RunWorth(end - from)
  {
    RunLengthIs(line, from, end);
    NoStartInside(line, from, end);
  }

  /** One line: the inner loop with its running `length`. */
  method LineRuns(line: seq<bool>) returns (score: nat)
    requires |line| > 0
    ensures score == RunsScore(line, |line|)
  {
    score := 0;
    var length := 1;
    for b := 1 to |line|
      invariant 1 <= length <= b && OneColour(line, b - length, b) && StartsRun(line, b - length)
      invariant score == RunsScore(line, b - length)
    {
      if line[b] == line[b - 1] {
        length := length + 1;
      } else {
        RunEnds(line, b - length, b);
        if length >= 5 {
          score := score + (length - 2);
        }
        length := 1;
      }
    }
    RunEnds(line, |line| - length, |line|);
    if length >= 5 {
      score := score + (length - 2);
    }
  }

  /** The first `n` rows, or columns. */
  function LinesScore(m: Matrix, byRow: bool, n: nat): nat
    requires IsSquare(m, |m|) && n <= |m|
  {
    if n == 0 then 0 else
      LinesScore(m, byRow, n - 1) + RunsScore(Line(m, byRow, n - 1), |m|)
  }

  method Runs(m: Matrix, byRow: bool) returns (score: nat)
    requires IsSquare(m, |m|)
    ensures score == LinesScore(m, byRow, |m|)
  {
    score := 0;
    for a := 0 to |m|
      invariant score == LinesScore(m, byRow, a)
    {
      var s := LineRuns(Line(m, byRow, a));
      score := score + s;
    }
  }

  function N1(m: Matrix): nat
    requires IsSquare(m, |m|)
  {
    LinesScore(m, true, |m|) + LinesScore(m, false, |m|)
  }

  // ---- rule 2: two-by-two blocks of one colour ----

  predicate IsBlock(m: Matrix, r: int, c: int)
    requires IsSquare(m, |m|) && 0 <= r < |m| - 1 && 0 <= c < |m| - 1
  {
    m[r][c] == m[r][c + 1] == m[r + 1][c] == m[r + 1][c + 1]
  }

  /** The blocks with their upper left corner in the first `rows` rows, or in the next one left of `cols`. */
  ghost function BlocksBefore(m: Matrix, rows: nat, cols: nat): set<Coord>
    requires IsSquare(m, |m|)
  {
    set r: int, c: int | 0 <= r < |m| - 1 && 0 <= c < |m| - 1 && IsBlock(m, r, c)
                         && (r < rows || (r == rows && c < cols)) :: (r, c)
  }

  /** Upper left corners of the blocks of one colour. */
  ghost function Blocks(m: Matrix): set<Coord>
    requires IsSquare(m, |m|)
  {
    BlocksBefore(m, |m|, 0)
  }

  method CountBlocks(m: Matrix) returns (score: nat)
    requires IsSquare(m, |m|)
    ensures score == 3 * |Blocks(m)|
  {
    score := 0;
    assert BlocksBefore(m, 0, 0) == {};
    var r := 0;
    while r < |m| - 1
      invariant 0 <= r <= |m| && (|m| > 0 ==> r < |m|) && score == 3 * |BlocksBefore(m, r, 0)|
    {
      for c := 0 to |m| - 1
        invariant score == 3 * |BlocksBefore(m, r, c)|
      {
        BlocksStep(m, r, c);
        var v := m[r][c];
        if v == m[r][c + 1] && v == m[r + 1][c] && v == m[r + 1][c + 1] {
          score := score + 3;
        }
      }
      assert BlocksBefore(m, r, |m| - 1) == BlocksBefore(m, r + 1, 0);
      r := r + 1;
    }
    assert BlocksBefore(m, r, 0) == Blocks(m);
  }

  lemma {:induction false} BlocksStep(m: Matrix, r: nat, c: nat)
    requires IsSquare(m, |m|) && r < |m| - 1 && c < |m| - 1
    ensures |BlocksBefore(m, r, c + 1)| == |BlocksBefore(m, r, c)| + if IsBlock(m, r, c) then 1 else 0
  {
    var before, after := BlocksBefore(m, r, c), BlocksBefore(m, r, c + 1);
    var corner := (r, c);
    assert after == before + if IsBlock(m, r, c) then {corner} else {};
  }

  // ---- rule 3: finder lookalikes ----

  /** Dark, light, three dark, light, dark. */
  const PATTERN: seq<bool> := [true, false, true, true, true, false, true]

  predicate MatchesAt(line: seq<bool>, i: int)
    requires 0 <= i
  {
    i + 7 <= |line| && forall k :: 0 <= k < 7 ==> line[i + k] == PATTERN[k]
  }

  predicate DarkIn(line: seq<bool>, from: int, to: int) {
    exists k :: from <= k < to && 0 <= k < |line| && line[k]
  }

  /** The pattern, with light or the edge of the symbol for four modules on at least one side. */
  predicate Qualifies(line: seq<bool>, i: int)
    requires 0 <= i
  {
    && MatchesAt(line, i)
    && (i == 0 || i == |line| - 7 || !DarkIn(line, i - 4, i) || !DarkIn(line, i + 7, i + 11))
  }

  method FindPattern(line: seq<bool>, from: nat) returns (found: int)
    ensures found == -1 ==> forall i :: from <= i ==> !MatchesAt(line, i)
    ensures found != -1 ==> from <= found && MatchesAt(line, found) && forall i :: from <= i < found ==> !MatchesAt(line, i)
  {
    var i := from;
    while i + 7 <= |line|
      invariant from <= i && forall k :: from <= k < i ==> !MatchesAt(line, k)
      decreases |line| - i
    {
      var j := 0;
      while j < 7 && line[i + j] == PATTERN[j]
        invariant 0 <= j <= 7 && forall k :: 0 <= k < j ==> line[i + k] == PATTERN[k]
      {
        j := j + 1;
      }
      if j == 7 {
        return i;
      }
      i := i + 1;
    }
    return -1;
  }

  method SomeDark(line: seq<bool>, from: nat, to: nat) returns (dark: bool)
    requires from <= to <= |line|
    ensures dark == DarkIn(line, from, to)
  {
    dark := false;
    for k := from to to
      invariant dark == DarkIn(line, from, k)
    {
      if line[k] {
        dark := true;
      }
    }
  }

  predicate ClearOf(chosen: set<int>, i: int) {
    forall s :: s in chosen ==> s + 7 <= i
  }

  /** Qualifying occurrences before `n`, from the left, leaving out those that overlap one already chosen. */
  ghost function Chosen(line: seq<bool>, n: nat): set<int> {
    if n == 0 then {} else
      var before := Chosen(line, n - 1);
      if Qualifies(line, n - 1) && ClearOf(before, n - 1) then before + {n - 1} else before
  }

  lemma {:induction false} ChosenBelow(line: seq<bool>, n: nat)
    ensures forall s :: s in Chosen(line, n) ==> 0 <= s < n && Qualifies(line, s)
  {
    if n == 0 {
    } else {
      ChosenBelow(line, n - 1);
    }
  }

  /** Where nothing qualifies, nothing is chosen. */
  lemma {:induction false} ChosenSkips(line: seq<bool>, a: nat, b: nat)
    requires a <= b && forall i :: a <= i < b ==> !Qualifies(line, i)
    ensures Chosen(line, b) == Chosen(line, a)
    decreases b - a
  {
    if a >= b {
    } else {
      ChosenSkips(line, a, b - 1);
    }
  }

  /** Nothing is chosen on top of a chosen occurrence. */
  lemma {:induction false} ChosenBlocks(line: seq<bool>, a: nat, b: nat)
    requires a < b <= a + 7 && a in Chosen(line, a + 1)
    ensures Chosen(line, b) == Chosen(line, a + 1)
    decreases b - a
  {
    if a + 1 >= b {
    } else {
      ChosenBlocks(line, a, b - 1);
    }
  }

  lemma {:induction false} PatternCells(line: seq<bool>, i: int)
    requires 0 <= i && MatchesAt(line, i)
    ensures line[i] && !line[i + 1] && line[i + 2] && line[i + 3] && line[i + 4]
  {
    assert line[i + 0] == PATTERN[0] && line[i + 1] == PATTERN[1] && line[i + 2] == PATTERN[2];
    assert line[i + 3] == PATTERN[3] && line[i + 4] == PATTERN[4];
  }

  /** The pattern cannot begin again one, two or three modules on. */
  lemma {:induction false} PatternShifts(line: seq<bool>, i: int, d: int)
    requires 0 <= i && MatchesAt(line, i) && 1 <= d <= 3
    ensures !MatchesAt(line, i + d)
  {
    PatternCells(line, i);
    if MatchesAt(line, i + d) {
      PatternCells(line, i + d);
    }
  }

  lemma {:induction false} AfterRejected(line: seq<bool>, i: nat)
    requires MatchesAt(line, i) && !Qualifies(line, i)
    ensures Chosen(line, i + 4) == Chosen(line, i)
  {
    forall k | i <= k < i + 4
      ensures !Qualifies(line, k)
    {
      if k > i {
        PatternShifts(line, i, k - i);
      }
    }
    ChosenSkips(line, i, i + 4);
  }

  lemma {:induction false} AfterCounted(line: seq<bool>, i: nat)
    requires Qualifies(line, i) && ClearOf(Chosen(line, i), i)
    ensures |Chosen(line, i + 7)| == |Chosen(line, i)| + 1 && ClearOf(Chosen(line, i + 7), i + 7)
  {
    ChosenBelow(line, i);
    ChosenBlocks(line, i, i + 7);
  }

  lemma {:induction false} NoMatchNoChoice(line: seq<bool>, a: nat, b: nat)
    requires a <= b && forall i :: a <= i < b ==> !MatchesAt(line, i)
    requires ClearOf(Chosen(line, a), a)
    ensures Chosen(line, b) == Chosen(line, a) && ClearOf(Chosen(line, b), b)
  {
    ChosenSkips(line, a, b);
  }

  lemma {:induction false} NothingPastTheEnd(line: seq<bool>, a: nat)
    requires forall i :: a <= i ==> !MatchesAt(line, i)
    ensures Chosen(line, |line|) == Chosen(line, a)
  {
    if a <= |line| {
      ChosenSkips(line, a, |line|);
    } else {
      ChosenSkips(line, |line|, a);
    }
  }

  /** The scanning loop, which moves seven on after a counted match and four on after a rejected one. */
  method N3Occurrences(line: seq<bool>) returns (count: nat)
    ensures count == 40 * |Chosen(line, |line|)|
  {
    count := 0;
    ghost var from: nat := 0;
    var idx := FindPattern(line, 0);
    while idx != -1
      invariant count == 40 * |Chosen(line, from)| && ClearOf(Chosen(line, from), from) && from <= |line|
      invariant idx == -1 ==> forall i :: from <= i ==> !MatchesAt(line, i)
      invariant idx != -1 ==> from <= idx && MatchesAt(line, idx) && forall i :: from <= i < idx ==> !MatchesAt(line, i)
      decreases |line| - from, idx != -1
    {
      NoMatchNoChoice(line, from, idx);
      var next := idx + 7;
      var darkBefore := SomeDark(line, if idx > 4 then idx - 4 else 0, idx);
      var darkAfter := SomeDark(line, idx + 7, if idx + 11 < |line| then idx + 11 else |line|);
      Sides(line, idx);
      if idx == 0 || idx == |line| - 7 || !darkBefore || !darkAfter {
        AfterCounted(line, idx);
        count := count + 40;
      } else {
        AfterRejected(line, idx);
        next := idx + 4;
      }
      from := next;
      idx := FindPattern(line, next);
    }
    NothingPastTheEnd(line, from);
  }

  lemma {:induction false} Sides(line: seq<bool>, i: int)
    requires 0 <= i && i + 7 <= |line|
    ensures DarkIn(line, if i > 4 then i - 4 else 0, i) == DarkIn(line, i - 4, i)
    ensures DarkIn(line, i + 7, if i + 11 < |line| then i + 11 else |line|) == DarkIn(line, i + 7, i + 11)
  {
  }

  // ---- overlapping lookalikes ----

  ghost function Qualifying(line: seq<bool>, n: nat): set<int> {
    if n == 0 then {} else Qualifying(line, n - 1) + (if Qualifies(line, n - 1) then {n - 1} else {})
  }

  lemma {:induction false} QualifyingAre(line: seq<bool>, n: nat)
    ensures forall i :: i in Qualifying(line, n) <==> 0 <= i < n && Qualifies(line, i)
    ensures Chosen(line, n) <= Qualifying(line, n)
  {
    if n == 0 {
    } else {
      QualifyingAre(line, n - 1);
    }
  }

  ghost predicate Apart(line: seq<bool>) {
    forall i, j :: 0 <= i < j < |line| && Qualifies(line, i) && Qualifies(line, j) ==> i + 7 <= j
  }

  lemma {:induction false} ChosenApart(line: seq<bool>, n: nat, i: int, j: int)
    requires i in Chosen(line, n) && j in Chosen(line, n) && i < j
    ensures i + 7 <= j
  {
    ChosenBelow(line, n - 1);
    if j >= n - 1 {
    } else {
      ChosenApart(line, n - 1, i, j);
    }
  }

  lemma {:induction false} ApartAllChosen(line: seq<bool>, n: nat)
    requires Apart(line) && n <= |line|
    ensures Chosen(line, n) == Qualifying(line, n)
  {
    if n == 0 {
    } else {
      ApartAllChosen(line, n - 1);
      QualifyingAre(line, n - 1);
    }
  }

  /** Rule 3 counts every qualifying lookalike exactly when no two of them overlap. */
  lemma {:induction false} CountsAllWhenApart(line: seq<bool>)
    ensures |Chosen(line, |line|)| == |Qualifying(line, |line|)| <==> Apart(line)
  {
    var n := |line|;
    QualifyingAre(line, n);
    if Apart(line) {
      ApartAllChosen(line, n);
    } else {
      var i: int, j: int :| 0 <= i < j < n && Qualifies(line, i) && Qualifies(line, j) && !(i + 7 <= j);
      if Chosen(line, n) == Qualifying(line, n) {
        ChosenApart(line, n, i, j);
      }
      ProperSubset(Chosen(line, n), Qualifying(line, n));
    }
  }

  lemma {:induction false} ProperSubset<T>(a: set<T>, b: set<T>)
    requires a <= b && a != b
    ensures |a| < |b|
  {
    var x :| x in b && x !in a;
    assert x in b - a && b == a + (b - a);
  }

  const OVERLAPPING: seq<bool> := [true, false, true, true, true, false, true, true, true, false, true]

  /** Two lookalikes, each against an edge of the symbol, that share three modules: one of them is not counted. */
  lemma {:induction false} OverlapCountedOnce()
    ensures Qualifies(OVERLAPPING, 0) && Qualifies(OVERLAPPING, 4) && !Apart(OVERLAPPING)
    ensures |Chosen(OVERLAPPING, |OVERLAPPING|)| != |Qualifying(OVERLAPPING, |OVERLAPPING|)|
  {
    assert MatchesAt(OVERLAPPING, 0) && MatchesAt(OVERLAPPING, 4);
    assert Qualifies(OVERLAPPING, 0) && Qualifies(OVERLAPPING, 4);
    CountsAllWhenApart(OVERLAPPING);
  }

  ghost function Lookalikes(m: Matrix, n: nat): nat
    requires IsSquare(m, |m|) && n <= |m|
  {
    if n == 0 then 0 else
      Lookalikes(m, n - 1) + |Chosen(Line(m, true, n - 1), |m|)| + |Chosen(Line(m, false, n - 1), |m|)|
  }

  method CountLookalikes(m: Matrix) returns (score: nat)
    requires IsSquare(m, |m|)
    ensures score == 40 * Lookalikes(m, |m|)
  {
    score := 0;
    for i := 0 to |m|
      invariant score == 40 * Lookalikes(m, i)
    {
      var rowScore := N3Occurrences(Line(m, true, i));
      var columnScore := N3Occurrences(Line(m, false, i));
      score := score + rowScore + columnScore;
    }
  }

  // ---- rule 4: the share of dark modules ----

  ghost function DarkBefore(m: Matrix, rows: nat, cols: nat): set<Coord>
    requires IsSquare(m, |m|)
  {
    set r: int, c: int | 0 <= r < |m| && 0 <= c < |m| && m[r][c] && (r < rows || (r == rows && c < cols)) :: (r, c)
  }

  method CountDark(m: Matrix) returns (dark: nat)
    requires IsSquare(m, |m|)
    ensures dark == |DarkBefore(m, |m|, 0)|
  {
    dark := 0;
    assert DarkBefore(m, 0, 0) == {};
    for r := 0 to |m|
      invariant dark == |DarkBefore(m, r, 0)|
    {
      for c := 0 to |m|
        invariant dark == |DarkBefore(m, r, c)|
      {
        DarkStep(m, r, c);
        if m[r][c] {
          dark := dark + 1;
        }
      }
      assert DarkBefore(m, r, |m|) == DarkBefore(m, r + 1, 0);
    }
  }

  lemma {:induction false} DarkStep(m: Matrix, r: nat, c: nat)
    requires IsSquare(m, |m|) && r < |m| && c < |m|
    ensures |DarkBefore(m, r, c + 1)| == |DarkBefore(m, r, c)| + if m[r][c] then 1 else 0
  {
    var before, after := DarkBefore(m, r, c), DarkBefore(m, r, c + 1);
    if m[r][c] {
      assert after == before + {(r, c)};
    } else {
      assert after == before;
    }
  }

  ghost function Dark(m: Matrix): nat
    requires IsSquare(m, |m|)
  {
    |DarkBefore(m, |m|, 0)|
  }

  /** The share of dark modules strays from one half by `steps` full steps of five per cent. */
  ghost predicate StraysBy(dark: nat, total: nat, steps: nat) {
    steps * (5 * total) <= Abs(100 * dark - 50 * total) < (steps + 1) * (5 * total)
  }

  /** Percentages as exact quotients: `|100 d / n - 50| / 5 == |100 d - 50 n| / 5 n`. */
  method DarkScore(m: Matrix) returns (score: nat)
    requires IsSquare(m, |m|) && |m| > 0
    ensures score % 10 == 0 && StraysBy(Dark(m), |m| * |m|, score / 10)
  {
    var dark := CountDark(m);
    MulLess(0, |m|, |m|);
    score := ShareScore(dark, |m| * |m|);
  }

  method ShareScore(dark: nat, total: nat) returns (score: nat)
    requires total > 0
    ensures score % 10 == 0 && StraysBy(dark, total, score / 10)
  {
    score := FloorDiv(Abs(100 * dark - 50 * total), 5 * total) * 10;
  }

  // ---- the sum ----

  datatype PenaltyScores = PenaltyScores(n1: nat, n2: nat, n3: nat, n4: nat)

  function Sum(s: PenaltyScores): nat {
    s.n1 + s.n2 + s.n3 + s.n4
  }

  ghost predicate IsScore(m: Matrix, s: PenaltyScores)
    requires IsSquare(m, |m|)
  {
    && s.n1 == N1(m) && s.n2 == 3 * |Blocks(m)| && s.n3 == 40 * Lookalikes(m, |m|)
    && s.n4 % 10 == 0 && StraysBy(Dark(m), |m| * |m|, s.n4 / 10)
  }

  method CountRuns(m: Matrix) returns (score: nat)
    requires IsSquare(m, |m|)
    ensures score == N1(m)
  {
    var rows := Runs(m, true);
    var columns := Runs(m, false);
    score := rows + columns;
  }

  /** Each rule, on any square matrix. */
  method Scores(m: Matrix) returns (s: PenaltyScores)
    requires IsSquare(m, |m|) && |m| > 0
    ensures IsScore(m, s)
  {
    var n1 := CountRuns(m);
    var n2 := CountBlocks(m);
    var n3 := CountLookalikes(m);
    var n4 := DarkScore(m);
    s := PenaltyScores(n1, n2, n3, n4);
  }

  lemma {:induction false} StepsUnique(dark: nat, total: nat, a: nat, b: nat)
    requires total > 0 && StraysBy(dark, total, a) && StraysBy(dark, total, b)
    ensures a == b
  {
    DivUnique(Abs(100 * dark - 50 * total), 5 * total, a);
    DivUnique(Abs(100 * dark - 50 * total), 5 * total, b);
  }

  /** The four rules leave nothing open. */
  lemma {:induction false} ScoreUnique(m: Matrix, s: PenaltyScores, t: PenaltyScores)
    requires IsSquare(m, |m|) && |m| > 0 && IsScore(m, s) && IsScore(m, t)
    ensures s == t
  {
    MulLess(0, |m|, |m|);
    StepsUnique(Dark(m), |m| * |m|, s.n4 / 10, t.n4 / 10);
  }

  /** What mask selection minimises. */
  ghost function Penalty(m: Matrix): nat
    requires IsSquare(m, |m|) && |m| > 0
  {
    MulLess(0, |m|, |m|);
    N1(m) + 3 * |Blocks(m)| + 40 * Lookalikes(m, |m|) + 10 * FloorDiv(Abs(100 * Dark(m) - 50 * (|m| * |m|)), 5 * (|m| * |m|))
  }

  method PenaltyOf(m: Matrix) returns (p: nat)
    requires IsSquare(m, |m|) && |m| > 0
    ensures p == Penalty(m)
  {
    var s := Scores(m);
    MulLess(0, |m|, |m|);
    StepsUnique(Dark(m), |m| * |m|, s.n4 / 10, FloorDiv(Abs(100 * Dark(m) - 50 * (|m| * |m|)), 5 * (|m| * |m|)));
    p := Sum(s);
  }
}
