/** What the penalty rules amount to: windows of five instead of runs, and the scores of a matrix of one colour. */
module QrPenaltyLaws {
  import opened Arith
  import opened QrGrid
  import opened QrLayout
  import opened QrPenalty

  // ---- rule 1 by windows of five ----

  /** Five modules of one colour from `k` on. */
  predicate FiveAt(line: seq<bool>, k: nat) {
    k + 5 <= |line| && line[k] == line[k + 1] == line[k + 2] == line[k + 3] == line[k + 4]
  }

  /** A window scores one, and two more if it cannot be moved to the left. */
  function WindowWorth(line: seq<bool>, k: nat): nat {
    if FiveAt(line, k) then (if k > 0 && line[k - 1] == line[k] then 1 else 3) else 0
  }

  function WindowsScore(line: seq<bool>, n: nat): nat {
    if n == 0 then 0 else WindowsScore(line, n - 1) + WindowWorth(line, n - 1)
  }

  lemma {:induction false} WindowsInside(line: seq<bool>, from: nat, end: nat, k: nat)
    requires from <= k < end <= |line| && OneColour(line, from, end) && (end < |line| ==> line[end] != line[from])
    requires StartsRun(line, from)
    ensures WindowWorth(line, k) == if k + 5 > end then 0 else if k == from then 3 else 1
  {
  }

  /** The windows of a run, up to `k`. */
  lemma {:induction false} RunWindows(line: seq<bool>, from: nat, end: nat, k: nat)
    requires from < end <= |line| && OneColour(line, from, end) && (end < |line| ==> line[end] != line[from])
    requires StartsRun(line, from) && from <= k <= end
    ensures WindowsScore(line, k) == WindowsScore(line, from) +
      if k == from || end - from < 5 then 0 else if k + 5 <= end + 1 then 2 + (k - from) else 2 + (end - from - 4)
    decreases k
  {
    if k == from {
    } else {
      RunWindows(line, from, end, k - 1);
      WindowsInside(line, from, end, k - 1);
    }
  }

  /** The end of the run that begins at `from`. */
  lemma {:induction false} RunEnd(line: seq<bool>, from: nat) returns (end: nat)
    requires from < |line|
    ensures from < end <= |line| && OneColour(line, from, end) && (end < |line| ==> line[end] != line[from])
  {
    end := from + 1;
    while end < |line| && line[end] == line[from]
      invariant from < end <= |line| && OneColour(line, from, end)
    {
      end := end + 1;
    }
  }

  lemma {:induction false} ScoresAgreeFrom(line: seq<bool>, from: nat)
    requires from <= |line| && (from < |line| ==> StartsRun(line, from))
    requires RunsScore(line, from) == WindowsScore(line, from)
    ensures RunsScore(line, |line|) == WindowsScore(line, |line|)
    decreases |line| - from
  {
    if from == |line| {
    } else {
      var end := RunEnd(line, from);
      RunEnds(line, from, end);
      RunWindows(line, from, end, end);
      ScoresAgreeFrom(line, end);
    }
  }

  /** Every window of five of one colour counts one, and the first of each run two more: three, and one for each further module. */
  lemma {:induction false} RunsAreWindows(line: seq<bool>)
    ensures RunsScore(line, |line|) == WindowsScore(line, |line|)
  {
    ScoresAgreeFrom(line, 0);
  }

  // ---- one colour throughout ----

  ghost predicate Uniform(m: Matrix, colour: bool) {
    IsSquare(m, |m|) && forall r, c :: 0 <= r < |m| && 0 <= c < |m| ==> m[r][c] == colour
  }

  lemma {:induction false} UniformLine(line: seq<bool>)
    requires |line| >= 5 && OneColour(line, 0, |line|)
    ensures RunsScore(line, |line|) == |line| - 2
    ensures Chosen(line, |line|) == {}
  {
    RunEnds(line, 0, |line|);
    forall i | 0 <= i < |line|
      ensures !Qualifies(line, i)
    {
      if MatchesAt(line, i) {
        assert line[i] == line[i + 1];
        PatternCells(line, i);
      }
    }
    ChosenSkips(line, 0, |line|);
  }

  lemma {:induction false} UniformLines(m: Matrix, colour: bool, byRow: bool, n: nat)
    requires Uniform(m, colour) && 5 <= |m| && n <= |m|
    ensures LinesScore(m, byRow, n) == n * (|m| - 2) && Lookalikes(m, n) == 0
  {
    if n == 0 {
    } else {
      UniformLines(m, colour, byRow, n - 1);
      UniformLine(Line(m, byRow, n - 1));
      UniformLine(Line(m, true, n - 1));
      UniformLine(Line(m, false, n - 1));
      assert (n - 1) * (|m| - 2) + (|m| - 2) == n * (|m| - 2);
    }
  }

  lemma {:induction false} UniformBlocks(m: Matrix, colour: bool)
    requires Uniform(m, colour) && 1 <= |m|
    ensures |Blocks(m)| == (|m| - 1) * (|m| - 1)
  {
    var n := |m| - 1;
    assert Blocks(m) == Cells(Rect(0, 0, n, n));
    RectSize(Rect(0, 0, n, n));
    ProductIs(n, n);
  }

  lemma {:induction false} UniformDark(m: Matrix, colour: bool)
    requires Uniform(m, colour)
    ensures Dark(m) == if colour then |m| * |m| else 0
  {
    if colour {
      assert DarkBefore(m, |m|, 0) == Cells(Rect(0, 0, |m|, |m|));
      RectSize(Rect(0, 0, |m|, |m|));
      ProductIs(|m|, |m|);
    } else {
      assert DarkBefore(m, |m|, 0) == {};
    }
  }

  lemma {:induction false} AllOrNothing(total: nat, steps: nat)
    requires total > 0 && (StraysBy(total, total, steps) || StraysBy(0, total, steps))
    ensures steps == 10
  {
    assert StraysBy(0, total, steps) && StraysBy(0, total, 10);
    StepsUnique(0, total, steps, 10);
  }

  /** The scores of a matrix of one colour, in numbers. */
  lemma {:induction false} UniformScores(m: Matrix, colour: bool, s: PenaltyScores)
    requires Uniform(m, colour) && 5 <= |m| && IsScore(m, s)
    ensures s == PenaltyScores(2 * |m| * (|m| - 2), 3 * (|m| - 1) * (|m| - 1), 0, 100)
  {
    var n := |m|;
    UniformLines(m, colour, true, n);
    UniformLines(m, colour, false, n);
    UniformBlocks(m, colour);
    UniformDark(m, colour);
    MulLess(0, n, n);
    AllOrNothing(n * n, s.n4 / 10);
    Regroup(2, n, n - 2);
    Regroup(3, n - 1, n - 1);
  }

  lemma {:induction false} Regroup(a: nat, b: nat, c: nat)
    ensures a * b * c == a * (b * c)
  {
  }

  // ---- rule 3 by example ----

  const T: bool := true
  const F: bool := false

  /** Four light modules on one side are enough for a lookalike, and three on both are not. */
  lemma {:induction false} LightMargin()
    ensures Qualifies([T, F, F, F, F, T, F, T, T, T, F, T, T], 5)
    ensures MatchesAt([T, F, F, F, T, F, T, T, T, F, T, F, F, F, T], 4)
    ensures !Qualifies([T, F, F, F, T, F, T, T, T, F, T, F, F, F, T], 4)
  {
    var few := [T, F, F, F, T, F, T, T, T, F, T, F, F, F, T];
    assert few[0] && few[14];
    assert DarkIn(few, 0, 4) && DarkIn(few, 11, 15);
  }

  // ---- the sum ----

  /** What mask selection minimises is the sum of the four scores. */
  lemma {:induction false} PenaltyIs(m: Matrix, s: PenaltyScores)
    requires IsSquare(m, |m|) && |m| > 0 && IsScore(m, s)
    ensures Penalty(m) == s.n1 + s.n2 + s.n3 + s.n4
  {
    MulLess(0, |m|, |m|);
    StepsUnique(Dark(m), |m| * |m|, s.n4 / 10, FloorDiv(Abs(100 * Dark(m) - 50 * (|m| * |m|)), 5 * (|m| * |m|)));
  }
}
