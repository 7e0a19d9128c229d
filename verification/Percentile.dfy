/** Linearly interpolated percentiles of an ascending list of whole scores, in exact arithmetic. */
module Percentile {
  import opened Wrappers

  predicate Ascending(s: seq<int>) {
    forall i, j :: 0 <= i <= j < |s| ==> s[i] <= s[j]
  }

  function Ceiling(x: real): int {
    -(-x).Floor
  }

  /** `Math.round`: halves go up. */
  function Round(x: real): int {
    (x + 0.5).Floor
  }

  function Rank(n: nat, p: real): real
    requires n > 0
  {
    p / 100.0 * (n - 1) as real
  }

  lemma {:induction false} RankBounds(n: nat, p: real, q: real)
    requires n > 0 && 0.0 <= p <= q <= 100.0
    ensures 0.0 <= Rank(n, p) <= Rank(n, q) <= (n - 1) as real
  {
    var a, b := p / 100.0, q / 100.0;
    assert 0.0 <= a <= b <= 1.0;
    Scales(a, b, (n - 1) as real);
    Scales(b, 1.0, (n - 1) as real);
    Scales(0.0, a, (n - 1) as real);
  }

  lemma {:induction false} Scales(a: real, b: real, c: real)
    requires a <= b && c >= 0.0
    ensures a * c <= b * c
  {
  }

  /** That part of the way from `a` to `b`. */
  function Between(a: int, b: int, part: real): real {
    a as real + (b - a) as real * part
  }

  function Percentile(sorted: seq<int>, p: real): Option<int>
    requires 0.0 <= p <= 100.0
  {
    if |sorted| == 0 then None
    else if |sorted| == 1 then Some(sorted[0])
    else
      RankBounds(|sorted|, p, p);
      var rank := Rank(|sorted|, p);
      var low, high := rank.Floor, Ceiling(rank);
      if low == high then Some(sorted[low])
      else Some(Round(Between(sorted[low], sorted[high], rank - low as real)))
  }

  // ---- what it means: the line through the points (i, sorted[i]), rounded ----

  /** The height of the broken line at `r`. */
  function Line(sorted: seq<int>, r: real): real
    requires 0.0 <= r <= (|sorted| - 1) as real
  {
    var low := r.Floor;
    if low == |sorted| - 1 then sorted[low] as real
    else Between(sorted[low], sorted[low + 1], r - low as real)
  }

  lemma {:induction false} RoundWhole(n: int)
    ensures Round(n as real) == n
  {
  }

  lemma {:induction false} RoundGrows(x: real, y: real)
    requires x <= y
    ensures Round(x) <= Round(y)
  {
  }

  lemma {:induction false} FloorAndCeiling(r: real)
    ensures r.Floor as real <= r < r.Floor as real + 1.0
    ensures Ceiling(r) == if r == r.Floor as real then r.Floor else r.Floor + 1
  {
  }

  /** The rounded height of the line at the rank, whichever branch was taken. */
  lemma {:induction false} PercentileIsLine(sorted: seq<int>, p: real)
    requires |sorted| > 0 && 0.0 <= p <= 100.0
    ensures 0.0 <= Rank(|sorted|, p) <= (|sorted| - 1) as real
    ensures Percentile(sorted, p) == Some(Round(Line(sorted, Rank(|sorted|, p))))
  {
    RankBounds(|sorted|, p, p);
    var rank := Rank(|sorted|, p);
    FloorAndCeiling(rank);
    RoundWhole(sorted[rank.Floor]);
    if rank == rank.Floor as real {
      assert Line(sorted, rank) == sorted[rank.Floor] as real;
    } else {
      assert rank.Floor < |sorted| - 1;
    }
  }

  lemma {:induction false} BetweenGrows(a: int, b: int, part: real, further: real)
    requires a <= b && 0.0 <= part <= further <= 1.0
    ensures a as real <= Between(a, b, part) <= Between(a, b, further) <= b as real
  {
    var rise := (b - a) as real;
    Scales(0.0, part, rise);
    Scales(part, further, rise);
    Scales(further, 1.0, rise);
    assert rise * part == part * rise && rise * further == further * rise;
  }

  lemma {:induction false} LineBetween(sorted: seq<int>, r: real)
    requires Ascending(sorted) && 0.0 <= r <= (|sorted| - 1) as real
    ensures sorted[r.Floor] as real <= Line(sorted, r)
    ensures r.Floor < |sorted| - 1 ==> Line(sorted, r) <= sorted[r.Floor + 1] as real
    ensures sorted[0] as real <= Line(sorted, r) <= sorted[|sorted| - 1] as real
  {
    var low := r.Floor;
    if low < |sorted| - 1 {
      BetweenGrows(sorted[low], sorted[low + 1], r - low as real, r - low as real);
    }
  }

  lemma {:induction false} LineGrows(sorted: seq<int>, r: real, t: real)
    requires Ascending(sorted) && 0.0 <= r <= t <= (|sorted| - 1) as real
    ensures Line(sorted, r) <= Line(sorted, t)
  {
    var low, high := r.Floor, t.Floor;
    if low == high {
      if low < |sorted| - 1 {
        BetweenGrows(sorted[low], sorted[low + 1], r - low as real, t - low as real);
      }
    } else {
      LineBetween(sorted, r);
      LineBetween(sorted, t);
    }
  }

  /** A higher percentile is not a lower score, and each is within the scores. */
  lemma {:induction false} Grows(sorted: seq<int>, p: real, q: real)
    requires |sorted| > 0 && Ascending(sorted) && 0.0 <= p <= q <= 100.0
    ensures Percentile(sorted, p).Some? && Percentile(sorted, q).Some?
    ensures sorted[0] <= Percentile(sorted, p).value <= Percentile(sorted, q).value <= sorted[|sorted| - 1]
  {
    PercentileIsLine(sorted, p);
    PercentileIsLine(sorted, q);
    var n := |sorted|;
    RankBounds(n, p, q);
    LineBetween(sorted, Rank(n, p));
    LineBetween(sorted, Rank(n, q));
    LineGrows(sorted, Rank(n, p), Rank(n, q));
    RoundWhole(sorted[0]);
    RoundWhole(sorted[n - 1]);
    RoundGrows(sorted[0] as real, Line(sorted, Rank(n, p)));
    RoundGrows(Line(sorted, Rank(n, p)), Line(sorted, Rank(n, q)));
    RoundGrows(Line(sorted, Rank(n, q)), sorted[n - 1] as real);
  }

  /** The ends are the smallest and the largest score. */
  lemma {:induction false} Ends(sorted: seq<int>)
    requires |sorted| > 0
    ensures Percentile(sorted, 0.0) == Some(sorted[0]) && Percentile(sorted, 100.0) == Some(sorted[|sorted| - 1])
  {
    PercentileIsLine(sorted, 0.0);
    PercentileIsLine(sorted, 100.0);
    RoundWhole(sorted[0]);
    RoundWhole(sorted[|sorted| - 1]);
  }

  // ---- the context of an organization ----

  datatype Context = Context(openTasks: nat, p25: Option<int>, p50: Option<int>, p75: Option<int>)

  /** The numbers of the context, from the scores and the scores sorted. */
  function ContextOf(scores: seq<int>, sorted: seq<int>): Context {
    Context(|scores|, Percentile(sorted, 25.0), Percentile(sorted, 50.0), Percentile(sorted, 75.0))
  }

  /** However the scores come, the quartiles are in order and none is beyond every score. */
  lemma {:induction false} QuartilesOrdered(scores: seq<int>, sorted: seq<int>)
    requires Ascending(sorted) && multiset(sorted) == multiset(scores)
    ensures var c := ContextOf(scores, sorted);
      if scores == [] then c.p25 == None && c.p50 == None && c.p75 == None
      else
        c.p25.Some? && c.p50.Some? && c.p75.Some? && c.p25.value <= c.p50.value <= c.p75.value
        && (exists s :: s in scores && s <= c.p25.value) && (exists s :: s in scores && c.p75.value <= s)
  {
    assert |sorted| == |multiset(sorted)| && |scores| == |multiset(scores)|;
    if scores != [] {
      Grows(sorted, 25.0, 50.0);
      Grows(sorted, 50.0, 75.0);
      assert sorted[0] in multiset(sorted) && sorted[|sorted| - 1] in multiset(sorted);
      assert sorted[0] in scores && sorted[|sorted| - 1] in scores;
    }
  }

  /**
   * At `part` of the way from score `k` to the next of `n` scores, which is at the percentile 100 (k + part) / (n - 1), stands
   * the number that is this part of the way from the one to the other, rounded to the nearest, halves up.
   */
  lemma {:induction false} Interpolates(sorted: seq<int>, p: real, k: nat, part: real)
    requires k + 1 < |sorted| && 0.0 <= part <= 1.0 && 0.0 <= p <= 100.0
    requires p * (|sorted| - 1) as real == 100.0 * (k as real + part)
    ensures Percentile(sorted, p).Some?
    ensures var height := (1.0 - part) * sorted[k] as real + part * sorted[k + 1] as real;
      Percentile(sorted, p).value as real <= height + 0.5 < Percentile(sorted, p).value as real + 1.0
  {
    PercentileIsLine(sorted, p);
    RankIs(|sorted|, p, k as real + part);
    Weighted(sorted[k] as real, sorted[k + 1] as real, part);
    if part == 1.0 {
      assert Line(sorted, (k + 1) as real) == if k + 1 == |sorted| - 1 then sorted[k + 1] as real
        else Between(sorted[k + 1], sorted[k + 2], 0.0);
    } else {
      assert (k as real + part).Floor == k;
    }
  }

  lemma {:induction false} RankIs(n: nat, p: real, r: real)
    requires n > 0 && p * (n - 1) as real == 100.0 * r
    ensures Rank(n, p) == r
  {
    var m := (n - 1) as real;
    assert p / 100.0 * m == p * m / 100.0;
  }

  lemma {:induction false} Weighted(a: real, b: real, part: real)
    ensures (1.0 - part) * a + part * b == a + (b - a) * part
  {
  }
}
