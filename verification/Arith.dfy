/** Nonlinear arithmetic facts, kept apart so that the solver meets them one at a time. */
module Arith {

  lemma {:induction false} MulLess(a: int, b: int, c: int)
    requires a < b && c > 0
    ensures a * c < b * c
  {
  }

  lemma {:induction false} MulLessEqual(a: int, b: int, c: int)
    requires a <= b && c >= 0
    ensures a * c <= b * c
  {
  }

  lemma {:induction false} DivBounds(x: int, p: int)
    requires p > 0
    ensures x / p * p <= x < (x / p + 1) * p
  {
  }

  lemma {:induction false} DivUnique(x: int, p: int, v: int)
    requires p > 0 && v * p <= x < (v + 1) * p
    ensures x / p == v && x % p == x - v * p
  {
    DivBounds(x, p);
    if x / p < v {
      MulLessEqual(x / p + 1, v, p);
    } else if x / p > v {
      MulLessEqual(v + 1, x / p, p);
    }
  }

  lemma {:induction false} DivMulAdd(v: int, p: int, r: int)
    requires 0 <= r < p
    ensures (v * p + r) / p == v && (v * p + r) % p == r
  {
    assert (v + 1) * p == v * p + p;
    DivUnique(v * p + r, p, v);
  }

  lemma {:induction false} DivSign(x: int, p: int)
    requires x >= 0 && p > 0
    ensures x / p >= 0
  {
  }

  function FloorDiv(x: nat, p: nat): (q: nat)
    requires p > 0
    ensures q * p <= x < (q + 1) * p
  {
    DivSign(x, p);
    DivBounds(x, p);
    x / p
  }
}
