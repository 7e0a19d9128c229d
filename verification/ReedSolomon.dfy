/** Generator polynomials and error-correction codewords over GF(256). */
module ReedSolomon {
  import opened Bitwise
  import opened Gf256

  /** A polynomial: its coefficients, high-order first. */
  type Poly = seq<byte>

  /** The value of `p` at `x`, by Horner's rule. */
  function Eval(p: Poly, x: byte): byte {
    if p == [] then 0 else Add(Mul(Eval(p[..|p| - 1], x), x), p[|p| - 1])
  }

  function Power(x: byte, n: nat): byte {
    if n == 0 then 1 else Mul(Power(x, n - 1), x)
  }

  function Sum(p: Poly, q: Poly): (s: Poly)
    requires |p| == |q|
    ensures |s| == |p|
  {
    seq(|p|, k requires 0 <= k < |p| => Add(p[k], q[k]))
  }

  function Scale(c: byte, p: Poly): (s: Poly)
    ensures |s| == |p|
  {
    seq(|p|, k requires 0 <= k < |p| => Mul(c, p[k]))
  }

  /** Coefficient `k` of the product of `p` and the linear factor x - r. */
  function TimesAt(p: Poly, r: byte, k: nat): byte
    requires k <= |p|
  {
    Add(if k < |p| then p[k] else 0, if k > 0 then Mul(p[k - 1], r) else 0)
  }

  /** The product of `p` and the linear factor x - r. */
  function Times(p: Poly, r: byte): (s: Poly)
    ensures |s| == |p| + 1
  {
    seq(|p| + 1, k requires 0 <= k <= |p| => TimesAt(p, r, k))
  }

  // ---- evaluation is a ring homomorphism ----

  lemma {:induction false} AddSwap(a: byte, b: byte, c: byte, d: byte)
    ensures Add(Add(a, b), Add(c, d)) == Add(Add(a, c), Add(b, d))
  {
    XorSwap(a, b, c, d);
  }

  lemma {:induction false} EvalSum(p: Poly, q: Poly, x: byte)
    requires |p| == |q|
    ensures Eval(Sum(p, q), x) == Add(Eval(p, x), Eval(q, x))
  {
    if p == [] {
      XorZero(0);
    } else {
      var n := |p| - 1;
      EvalSum(p[..n], q[..n], x);
      assert Sum(p, q)[..n] == Sum(p[..n], q[..n]);
      MulXorLeft(Eval(p[..n], x), Eval(q[..n], x), x);
      AddSwap(Mul(Eval(p[..n], x), x), Mul(Eval(q[..n], x), x), p[n], q[n]);
    }
  }

  lemma {:induction false} EvalScale(c: byte, p: Poly, x: byte)
    ensures Eval(Scale(c, p), x) == Mul(c, Eval(p, x))
  {
    if p == [] {
      MulZero(c);
    } else {
      var n := |p| - 1;
      EvalScale(c, p[..n], x);
      assert Scale(c, p)[..n] == Scale(c, p[..n]);
      MulAssoc(c, Eval(p[..n], x), x);
      MulXorRight(c, Mul(Eval(p[..n], x), x), p[n]);
    }
  }

  lemma {:induction false} EvalSnoc(p: Poly, c: byte, x: byte)
    ensures Eval(p + [c], x) == Add(Mul(Eval(p, x), x), c)
  {
    assert (p + [c])[..|p|] == p;
  }

  lemma {:induction false} EvalConcat(p: Poly, q: Poly, x: byte)
    ensures Eval(p + q, x) == Add(Mul(Eval(p, x), Power(x, |q|)), Eval(q, x))
  {
    if q == [] {
      assert p + q == p;
      MulOne(Eval(p, x));
      XorZero(Eval(p, x));
    } else {
      var n := |q| - 1;
      var e, w, f := Eval(p, x), Power(x, n), Eval(q[..n], x);
      EvalConcat(p, q[..n], x);
      assert p + q == (p + q[..n]) + [q[n]];
      EvalSnoc(p + q[..n], q[n], x);
      MulXorLeft(Mul(e, w), f, x);
      MulAssoc(e, w, x);
      XorAssoc(Mul(e, Mul(w, x)), Mul(f, x), q[n]);
    }
  }

  /** `Times` multiplies by x - r: its value is the value of `p` times x - r. */
  lemma {:induction false} EvalTimes(p: Poly, r: byte, x: byte)
    ensures Eval(Times(p, r), x) == Mul(Eval(p, x), Add(x, r))
  {
    var e := Eval(p, x);
    assert Times(p, r) == Sum(p + [0], [0] + Scale(r, p)) by { TimesAsSum(p, r); }
    EvalSum(p + [0], [0] + Scale(r, p), x);
    EvalSnoc(p, 0, x);
    XorZero(Mul(e, x));
    EvalConcat([0], Scale(r, p), x);
    assert Eval([0], x) == 0 by { EvalSnoc([], 0, x); assert [] + [0] == [0 as byte]; MulZero(x); XorZero(0); }
    MulZero(Power(x, |p|));
    XorZero(Eval(Scale(r, p), x));
    EvalScale(r, p, x);
    MulComm(r, e);
    MulXorRight(e, x, r);
  }

  lemma {:induction false} TimesAsSum(p: Poly, r: byte)
    ensures Times(p, r) == Sum(p + [0], [0] + Scale(r, p))
  {
    forall k | 0 <= k <= |p|
      ensures Times(p, r)[k] == Sum(p + [0], [0] + Scale(r, p))[k]
    {
      if k > 0 {
        MulComm(p[k - 1], r);
      }
    }
  }

  // ---- the generator polynomial ----

  function Generator(degree: nat): (g: Poly)
    ensures |g| == degree + 1 && g[0] == 1
  {
    if degree == 0 then [1] else
      XorZero(1);
      Times(Generator(degree - 1), Alpha(degree - 1))
  }

  /** The product of the values x - alpha^i for i below `n`. */
  function RootProduct(n: nat, x: byte): byte {
    if n == 0 then 1 else Mul(RootProduct(n - 1, x), Add(x, Alpha(n - 1)))
  }

  lemma {:induction false} GeneratorIsProduct(n: nat, x: byte)
    ensures Eval(Generator(n), x) == RootProduct(n, x)
  {
    if n == 0 {
      EvalSnoc([], 1, x);
      assert [] + [1] == [1 as byte];
      MulZero(x);
      XorZero(1);
    } else {
      GeneratorIsProduct(n - 1, x);
      EvalTimes(Generator(n - 1), Alpha(n - 1), x);
    }
  }

  lemma {:induction false} RootProductZero(n: nat, i: nat)
    requires i < n
    ensures RootProduct(n, Alpha(i)) == 0
  {
    var x := Alpha(i);
    if i < n - 1 {
      RootProductZero(n - 1, i);
      MulZero(Add(x, Alpha(n - 1)));
    } else {
      XorSelf(x);
      MulZero(RootProduct(n - 1, x));
    }
  }

  lemma {:induction false} GeneratorRoots(n: nat, i: nat)
    requires i < n
    ensures Eval(Generator(n), Alpha(i)) == 0
  {
    GeneratorIsProduct(n, Alpha(i));
    RootProductZero(n, i);
  }

  /** The inner loop: one more linear factor, spread into a fresh array. */
  method MultiplyIn(tables: Tables, poly: Poly, r: byte) returns (product: Poly)
    requires tables.Valid()
    ensures product == Times(poly, r)
  {
    var next := new byte[|poly| + 1](_ => 0);
    for j := 0 to |poly|
      invariant tables.Valid()
      invariant forall k :: 0 <= k < j ==> next[k] == TimesAt(poly, r, k)
      invariant next[j] == if j > 0 then Mul(poly[j - 1], r) else 0
      invariant forall k :: j < k <= |poly| ==> next[k] == 0
    {
      XorComm(next[j], poly[j]);
      XorZero(Mul(poly[j], r));
      next[j] := Add(next[j], poly[j]);
      next[j + 1] := Add(next[j + 1], tables.GfMul(poly[j], r));
    }
    XorZero(next[|poly|]);
    product := next[..];
  }

  method GeneratorPoly(tables: Tables, degree: nat) returns (poly: Poly)
    requires tables.Valid() && degree <= 512
    ensures poly == Generator(degree)
  {
    poly := [1];
    for i := 0 to degree
      invariant poly == Generator(i)
    {
      poly := MultiplyIn(tables, poly, tables.exp[i]);
    }
  }

  // ---- the remainder ----

  /** The register after one more data byte has been shifted in. */
  function Step(register: Poly, b: byte, gen: Poly): (next: Poly)
    requires |gen| > 0
    ensures |next| == if register == [] then 1 else |register|
  {
    var factor := Add(b, if register == [] then 0 else register[0]);
    var shifted := (if register == [] then [] else register[1..]) + [0];
    seq(|shifted|, k requires 0 <= k < |shifted| =>
      if k + 1 < |gen| then Add(shifted[k], Mul(gen[k + 1], factor)) else shifted[k])
  }

  function Zeros(n: nat): (z: Poly)
    ensures |z| == n && forall k :: 0 <= k < n ==> z[k] == 0
  {
    seq(n, _ => 0)
  }

  /** The register after all of `data`, starting from zeros. */
  function Remainder(data: Poly, n: nat): (r: Poly)
    ensures n > 0 ==> |r| == n
  {
    if data == [] then Zeros(n) else Step(Remainder(data[..|data| - 1], n), data[|data| - 1], Generator(n))
  }

  /** With no codewords asked for, the register keeps the zero that is pushed for every byte. */
  lemma {:induction false} NoneAskedFor(data: Poly)
    ensures Remainder(data, 0) == if data == [] then [] else [0]
    decreases |data|
  {
    if data == [] {
    } else {
      var n := |data| - 1;
      NoneAskedFor(data[..n]);
      assert |Generator(0)| == 1;
    }
  }

  /** One byte into the linear-feedback shift register. */
  method Feed(tables: Tables, register: Poly, b: byte, gen: Poly, ecCount: nat) returns (remainder: Poly)
    requires tables.Valid() && |gen| == ecCount + 1
    requires ecCount > 0 ==> |register| == ecCount
    ensures remainder == Step(register, b, gen)
  {
    XorZero(b);
    var factor := if register == [] then b else Add(b, register[0]);
    remainder := (if register == [] then [] else register[1..]) + [0];
    ghost var shifted := remainder;
    if factor != 0 {
      for i := 0 to ecCount
        invariant |remainder| == |shifted|
        invariant forall k :: 0 <= k < |shifted| ==>
          remainder[k] == if k < i then Add(shifted[k], Mul(gen[k + 1], factor)) else shifted[k]
      {
        remainder := remainder[i := Add(remainder[i], tables.GfMul(gen[i + 1], factor))];
      }
    } else {
      ZeroFactor(shifted, gen);
    }
  }

  /** The error-correction codewords. With none asked for the register still keeps one zero. */
  method EcCodewords(tables: Tables, data: Poly, ecCount: nat) returns (remainder: Poly)
    requires tables.Valid() && ecCount <= 512
    ensures remainder == Remainder(data, ecCount)
  {
    var gen := GeneratorPoly(tables, ecCount);
    remainder := Zeros(ecCount);
    for d := 0 to |data|
      invariant remainder == Remainder(data[..d], ecCount)
    {
      remainder := Feed(tables, remainder, data[d], gen, ecCount);
      assert data[..d + 1][..d] == data[..d];
    }
    assert data[..|data|] == data;
  }

  lemma {:induction false} ZeroFactor(shifted: Poly, gen: Poly)
    ensures forall k :: 0 <= k < |shifted| && k + 1 < |gen| ==> Add(shifted[k], Mul(gen[k + 1], 0)) == shifted[k]
  {
    forall k | 0 <= k < |shifted| && k + 1 < |gen|
      ensures Add(shifted[k], Mul(gen[k + 1], 0)) == shifted[k]
    {
      MulZero(gen[k + 1]);
      XorZero(shifted[k]);
    }
  }

  // ---- what the codewords are for ----

  /** The codeword vanishes at each root of the generator. */
  lemma {:induction false} CodewordVanishes(data: Poly, n: nat, i: nat)
    requires i < n
    ensures Eval(data + Remainder(data, n), Alpha(i)) == 0
  {
    var x := Alpha(i);
    if data == [] {
      assert data + Remainder(data, n) == Zeros(n);
      EvalZeros(n, x);
    } else {
      var d := |data| - 1;
      var b, r := data[d], Remainder(data[..d], n);
      CodewordVanishes(data[..d], n, i);
      GeneratorRoots(n, i);
      StepVanishes(data[..d], r, b, Generator(n), x);
      var next := Remainder(data, n);
      assert next == Step(r, b, Generator(n));
      LastSplit(data);
    }
  }

  lemma {:induction false} LastSplit(data: Poly)
    requires data != []
    ensures data == data[..|data| - 1] + [data[|data| - 1]]
  {
  }

  lemma {:induction false} EvalZeros(n: nat, x: byte)
    ensures Eval(Zeros(n), x) == 0
  {
    if n == 0 {
    } else {
      EvalZeros(n - 1, x);
      assert Zeros(n)[..n - 1] == Zeros(n - 1);
      MulZero(x);
      XorZero(0);
    }
  }

  lemma {:induction false} StepAt(r: Poly, b: byte, gen: Poly, k: nat)
    requires k < |r| && |gen| == |r| + 1
    ensures Step(r, b, gen)[k] == Add((r + [0])[k + 1], Mul(Add(b, r[0]), gen[k + 1]))
  {
    var f := Add(b, r[0]);
    MulComm(gen[k + 1], f);
    assert (r[1..] + [0])[k] == (r + [0])[k + 1];
    assert Step(r, b, gen)[k] == Add((r[1..] + [0])[k], Mul(gen[k + 1], f));
  }

  lemma {:induction false} HeadCancels(b: byte, head: byte)
    ensures b == Add(head, Mul(Add(b, head), 1))
  {
    MulOne(Add(b, head));
    XorComm(b, head);
    XorCancel(b, head);
  }

  /** Shifting in a byte adds a multiple of the generator to the codeword so far. */
  lemma {:induction false} StepAddsMultiple(p: Poly, r: Poly, b: byte, gen: Poly)
    requires r != [] && |gen| == |r| + 1 && gen[0] == 1
    ensures p + [b] + Step(r, b, gen) == Sum(p + r + [0], Zeros(|p|) + Scale(Add(b, r[0]), gen))
  {
    var left, right := p + [b] + Step(r, b, gen), Sum(p + r + [0], Zeros(|p|) + Scale(Add(b, r[0]), gen));
    assert |left| == |right| == |p| + |r| + 1;
    forall k | 0 <= k < |left|
      ensures left[k] == right[k]
    {
      if k < |p| {
        XorZero(p[k]);
      } else if k == |p| {
        HeadCancels(b, r[0]);
      } else {
        StepAt(r, b, gen, k - |p| - 1);
      }
    }
  }

  lemma {:induction false} StepVanishes(p: Poly, r: Poly, b: byte, gen: Poly, x: byte)
    requires r != [] && |gen| == |r| + 1 && gen[0] == 1
    requires Eval(p + r, x) == 0 && Eval(gen, x) == 0
    ensures Eval(p + [b] + Step(r, b, gen), x) == 0
  {
    var f := Add(b, r[0]);
    StepAddsMultiple(p, r, b, gen);
    EvalSum(p + r + [0], Zeros(|p|) + Scale(f, gen), x);
    EvalSnoc(p + r, 0, x);
    EvalConcat(Zeros(|p|), Scale(f, gen), x);
    EvalZeros(|p|, x);
    EvalScale(f, gen, x);
    MulZero(x);
    MulZero(f);
    MulZero(Power(x, |Scale(f, gen)|));
    XorZero(0);
  }

  // ---- and why no other codewords would do ----

  /** What is left of `p` after dividing out a root `r`: the values of its prefixes at `r`. */
  function Quotient(p: Poly, r: byte): (q: Poly)
    requires p != []
    ensures |q| == |p| - 1
  {
    seq(|p| - 1, k requires 0 <= k < |p| - 1 => Eval(p[..k + 1], r))
  }

  lemma {:induction false} QuotientTimes(p: Poly, r: byte)
    requires p != [] && Eval(p, r) == 0
    ensures Times(Quotient(p, r), r) == p
  {
    var q := Quotient(p, r);
    forall k | 0 <= k < |p|
      ensures Times(q, r)[k] == p[k]
    {
      var e := Mul(Eval(p[..k], r), r);
      assert p[..k + 1][..k] == p[..k];
      assert p[..|p|] == p;
      MulZero(r);
      XorZero(p[k]);
      XorZero(e);
      assert Eval(p[..k + 1], r) == Add(e, p[k]);
      XorComm(e, p[k]);
      XorCancel(p[k], e);
      XorEqualsZero(e, p[k]);
    }
  }

  /** A polynomial with `n` coefficients that vanishes at `n` powers of alpha is zero. */
  lemma {:induction false} TooManyRoots(p: Poly, n: nat)
    requires |p| == n <= 255
    requires forall i: nat :: i < n ==> Eval(p, Alpha(i)) == 0
    ensures p == Zeros(n)
    decreases n
  {
    if n == 0 {
    } else {
      var r := Alpha(n - 1);
      var q := Quotient(p, r);
      QuotientTimes(p, r);
      forall i: nat | i < n - 1
        ensures Eval(q, Alpha(i)) == 0
      {
        var x := Alpha(i);
        EvalTimes(q, r, x);
        AlphaDistinct(i, n - 1);
        XorEqualsZero(x, r);
        if Eval(q, x) != 0 {
          MulNonzero(Eval(q, x), Add(x, r));
        }
      }
      TooManyRoots(q, n - 1);
      forall k | 0 <= k < n
        ensures p[k] == 0
      {
        assert p[k] == TimesAt(q, r, k);
        MulZero(r);
        XorZero(0);
      }
    }
  }

  /** The remainder is the only string of `n` codewords that completes `data` to a codeword. */
  lemma {:induction false} CodewordUnique(data: Poly, ec: Poly, n: nat)
    requires 0 < n <= 255 && |ec| == n
    requires forall i: nat :: i < n ==> Eval(data + ec, Alpha(i)) == 0
    ensures ec == Remainder(data, n)
  {
    var rem := Remainder(data, n);
    var diff := Sum(ec, rem);
    forall i: nat | i < n
      ensures Eval(diff, Alpha(i)) == 0
    {
      var x := Alpha(i);
      CodewordVanishes(data, n, i);
      EvalSum(ec, rem, x);
      EvalConcat(data, ec, x);
      EvalConcat(data, rem, x);
      var d := Mul(Eval(data, x), Power(x, n));
      XorEqualsZero(d, Eval(ec, x));
      XorEqualsZero(d, Eval(rem, x));
      XorSelf(d);
    }
    TooManyRoots(diff, n);
    forall k | 0 <= k < n
      ensures ec[k] == rem[k]
    {
      assert diff[k] == 0;
      XorEqualsZero(ec[k], rem[k]);
    }
  }
}
