/** Bitwise exclusive-or, inclusive or and shifts of non-negative numbers, which is what `^`, `|` and `<<` compute on them. */
module Bitwise {

  /** A byte, as the program stores it in a `Buffer` or a `Uint8Array`. */
  type byte = b: int | 0 <= b < 256

  function Xor(a: nat, b: nat): nat
    decreases a + b
  {
    if a == 0 && b == 0 then 0 else (a + b) % 2 + 2 * Xor(a / 2, b / 2)
  }

  lemma {:induction false} XorSelf(a: nat)
    ensures Xor(a, a) == 0
  {
    if a == 0 {
    } else {
      XorSelf(a / 2);
    }
  }

  lemma {:induction false} XorZero(a: nat)
    ensures Xor(a, 0) == a && Xor(0, a) == a
  {
    if a == 0 {
    } else {
      XorZero(a / 2);
    }
  }

  lemma {:induction false} XorComm(a: nat, b: nat)
    ensures Xor(a, b) == Xor(b, a)
    decreases a + b
  {
    if a + b == 0 {
    } else {
      XorComm(a / 2, b / 2);
    }
  }

  /** The last bit of an exclusive-or, and the rest of it. */
  lemma {:induction false} XorHalf(a: nat, b: nat)
    ensures Xor(a, b) % 2 == (a + b) % 2
    ensures Xor(a, b) / 2 == Xor(a / 2, b / 2)
  {
    var r, h := (a + b) % 2, Xor(a / 2, b / 2);
    assert Xor(a, b) == r + 2 * h;
    HalfOf(r, h);
  }

  lemma {:induction false} HalfOf(r: nat, h: nat)
    requires r < 2
    ensures (r + 2 * h) % 2 == r && (r + 2 * h) / 2 == h
  {
  }

  lemma {:induction false} ParityAssoc(a: nat, b: nat, c: nat, ab: nat, bc: nat)
    requires ab % 2 == (a + b) % 2 && bc % 2 == (b + c) % 2
    ensures (ab + c) % 2 == (a + bc) % 2
  {
  }

  /** One level of the definition, with the sums named so that nothing unfolds further. */
  lemma {:induction false} XorUnfold(a: nat, b: nat)
    ensures Xor(a, b) == (a + b) % 2 + 2 * Xor(a / 2, b / 2)
  {
  }

  lemma {:induction false} XorAssoc(a: nat, b: nat, c: nat)
    ensures Xor(Xor(a, b), c) == Xor(a, Xor(b, c))
    decreases a + b + c
  {
    if a + b + c == 0 {
    } else {
      var ab, bc := Xor(a, b), Xor(b, c);
      XorHalf(a, b);
      XorHalf(b, c);
      ParityAssoc(a, b, c, ab, bc);
      XorAssoc(a / 2, b / 2, c / 2);
      XorUnfold(ab, c);
      XorUnfold(a, bc);
    }
  }

  lemma {:induction false} XorSwap(a: nat, b: nat, c: nat, d: nat)
    ensures Xor(Xor(a, b), Xor(c, d)) == Xor(Xor(a, c), Xor(b, d))
  {
    XorAssoc(a, b, Xor(c, d));
    XorAssoc(b, c, d);
    XorComm(b, c);
    XorAssoc(c, b, d);
    XorAssoc(a, c, Xor(b, d));
  }

  lemma {:induction false} XorCancel(a: nat, b: nat)
    ensures Xor(Xor(a, b), b) == a && Xor(b, Xor(b, a)) == a
  {
    XorAssoc(a, b, b);
    XorAssoc(b, b, a);
    XorSelf(b);
    XorZero(a);
  }

  lemma {:induction false} XorEqualsZero(a: nat, b: nat)
    ensures Xor(a, b) == 0 <==> a == b
  {
    XorCancel(a, b);
    XorZero(b);
    XorSelf(b);
  }

  lemma {:induction false} XorDouble(a: nat, b: nat)
    ensures Xor(2 * a, 2 * b) == 2 * Xor(a, b)
  {
    assert (2 * a + 2 * b) % 2 == 0 && 2 * a / 2 == a && 2 * b / 2 == b;
  }

  function Pow2(n: nat): (p: nat)
    ensures p > 0
  {
    if n == 0 then 1 else 2 * Pow2(n - 1)
  }

  lemma {:induction false} XorBound(a: nat, b: nat, n: nat)
    requires a < Pow2(n) && b < Pow2(n)
    ensures Xor(a, b) < Pow2(n)
  {
    if n == 0 {
    } else {
      XorBound(a / 2, b / 2, n - 1);
    }
  }

  lemma {:induction false} XorByte(a: byte, b: byte)
    ensures Xor(a, b) < 256
  {
    assert Pow2(8) == 256;
    XorBound(a, b, 8);
  }

  /** A left shift that loses no bits. */
  function Shl(v: nat, k: nat): nat {
    if k == 0 then v else 2 * Shl(v, k - 1)
  }

  lemma {:induction false} ShlIsProduct(v: nat, k: nat)
    ensures Shl(v, k) == v * Pow2(k)
  {
    if k == 0 {
    } else {
      ShlIsProduct(v, k - 1);
      assert v * (2 * Pow2(k - 1)) == 2 * (v * Pow2(k - 1));
    }
  }

  lemma {:induction false} ShlConstants(k: nat)
    ensures Shl(0, k) == 0 && Shl(1, k) == Pow2(k)
  {
    if k == 0 {
    } else {
      ShlConstants(k - 1);
    }
  }

  /** Exclusive-or acts on the low `n` bits and on the rest separately. */
  lemma {:induction false} XorSplit(a: nat, b: nat, s: nat, t: nat, n: nat)
    requires a < Pow2(n) && b < Pow2(n)
    ensures Xor(a + Shl(s, n), b + Shl(t, n)) == Xor(a, b) + Shl(Xor(s, t), n)
  {
    if n == 0 {
      XorZero(0);
    } else {
      var m, k := Shl(s, n - 1), Shl(t, n - 1);
      HalvesOfSum(a, m);
      HalvesOfSum(b, k);
      ParitySum(a, b, m, k);
      XorSplit(a / 2, b / 2, s, t, n - 1);
      XorUnfold(a + 2 * m, b + 2 * k);
      XorUnfold(a, b);
    }
  }

  /** Two equal top bits cancel; a single one stays. */
  lemma {:induction false} XorTop(a: nat, b: nat, n: nat)
    requires a < Pow2(n) && b < Pow2(n)
    ensures Xor(a + Pow2(n), b + Pow2(n)) == Xor(a, b) < Pow2(n)
    ensures Xor(a + Pow2(n), b) == Xor(b, a + Pow2(n)) == Xor(a, b) + Pow2(n)
  {
    ShlConstants(n);
    XorSelf(1);
    XorZero(1);
    XorSplit(a, b, 1, 1, n);
    XorSplit(a, b, 1, 0, n);
    XorComm(a + Pow2(n), b);
    XorBound(a, b, n);
  }

  lemma {:induction false} HalvesOfSum(a: nat, m: nat)
    ensures (a + 2 * m) / 2 == a / 2 + m
  {
  }

  lemma {:induction false} ParitySum(a: nat, b: nat, m: nat, n: nat)
    ensures (a + 2 * m + (b + 2 * n)) % 2 == (a + b) % 2
  {
    assert a + 2 * m + (b + 2 * n) == a + b + 2 * (m + n);
  }

  lemma {:induction false} ParityAdd(a: nat, b: nat)
    ensures (a + b) % 2 == if a % 2 == b % 2 then 0 else 1
  {
  }

  // ---- inclusive or ----

  function Or(a: nat, b: nat): nat
    decreases a + b
  {
    if a == 0 && b == 0 then 0
    else (if a % 2 == 1 || b % 2 == 1 then 1 else 0) + 2 * Or(a / 2, b / 2)
  }

  lemma {:induction false} OrZero(a: nat)
    ensures Or(a, 0) == a
  {
    if a == 0 {
    } else {
      OrZero(a / 2);
    }
  }

  lemma {:induction false} OrDisjoint(v: nat, low: nat, k: nat)
    requires low < Pow2(k)
    ensures Or(Shl(v, k), low) == Shl(v, k) + low == Xor(Shl(v, k), low)
  {
    if k == 0 {
      OrZero(v);
      XorZero(v);
    } else {
      OrDisjoint(v, low / 2, k - 1);
      OrStep(Shl(v, k - 1), low);
    }
  }

  lemma {:induction false} OrUnfold(a: nat, b: nat)
    ensures Or(a, b) == (if a % 2 == 1 || b % 2 == 1 then 1 else 0) + 2 * Or(a / 2, b / 2)
  {
  }

  lemma {:induction false} OrStep(m: nat, low: nat)
    ensures Or(2 * m, low) == low % 2 + 2 * Or(m, low / 2)
    ensures Xor(2 * m, low) == low % 2 + 2 * Xor(m, low / 2)
  {
    EvenPlus(m, low);
    OrUnfold(2 * m, low);
    XorUnfold(2 * m, low);
  }

  lemma {:induction false} EvenPlus(m: nat, low: nat)
    ensures (2 * m + low) % 2 == low % 2 && 2 * m / 2 == m && 2 * m % 2 == 0
  {
  }

  lemma {:induction false} Pow2Monotone(a: nat, b: nat)
    requires a <= b
    ensures Pow2(a) <= Pow2(b)
  {
    if a >= b {
    } else {
      Pow2Monotone(a, b - 1);
    }
  }
}
