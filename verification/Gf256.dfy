/**
 * The field GF(256) of the QR encoder: bytes as polynomials over GF(2) modulo 0x11D,
 * and the exponent and logarithm tables that multiply them.
 */
module Gf256 {
  import opened Arith
  import opened Bitwise
  import opened MachineByte

  // ---- carry-less multiplication, the definition the tables are held against ----

  /** Multiplication by x modulo x^8 + x^4 + x^3 + x^2 + 1. */
  function Xtime(a: byte): byte {
    if a < 128 then 2 * a else ReduceBound(2 * a); Xor(2 * a, 0x11d)
  }

  lemma {:induction false} ReduceBound(v: nat)
    requires 256 <= v < 512
    ensures Xor(v, 0x11d) == Xor(v - 256, 0x1d) < 256
  {
    assert Pow2(8) == 256;
    XorTop(v - 256, 0x1d, 8);
  }

  /** Addition in the field, which is also subtraction. */
  function Add(a: byte, b: byte): byte {
    XorByte(a, b);
    Xor(a, b)
  }

  /** `a` when the last bit of `b` is set, and zero otherwise. */
  function Pick(b: nat, a: byte): byte {
    if b % 2 == 0 then 0 else a
  }

  lemma {:induction false} PickXor(b: nat, c: nat, a: byte)
    ensures Pick(Xor(b, c), a) == Xor(Pick(b, a), Pick(c, a))
  {
    XorHalf(b, c);
    ParityAdd(b, c);
    XorZero(a);
    XorSelf(a);
  }

  /** Carry-less product of `a` and `b`, reduced modulo 0x11D. */
  function Mul(a: byte, b: byte): byte
    decreases b
  {
    if b == 0 then 0 else
      XorByte(Pick(b, a), Mul(Xtime(a), b / 2));
      Xor(Pick(b, a), Mul(Xtime(a), b / 2))
  }

  lemma {:induction false} MulStep(a: byte, b: byte)
    ensures Mul(a, b) == Xor(Pick(b, a), Mul(Xtime(a), b / 2))
  {
    XorZero(0);
  }

  lemma {:induction false} XtimeSplit(low: nat, top: nat)
    requires low < 128 && top < 2
    ensures Xtime(low + 128 * top) == Xor(2 * low, Pick(top, 0x1d))
  {
    if top == 1 {
      ReduceBound(2 * (low + 128));
    } else {
      XorZero(2 * low);
    }
  }

  lemma {:induction false} XtimeXor(a: byte, b: byte)
    ensures Xor(a, b) < 256 && Xtime(Xor(a, b)) == Xor(Xtime(a), Xtime(b))
  {
    XorByte(a, b);
    XtimeXorSplit(a % 128, a / 128, b % 128, b / 128);
  }

  lemma {:induction false} XtimeXorSplit(low1: nat, top1: nat, low2: nat, top2: nat)
    requires low1 < 128 && low2 < 128 && top1 < 2 && top2 < 2
    ensures Xor(low1 + 128 * top1, low2 + 128 * top2) < 256
    ensures Xtime(Xor(low1 + 128 * top1, low2 + 128 * top2)) == Xor(Xtime(low1 + 128 * top1), Xtime(low2 + 128 * top2))
  {
    var low, top := Xor(low1, low2), Xor(top1, top2);
    XorSplit128(low1, top1, low2, top2);
    XtimeSplit(low1, top1);
    XtimeSplit(low2, top2);
    XtimeSplit(low, top);
    PickXor(top1, top2, 0x1d);
    XorDouble(low1, low2);
    XorSwap(2 * low1, 2 * low2, Pick(top1, 0x1d), Pick(top2, 0x1d));
  }

  lemma {:induction false} XorSplit128(low1: nat, top1: nat, low2: nat, top2: nat)
    requires low1 < 128 && low2 < 128 && top1 < 2 && top2 < 2
    ensures Xor(low1, low2) < 128 && Xor(top1, top2) < 2
    ensures Xor(low1 + 128 * top1, low2 + 128 * top2) == Xor(low1, low2) + 128 * Xor(top1, top2)
  {
    assert Pow2(7) == 128 && Pow2(1) == 2;
    ShlIsProduct(top1, 7);
    ShlIsProduct(top2, 7);
    ShlIsProduct(Xor(top1, top2), 7);
    XorSplit(low1, low2, top1, top2, 7);
    XorBound(low1, low2, 7);
    XorBound(top1, top2, 1);
  }

  /** Multiplication distributes over addition, which is exclusive-or. */
  lemma {:induction false} MulXorRight(a: byte, b: byte, c: byte)
    ensures Xor(b, c) < 256 && Mul(a, Xor(b, c)) == Xor(Mul(a, b), Mul(a, c))
    decreases b + c
  {
    XorByte(b, c);
    if b + c == 0 {
      XorZero(0);
    } else {
      XorHalf(b, c);
      MulXorRight(Xtime(a), b / 2, c / 2);
      MulStep(a, b);
      MulStep(a, c);
      MulStep(a, Xor(b, c));
      PickXor(b, c, a);
      XorSwap(Pick(b, a), Pick(c, a), Mul(Xtime(a), b / 2), Mul(Xtime(a), c / 2));
    }
  }

  lemma {:induction false} MulXorLeft(a: byte, b: byte, c: byte)
    ensures Xor(a, b) < 256 && Mul(Xor(a, b), c) == Xor(Mul(a, c), Mul(b, c))
    decreases c
  {
    XorByte(a, b);
    XorZero(0);
    if c == 0 {
    } else {
      XtimeXor(a, b);
      MulXorLeft(Xtime(a), Xtime(b), c / 2);
      XorSwap(Pick(c, a), Pick(c, b), Mul(Xtime(a), c / 2), Mul(Xtime(b), c / 2));
    }
  }

  lemma {:induction false} MulXtimeLeft(a: byte, b: byte)
    ensures Mul(Xtime(a), b) == Xtime(Mul(a, b))
    decreases b
  {
    if b == 0 {
    } else {
      MulXtimeLeft(Xtime(a), b / 2);
      XtimeXor(Pick(b, a), Mul(Xtime(a), b / 2));
    }
  }

  lemma {:induction false} MulOneLeft(b: byte)
    ensures Mul(1, b) == b
    decreases b
  {
    if b == 0 {
    } else {
      MulOneLeft(b / 2);
      MulXtimeLeft(1, b / 2);
      XorUnfold(Pick(b, 1), 2 * (b / 2));
      XorZero(b / 2);
    }
  }

  // ---- the same product on machine bytes, for the few numbers worked out below ----

  function XtimeBv(a: bv8): bv8 {
    if a & 0x80 == 0 then a << 1 else (a << 1) ^ 0x1d
  }

  function MulBv(x: bv8, y: bv8, n: nat): bv8
    decreases n
  {
    if n == 0 then 0 else (if y & 1 == 0 then 0 else x) ^ MulBv(XtimeBv(x), y >> 1, n - 1)
  }

  lemma {:induction false} BvXtimeLow(a: byte)
    requires a < 128
    ensures Bv(Xtime(a), 8) == Bv(a, 8) << 1
  {
    assert Pow2(8) == 256;
    BvDouble(a, 8);
    BvTop(2 * a, 8);
  }

  lemma {:induction false} BvReducer()
    ensures Bv(0x11d, 9) == 0x1d
  {
    assert Bv(0x11d, 9) == (Bv(0x47, 7) << 2) | 1;
    assert Bv(0x47, 7) == (Bv(0x11, 5) << 2) | 3;
    assert Bv(0x11, 5) == 0x11;
  }

  lemma {:induction false} BvXtimeHigh(a: byte)
    requires a >= 128
    ensures Bv(Xtime(a), 8) == (Bv(a, 8) << 1) ^ 0x1d
  {
    assert Pow2(8) == 256;
    var v := Xor(2 * a, 0x11d);
    ReduceBound(2 * a);
    BvDouble(a, 8);
    BvTop(v, 8);
    BvXor(2 * a, 0x11d, 9);
    BvReducer();
  }

  lemma {:induction false} BvXtime(a: byte)
    ensures Bv(Xtime(a), 8) == XtimeBv(Bv(a, 8))
  {
    assert Pow2(8) == 256 && Pow2(7) == 128;
    BitValues();
    BvTest(a, 7);
    if a < 128 {
      BvXtimeLow(a);
    } else {
      BvXtimeHigh(a);
    }
  }

  lemma {:induction false} ShiftRight(x: bv8, s: bv8)
    requires x & 0x80 == 0 && s <= 1
    ensures ((x << 1) | s) >> 1 == x && ((x << 1) | s) & 1 == s
  {
  }

  lemma {:induction false} BvMul(a: byte, b: byte, n: nat)
    requires n <= 8 && b < Pow2(n)
    ensures Bv(Mul(a, b), 8) == MulBv(Bv(a, 8), Bv(b, n), n)
    decreases n
  {
    if n == 0 {
      assert Bv(0, 8) == 0;
    } else {
      BvMul(Xtime(a), b / 2, n - 1);
      BvXtime(a);
      BvHigh(b / 2, n - 1);
      var x, s := Bv(b / 2, n - 1), if b % 2 == 0 then 0 else 1;
      ShiftRight(x, s);
      BvMulStep(a, b, (x << 1) | s, n);
    }
  }

  lemma {:induction false} BvMulStep(a: byte, b: byte, y: bv8, n: nat)
    requires n > 0 && (y & 1 == 0 <==> b % 2 == 0)
    requires Bv(Mul(Xtime(a), b / 2), 8) == MulBv(XtimeBv(Bv(a, 8)), y >> 1, n - 1)
    ensures Bv(Mul(a, b), 8) == MulBv(Bv(a, 8), y, n)
  {
    var m := Mul(Xtime(a), b / 2);
    MulStep(a, b);
    if b % 2 == 0 {
      XorZero(m);
    } else {
      BvXor(a, m, 8);
    }
  }

  // ---- the powers of alpha = x ----

  function Alpha(i: nat): byte {
    if i == 0 then 1 else Xtime(Alpha(i - 1))
  }

  lemma {:induction false} AlphaAdd(i: nat, j: nat)
    ensures Mul(Alpha(i), Alpha(j)) == Alpha(i + j)
  {
    if i == 0 {
      MulOneLeft(Alpha(j));
    } else {
      AlphaAdd(i - 1, j);
      MulXtimeLeft(Alpha(i - 1), Alpha(j));
    }
  }

  lemma {:induction false} AlphaNonzero(i: nat)
    ensures Alpha(i) != 0
  {
    if i == 0 {
    } else {
      AlphaNonzero(i - 1);
      XorEqualsZero(2 * Alpha(i - 1), 0x11d);
    }
  }

  /** One product of powers of alpha, worked out on machine bytes. */
  lemma {:induction false} AlphaProduct(i: nat, j: nat, a: byte, b: byte, c: byte)
    requires Alpha(i) == a && Alpha(j) == b
    requires MulBv(Bv(a, 8), Bv(b, 8), 8) == Bv(c, 8)
    ensures Alpha(i + j) == c
  {
    assert Pow2(8) == 256;
    AlphaAdd(i, j);
    BvMul(a, b, 8);
    BvInjective(Mul(a, b), c, 8);
  }

  /** Two bits more. */
  function Pair(high: bv8, low: nat): bv8
    requires low < 4
  {
    (high << 2) | (match low case 0 => 0 case 1 => 1 case 2 => 2 case _ => 3)
  }

  lemma {:induction false} BvPair(a: nat, low: nat, n: nat)
    requires low < 4
    ensures Bv(4 * a + low, n + 2) == Pair(Bv(a, n), low)
  {
    var half := (4 * a + low) / 2;
    assert half == 2 * a + low / 2 && half / 2 == a && half % 2 == low / 2;
    assert Bv(half, n + 1) == (Bv(a, n) << 1) | (if half % 2 == 0 then 0 else 1);
    assert Bv(4 * a + low, n + 2) == (Bv(half, n + 1) << 1) | (if low % 2 == 0 then 0 else 1);
  }

  lemma {:induction false} BvHigh4()
    ensures Bv(0, 4) == 0 && Bv(1, 4) == 1 && Bv(4, 4) == 4 && Bv(9, 4) == 9 && Bv(13, 4) == 13
  {
  }

  lemma {:induction false} BvHigh6()
    ensures Bv(0, 6) == 0 && Bv(2, 6) == 2 && Bv(4, 6) == 4 && Bv(7, 6) == 7
    ensures Bv(19, 6) == 19 && Bv(38, 6) == 38 && Bv(53, 6) == 53
  {
    BvHigh4();
    BvPair(0, 0, 4);
    BvPair(0, 2, 4);
    BvPair(1, 0, 4);
    BvPair(1, 3, 4);
    BvPair(4, 3, 4);
    BvPair(9, 2, 4);
    BvPair(13, 1, 4);
  }

  lemma {:induction false} BvNumbers()
    ensures Bv(1, 8) == 1 && Bv(10, 8) == 10 && Bv(16, 8) == 16 && Bv(29, 8) == 29 && Bv(76, 8) == 76
    ensures Bv(78, 8) == 78 && Bv(152, 8) == 152 && Bv(214, 8) == 214 && Bv(215, 8) == 215
  {
    BvHigh6();
    BvPair(0, 1, 6);
    BvPair(2, 2, 6);
    BvPair(4, 0, 6);
    BvPair(7, 1, 6);
    BvPair(19, 0, 6);
    BvPair(19, 2, 6);
    BvPair(38, 0, 6);
    BvPair(53, 2, 6);
    BvPair(53, 3, 6);
  }

  lemma {:induction false} Products17()
    ensures MulBv(16, 16, 8) == 29 && MulBv(29, 29, 8) == 76
  {
  }

  lemma {:induction false} Products51()
    ensures MulBv(152, 152, 8) == 78 && MulBv(78, 152, 8) == 10
  {
  }

  lemma {:induction false} Products255()
    ensures MulBv(10, 78, 8) == 214 && MulBv(214, 214, 8) == 215 && MulBv(215, 214, 8) == 1
  {
  }

  lemma {:induction false} Alpha17()
    ensures Alpha(1) == 2 && Alpha(16) == 76 && Alpha(17) == 152
  {
    BvNumbers();
    Products17();
    assert Alpha(4) == 16;
    AlphaProduct(4, 4, 16, 16, 29);
    AlphaProduct(8, 8, 29, 29, 76);
  }

  lemma {:induction false} Alpha51()
    ensures Alpha(34) == 78 && Alpha(51) == 10
  {
    BvNumbers();
    Products51();
    Alpha17();
    AlphaProduct(17, 17, 152, 152, 78);
    AlphaProduct(34, 17, 78, 152, 10);
  }

  lemma {:induction false} Alpha255()
    ensures Alpha(85) == 214 && Alpha(255) == 1
  {
    BvNumbers();
    Products255();
    Alpha51();
    AlphaProduct(51, 34, 10, 78, 214);
    AlphaProduct(85, 85, 214, 214, 215);
    AlphaProduct(170, 85, 215, 214, 1);
  }

  lemma {:induction false} AlphaCycle(i: nat, n: nat)
    requires Alpha(n) == 1
    ensures Alpha(n + i) == Alpha(i)
  {
    AlphaAdd(n, i);
    MulOneLeft(Alpha(i));
  }

  lemma {:induction false} AlphaCycles(i: nat, n: nat, k: nat)
    requires Alpha(n) == 1
    ensures Alpha(k * n + i) == Alpha(i)
    decreases k
  {
    if k == 0 {
    } else {
      AlphaCycles(i, n, k - 1);
      AlphaCycle((k - 1) * n + i, n);
      assert k * n + i == n + ((k - 1) * n + i);
    }
  }

  lemma {:induction false} DivisorSmall(d: nat, k: nat)
    requires 0 < d < 16 && d * k == 255
    ensures (d == 1 && k == 255) || (d == 3 && k == 85) || (d == 5 && k == 51) || (d == 15 && k == 17)
  {
    if d == 2 {} else if d == 4 {} else if d == 6 {} else if d == 7 {} else if d == 8 {}
    else if d == 9 {} else if d == 10 {} else if d == 11 {} else if d == 12 {} else if d == 13 {} else if d == 14 {}
  }

  /** A proper divisor of 255 = 3 * 5 * 17 divides 85, 51 or 15. */
  lemma {:induction false} DivisorsOf255(d: nat, k: nat) returns (m: nat, q: nat)
    requires 0 < d < 255 && d * k == 255
    ensures m in {15, 51, 85} && q * d == m
  {
    if d < 16 {
      DivisorSmall(d, k);
      m := if d == 3 then 51 else 85;
      if d == 15 { m := 15; }
      q := m / d;
    } else {
      assert k < 16 by {
        if k >= 16 {
          MulMonotone(d, k);
        }
      }
      DivisorSmall(k, d);
      m, q := d, 1;
      if d == 17 { m, q := 51, 3; }
    }
  }

  lemma {:induction false} MulMonotone(d: nat, k: nat)
    requires d >= 16 && k >= 16
    ensures d * k >= 256
  {
  }

  lemma {:induction false} AlphaRemainder(d: nat, m: nat)
    requires d > 0 && Alpha(d) == 1 && Alpha(m) == 1
    ensures Alpha(m % d) == 1
  {
    var q := FloorDiv(m, d);
    DivUnique(m, d, q);
    AlphaCycles(m - q * d, d, q);
  }

  lemma {:induction false} AlphaNotOne()
    ensures Alpha(15) != 1 && Alpha(51) != 1 && Alpha(85) != 1
  {
    Alpha17();
    Alpha51();
    Alpha255();
    assert Alpha(16) == Xtime(Alpha(15));
  }

  lemma {:induction false} AlphaNoDivisor(d: nat)
    requires 0 < d < 255 && 255 % d == 0
    ensures Alpha(d) != 1
  {
    if Alpha(d) == 1 {
      var m, q := DivisorsOf255(d, 255 / d);
      AlphaCycles(0, d, q);
      assert q * d + 0 == m;
      AlphaNotOne();
      assert false;
    }
  }

  /** No power of alpha short of the 255th comes back to one. */
  lemma {:induction false} AlphaOrder(d: nat)
    requires 0 < d < 255
    ensures Alpha(d) != 1
    decreases d
  {
    if Alpha(d) == 1 {
      Alpha255();
      AlphaRemainder(d, 255);
      if 255 % d != 0 {
        AlphaOrder(255 % d);
      } else {
        AlphaNoDivisor(d);
      }
    }
  }

  lemma {:induction false} XtimeInjective(a: byte, b: byte)
    requires Xtime(a) == Xtime(b)
    ensures a == b
  {
    XtimeXor(a, b);
    XorSelf(Xtime(a));
    XorEqualsZero(a, b);
    XtimeZero(Xor(a, b));
  }

  lemma {:induction false} XtimeZero(a: byte)
    requires Xtime(a) == 0
    ensures a == 0
  {
    XorEqualsZero(2 * a, 0x11d);
  }

  lemma {:induction false} AlphaDistinct(i: nat, j: nat)
    requires i < j < 255
    ensures Alpha(i) != Alpha(j)
    decreases i
  {
    if i == 0 {
      AlphaOrder(j);
    } else if Alpha(i) == Alpha(j) {
      XtimeInjective(Alpha(i - 1), Alpha(j - 1));
      AlphaDistinct(i - 1, j - 1);
    }
  }

  ghost function AlphaSet(n: nat): set<int> {
    set k: nat | k < n :: Alpha(k) as int
  }

  lemma {:induction false} AlphaSetSize(n: nat)
    requires n <= 255
    ensures |AlphaSet(n)| == n
  {
    if n == 0 {
    } else {
      AlphaSetSize(n - 1);
      forall k: nat | k < n - 1
        ensures Alpha(k) != Alpha(n - 1)
      {
        AlphaDistinct(k, n - 1);
      }
      assert AlphaSet(n) == AlphaSet(n - 1) + {Alpha(n - 1) as int};
      assert Alpha(n - 1) as int !in AlphaSet(n - 1);
    }
  }

  ghost function UpTo(n: nat): set<int> {
    if n == 0 then {} else UpTo(n - 1) + {n}
  }

  lemma {:induction false} UpToSize(n: nat)
    ensures |UpTo(n)| == n
    ensures forall v: int :: v in UpTo(n) <==> 1 <= v <= n
  {
    if n == 0 {
    } else {
      UpToSize(n - 1);
    }
  }

  /** Alpha is primitive: its first 255 powers are all the nonzero bytes. */
  lemma {:induction false} AlphaPrimitive(a: byte) returns (i: nat)
    requires a != 0
    ensures i < 255 && Alpha(i) == a
  {
    var powers, nonzero := AlphaSet(255), UpTo(255);
    AlphaSetSize(255);
    UpToSize(255);
    assert powers <= nonzero by {
      forall k: nat | k < 255
        ensures Alpha(k) as int in nonzero
      {
        AlphaNonzero(k);
      }
    }
    if a as int !in powers {
      assert powers <= nonzero - {a as int};
      SubsetSize(powers, nonzero - {a as int});
    }
    i :| i < 255 && Alpha(i) as int == a as int;
  }

  lemma {:induction false} SubsetSize(a: set<int>, b: set<int>)
    requires a <= b
    ensures |a| <= |b|
  {
    assert a + (b - a) == b;
  }

  // ---- the field laws, which the powers of alpha inherit from addition ----

  lemma {:induction false} MulZero(a: byte)
    ensures Mul(a, 0) == 0 && Mul(0, a) == 0
  {
    MulXorLeft(a, a, a);
    XorSelf(a);
    XorSelf(Mul(a, a));
  }

  lemma {:induction false} MulOne(a: byte)
    ensures Mul(a, 1) == a && Mul(1, a) == a
  {
    MulOneLeft(a);
    if a == 0 {
      MulZero(1);
    } else {
      var i := AlphaPrimitive(a);
      AlphaAdd(i, 0);
    }
  }

  lemma {:induction false} MulComm(a: byte, b: byte)
    ensures Mul(a, b) == Mul(b, a)
  {
    MulZero(a);
    MulZero(b);
    if a != 0 && b != 0 {
      var i := AlphaPrimitive(a);
      var j := AlphaPrimitive(b);
      AlphaAdd(i, j);
      AlphaAdd(j, i);
    }
  }

  lemma {:induction false} MulAssoc(a: byte, b: byte, c: byte)
    ensures Mul(Mul(a, b), c) == Mul(a, Mul(b, c))
  {
    MulZero(a);
    MulZero(b);
    MulZero(c);
    MulZero(Mul(b, c));
    MulZero(Mul(a, b));
    if a != 0 && b != 0 && c != 0 {
      var i := AlphaPrimitive(a);
      var j := AlphaPrimitive(b);
      var k := AlphaPrimitive(c);
      AlphaAdd(i, j);
      AlphaAdd(j, k);
      AlphaAssoc(i, j, k);
    }
  }

  lemma {:induction false} AlphaAssoc(i: nat, j: nat, k: nat)
    ensures Mul(Alpha(i + j), Alpha(k)) == Mul(Alpha(i), Alpha(j + k))
  {
    AlphaAdd(i + j, k);
    AlphaAdd(i, j + k);
  }

  /** A field has no zero divisors. */
  lemma {:induction false} MulNonzero(a: byte, b: byte)
    requires a != 0 && b != 0
    ensures Mul(a, b) != 0
  {
    var i := AlphaPrimitive(a);
    var j := AlphaPrimitive(b);
    AlphaAdd(i, j);
    AlphaNonzero(i + j);
  }

  lemma {:induction false} AlphaCycles255(k: nat)
    ensures Alpha(k) == Alpha(k % 255)
  {
    Alpha255();
    AlphaCycles(k % 255, 255, k / 255);
  }

  // ---- the tables ----

  /** The exponent and logarithm tables, filled when the module loads. */
  class Tables {
    const exp: array<byte>
    const log: array<byte>

    ghost predicate Valid()
      reads this, exp, log
    {
      && exp.Length == 512 && log.Length == 256
      && (forall k: nat :: k < 512 ==> exp[k] == Alpha(k))
      && (forall k: nat :: k < 255 ==> log[Alpha(k)] == k)
    }

    constructor ()
      ensures Valid() && fresh(exp) && fresh(log)
    {
      exp := new byte[512](_ => 0);
      log := new byte[256](_ => 0);
      new;
      ghost var powers := AlphaPowers();
      FillCycle(exp, log, powers);
      FillTail(exp, powers);
      Filled(powers);
    }

    lemma {:induction false} Filled(powers: seq<byte>)
      requires exp.Length == 512 && log.Length == 256 && |powers| == 255
      requires forall k: nat :: k < 255 ==> powers[k] == Alpha(k)
      requires forall k :: 0 <= k < 512 ==> exp[k] == powers[k % 255]
      requires forall k :: 0 <= k < 255 ==> log[powers[k]] == k
      ensures Valid()
    {
      forall k: nat | k < 512
        ensures exp[k] == Alpha(k)
      {
        AlphaCycles255(k);
      }
    }

    /** The second loop: `EXP[i] = EXP[i - 255]`. */
    static method FillTail(exp: array<byte>, ghost powers: seq<byte>)
      requires exp.Length == 512 && |powers| == 255
      requires forall k :: 0 <= k < 255 ==> exp[k] == powers[k]
      modifies exp
      ensures forall k :: 0 <= k < 512 ==> exp[k] == powers[k % 255]
    {
      for i := 255 to 512
        invariant forall k :: 0 <= k < i ==> exp[k] == powers[k % 255]
      {
        exp[i] := exp[i - 255];
      }
    }

    /** The first loop, over any cycle of doublings that does not meet itself. */
    static method FillCycle(exp: array<byte>, log: array<byte>, ghost powers: seq<byte>)
      requires exp.Length == 512 && log.Length == 256 && exp != log
      requires |powers| == 255 && powers[0] == 1
      requires forall k :: 0 <= k < 254 ==> powers[k + 1] == Xtime(powers[k])
      requires forall j, k :: 0 <= j < k < 255 ==> powers[j] != powers[k]
      modifies exp, log
      ensures forall k :: 0 <= k < 255 ==> exp[k] == powers[k]
      ensures forall k :: 0 <= k < 255 ==> log[powers[k]] == k
    {
      var x: byte := 1;
      for i := 0 to 255
        invariant i < 255 ==> x == powers[i]
        invariant forall k :: 0 <= k < i ==> exp[k] == powers[k]
        invariant forall k :: 0 <= k < i ==> log[powers[k]] == k
      {
        exp[i] := x;
        log[x] := i;
        x := Doubled(x);
      }
    }

    /** `x <<= 1; if (x & 0x100) x ^= 0x11d`. */
    static method Doubled(x: byte) returns (next: byte)
      ensures next == Xtime(x)
    {
      var wide: nat := 2 * x;
      if wide >= 0x100 {
        ReduceBound(wide);
        wide := Xor(wide, 0x11d);
      }
      next := wide;
    }

    lemma {:induction false} LogBound(a: byte)
      requires Valid() && a != 0
      ensures log[a] < 255 && Alpha(log[a]) == a
    {
      var i := AlphaPrimitive(a);
    }

    /** Multiplication by logarithms is multiplication of polynomials. */
    function GfMul(a: byte, b: byte): (r: byte)
      requires Valid()
      reads this, exp, log
      ensures r == Mul(a, b)
    {
      MulZero(a);
      MulZero(b);
      if a == 0 || b == 0 then 0
      else
        LogBound(a);
        LogBound(b);
        AlphaAdd(log[a], log[b]);
        exp[log[a] as int + log[b] as int]
    }
  }

  lemma {:induction false} AlphaPowers() returns (powers: seq<byte>)
    ensures |powers| == 255 && powers[0] == 1
    ensures forall k: nat :: k < 255 ==> powers[k] == Alpha(k)
    ensures forall k :: 0 <= k < 254 ==> powers[k + 1] == Xtime(powers[k])
    ensures forall j, k :: 0 <= j < k < 255 ==> powers[j] != powers[k]
  {
    powers := seq(255, k requires 0 <= k < 255 => Alpha(k));
    forall j, k | 0 <= j < k < 255
      ensures powers[j] != powers[k]
    {
      AlphaDistinct(j, k);
    }
  }
}
