/** BCH-protected fields: the format and version information of a QR symbol. */
module Bch {
  import opened Bitwise

  datatype EccLevel = L | M

  /** The position of the highest set bit, counted from one: 32 minus `clz32`. */
  function BitLength(n: nat): (b: nat)
    ensures n < Pow2(b)
    ensures n > 0 ==> b > 0 && Pow2(b - 1) <= n
  {
    if n == 0 then 0 else 1 + BitLength(n / 2)
  }

  lemma {:induction false} BitLengthUnique(n: nat, b: nat)
    requires n < Pow2(b) && b > 0 && Pow2(b - 1) <= n
    ensures BitLength(n) == b
  {
    var c := BitLength(n);
    if c < b {
      Pow2Monotone(c, b - 1);
    } else if b < c {
      Pow2Monotone(b, c - 1);
    }
  }

  // ---- carry-less multiples ----

  /** The product of `q` and `g` as polynomials over GF(2). */
  function ClMul(q: nat, g: nat): nat {
    if q == 0 then 0 else Xor(if q % 2 == 1 then g else 0, 2 * ClMul(q / 2, g))
  }

  lemma {:induction false} ClMulStep(q: nat, g: nat)
    ensures ClMul(q, g) == Xor(if q % 2 == 1 then g else 0, 2 * ClMul(q / 2, g))
  {
    XorZero(0);
  }

  lemma {:induction false} ClMulXor(p: nat, q: nat, g: nat)
    ensures ClMul(Xor(p, q), g) == Xor(ClMul(p, g), ClMul(q, g))
    decreases p + q
  {
    if p + q == 0 {
      XorZero(0);
    } else {
      var b, c := if p % 2 == 1 then g else 0, if q % 2 == 1 then g else 0;
      XorHalf(p, q);
      ParityAdd(p, q);
      ClMulXor(p / 2, q / 2, g);
      ClMulStep(p, g);
      ClMulStep(q, g);
      ClMulStep(Xor(p, q), g);
      XorZero(g);
      XorSelf(g);
      XorDouble(ClMul(p / 2, g), ClMul(q / 2, g));
      XorSwap(b, c, 2 * ClMul(p / 2, g), 2 * ClMul(q / 2, g));
    }
  }

  lemma {:induction false} ClMulPow2(s: nat, g: nat)
    ensures ClMul(Pow2(s), g) == Shl(g, s)
  {
    ClMulStep(Pow2(s), g);
    if s == 0 {
      assert ClMul(0, g) == 0;
      XorZero(g);
    } else {
      ClMulPow2(s - 1, g);
      XorZero(Shl(g, s));
    }
  }

  /** Cancelling the top bits of two numbers of the same length leaves a shorter one. */
  lemma {:induction false} XorShortens(a: nat, b: nat, n: nat)
    requires Pow2(n) <= a < Pow2(n + 1) && Pow2(n) <= b < Pow2(n + 1)
    ensures Xor(a, b) < Pow2(n)
  {
    XorTop(a - Pow2(n), b - Pow2(n), n);
  }

  lemma {:induction false} ShiftedLength(g: nat, s: nat)
    requires g > 0
    ensures Pow2(BitLength(g) + s - 1) <= Shl(g, s) < Pow2(BitLength(g) + s)
  {
    if s == 0 {
    } else {
      ShiftedLength(g, s - 1);
    }
  }

  // ---- the code ----

  /** `c` is `value` followed by `k` check bits, and a multiple of the generator. */
  ghost predicate IsBchWord(c: nat, value: nat, generator: nat, k: nat) {
    Shl(value, k) <= c < Shl(value, k) + Pow2(k) && exists q: nat :: ClMul(q, generator) == c
  }

  method Encode(value: nat, generator: nat, dataBits: nat, totalBits: nat) returns (word: nat)
    requires dataBits <= totalBits && BitLength(generator) == totalBits - dataBits + 1
    ensures IsBchWord(word, value, generator, totalBits - dataBits)
  {
    var k := totalBits - dataBits;
    var shifted: nat := Shl(value, k);
    var rest: nat := shifted;
    var genBits := BitLength(generator);
    ghost var q: nat := 0;
    StartRest(shifted, generator);
    while BitLength(rest) >= genBits
      invariant Xor(shifted, rest) == ClMul(q, generator)
      decreases rest
    {
      var s := BitLength(rest) - genBits;
      ReduceKeeps(shifted, rest, generator, q, s);
      ReduceShrinks(rest, generator, s);
      rest := Xor(rest, Shl(generator, s));
      q := Xor(q, Pow2(s));
    }
    WordIsMultiple(shifted, value, rest, generator, q, k);
    word := Or(shifted, rest);
  }

  lemma {:induction false} StartRest(shifted: nat, g: nat)
    ensures Xor(shifted, shifted) == ClMul(0, g)
  {
    XorSelf(shifted);
  }

  lemma {:induction false} WordIsMultiple(shifted: nat, value: nat, rest: nat, g: nat, q: nat, k: nat)
    requires shifted == Shl(value, k)
    requires BitLength(rest) <= k && Xor(shifted, rest) == ClMul(q, g)
    ensures IsBchWord(Or(shifted, rest), value, g, k)
  {
    Pow2Monotone(BitLength(rest), k);
    OrDisjoint(value, rest, k);
    assert Or(shifted, rest) == ClMul(q, g);
  }

  lemma {:induction false} ReduceKeeps(shifted: nat, rest: nat, g: nat, q: nat, s: nat)
    requires Xor(shifted, rest) == ClMul(q, g)
    ensures Xor(shifted, Xor(rest, Shl(g, s))) == ClMul(Xor(q, Pow2(s)), g)
  {
    ClMulXor(q, Pow2(s), g);
    ClMulPow2(s, g);
    XorAssoc(shifted, rest, Shl(g, s));
  }

  lemma {:induction false} ReduceShrinks(rest: nat, g: nat, s: nat)
    requires g > 0 && BitLength(rest) == BitLength(g) + s
    ensures Xor(rest, Shl(g, s)) < rest
  {
    var n, shifted := BitLength(rest) - 1, Shl(g, s);
    ShiftedLength(g, s);
    assert Pow2(n) <= rest < Pow2(n + 1) && Pow2(n) <= shifted < Pow2(n + 1);
    XorShortens(rest, shifted, n);
  }

  // ---- the check bits are determined by the value ----

  lemma {:induction false} XorKeepsTop(a: nat, b: nat, n: nat)
    requires Pow2(n) <= a < Pow2(n + 1) && b < Pow2(n)
    ensures Pow2(n) <= Xor(b, a) < Pow2(n + 1)
  {
    XorTop(a - Pow2(n), b, n);
  }

  lemma {:induction false} BitLengthDouble(n: nat)
    requires n > 0
    ensures BitLength(2 * n) == BitLength(n) + 1
  {
    assert 2 * n / 2 == n;
  }

  /** A product of polynomials is as long as its factors say. */
  lemma {:induction false} ClMulLength(q: nat, g: nat)
    requires q > 0 && g > 0
    ensures BitLength(ClMul(q, g)) == BitLength(q) + BitLength(g) - 1
  {
    ClMulStep(q, g);
    if q == 1 {
      assert ClMul(0, g) == 0 && BitLength(1) == 1;
      XorZero(g);
    } else {
      ClMulLength(q / 2, g);
      BitLengthDouble(ClMul(q / 2, g));
      if q % 2 == 1 {
        XorShorter(2 * ClMul(q / 2, g), g);
      } else {
        XorZero(2 * ClMul(q / 2, g));
      }
    }
  }

  lemma {:induction false} XorShorter(m: nat, g: nat)
    requires BitLength(g) < BitLength(m)
    ensures BitLength(Xor(g, m)) == BitLength(m)
  {
    var n := BitLength(m) - 1;
    Pow2Monotone(BitLength(g), n);
    XorKeepsTop(m, g, n);
    BitLengthUnique(Xor(g, m), n + 1);
  }

  lemma {:induction false} SameShifted(v: nat, a: nat, b: nat, k: nat)
    requires a < Pow2(k) && b < Pow2(k)
    ensures Xor(a + Shl(v, k), b + Shl(v, k)) < Pow2(k)
  {
    XorSplit(a, b, v, v, k);
    XorSelf(v);
    ShlConstants(k);
    XorBound(a, b, k);
  }

  lemma {:induction false} BchWordUnique(c: nat, d: nat, value: nat, generator: nat, k: nat)
    requires BitLength(generator) == k + 1
    requires IsBchWord(c, value, generator, k) && IsBchWord(d, value, generator, k)
    ensures c == d
  {
    var p: nat :| ClMul(p, generator) == c;
    var q: nat :| ClMul(q, generator) == d;
    ClMulXor(p, q, generator);
    SameShifted(value, c - Shl(value, k), d - Shl(value, k), k);
    if Xor(p, q) > 0 {
      MultipleTooLong(Xor(p, q), generator, k);
    }
    XorEqualsZero(p, q);
  }

  lemma {:induction false} MultipleTooLong(q: nat, g: nat, k: nat)
    requires q > 0 && BitLength(g) == k + 1
    ensures ClMul(q, g) >= Pow2(k)
  {
    ClMulLength(q, g);
    Pow2Monotone(k, BitLength(ClMul(q, g)) - 1);
  }

  // ---- format information ----

  function LevelBits(level: EccLevel): nat {
    match level
    case L => 1
    case M => 0
  }

  /** The fifteen format bits of `level` and `mask`, as ISO/IEC 18004 section 7.9 defines them. */
  ghost predicate IsFormat(bits: nat, level: EccLevel, mask: nat) {
    bits < 0x8000 && IsBchWord(Xor(bits, 0x5412), LevelBits(level) * 8 + mask, 0x537, 10)
  }

  lemma {:induction false} FormatGenerator()
    ensures BitLength(0x537) == 11 && BitLength(0x1f25) == 13
  {
    assert BitLength(0x53) == 7;
    assert BitLength(0x1f) == 5;
    assert BitLength(0x1f2) == 9;
  }

  method FormatBits(level: EccLevel, mask: nat) returns (bits: nat)
    requires mask < 8
    ensures IsFormat(bits, level, mask)
  {
    var value := LevelBits(level) * 8 + mask;
    FormatGenerator();
    var word := Encode(value, 0x537, 5, 15);
    FormatBound(word, value);
    bits := Xor(word, 0x5412);
  }

  lemma {:induction false} FormatBound(word: nat, value: nat)
    requires value < 32 && Shl(value, 10) <= word < Shl(value, 10) + Pow2(10)
    ensures Xor(word, 0x5412) < 0x8000
    ensures Xor(Xor(word, 0x5412), 0x5412) == word
  {
    ShlIsProduct(value, 10);
    Pow2Values();
    XorBound(word, 0x5412, 15);
    XorCancel(word, 0x5412);
  }

  /** What a reader makes of fifteen format bits that arrived intact. */
  function ReadFormat(bits: nat): (r: (EccLevel, nat)) {
    var value := Xor(bits, 0x5412) / 1024;
    (if value / 8 == 1 then L else M, value % 8)
  }

  lemma {:induction false} FormatReadsBack(bits: nat, level: EccLevel, mask: nat)
    requires mask < 8 && IsFormat(bits, level, mask)
    ensures ReadFormat(bits) == (level, mask)
  {
    var value := LevelBits(level) * 8 + mask;
    ShlIsProduct(value, 10);
    Pow2Values();
    FormatFields(Xor(bits, 0x5412), value, LevelBits(level), mask);
  }

  lemma {:induction false} FormatFields(word: nat, value: nat, levelBits: nat, mask: nat)
    requires mask < 8 && value == levelBits * 8 + mask && value * 1024 <= word < value * 1024 + 1024
    ensures word / 1024 == value && value / 8 == levelBits && value % 8 == mask
  {
  }

  lemma {:induction false} Pow2Values()
    ensures Pow2(10) == 1024 && Pow2(15) == 32768
  {
    assert Pow2(5) == 32;
    assert Pow2(10) == 1024;
  }

  /** The eighteen version bits, carried by versions seven and up. */
  method VersionBits(version: nat) returns (bits: nat)
    requires version < 64
    ensures IsBchWord(bits, version, 0x1f25, 12)
  {
    FormatGenerator();
    bits := Encode(version, 0x1f25, 6, 18);
  }
}
