/** The cyclic redundancy check of the archive writer, on 32-bit words seen as bit patterns. */
module Crc32 {
  import opened Bitwise

  /** The reflected polynomial of ZIP APPNOTE section 4.4.7. */
  const POLY: nat := 0xEDB88320

  const WORD: nat := 0x1_0000_0000

  const BITS: nat := 8

  // ---- one bit ----

  /** Shift right by one and, if a one falls out, subtract the polynomial. */
  function Shift(poly: nat, c: nat): nat {
    if c % 2 == 1 then Xor(poly, c / 2) else c / 2
  }

  function Shifts(poly: nat, c: nat, n: nat): nat
    decreases n
  {
    if n == 0 then c else Shifts(poly, Shift(poly, c), n - 1)
  }

  /** The register after one message bit, which enters at the low end. */
  function FeedBit(poly: nat, c: nat, bit: nat): nat {
    Shift(poly, Xor(c, bit % 2))
  }

  /** The `n` low bits of `b`, least significant first. */
  function FeedBits(poly: nat, c: nat, b: nat, n: nat): nat
    decreases n
  {
    if n == 0 then c else FeedBits(poly, FeedBit(poly, c, b), b / 2, n - 1)
  }

  function FeedByte(poly: nat, c: nat, b: byte): nat {
    FeedBits(poly, c, b, BITS)
  }

  /** The register after a buffer, a bit at a time: division by the polynomial as the standard defines it. */
  function Register(poly: nat, c: nat, buf: seq<byte>): nat {
    if buf == [] then c else FeedByte(poly, Register(poly, c, buf[..|buf| - 1]), buf[|buf| - 1])
  }

  lemma {:induction false} ShiftXor(poly: nat, a: nat, b: nat)
    ensures Shift(poly, Xor(a, b)) == Xor(Shift(poly, a), Shift(poly, b))
  {
    XorHalf(a, b);
    ParityAdd(a, b);
    ShiftCases(poly, a % 2, b % 2, a / 2, b / 2);
  }

  lemma {:induction false} ShiftCases(poly: nat, p: nat, q: nat, x: nat, y: nat)
    requires p < 2 && q < 2
    ensures (if p == q then Xor(x, y) else Xor(poly, Xor(x, y))) ==
      Xor(if p == 1 then Xor(poly, x) else x, if q == 1 then Xor(poly, y) else y)
  {
    if p == 1 && q == 1 {
      XorSwap(poly, x, poly, y);
      XorSelf(poly);
      XorZero(Xor(x, y));
    } else if p == 1 {
      XorAssoc(poly, x, y);
    } else if q == 1 {
      XorAssoc(x, poly, y);
      XorComm(x, poly);
      XorAssoc(poly, x, y);
    }
  }

  lemma {:induction false} ShiftsXor(poly: nat, a: nat, b: nat, n: nat)
    ensures Shifts(poly, Xor(a, b), n) == Xor(Shifts(poly, a, n), Shifts(poly, b, n))
    decreases n
  {
    if n == 0 {
    } else {
      ShiftXor(poly, a, b);
      ShiftsXor(poly, Shift(poly, a), Shift(poly, b), n - 1);
    }
  }

  /** Zeros shifted out subtract nothing. */
  lemma {:induction false} ShiftsBack(poly: nat, v: nat, n: nat)
    ensures Shifts(poly, Shl(v, n), n) == v
    decreases n
  {
    if n == 0 {
    } else {
      DoubleShift(poly, Shl(v, n - 1));
      ShiftsBack(poly, v, n - 1);
    }
  }

  lemma {:induction false} DoubleShift(poly: nat, v: nat)
    ensures Shift(poly, 2 * v) == v
  {
  }

  lemma {:induction false} ShiftsAdd(poly: nat, c: nat, m: nat, n: nat)
    ensures Shifts(poly, c, m + n) == Shifts(poly, Shifts(poly, c, m), n)
    decreases m
  {
    if m == 0 {
    } else {
      ShiftsAdd(poly, Shift(poly, c), m - 1, n);
    }
  }

  /** Feeding bits one by one is the same as mixing them all in first and then shifting. */
  lemma {:induction false} FeedBitsIs(poly: nat, c: nat, b: nat, n: nat)
    requires b < Pow2(n)
    ensures FeedBits(poly, c, b, n) == Shifts(poly, Xor(c, b), n)
    decreases n
  {
    if n == 0 {
      XorZero(c);
    } else {
      FeedBitsIs(poly, FeedBit(poly, c, b), b / 2, n - 1);
      MixLater(poly, c, b);
    }
  }

  lemma {:induction false} MixLater(poly: nat, c: nat, b: nat)
    ensures Shift(poly, Xor(c, b)) == Xor(FeedBit(poly, c, b), b / 2)
  {
    var low, high := b % 2, 2 * (b / 2);
    LowAndHigh(b);
    XorAssoc(c, low, high);
    ShiftXor(poly, Xor(c, low), high);
    DoubleShift(poly, b / 2);
  }

  lemma {:induction false} LowAndHigh(b: nat)
    ensures Xor(b % 2, 2 * (b / 2)) == b
  {
    XorUnfold(b % 2, 2 * (b / 2));
    XorZero(b / 2);
    Parts(b % 2, b / 2);
  }

  lemma {:induction false} Parts(r: nat, h: nat)
    requires r < 2
    ensures (r + 2 * h) % 2 == r && r / 2 == 0 && 2 * h / 2 == h
  {
  }

  // ---- one byte: the table ----

  /** What the table holds for `i`. */
  function TableEntry(poly: nat, i: nat): nat {
    Shifts(poly, i, 8)
  }

  lemma {:induction false} Shl8(v: nat)
    ensures Shl(v, 8) == 256 * v
  {
    assert Pow2(8) == 256;
    ShlIsProduct(v, 8);
  }

  lemma {:induction false} SplitByte(a: nat)
    ensures Xor(256 * (a / 256), a % 256) == a
  {
    JoinByte(a / 256, a % 256);
  }

  lemma {:induction false} JoinByte(high: nat, low: nat)
    requires low < 256
    ensures Xor(256 * high, low) == 256 * high + low
  {
    assert Pow2(8) == 256;
    Shl8(high);
    XorSplit(0, low, high, 0, 8);
    XorZero(low);
    XorZero(high);
    ShlConstants(8);
  }

  /** The top 24 bits pass through, the low eight go by the table. */
  lemma {:induction false} TableWorks(poly: nat, a: nat)
    ensures Shifts(poly, a, 8) == Xor(a / 256, TableEntry(poly, a % 256))
  {
    SplitByte(a);
    ShiftsXor(poly, 256 * (a / 256), a % 256, 8);
    Shl8(a / 256);
    ShiftsBack(poly, a / 256, 8);
  }

  lemma {:induction false} XorKeepsHigh(c: nat, b: byte)
    ensures Xor(c, b) / 256 == c / 256
  {
    assert Pow2(8) == 256;
    var low, high := c % 256, c / 256;
    Shl8(high);
    ShlConstants(8);
    XorSplit(low, b, high, 0, 8);
    XorZero(high);
    XorByte(low, b);
  }

  lemma {:induction false} ByteStep(poly: nat, c: nat, b: byte)
    ensures FeedByte(poly, c, b) == Xor(c / 256, TableEntry(poly, Xor(c, b) % 256))
  {
    assert Pow2(8) == 256;
    FeedBitsIs(poly, c, b, 8);
    TableWorks(poly, Xor(c, b));
    XorKeepsHigh(c, b);
  }

  // ---- the whole buffer as one number ----

  /** The buffer as a little-endian number. */
  function WordOf(buf: seq<byte>): nat {
    if buf == [] then 0 else WordOf(buf[..|buf| - 1]) + Shl(buf[|buf| - 1], 8 * (|buf| - 1))
  }

  lemma {:induction false} WordBound(buf: seq<byte>)
    ensures WordOf(buf) < Pow2(8 * |buf|)
  {
    if buf == [] {
    } else {
      var n := |buf| - 1;
      WordBound(buf[..n]);
      ShlBelow(buf[n], 8 * n, 8);
    }
  }

  lemma {:induction false} ShlBelow(v: nat, n: nat, k: nat)
    requires v < Pow2(k)
    ensures Shl(v, n) + Pow2(n) <= Pow2(n + k)
  {
    if n == 0 {
    } else {
      ShlBelow(v, n - 1, k);
    }
  }

  /** The register after a buffer is what division leaves of the start value mixed with the buffer as one number. */
  lemma {:induction false} RegisterIs(poly: nat, c: nat, buf: seq<byte>)
    ensures Register(poly, c, buf) == Shifts(poly, Xor(c, WordOf(buf)), 8 * |buf|)
  {
    if buf == [] {
      XorZero(c);
    } else {
      var n := |buf| - 1;
      RegisterIs(poly, c, buf[..n]);
      WordBound(buf[..n]);
      RegisterLast(poly, c, WordOf(buf[..n]), WordOf(buf), buf[n], 8 * n, Register(poly, c, buf[..n]));
      SameCount(n);
    }
  }

  lemma {:induction false} SameCount(n: nat)
    ensures 8 * n + 8 == 8 * (n + 1)
  {
  }

  lemma {:induction false} RegisterLast(poly: nat, c: nat, w: nat, whole: nat, b: byte, n: nat, r: nat)
    requires w < Pow2(n) && whole == w + Shl(b, n) && r == Shifts(poly, Xor(c, w), n)
    ensures FeedByte(poly, r, b) == Shifts(poly, Xor(c, whole), n + 8)
  {
    AddIsXor(w, b, n);
    RegisterStep(poly, c, w, b, n);
  }

  lemma {:induction false} AddIsXor(low: nat, b: nat, n: nat)
    requires low < Pow2(n)
    ensures low + Shl(b, n) == Xor(low, Shl(b, n))
  {
    ShlConstants(n);
    XorSplit(low, 0, 0, b, n);
    XorZero(low);
    XorZero(b);
  }

  lemma {:induction false} RegisterStep(poly: nat, c: nat, w: nat, b: byte, n: nat)
    ensures FeedByte(poly, Shifts(poly, Xor(c, w), n), b) == Shifts(poly, Xor(c, Xor(w, Shl(b, n))), n + 8)
  {
    assert Pow2(8) == 256;
    FeedBitsIs(poly, Shifts(poly, Xor(c, w), n), b, 8);
    ShiftsBack(poly, b, n);
    ShiftsXor(poly, Xor(c, w), Shl(b, n), n);
    XorAssoc(c, w, Shl(b, n));
    ShiftsAdd(poly, Xor(c, Xor(w, Shl(b, n))), n, 8);
  }

  // ---- the program ----

  /** The check value of a buffer, by definition. */
  function Crc(buf: seq<byte>): nat {
    Xor(Register(POLY, WORD - 1, buf), WORD - 1)
  }

  /** A term of the polynomial: x^i is bit 31 - i of the reflected word. */
  function Term(i: nat): nat
    requires i < 32
  {
    Pow2(31 - i)
  }

  /** Below x^32 the polynomial has the terms of ISO 3309. */
  lemma {:induction false} PolyTerms()
    ensures POLY == Term(26) + Term(23) + Term(22) + Term(16) + Term(12) + Term(11) + Term(10) + Term(8) + Term(7)
      + Term(5) + Term(4) + Term(2) + Term(1) + Term(0)
  {
    assert Term(26) == 32;
    assert Term(23) == 256;
    assert Term(22) == 512;
    assert Term(16) == 0x8000;
    assert Term(12) == 0x80000;
    assert Term(8) == 0x800000;
    assert Term(5) == 0x4000000;
    assert Term(2) == 0x20000000;
  }

  lemma {:induction false} ZeroShifts(poly: nat, n: nat)
    ensures Shifts(poly, 0, n) == 0
  {
    if n == 0 {
    } else {
      ZeroShifts(poly, n - 1);
    }
  }

  lemma {:induction false} OnesWord(n: nat)
    ensures WordOf(seq(n, _ => 255)) + 1 == Pow2(8 * n)
  {
    var ones: seq<byte> := seq(n, _ => 255);
    if n == 0 {
    } else {
      OnesWord(n - 1);
      assert ones[..n - 1] == seq(n - 1, _ => 255);
      ShlIsProduct(255, 8 * (n - 1));
      Pow2Add(8 * (n - 1), 8);
      assert Pow2(8) == 256;
    }
  }

  /** The register starts with ones and its bits are flipped at the end: nothing has check value 0, and four bytes of ones have ones. */
  lemma {:induction false} OnesAndNothing()
    ensures Crc([]) == 0 && Crc([255, 255, 255, 255]) == 0xFFFF_FFFF
  {
    var ones: seq<byte> := seq(4, _ => 255);
    assert ones == [255, 255, 255, 255];
    OnesWord(4);
    PolyMonic();
    RegisterIs(POLY, WORD - 1, ones);
    XorSelf(WORD - 1);
    ZeroShifts(POLY, 32);
    XorZero(WORD - 1);
  }

  // ---- what the check tells apart ----

  lemma {:induction false} RegisterDiff(poly: nat, c: nat, d: nat, u: seq<byte>, v: seq<byte>)
    requires |u| == |v|
    ensures Xor(Register(poly, c, u), Register(poly, d, v)) == Shifts(poly, Xor(Xor(c, d), Xor(WordOf(u), WordOf(v))), 8 * |u|)
  {
    RegisterIs(poly, c, u);
    RegisterIs(poly, d, v);
    ShiftsXor(poly, Xor(c, WordOf(u)), Xor(d, WordOf(v)), 8 * |u|);
    XorSwap(c, WordOf(u), d, WordOf(v));
  }

  lemma {:induction false} SameMasked(a: nat, b: nat, m: nat)
    ensures Xor(a, m) == Xor(b, m) <==> Xor(a, b) == 0
  {
    XorCancel(a, m);
    XorCancel(b, m);
    XorEqualsZero(a, b);
  }

  /** Two buffers of one length share a check value exactly when their difference is divisible by the polynomial. */
  lemma {:induction false} SameCrc(a: seq<byte>, b: seq<byte>)
    requires |a| == |b|
    ensures Crc(a) == Crc(b) <==> Shifts(POLY, Xor(WordOf(a), WordOf(b)), 8 * |a|) == 0
  {
    SameMasked(Register(POLY, WORD - 1, a), Register(POLY, WORD - 1, b), WORD - 1);
    RegisterDiff(POLY, WORD - 1, WORD - 1, a, b);
    XorSelf(WORD - 1);
    XorZero(Xor(WordOf(a), WordOf(b)));
  }

  /** The polynomial has its top bit set. */
  predicate Monic(poly: nat, n: nat) {
    Pow2(n) <= poly < Pow2(n + 1)
  }

  lemma {:induction false} ShiftNonzero(poly: nat, n: nat, x: nat)
    requires Monic(poly, n) && 0 < x < Pow2(n + 1)
    ensures 0 < Shift(poly, x) < Pow2(n + 1)
  {
    if x % 2 == 1 {
      XorTop(poly - Pow2(n), x / 2, n);
      XorComm(poly, x / 2);
    }
  }

  lemma {:induction false} ShiftsNonzero(poly: nat, n: nat, x: nat, k: nat)
    requires Monic(poly, n) && 0 < x < Pow2(n + 1)
    ensures 0 < Shifts(poly, x, k) < Pow2(n + 1)
    decreases k
  {
    if k == 0 {
    } else {
      ShiftNonzero(poly, n, x);
      ShiftsNonzero(poly, n, Shift(poly, x), k - 1);
    }
  }

  lemma {:induction false} Pow2Add(a: nat, b: nat)
    ensures Pow2(a + b) == Pow2(a) * Pow2(b)
  {
    if b == 0 {
    } else {
      Pow2Add(a, b - 1);
      assert Pow2(a) * (2 * Pow2(b - 1)) == 2 * (Pow2(a) * Pow2(b - 1));
    }
  }

  lemma {:induction false} PolyMonic()
    ensures Monic(POLY, 31) && Pow2(32) == WORD
  {
    assert Pow2(8) == 256;
    Pow2Add(8, 8);
    Pow2Add(16, 8);
    assert Pow2(7) == 128;
    Pow2Add(24, 7);
  }

  lemma {:induction false} WordsDiffer(u: seq<byte>, v: seq<byte>)
    requires |u| == |v| && u != v
    ensures WordOf(u) != WordOf(v)
  {
    var n := |u| - 1;
    WordBound(u[..n]);
    WordBound(v[..n]);
    if u[n] != v[n] {
      TopDecides(u[n], v[n], 8 * n);
    } else {
      assert u == u[..n] + [u[n]] && v == v[..n] + [v[n]];
      WordsDiffer(u[..n], v[..n]);
    }
  }

  lemma {:induction false} TopDecides(a: nat, b: nat, n: nat)
    requires a != b
    ensures Shl(a, n) + Pow2(n) <= Shl(b, n) || Shl(b, n) + Pow2(n) <= Shl(a, n)
  {
    if a < b {
      ShlGap(a, b, n);
    } else {
      ShlGap(b, a, n);
    }
  }

  lemma {:induction false} ShlGap(a: nat, b: nat, n: nat)
    requires a < b
    ensures Shl(a, n) + Pow2(n) <= Shl(b, n)
  {
    if n == 0 {
    } else {
      ShlGap(a, b, n - 1);
    }
  }

  lemma {:induction false} RegisterConcat(poly: nat, c: nat, a: seq<byte>, b: seq<byte>)
    ensures Register(poly, c, a + b) == Register(poly, Register(poly, c, a), b)
    decreases |b|
  {
    if b == [] {
      assert a + b == a;
    } else {
      var front, last := b[..|b| - 1], b[|b| - 1];
      RegisterConcat(poly, c, a, front);
      RegisterSnoc(poly, c, a + front, last);
      RegisterSnoc(poly, Register(poly, c, a), front, last);
      Rejoin(a, b);
    }
  }

  lemma {:induction false} Rejoin(a: seq<byte>, b: seq<byte>)
    requires b != []
    ensures a + b[..|b| - 1] + [b[|b| - 1]] == a + b && b[..|b| - 1] + [b[|b| - 1]] == b
  {
  }

  lemma {:induction false} RegisterSnoc(poly: nat, c: nat, buf: seq<byte>, b: byte)
    ensures Register(poly, c, buf + [b]) == FeedByte(poly, Register(poly, c, buf), b)
  {
    assert (buf + [b])[..|buf|] == buf;
  }

  /** A burst of differences inside a window no longer than the register leaves a difference in it. */
  lemma {:induction false} BurstLeavesTrace(poly: nat, n: nat, r: nat, u: seq<byte>, v: seq<byte>)
    requires Monic(poly, n) && |u| == |v| && 8 * |u| <= n + 1 && u != v
    ensures 0 < Xor(Register(poly, r, u), Register(poly, r, v)) < Pow2(n + 1)
  {
    var x := Burst(poly, n, r, u, v);
    ShiftsNonzero(poly, n, x, 8 * |u|);
  }

  lemma {:induction false} Burst(poly: nat, n: nat, r: nat, u: seq<byte>, v: seq<byte>) returns (x: nat)
    requires |u| == |v| && 8 * |u| <= n + 1 && u != v
    ensures 0 < x < Pow2(n + 1)
    ensures Xor(Register(poly, r, u), Register(poly, r, v)) == Shifts(poly, x, 8 * |u|)
  {
    x := Xor(WordOf(u), WordOf(v));
    RegisterDiff(poly, r, r, u, v);
    XorSelf(r);
    XorZero(x);
    WordDifference(u, v, n + 1);
  }

  lemma {:induction false} WordDifference(u: seq<byte>, v: seq<byte>, n: nat)
    requires |u| == |v| && 8 * |u| <= n && u != v
    ensures 0 < Xor(WordOf(u), WordOf(v)) < Pow2(n)
  {
    WordsDiffer(u, v);
    WordBound(u);
    WordBound(v);
    DifferenceBound(WordOf(u), WordOf(v), 8 * |u|, n);
  }

  lemma {:induction false} DifferenceBound(a: nat, b: nat, m: nat, n: nat)
    requires a < Pow2(m) && b < Pow2(m) && m <= n && a != b
    ensures 0 < Xor(a, b) < Pow2(n)
  {
    XorEqualsZero(a, b);
    XorBound(a, b, m);
    Pow2Monotone(m, n);
  }

  lemma {:induction false} TraceStays(poly: nat, n: nat, c: nat, d: nat, post: seq<byte>)
    requires Monic(poly, n) && 0 < Xor(c, d) < Pow2(n + 1)
    ensures 0 < Xor(Register(poly, c, post), Register(poly, d, post))
  {
    RegisterDiff(poly, c, d, post, post);
    XorSelf(WordOf(post));
    XorZero(Xor(c, d));
    ShiftsNonzero(poly, n, Xor(c, d), 8 * |post|);
  }

  /** Buffers that differ only within four consecutive bytes never share a check value. */
  lemma {:induction false} BurstDetected(pre: seq<byte>, u: seq<byte>, v: seq<byte>, post: seq<byte>)
    requires |u| == |v| <= 4 && u != v
    ensures Crc(pre + u + post) != Crc(pre + v + post)
  {
    var start := WORD - 1;
    var r := Register(POLY, start, pre);
    PolyMonic();
    BurstLeavesTrace(POLY, 31, r, u, v);
    TraceStays(POLY, 31, Register(POLY, r, u), Register(POLY, r, v), post);
    RegisterThree(POLY, start, pre, u, post);
    RegisterThree(POLY, start, pre, v, post);
    SameMasked(Register(POLY, start, pre + u + post), Register(POLY, start, pre + v + post), WORD - 1);
  }

  lemma {:induction false} RegisterThree(poly: nat, c: nat, a: seq<byte>, b: seq<byte>, d: seq<byte>)
    ensures Register(poly, c, a + b + d) == Register(poly, Register(poly, Register(poly, c, a), b), d)
  {
    RegisterConcat(poly, c, a + b, d);
    RegisterConcat(poly, c, a, b);
  }

  lemma {:induction false} FeedBitsFits(poly: nat, n: nat, c: nat, b: nat, k: nat)
    requires Monic(poly, n) && c < Pow2(n + 1)
    ensures FeedBits(poly, c, b, k) < Pow2(n + 1)
    decreases k
  {
    if k == 0 {
    } else {
      FeedBitFits(poly, n, c, b);
      FeedBitsFits(poly, n, FeedBit(poly, c, b), b / 2, k - 1);
    }
  }

  lemma {:induction false} FeedBitFits(poly: nat, n: nat, c: nat, b: nat)
    requires Monic(poly, n) && c < Pow2(n + 1)
    ensures FeedBit(poly, c, b) < Pow2(n + 1)
  {
    Pow2Monotone(1, n + 1);
    assert Pow2(1) == 2;
    XorBound(c, b % 2, n + 1);
    if Xor(c, b % 2) > 0 {
      ShiftNonzero(poly, n, Xor(c, b % 2));
    }
  }

  lemma {:induction false} RegisterFits(poly: nat, n: nat, c: nat, buf: seq<byte>)
    requires Monic(poly, n) && c < Pow2(n + 1)
    ensures Register(poly, c, buf) < Pow2(n + 1)
  {
    if buf == [] {
    } else {
      RegisterFits(poly, n, c, buf[..|buf| - 1]);
      FeedBitsFits(poly, n, Register(poly, c, buf[..|buf| - 1]), buf[|buf| - 1], BITS);
    }
  }

  /** The register never outgrows a 32-bit word, so the machine's words compute exactly this. */
  lemma {:induction false} CrcFits(buf: seq<byte>)
    ensures Register(POLY, WORD - 1, buf) < WORD && Crc(buf) < WORD
  {
    PolyMonic();
    RegisterFits(POLY, 31, WORD - 1, buf);
    XorBound(Register(POLY, WORD - 1, buf), WORD - 1, 32);
  }

  // ---- the program's own loops ----

  class CrcTable {
    const poly: nat
    const table: array<nat>

    ghost predicate Valid()
      reads table
    {
      table.Length == 256 && forall i :: 0 <= i < 256 ==> table[i] == TableEntry(poly, i)
    }

    constructor (poly: nat)
      ensures Valid() && this.poly == poly
    {
      this.poly := poly;
      table := new nat[256];
      new;
      for i := 0 to 256
        invariant table.Length == 256 && forall j :: 0 <= j < i ==> table[j] == TableEntry(poly, j)
      {
        var c: nat := i;
        for k := 0 to 8
          invariant Shifts(poly, c, 8 - k) == TableEntry(poly, i)
        {
          c := if c % 2 == 1 then Xor(poly, c / 2) else c / 2;
        }
        table[i] := c;
      }
    }

    /** The table-driven loop computes the same register as the bit-at-a-time definition. */
    method Run(start: nat, buf: seq<byte>) returns (crc: nat)
      requires Valid()
      ensures crc == Register(poly, start, buf)
    {
      crc := start;
      for i := 0 to |buf|
        invariant crc == Register(poly, start, buf[..i])
      {
        ByteStep(poly, crc, buf[i]);
        assert buf[..i + 1][..i] == buf[..i];
        crc := Xor(crc / 256, table[Xor(crc, buf[i]) % 256]);
      }
      assert buf[..|buf|] == buf;
    }
  }

  method Crc32Of(buf: seq<byte>) returns (crc: nat)
    ensures crc == Crc(buf)
  {
    var table := new CrcTable(POLY);
    var register := table.Run(WORD - 1, buf);
    crc := Xor(register, WORD - 1);
  }
}
