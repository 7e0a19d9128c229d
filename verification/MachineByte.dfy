/** Numbers as eight-bit machine words: `Xor` on numbers is the machine's exclusive-or. */
module MachineByte {
  import opened Bitwise

  /** The low `n` bits of `a`, as a machine byte (for `n` above eight, the low eight). */
  function Bv(a: nat, n: nat): bv8
    decreases n
  {
    if n == 0 then 0 else (Bv(a / 2, n - 1) << 1) | (if a % 2 == 0 then 0 else 1)
  }

  lemma {:induction false} BvXor(a: nat, b: nat, n: nat)
    ensures Bv(Xor(a, b), n) == Bv(a, n) ^ Bv(b, n)
    decreases n
  {
    if n == 0 {
    } else {
      BvXor(a / 2, b / 2, n - 1);
      XorHalf(a, b);
      ParityAdd(a, b);
      ShiftIn(Bv(a / 2, n - 1), Bv(b / 2, n - 1), if a % 2 == 0 then 0 else 1, if b % 2 == 0 then 0 else 1);
    }
  }

  lemma {:induction false} ShiftIn(x: bv8, y: bv8, s: bv8, t: bv8)
    requires s <= 1 && t <= 1
    ensures ((x ^ y) << 1) | (s ^ t) == ((x << 1) | s) ^ ((y << 1) | t)
  {
  }

  lemma {:induction false} BvTop(a: nat, n: nat)
    requires a < Pow2(n)
    ensures Bv(a, n + 1) == Bv(a, n)
  {
    if n > 0 {
      BvTop(a / 2, n - 1);
    } else {
      assert Bv(0, 0) == 0 == Bv(0, 1);
    }
  }

  lemma {:induction false} BvDouble(a: nat, n: nat)
    ensures Bv(2 * a, n + 1) == Bv(a, n) << 1
  {
  }

  /** The machine byte whose only bit is bit `n`. */
  function Bit(n: nat): bv8 {
    if n == 0 then 1 else Bit(n - 1) << 1
  }

  lemma {:induction false} BitValues()
    ensures Bit(0) == 1 && Bit(1) == 2 && Bit(2) == 4 && Bit(3) == 8
    ensures Bit(4) == 16 && Bit(5) == 32 && Bit(6) == 64 && Bit(7) == 128
  {
    assert Bit(3) == 8;
    assert Bit(6) == 64;
  }

  lemma {:induction false} ShiftTest(x: bv8, s: bv8, p: bv8)
    requires s <= 1 && p & 0x80 == 0
    ensures ((x << 1) | s) & (p << 1) == 0 <==> x & p == 0
  {
    assert ((x << 1) | s) & (p << 1) == (x & p) << 1;
  }

  lemma {:induction false} BvTest(a: nat, n: nat)
    requires n < 8 && a < Pow2(n + 1)
    ensures Bv(a, n + 1) & Bit(n) == 0 <==> a < Pow2(n)
  {
    BitValues();
    if n == 0 {
      assert Bv(0, 1) == 0 && Bv(1, 1) == 1;
    } else {
      BvTest(a / 2, n - 1);
      ShiftTest(Bv(a / 2, n), if a % 2 == 0 then 0 else 1, Bit(n - 1));
    }
  }

  lemma {:induction false} BvHigh(a: nat, n: nat)
    requires n < 8 && a < Pow2(n)
    ensures Bv(a, n) & 0x80 == 0
    decreases 8 - n
  {
    BvTop(a, n);
    if n == 7 {
      BitValues();
      BvTest(a, 7);
    } else {
      BvHigh(a, n + 1);
    }
  }

  lemma {:induction false} ShiftOut(x: bv8, y: bv8, s: bv8, t: bv8)
    requires x & 0x80 == 0 && y & 0x80 == 0 && s <= 1 && t <= 1
    requires (x << 1) | s == (y << 1) | t
    ensures x == y && s == t
  {
    assert ((x << 1) | s) >> 1 == x;
    assert ((y << 1) | t) >> 1 == y;
    assert ((x << 1) | s) & 1 == s;
    assert ((y << 1) | t) & 1 == t;
  }

  lemma {:induction false} BvInjective(a: nat, b: nat, n: nat)
    requires n <= 8 && a < Pow2(n) && b < Pow2(n) && Bv(a, n) == Bv(b, n)
    ensures a == b
    decreases n
  {
    if n == 0 {
    } else {
      BvHigh(a / 2, n - 1);
      BvHigh(b / 2, n - 1);
      ShiftOut(Bv(a / 2, n - 1), Bv(b / 2, n - 1), if a % 2 == 0 then 0 else 1, if b % 2 == 0 then 0 else 1);
      BvInjective(a / 2, b / 2, n - 1);
    }
  }
}
