/** Numbers and bytes as bits, most significant first. */
module Bits {
  import opened Arith
  import opened Bitwise

  /** The `length` low bits of `value`, most significant first. */
  function BitsOf(value: nat, length: nat): (bits: seq<bool>)
    ensures |bits| == length
  {
    if length == 0 then [] else BitsOf(value / 2, length - 1) + [value % 2 == 1]
  }

  function ValueOf(bits: seq<bool>): nat {
    if bits == [] then 0 else 2 * ValueOf(bits[..|bits| - 1]) + (if bits[|bits| - 1] then 1 else 0)
  }

  lemma {:induction false} BitsRoundTrip(value: nat, length: nat)
    requires value < Pow2(length)
    ensures ValueOf(BitsOf(value, length)) == value
  {
    if length == 0 {
    } else {
      BitsRoundTrip(value / 2, length - 1);
      assert BitsOf(value, length)[..length - 1] == BitsOf(value / 2, length - 1);
    }
  }

  /** Bit `i` of the expansion, counted from the left, is the machine's shift-and-mask. */
  lemma {:induction false} BitsOfIndex(value: nat, length: nat, i: nat)
    requires i < length
    ensures BitsOf(value, length)[i] == ((value / Pow2(length - 1 - i)) % 2 == 1)
  {
    if i >= length - 1 {
    } else {
      BitsOfIndex(value / 2, length - 1, i);
      HalvedDivision(value, Pow2(length - 2 - i));
    }
  }

  lemma {:induction false} HalvedDivision(value: nat, p: nat)
    requires p > 0
    ensures value / 2 / p == value / (2 * p)
  {
    var v := value / 2 / p;
    DivBounds(value / 2, p);
    assert v * (2 * p) == 2 * (v * p) && (v + 1) * (2 * p) == 2 * ((v + 1) * p);
    DivUnique(value, 2 * p, v);
  }

  lemma {:induction false} ValueRoundTrip(bits: seq<bool>)
    ensures ValueOf(bits) < Pow2(|bits|)
    ensures BitsOf(ValueOf(bits), |bits|) == bits
  {
    if bits == [] {
    } else {
      ValueRoundTrip(bits[..|bits| - 1]);
    }
  }

  /** The bits of a string of bytes. */
  function AllBits(bytes: seq<byte>): (bits: seq<bool>)
    ensures |bits| == 8 * |bytes|
  {
    if bytes == [] then [] else AllBits(bytes[..|bytes| - 1]) + BitsOf(bytes[|bytes| - 1], 8)
  }

  lemma {:induction false} AllBitsConcat(a: seq<byte>, b: seq<byte>)
    ensures AllBits(a + b) == AllBits(a) + AllBits(b)
  {
    if b == [] {
      assert a + b == a;
    } else {
      var n := |b| - 1;
      assert (a + b)[..|a| + n] == a + b[..n];
      AllBitsConcat(a, b[..n]);
    }
  }

  lemma {:induction false} AllBitsIndex(bytes: seq<byte>, i: nat)
    requires i < |bytes|
    ensures AllBits(bytes)[8 * i..8 * i + 8] == BitsOf(bytes[i], 8)
  {
    var n := |bytes| - 1;
    var p, q := AllBits(bytes[..n]), BitsOf(bytes[n], 8);
    assert AllBits(bytes) == p + q;
    if i < n {
      AllBitsIndex(bytes[..n], i);
      assert (p + q)[8 * i..8 * i + 8] == p[8 * i..8 * i + 8];
    } else {
      assert (p + q)[8 * n..8 * n + 8] == q;
    }
  }

  // ---- shifting and masking ----

  lemma {:induction false} HalfOfMod(x: nat, p: nat, m: nat)
    requires p > 0 && m == 2 * p
    ensures x % m / 2 == x / 2 % p && x % m % 2 == x % 2
  {
    var q: int := x / m;
    DivBounds(x, m);
    DivUnique(x, m, q);
    Twice(q, p);
    HalfOfSum(x, q * p, x % m);
    DivMulAdd(q, p, x % m / 2);
  }

  lemma {:induction false} HalfOfSum(x: int, m: int, r: int)
    requires x == 2 * m + r
    ensures x / 2 == m + r / 2 && x % 2 == r % 2
  {
  }

  lemma {:induction false} Twice(q: int, p: int)
    ensures q * (2 * p) == 2 * (q * p)
  {
  }

  /** What is above the low `m` bits does not show in them. */
  lemma {:induction false} LowBits(x: nat, w: nat, m: nat)
    requires m <= w
    ensures BitsOf(x % Pow2(w), m) == BitsOf(x, m)
    decreases m
  {
    if m == 0 {
    } else {
      HalfOfMod(x, Pow2(w - 1), Pow2(w));
      LowBits(x / 2, w - 1, m - 1);
    }
  }

  lemma {:induction false} MaskedValue(x: nat, n: nat)
    ensures ValueOf(BitsOf(x, n)) == x % Pow2(n)
  {
    LowBits(x, n, n);
    BitsRoundTrip(x % Pow2(n), n);
  }

  /** `(v << n) | low` */
  lemma {:induction false} JoinBits(v: nat, m: nat, low: nat, n: nat)
    requires low < Pow2(n)
    ensures BitsOf(v * Pow2(n) + low, m + n) == BitsOf(v, m) + BitsOf(low, n)
    decreases n
  {
    if n == 0 {
      assert v * Pow2(n) + low == v;
    } else {
      Twice(v, Pow2(n - 1));
      JoinBits(v, m, low / 2, n - 1);
    }
  }

  /** `v >>> k`, and what it leaves. */
  lemma {:induction false} HighBits(v: nat, n: nat, k: nat)
    ensures BitsOf(FloorDiv(v, Pow2(k)), n) == BitsOf(v, n + k)[..n] && BitsOf(v, k) == BitsOf(v, n + k)[n..]
    decreases k
  {
    if k == 0 {
    } else {
      HalvedDivision(v, Pow2(k - 1));
      HighBits(v / 2, n, k - 1);
    }
  }
}
