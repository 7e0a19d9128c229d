/** Numbers as decimal digits. */
module Decimal {
  import opened JsText

  const ZERO: Unit := 48

  predicate IsDigit(u: Unit) {
    48 <= u <= 57
  }

  /** `String(n)` */
  function DecimalText(n: nat): (s: Text)
    ensures s != [] && forall u :: u in s ==> IsDigit(u)
  {
    if n < 10 then [ZERO + n] else DecimalText(n / 10) + [ZERO + n % 10]
  }

  /** What the digits say; any other unit counts as its distance from the zero. */
  function NumberOf(s: Text): int {
    if s == [] then 0 else 10 * NumberOf(s[..|s| - 1]) + (s[|s| - 1] - ZERO)
  }

  lemma {:induction false} NumberBack(n: nat)
    ensures NumberOf(DecimalText(n)) == n
    decreases n
  {
    if n >= 10 {
      NumberBack(n / 10);
      assert DecimalText(n)[..|DecimalText(n)| - 1] == DecimalText(n / 10);
    } else {
      assert [ZERO + n][..0] == [];
    }
  }

  function Pow10(n: nat): (p: nat)
    ensures p > 0
  {
    if n == 0 then 1 else 10 * Pow10(n - 1)
  }

  function Repeat(u: Unit, n: nat): (s: Text)
    ensures |s| == n
  {
    if n == 0 then [] else [u] + Repeat(u, n - 1)
  }

  /** `padStart(width, "0")` */
  function PadStart(s: Text, width: nat): Text {
    if |s| >= width then s else Repeat(ZERO, width - |s|) + s
  }

  /** Exactly `width` digits, the low ones of `n`. */
  function Digits(n: nat, width: nat): (s: Text)
    ensures |s| == width && forall u :: u in s ==> IsDigit(u)
  {
    if width == 0 then [] else Digits(n / 10, width - 1) + [ZERO + n % 10]
  }

  lemma {:induction false} DigitsOfZero(width: nat)
    ensures Digits(0, width) == Repeat(ZERO, width)
    decreases width
  {
    if width == 0 {
    } else {
      DigitsOfZero(width - 1);
      RepeatEnd(ZERO, width);
    }
  }

  lemma {:induction false} RepeatEnd(u: Unit, n: nat)
    requires n > 0
    ensures Repeat(u, n) == Repeat(u, n - 1) + [u]
    decreases n
  {
    if n <= 1 {
    } else {
      RepeatEnd(u, n - 1);
    }
  }

  /** A number that has no more digits than that, padded. */
  lemma {:induction false} PaddedDigits(n: nat, width: nat)
    requires width > 0 && n < Pow10(width)
    ensures PadStart(DecimalText(n), width) == Digits(n, width)
    decreases width
  {
    if n < 10 {
      DigitsOfZero(width - 1);
      assert Repeat(ZERO, 0) + [ZERO + n] == [ZERO + n];
    } else {
      assert Pow10(1) == 10;
      PaddedDigits(n / 10, width - 1);
      var front, last := DecimalText(n / 10), [ZERO + n % 10];
      if |front| < width - 1 {
        assert Repeat(ZERO, width - 1 - |front|) + front + last == Repeat(ZERO, width - 1 - |front|) + (front + last);
      }
    }
  }

  lemma {:induction false} DigitsRead(n: nat, width: nat)
    requires n < Pow10(width)
    ensures NumberOf(Digits(n, width)) == n
    decreases width
  {
    if width == 0 {
    } else {
      DigitsRead(n / 10, width - 1);
      assert Digits(n, width)[..width - 1] == Digits(n / 10, width - 1);
    }
  }

  /** As many digits as there are tell the number. */
  lemma {:induction false} DigitsTell(a: nat, b: nat, width: nat)
    requires a < Pow10(width) && b < Pow10(width)
    ensures Digits(a, width) == Digits(b, width) <==> a == b
    decreases width
  {
    if width == 0 {
    } else {
      DigitsTell(a / 10, b / 10, width - 1);
      SnocEqual(Digits(a / 10, width - 1), ZERO + a % 10, Digits(b / 10, width - 1), ZERO + b % 10);
    }
  }

  lemma {:induction false} SnocEqual(s: Text, u: Unit, t: Text, v: Unit)
    requires |s| == |t|
    ensures s + [u] == t + [v] <==> s == t && u == v
  {
    if s + [u] == t + [v] {
      assert s == (s + [u])[..|s|] && t == (t + [v])[..|t|];
      assert u == (s + [u])[|s|] && v == (t + [v])[|t|];
    }
  }
}
