/** One-time passwords (RFC 4226 and RFC 6238) over any keyed hash of twenty bytes. */
module Totp {
  import opened Arith
  import opened Base32
  import opened Bits
  import opened Bitwise
  import opened Decimal
  import opened JsText
  import opened Wrappers

  datatype TotpError = CounterOutOfRange | BadSecret(error: DecodeError)

  /** HMAC-SHA1, of which only the length of the digest matters here. */
  type Mac = (seq<byte>, seq<byte>) -> seq<byte>

  ghost predicate IsMac(mac: Mac) {
    forall secret, message :: |mac(secret, message)| == 20
  }

  // ---- the counter as a message ----

  /** Big-endian bytes. */
  function BigEndian(v: nat, n: nat): (b: seq<byte>)
    ensures |b| == n
  {
    if n == 0 then [] else BigEndian(v / 256, n - 1) + [v % 256]
  }

  function Pow256(n: nat): (p: nat)
    ensures p > 0
  {
    if n == 0 then 1 else 256 * Pow256(n - 1)
  }

  /** Two words of four bytes are one of eight. */
  lemma {:induction false} HighAndLow(v: nat, m: nat, n: nat)
    ensures BigEndian(FloorDiv(v, Pow256(n)), m) + BigEndian(v % Pow256(n), n) == BigEndian(v, m + n)
    decreases n
  {
    if n == 0 {
      assert BigEndian(v, m) + [] == BigEndian(v, m);
    } else {
      HighAndLow(v / 256, m, n - 1);
      Split(v, Pow256(n - 1));
    }
  }

  lemma {:induction false} Split(v: nat, p: nat)
    requires p > 0
    ensures v / (256 * p) == v / 256 / p && v % (256 * p) / 256 == v / 256 % p && v % (256 * p) % 256 == v % 256
  {
    var q, r := v / 256 / p, v / 256 % p;
    DivBounds(v / 256, p);
    Times(q, p);
    DivUnique(v, 256 * p, q);
  }

  lemma {:induction false} Times(q: nat, p: nat)
    ensures q * (256 * p) == 256 * (q * p) && (q + 1) * (256 * p) == 256 * ((q + 1) * p)
    ensures 256 * ((q + 1) * p) == 256 * (q * p) + 256 * p
  {
    assert (q + 1) * p == q * p + p;
  }

  lemma {:induction false} Word()
    ensures Pow256(4) == WORD
  {
    assert Pow256(2) == 65536;
    assert Pow256(3) == 16777216;
  }

  // ---- the code ----

  /** RFC 4226, section 5.3: 31 bits from where the low four bits of the digest point. */
  function Truncated(digest: seq<byte>): (v: nat)
    requires |digest| == 20
    ensures v < 0x8000_0000
  {
    var offset := digest[19] % 16;
    Number(digest[offset], digest[offset + 1], digest[offset + 2], digest[offset + 3])
  }

  function Number(a: nat, b: nat, c: nat, d: nat): (v: nat)
    requires a < 256 && b < 256 && c < 256 && d < 256
    ensures v < 0x8000_0000
  {
    a % 128 * 16777216 + b * 65536 + c * 256 + d
  }

  function CodeOf(mac: Mac, secret: seq<byte>, counter: nat, digits: nat): Text
    requires |mac(secret, BigEndian(counter, 8))| == 20
  {
    PadStart(DecimalText(Truncated(mac(secret, BigEndian(counter, 8))) % Pow10(digits)), digits)
  }

  predicate InRange(counter: int) {
    0 <= counter < WORD * WORD
  }

  method Hotp(mac: Mac, secret: seq<byte>, counter: int, digits: nat) returns (r: Result<Text, TotpError>)
    requires IsMac(mac)
    ensures r == if 0 <= counter < 0x1_0000_0000_0000_0000 then Success(CodeOf(mac, secret, counter, digits)) else Failure(CounterOutOfRange)
  {
    var high, low := counter / WORD, counter % WORD;
    if !(0 <= high < WORD) {
      return Failure(CounterOutOfRange);
    }
    var buf := BigEndian(high, 4) + BigEndian(low, 4);
    Word();
    HighAndLow(counter, 4, 4);
    var digest := mac(secret, buf);
    r := Success(PadStart(DecimalText(Truncated(digest) % Pow10(digits)), digits));
  }

  /** A code is that many decimal digits, and two codes are equal exactly when the numbers are, to that many digits. */
  lemma {:induction false} CodesTell(mac: Mac, secret: seq<byte>, c: nat, other: seq<byte>, d: nat, digits: nat)
    requires IsMac(mac) && digits > 0
    ensures |CodeOf(mac, secret, c, digits)| == digits && forall u :: u in CodeOf(mac, secret, c, digits) ==> IsDigit(u)
    ensures CodeOf(mac, secret, c, digits) == CodeOf(mac, other, d, digits) <==>
      Truncated(mac(secret, BigEndian(c, 8))) % Pow10(digits) == Truncated(mac(other, BigEndian(d, 8))) % Pow10(digits)
  {
    var x := Truncated(mac(secret, BigEndian(c, 8))) % Pow10(digits);
    var y := Truncated(mac(other, BigEndian(d, 8))) % Pow10(digits);
    PaddedDigits(x, digits);
    PaddedDigits(y, digits);
    DigitsTell(x, y, digits);
  }

  // ---- in time ----

  /** Steps since the epoch; a time before it gives a negative counter. */
  function CounterAt(atMs: int, step: nat): int
    requires step > 0
  {
    atMs / (1000 * step)
  }

  function OnlyDigits(s: Text): Text {
    if s == [] then [] else (if IsDigit(s[0]) then [s[0]] else []) + OnlyDigits(s[1..])
  }

  ghost predicate Matches(mac: Mac, secret: seq<byte>, supplied: Text, counter: int, digits: nat)
    requires IsMac(mac)
  {
    InRange(counter) && CodeOf(mac, secret, counter, digits) == supplied
  }

  ghost predicate MatchesNear(mac: Mac, secret: seq<byte>, supplied: Text, centre: int, low: int, high: int, digits: nat)
    requires IsMac(mac)
  {
    exists c :: centre + low <= c < centre + high && Matches(mac, secret, supplied, c, digits)
  }

  predicate AllInRange(centre: int, low: int, high: int) {
    low < high ==> InRange(centre + low) && InRange(centre + high - 1)
  }

  /** Every counter of the window fits into eight bytes. */
  lemma {:induction false} WindowFits(centre: int, window: int)
    ensures AllInRange(centre, -window, window + 1) <==>
      window < 0 || (0 <= centre - window && centre + window < 0x1_0000_0000_0000_0000)
  {
  }

  /** Every candidate of the window is computed and compared, also behind a match. */
  method AnyMatch(mac: Mac, secret: seq<byte>, supplied: Text, centre: int, window: int, digits: nat) returns (r: Result<bool, TotpError>)
    requires IsMac(mac)
    ensures r.Success? <==> AllInRange(centre, -window, window + 1)
    ensures r.Success? ==> (r.value <==> MatchesNear(mac, secret, supplied, centre, -window, window + 1, digits))
    ensures r.Failure? ==> r.error == CounterOutOfRange
  {
    var ok, drift := false, -window;
    while drift <= window
      invariant drift <= window + 1 || drift == -window
      invariant AllInRange(centre, -window, drift)
      invariant ok <==> MatchesNear(mac, secret, supplied, centre, -window, drift, digits)
      decreases window - drift
    {
      var candidate := Hotp(mac, secret, centre + drift, digits);
      if candidate.Failure? {
        RangeEnds(centre, -window, drift, window + 1);
        return Failure(candidate.error);
      }
      RangeNext(centre, -window, drift);
      OneMore(mac, secret, supplied, centre, -window, drift, digits);
      if |candidate.value| == |supplied| && candidate.value == supplied {
        ok := true;
      }
      drift := drift + 1;
    }
    r := Success(ok);
  }

  lemma {:induction false} RangeNext(centre: int, low: int, high: int)
    requires low <= high && AllInRange(centre, low, high) && InRange(centre + high)
    ensures AllInRange(centre, low, high + 1)
  {
  }

  lemma {:induction false} RangeEnds(centre: int, low: int, at: int, high: int)
    requires low <= at < high && !InRange(centre + at)
    ensures !AllInRange(centre, low, high)
  {
  }

  lemma {:induction false} OneMore(mac: Mac, secret: seq<byte>, supplied: Text, centre: int, low: int, high: int, digits: nat)
    requires IsMac(mac) && low <= high
    ensures MatchesNear(mac, secret, supplied, centre, low, high + 1, digits) <==>
      MatchesNear(mac, secret, supplied, centre, low, high, digits) || Matches(mac, secret, supplied, centre + high, digits)
  {
  }

  method VerifyTotp(mac: Mac, secret32: Text, code: Text, atMs: int, window: int, step: nat, digits: nat) returns (r: Result<bool, TotpError>)
    requires IsMac(mac) && step > 0
    ensures |OnlyDigits(code)| != digits ==> r == Success(false)
    ensures |OnlyDigits(code)| == digits && !InAlphabet(Clean(secret32)) ==> r.Failure? && r.error.BadSecret?
    ensures |OnlyDigits(code)| == digits && InAlphabet(Clean(secret32)) ==>
      (r.Success? <==> AllInRange(CounterAt(atMs, step), -window, window + 1))
    ensures |OnlyDigits(code)| == digits && InAlphabet(Clean(secret32)) && r.Success? ==>
      (r.value <==> MatchesNear(mac, Bytes(DigitBits(Clean(secret32))), OnlyDigits(code), CounterAt(atMs, step), -window, window + 1, digits))
  {
    var supplied := OnlyDigits(code);
    if |supplied| != digits {
      return Success(false);
    }
    var secret := Decode(secret32);
    if secret.Failure? {
      return Failure(BadSecret(secret.error));
    }
    r := AnyMatch(mac, secret.value, supplied, CounterAt(atMs, step), window, digits);
  }

  lemma {:induction false} DigitsOnly(s: Text)
    requires forall u :: u in s ==> IsDigit(u)
    ensures OnlyDigits(s) == s
    decreases |s|
  {
    if s == [] {
    } else {
      assert s[0] in s;
      DigitsOnly(s[1..]);
    }
  }

  lemma {:induction false} FloorGrows(x: int, y: int, p: int)
    requires p > 0 && x <= y
    ensures x / p <= y / p
  {
    DivBounds(x, p);
    DivBounds(y, p);
    if y / p < x / p {
      MulLessEqual(y / p + 1, x / p, p);
    }
  }

  lemma {:induction false} FloorPlus(x: int, n: int, p: int)
    requires p > 0
    ensures (x + n * p) / p == x / p + n
  {
    DivBounds(x, p);
    assert (x / p + n) * p == x / p * p + n * p && (x / p + n + 1) * p == (x / p + 1) * p + n * p;
    DivUnique(x + n * p, p, x / p + n);
  }

  lemma {:induction false} CountersNear(madeMs: int, atMs: int, window: int, step: nat)
    requires step > 0 && window >= 0 && madeMs <= atMs <= madeMs + window * (1000 * step)
    ensures CounterAt(madeMs, step) <= CounterAt(atMs, step) <= CounterAt(madeMs, step) + window
  {
    FloorGrows(madeMs, atMs, 1000 * step);
    FloorGrows(atMs, madeMs + window * (1000 * step), 1000 * step);
    FloorPlus(madeMs, window, 1000 * step);
  }

  lemma {:induction false} MatchesAt(mac: Mac, secret: seq<byte>, made: nat, at: int, window: int, digits: nat)
    requires IsMac(mac) && digits > 0 && window >= 0 && InRange(made) && at - window <= made <= at + window
    ensures var code := CodeOf(mac, secret, made, digits);
      OnlyDigits(code) == code && |code| == digits && MatchesNear(mac, secret, code, at, -window, window + 1, digits)
  {
    CodesTell(mac, secret, made, secret, made, digits);
    DigitsOnly(CodeOf(mac, secret, made, digits));
    assert Matches(mac, secret, CodeOf(mac, secret, made, digits), made, digits);
  }

  /** A code is accepted at any time within the window around its making, whichever of the two clocks is ahead. */
  lemma {:induction false} AcceptedNearby(mac: Mac, secret: seq<byte>, made: nat, madeMs: int, atMs: int, window: int, step: nat, digits: nat)
    requires IsMac(mac) && step > 0 && digits > 0 && window >= 0 && made == CounterAt(madeMs, step) && InRange(made)
    requires madeMs - window * (1000 * step) <= atMs <= madeMs + window * (1000 * step)
    ensures var code := CodeOf(mac, secret, made, digits);
      OnlyDigits(code) == code && |code| == digits
      && MatchesNear(mac, secret, code, CounterAt(atMs, step), -window, window + 1, digits)
  {
    if madeMs <= atMs {
      CountersNear(madeMs, atMs, window, step);
    } else {
      CountersNear(atMs, madeMs, window, step);
    }
    MatchesAt(mac, secret, made, CounterAt(atMs, step), window, digits);
  }

  // ---- bit by bit ----

  lemma {:induction false} SevenBits(a: byte)
    ensures BitsOf(a, 8)[1..] == BitsOf(a % 128, 7)
  {
    assert Pow2(7) == 128;
    HighBits(a, 1, 7);
    LowBits(a, 7, 7);
  }

  lemma {:induction false} FourBits(a: byte)
    ensures ValueOf(BitsOf(a, 8)[4..]) == a % 16
  {
    assert Pow2(4) == 16;
    HighBits(a, 4, 4);
    MaskedValue(a, 4);
  }

  lemma {:induction false} NextEight(v: nat, n: nat, b: byte)
    ensures BitsOf(256 * v + b, n + 8) == BitsOf(v, n) + BitsOf(b, 8)
  {
    assert Pow2(8) == 256;
    JoinBits(v, n, b, 8);
  }

  lemma {:induction false} TwoMore(v: nat, v1: nat, v2: nat, n: nat, b: byte, c: byte)
    requires v1 == 256 * v + b && v2 == 256 * v1 + c
    ensures BitsOf(v2, n + 16) == BitsOf(v, n) + BitsOf(b, 8) + BitsOf(c, 8)
  {
    NextEight(v, n, b);
    NextEight(v1, n + 8, c);
  }

  lemma {:induction false} ThreeMore(v: nat, v1: nat, v2: nat, v3: nat, n: nat, b: byte, c: byte, d: byte)
    requires v1 == 256 * v + b && v2 == 256 * v1 + c && v3 == 256 * v2 + d
    ensures BitsOf(v3, n + 24) == BitsOf(v, n) + BitsOf(b, 8) + BitsOf(c, 8) + BitsOf(d, 8)
  {
    TwoMore(v, v1, v2, n, b, c);
    NextEight(v2, n + 16, d);
  }

  lemma {:induction false} NumberBits(a: byte, b: byte, c: byte, d: byte)
    ensures BitsOf(Number(a, b, c, d), 31) == BitsOf(a, 8)[1..] + BitsOf(b, 8) + BitsOf(c, 8) + BitsOf(d, 8)
  {
    var v: nat := a % 128;
    var v1: nat := 256 * v + b;
    var v2: nat := 256 * v1 + c;
    SevenBits(a);
    ThreeMore(v, v1, v2, Number(a, b, c, d), 7, b, c, d);
  }

  lemma {:induction false} FourBytes(digest: seq<byte>, at: nat)
    requires at + 4 <= |digest|
    ensures AllBits(digest[at..at + 4]) ==
      BitsOf(digest[at], 8) + BitsOf(digest[at + 1], 8) + BitsOf(digest[at + 2], 8) + BitsOf(digest[at + 3], 8)
  {
    var four := digest[at..at + 4];
    assert four == [digest[at], digest[at + 1], digest[at + 2], digest[at + 3]];
    assert four[..3][..2] == four[..2] && four[..2][..1] == four[..1] && four[..1][..0] == [];
    assert AllBits(four[..1]) == BitsOf(four[0], 8);
    assert AllBits(four[..2]) == AllBits(four[..1]) + BitsOf(four[1], 8);
    assert AllBits(four[..3]) == AllBits(four[..2]) + BitsOf(four[2], 8);
  }

  lemma {:induction false} NumberValue(a: byte, b: byte, c: byte, d: byte)
    ensures ValueOf(BitsOf(a, 8)[1..] + BitsOf(b, 8) + BitsOf(c, 8) + BitsOf(d, 8)) == Number(a, b, c, d)
  {
    assert Pow2(7) == 128;
    assert Pow2(15) == 32768;
    assert Pow2(23) == 8388608;
    assert Pow2(31) == 0x8000_0000;
    NumberBits(a, b, c, d);
    BitsRoundTrip(Number(a, b, c, d), 31);
  }

  lemma {:induction false} LastFour(digest: seq<byte>)
    requires |digest| == 20
    ensures ValueOf(AllBits(digest)[156..160]) == digest[19] % 16
  {
    AllBitsIndex(digest, 19);
    assert AllBits(digest)[156..160] == AllBits(digest)[152..160][4..];
    FourBits(digest[19]);
  }

  lemma {:induction false} Without(bits: seq<bool>, from: nat)
    requires from + 32 <= |bits|
    ensures bits[from + 1..from + 32] == bits[from..from + 32][1..]
  {
  }

  lemma {:induction false} DropFirst(a: seq<bool>, b: seq<bool>, c: seq<bool>, d: seq<bool>)
    requires a != []
    ensures (a + b + c + d)[1..] == a[1..] + b + c + d
  {
  }

  /**
   * Section 5.3: the last four bits of the digest say where to begin, and the number is the 32 bits from there without the
   * first of them.
   */
  lemma {:induction false} TruncatedIs(digest: seq<byte>)
    requires |digest| == 20
    ensures var from := ValueOf(AllBits(digest)[156..160]);
      from < 16 && Truncated(digest) == ValueOf(AllBits(digest)[8 * from + 1..8 * from + 32])
  {
    LastFour(digest);
    var from: nat := digest[19] % 16;
    var a, b, c, d := digest[from], digest[from + 1], digest[from + 2], digest[from + 3];
    FourBytes(digest, from);
    SliceBits(digest, from, 4);
    Without(AllBits(digest), 8 * from);
    DropFirst(BitsOf(a, 8), BitsOf(b, 8), BitsOf(c, 8), BitsOf(d, 8));
    NumberValue(a, b, c, d);
  }

  lemma {:induction false} SliceBits(bytes: seq<byte>, at: nat, n: nat)
    requires at + n <= |bytes|
    ensures AllBits(bytes)[8 * at..8 * (at + n)] == AllBits(bytes[at..at + n])
  {
    AllBitsConcat(bytes[..at], bytes[at..at + n]);
    assert bytes[..at] + bytes[at..at + n] == bytes[..at + n];
    AllBitsConcat(bytes[..at + n], bytes[at + n..]);
    assert bytes[..at + n] + bytes[at + n..] == bytes;
  }

  lemma {:induction false} LastByte(front: seq<byte>, last: byte)
    ensures AllBits(front + [last]) == AllBits(front) + BitsOf(last, 8)
  {
    assert (front + [last])[..|front|] == front;
  }

  lemma {:induction false} ByteBehind(front: seq<byte>, q: nat, n: nat, r: byte)
    requires AllBits(front) == BitsOf(q, n)
    ensures AllBits(front + [r]) == BitsOf(256 * q + r, n + 8)
  {
    LastByte(front, r);
    NextEight(q, n, r);
  }

  /** The moving factor goes in with its highest bit first. */
  lemma {:induction false} CounterBits(v: nat, n: nat)
    ensures AllBits(BigEndian(v, n)) == BitsOf(v, 8 * n)
    decreases n
  {
    if n == 0 {
    } else {
      CounterBits(v / 256, n - 1);
      ByteBehind(BigEndian(v / 256, n - 1), v / 256, 8 * (n - 1), v % 256);
    }
  }

  /** The code, read as a decimal number, is the truncated value to so many digits. */
  lemma {:induction false} CodeReads(mac: Mac, secret: seq<byte>, counter: nat, digits: nat)
    requires IsMac(mac) && digits > 0
    ensures NumberOf(CodeOf(mac, secret, counter, digits)) == Truncated(mac(secret, BigEndian(counter, 8))) % Pow10(digits)
  {
    var x := Truncated(mac(secret, BigEndian(counter, 8))) % Pow10(digits);
    PaddedDigits(x, digits);
    DigitsRead(x, digits);
  }

  /** The counter of a moment is the number of whole steps before it. */
  lemma {:induction false} CounterIs(atMs: int, step: nat)
    requires step > 0
    ensures CounterAt(atMs, step) * (step * 1000) <= atMs < (CounterAt(atMs, step) + 1) * (step * 1000)
  {
    DivBounds(atMs, 1000 * step);
  }

  lemma {:induction false} SkipsOther(u: Unit, s: Text)
    ensures OnlyDigits([u] + s) == (if 48 <= u <= 57 then [u] else []) + OnlyDigits(s)
  {
    assert ([u] + s)[1..] == s;
  }

  /** What is not a digit is left out of a supplied code, and the digits stay in order. */
  lemma {:induction false} OnlyDigitsAppend(s: Text, t: Text)
    ensures OnlyDigits(s + t) == OnlyDigits(s) + OnlyDigits(t)
    decreases |s|
  {
    if s == [] {
      assert s + t == t;
    } else {
      var first := if 48 <= s[0] <= 57 then [s[0]] else [];
      OnlyDigitsAppend(s[1..], t);
      SkipsOther(s[0], s[1..]);
      SkipsOther(s[0], s[1..] + t);
      assert s + t == [s[0]] + (s[1..] + t) && s == [s[0]] + s[1..];
      assert first + (OnlyDigits(s[1..]) + OnlyDigits(t)) == first + OnlyDigits(s[1..]) + OnlyDigits(t);
    }
  }

  /** The digest of the example in RFC 4226, section 5.4, and its code. */
  lemma {:induction false} Example()
    ensures var digest: seq<byte> := [0x1f, 0x86, 0x98, 0x69, 0x0e, 0x02, 0xca, 0x16, 0x61, 0x85, 0x50, 0xef, 0x7f, 0x19, 0xda, 0x8e,
                                      0x94, 0x5b, 0x55, 0x5a];
      Truncated(digest) == 0x50ef7f19 && Truncated(digest) % Pow10(6) == 872921
  {
    assert Pow10(6) == 1000000;
  }
}
