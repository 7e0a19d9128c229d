/** Base32 (RFC 4648, section 6, without padding) through a 32-bit accumulator that overflows. */
module Base32 {
  import opened Arith
  import opened Bits
  import opened Bitwise
  import opened JsText
  import opened Sequences
  import opened Wrappers

  const WORD: nat := 0x1_0000_0000
  const EQUALS: Unit := 61

  datatype DecodeError = NotBase32(unit: Unit)

  // ---- the alphabet ----

  /** A to Z, then 2 to 7. */
  function Letter(n: nat): Unit
    requires n < 32
  {
    if n < 26 then 65 + n else 24 + n
  }

  function IndexOf(u: Unit): Option<nat> {
    if 65 <= u <= 90 then Some(u - 65) else if 50 <= u <= 55 then Some(u - 24) else None
  }

  lemma {:induction false} LetterIndex(n: nat, u: Unit)
    requires n < 32
    ensures IndexOf(u) == Some(n) <==> u == Letter(n)
  {
  }

  // ---- what the standard says: five bits a letter, the last ones filled up with zeros ----

  function Zeros(n: nat): (z: seq<bool>)
    ensures |z| == n
  {
    seq(n, _ => false)
  }

  function Letters(bits: seq<bool>): Text
    decreases |bits|
  {
    if bits == [] then []
    else if |bits| < 5 then [LetterOf(bits + Zeros(5 - |bits|))]
    else [LetterOf(bits[..5])] + Letters(bits[5..])
  }

  function LetterOf(five: seq<bool>): Unit
    requires |five| == 5
  {
    FiveBits(five);
    Letter(ValueOf(five))
  }

  lemma {:induction false} FiveBits(five: seq<bool>)
    requires |five| == 5
    ensures ValueOf(five) < 32
  {
    ValueRoundTrip(five);
    assert Pow2(5) == 32;
  }

  // ---- the accumulator ----

  /** The low bits of the accumulator are the ones not yet used, whatever stands above them. */
  ghost predicate Holds(value: nat, bits: nat, pending: seq<bool>) {
    bits == |pending| && BitsOf(value, bits) == pending
  }

  lemma {:induction false} Powers()
    ensures Pow2(5) == 32 && Pow2(8) == 256 && Pow2(32) == WORD
  {
    assert Pow2(8) == 256;
    ShlIsProduct(1, 8);
    assert Pow2(16) == 0x10000;
    assert Pow2(24) == 0x1000000;
  }

  /** `(value << n) | low`, cut to 32 bits: the low bits move up and nothing of them is lost. */
  function ShiftedIn(value: nat, n: nat, low: nat): (v: nat)
    ensures v < WORD
  {
    (value * Pow2(n) + low) % WORD
  }

  lemma {:induction false} ShiftIn(value: nat, bits: nat, pending: seq<bool>, low: nat, n: nat)
    requires Holds(value, bits, pending) && low < Pow2(n) && bits + n <= 32
    ensures Holds(ShiftedIn(value, n, low), bits + n, pending + BitsOf(low, n))
  {
    JoinBits(value, bits, low, n);
    Overflow(value * Pow2(n) + low, bits + n);
  }

  /** What the word cannot hold is above the bits in use. */
  lemma {:induction false} Overflow(x: nat, n: nat)
    requires n <= 32
    ensures BitsOf(x % WORD, n) == BitsOf(x, n)
  {
    Powers();
    LowBits(x, 32, n);
  }

  /** `(value >>> (bits - n)) & (2^n - 1)` */
  function TakenOut(value: nat, bits: nat, n: nat): (v: nat)
    requires n <= bits
    ensures v < Pow2(n)
  {
    FloorDiv(value, Pow2(bits - n)) % Pow2(n)
  }

  /** The first `n` pending bits, and the others stay. */
  lemma {:induction false} TakeOut(value: nat, bits: nat, pending: seq<bool>, n: nat)
    requires Holds(value, bits, pending) && n <= bits
    ensures TakenOut(value, bits, n) == ValueOf(pending[..n]) && Holds(value, bits - n, pending[n..])
  {
    HighBits(value, n, bits - n);
    MaskedValue(FloorDiv(value, Pow2(bits - n)), n);
  }

  // ---- encoding ----

  lemma {:induction false} LetterFirst(bits: seq<bool>, rest: seq<bool>)
    requires |bits| >= 5
    ensures Letters(bits + rest) == [LetterOf(bits[..5])] + Letters(bits[5..] + rest)
  {
    assert (bits + rest)[..5] == bits[..5] && (bits + rest)[5..] == bits[5..] + rest;
  }

  /** The letters that can be made of the pending bits. */
  method Emit(value: nat, bits: nat, ghost pending: seq<bool>, ghost rest: seq<bool>) returns (out: Text, left: nat, ghost still: seq<bool>)
    requires Holds(value, bits, pending) && bits <= 12
    ensures left < 5 && Holds(value, left, still) && Letters(pending + rest) == out + Letters(still + rest)
  {
    out, left, still := [], bits, pending;
    Powers();
    while left >= 5
      invariant left <= bits && Holds(value, left, still) && Letters(pending + rest) == out + Letters(still + rest)
    {
      TakeOut(value, left, still, 5);
      LetterFirst(still, rest);
      out := out + [Letter(TakenOut(value, left, 5))];
      left, still := left - 5, still[5..];
    }
  }

  lemma {:induction false} ZeroBits(n: nat)
    ensures BitsOf(0, n) == Zeros(n)
    decreases n
  {
    if n == 0 {
    } else {
      ZeroBits(n - 1);
      assert Zeros(n) == Zeros(n - 1) + [false];
    }
  }

  /** `(value << (5 - bits)) & 31` */
  method LastLetter(value: nat, bits: nat, ghost pending: seq<bool>) returns (u: Unit)
    requires Holds(value, bits, pending) && 0 < bits < 5
    ensures Letters(pending) == [u]
  {
    Powers();
    ZeroBits(5 - bits);
    ShiftIn(value, bits, pending, 0, 5 - bits);
    MaskedValue(ShiftedIn(value, 5 - bits, 0), 5);
    u := Letter(ShiftedIn(value, 5 - bits, 0) % 32);
  }

  lemma {:induction false} NextByte(pending: seq<bool>, buf: seq<byte>, k: nat)
    requires k < |buf|
    ensures pending + AllBits(buf[k..]) == pending + BitsOf(buf[k], 8) + AllBits(buf[k + 1..])
  {
    assert buf[k..] == [buf[k]] + buf[k + 1..];
    AllBitsConcat([buf[k]], buf[k + 1..]);
    assert [buf[k]][..0] == [];
    assert AllBits([buf[k]]) == BitsOf(buf[k], 8);
  }

  /** One byte in, and out what it completes. */
  method Step(value: nat, bits: nat, b: byte, ghost pending: seq<bool>, ghost rest: seq<bool>)
    returns (out: Text, value': nat, left: nat, ghost still: seq<bool>)
    requires Holds(value, bits, pending) && bits < 5
    ensures left < 5 && Holds(value', left, still)
    ensures Letters(pending + BitsOf(b, 8) + rest) == out + Letters(still + rest)
  {
    Powers();
    ShiftIn(value, bits, pending, b, 8);
    value' := ShiftedIn(value, 8, b);
    out, left, still := Emit(value', bits + 8, pending + BitsOf(b, 8), rest);
  }

  method Encode(buf: seq<byte>) returns (out: Text)
    ensures out == Letters(AllBits(buf))
  {
    var bits, value := 0, 0;
    out := [];
    ghost var pending: seq<bool> := [];
    assert buf[0..] == buf && [] + AllBits(buf) == AllBits(buf);
    for k := 0 to |buf|
      invariant bits < 5 && Holds(value, bits, pending)
      invariant Letters(AllBits(buf)) == out + Letters(pending + AllBits(buf[k..]))
    {
      NextByte(pending, buf, k);
      var more;
      more, value, bits, pending := Step(value, bits, buf[k], pending, AllBits(buf[k + 1..]));
      Assoc(out, more, Letters(pending + AllBits(buf[k + 1..])));
      out := out + more;
    }
    assert buf[|buf|..] == [] && pending + [] == pending;
    if bits > 0 {
      var last := LastLetter(value, bits, pending);
      out := out + [last];
    }
  }

  // ---- decoding ----

  /** `toUpperCase` on the letters of the alphabet. */
  function Upper(u: Unit): Unit {
    if 97 <= u <= 122 then u - 32 else u
  }

  function UpperAll(s: Text): (r: Text)
    ensures |r| == |s|
  {
    if s == [] then [] else [Upper(s[0])] + UpperAll(s[1..])
  }

  function StripPadding(s: Text): Text {
    if s != [] && s[|s| - 1] == EQUALS then StripPadding(s[..|s| - 1]) else s
  }

  function Clean(input: Text): Text {
    WithoutSpaces(StripPadding(UpperAll(input)))
  }

  predicate InAlphabet(s: Text) {
    forall u :: u in s ==> IndexOf(u).Some?
  }

  function Digit(u: Unit): (n: nat)
    ensures n < 32
  {
    match IndexOf(u)
    case None => 0
    case Some(n) => n
  }

  /** The five bits of every letter. */
  function DigitBits(s: Text): (bits: seq<bool>)
    ensures |bits| == 5 * |s|
  {
    if s == [] then [] else BitsOf(Digit(s[0]), 5) + DigitBits(s[1..])
  }

  /** Whole bytes; bits that are left over are dropped. */
  function Bytes(bits: seq<bool>): seq<byte>
    decreases |bits|
  {
    if |bits| < 8 then [] else [ByteOf(bits[..8])] + Bytes(bits[8..])
  }

  function ByteOf(eight: seq<bool>): byte
    requires |eight| == 8
  {
    ValueRoundTrip(eight);
    Powers();
    ValueOf(eight)
  }

  lemma {:induction false} ByteFirst(bits: seq<bool>, rest: seq<bool>)
    requires |bits| >= 8
    ensures Bytes(bits + rest) == [ByteOf(bits[..8])] + Bytes(bits[8..] + rest)
  {
    assert (bits + rest)[..8] == bits[..8] && (bits + rest)[8..] == bits[8..] + rest;
  }

  lemma {:induction false} NextDigit(pending: seq<bool>, s: Text, k: nat)
    requires k < |s|
    ensures pending + DigitBits(s[k..]) == pending + BitsOf(Digit(s[k]), 5) + DigitBits(s[k + 1..])
  {
    assert s[k..][1..] == s[k + 1..];
  }

  /** One digit in, and the byte that it may complete out. */
  method Take(value: nat, bits: nat, digit: nat, ghost pending: seq<bool>) returns (out: seq<byte>, value': nat, left: nat, ghost still: seq<bool>)
    requires Holds(value, bits, pending) && bits < 8 && digit < 32
    ensures left < 8 && Holds(value', left, still)
    ensures forall rest :: Bytes(pending + BitsOf(digit, 5) + rest) == out + Bytes(still + rest)
  {
    Powers();
    ShiftIn(value, bits, pending, digit, 5);
    value' := ShiftedIn(value, 5, digit);
    left := bits + 5;
    still := pending + BitsOf(digit, 5);
    out := [];
    if left >= 8 {
      TakeOut(value', left, still, 8);
      out := [TakenOut(value', left, 8)];
      forall rest
        ensures Bytes(still + rest) == out + Bytes(still[8..] + rest)
      {
        ByteFirst(still, rest);
      }
      left, still := left - 8, still[8..];
    }
  }

  /** Fails at a character outside the alphabet; otherwise the whole bytes of the digits' bits. */
  method Decode(input: Text) returns (r: Result<seq<byte>, DecodeError>)
    ensures r.Success? <==> InAlphabet(Clean(input))
    ensures r.Success? ==> r.value == Bytes(DigitBits(Clean(input)))
    ensures r.Failure? ==> r.error.unit in Clean(input) && IndexOf(r.error.unit) == None
  {
    var clean := Clean(input);
    var bits, value := 0, 0;
    var out: seq<byte> := [];
    ghost var pending: seq<bool> := [];
    NoneYet(clean);
    for k := 0 to |clean|
      invariant bits < 8 && Holds(value, bits, pending)
      invariant InAlphabet(clean[..k])
      invariant Bytes(DigitBits(clean)) == out + Bytes(pending + DigitBits(clean[k..]))
    {
      var digit := IndexOf(clean[k]);
      if digit.None? {
        Outside(clean, k);
        return Failure(NotBase32(clean[k]));
      }
      NextDigit(pending, clean, k);
      InsideNext(clean, k);
      var more;
      more, value, bits, pending := Take(value, bits, digit.value, pending);
      Assoc(out, more, Bytes(pending + DigitBits(clean[k + 1..])));
      out := out + more;
    }
    AllTaken(clean, pending);
    r := Success(out);
  }

  lemma {:induction false} Outside(s: Text, k: nat)
    requires k < |s| && IndexOf(s[k]).None?
    ensures s[k] in s && !InAlphabet(s)
  {
  }

  lemma {:induction false} InsideNext(s: Text, k: nat)
    requires k < |s| && InAlphabet(s[..k]) && IndexOf(s[k]).Some?
    ensures InAlphabet(s[..k + 1])
  {
    assert s[..k + 1] == s[..k] + [s[k]];
  }

  lemma {:induction false} NoneYet(s: Text)
    ensures Bytes(DigitBits(s)) == [] + Bytes([] + DigitBits(s[0..]))
  {
    assert s[0..] == s && [] + DigitBits(s) == DigitBits(s);
  }

  lemma {:induction false} AllTaken(s: Text, pending: seq<bool>)
    ensures s[..|s|] == s && pending + DigitBits(s[|s|..]) == pending
  {
  }

  // ---- round trips ----

  /** One letter for every five bits, rounded up. */
  lemma {:induction false} LettersLength(bits: seq<bool>)
    ensures |Letters(bits)| == (|bits| + 4) / 5
    decreases |bits|
  {
    if |bits| < 5 {
    } else {
      LettersLength(bits[5..]);
    }
  }

  function Spare(n: nat): (z: nat)
    ensures z < 5 && (n + z) % 5 == 0
  {
    var r := n % 5;
    assert n == 5 * (n / 5) + r;
    if r == 0 then 0 else 5 - r
  }

  lemma {:induction false} LetterBits(five: seq<bool>)
    requires |five| == 5
    ensures IndexOf(LetterOf(five)).Some? && BitsOf(Digit(LetterOf(five)), 5) == five
  {
    FiveBits(five);
    LetterIndex(ValueOf(five), LetterOf(five));
    ValueRoundTrip(five);
  }

  lemma {:induction false} LetterInFront(five: seq<bool>, s: Text)
    requires |five| == 5
    ensures DigitBits([LetterOf(five)] + s) == five + DigitBits(s)
    ensures InAlphabet([LetterOf(five)] + s) <==> InAlphabet(s)
  {
    LetterBits(five);
    assert ([LetterOf(five)] + s)[1..] == s;
    assert forall u :: u in [LetterOf(five)] + s <==> u == LetterOf(five) || u in s;
  }

  /** The digits' bits are the encoded bits, filled up. */
  lemma {:induction false} DigitsBack(bits: seq<bool>)
    ensures InAlphabet(Letters(bits)) && DigitBits(Letters(bits)) == bits + Zeros(Spare(|bits|))
    decreases |bits|
  {
    if bits == [] {
    } else if |bits| < 5 {
      var last := bits + Zeros(5 - |bits|);
      LetterInFront(last, []);
      assert [LetterOf(last)] + [] == Letters(bits) && last + [] == last;
    } else {
      DigitsBack(bits[5..]);
      LetterInFront(bits[..5], Letters(bits[5..]));
      Filled(bits);
    }
  }

  lemma {:induction false} Filled(bits: seq<bool>)
    requires |bits| >= 5
    ensures bits[..5] + (bits[5..] + Zeros(Spare(|bits[5..]|))) == bits + Zeros(Spare(|bits|))
  {
  }

  lemma {:induction false} BytesBack(buf: seq<byte>, more: seq<bool>)
    requires |more| < 8
    ensures Bytes(AllBits(buf) + more) == buf
    decreases |buf|
  {
    if buf == [] {
    } else {
      var rest := buf[1..];
      assert buf[0..] == buf;
      NextByte([], buf, 0);
      var first := BitsOf(buf[0], 8);
      assert [] + first == first && AllBits(buf) == first + AllBits(rest);
      Assoc(first, AllBits(rest), more);
      ByteFirst(first, AllBits(rest) + more);
      assert first[..8] == first && first[8..] + (AllBits(rest) + more) == AllBits(rest) + more;
      Powers();
      BitsRoundTrip(buf[0], 8);
      BytesBack(rest, more);
    }
  }

  lemma {:induction false} CleanLetters(s: Text)
    requires InAlphabet(s)
    ensures Clean(s) == s
  {
    UpperLetters(s);
    assert s != [] ==> s[|s| - 1] in s;
    assert StripPadding(s) == s;
    NoSpaces(s);
  }

  lemma {:induction false} UpperLetters(s: Text)
    requires InAlphabet(s)
    ensures UpperAll(s) == s
    decreases |s|
  {
    if s == [] {
    } else {
      assert s[0] in s;
      UpperLetters(s[1..]);
    }
  }

  lemma {:induction false} NoSpaces(s: Text)
    requires InAlphabet(s)
    ensures WithoutSpaces(s) == s
    decreases |s|
  {
    if s == [] {
    } else {
      assert s[0] in s;
      NoSpaces(s[1..]);
    }
  }

  /** Decoding gives back every byte, and the text has ceil(8n / 5) letters. */
  lemma {:induction false} RoundTrip(buf: seq<byte>)
    ensures var text := Letters(AllBits(buf));
      |text| == (8 * |buf| + 4) / 5 && InAlphabet(Clean(text)) && Bytes(DigitBits(Clean(text))) == buf
  {
    var text := Letters(AllBits(buf));
    LettersLength(AllBits(buf));
    DigitsBack(AllBits(buf));
    CleanLetters(text);
    BytesBack(buf, Zeros(Spare(8 * |buf|)));
  }

  lemma {:induction false} LettersBack(s: Text)
    requires InAlphabet(s)
    ensures Letters(DigitBits(s)) == s
    decreases |s|
  {
    if s == [] {
    } else {
      var five := BitsOf(Digit(s[0]), 5);
      assert s[0] in s;
      LettersBack(s[1..]);
      LetterFirst(five, DigitBits(s[1..]));
      assert five[..5] == five && five[5..] + DigitBits(s[1..]) == DigitBits(s[1..]);
      Powers();
      BitsRoundTrip(IndexOf(s[0]).value, 5);
      LetterIndex(IndexOf(s[0]).value, s[0]);
      assert s == [s[0]] + s[1..];
    }
  }

  /** The bits of the whole bytes. */
  lemma {:induction false} FirstByteBits(bits: seq<bool>)
    requires |bits| >= 8
    ensures Bytes(bits) == [ByteOf(bits[..8])] + Bytes(bits[8..])
    ensures AllBits(Bytes(bits)) == bits[..8] + AllBits(Bytes(bits[8..]))
  {
    var bytes, none: seq<bool> := Bytes(bits), [];
    NextByte(none, bytes, 0);
    ValueRoundTrip(bits[..8]);
    assert bytes[0..] == bytes && bytes[1..] == Bytes(bits[8..]);
    assert none + AllBits(bytes) == AllBits(bytes) && none + bits[..8] == bits[..8];
  }

  lemma {:induction false} WholeBits(bits: seq<bool>)
    ensures 8 * |Bytes(bits)| <= |bits| < 8 * |Bytes(bits)| + 8
    ensures AllBits(Bytes(bits)) == bits[..8 * |Bytes(bits)|]
    decreases |bits|
  {
    if |bits| < 8 {
    } else {
      var n := |Bytes(bits[8..])|;
      WholeBits(bits[8..]);
      FirstByteBits(bits);
      assert bits[..8] + bits[8..][..8 * n] == bits[..8 + 8 * n];
    }
  }

  /**
   * Encoding what was decoded gives the text back exactly when it could have been written: less than a letter's worth of bits
   * is left over, and they are zeros.
   */
  lemma {:induction false} Canonical(s: Text)
    requires InAlphabet(s)
    ensures var bits := DigitBits(s); var n := 8 * |Bytes(bits)|;
      n <= |bits| && (Letters(AllBits(Bytes(bits))) == s <==> |bits| - n < 5 && bits[n..] == Zeros(|bits| - n))
  {
    var bits := DigitBits(s);
    WholeBits(bits);
    var n := 8 * |Bytes(bits)|;
    assert bits == bits[..n] + bits[n..];
    if |bits| - n < 5 {
      LettersTell(s, bits[..n], bits[n..]);
    } else {
      LettersLength(bits[..n]);
    }
  }

  lemma {:induction false} LettersTell(s: Text, whole: seq<bool>, rest: seq<bool>)
    requires InAlphabet(s) && DigitBits(s) == whole + rest && |rest| < 5
    ensures Letters(whole) == s <==> rest == Zeros(|rest|)
  {
    var z := Spare(|whole|);
    assert z == |rest|;
    DigitsBack(whole);
    LettersBack(s);
    LettersBack(Letters(whole));
    SameFront(whole, rest, Zeros(z));
  }

  lemma {:induction false} SameFront(a: seq<bool>, b: seq<bool>, c: seq<bool>)
    ensures a + b == a + c <==> b == c
  {
    assert (a + b)[|a|..] == b && (a + c)[|a|..] == c;
  }

  // ---- the text ----

  const ALPHABET: string := "ABCDEFGHIJKLMNOPQRSTUVWXYZ234567"

  /** Every value has the letter that stands at its place in the alphabet, and no other character has a value. */
  lemma {:induction false} AlphabetIs(n: nat, u: Unit)
    requires n < 32
    ensures |ALPHABET| == 32 && (IndexOf(u) == Some(n) <==> u == ALPHABET[n] as nat)
  {
  }

  /** Small letters count as capitals, and every other character as itself. */
  lemma {:induction false} UpperAllIs(s: Text, k: nat)
    requires k < |s|
    ensures UpperAll(s)[k] == if 'a' as nat <= s[k] <= 'z' as nat then s[k] - 'a' as nat + 'A' as nat else s[k]
  {
    if k == 0 {
    } else {
      UpperAllIs(s[1..], k - 1);
    }
  }

  /** Padding at the very end is dropped, and then every space; what stands between or in front of the spaces stays in order. */
  lemma {:induction false} CleanIs(s: Text, padding: nat)
    requires s == [] || s[|s| - 1] != '=' as nat
    ensures Clean(s + Pads(padding)) == WithoutSpaces(UpperAll(s))
  {
    UpperPads(s, padding);
    if s != [] {
      UpperAllIs(s, |s| - 1);
    }
    StripPads(UpperAll(s), padding);
  }

  function Pads(n: nat): (p: Text)
    ensures |p| == n
  {
    if n == 0 then [] else Pads(n - 1) + ['=' as nat]
  }

  lemma {:induction false} UpperSnoc(s: Text, u: Unit)
    ensures UpperAll(s + [u]) == UpperAll(s) + [Upper(u)]
    decreases |s|
  {
    if s == [] {
      assert [u][1..] == [];
    } else {
      assert (s + [u])[1..] == s[1..] + [u];
      UpperSnoc(s[1..], u);
    }
  }

  lemma {:induction false} UpperPads(s: Text, padding: nat)
    ensures UpperAll(s + Pads(padding)) == UpperAll(s) + Pads(padding)
  {
    if padding == 0 {
      assert s + Pads(0) == s && UpperAll(s) + Pads(0) == UpperAll(s);
    } else {
      var front := s + Pads(padding - 1);
      UpperPads(s, padding - 1);
      UpperSnoc(front, EQUALS);
      assert s + Pads(padding) == front + [EQUALS];
      assert UpperAll(s) + Pads(padding - 1) + [EQUALS] == UpperAll(s) + Pads(padding);
    }
  }

  lemma {:induction false} StripPads(s: Text, padding: nat)
    requires s == [] || s[|s| - 1] != EQUALS
    ensures StripPadding(s + Pads(padding)) == s
  {
    if padding == 0 {
      assert s + Pads(0) == s;
    } else {
      assert (s + Pads(padding))[..|s| + padding - 1] == s + Pads(padding - 1);
      StripPads(s, padding - 1);
    }
  }

  lemma {:induction false} BitsOfF()
    ensures BitsOf(102, 8)[..5] == BitsOf(12, 5) && BitsOf(102, 8)[5..] + Zeros(2) == BitsOf(24, 5)
  {
    HighBits(102, 5, 3);
    assert Pow2(3) == 8;
    assert BitsOf(102, 3) == [true, true, false];
    assert BitsOf(24, 5) == [true, true, false, false, false];
  }

  lemma {:induction false} TwoLetters(bits: seq<bool>, a: nat, b: nat)
    requires |bits| == 8 && a < 32 && b < 32
    requires bits[..5] == BitsOf(a, 5) && bits[5..] + Zeros(2) == BitsOf(b, 5)
    ensures Letters(bits) == [Letter(a), Letter(b)]
  {
    assert Pow2(5) == 32;
    BitsRoundTrip(a, 5);
    BitsRoundTrip(b, 5);
  }

  /** The first example of RFC 4648, section 10: one byte, `f`, is MY. */
  lemma {:induction false} Example()
    ensures Letters(AllBits([102])) == ['M' as nat, 'Y' as nat]
  {
    var f: seq<byte> := [102];
    BitsOfF();
    TwoLetters(BitsOf(102, 8), 12, 24);
    assert f[..0] == [] && AllBits(f) == BitsOf(102, 8);
  }
}
