/** From payload bytes to data codewords, and back. */
module QrData {
  import opened Bits
  import opened Bitwise
  import opened Bch
  import opened Sequences
  import opened Wrappers

  // ---- symbol capacities ----

  datatype QrError = PayloadTooLong | PayloadOverflows

  const MAX_VERSION: nat := 10

  /** `g1` blocks of `d1` data codewords and `g2` blocks of `d2`, each with `ec` codewords behind it. */
  datatype Spec = Spec(ec: nat, g1: nat, d1: nat, g2: nat, d2: nat)

  predicate IsVersion(version: nat) {
    1 <= version <= MAX_VERSION
  }

  function SpecOf(version: nat, level: EccLevel): Spec
    requires IsVersion(version)
  {
    match level
    case L =>
      (match version
       case 1 => Spec(7, 1, 19, 0, 0)
       case 2 => Spec(10, 1, 34, 0, 0)
       case 3 => Spec(15, 1, 55, 0, 0)
       case 4 => Spec(20, 1, 80, 0, 0)
       case 5 => Spec(26, 1, 108, 0, 0)
       case 6 => Spec(18, 2, 68, 0, 0)
       case 7 => Spec(20, 2, 78, 0, 0)
       case 8 => Spec(24, 2, 97, 0, 0)
       case 9 => Spec(30, 2, 116, 0, 0)
       case _ => Spec(18, 2, 68, 2, 69))
    case M =>
      (match version
       case 1 => Spec(10, 1, 16, 0, 0)
       case 2 => Spec(16, 1, 28, 0, 0)
       case 3 => Spec(26, 1, 44, 0, 0)
       case 4 => Spec(18, 2, 32, 0, 0)
       case 5 => Spec(24, 2, 43, 0, 0)
       case 6 => Spec(16, 4, 27, 0, 0)
       case 7 => Spec(18, 4, 31, 0, 0)
       case 8 => Spec(22, 2, 38, 2, 39)
       case 9 => Spec(22, 3, 36, 2, 37)
       case _ => Spec(26, 4, 43, 1, 44))
  }

  function DataCapacity(version: nat, level: EccLevel): (c: nat)
    requires IsVersion(version)
    ensures version < 10 ==> c < 256
    ensures c < 300
  {
    var s := SpecOf(version, level);
    s.g1 * s.d1 + s.g2 * s.d2
  }

  function CountBits(version: nat): nat {
    if version < 10 then 8 else 16
  }

  predicate Fits(byteLength: nat, version: nat, level: EccLevel)
    requires IsVersion(version)
  {
    DataCapacity(version, level) * 8 >= 4 + CountBits(version) + byteLength * 8
  }

  /** The smallest version that holds the payload, and a failure only when none does. */
  method ChooseVersion(byteLength: nat, level: EccLevel) returns (r: Result<nat, QrError>)
    ensures r.Success? ==> IsVersion(r.value) && Fits(byteLength, r.value, level)
    ensures r.Success? ==> forall v: nat :: 1 <= v < r.value ==> !Fits(byteLength, v, level)
    ensures r.Failure? ==> r.error == PayloadTooLong && forall v: nat :: IsVersion(v) ==> !Fits(byteLength, v, level)
  {
    for version := 1 to MAX_VERSION + 1
      invariant forall v: nat :: 1 <= v < version ==> !Fits(byteLength, v, level)
    {
      if Fits(byteLength, version, level) {
        return Success(version);
      }
    }
    return Failure(PayloadTooLong);
  }

  // ---- writing ----

  class BitBuffer {
    var bits: seq<bool>

    constructor ()
      ensures bits == []
    {
      bits := [];
    }

    method Put(value: nat, length: nat)
      requires length <= 32
      modifies this
      ensures bits == old(bits) + BitsOf(value, length)
    {
      for i := length downto 0
        invariant bits == old(bits) + BitsOf(value, length)[..length - i]
      {
        BitsOfIndex(value, length, length - 1 - i);
        bits := bits + [(value / Pow2(i)) % 2 == 1];
      }
    }
  }

  function Header(data: seq<byte>, version: nat): (h: seq<bool>)
    ensures |h| == 4 + CountBits(version) + 8 * |data|
  {
    BitsOf(4, 4) + BitsOf(|data|, CountBits(version)) + AllBits(data)
  }

  function Pads(n: nat): (p: seq<byte>)
    ensures |p| == n
  {
    seq(n, i => if i % 2 == 0 then 0xec as byte else 0x11)
  }

  /** Codewords that hold the header, the payload, a four-bit terminator and padding. */
  ghost predicate Carries(codewords: seq<byte>, data: seq<byte>, version: nat) {
    var n := |data| + CountBits(version) / 8 + 1;
    && n <= |codewords|
    && AllBits(codewords[..n]) == Header(data, version) + Falses(4)
    && codewords[n..] == Pads(|codewords| - n)
  }

  method DataCodewords(data: seq<byte>, version: nat, level: EccLevel) returns (r: Result<seq<byte>, QrError>)
    requires IsVersion(version)
    ensures r.Success? <==> Fits(|data|, version, level)
    ensures r.Failure? ==> r.error == PayloadOverflows
    ensures r.Success? ==> |r.value| == DataCapacity(version, level) && Carries(r.value, data, version)
  {
    var capacity := DataCapacity(version, level);
    var bb := new BitBuffer();
    PutPayload(bb, data, version);
    var limit := capacity * 8;
    if |bb.bits| > limit {
      return Failure(PayloadOverflows);
    }
    TerminatorIsFour(|bb.bits|, limit);
    Terminate(bb, limit);
    var packed := Pack(bb.bits);
    var out := PadOut(packed, capacity);
    CarriesAll(out, packed, data, version);
    r := Success(out);
  }

  lemma {:induction false} CarriesAll(out: seq<byte>, packed: seq<byte>, data: seq<byte>, version: nat)
    requires |packed| <= |out| && out == packed + Pads(|out| - |packed|)
    requires AllBits(packed) == Header(data, version) + Falses(4)
    ensures Carries(out, data, version)
  {
    assert out[..|packed|] == packed && out[|packed|..] == Pads(|out| - |packed|);
  }

  /** After a four-bit mode and whole bytes there is always room for all four terminator bits. */
  lemma {:induction false} TerminatorIsFour(length: nat, limit: nat)
    requires length <= limit && length % 8 == 4 && limit % 8 == 0
    ensures TerminatorLength(length, limit) == 4
  {
  }

  function Falses(n: nat): (f: seq<bool>)
    ensures |f| == n
  {
    seq(n, _ => false)
  }

  lemma {:induction false} ZeroBits(n: nat)
    ensures BitsOf(0, n) == Falses(n)
  {
    if n == 0 {
    } else {
      ZeroBits(n - 1);
    }
  }

  /** How many zero bits end a stream of `length` bits: up to four, then to a whole byte. */
  function TerminatorLength(length: nat, limit: nat): nat
    requires length <= limit
  {
    var t := if limit - length < 4 then limit - length else 4;
    t + (8 - (length + t) % 8) % 8
  }

  lemma {:induction false} ToWholeByte(x: nat, e: nat)
    requires e <= (8 - x % 8) % 8
    ensures (x + e) % 8 == 0 <==> e == (8 - x % 8) % 8
  {
    var q, m := x / 8, x % 8;
    assert x + e == 8 * q + (m + e);
  }

  /** Between the shortest terminator and the whole one, the stream ends on a byte only with the whole one. */
  lemma {:induction false} FillsUp(length: nat, limit: nat, t: nat, n: nat)
    requires length <= limit && t == (if limit - length < 4 then limit - length else 4)
    requires t <= n <= TerminatorLength(length, limit)
    ensures (length + n) % 8 == 0 <==> n == TerminatorLength(length, limit)
  {
    ToWholeByte(length + t, n - t);
  }

  method Terminate(bb: BitBuffer, limit: nat)
    requires |bb.bits| <= limit
    modifies bb
    ensures bb.bits == old(bb.bits) + Falses(TerminatorLength(old(|bb.bits|), limit))
    ensures |bb.bits| % 8 == 0
  {
    var t := if limit - |bb.bits| < 4 then limit - |bb.bits| else 4;
    ghost var whole := TerminatorLength(|bb.bits|, limit);
    bb.Put(0, t);
    ZeroBits(t);
    ghost var n := t;
    FillsUp(old(|bb.bits|), limit, t, n);
    while |bb.bits| % 8 != 0
      invariant t <= n <= whole && bb.bits == old(bb.bits) + Falses(n)
      invariant |bb.bits| % 8 == 0 <==> n == whole
      decreases whole - n
    {
      bb.bits := bb.bits + [false];
      n := n + 1;
      FillsUp(old(|bb.bits|), limit, t, n);
    }
  }

  method PutPayload(bb: BitBuffer, data: seq<byte>, version: nat)
    requires bb.bits == []
    modifies bb
    ensures bb.bits == Header(data, version)
  {
    bb.Put(4, 4);
    assert [] + BitsOf(4, 4) == BitsOf(4, 4);
    bb.Put(|data|, CountBits(version));
    PutBytes(bb, data);
  }

  lemma {:induction false} NextBits(data: seq<byte>, i: nat)
    requires i < |data|
    ensures AllBits(data[..i + 1]) == AllBits(data[..i]) + BitsOf(data[i], 8)
  {
    assert data[..i + 1][..i] == data[..i];
  }

  method PutBytes(bb: BitBuffer, data: seq<byte>)
    modifies bb
    ensures bb.bits == old(bb.bits) + AllBits(data)
  {
    for i := 0 to |data|
      invariant bb.bits == old(bb.bits) + AllBits(data[..i])
    {
      bb.Put(data[i], 8);
      NextBits(data, i);
      Assoc(old(bb.bits), AllBits(data[..i]), BitsOf(data[i], 8));
    }
    assert data[..|data|] == data;
  }

  method PadOut(packed: seq<byte>, capacity: nat) returns (out: seq<byte>)
    requires |packed| <= capacity
    ensures out == packed + Pads(capacity - |packed|)
  {
    out := packed;
    var i := 0;
    while |out| < capacity
      invariant i <= capacity - |packed| && out == packed + Pads(i)
    {
      out := out + [if i % 2 == 0 then 0xec else 0x11];
      i := i + 1;
    }
  }

  /** Eight bits to a byte. */
  method Pack(bits: seq<bool>) returns (out: seq<byte>)
    requires |bits| % 8 == 0
    ensures AllBits(out) == bits
  {
    out := [];
    var i := 0;
    while i < |bits|
      invariant i <= |bits| && i == 8 * |out|
      invariant AllBits(out) == bits[..i]
    {
      var b := PackByte(bits[i..i + 8]);
      out := out + [b];
      assert out[..|out| - 1] + [b] == out;
      i := i + 8;
    }
    assert bits[..i] == bits;
  }

  method PackByte(bits: seq<bool>) returns (b: byte)
    requires |bits| == 8
    ensures BitsOf(b, 8) == bits
  {
    var value: nat := 0;
    for j := 0 to 8
      invariant value == ValueOf(bits[..j])
    {
      assert bits[..j + 1][..j] == bits[..j];
      value := 2 * value + (if bits[j] then 1 else 0);
    }
    assert bits[..8] == bits;
    ValueRoundTrip(bits);
    assert Pow2(8) == 256;
    b := value;
  }

  // ---- reading ----

  /** What a reader makes of a stream that arrived intact: mode, count, then the bytes. */
  function ReadBits(bits: seq<bool>, countBits: nat): (r: Option<seq<nat>>) {
    var start := 4 + countBits;
    if |bits| < start || ValueOf(bits[..4]) != 4 then None else
      var n := ValueOf(bits[4..start]);
      if |bits| < start + 8 * n then None
      else Some(seq(n, i requires 0 <= i < n => ValueOf(bits[start + 8 * i..start + 8 * i + 8])))
  }

  /** The length of the count field in byte mode (ISO/IEC 18004:2015, table 3). */
  function CountLength(version: nat): nat {
    if version <= 9 then 8 else 16
  }

  /** Behind the payload come four zero bits, and then 11101100 and 00010001 in turn (sections 7.4.9 and 7.4.10). */
  predicate EndsProperly(codewords: seq<byte>, used: nat) {
    && 0 < used <= |codewords| && codewords[used - 1] % 16 == 0
    && forall k :: used <= k < |codewords| ==> codewords[k] == if (k - used) % 2 == 0 then 236 else 17
  }

  function ReadPayload(codewords: seq<byte>, version: nat): (r: Option<seq<nat>>) {
    match ReadBits(AllBits(codewords), CountLength(version))
    case None => None
    case Some(data) => if EndsProperly(codewords, 1 + CountLength(version) / 8 + |data|) then Some(data) else None
  }

  lemma {:induction false} HeaderReadsBack(data: seq<byte>, version: nat, i: nat)
    requires |data| < Pow2(CountBits(version)) && i < |data|
    ensures var start := 4 + CountBits(version);
      ValueOf(Header(data, version)[start + 8 * i..start + 8 * i + 8]) == data[i]
  {
    BehindFront(BitsOf(4, 4) + BitsOf(|data|, CountBits(version)), data, i);
  }

  lemma {:induction false} BehindFront(front: seq<bool>, data: seq<byte>, i: nat)
    requires i < |data|
    ensures ValueOf((front + AllBits(data))[|front| + 8 * i..|front| + 8 * i + 8]) == data[i]
  {
    var from: nat := 8 * i;
    var all := AllBits(data);
    AllBitsIndex(data, i);
    SuffixSlice(front, all, from, from + 8);
    ByteBack(data[i]);
  }

  lemma {:induction false} ByteBack(b: byte)
    ensures ValueOf(BitsOf(b, 8)) == b
  {
    assert Pow2(8) == 256;
    BitsRoundTrip(b, 8);
  }

  lemma {:induction false} SuffixSlice(a: seq<bool>, b: seq<bool>, from: nat, to: nat)
    requires from <= to <= |b|
    ensures (a + b)[|a| + from..|a| + to] == b[from..to]
  {
  }

  lemma {:induction false} HeaderFields(data: seq<byte>, version: nat)
    requires |data| < Pow2(CountBits(version))
    ensures ValueOf(Header(data, version)[..4]) == 4
    ensures ValueOf(Header(data, version)[4..4 + CountBits(version)]) == |data|
  {
    var h := Header(data, version);
    assert h[..4] == BitsOf(4, 4);
    assert h[4..4 + CountBits(version)] == BitsOf(|data|, CountBits(version));
    assert Pow2(4) == 16;
    BitsRoundTrip(4, 4);
    BitsRoundTrip(|data|, CountBits(version));
  }

  lemma {:induction false} PrefixSlice(h: seq<bool>, bits: seq<bool>, from: nat, to: nat)
    requires h <= bits && from <= to <= |h|
    ensures bits[from..to] == h[from..to]
  {
  }

  lemma {:induction false} FieldsDecide(bits: seq<bool>, data: seq<byte>, countBits: nat)
    requires |bits| >= 4 + countBits + 8 * |data|
    requires ValueOf(bits[..4]) == 4 && ValueOf(bits[4..4 + countBits]) == |data|
    requires forall i :: 0 <= i < |data| ==>
      ValueOf(bits[4 + countBits + 8 * i..4 + countBits + 8 * i + 8]) == data[i]
    ensures ReadBits(bits, countBits) == Some(data)
  {
    assert ReadBits(bits, countBits).value == data;
  }

  lemma {:induction false} ByteRead(bits: seq<bool>, data: seq<byte>, version: nat, i: nat)
    requires i < |data| < Pow2(CountBits(version)) && Header(data, version) <= bits
    ensures var from := 4 + CountBits(version) + 8 * i; from + 8 <= |bits| && ValueOf(bits[from..from + 8]) == data[i]
  {
    var from, h := 4 + CountBits(version) + 8 * i, Header(data, version);
    HeaderFields(data, version);
    HeaderReadsBack(data, version, i);
    PrefixSlice(h, bits, from, from + 8);
  }

  /** The reader sees the header and the payload, whatever comes after them. */
  lemma {:induction false} ReadsThrough(bits: seq<bool>, data: seq<byte>, version: nat)
    requires |data| < Pow2(CountBits(version)) && Header(data, version) <= bits
    ensures ReadBits(bits, CountBits(version)) == Some(data)
  {
    var start, h := 4 + CountBits(version), Header(data, version);
    HeaderFields(data, version);
    PrefixSlice(h, bits, 0, 4);
    PrefixSlice(h, bits, 4, start);
    forall i | 0 <= i < |data|
      ensures ValueOf(bits[start + 8 * i..start + 8 * i + 8]) == data[i]
    {
      ByteRead(bits, data, version, i);
    }
    FieldsDecide(bits, data, CountBits(version));
  }

  lemma {:induction false} LowZeros(b: byte)
    requires BitsOf(b, 8)[4..] == Falses(4)
    ensures b % 16 == 0
  {
    var bits := BitsOf(b, 8);
    assert Pow2(4) == 16;
    LowHalf(b);
    ZeroBits(4);
    BitsRoundTrip(b % 16, 4);
    BitsRoundTrip(0, 4);
  }

  lemma {:induction false} LowHalf(b: byte)
    ensures BitsOf(b, 8)[4..] == BitsOf(b % 16, 4)
  {
    assert Pow2(4) == 16;
    HighBits(b, 4, 4);
    LowBits(b, 4, 4);
  }

  lemma {:induction false} TerminatorRead(codewords: seq<byte>, front: seq<bool>)
    requires codewords != [] && AllBits(codewords) == front + Falses(4)
    ensures codewords[|codewords| - 1] % 16 == 0
  {
    var n := |codewords| - 1;
    AllBitsIndex(codewords, n);
    assert AllBits(codewords)[8 * n..8 * n + 8][4..] == Falses(4);
    LowZeros(codewords[n]);
  }

  lemma {:induction false} PadsRead(codewords: seq<byte>, used: nat)
    requires used <= |codewords| && codewords[used..] == Pads(|codewords| - used)
    ensures forall k :: used <= k < |codewords| ==> codewords[k] == if (k - used) % 2 == 0 then 236 else 17
  {
    forall k | used <= k < |codewords|
      ensures codewords[k] == if (k - used) % 2 == 0 then 236 else 17
    {
      assert codewords[k] == codewords[used..][k - used];
    }
  }

  lemma {:induction false} PaddingRead(codewords: seq<byte>, data: seq<byte>, version: nat, used: nat)
    requires Carries(codewords, data, version) && used == 1 + CountLength(version) / 8 + |data|
    ensures EndsProperly(codewords, used)
  {
    TerminatorRead(codewords[..used], Header(data, version));
    PadsRead(codewords, used);
  }

  lemma {:induction false} FirstBits(codewords: seq<byte>, n: nat, h: seq<bool>, more: seq<bool>)
    requires n <= |codewords| && AllBits(codewords[..n]) == h + more
    ensures h <= AllBits(codewords)
  {
    AllBitsConcat(codewords[..n], codewords[n..]);
    assert codewords[..n] + codewords[n..] == codewords;
  }

  lemma {:induction false} HeaderFirst(codewords: seq<byte>, data: seq<byte>, version: nat)
    requires Carries(codewords, data, version)
    ensures Header(data, version) <= AllBits(codewords)
  {
    FirstBits(codewords, |data| + CountBits(version) / 8 + 1, Header(data, version), Falses(4));
  }

  lemma {:induction false} PayloadReadsBack(codewords: seq<byte>, data: seq<byte>, version: nat)
    requires |data| < Pow2(CountBits(version)) && Carries(codewords, data, version)
    ensures ReadPayload(codewords, version) == Some(data)
  {
    HeaderFirst(codewords, data, version);
    ReadsThrough(AllBits(codewords), data, version);
    PaddingRead(codewords, data, version, 1 + CountLength(version) / 8 + |data|);
  }
}
