/** Text as code points, and as UTF-8 octets (RFC 3629). */
module Utf8 {
  import opened Bitwise
  import opened JsText
  import opened Wrappers

  predicate IsSurrogate(n: nat) {
    0xD800 <= n < 0xE000
  }

  type Point = p: nat | p < 0xD800 || 0xE000 <= p < 0x110000

  /** What stands for a surrogate without its partner. */
  const REPLACEMENT: Point := 0xFFFD

  // ---- code units and code points ----

  predicate PairAt(s: Text) {
    |s| > 1 && 0xD800 <= s[0] < 0xDC00 && 0xDC00 <= s[1] < 0xE000
  }

  function PairValue(high: Unit, low: Unit): Point
    requires 0xD800 <= high < 0xDC00 && 0xDC00 <= low < 0xE000
  {
    0x10000 + (high - 0xD800) * 1024 + (low - 0xDC00)
  }

  function Points(s: Text): seq<Point> {
    if s == [] then []
    else if PairAt(s) then [PairValue(s[0], s[1])] + Points(s[2..])
    else [if IsSurrogate(s[0]) then REPLACEMENT else s[0]] + Points(s[1..])
  }

  function Units(p: Point): Text {
    if p < 0x10000 then [p] else [0xD800 + (p - 0x10000) / 1024, 0xDC00 + (p - 0x10000) % 1024]
  }

  function FromPoints(ps: seq<Point>): Text {
    if ps == [] then [] else Units(ps[0]) + FromPoints(ps[1..])
  }

  /** Every surrogate has its partner. */
  predicate WellFormed(s: Text) {
    if s == [] then true
    else if PairAt(s) then WellFormed(s[2..])
    else !IsSurrogate(s[0]) && WellFormed(s[1..])
  }

  lemma {:induction false} PointFirst(p: Point, s: Text)
    ensures Points(Units(p) + s) == [p] + Points(s)
  {
    var all := Units(p) + s;
    if p < 0x10000 {
      assert all[1..] == s;
    } else {
      assert all[2..] == s;
    }
  }

  lemma {:induction false} PointsBack(ps: seq<Point>)
    ensures Points(FromPoints(ps)) == ps
    decreases |ps|
  {
    if ps == [] {
    } else {
      PointsBack(ps[1..]);
      PointFirst(ps[0], FromPoints(ps[1..]));
    }
  }

  lemma {:induction false} UnitsOfPair(high: Unit, low: Unit)
    requires 0xD800 <= high < 0xDC00 && 0xDC00 <= low < 0xE000
    ensures Units(PairValue(high, low)) == [high, low]
  {
  }

  /** Going through code points and back changes nothing exactly when no surrogate stands alone. */
  lemma {:induction false} TextBack(s: Text)
    ensures |FromPoints(Points(s))| == |s|
    ensures FromPoints(Points(s)) == s <==> WellFormed(s)
    decreases |s|
  {
    if s == [] {
    } else if PairAt(s) {
      UnitsOfPair(s[0], s[1]);
      TextBack(s[2..]);
      TextFirst(Points(s), [s[0], s[1]], s, s[2..]);
    } else {
      TextBack(s[1..]);
      TextFirst(Points(s), Units(Points(s)[0]), s, s[1..]);
    }
  }

  lemma {:induction false} TextFirst(ps: seq<Point>, front: Text, s: Text, rest: Text)
    requires ps != [] && Units(ps[0]) == front && |front| <= |s| && rest == s[|front|..]
    requires |FromPoints(ps[1..])| == |rest|
    ensures |FromPoints(ps)| == |s|
    ensures FromPoints(ps) == s <==> front == s[..|front|] && FromPoints(ps[1..]) == rest
  {
    var all := FromPoints(ps);
    assert all[..|front|] == front && all[|front|..] == FromPoints(ps[1..]);
    assert s == s[..|front|] + rest;
  }

  lemma {:induction false} FromPointsJoin(a: seq<Point>, b: seq<Point>)
    ensures FromPoints(a + b) == FromPoints(a) + FromPoints(b)
    decreases |a|
  {
    if a == [] {
      assert a + b == b;
    } else {
      assert (a + b)[1..] == a[1..] + b;
      FromPointsJoin(a[1..], b);
    }
  }

  /** A unit that is no surrogate is in the text exactly when it is among the code points, except for the replacement. */
  lemma {:induction false} PlainUnits(s: Text, u: Unit)
    requires !IsSurrogate(u) && u != REPLACEMENT
    ensures u in Points(s) <==> u in s
    ensures u in FromPoints(Points(s)) <==> u in s
    decreases |s|
  {
    if s == [] {
    } else if PairAt(s) {
      PlainUnits(s[2..], u);
      UnitsOfPair(s[0], s[1]);
      assert s == [s[0], s[1]] + s[2..];
      assert Points(s)[1..] == Points(s[2..]);
    } else {
      PlainUnits(s[1..], u);
      assert s == [s[0]] + s[1..];
      assert Points(s)[1..] == Points(s[1..]);
    }
  }

  // ---- octets ----

  function Encode(p: Point): (b: seq<byte>)
    ensures 1 <= |b| <= 4
  {
    if p < 0x80 then [p]
    else if p < 0x800 then [0xC0 + p / 64, 0x80 + p % 64]
    else if p < 0x10000 then [0xE0 + p / 4096, 0x80 + p / 64 % 64, 0x80 + p % 64]
    else [0xF0 + p / 262144, 0x80 + p / 4096 % 64, 0x80 + p / 64 % 64, 0x80 + p % 64]
  }

  function EncodeAll(ps: seq<Point>): (b: seq<byte>)
    ensures |b| >= |ps|
  {
    if ps == [] then [] else Encode(ps[0]) + EncodeAll(ps[1..])
  }

  /** The octets of a string. */
  function Octets(s: Text): seq<byte> {
    EncodeAll(Points(s))
  }

  /** The top two bits are 10. */
  predicate IsContinuation(b: byte) {
    b / 64 == 2
  }

  lemma {:induction false} LeadAndRest(p: Point, i: nat)
    requires i < |Encode(p)|
    ensures IsContinuation(Encode(p)[i]) <==> i > 0
  {
  }

  function LengthAt(lead: byte): nat {
    if lead < 0x80 then 1
    else if 0xC0 <= lead < 0xE0 then 2
    else if 0xE0 <= lead < 0xF0 then 3
    else if 0xF0 <= lead < 0xF8 then 4
    else 0
  }

  function Two(a: nat, b: nat): nat {
    a % 32 * 64 + b % 64
  }

  function Three(a: nat, b: nat, c: nat): nat {
    a % 16 * 4096 + b % 64 * 64 + c % 64
  }

  function Four(a: nat, b: nat, c: nat, d: nat): nat {
    a % 8 * 262144 + b % 64 * 4096 + c % 64 * 64 + d % 64
  }

  function ValueAt(b: seq<byte>): nat
    requires b != [] && |b| >= LengthAt(b[0])
  {
    match LengthAt(b[0])
    case 1 => b[0]
    case 2 => Two(b[0], b[1])
    case 3 => Three(b[0], b[1], b[2])
    case 4 => Four(b[0], b[1], b[2], b[3])
    case _ => 0
  }

  /** The code point whose octets stand at the front: no other spelling of it is accepted. */
  function DecodeFirst(b: seq<byte>): (r: Option<Point>)
    requires b != []
    ensures r.Some? ==> |Encode(r.value)| <= |b| && b[..|Encode(r.value)|] == Encode(r.value)
  {
    var n := LengthAt(b[0]);
    if n == 0 || n > |b| then None else
      var v := ValueAt(b);
      if v < 0x110000 && !IsSurrogate(v) && Encode(v) == b[..n] then Some(v) else None
  }

  /** The code points of well-formed octets. */
  function DecodeAll(b: seq<byte>): Option<seq<Point>>
    decreases |b|
  {
    if b == [] then Some([]) else
      match DecodeFirst(b)
      case None => None
      case Some(p) =>
        match DecodeAll(b[|Encode(p)|..])
        case None => None
        case Some(rest) => Some([p] + rest)
  }

  lemma {:induction false} TwoBack(p: nat)
    requires p < 0x800
    ensures Two(0xC0 + p / 64, 0x80 + p % 64) == p
  {
  }

  lemma {:induction false} ThreeBack(p: nat)
    requires p < 0x10000
    ensures Three(0xE0 + p / 4096, 0x80 + p / 64 % 64, 0x80 + p % 64) == p
  {
    var q := p / 64;
    Quotients(p);
    ThreeOf(q / 64, q % 64, p % 64);
  }

  lemma {:induction false} ThreeOf(a: nat, b: nat, c: nat)
    requires a < 16 && b < 64 && c < 64
    ensures Three(0xE0 + a, 0x80 + b, 0x80 + c) == 4096 * a + 64 * b + c
  {
  }

  lemma {:induction false} FourBack(p: nat)
    requires p < 0x200000
    ensures Four(0xF0 + p / 262144, 0x80 + p / 4096 % 64, 0x80 + p / 64 % 64, 0x80 + p % 64) == p
  {
    var q, r := p / 64, p / 64 / 64;
    Quotients(p);
    FourOf(r / 64, r % 64, q % 64, p % 64);
  }

  lemma {:induction false} Quotients(p: nat)
    ensures p / 4096 == p / 64 / 64 && p / 262144 == p / 64 / 64 / 64
  {
  }

  lemma {:induction false} FourOf(a: nat, b: nat, c: nat, d: nat)
    requires a < 8 && b < 64 && c < 64 && d < 64
    ensures Four(0xF0 + a, 0x80 + b, 0x80 + c, 0x80 + d) == 262144 * a + 4096 * b + 64 * c + d
  {
  }

  lemma {:induction false} ValueBack(p: Point)
    ensures LengthAt(Encode(p)[0]) == |Encode(p)| && ValueAt(Encode(p)) == p
  {
    if 0x80 <= p < 0x800 {
      TwoBack(p);
    } else if 0x800 <= p < 0x10000 {
      ThreeBack(p);
    } else if 0x10000 <= p {
      FourBack(p);
    }
  }

  lemma {:induction false} ValueAtFront(b: seq<byte>, more: seq<byte>)
    requires b != [] && |b| == LengthAt(b[0])
    ensures ValueAt(b + more) == ValueAt(b)
  {
  }

  lemma {:induction false} FirstBack(p: Point, more: seq<byte>)
    ensures DecodeFirst(Encode(p) + more) == Some(p)
  {
    ValueBack(p);
    ValueAtFront(Encode(p), more);
    assert (Encode(p) + more)[..|Encode(p)|] == Encode(p);
  }

  /** Decoding gives back what was encoded. */
  lemma {:induction false} DecodeBack(ps: seq<Point>)
    ensures DecodeAll(EncodeAll(ps)) == Some(ps)
    decreases |ps|
  {
    if ps == [] {
    } else {
      var rest := EncodeAll(ps[1..]);
      FirstBack(ps[0], rest);
      assert (Encode(ps[0]) + rest)[|Encode(ps[0])|..] == rest;
      DecodeBack(ps[1..]);
      assert ps == [ps[0]] + ps[1..];
    }
  }

  lemma {:induction false} EncodeJoin(a: seq<Point>, b: seq<Point>)
    ensures EncodeAll(a + b) == EncodeAll(a) + EncodeAll(b)
    decreases |a|
  {
    if a == [] {
      assert a + b == b;
    } else {
      assert (a + b)[1..] == a[1..] + b;
      EncodeJoin(a[1..], b);
    }
  }

  /** Octet `i` of the code point behind the first `k`. */
  lemma {:induction false} OctetOf(ps: seq<Point>, k: nat, i: nat)
    requires k < |ps| && i < |Encode(ps[k])|
    ensures |EncodeAll(ps[..k])| + |Encode(ps[k])| == |EncodeAll(ps[..k + 1])| <= |EncodeAll(ps)|
    ensures EncodeAll(ps)[|EncodeAll(ps[..k])| + i] == Encode(ps[k])[i]
  {
    var a, c, b := ps[..k], [ps[k]], ps[k + 1..];
    assert ps == a + c + b && ps[..k + 1] == a + c && c[1..] == [];
    EncodeJoin(a + c, b);
    EncodeJoin(a, c);
    assert EncodeAll(c) == Encode(ps[k]);
  }

  lemma {:induction false} OneUnit(u: Unit)
    ensures Points([u]) == [if IsSurrogate(u) then REPLACEMENT else u]
  {
    assert [u][1..] == [];
  }

  lemma {:induction false} OnePoint(p: Point)
    ensures EncodeAll([p]) == Encode(p)
  {
    assert [p][1..] == [] && Encode(p) + [] == Encode(p);
  }

  /** A letter, the sign of RFC 3629's third example, one beyond 16 bits (of its fifth), and half of such a pair by itself. */
  lemma {:induction false} Examples()
    ensures Octets([0x41]) == [0x41] && Octets([0x65E5]) == [0xE6, 0x97, 0xA5]
    ensures Octets([0xD84C, 0xDFB4]) == [0xF0, 0xA3, 0x8E, 0xB4] && Octets([0xD84C]) == [0xEF, 0xBF, 0xBD]
  {
    OneUnit(0x41);
    OneUnit(0x65E5);
    OneUnit(0xD84C);
    OnePoint(0x41);
    OnePoint(0x65E5);
    OnePoint(0xFFFD);
    var pair: Text := [0xD84C, 0xDFB4];
    assert pair[2..] == [] && Points(pair) == [0x233B4];
    OnePoint(0x233B4);
  }
}
