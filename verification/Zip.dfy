/** The store-only archive writer. */
module Zip {
  import opened Bitwise
  import opened Crc32
  import opened Wrappers

  /** Local time, as a `Date` reports it; the month counts from zero. */
  datatype Stamp = Stamp(year: int, month: nat, day: nat, hours: nat, minutes: nat, seconds: nat)

  predicate IsStamp(s: Stamp) {
    s.month < 12 && 1 <= s.day <= 31 && s.hours < 24 && s.minutes < 60 && s.seconds < 60
  }

  datatype Entry = Entry(name: seq<byte>, data: seq<byte>, mtime: Stamp)

  datatype ZipError = OutOfRange

  const LOCAL_SIGNATURE: nat := 0x04034b50
  const DIR_SIGNATURE: nat := 0x02014b50
  const END_SIGNATURE: nat := 0x06054b50
  const VERSION_NEEDED: nat := 20
  const FLAG_UTF8: nat := 0x0800

  /** `(0o100644 << 16) >>> 0` */
  const EXTERNAL_ATTRIBUTES: nat := 0x81A40000

  // ---- numbers in a buffer, least significant byte first ----

  function LeBytes(v: nat, n: nat): (b: seq<byte>)
    ensures |b| == n
    decreases n
  {
    if n == 0 then [] else [v % 256] + LeBytes(v / 256, n - 1)
  }

  function LeValue(b: seq<byte>): nat {
    if b == [] then 0 else (b[0] as nat) + 256 * LeValue(b[1..])
  }

  /** How many values `n` bytes can hold. */
  function Limit(n: nat): nat {
    if n == 0 then 1 else 256 * Limit(n - 1)
  }

  lemma {:induction false} LeRoundTrip(v: nat, n: nat)
    requires v < Limit(n)
    ensures LeValue(LeBytes(v, n)) == v
    decreases n
  {
    if n == 0 {
    } else {
      LeRoundTrip(v / 256, n - 1);
      assert LeBytes(v, n)[1..] == LeBytes(v / 256, n - 1);
    }
  }

  /** Values one after the other, each in its number of bytes. */
  function Encode(values: seq<nat>, widths: seq<nat>): seq<byte>
    requires |values| == |widths|
  {
    if values == [] then [] else
      var k := |values| - 1;
      Encode(values[..k], widths[..k]) + LeBytes(values[k], widths[k])
  }

  /** Where field `k` begins. */
  function FieldStart(widths: seq<nat>, k: nat): nat
    requires k <= |widths|
  {
    if k == 0 then 0 else FieldStart(widths, k - 1) + widths[k - 1]
  }

  lemma {:induction false} FieldStartsGrow(widths: seq<nat>, a: nat, b: nat)
    requires a <= b <= |widths|
    ensures FieldStart(widths, a) <= FieldStart(widths, b)
  {
    if a >= b {
    } else {
      FieldStartsGrow(widths, a, b - 1);
    }
  }

  lemma {:induction false} PrefixStart(widths: seq<nat>, n: nat, k: nat)
    requires k <= n <= |widths|
    ensures FieldStart(widths[..n], k) == FieldStart(widths, k)
  {
    if k == 0 {
    } else {
      PrefixStart(widths, n, k - 1);
    }
  }

  lemma {:induction false} EncodeAt(values: seq<nat>, widths: seq<nat>, k: nat)
    requires |values| == |widths| && k < |values|
    ensures |Encode(values, widths)| == FieldStart(widths, |widths|)
    ensures FieldStart(widths, k) <= FieldStart(widths, k + 1) <= FieldStart(widths, |widths|)
    ensures Encode(values, widths)[FieldStart(widths, k)..FieldStart(widths, k + 1)] == LeBytes(values[k], widths[k])
    decreases |values|
  {
    var n := |values| - 1;
    EncodeLength(values[..n], widths[..n]);
    PrefixStart(widths, n, n);
    FieldStartsGrow(widths, k + 1, |widths|);
    if k >= n {
    } else {
      EncodeAt(values[..n], widths[..n], k);
      PrefixStart(widths, n, k);
      PrefixStart(widths, n, k + 1);
    }
  }

  lemma {:induction false} EncodeLength(values: seq<nat>, widths: seq<nat>)
    requires |values| == |widths|
    ensures |Encode(values, widths)| == FieldStart(widths, |widths|)
    decreases |values|
  {
    if values == [] {
    } else {
      var n := |values| - 1;
      EncodeLength(values[..n], widths[..n]);
      PrefixStart(widths, n, n);
    }
  }

  /** Each value fits its field. */
  predicate AllFit(values: seq<nat>, widths: seq<nat>)
    requires |values| == |widths|
  {
    forall k :: 0 <= k < |values| ==> values[k] < Limit(widths[k])
  }

  // ---- writing a record into a buffer ----

  /** A record under construction: the fields so far fill the buffer up to `at`. */
  ghost predicate Filled(buf: array<byte>, at: nat, values: seq<nat>, widths: seq<nat>)
    reads buf
  {
    at <= buf.Length && |values| == |widths| && AllFit(values, widths) && buf[..at] == Encode(values, widths)
  }

  /** `writeUInt16LE` and `writeUInt32LE`: nothing is written if the value needs more bytes. */
  method WriteUIntLE(buf: array<byte>, value: nat, at: nat, width: nat, ghost values: seq<nat>, ghost widths: seq<nat>) returns (ok: bool)
    requires at + width <= buf.Length && Filled(buf, at, values, widths)
    modifies buf
    ensures ok <==> value < Limit(width)
    ensures ok ==> Filled(buf, at + width, values + [value], widths + [width])
  {
    if value >= Limit(width) {
      return false;
    }
    var rest := value;
    for i := 0 to width
      invariant buf[..at] == old(buf[..at])
      invariant buf[at..at + i] + LeBytes(rest, width - i) == LeBytes(value, width)
    {
      ghost var before := buf[at..at + i];
      buf[at + i] := rest % 256;
      assert buf[at..at + i] == before && buf[at..at + i + 1] == buf[at..at + i] + [buf[at + i]];
      NextByte(before, rest, width - i, LeBytes(value, width));
      rest := rest / 256;
    }
    assert buf[..at + width] == buf[..at] + buf[at..at + width];
    EncodeSnoc(values, widths, value, width);
    ok := true;
  }

  lemma {:induction false} NextByte(before: seq<byte>, rest: nat, n: nat, whole: seq<byte>)
    requires n > 0 && before + LeBytes(rest, n) == whole
    ensures before + [(rest % 256) as byte] + LeBytes(rest / 256, n - 1) == whole
  {
  }

  lemma {:induction false} EncodeSnoc(values: seq<nat>, widths: seq<nat>, value: nat, width: nat)
    requires |values| == |widths|
    ensures Encode(values + [value], widths + [width]) == Encode(values, widths) + LeBytes(value, width)
  {
    assert (values + [value])[..|values|] == values && (widths + [width])[..|widths|] == widths;
  }

  lemma {:induction false} LimitValues()
    ensures Limit(2) == 65536 && Limit(4) == WORD
  {
    assert Limit(1) == 256;
    assert Limit(3) == 16777216;
  }

  // ---- the three records ----

  /** What both headers of an entry record about it. */
  datatype Facts = Facts(time: nat, date: nat, crc: nat, size: nat, nameLength: nat)

  const LOCAL_WIDTHS: seq<nat> := [4, 2, 2, 2, 2, 2, 4, 4, 4, 2, 2]
  const DIR_WIDTHS: seq<nat> := [4, 2, 2, 2, 2, 2, 2, 4, 4, 4, 2, 2, 2, 2, 2, 4, 4]
  const END_WIDTHS: seq<nat> := [4, 2, 2, 2, 2, 4, 4, 2]

  function LocalValues(f: Facts): (v: seq<nat>)
    ensures |v| == 11
  {
    [LOCAL_SIGNATURE, VERSION_NEEDED, FLAG_UTF8, 0, f.time, f.date, f.crc, f.size, f.size, f.nameLength, 0]
  }

  function DirValues(f: Facts, offset: nat): (v: seq<nat>)
    ensures |v| == 17
  {
    [DIR_SIGNATURE, VERSION_NEEDED, VERSION_NEEDED, FLAG_UTF8, 0, f.time, f.date, f.crc, f.size, f.size, f.nameLength,
     0, 0, 0, 0, EXTERNAL_ATTRIBUTES, offset]
  }

  function EndValues(count: nat, size: nat, offset: nat): (v: seq<nat>)
    ensures |v| == 8
  {
    [END_SIGNATURE, 0, 0, count, count, size, offset, 0]
  }

  predicate Fits(f: Facts) {
    f.time < 65536 && f.date < 65536 && f.crc < WORD && f.size < WORD && f.nameLength < 65536
  }

  /** The record of these values, written field by field at increasing offsets. */
  method WriteRecord(size: nat, values: seq<nat>, widths: seq<nat>) returns (r: Result<seq<byte>, ZipError>)
    requires |values| == |widths| && FieldStart(widths, |widths|) == size
    ensures r.Success? <==> AllFit(values, widths)
    ensures r.Success? ==> r.value == Encode(values, widths)
  {
    var buf := new byte[size](_ => 0);
    var at := 0;
    for k := 0 to |values|
      invariant at == FieldStart(widths, k) && buf.Length == size
      invariant Filled(buf, at, values[..k], widths[..k])
    {
      FieldStartsGrow(widths, k + 1, |widths|);
      var ok := WriteUIntLE(buf, values[k], at, widths[k], values[..k], widths[..k]);
      if !ok {
        return Failure(OutOfRange);
      }
      at := at + widths[k];
      assert values[..k + 1] == values[..k] + [values[k]] && widths[..k + 1] == widths[..k] + [widths[k]];
    }
    assert values[..|values|] == values && widths[..|widths|] == widths && buf[..at] == buf[..];
    r := Success(buf[..]);
  }

  /** Offsets that begin at zero and grow by the widths are where the fields begin. */
  lemma {:induction false} StartsAre(widths: seq<nat>, offsets: seq<nat>, k: nat)
    requires |offsets| == |widths| + 1 && k <= |widths| && offsets[0] == 0
    requires forall i :: 0 <= i < |widths| ==> offsets[i + 1] == offsets[i] + widths[i]
    ensures FieldStart(widths, k) == offsets[k]
  {
    if k == 0 {
    } else {
      StartsAre(widths, offsets, k - 1);
    }
  }

  /** The offsets at which the program writes the fields, with the size of the record at the end. */
  const LOCAL_OFFSETS: seq<nat> := [0, 4, 6, 8, 10, 12, 14, 18, 22, 26, 28, 30]
  const DIR_OFFSETS: seq<nat> := [0, 4, 6, 8, 10, 12, 14, 16, 20, 24, 28, 30, 32, 34, 36, 38, 42, 46]
  const END_OFFSETS: seq<nat> := [0, 4, 6, 8, 10, 12, 16, 20, 22]

  lemma {:induction false} Starts()
    ensures |LOCAL_WIDTHS| == 11 && FieldStart(LOCAL_WIDTHS, 11) == 30
    ensures |DIR_WIDTHS| == 17 && FieldStart(DIR_WIDTHS, 17) == 46
    ensures |END_WIDTHS| == 8 && FieldStart(END_WIDTHS, 8) == 22
    ensures forall k :: 0 <= k <= 11 ==> FieldStart(LOCAL_WIDTHS, k) == LOCAL_OFFSETS[k]
    ensures forall k :: 0 <= k <= 17 ==> FieldStart(DIR_WIDTHS, k) == DIR_OFFSETS[k]
    ensures forall k :: 0 <= k <= 8 ==> FieldStart(END_WIDTHS, k) == END_OFFSETS[k]
  {
    forall k | 0 <= k <= 11
      ensures FieldStart(LOCAL_WIDTHS, k) == LOCAL_OFFSETS[k]
    {
      StartsAre(LOCAL_WIDTHS, LOCAL_OFFSETS, k);
    }
    forall k | 0 <= k <= 17
      ensures FieldStart(DIR_WIDTHS, k) == DIR_OFFSETS[k]
    {
      StartsAre(DIR_WIDTHS, DIR_OFFSETS, k);
    }
    forall k | 0 <= k <= 8
      ensures FieldStart(END_WIDTHS, k) == END_OFFSETS[k]
    {
      StartsAre(END_WIDTHS, END_OFFSETS, k);
    }
  }

  lemma {:induction false} Sizes()
    ensures |LOCAL_WIDTHS| == 11 && FieldStart(LOCAL_WIDTHS, |LOCAL_WIDTHS|) == 30
    ensures |DIR_WIDTHS| == 17 && FieldStart(DIR_WIDTHS, |DIR_WIDTHS|) == 46
    ensures |END_WIDTHS| == 8 && FieldStart(END_WIDTHS, |END_WIDTHS|) == 22
  {
    Starts();
  }

  function LocalBytes(f: Facts): (h: seq<byte>)
    ensures |h| == 30
  {
    Sizes();
    EncodeLength(LocalValues(f), LOCAL_WIDTHS);
    Encode(LocalValues(f), LOCAL_WIDTHS)
  }

  function DirBytes(f: Facts, offset: nat): (h: seq<byte>)
    ensures |h| == 46
  {
    Sizes();
    EncodeLength(DirValues(f, offset), DIR_WIDTHS);
    Encode(DirValues(f, offset), DIR_WIDTHS)
  }

  function EndBytes(count: nat, size: nat, offset: nat): (h: seq<byte>)
    ensures |h| == 22
  {
    Sizes();
    EncodeLength(EndValues(count, size, offset), END_WIDTHS);
    Encode(EndValues(count, size, offset), END_WIDTHS)
  }

  /** The fixed fields always fit, so it is the others that decide. */
  lemma {:induction false} LocalFit(f: Facts)
    ensures |LOCAL_WIDTHS| == 11 && (AllFit(LocalValues(f), LOCAL_WIDTHS) <==> Fits(f))
  {
    LimitValues();
    var v, w := LocalValues(f), LOCAL_WIDTHS;
    assert v[4] == f.time && v[5] == f.date && v[6] == f.crc && v[7] == f.size && v[9] == f.nameLength;
    assert w[4] == 2 && w[5] == 2 && w[6] == 4 && w[7] == 4 && w[9] == 2;
  }

  lemma {:induction false} DirFit(f: Facts, offset: nat)
    ensures |DIR_WIDTHS| == 17 && (AllFit(DirValues(f, offset), DIR_WIDTHS) <==> Fits(f) && offset < WORD)
  {
    LimitValues();
    var v, w := DirValues(f, offset), DIR_WIDTHS;
    assert v[5] == f.time && v[6] == f.date && v[7] == f.crc && v[8] == f.size && v[10] == f.nameLength && v[16] == offset;
    assert w[5] == 2 && w[6] == 2 && w[7] == 4 && w[8] == 4 && w[10] == 2 && w[16] == 4;
  }

  lemma {:induction false} EndFit(count: nat, size: nat, offset: nat)
    ensures |END_WIDTHS| == 8
    ensures AllFit(EndValues(count, size, offset), END_WIDTHS) <==> count < 65536 && size < WORD && offset < WORD
  {
    LimitValues();
    var v, w := EndValues(count, size, offset), END_WIDTHS;
    assert v[3] == count && v[5] == size && v[6] == offset && w[3] == 2 && w[5] == 4 && w[6] == 4;
  }

  // ---- the time stamp ----

  function DosTime(s: Stamp): nat {
    2048 * s.hours + 32 * s.minutes + s.seconds / 2
  }

  /** Years before 1980 count as 1980. */
  function DosYear(s: Stamp): nat {
    if s.year < 1980 then 0 else s.year - 1980
  }

  function DosDate(s: Stamp): nat {
    512 * DosYear(s) + 32 * (s.month + 1) + s.day
  }

  lemma {:induction false} OrFields(high: nat, a: nat, middle: nat, low: nat)
    requires middle < Pow2(a) && low < 32
    ensures Or(Or(Shl(high, a + 5), Shl(middle, 5)), low) == Shl(Shl(high, a) + middle, 5) + low
  {
    assert Pow2(5) == 32;
    ShlTwice(high, a, 5);
    ShlLess(middle, a, 5);
    OrDisjoint(high, Shl(middle, 5), a + 5);
    ShlAdds(Shl(high, a), middle, 5);
    OrDisjoint(Shl(high, a) + middle, low, 5);
  }

  lemma {:induction false} ShlTwice(v: nat, a: nat, b: nat)
    ensures Shl(v, a + b) == Shl(Shl(v, a), b)
  {
    if b == 0 {
    } else {
      ShlTwice(v, a, b - 1);
    }
  }

  lemma {:induction false} ShlLess(v: nat, a: nat, b: nat)
    requires v < Pow2(a)
    ensures Shl(v, b) < Pow2(a + b)
  {
    if b == 0 {
    } else {
      ShlLess(v, a, b - 1);
    }
  }

  lemma {:induction false} ShlAdds(v: nat, w: nat, b: nat)
    ensures Shl(v, b) + Shl(w, b) == Shl(v + w, b)
  {
    if b == 0 {
    } else {
      ShlAdds(v, w, b - 1);
    }
  }

  lemma {:induction false} ShlNumbers(v: nat)
    ensures Shl(v, 4) == 16 * v && Shl(v, 5) == 32 * v && Shl(v, 6) == 64 * v
  {
    assert Pow2(4) == 16 && Pow2(5) == 32 && Pow2(6) == 64;
    ShlIsProduct(v, 4);
    ShlIsProduct(v, 5);
    ShlIsProduct(v, 6);
  }

  lemma {:induction false} PackedTime(hours: nat, minutes: nat, half: nat)
    requires minutes < 64 && half < 32
    ensures Or(Or(Shl(hours, 11), Shl(minutes, 5)), half) == 2048 * hours + 32 * minutes + half
  {
    assert Pow2(6) == 64;
    OrFields(hours, 6, minutes, half);
    ShlNumbers(hours);
    ShlNumbers(64 * hours + minutes);
  }

  lemma {:induction false} PackedDate(years: nat, month: nat, day: nat)
    requires month < 16 && day < 32
    ensures Or(Or(Shl(years, 9), Shl(month, 5)), day) == 512 * years + 32 * month + day
  {
    assert Pow2(4) == 16;
    OrFields(years, 4, month, day);
    ShlNumbers(years);
    ShlNumbers(16 * years + month);
  }

  /** The packed time and date, field by field. */
  method DosDateTime(s: Stamp) returns (time: nat, date: nat)
    requires IsStamp(s)
    ensures time == DosTime(s) && date == DosDate(s)
  {
    var year: int := if s.year > 1980 then s.year else 1980;
    PackedTime(s.hours, s.minutes, s.seconds / 2);
    time := Or(Or(Shl(s.hours, 11), Shl(s.minutes, 5)), s.seconds / 2);
    PackedDate(year - 1980, s.month + 1, s.day);
    date := Or(Or(Shl(year - 1980, 9), Shl(s.month + 1, 5)), s.day);
  }

  /** The time stamp reads back, to two seconds, and a year before 1980 as 1980. */
  lemma {:induction false} StampReadsBack(s: Stamp)
    requires IsStamp(s)
    ensures DosTime(s) < 65536 && (DosDate(s) < 65536 <==> s.year <= 2107)
    ensures DosTime(s) / 2048 == s.hours && DosTime(s) / 32 % 64 == s.minutes && DosTime(s) % 32 == s.seconds / 2
    ensures 1980 + DosDate(s) / 512 == if s.year < 1980 then 1980 else s.year
    ensures DosDate(s) / 32 % 16 == s.month + 1 && DosDate(s) % 32 == s.day
  {
    TimeFields(s.hours, s.minutes, s.seconds / 2);
    DateFields(DosYear(s), s.month + 1, s.day);
  }

  lemma {:induction false} TimeFields(a: nat, b: nat, c: nat)
    requires b < 64 && c < 32
    ensures var v := 2048 * a + 32 * b + c; v / 2048 == a && v / 32 % 64 == b && v % 32 == c
  {
    var v := 2048 * a + 32 * b + c;
    assert v / 32 == 64 * a + b;
  }

  lemma {:induction false} DateFields(a: nat, b: nat, c: nat)
    requires b < 16 && c < 32
    ensures var v := 512 * a + 32 * b + c; v / 512 == a && v / 32 % 16 == b && v % 32 == c
  {
    var v := 512 * a + 32 * b + c;
    assert v / 32 == 16 * a + b;
  }

  // ---- the archive ----

  function FactsOf(e: Entry): Facts {
    Facts(DosTime(e.mtime), DosDate(e.mtime), Crc(e.data), |e.data|, |e.name|)
  }

  ghost predicate AreFacts(entries: seq<Entry>, facts: seq<Facts>) {
    |facts| == |entries| && forall k :: 0 <= k < |facts| ==> facts[k] == FactsOf(entries[k])
  }

  /** Where the local header of entry `k` begins; the directory begins where entry `|entries|` would. */
  function Offset(entries: seq<Entry>, k: nat): nat
    requires k <= |entries|
  {
    if k == 0 then 0 else Offset(entries, k - 1) + 30 + |entries[k - 1].name| + |entries[k - 1].data|
  }

  /** Where in the directory the record of entry `k` begins. */
  function DirOffset(entries: seq<Entry>, k: nat): nat
    requires k <= |entries|
  {
    if k == 0 then 0 else DirOffset(entries, k - 1) + 46 + |entries[k - 1].name|
  }

  function LocalChunk(e: Entry, f: Facts): seq<byte> {
    LocalBytes(f) + (e.name + e.data)
  }

  function DirChunk(e: Entry, f: Facts, offset: nat): seq<byte> {
    DirBytes(f, offset) + e.name
  }

  /** The first `n` entries: header, name and data of each. */
  function Body(entries: seq<Entry>, facts: seq<Facts>, n: nat): (s: seq<byte>)
    requires n <= |entries| && n <= |facts|
    ensures |s| == Offset(entries, n)
    decreases n
  {
    if n == 0 then [] else Body(entries, facts, n - 1) + LocalChunk(entries[n - 1], facts[n - 1])
  }

  /** Their directory records, each pointing at the local header. */
  function Directory(entries: seq<Entry>, facts: seq<Facts>, n: nat): (s: seq<byte>)
    requires n <= |entries| && n <= |facts|
    ensures |s| == DirOffset(entries, n)
    decreases n
  {
    if n == 0 then [] else
      Directory(entries, facts, n - 1) + DirChunk(entries[n - 1], facts[n - 1], Offset(entries, n - 1))
  }

  function Archive(entries: seq<Entry>, facts: seq<Facts>): seq<byte>
    requires |facts| == |entries|
  {
    var n := |entries|;
    Body(entries, facts, n) + Directory(entries, facts, n) + EndBytes(n, DirOffset(entries, n), Offset(entries, n))
  }

  /** Everything that has to fit into a field of the format does. */
  ghost predicate Representable(entries: seq<Entry>) {
    && |entries| < 65536 && Offset(entries, |entries|) < WORD && DirOffset(entries, |entries|) < WORD
    && forall k :: 0 <= k < |entries| ==> Fits(FactsOf(entries[k]))
  }

  lemma {:induction false} OffsetsGrow(entries: seq<Entry>, a: nat, b: nat)
    requires a <= b <= |entries|
    ensures Offset(entries, a) <= Offset(entries, b) && DirOffset(entries, a) <= DirOffset(entries, b)
  {
    if a >= b {
    } else {
      OffsetsGrow(entries, a, b - 1);
    }
  }

  method FactsFor(e: Entry) returns (f: Facts)
    requires IsStamp(e.mtime)
    ensures f == FactsOf(e)
  {
    var crc := Crc32Of(e.data);
    var time, date := DosDateTime(e.mtime);
    f := Facts(time, date, crc, |e.data|, |e.name|);
  }

  method LocalRecord(f: Facts) returns (r: Result<seq<byte>, ZipError>)
    ensures r.Success? <==> Fits(f)
    ensures r.Success? ==> r.value == LocalBytes(f)
  {
    Sizes();
    LocalFit(f);
    r := WriteRecord(30, LocalValues(f), LOCAL_WIDTHS);
  }

  method DirRecord(f: Facts, offset: nat) returns (r: Result<seq<byte>, ZipError>)
    ensures r.Success? <==> Fits(f) && offset < WORD
    ensures r.Success? ==> r.value == DirBytes(f, offset)
  {
    Sizes();
    DirFit(f, offset);
    r := WriteRecord(46, DirValues(f, offset), DIR_WIDTHS);
  }

  /** What one entry adds to the body and to the directory. */
  method Chunks(e: Entry, f: Facts, offset: nat) returns (r: Result<(seq<byte>, seq<byte>), ZipError>)
    ensures r.Success? <==> Fits(f) && offset < WORD
    ensures r.Success? ==> r.value.0 == LocalChunk(e, f) && r.value.1 == DirChunk(e, f, offset)
  {
    var local := LocalRecord(f);
    if local.Failure? {
      return Failure(OutOfRange);
    }
    var dir := DirRecord(f, offset);
    if dir.Failure? {
      return Failure(OutOfRange);
    }
    r := Success((local.value + (e.name + e.data), dir.value + e.name));
  }

  ghost predicate AllFitSoFar(entries: seq<Entry>, facts: seq<Facts>, n: nat) {
    n <= |facts| && n <= |entries| && forall k :: 0 <= k < n ==> facts[k] == FactsOf(entries[k]) && Fits(facts[k])
  }

  method PackOne(entries: seq<Entry>, k: nat, body: seq<byte>, central: seq<byte>, ghost facts: seq<Facts>)
    returns (ok: bool, body': seq<byte>, central': seq<byte>, ghost f: Facts)
    requires k == |facts| < |entries| && IsStamp(entries[k].mtime)
    requires body == Body(entries, facts, k) && central == Directory(entries, facts, k)
    ensures f == FactsOf(entries[k]) && (ok <==> Fits(f) && Offset(entries, k) < WORD)
    ensures ok ==> body' == Body(entries, facts + [f], k + 1) && central' == Directory(entries, facts + [f], k + 1)
  {
    var known := FactsFor(entries[k]);
    f := known;
    var chunks := Chunks(entries[k], known, |body|);
    if chunks.Failure? {
      return false, body, central, f;
    }
    PackStep(entries, facts, f, k);
    ok, body', central' := true, body + chunks.value.0, central + chunks.value.1;
  }

  /** The entries one after the other; fails at the first that does not fit. */
  method PackEntries(entries: seq<Entry>) returns (ok: bool, body: seq<byte>, central: seq<byte>, ghost facts: seq<Facts>)
    requires forall k :: 0 <= k < |entries| ==> IsStamp(entries[k].mtime)
    ensures !ok ==> !Representable(entries)
    ensures ok ==> |facts| == |entries| && AllFitSoFar(entries, facts, |entries|)
    ensures ok ==> body == Body(entries, facts, |entries|) && central == Directory(entries, facts, |entries|)
  {
    body, central, facts := [], [], [];
    for k := 0 to |entries|
      invariant |facts| == k && AllFitSoFar(entries, facts, k)
      invariant body == Body(entries, facts, k) && central == Directory(entries, facts, k)
    {
      ghost var f;
      ok, body, central, f := PackOne(entries, k, body, central, facts);
      if !ok {
        NotRepresentable(entries, k, f);
        return;
      }
      FitStep(entries, facts, f, k);
      facts := facts + [f];
    }
    ok := true;
  }

  lemma {:induction false} MoreFacts(entries: seq<Entry>, facts: seq<Facts>, f: Facts, n: nat)
    requires n <= |facts| && n <= |entries|
    ensures Body(entries, facts + [f], n) == Body(entries, facts, n)
    ensures Directory(entries, facts + [f], n) == Directory(entries, facts, n)
    decreases n
  {
    if n == 0 {
    } else {
      MoreFacts(entries, facts, f, n - 1);
    }
  }

  lemma {:induction false} PackStep(entries: seq<Entry>, facts: seq<Facts>, f: Facts, k: nat)
    requires k == |facts| < |entries|
    ensures Body(entries, facts + [f], k + 1) == Body(entries, facts, k) + LocalChunk(entries[k], f)
    ensures Directory(entries, facts + [f], k + 1) == Directory(entries, facts, k) + DirChunk(entries[k], f, Offset(entries, k))
  {
    MoreFacts(entries, facts, f, k);
  }

  lemma {:induction false} FitStep(entries: seq<Entry>, facts: seq<Facts>, f: Facts, k: nat)
    requires k == |facts| < |entries| && AllFitSoFar(entries, facts, k) && f == FactsOf(entries[k]) && Fits(f)
    ensures AllFitSoFar(entries, facts + [f], k + 1)
  {
  }

  lemma {:induction false} NotRepresentable(entries: seq<Entry>, k: nat, f: Facts)
    requires k < |entries| && f == FactsOf(entries[k]) && !(Fits(f) && Offset(entries, k) < WORD)
    ensures !Representable(entries)
  {
    OffsetsGrow(entries, k, |entries|);
  }

  lemma {:induction false} AllRepresentable(entries: seq<Entry>, facts: seq<Facts>)
    requires |facts| == |entries| && AllFitSoFar(entries, facts, |entries|)
    ensures AreFacts(entries, facts)
    ensures Representable(entries) <==>
      |entries| < 65536 && Offset(entries, |entries|) < WORD && DirOffset(entries, |entries|) < WORD
  {
    forall k | 0 <= k < |entries|
      ensures Fits(FactsOf(entries[k]))
    {
      assert Fits(facts[k]);
    }
  }

  method EndRecord(count: nat, size: nat, offset: nat) returns (r: Result<seq<byte>, ZipError>)
    ensures r.Success? <==> count < 65536 && size < WORD && offset < WORD
    ensures r.Success? ==> r.value == EndBytes(count, size, offset)
  {
    Sizes();
    EndFit(count, size, offset);
    r := WriteRecord(22, EndValues(count, size, offset), END_WIDTHS);
  }

  /** Fails exactly when something does not fit its field; otherwise writes the archive. */
  method ZipStore(entries: seq<Entry>) returns (r: Result<seq<byte>, ZipError>, ghost facts: seq<Facts>)
    requires forall k :: 0 <= k < |entries| ==> IsStamp(entries[k].mtime)
    ensures r.Success? <==> Representable(entries)
    ensures r.Success? ==> AreFacts(entries, facts) && r.value == Archive(entries, facts)
  {
    var ok, body, central;
    ok, body, central, facts := PackEntries(entries);
    if !ok {
      return Failure(OutOfRange), facts;
    }
    AllRepresentable(entries, facts);
    var end := EndRecord(|entries|, |central|, |body|);
    if end.Failure? {
      return Failure(end.error), facts;
    }
    r := Success(body + central + end.value);
  }
}
