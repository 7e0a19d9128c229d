/** A reader of stored archives, written from ZIP APPNOTE sections 4.3.7, 4.3.12 and 4.3.16, and what it makes of a written one. */
module ZipReader {
  import opened Bitwise
  import opened Crc32
  import opened Sequences
  import opened Wrappers
  import opened Zip

  // ---- the reader ----

  /** The slice of `n` bytes at a place, if there are that many. */
  function Slice(s: seq<byte>, at: nat, n: nat): (r: Option<seq<byte>>)
    ensures r.Some? ==> |r.value| == n
  {
    if at + n <= |s| then Some(s[at..at + n]) else None
  }

  /** Two bytes, the lower one first. */
  function U16(h: seq<byte>, at: nat): nat
    requires at + 2 <= |h|
  {
    (h[at] as nat) + 256 * (h[at + 1] as nat)
  }

  function U32(h: seq<byte>, at: nat): nat
    requires at + 4 <= |h|
  {
    U16(h, at) + 65536 * U16(h, at + 2)
  }

  /** What a directory record says, with the name behind it. */
  datatype Record = Record(name: seq<byte>, time: nat, date: nat, crc: nat, size: nat, offset: nat)

  datatype Extracted = Extracted(name: seq<byte>, data: seq<byte>, time: nat, date: nat)

  /** What is the same in both headers: version 2.0, a name in UTF-8, nothing encrypted or compressed, no data descriptor. */
  predicate PlainlyStored(version: nat, flags: nat, compression: nat) {
    version == 20 && flags == 2048 && compression == 0
  }

  /** A regular file on the first disk that its owner may write and everyone may read. */
  predicate OrdinaryFile(disk: nat, internalAttributes: nat, externalAttributes: nat) {
    disk == 0 && internalAttributes == 0 && externalAttributes / 65536 == 0x81a4 && externalAttributes % 65536 == 0
  }

  /** A record of a stored entry, with the number of bytes of name, extra field and comment. */
  function ParseDir(h: seq<byte>): Option<(Record, nat, nat)>
    requires |h| == 46
  {
    if U32(h, 0) != 0x02014b50 || U16(h, 4) != 20 || !PlainlyStored(U16(h, 6), U16(h, 8), U16(h, 10)) || U32(h, 20) != U32(h, 24)
      || !OrdinaryFile(U16(h, 34), U16(h, 36), U32(h, 38)) then None
    else Some((Record([], U16(h, 12), U16(h, 14), U32(h, 16), U32(h, 24), U32(h, 42)), U16(h, 28), U16(h, 30) + U16(h, 32)))
  }

  /** The directory record at a place, and the place of the next. */
  function NextRecord(s: seq<byte>, at: nat): Option<(Record, nat)> {
    match Slice(s, at, 46)
    case None => None
    case Some(h) =>
      (match ParseDir(h)
       case None => None
       case Some((record, nameLength, more)) =>
         (match Slice(s, at + 46, nameLength)
          case None => None
          case Some(name) => Some((record.(name := name), at + 46 + nameLength + more))))
  }

  /** `count` directory records from `at` to exactly `limit`, each found by `next`. */
  function Walk(next: nat -> Option<(Record, nat)>, at: nat, limit: nat, count: nat): Option<seq<Record>>
    decreases count
  {
    if count == 0 then (if at == limit then Some([]) else None) else
      match next(at)
      case None => None
      case Some((record, after)) => Prepend(record, Walk(next, after, limit, count - 1))
  }

  function Prepend<T>(first: T, rest: Option<seq<T>>): Option<seq<T>> {
    match rest
    case None => None
    case Some(r) => Some([first] + r)
  }

  /** The local header says of its entry what the directory says. */
  predicate Agrees(h: seq<byte>, record: Record)
    requires |h| == 30
  {
    && U32(h, 0) == 0x04034b50 && PlainlyStored(U16(h, 4), U16(h, 6), U16(h, 8))
    && U16(h, 10) == record.time && U16(h, 12) == record.date && U32(h, 14) == record.crc
    && U32(h, 18) == record.size && U32(h, 22) == record.size
  }

  /** The data behind a local header, if there is one here and it agrees with the record, its name included. */
  function ReadLocal(s: seq<byte>, record: Record): Option<seq<byte>> {
    match Slice(s, record.offset, 30)
    case None => None
    case Some(h) =>
      if !Agrees(h, record) || Slice(s, record.offset + 30, U16(h, 26)) != Some(record.name) then None
      else Slice(s, record.offset + 30 + U16(h, 26) + U16(h, 28), record.size)
  }

  /** The entry that a directory record points at, if its data passes the check. */
  function Fetch(s: seq<byte>, record: Record): Option<Extracted> {
    match ReadLocal(s, record)
    case None => None
    case Some(data) =>
      if Crc(data) != record.crc then None else Some(Extracted(record.name, data, record.time, record.date))
  }

  function FetchAll(fetch: Record -> Option<Extracted>, records: seq<Record>): Option<seq<Extracted>> {
    if records == [] then Some([]) else
      match fetch(records[0])
      case None => None
      case Some(first) => Prepend(first, FetchAll(fetch, records[1..]))
  }

  /** Offset and size of the directory, and the number of records in it. */
  function ParseEnd(h: seq<byte>): Option<(nat, nat, nat)>
    requires |h| == 22
  {
    if U32(h, 0) != 0x06054b50 || U16(h, 4) != 0 || U16(h, 6) != 0 || U16(h, 8) != U16(h, 10) || U16(h, 20) != 0 then None
    else Some((U32(h, 16), U32(h, 12), U16(h, 10)))
  }

  /** The reader after its end record, with the steps it takes as parameters. */
  function ReadEntries(next: nat -> Option<(Record, nat)>, fetch: Record -> Option<Extracted>, offset: nat, size: nat, count: nat): Option<seq<Extracted>> {
    match Walk(next, offset, offset + size, count)
    case None => None
    case Some(records) => FetchAll(fetch, records)
  }

  /** End record, then the directory it points at, then each local header that the directory points at. */
  function ReadArchive(s: seq<byte>): Option<seq<Extracted>> {
    if |s| < 22 then None else
      match ParseEnd(s[|s| - 22..])
      case None => None
      case Some((offset, size, count)) =>
        if offset + size + 22 != |s| then None else
          ReadEntries(p => NextRecord(s, p), r => Fetch(s, r), offset, size, count)
  }

  // ---- what it reads ----

  lemma {:induction false} TwoBytes(b: seq<byte>)
    requires |b| == 2
    ensures LeValue(b) == U16(b, 0)
  {
    var rest := b[1..];
    assert rest[0] == b[1] && rest[1..] == [];
    assert LeValue(rest) == (b[1] as nat) + 256 * LeValue(rest[1..]);
  }

  lemma {:induction false} FourBytes(b: seq<byte>)
    requires |b| == 4
    ensures LeValue(b) == U32(b, 0)
  {
    var rest, last := b[1..], b[2..];
    assert rest[0] == b[1] && rest[1..] == last && last[0] == b[2] && last[1] == b[3];
    TwoBytes(last);
    assert U16(last, 0) == U16(b, 2);
    assert LeValue(rest) == (b[1] as nat) + 256 * LeValue(b[2..]);
    assert LeValue(b) == (b[0] as nat) + 256 * LeValue(rest);
    assert U16(b, 0) == (b[0] as nat) + 256 * (b[1] as nat);
  }

  /** A field of two bytes reads as the value written into it. */
  lemma {:induction false} Reads16(values: seq<nat>, widths: seq<nat>, k: nat, at: nat)
    requires |values| == |widths| && AllFit(values, widths) && k < |values|
    requires widths[k] == 2 && FieldStart(widths, k) == at && FieldStart(widths, k + 1) == at + 2
    ensures at + 2 <= |Encode(values, widths)| && U16(Encode(values, widths), at) == values[k]
  {
    EncodeAt(values, widths, k);
    LeRoundTrip(values[k], 2);
    TwoBytes(Encode(values, widths)[at..at + 2]);
  }

  lemma {:induction false} Reads32(values: seq<nat>, widths: seq<nat>, k: nat, at: nat)
    requires |values| == |widths| && AllFit(values, widths) && k < |values|
    requires widths[k] == 4 && FieldStart(widths, k) == at && FieldStart(widths, k + 1) == at + 4
    ensures at + 4 <= |Encode(values, widths)| && U32(Encode(values, widths), at) == values[k]
  {
    EncodeAt(values, widths, k);
    LeRoundTrip(values[k], 4);
    FourBytes(Encode(values, widths)[at..at + 4]);
  }

  lemma {:induction false} LocalStart(k: nat)
    requires k < |LOCAL_WIDTHS|
    ensures |LOCAL_WIDTHS| + 1 == |LOCAL_OFFSETS| && FieldStart(LOCAL_WIDTHS, k) == LOCAL_OFFSETS[k]
  {
    Starts();
  }

  lemma {:induction false} LocalReads16(f: Facts, k: nat, at: nat, v: nat)
    requires Fits(f) && k < 11 && LocalValues(f)[k] == v && LOCAL_WIDTHS[k] == 2 && LOCAL_OFFSETS[k] == at
    ensures at + 2 <= 30 && U16(LocalBytes(f), at) == v
  {
    LocalStart(k);
    LocalFit(f);
    Reads16(LocalValues(f), LOCAL_WIDTHS, k, at);
  }

  lemma {:induction false} LocalReads32(f: Facts, k: nat, at: nat, v: nat)
    requires Fits(f) && k < 11 && LocalValues(f)[k] == v && LOCAL_WIDTHS[k] == 4 && LOCAL_OFFSETS[k] == at
    ensures at + 4 <= 30 && U32(LocalBytes(f), at) == v
  {
    LocalStart(k);
    LocalFit(f);
    Reads32(LocalValues(f), LOCAL_WIDTHS, k, at);
  }

  lemma {:induction false} LocalFixed(f: Facts)
    requires Fits(f)
    ensures var h := LocalBytes(f); U32(h, 0) == 0x04034b50 && PlainlyStored(U16(h, 4), U16(h, 6), U16(h, 8)) && U16(h, 28) == 0
  {
    LocalReads32(f, 0, 0, 0x04034b50);
    LocalReads16(f, 1, 4, 20);
    LocalReads16(f, 2, 6, 2048);
    LocalReads16(f, 3, 8, 0);
    LocalReads16(f, 10, 28, 0);
  }

  lemma {:induction false} LocalStated(f: Facts)
    requires Fits(f)
    ensures var h := LocalBytes(f);
      && U16(h, 10) == f.time && U16(h, 12) == f.date && U32(h, 14) == f.crc && U32(h, 18) == U32(h, 22) == f.size
      && U16(h, 26) == f.nameLength
  {
    LocalReads16(f, 4, 10, f.time);
    LocalReads16(f, 5, 12, f.date);
    LocalReads32(f, 6, 14, f.crc);
    LocalReads32(f, 7, 18, f.size);
    LocalReads32(f, 8, 22, f.size);
    LocalReads16(f, 9, 26, f.nameLength);
  }

  lemma {:induction false} LocalReads(f: Facts, record: Record)
    requires Fits(f) && record.time == f.time && record.date == f.date && record.crc == f.crc && record.size == f.size
    ensures Agrees(LocalBytes(f), record)
    ensures U16(LocalBytes(f), 26) == f.nameLength && U16(LocalBytes(f), 28) == 0
  {
    LocalFixed(f);
    LocalStated(f);
  }

  lemma {:induction false} DirStart(k: nat)
    requires k < |DIR_WIDTHS|
    ensures |DIR_WIDTHS| + 1 == |DIR_OFFSETS| && FieldStart(DIR_WIDTHS, k) == DIR_OFFSETS[k]
  {
    Starts();
  }

  lemma {:induction false} DirReads16(f: Facts, offset: nat, k: nat, at: nat, v: nat)
    requires Fits(f) && offset < WORD && k < 17 && DirValues(f, offset)[k] == v && DIR_WIDTHS[k] == 2 && DIR_OFFSETS[k] == at
    ensures at + 2 <= 46 && U16(DirBytes(f, offset), at) == v
  {
    DirStart(k);
    DirFit(f, offset);
    Reads16(DirValues(f, offset), DIR_WIDTHS, k, at);
  }

  lemma {:induction false} DirReads32(f: Facts, offset: nat, k: nat, at: nat, v: nat)
    requires Fits(f) && offset < WORD && k < 17 && DirValues(f, offset)[k] == v && DIR_WIDTHS[k] == 4 && DIR_OFFSETS[k] == at
    ensures at + 4 <= 46 && U32(DirBytes(f, offset), at) == v
  {
    DirStart(k);
    DirFit(f, offset);
    Reads32(DirValues(f, offset), DIR_WIDTHS, k, at);
  }

  lemma {:induction false} DirFixed(f: Facts, offset: nat)
    requires Fits(f) && offset < WORD
    ensures var h := DirBytes(f, offset);
      U32(h, 0) == 0x02014b50 && U16(h, 4) == 20 && PlainlyStored(U16(h, 6), U16(h, 8), U16(h, 10))
  {
    DirReads32(f, offset, 0, 0, 0x02014b50);
    DirReads16(f, offset, 1, 4, 20);
    DirReads16(f, offset, 2, 6, 20);
    DirReads16(f, offset, 3, 8, 2048);
    DirReads16(f, offset, 4, 10, 0);
  }

  lemma {:induction false} DirPlain(f: Facts, offset: nat)
    requires Fits(f) && offset < WORD
    ensures var h := DirBytes(f, offset);
      U16(h, 30) == U16(h, 32) == 0 && OrdinaryFile(U16(h, 34), U16(h, 36), U32(h, 38))
  {
    DirReads16(f, offset, 11, 30, 0);
    DirReads16(f, offset, 12, 32, 0);
    DirReads16(f, offset, 13, 34, 0);
    DirReads16(f, offset, 14, 36, 0);
    DirReads32(f, offset, 15, 38, 0x81a40000);
  }

  lemma {:induction false} DirStated(f: Facts, offset: nat)
    requires Fits(f) && offset < WORD
    ensures var h := DirBytes(f, offset);
      U16(h, 12) == f.time && U16(h, 14) == f.date && U32(h, 16) == f.crc && U32(h, 20) == U32(h, 24) == f.size
  {
    DirReads16(f, offset, 5, 12, f.time);
    DirReads16(f, offset, 6, 14, f.date);
    DirReads32(f, offset, 7, 16, f.crc);
    DirReads32(f, offset, 8, 20, f.size);
    DirReads32(f, offset, 9, 24, f.size);
  }

  lemma {:induction false} DirPoints(f: Facts, offset: nat)
    requires Fits(f) && offset < WORD
    ensures U16(DirBytes(f, offset), 28) == f.nameLength && U32(DirBytes(f, offset), 42) == offset
  {
    DirReads16(f, offset, 10, 28, f.nameLength);
    DirReads32(f, offset, 16, 42, offset);
  }

  lemma {:induction false} DirReads(f: Facts, offset: nat)
    requires Fits(f) && offset < WORD
    ensures ParseDir(DirBytes(f, offset)) == Some((Record([], f.time, f.date, f.crc, f.size, offset), f.nameLength, 0))
  {
    DirFixed(f, offset);
    DirPlain(f, offset);
    DirStated(f, offset);
    DirPoints(f, offset);
  }

  lemma {:induction false} EndReads(count: nat, size: nat, offset: nat)
    requires count < 65536 && size < WORD && offset < WORD
    ensures ParseEnd(EndBytes(count, size, offset)) == Some((offset, size, count))
  {
    Starts();
    EndFit(count, size, offset);
    var values := EndValues(count, size, offset);
    Reads32(values, END_WIDTHS, 0, 0);
    Reads16(values, END_WIDTHS, 1, 4);
    Reads16(values, END_WIDTHS, 2, 6);
    Reads16(values, END_WIDTHS, 3, 8);
    Reads16(values, END_WIDTHS, 4, 10);
    Reads32(values, END_WIDTHS, 5, 12);
    Reads32(values, END_WIDTHS, 6, 16);
    Reads16(values, END_WIDTHS, 7, 20);
  }

  /** The whole piece `c` stands at `at`. */
  ghost predicate Holds(s: seq<byte>, at: nat, c: seq<byte>) {
    at + |c| <= |s| && s[at..at + |c|] == c
  }

  lemma {:induction false} HoldsSlice(s: seq<byte>, at: nat, c: seq<byte>)
    requires Holds(s, at, c)
    ensures Slice(s, at, |c|) == Some(c)
  {
  }

  lemma {:induction false} HoldsBoth(s: seq<byte>, at: nat, a: seq<byte>, b: seq<byte>)
    requires Holds(s, at, a + b)
    ensures Holds(s, at, a) && Holds(s, at + |a|, b)
  {
    assert s[at..at + |a + b|][..|a|] == s[at..at + |a|];
    assert s[at..at + |a + b|][|a|..] == s[at + |a|..at + |a| + |b|];
  }

  lemma {:induction false} HoldsInside(pre: seq<byte>, s: seq<byte>, more: seq<byte>, at: nat, c: seq<byte>)
    requires Holds(s, at, c)
    ensures Holds(pre + s + more, |pre| + at, c)
  {
    assert (pre + s + more)[|pre| + at..|pre| + at + |c|] == s[at..at + |c|];
  }

  lemma {:induction false} HoldsEarlier(s: seq<byte>, more: seq<byte>, at: nat, c: seq<byte>)
    requires Holds(s, at, c)
    ensures Holds(s + more, at, c)
  {
    assert (s + more)[at..at + |c|] == s[at..at + |c|];
  }

  lemma {:induction false} HoldsLast(front: seq<byte>, last: seq<byte>, at: nat)
    requires at == |front|
    ensures Holds(front + last, at, last)
  {
  }

  /** Every recorded offset is exactly where the local header stands. */
  lemma {:induction false} BodyHolds(entries: seq<Entry>, facts: seq<Facts>, n: nat, k: nat)
    requires k < n <= |entries| && n <= |facts|
    ensures Holds(Body(entries, facts, n), Offset(entries, k), LocalChunk(entries[k], facts[k]))
    decreases n
  {
    var front, last := Body(entries, facts, n - 1), LocalChunk(entries[n - 1], facts[n - 1]);
    if k < n - 1 {
      BodyHolds(entries, facts, n - 1, k);
      HoldsEarlier(front, last, Offset(entries, k), LocalChunk(entries[k], facts[k]));
    } else {
      HoldsLast(front, last, |front|);
    }
  }

  lemma {:induction false} DirectoryHolds(entries: seq<Entry>, facts: seq<Facts>, n: nat, k: nat)
    requires k < n <= |entries| && n <= |facts|
    ensures Holds(Directory(entries, facts, n), DirOffset(entries, k), DirChunk(entries[k], facts[k], Offset(entries, k)))
    decreases n
  {
    var last := DirChunk(entries[n - 1], facts[n - 1], Offset(entries, n - 1));
    if k < n - 1 {
      DirectoryHolds(entries, facts, n - 1, k);
      HoldsEarlier(Directory(entries, facts, n - 1), last, DirOffset(entries, k), DirChunk(entries[k], facts[k], Offset(entries, k)));
    } else {
      HoldsLast(Directory(entries, facts, n - 1), last, DirOffset(entries, n - 1));
    }
  }

  lemma {:induction false} LocalReadsBack(s: seq<byte>, at: nat, e: Entry, f: Facts)
    requires Holds(s, at, LocalBytes(f) + (e.name + e.data)) && Fits(f) && f.nameLength == |e.name| && f.size == |e.data|
    ensures ReadLocal(s, RecordOf(e, f, at)) == Some(e.data)
  {
    HoldsBoth(s, at, LocalBytes(f), e.name + e.data);
    HoldsBoth(s, at + 30, e.name, e.data);
    HoldsSlice(s, at, LocalBytes(f));
    HoldsSlice(s, at + 30, e.name);
    HoldsSlice(s, at + 30 + |e.name|, e.data);
    LocalReads(f, RecordOf(e, f, at));
  }

  function RecordOf(e: Entry, f: Facts, offset: nat): Record {
    Record(e.name, f.time, f.date, f.crc, f.size, offset)
  }

  function One(e: Entry, f: Facts): Extracted {
    Extracted(e.name, e.data, f.time, f.date)
  }

  lemma {:induction false} NextIs(s: seq<byte>, at: nat, h: seq<byte>, record: Record, name: seq<byte>, after: nat)
    requires Slice(s, at, 46) == Some(h) && Slice(s, at + 46, |name|) == Some(name) && after == at + 46 + |name|
    requires |h| == 46 && ParseDir(h) == Some((record, |name|, 0))
    ensures NextRecord(s, at) == Some((record.(name := name), after))
  {
  }

  lemma {:induction false} RecordPieces(s: seq<byte>, at: nat, h: seq<byte>, name: seq<byte>)
    requires Holds(s, at, h + name) && |h| == 46
    ensures Slice(s, at, 46) == Some(h) && Slice(s, at + 46, |name|) == Some(name)
  {
    HoldsBoth(s, at, h, name);
    HoldsSlice(s, at, h);
    HoldsSlice(s, at + 46, name);
  }

  lemma {:induction false} RecordReadsBack(s: seq<byte>, at: nat, e: Entry, f: Facts, offset: nat, after: nat)
    requires Holds(s, at, DirChunk(e, f, offset)) && Fits(f) && offset < WORD && f.nameLength == |e.name|
    requires after == at + 46 + |e.name|
    ensures NextRecord(s, at) == Some((RecordOf(e, f, offset), after))
  {
    RecordPieces(s, at, DirBytes(f, offset), e.name);
    DirReads(f, offset);
    NextIs(s, at, DirBytes(f, offset), Record([], f.time, f.date, f.crc, f.size, offset), e.name, after);
  }

  lemma {:induction false} FetchReadsBack(s: seq<byte>, e: Entry, f: Facts, offset: nat)
    requires Holds(s, offset, LocalBytes(f) + (e.name + e.data)) && Fits(f)
    requires f.nameLength == |e.name| && f.size == |e.data| && f.crc == Crc(e.data)
    ensures Fetch(s, RecordOf(e, f, offset)) == Some(One(e, f))
  {
    LocalReadsBack(s, offset, e, f);
  }

  // ---- the whole archive ----

  /** A directory whose records and places are known reads as these records. */
  lemma {:induction false} WalkIs(next: nat -> Option<(Record, nat)>, records: seq<Record>, places: seq<nat>, k: nat)
    requires k <= |records| && |places| == |records| + 1
    requires forall i :: 0 <= i < |records| ==> next(places[i]) == Some((records[i], places[i + 1]))
    ensures Walk(next, places[k], places[|records|], |records| - k) == Some(records[k..])
    decreases |records| - k
  {
    if k >= |records| {
    } else {
      WalkIs(next, records, places, k + 1);
      assert records[k..] == [records[k]] + records[k + 1..];
    }
  }

  lemma {:induction false} AllFetched(fetch: Record -> Option<Extracted>, records: seq<Record>, found: seq<Extracted>)
    requires |records| == |found| && forall i :: 0 <= i < |records| ==> fetch(records[i]) == Some(found[i])
    ensures FetchAll(fetch, records) == Some(found)
    decreases |records|
  {
    if records == [] {
    } else {
      AllFetched(fetch, records[1..], found[1..]);
      assert found == [found[0]] + found[1..];
    }
  }

  function RecordsOf(entries: seq<Entry>, facts: seq<Facts>): (r: seq<Record>)
    requires |entries| == |facts|
    ensures |r| == |entries|
  {
    seq(|entries|, k requires 0 <= k < |entries| => RecordOf(entries[k], facts[k], Offset(entries, k)))
  }

  function PlacesOf(entries: seq<Entry>, base: nat): (places: seq<nat>)
    ensures |places| == |entries| + 1
  {
    seq(|entries| + 1, k requires 0 <= k <= |entries| => base + DirOffset(entries, k))
  }

  function ExtractedOf(entries: seq<Entry>, facts: seq<Facts>): (r: seq<Extracted>)
    requires |entries| == |facts|
    ensures |r| == |entries|
  {
    seq(|entries|, k requires 0 <= k < |entries| => One(entries[k], facts[k]))
  }

  /** Facts that describe their entry and fit their fields. */
  ghost predicate Describes(f: Facts, e: Entry) {
    Fits(f) && f.nameLength == |e.name| && f.size == |e.data| && f.crc == Crc(e.data)
  }

  ghost predicate AllDescribe(entries: seq<Entry>, facts: seq<Facts>) {
    |entries| == |facts| && forall k :: 0 <= k < |entries| ==> Describes(facts[k], entries[k])
  }

  /** Both pieces of every entry stand where they should. */
  ghost predicate Stored(s: seq<byte>, entries: seq<Entry>, facts: seq<Facts>, k: nat)
    requires k < |entries| == |facts|
  {
    && Holds(s, Offset(entries, k), LocalChunk(entries[k], facts[k]))
    && Holds(s, Offset(entries, |entries|) + DirOffset(entries, k), DirChunk(entries[k], facts[k], Offset(entries, k)))
  }

  /** The two pieces of entry `k`, found in the archive. */
  lemma {:induction false} ArchiveHolds(entries: seq<Entry>, facts: seq<Facts>, k: nat)
    requires k < |entries| == |facts|
    ensures Stored(Archive(entries, facts), entries, facts, k)
  {
    var n := |entries|;
    var body, directory, end := Body(entries, facts, n), Directory(entries, facts, n), EndBytes(n, DirOffset(entries, n), Offset(entries, n));
    BodyHolds(entries, facts, n, k);
    DirectoryHolds(entries, facts, n, k);
    Assoc(body, directory, end);
    HoldsEarlier(body, directory + end, Offset(entries, k), LocalChunk(entries[k], facts[k]));
    HoldsInside(body, directory, end, DirOffset(entries, k), DirChunk(entries[k], facts[k], Offset(entries, k)));
  }

  lemma {:induction false} PlaceOf(entries: seq<Entry>, base: nat, k: nat)
    requires k < |entries|
    ensures PlacesOf(entries, base)[k] == base + DirOffset(entries, k)
    ensures PlacesOf(entries, base)[k + 1] == base + DirOffset(entries, k) + 46 + |entries[k].name|
  {
  }

  lemma {:induction false} NextPlace(next: nat -> Option<(Record, nat)>, s: seq<byte>, at: nat, e: Entry, f: Facts, offset: nat, record: Record, after: nat)
    requires Holds(s, at, DirChunk(e, f, offset)) && Fits(f) && offset < WORD && f.nameLength == |e.name|
    requires after == at + 46 + |e.name| && record == RecordOf(e, f, offset) && next(at) == NextRecord(s, at)
    ensures next(at) == Some((record, after))
  {
    RecordReadsBack(s, at, e, f, offset, after);
  }

  /** Reading from the place of record `k` gives this record and the next place. */
  lemma {:induction false} OneRecord(next: nat -> Option<(Record, nat)>, s: seq<byte>, entries: seq<Entry>, facts: seq<Facts>, k: nat, base: nat)
    requires k < |entries| == |facts| && Offset(entries, k) < WORD && base == Offset(entries, |entries|)
    requires Fits(facts[k]) && facts[k].nameLength == |entries[k].name| && Stored(s, entries, facts, k)
    requires forall p: nat :: next(p) == NextRecord(s, p)
    ensures next(PlacesOf(entries, base)[k]) == Some((RecordsOf(entries, facts)[k], PlacesOf(entries, base)[k + 1]))
  {
    PlaceOf(entries, base, k);
    NextPlace(next, s, base + DirOffset(entries, k), entries[k], facts[k], Offset(entries, k), RecordsOf(entries, facts)[k],
              PlacesOf(entries, base)[k + 1]);
  }

  lemma {:induction false} DirectoryReadsBack(next: nat -> Option<(Record, nat)>, records: seq<Record>, places: seq<nat>, count: nat, first: nat, last: nat)
    requires |records| == count && |places| == count + 1 && places[0] == first && places[count] == last
    requires forall k :: 0 <= k < count ==> next(places[k]) == Some((records[k], places[k + 1]))
    ensures Walk(next, first, last, count) == Some(records)
  {
    WalkIs(next, records, places, 0);
    assert records[0..] == records;
  }

  lemma {:induction false} OneData(fetch: Record -> Option<Extracted>, s: seq<byte>, entries: seq<Entry>, facts: seq<Facts>, k: nat)
    requires AllDescribe(entries, facts) && k < |entries| && Stored(s, entries, facts, k)
    requires forall r: Record :: fetch(r) == Fetch(s, r)
    ensures fetch(RecordsOf(entries, facts)[k]) == Some(ExtractedOf(entries, facts)[k])
  {
    FetchReadsBack(s, entries[k], facts[k], Offset(entries, k));
  }

  /** Every step through the directory, and every entry that it leads to. */
  lemma {:induction false} EachReadsBack(next: nat -> Option<(Record, nat)>, fetch: Record -> Option<Extracted>,
                                         s: seq<byte>, entries: seq<Entry>, facts: seq<Facts>, base: nat)
    requires AllDescribe(entries, facts) && base == Offset(entries, |entries|) < WORD
    requires forall k :: 0 <= k < |entries| ==> Stored(s, entries, facts, k)
    requires forall p: nat :: next(p) == NextRecord(s, p)
    requires forall r: Record :: fetch(r) == Fetch(s, r)
    ensures forall k :: 0 <= k < |entries| ==>
      next(PlacesOf(entries, base)[k]) == Some((RecordsOf(entries, facts)[k], PlacesOf(entries, base)[k + 1]))
    ensures forall k :: 0 <= k < |entries| ==> fetch(RecordsOf(entries, facts)[k]) == Some(ExtractedOf(entries, facts)[k])
  {
    forall k | 0 <= k < |entries|
      ensures next(PlacesOf(entries, base)[k]) == Some((RecordsOf(entries, facts)[k], PlacesOf(entries, base)[k + 1]))
    {
      OffsetsGrow(entries, k, |entries|);
      OneRecord(next, s, entries, facts, k, base);
    }
    forall k | 0 <= k < |entries|
      ensures fetch(RecordsOf(entries, facts)[k]) == Some(ExtractedOf(entries, facts)[k])
    {
      OneData(fetch, s, entries, facts, k);
    }
  }

  lemma {:induction false} StepsCompose(next: nat -> Option<(Record, nat)>, fetch: Record -> Option<Extracted>, records: seq<Record>,
                                        places: seq<nat>, found: seq<Extracted>, offset: nat, size: nat)
    requires |records| == |found| && |places| == |records| + 1 && places[0] == offset && places[|records|] == offset + size
    requires forall k :: 0 <= k < |records| ==> next(places[k]) == Some((records[k], places[k + 1]))
    requires forall k :: 0 <= k < |records| ==> fetch(records[k]) == Some(found[k])
    ensures ReadEntries(next, fetch, offset, size, |records|) == Some(found)
  {
    DirectoryReadsBack(next, records, places, |records|, offset, offset + size);
    AllFetched(fetch, records, found);
  }

  lemma {:induction false} EntriesReadBack(next: nat -> Option<(Record, nat)>, fetch: Record -> Option<Extracted>,
                                           s: seq<byte>, entries: seq<Entry>, facts: seq<Facts>)
    requires AllDescribe(entries, facts) && Offset(entries, |entries|) < WORD
    requires forall k :: 0 <= k < |entries| ==> Stored(s, entries, facts, k)
    requires forall p: nat :: next(p) == NextRecord(s, p)
    requires forall r: Record :: fetch(r) == Fetch(s, r)
    ensures ReadEntries(next, fetch, Offset(entries, |entries|), DirOffset(entries, |entries|), |entries|) == Some(ExtractedOf(entries, facts))
  {
    var n, base := |entries|, Offset(entries, |entries|);
    EachReadsBack(next, fetch, s, entries, facts, base);
    StepsCompose(next, fetch, RecordsOf(entries, facts), PlacesOf(entries, base), ExtractedOf(entries, facts), base, DirOffset(entries, n));
  }

  lemma {:induction false} EndAt(front: seq<byte>, end: seq<byte>)
    requires |end| == 22
    ensures |front + end| >= 22 && (front + end)[|front + end| - 22..] == end
  {
  }

  lemma {:induction false} FactsDescribe(entries: seq<Entry>, facts: seq<Facts>)
    requires AreFacts(entries, facts) && Representable(entries)
    ensures AllDescribe(entries, facts)
  {
    forall k | 0 <= k < |entries|
      ensures Describes(facts[k], entries[k])
    {
      assert facts[k] == FactsOf(entries[k]);
    }
  }

  /**
   * Extraction through the end record and the directory gives back every name and every byte, in order. Directory offset
   * and size and every local offset are exact, or the reader would not find its way.
   */
  lemma {:induction false} ArchiveReadsBack(entries: seq<Entry>, facts: seq<Facts>)
    requires AreFacts(entries, facts) && Representable(entries)
    ensures ReadArchive(Archive(entries, facts)) == Some(ExtractedOf(entries, facts))
  {
    var s, n := Archive(entries, facts), |entries|;
    FactsDescribe(entries, facts);
    EndAt(Body(entries, facts, n) + Directory(entries, facts, n), EndBytes(n, DirOffset(entries, n), Offset(entries, n)));
    EndReads(n, DirOffset(entries, n), Offset(entries, n));
    forall k | 0 <= k < n
      ensures Stored(s, entries, facts, k)
    {
      ArchiveHolds(entries, facts, k);
    }
    EntriesReadBack(p => NextRecord(s, p), r => Fetch(s, r), s, entries, facts);
  }

  /** The stamp of an extracted entry says this time, to two seconds, with years before 1980 as 1980. */
  predicate Stamped(x: Extracted, s: Stamp) {
    && x.time / 2048 == s.hours && x.time / 32 % 64 == s.minutes && x.time % 32 == s.seconds / 2
    && 1980 + x.date / 512 == (if s.year < 1980 then 1980 else s.year) && x.date / 32 % 16 == s.month + 1 && x.date % 32 == s.day
  }

  /** So every entry comes out under its name, with its bytes and its time. */
  lemma {:induction false} EntriesComeBack(entries: seq<Entry>, facts: seq<Facts>, k: nat)
    requires AreFacts(entries, facts) && Representable(entries) && k < |entries| && IsStamp(entries[k].mtime)
    ensures var found := ReadArchive(Archive(entries, facts));
      && found.Some? && |found.value| == |entries|
      && found.value[k].name == entries[k].name && found.value[k].data == entries[k].data
      && Stamped(found.value[k], entries[k].mtime)
  {
    ArchiveReadsBack(entries, facts);
    StampReadsBack(entries[k].mtime);
    assert facts[k] == FactsOf(entries[k]);
  }
}
