/** What the parser makes of any text: every text is written out from a document, and its grid is what the document says. */
module CsvDocument {
  import opened JsText
  import opened CsvReader
  import opened Sequences

  // ---- documents ----

  /**
   * The ways to write a field: plain, in quotes with whatever follows the closing quote, or in quotes that the end of the
   * text leaves open.
   */
  datatype Cell = Bare(text: Text) | Quoted(text: Text, after: Text) | Open(text: Text)

  datatype LineEnd = Lf | Cr | CrLf

  datatype Record = Record(cells: seq<Cell>, end: LineEnd)

  /** Records that have their line end, and the cells after the last line end. */
  datatype Document = Document(records: seq<Record>, last: seq<Cell>)

  /** RFC 4180, section 2, rule 7: a quote inside quotes is written twice. */
  function Doubled(s: Text): Text {
    if s == [] then [] else Twice(s[0]) + Doubled(s[1..])
  }

  function Twice(u: Unit): Text {
    if u == QUOTE then [QUOTE, QUOTE] else [u]
  }

  function Written(c: Cell): Text {
    match c
    case Bare(text) => text
    case Quoted(text, after) => [QUOTE] + Doubled(text) + [QUOTE] + after
    case Open(text) => [QUOTE] + Doubled(text)
  }

  function Value(c: Cell): Text {
    match c
    case Bare(text) => text
    case Quoted(text, after) => text + after
    case Open(text) => text
  }

  function EndUnits(e: LineEnd): Text {
    match e
    case Lf => [LF]
    case Cr => [CR]
    case CrLf => [CR, LF]
  }

  function WrittenCells(cells: seq<Cell>, d: Unit): Text {
    if cells == [] then []
    else if |cells| == 1 then Written(cells[0]) else Written(cells[0]) + [d] + WrittenCells(cells[1..], d)
  }

  function WrittenFrom(doc: Document, d: Unit): Text
    decreases |doc.records|
  {
    if doc.records == [] then WrittenCells(doc.last, d) else
      var r := doc.records[0];
      WrittenCells(r.cells, d) + EndUnits(r.end) + WrittenFrom(doc.(records := doc.records[1..]), d)
  }

  /** Neither delimiter nor line end, and no quote where one would open a quoted field. */
  predicate Plain(s: Text, d: Unit) {
    d !in s && CR !in s && LF !in s && !Starts(s, QUOTE)
  }

  predicate CellFormed(c: Cell, d: Unit) {
    match c
    case Bare(text) => Plain(text, d)
    case Quoted(_, after) => Plain(after, d)
    case Open(_) => true
  }

  predicate CellsFormed(cells: seq<Cell>, d: Unit) {
    cells != [] && (forall c :: c in cells ==> CellFormed(c, d)) && forall c :: c in cells[..|cells| - 1] ==> !c.Open?
  }

  /** Open quotes only at the very end, and no lone CR in front of an LF that would be taken for its second half. */
  predicate Formed(doc: Document, d: Unit)
    decreases |doc.records|
  {
    if doc.records == [] then CellsFormed(doc.last, d) else
      var r, rest := doc.records[0], doc.(records := doc.records[1..]);
      CellsFormed(r.cells, d) && !r.cells[|r.cells| - 1].Open? && Formed(rest, d) && (r.end == Cr ==> !Starts(WrittenFrom(rest, d), LF))
  }

  function Values(cells: seq<Cell>): (row: Row)
    ensures |row| == |cells|
  {
    if cells == [] then [] else [Value(cells[0])] + Values(cells[1..])
  }

  function Rows(doc: Document): seq<Row>
    decreases |doc.records|
  {
    if doc.records == [] then [Values(doc.last)] else [Values(doc.records[0].cells)] + Rows(doc.(records := doc.records[1..]))
  }

  // ---- the scan over a document ----

  predicate IsDelimiter(d: Unit) {
    d != QUOTE && d != CR && d != LF
  }

  /** What may stand behind a cell. */
  predicate Ends(more: Text, d: Unit) {
    more == [] || more[0] == d || more[0] == CR || more[0] == LF
  }

  lemma {:induction false} PlainRead(s: Text, more: Text, d: Unit, st: State)
    requires IsDelimiter(d) && !st.inQuotes && d !in s && CR !in s && LF !in s && (Starts(s, QUOTE) ==> st.field != [] || st.quoted)
    ensures Scan(s + more, d, st) == Scan(more, d, st.(field := st.field + s))
    decreases |s|
  {
    if s == [] {
      assert s + more == more && st.field + s == st.field;
    } else {
      assert (s + more)[0] == s[0] && (s + more)[1..] == s[1..] + more;
      PlainRead(s[1..], more, d, Put(st, s[0]));
      Extend(st.field, s);
    }
  }

  /** One unit inside quotes, or the pair of quotes that stands for one. */
  lemma {:induction false} InsideRead(u: Unit, rest: Text, d: Unit, st: State)
    requires st.inQuotes
    ensures Scan(Twice(u) + rest, d, st) == Scan(rest, d, Put(st, u))
  {
    if u == QUOTE {
      var all := [QUOTE, QUOTE] + rest;
      assert all[0] == QUOTE && all[1..] == [QUOTE] + rest && all[2..] == rest;
    } else {
      assert ([u] + rest)[1..] == rest;
    }
  }

  lemma {:induction false} DoubledStep(s: Text, more: Text)
    requires s != []
    ensures Doubled(s) + more == Twice(s[0]) + (Doubled(s[1..]) + more)
  {
  }

  lemma {:induction false} DoubledRead(s: Text, more: Text, d: Unit, st: State)
    requires st.inQuotes
    ensures Scan(Doubled(s) + more, d, st) == Scan(more, d, st.(field := st.field + s))
    decreases |s|
  {
    if s == [] {
      assert Doubled(s) + more == more && st.field + s == st.field;
    } else {
      DoubledStep(s, more);
      InsideRead(s[0], Doubled(s[1..]) + more, d, st);
      DoubledRead(s[1..], more, d, Put(st, s[0]));
      Extend(st.field, s);
    }
  }

  /** The state behind a cell that the state was ready for. */
  function After(st: State, c: Cell): State {
    st.(field := Value(c), quoted := !c.Bare?, inQuotes := c.Open?)
  }

  predicate Ready(st: State) {
    st.field == [] && !st.quoted && !st.inQuotes
  }

  lemma {:induction false} QuoteOpens(rest: Text, d: Unit, st: State)
    requires Ready(st)
    ensures Scan([QUOTE] + rest, d, st) == Scan(rest, d, st.(inQuotes := true, quoted := true))
  {
    assert ([QUOTE] + rest)[1..] == rest;
  }

  lemma {:induction false} QuoteCloses(rest: Text, d: Unit, st: State)
    requires st.inQuotes && !Starts(rest, QUOTE)
    ensures Scan([QUOTE] + rest, d, st) == Scan(rest, d, st.(inQuotes := false))
  {
    assert ([QUOTE] + rest)[1..] == rest;
  }

  lemma {:induction false} QuotedPieces(text: Text, after: Text, more: Text)
    ensures Written(Quoted(text, after)) + more == [QUOTE] + (Doubled(text) + ([QUOTE] + (after + more)))
  {
    Assoc([QUOTE] + Doubled(text) + [QUOTE], after, more);
    Assoc([QUOTE] + Doubled(text), [QUOTE], after + more);
    Assoc([QUOTE], Doubled(text), [QUOTE] + (after + more));
  }

  lemma {:induction false} QuotedRead(text: Text, after: Text, more: Text, d: Unit, st: State)
    requires IsDelimiter(d) && Ready(st) && Plain(after, d) && Ends(more, d)
    ensures Scan(Written(Quoted(text, after)) + more, d, st) == Scan(more, d, After(st, Quoted(text, after)))
  {
    QuotedPieces(text, after, more);
    QuoteOpens(Doubled(text) + ([QUOTE] + (after + more)), d, st);
    DoubledRead(text, [QUOTE] + (after + more), d, st.(inQuotes := true, quoted := true));
    assert st.field + text == text;
    QuoteCloses(after + more, d, st.(inQuotes := true, quoted := true, field := text));
    PlainRead(after, more, d, st.(quoted := true, field := text));
  }

  lemma {:induction false} CellRead(c: Cell, more: Text, d: Unit, st: State)
    requires IsDelimiter(d) && Ready(st) && CellFormed(c, d) && Ends(more, d) && (c.Open? ==> more == [])
    ensures Scan(Written(c) + more, d, st) == Scan(more, d, After(st, c))
  {
    match c
    case Bare(text) =>
      PlainRead(text, more, d, st);
      assert st.field + text == text;
    case Quoted(text, after) => QuotedRead(text, after, more, d, st);
    case Open(text) =>
      assert Written(c) + more == [QUOTE] + (Doubled(text) + more);
      QuoteOpens(Doubled(text) + more, d, st);
      DoubledRead(text, more, d, st.(inQuotes := true, quoted := true));
      assert st.field + text == text;
  }

  /** The state behind the cells of one record. */
  function AfterCells(st: State, cells: seq<Cell>): State
    requires cells != []
    decreases |cells|
  {
    if |cells| == 1 then After(st, cells[0]) else AfterCells(EndField(After(st, cells[0])), cells[1..])
  }

  lemma {:induction false} Behind(a: Text, d: Unit, rest: Text, more: Text)
    ensures a + [d] + rest + more == a + ([d] + (rest + more)) && ([d] + (rest + more))[1..] == rest + more
  {
    Assoc(a + [d], rest, more);
    Assoc(a, [d], rest + more);
  }

  /** A cell and the delimiter behind it. */
  lemma {:induction false} CellEnded(c: Cell, rest: Text, more: Text, d: Unit, st: State)
    requires IsDelimiter(d) && Ready(st) && CellFormed(c, d) && !c.Open?
    ensures Scan(Written(c) + [d] + rest + more, d, st) == Scan(rest + more, d, EndField(After(st, c)))
  {
    Behind(Written(c), d, rest, more);
    CellRead(c, [d] + (rest + more), d, st);
  }

  lemma {:induction false} CellsRead(cells: seq<Cell>, more: Text, d: Unit, st: State)
    requires IsDelimiter(d) && Ready(st) && CellsFormed(cells, d) && Ends(more, d) && (cells[|cells| - 1].Open? ==> more == [])
    ensures Scan(WrittenCells(cells, d) + more, d, st) == Scan(more, d, AfterCells(st, cells))
    decreases |cells|
  {
    if |cells| == 1 {
      CellRead(cells[0], more, d, st);
    } else {
      RestFormed(cells, d);
      CellEnded(cells[0], WrittenCells(cells[1..], d), more, d, st);
      CellsRead(cells[1..], more, d, EndField(After(st, cells[0])));
    }
  }

  lemma {:induction false} RestFormed(cells: seq<Cell>, d: Unit)
    requires |cells| > 1 && CellsFormed(cells, d)
    ensures CellsFormed(cells[1..], d) && !cells[0].Open? && cells[1..][|cells| - 2] == cells[|cells| - 1]
  {
    assert cells[0] in cells[..|cells| - 1];
    forall c | c in cells[1..][..|cells| - 2]
      ensures !c.Open?
    {
      assert c in cells[..|cells| - 1];
    }
  }

  /** The rows stay, and one cell leaves the row as it was. */
  lemma {:induction false} CellsLeave(cells: seq<Cell>, st: State)
    requires cells != []
    ensures AfterCells(st, cells).rows == st.rows && (|cells| > 1 ==> AfterCells(st, cells).row != [])
    ensures |cells| == 1 ==> AfterCells(st, cells) == After(st, cells[0])
    decreases |cells|
  {
    if |cells| <= 1 {
    } else {
      CellsLeave(cells[1..], EndField(After(st, cells[0])));
    }
  }

  lemma {:induction false} CellsEnd(cells: seq<Cell>, st: State)
    requires cells != []
    ensures EndRow(AfterCells(st, cells)) == State(st.rows + [st.row + Values(cells)], [], [], false, cells[|cells| - 1].Open?)
    decreases |cells|
  {
    if |cells| == 1 {
      assert Values(cells) == [Value(cells[0])];
    } else {
      CellsEnd(cells[1..], EndField(After(st, cells[0])));
      Assoc(st.row, [Value(cells[0])], Values(cells[1..]));
    }
  }

  lemma {:induction false} EndRead(e: LineEnd, more: Text, d: Unit, st: State)
    requires IsDelimiter(d) && !st.inQuotes && (e == Cr ==> !Starts(more, LF))
    ensures Scan(EndUnits(e) + more, d, st) == Scan(more, d, EndRow(st))
  {
    var all := EndUnits(e) + more;
    match e
    case Lf => assert all[1..] == more;
    case Cr => assert all[1..] == more;
    case CrLf => assert all[1..] == [LF] + more && all[2..] == more;
  }

  lemma {:induction false} RecordRead(r: Record, more: Text, d: Unit, rows: seq<Row>)
    requires IsDelimiter(d) && CellsFormed(r.cells, d) && !r.cells[|r.cells| - 1].Open? && (r.end == Cr ==> !Starts(more, LF))
    ensures Scan(WrittenCells(r.cells, d) + EndUnits(r.end) + more, d, START.(rows := rows)) ==
      Scan(more, d, START.(rows := rows + [Values(r.cells)]))
  {
    var st := START.(rows := rows);
    Assoc(WrittenCells(r.cells, d), EndUnits(r.end), more);
    CellsRead(r.cells, EndUnits(r.end) + more, d, st);
    CellsEnd(r.cells, st);
    NoOpen(r.cells, st);
    assert st.row + Values(r.cells) == Values(r.cells);
    EndRead(r.end, more, d, AfterCells(st, r.cells));
  }

  lemma {:induction false} NoOpen(cells: seq<Cell>, st: State)
    requires cells != [] && !cells[|cells| - 1].Open?
    ensures !AfterCells(st, cells).inQuotes
    decreases |cells|
  {
    if |cells| <= 1 {
    } else {
      NoOpen(cells[1..], EndField(After(st, cells[0])));
    }
  }

  /** One blank cell more or less at the end makes no difference to what is kept. */
  lemma {:induction false} LastRead(cells: seq<Cell>, d: Unit, rows: seq<Row>)
    requires IsDelimiter(d) && CellsFormed(cells, d)
    ensures Kept(Finish(Scan(WrittenCells(cells, d), d, START.(rows := rows)))) == Kept(rows + [Values(cells)])
  {
    var st := START.(rows := rows);
    var s := WrittenCells(cells, d);
    assert s + [] == s;
    CellsRead(cells, [], d, st);
    CellsEnd(cells, st);
    CellsLeave(cells, st);
    assert st.row + Values(cells) == Values(cells);
    var done := AfterCells(st, cells);
    if !(done.field != [] || done.quoted || done.row != []) {
      assert Values(cells) == [Value(cells[0])] && Value(cells[0]) == [];
      KeptSnoc(rows, Values(cells));
    }
  }

  lemma {:induction false} DocumentRead(doc: Document, d: Unit, rows: seq<Row>)
    requires IsDelimiter(d) && Formed(doc, d)
    ensures Kept(Finish(Scan(WrittenFrom(doc, d), d, START.(rows := rows)))) == Kept(rows + Rows(doc))
    decreases |doc.records|
  {
    if doc.records == [] {
      LastRead(doc.last, d, rows);
    } else {
      var r, rest := doc.records[0], doc.(records := doc.records[1..]);
      RecordRead(r, WrittenFrom(rest, d), d, rows);
      DocumentRead(rest, d, rows + [Values(r.cells)]);
      Assoc(rows, [Values(r.cells)], Rows(rest));
    }
  }

  /** The grid of a written document is the rows of the document that are not one blank cell. */
  lemma {:induction false} GridIsRows(text: Text, doc: Document, d: Unit)
    requires IsDelimiter(d) && Formed(doc, d) && StripBom(text) == WrittenFrom(doc, d)
    ensures Grid(text, d) == Kept(Rows(doc))
  {
    assert START.(rows := []) == START;
    DocumentRead(doc, d, []);
    assert [] + Rows(doc) == Rows(doc);
  }

  // ---- every text is a written document ----

  /** Up to the next delimiter or line end. */
  lemma {:induction false} PlainPrefix(s: Text, d: Unit) returns (n: nat)
    ensures n <= |s| && d !in s[..n] && CR !in s[..n] && LF !in s[..n] && Ends(s[n..], d)
    decreases |s|
  {
    if Ends(s, d) {
      n := 0;
    } else {
      var m := PlainPrefix(s[1..], d);
      n := m + 1;
      assert s[..n] == [s[0]] + s[1..][..m] && s[n..] == s[1..][m..];
    }
  }

  /** What stands inside quotes, up to the quote that is not doubled. */
  lemma {:induction false} QuotedPrefix(s: Text) returns (text: Text, rest: Text, closed: bool)
    ensures s == Doubled(text) + (if closed then [QUOTE] + rest else [])
    ensures closed ==> !Starts(rest, QUOTE)
    decreases |s|
  {
    if s == [] {
      text, rest, closed := [], [], false;
    } else if s[0] == QUOTE && !Starts(s[1..], QUOTE) {
      text, rest, closed := [], s[1..], true;
    } else {
      var k := |Twice(s[0])|;
      var more;
      more, rest, closed := QuotedPrefix(s[k..]);
      text := [s[0]] + more;
      assert s == Twice(s[0]) + s[k..] && text[1..] == more;
      DoubledStep(text, if closed then [QUOTE] + rest else []);
    }
  }

  lemma {:induction false} FirstCell(s: Text, d: Unit) returns (c: Cell, rest: Text)
    requires IsDelimiter(d)
    ensures CellFormed(c, d) && s == Written(c) + rest && Ends(rest, d) && (c.Open? ==> rest == [])
  {
    if Starts(s, QUOTE) {
      var text, behind, closed := QuotedPrefix(s[1..]);
      if closed {
        var n := PlainPrefix(behind, d);
        c, rest := Quoted(text, behind[..n]), behind[n..];
        assert behind == behind[..n] + rest;
        QuotedPieces(text, behind[..n], rest);
      } else {
        c, rest := Open(text), [];
        assert s == [QUOTE] + s[1..];
      }
    } else {
      var n := PlainPrefix(s, d);
      c, rest := Bare(s[..n]), s[n..];
    }
  }

  lemma {:induction false} MoreCells(c: Cell, cells: seq<Cell>, d: Unit)
    requires CellFormed(c, d) && !c.Open? && CellsFormed(cells, d)
    ensures CellsFormed([c] + cells, d) && WrittenCells([c] + cells, d) == Written(c) + [d] + WrittenCells(cells, d)
    ensures ([c] + cells)[|cells|] == cells[|cells| - 1]
  {
    var all := [c] + cells;
    assert all[1..] == cells;
    assert all[..|all| - 1] == [c] + cells[..|cells| - 1];
  }

  lemma {:induction false} Split(s: Text, a: Text, behind: Text, d: Unit, b: Text, rest: Text)
    requires s == a + behind && Starts(behind, d) && behind[1..] == b + rest
    ensures s == a + [d] + b + rest
  {
    assert behind == [d] + behind[1..];
    Behind(a, d, b, rest);
  }

  lemma {:induction false} FirstCells(s: Text, d: Unit) returns (cells: seq<Cell>, rest: Text)
    requires IsDelimiter(d)
    ensures CellsFormed(cells, d) && s == WrittenCells(cells, d) + rest && (rest == [] || rest[0] == CR || rest[0] == LF)
    ensures cells[|cells| - 1].Open? ==> rest == []
    decreases |s|
  {
    var c, behind := FirstCell(s, d);
    if Starts(behind, d) {
      var more;
      more, rest := FirstCells(behind[1..], d);
      MoreCells(c, more, d);
      cells := [c] + more;
      Split(s, Written(c), behind, d, WrittenCells(more, d), rest);
    } else {
      cells, rest := [c], behind;
    }
  }

  function FirstEnd(rest: Text): LineEnd
    requires rest != []
  {
    if rest[0] == LF then Lf else if Starts(rest[1..], LF) then CrLf else Cr
  }

  function BehindEnd(rest: Text): Text
    requires rest != []
  {
    if FirstEnd(rest) == CrLf then rest[2..] else rest[1..]
  }

  lemma {:induction false} SplitEnd(s: Text, a: Text, rest: Text)
    requires rest != [] && (rest[0] == CR || rest[0] == LF) && s == a + rest
    ensures s == a + EndUnits(FirstEnd(rest)) + BehindEnd(rest)
    ensures FirstEnd(rest) == Cr ==> !Starts(BehindEnd(rest), LF)
  {
    assert rest == EndUnits(FirstEnd(rest)) + BehindEnd(rest);
    Assoc(a, EndUnits(FirstEnd(rest)), BehindEnd(rest));
  }

  lemma {:induction false} MoreRecords(r: Record, more: Document, d: Unit) returns (doc: Document)
    requires CellsFormed(r.cells, d) && !r.cells[|r.cells| - 1].Open? && Formed(more, d)
    requires r.end == Cr ==> !Starts(WrittenFrom(more, d), LF)
    ensures Formed(doc, d) && WrittenFrom(doc, d) == WrittenCells(r.cells, d) + EndUnits(r.end) + WrittenFrom(more, d)
  {
    doc := Document([r] + more.records, more.last);
    assert doc.(records := doc.records[1..]) == more;
  }

  lemma {:induction false} RecordInFront(s: Text, cells: seq<Cell>, rest: Text, more: Document, d: Unit) returns (doc: Document)
    requires rest != [] && (rest[0] == CR || rest[0] == LF) && s == WrittenCells(cells, d) + rest
    requires CellsFormed(cells, d) && !cells[|cells| - 1].Open? && Formed(more, d) && WrittenFrom(more, d) == BehindEnd(rest)
    ensures Formed(doc, d) && WrittenFrom(doc, d) == s
  {
    SplitEnd(s, WrittenCells(cells, d), rest);
    doc := MoreRecords(Record(cells, FirstEnd(rest)), more, d);
  }

  lemma {:induction false} TextIsDocument(s: Text, d: Unit) returns (doc: Document)
    requires IsDelimiter(d)
    ensures Formed(doc, d) && WrittenFrom(doc, d) == s
    decreases |s|
  {
    var cells, rest := FirstCells(s, d);
    if rest == [] {
      doc := Document([], cells);
    } else {
      var more := TextIsDocument(BehindEnd(rest), d);
      doc := RecordInFront(s, cells, rest, more, d);
    }
  }

  /** So the parser's result is known for every text: it is what a document says of which the text is the writing. */
  lemma {:induction false} EveryGrid(text: Text, d: Unit) returns (doc: Document)
    requires IsDelimiter(d)
    ensures Formed(doc, d) && WrittenFrom(doc, d) == StripBom(text) && Grid(text, d) == Kept(Rows(doc))
  {
    doc := TextIsDocument(StripBom(text), d);
    GridIsRows(text, doc, d);
  }
}
