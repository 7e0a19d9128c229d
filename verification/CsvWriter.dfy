/** The two CSV writers, and what the importer reads back from what they write. */
module CsvWriter {
  import opened JsText
  import opened CsvReader
  import opened CsvDocument
  import opened Sequences

  const CRLF: Text := [CR, LF]

  predicate NeedsQuotes(s: Text, d: Unit) {
    d in s || QUOTE in s || LF in s || CR in s
  }

  /** A cell, after `String(value)`; null and undefined are empty. */
  function CsvCell(s: Text, d: Unit): Text {
    if s == [] then [] else if NeedsQuotes(s, d) then [QUOTE] + Doubled(s) + [QUOTE] else s
  }

  function CellTexts(row: Row, d: Unit): seq<Text> {
    if row == [] then [] else [CsvCell(row[0], d)] + CellTexts(row[1..], d)
  }

  function RowText(row: Row, d: Unit): Text {
    Join(CellTexts(row, d), [d])
  }

  function RowTexts(grid: seq<Row>, d: Unit): seq<Text> {
    if grid == [] then [] else [RowText(grid[0], d)] + RowTexts(grid[1..], d)
  }

  function ToCsv(grid: seq<Row>, d: Unit): Text {
    Join(RowTexts(grid, d), CRLF) + CRLF
  }

  // ---- what is written is a document ----

  function FormOf(s: Text, d: Unit): Cell {
    if NeedsQuotes(s, d) then Quoted(s, []) else Bare(s)
  }

  function Forms(row: Row, d: Unit): (cells: seq<Cell>)
    ensures |cells| == |row|
  {
    if row == [] then [] else [FormOf(row[0], d)] + Forms(row[1..], d)
  }

  /** A row without cells is written as a row of one empty cell is. */
  function RowForms(row: Row, d: Unit): (cells: seq<Cell>)
    ensures cells != []
  {
    if row == [] then [Bare([])] else Forms(row, d)
  }

  function RecordsOf(grid: seq<Row>, d: Unit): seq<Record> {
    if grid == [] then [] else [Record(RowForms(grid[0], d), CrLf)] + RecordsOf(grid[1..], d)
  }

  function DocumentOf(grid: seq<Row>, d: Unit): Document {
    Document(if grid == [] then [Record([Bare([])], CrLf)] else RecordsOf(grid, d), [Bare([])])
  }

  lemma {:induction false} FormIs(s: Text, d: Unit)
    ensures Written(FormOf(s, d)) == CsvCell(s, d) && Value(FormOf(s, d)) == s && CellFormed(FormOf(s, d), d) && !FormOf(s, d).Open?
  {
    assert [QUOTE] + Doubled(s) + [QUOTE] + [] == [QUOTE] + Doubled(s) + [QUOTE] && s + [] == s;
    assert Starts(s, QUOTE) ==> QUOTE in s;
  }

  lemma {:induction false} RowTextStep(row: Row, d: Unit)
    requires |row| > 1
    ensures RowText(row, d) == CsvCell(row[0], d) + [d] + RowText(row[1..], d)
    ensures WrittenCells(Forms(row, d), d) == Written(FormOf(row[0], d)) + [d] + WrittenCells(Forms(row[1..], d), d)
  {
    assert Forms(row, d)[1..] == Forms(row[1..], d) && CellTexts(row, d)[1..] == CellTexts(row[1..], d);
    assert |CellTexts(row, d)| > 1;
  }

  lemma {:induction false} FormsWritten(row: Row, d: Unit)
    ensures WrittenCells(Forms(row, d), d) == RowText(row, d)
    decreases |row|
  {
    if row == [] {
    } else {
      FormIs(row[0], d);
      if |row| > 1 {
        FormsWritten(row[1..], d);
        RowTextStep(row, d);
      } else {
        assert Forms(row, d) == [FormOf(row[0], d)] && CellTexts(row, d) == [CsvCell(row[0], d)];
      }
    }
  }

  lemma {:induction false} FormsAre(row: Row, d: Unit)
    ensures Values(Forms(row, d)) == row
    ensures forall c :: c in Forms(row, d) ==> CellFormed(c, d) && !c.Open?
    decreases |row|
  {
    if row == [] {
    } else {
      FormIs(row[0], d);
      FormsAre(row[1..], d);
      assert Forms(row, d)[1..] == Forms(row[1..], d);
      assert row == [row[0]] + row[1..];
    }
  }

  /** What comes back of a row: a row without cells comes back as one empty cell. */
  function AsRead(row: Row): Row {
    if row == [] then [[]] else row
  }

  lemma {:induction false} RowFormsAre(row: Row, d: Unit)
    ensures WrittenCells(RowForms(row, d), d) == RowText(row, d) && Values(RowForms(row, d)) == AsRead(row)
    ensures CellsFormed(RowForms(row, d), d) && !RowForms(row, d)[|RowForms(row, d)| - 1].Open?
  {
    FormsAre(row, d);
    FormsWritten(row, d);
    if row == [] {
      assert Values([Bare([])]) == [[]];
    }
  }

  function RowsAsRead(grid: seq<Row>): seq<Row> {
    if grid == [] then [] else [AsRead(grid[0])] + RowsAsRead(grid[1..])
  }

  lemma {:induction false} ToCsvStep(grid: seq<Row>, d: Unit)
    requires |grid| > 1
    ensures ToCsv(grid, d) == RowText(grid[0], d) + CRLF + ToCsv(grid[1..], d)
  {
    var texts := RowTexts(grid, d);
    assert texts[1..] == RowTexts(grid[1..], d);
    assert |texts| > 1;
  }

  lemma {:induction false} Tail(grid: seq<Row>, d: Unit)
    ensures WrittenFrom(Document([], [Bare([])]), d) == [] && Formed(Document([], [Bare([])]), d)
    ensures Rows(Document([], [Bare([])])) == [[[]]]
  {
    assert Values([Bare([])]) == [[]];
  }

  lemma {:induction false} OneMore(r: Record, doc: Document, rest: Document, d: Unit)
    requires doc.records != [] && doc.records[0] == r && rest == doc.(records := doc.records[1..]) && r.end == CrLf
    requires CellsFormed(r.cells, d) && !r.cells[|r.cells| - 1].Open? && Formed(rest, d)
    ensures Formed(doc, d) && WrittenFrom(doc, d) == WrittenCells(r.cells, d) + CRLF + WrittenFrom(rest, d)
    ensures Rows(doc) == [Values(r.cells)] + Rows(rest)
  {
  }

  /** What is written for a grid: its document, and this document's rows. */
  ghost predicate Describes(doc: Document, d: Unit, text: Text, rows: seq<Row>) {
    Formed(doc, d) && WrittenFrom(doc, d) == text && Rows(doc) == rows
  }

  lemma {:induction false} FrontRow(row: Row, doc: Document, rest: Document, d: Unit, more: Text, rows: seq<Row>)
    requires doc.records != [] && doc.records[0] == Record(RowForms(row, d), CrLf) && rest == doc.(records := doc.records[1..])
    requires Describes(rest, d, more, rows)
    ensures Describes(doc, d, RowText(row, d) + CRLF + more, [AsRead(row)] + rows)
  {
    RowFormsAre(row, d);
    OneMore(doc.records[0], doc, rest, d);
  }

  lemma {:induction false} ToCsvOne(grid: seq<Row>, d: Unit)
    requires |grid| == 1
    ensures ToCsv(grid, d) == RowText(grid[0], d) + CRLF + [] && RowsAsRead(grid) == [AsRead(grid[0])]
  {
    assert RowTexts(grid, d) == [RowText(grid[0], d)];
  }

  lemma {:induction false} RecordsAre(grid: seq<Row>, d: Unit)
    requires grid != []
    ensures Describes(DocumentOf(grid, d), d, ToCsv(grid, d), RowsAsRead(grid) + [[[]]])
    decreases |grid|
  {
    var doc := DocumentOf(grid, d);
    assert doc.records[1..] == RecordsOf(grid[1..], d);
    if |grid| == 1 {
      Tail(grid, d);
      FrontRow(grid[0], doc, Document([], [Bare([])]), d, [], [[[]]]);
      ToCsvOne(grid, d);
    } else {
      RecordsAre(grid[1..], d);
      FrontRow(grid[0], doc, DocumentOf(grid[1..], d), d, ToCsv(grid[1..], d), RowsAsRead(grid[1..]) + [[[]]]);
      ToCsvStep(grid, d);
      Assoc([AsRead(grid[0])], RowsAsRead(grid[1..]), [[[]]]);
    }
  }

  /** The rows that come back: not the ones without cells, and not the ones that are one blank cell. */
  predicate Survives(row: Row) {
    row != [] && !Dropped(row)
  }

  function Surviving(grid: seq<Row>): (rows: seq<Row>)
    ensures |rows| <= |grid| && forall r :: r in rows ==> Survives(r) && r in grid
  {
    if grid == [] then []
    else if Survives(grid[0]) then [grid[0]] + Surviving(grid[1..])
    else Surviving(grid[1..])
  }

  lemma {:induction false} KeptAsRead(grid: seq<Row>)
    ensures Kept(RowsAsRead(grid)) == Surviving(grid)
    decreases |grid|
  {
    if grid == [] {
    } else {
      KeptAsRead(grid[1..]);
      assert RowsAsRead(grid)[1..] == RowsAsRead(grid[1..]);
    }
  }

  lemma {:induction false} AllSurvive(grid: seq<Row>)
    ensures Surviving(grid) == grid <==> forall r :: r in grid ==> Survives(r)
    decreases |grid|
  {
    if grid == [] {
    } else {
      AllSurvive(grid[1..]);
      assert grid == [grid[0]] + grid[1..];
      if Survives(grid[0]) {
        assert Surviving(grid)[1..] == Surviving(grid[1..]);
      } else {
        assert |Surviving(grid)| < |grid|;
      }
    }
  }

  /** The text behind the byte order mark, if there is one, is a written grid: this is what comes back. */
  lemma {:induction false} ReadsBack(text: Text, grid: seq<Row>, d: Unit)
    requires IsDelimiter(d) && StripBom(text) == ToCsv(grid, d)
    ensures Grid(text, d) == Surviving(grid)
  {
    var doc := DocumentOf(grid, d);
    if grid == [] {
      var rest := Document([], [Bare([])]);
      Tail(grid, d);
      assert doc.(records := doc.records[1..]) == rest;
      assert Values([Bare([])]) == [[]];
      assert ToCsv(grid, d) == [] + CRLF + [];
      GridIsRows(text, doc, d);
      assert Rows(doc) == [[[]], [[]]];
      assert Rows(doc)[1..] == [[[]]] && Rows(doc)[1..][1..] == [];
    } else {
      RecordsAre(grid, d);
      GridIsRows(text, doc, d);
      KeptSnoc(RowsAsRead(grid), [[]]);
      KeptAsRead(grid);
    }
  }

  // ---- when exactly everything comes back ----

  lemma {:induction false} SameRest(row: Row, other: Row, rest: seq<Row>, d: Unit)
    requires RowText(row, d) != [] && RowText(other, d) == RowText(row, d)[1..]
    ensures ToCsv([other] + rest, d) == ToCsv([row] + rest, d)[1..]
  {
    if rest == [] {
      assert RowTexts([other], d) == [RowText(other, d)] && RowTexts([row], d) == [RowText(row, d)];
      assert [other] + rest == [other] && [row] + rest == [row];
    } else {
      ToCsvStep([other] + rest, d);
      ToCsvStep([row] + rest, d);
      assert ([other] + rest)[1..] == rest && ([row] + rest)[1..] == rest;
    }
  }

  lemma {:induction false} EmptyText(d: Unit)
    ensures ToCsv([], d) == CRLF && RowText([], d) == []
  {
    assert ToCsv([], d) == [] + CRLF;
  }

  lemma {:induction false} FirstUnit(grid: seq<Row>, d: Unit)
    requires Starts(ToCsv(grid, d), BOM)
    ensures grid != [] && Starts(RowText(grid[0], d), BOM)
  {
    EmptyText(d);
    if |grid| == 1 {
      ToCsvOne(grid, d);
    } else {
      ToCsvStep(grid, d);
    }
  }

  lemma {:induction false} RowTextOf(cell: Text, row: Row, d: Unit)
    ensures row == [] ==> RowText([cell] + row, d) == CsvCell(cell, d)
    ensures row != [] ==> RowText([cell] + row, d) == CsvCell(cell, d) + [d] + RowText(row, d)
  {
    if row == [] {
      assert [cell] + row == [cell] && CellTexts([cell], d) == [CsvCell(cell, d)];
    } else {
      RowTextStep([cell] + row, d);
      assert ([cell] + row)[1..] == row;
    }
  }

  /** A first cell that begins with a byte order mark and is not quoted loses it. */
  lemma {:induction false} CellWithoutMark(cell: Text, row: Row, d: Unit)
    requires !NeedsQuotes(cell, d) && Starts(cell, BOM)
    ensures RowText([cell] + row, d) != [] && RowText([cell[1..]] + row, d) == RowText([cell] + row, d)[1..]
  {
    assert CsvCell(cell[1..], d) == cell[1..];
    RowTextOf(cell, row, d);
    RowTextOf(cell[1..], row, d);
  }

  /** The row as it comes back without the mark in front of it. */
  lemma {:induction false} RowWithoutMark(row: Row, d: Unit) returns (other: Row)
    requires Starts(RowText(row, d), BOM)
    ensures other != row && RowText(other, d) == RowText(row, d)[1..]
  {
    EmptyText(d);
    if |row| == 1 {
      assert CellTexts(row, d) == [CsvCell(row[0], d)];
      other := [row[0][1..]];
      CellWithoutMark(row[0], [], d);
      assert [row[0]] + [] == row && [row[0][1..]] + [] == other;
    } else {
      RowTextStep(row, d);
      if row[0] == [] {
        other := row[1..];
      } else {
        other := [row[0][1..]] + row[1..];
        CellWithoutMark(row[0], row[1..], d);
        assert [row[0]] + row[1..] == row;
      }
    }
  }

  /**
   * The grid comes back unchanged exactly when no row is without cells or one blank cell, and the text does not begin with
   * a byte order mark.
   */
  lemma {:induction false} RoundTrip(grid: seq<Row>, d: Unit)
    requires IsDelimiter(d)
    ensures Grid(ToCsv(grid, d), d) == grid <==> (forall r :: r in grid ==> Survives(r)) && !Starts(ToCsv(grid, d), BOM)
  {
    AllSurvive(grid);
    if Starts(ToCsv(grid, d), BOM) {
      FirstUnit(grid, d);
      var other := RowWithoutMark(grid[0], d);
      assert grid == [grid[0]] + grid[1..];
      SameRest(grid[0], other, grid[1..], d);
      ReadsBack(ToCsv(grid, d), [other] + grid[1..], d);
      assert ([other] + grid[1..])[1..] == grid[1..];
    } else {
      ReadsBack(ToCsv(grid, d), grid, d);
    }
  }

  // ---- the export writer ----

  const APOSTROPHE: Unit := 39

  /** What a spreadsheet takes for the start of a formula. */
  predicate IsFormula(s: Text) {
    s != [] && s[0] in {61, 43, 45, 64, TAB, CR}
  }

  function Guarded(raw: Text): Text {
    if IsFormula(raw) then [APOSTROPHE] + raw else raw
  }

  /** A cell, after its conversion to a string; null and undefined are empty. */
  function ExportCell(raw: Text): Text {
    var safe := Guarded(raw);
    if QUOTE in safe || COMMA in safe || LF in safe || CR in safe then [QUOTE] + Doubled(safe) + [QUOTE] else safe
  }

  function ExportCells(cells: Row): seq<Text> {
    if cells == [] then [] else [ExportCell(cells[0])] + ExportCells(cells[1..])
  }

  function ExportRow(cells: Row): Text {
    Join(ExportCells(cells), [COMMA])
  }

  /** The cells of one record, column by column; a missing one is empty. */
  function CellsOf(columns: Row, record: map<Text, Text>): Row {
    if columns == [] then [] else
      [if columns[0] in record then record[columns[0]] else []] + CellsOf(columns[1..], record)
  }

  function Table(columns: Row, records: seq<map<Text, Text>>): seq<Row> {
    if records == [] then [] else [CellsOf(columns, records[0])] + Table(columns, records[1..])
  }

  function ExportLines(rows: seq<Row>): seq<Text> {
    if rows == [] then [] else [ExportRow(rows[0])] + ExportLines(rows[1..])
  }

  function ExportCsv(columns: Row, records: seq<map<Text, Text>>): Text {
    Join(ExportLines([columns] + Table(columns, records)), CRLF) + CRLF
  }

  function GuardedRow(row: Row): (r: Row)
    ensures |r| == |row| && forall c :: c in r ==> !IsFormula(c)
  {
    if row == [] then [] else [Guarded(row[0])] + GuardedRow(row[1..])
  }

  function GuardedRows(rows: seq<Row>): (g: seq<Row>)
    ensures |g| == |rows| && forall r, c :: r in g && c in r ==> !IsFormula(c)
  {
    if rows == [] then [] else [GuardedRow(rows[0])] + GuardedRows(rows[1..])
  }

  lemma {:induction false} ExportCellsAre(cells: Row)
    ensures ExportCells(cells) == CellTexts(GuardedRow(cells), COMMA)
    decreases |cells|
  {
    if cells == [] {
    } else {
      ExportCellsAre(cells[1..]);
      assert GuardedRow(cells)[1..] == GuardedRow(cells[1..]);
    }
  }

  lemma {:induction false} ExportLinesAre(rows: seq<Row>)
    ensures ExportLines(rows) == RowTexts(GuardedRows(rows), COMMA)
    decreases |rows|
  {
    if rows == [] {
    } else {
      ExportCellsAre(rows[0]);
      ExportLinesAre(rows[1..]);
      assert GuardedRows(rows)[1..] == GuardedRows(rows[1..]);
    }
  }

  /** The rows of an export, header first, with their cells guarded. */
  function Exported(columns: Row, records: seq<map<Text, Text>>): seq<Row> {
    GuardedRows([columns] + Table(columns, records))
  }

  lemma {:induction false} ExportIs(columns: Row, records: seq<map<Text, Text>>)
    ensures ExportCsv(columns, records) == ToCsv(Exported(columns, records), COMMA)
  {
    ExportLinesAre([columns] + Table(columns, records));
  }

  /**
   * The importer reads back exactly the guarded cells of an export, if and only if no row is without cells or one blank cell
   * and the text does not begin with a byte order mark. Without the mark the other rows come back in any case, and none of
   * their cells starts a formula.
   */
  lemma {:induction false} ExportReadsBack(columns: Row, records: seq<map<Text, Text>>)
    ensures var text, rows := ExportCsv(columns, records), Exported(columns, records);
      Grid(text, COMMA) == rows <==> (forall r :: r in rows ==> Survives(r)) && !Starts(text, BOM)
    ensures var text := ExportCsv(columns, records);
      !Starts(text, BOM) ==> Grid(text, COMMA) == Surviving(Exported(columns, records))
    ensures var text := ExportCsv(columns, records);
      !Starts(text, BOM) ==> forall r, c :: r in Grid(text, COMMA) && c in r ==> !IsFormula(c)
  {
    ExportIs(columns, records);
    RoundTrip(Exported(columns, records), COMMA);
    if !Starts(ExportCsv(columns, records), BOM) {
      ReadsBack(ExportCsv(columns, records), Exported(columns, records), COMMA);
    }
  }

  lemma {:induction false} OneGuarded(cell: Text)
    ensures GuardedRow([cell]) == [Guarded(cell)]
  {
    assert [cell][1..] == [];
  }

  lemma {:induction false} TwoGuarded(a: Row, b: Row)
    ensures GuardedRows([a, b]) == [GuardedRow(a), GuardedRow(b)]
  {
    assert [a, b][1..] == [b] && [b][1..] == [];
  }

  /** One column, and one record that has nothing in it. */
  lemma {:induction false} EmptyRecord(column: Text)
    ensures Exported([column], [map[]]) == [[Guarded(column)], [[]]]
  {
    var empty: map<Text, Text> := map[];
    var none: Text := [];
    var columns: Row := [column];
    var lost: Row := [none];
    var records: seq<map<Text, Text>> := [empty];
    assert columns[1..] == [] && CellsOf(columns[1..], empty) == [];
    assert CellsOf(columns, empty) == lost;
    assert records[1..] == [] && Table(columns, records[1..]) == [];
    assert Table(columns, records) == [lost];
    assert [columns] + [lost] == [columns, lost];
    TwoGuarded(columns, lost);
    OneGuarded(column);
    OneGuarded(none);
    assert Guarded(none) == none;
  }

  lemma {:induction false} NoMark(cell: Text, rest: seq<Row>, d: Unit)
    requires !Starts(cell, BOM)
    ensures !Starts(ToCsv([[cell]] + rest, d), BOM)
  {
    assert CellTexts([cell], d) == [CsvCell(cell, d)];
    assert RowText([cell], d) == CsvCell(cell, d);
    assert !Starts(RowText([cell], d), BOM);
    if Starts(ToCsv([[cell]] + rest, d), BOM) {
      FirstUnit([[cell]] + rest, d);
    }
  }

  lemma {:induction false} BlankSecond(first: Row)
    requires Survives(first)
    ensures Surviving([first, [[]]]) == [first]
  {
    var lost: Row := [[]];
    assert [first, lost][1..] == [lost] && [lost][1..] == [];
  }

  /** A record without a value in the only column does not come back from the export. */
  lemma {:induction false} EmptyRecordLost(column: Text)
    requires !Blank(column) && !Starts(column, BOM)
    ensures Exported([column], [map[]]) == [[Guarded(column)], [[]]]
    ensures Grid(ExportCsv([column], [map[]]), COMMA) == [[Guarded(column)]]
  {
    EmptyRecord(column);
    ExportIs([column], [map[]]);
    var lost: Row := [[]];
    assert [[Guarded(column)]] + [lost] == [[Guarded(column)], lost];
    NoMark(Guarded(column), [lost], COMMA);
    var records: seq<map<Text, Text>> := [map[]];
    ExportReadsBack([column], records);
    var u :| u in column && !IsSpace(u);
    assert u in Guarded(column);
    BlankSecond([Guarded(column)]);
  }
}
