/** The lenient grid parser, as a scan over the text and as a loop over an index. */
module CsvReader {
  import opened JsText

  type Row = seq<Text>

  /** What the loop carries: finished rows, the current row and field, and the two quote flags. */
  datatype State = State(rows: seq<Row>, row: Row, field: Text, quoted: bool, inQuotes: bool)

  const START: State := State([], [], [], false, false)

  function Put(st: State, u: Unit): State {
    st.(field := st.field + [u])
  }

  function EndField(st: State): State {
    st.(row := st.row + [st.field], field := [], quoted := false)
  }

  function EndRow(st: State): State {
    var ended := EndField(st);
    ended.(rows := ended.rows + [ended.row], row := [])
  }

  /** The state after the whole of `s`. */
  function Scan(s: Text, d: Unit, st: State): State
    decreases |s|
  {
    if s == [] then st
    else if st.inQuotes then
      if s[0] != QUOTE then Scan(s[1..], d, Put(st, s[0]))
      else if Starts(s[1..], QUOTE) then Scan(s[2..], d, Put(st, QUOTE))
      else Scan(s[1..], d, st.(inQuotes := false))
    else if s[0] == QUOTE && st.field == [] && !st.quoted then Scan(s[1..], d, st.(inQuotes := true, quoted := true))
    else if s[0] == d then Scan(s[1..], d, EndField(st))
    else if s[0] == CR then Scan(if Starts(s[1..], LF) then s[2..] else s[1..], d, EndRow(st))
    else if s[0] == LF then Scan(s[1..], d, EndRow(st))
    else Scan(s[1..], d, Put(st, s[0]))
  }

  /** A record still pending at the end of the text is a row too. */
  function Finish(st: State): seq<Row> {
    if st.field != [] || st.quoted || st.row != [] then EndRow(st).rows else st.rows
  }

  predicate Dropped(row: Row) {
    |row| == 1 && Blank(row[0])
  }

  /** The rows that are not one blank cell. */
  function Kept(rows: seq<Row>): (kept: seq<Row>)
    ensures |kept| <= |rows|
  {
    if rows == [] then []
    else if Dropped(rows[0]) then Kept(rows[1..])
    else [rows[0]] + Kept(rows[1..])
  }

  function StripBom(s: Text): Text {
    if Starts(s, BOM) then s[1..] else s
  }

  function Grid(s: Text, d: Unit): seq<Row> {
    Kept(Finish(Scan(StripBom(s), d, START)))
  }

  lemma {:induction false} KeptSnoc(rows: seq<Row>, row: Row)
    ensures Kept(rows + [row]) == if Dropped(row) then Kept(rows) else Kept(rows) + [row]
    decreases |rows|
  {
    if rows == [] {
      assert rows + [row] == [row] && [row][1..] == [];
    } else {
      assert (rows + [row])[1..] == rows[1..] + [row];
      KeptSnoc(rows[1..], row);
    }
  }

  method KeepRows(rows: seq<Row>) returns (kept: seq<Row>)
    ensures kept == Kept(rows)
  {
    kept := [];
    for k := 0 to |rows|
      invariant kept == Kept(rows[..k])
    {
      KeptSnoc(rows[..k], rows[k]);
      assert rows[..k + 1] == rows[..k] + [rows[k]];
      if !(|rows[k]| == 1 && Blank(rows[k][0])) {
        kept := kept + [rows[k]];
      }
    }
    assert rows[..|rows|] == rows;
  }

  method ParseGrid(input: Text, d: Unit) returns (grid: seq<Row>)
    ensures grid == Grid(input, d)
  {
    var text := StripBom(input);
    var rows, row, field, quoted, inQuotes := [], [], [], false, false;
    var i := 0;
    while i < |text|
      invariant i <= |text|
      invariant Scan(text[i..], d, State(rows, row, field, quoted, inQuotes)) == Scan(text, d, START)
    {
      var ch := text[i];
      var next: Text := text[i + 1..];
      assert text[i..][0] == ch && text[i..][1..] == next && (next != [] ==> text[i..][2..] == text[i + 2..] && next[0] == text[i + 1]);
      if inQuotes {
        if ch == QUOTE {
          if i + 1 < |text| && text[i + 1] == QUOTE {
            field, i := field + [QUOTE], i + 2;
          } else {
            inQuotes, i := false, i + 1;
          }
        } else {
          field, i := field + [ch], i + 1;
        }
      } else if ch == QUOTE && field == [] && !quoted {
        inQuotes, quoted, i := true, true, i + 1;
      } else if ch == d {
        row, field, quoted, i := row + [field], [], false, i + 1;
      } else if ch == CR {
        rows, row, field, quoted := rows + [row + [field]], [], [], false;
        i := i + if i + 1 < |text| && text[i + 1] == LF then 2 else 1;
      } else if ch == LF {
        rows, row, field, quoted, i := rows + [row + [field]], [], [], false, i + 1;
      } else {
        field, i := field + [ch], i + 1;
      }
    }
    assert text[i..] == [];
    if field != [] || quoted || |row| > 0 {
      rows := rows + [row + [field]];
    }
    grid := KeepRows(rows);
  }
}
