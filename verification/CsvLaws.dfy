/** The CSV reader, writers and guess once more, character by character. */
module CsvLaws {
  import opened CsvDetect
  import opened CsvDocument
  import opened CsvReader
  import opened CsvWriter
  import opened JsText

  // ---- cells ----

  /** A cell is written in quotes exactly if it holds the delimiter, a quote or a line break, and as it is otherwise. */
  lemma {:induction false} QuotedIfNeeded(s: Text, d: Unit)
    requires d != '"' as nat
    ensures CsvCell(s, d) == s <==> forall u :: u in s ==> u != d && u != '"' as nat && u != 10 && u != 13
  {
    if NeedsQuotes(s, d) {
      QuotesLengthen(s, d);
    }
  }

  lemma {:induction false} QuotesLengthen(s: Text, d: Unit)
    requires NeedsQuotes(s, d)
    ensures |CsvCell(s, d)| > |s|
  {
    Longer(s);
  }

  lemma {:induction false} Longer(s: Text)
    ensures |Doubled(s)| >= |s|
  {
    if s == [] {
    } else {
      Longer(s[1..]);
    }
  }

  /** What a spreadsheet would calculate. */
  predicate Calculated(s: Text) {
    s != [] && (s[0] == '=' as nat || s[0] == '+' as nat || s[0] == '-' as nat || s[0] == '@' as nat || s[0] == 9 || s[0] == 13)
  }

  /** Only what would be calculated is changed, by an apostrophe in front, and nothing is calculated then. */
  lemma {:induction false} GuardIs(s: Text)
    ensures Guarded(s) == if Calculated(s) then ['\'' as nat] + s else s
    ensures !Calculated(Guarded(s))
  {
  }

  lemma {:induction false} GuardedRowIs(row: Row, j: nat)
    requires j < |row|
    ensures GuardedRow(row)[j] == Guarded(row[j])
  {
    if j == 0 {
    } else {
      GuardedRowIs(row[1..], j - 1);
    }
  }

  lemma {:induction false} GuardedRowsAre(rows: seq<Row>, i: nat)
    requires i < |rows|
    ensures GuardedRows(rows)[i] == GuardedRow(rows[i])
  {
    if i == 0 {
    } else {
      GuardedRowsAre(rows[1..], i - 1);
    }
  }

  lemma {:induction false} CellsOfAre(columns: Row, record: map<Text, Text>, j: nat)
    requires j < |columns|
    ensures |CellsOf(columns, record)| == |columns|
    ensures CellsOf(columns, record)[j] == if columns[j] in record then record[columns[j]] else []
    decreases |columns|
  {
    if columns[1..] == [] {
    } else {
      CellsOfAre(columns[1..], record, if j == 0 then 0 else j - 1);
    }
  }

  lemma {:induction false} TableIs(columns: Row, records: seq<map<Text, Text>>, i: nat)
    requires i < |records|
    ensures |Table(columns, records)| == |records| && Table(columns, records)[i] == CellsOf(columns, records[i])
    decreases |records|
  {
    if records[1..] == [] {
    } else {
      TableIs(columns, records[1..], if i == 0 then 0 else i - 1);
    }
  }

  /** The export has the columns in its first row, and in row `i + 1` what record `i` has under each of them. */
  lemma {:induction false} ExportedCell(columns: Row, records: seq<map<Text, Text>>, i: nat, j: nat)
    requires i < |records| && j < |columns|
    ensures var rows := Exported(columns, records);
      && |rows| == |records| + 1 && |rows[0]| == |rows[i + 1]| == |columns| && rows[0][j] == Guarded(columns[j])
      && rows[i + 1][j] == Guarded(if columns[j] in records[i] then records[i][columns[j]] else [])
  {
    var all := [columns] + Table(columns, records);
    TableIs(columns, records, i);
    CellsOfAre(columns, records[i], j);
    assert all[i + 1] == CellsOf(columns, records[i]);
    GuardedRowsAre(all, 0);
    GuardedRowsAre(all, i + 1);
    GuardedRowIs(columns, j);
    GuardedRowIs(all[i + 1], j);
  }

  // ---- lines ----

  /** Every row, the last one included, ends in CR LF. */
  lemma {:induction false} RowsEnd(row: Row, rest: seq<Row>, d: Unit)
    ensures ToCsv([row] + rest, d) == RowText(row, d) + [13, 10] + if rest == [] then [] else ToCsv(rest, d)
  {
    if rest == [] {
      assert [row] + rest == [row];
      ToCsvOne([row], d);
    } else {
      ToCsvStep([row] + rest, d);
      assert ([row] + rest)[1..] == rest;
    }
  }

  /** A byte order mark in front of a text makes no difference to its grid. */
  lemma {:induction false} MarkDropped(s: Text, d: Unit)
    requires s == [] || s[0] != 0xFEFF
    ensures Grid([0xFEFF] + s, d) == Grid(s, d)
  {
    assert ([0xFEFF] + s)[1..] == s;
  }

  /** A row is dropped exactly if it is one cell of nothing but white space. */
  lemma {:induction false} KeptIs(rows: seq<Row>, row: Row)
    ensures Kept(rows + [row]) == Kept(rows) + if |row| == 1 && (forall u :: u in row[0] ==> IsSpace(u)) then [] else [row]
  {
    KeptSnoc(rows, row);
  }

  // ---- outside quotes ----

  /** Behind an even number of quotes. */
  predicate OutsideAt(s: Text, k: nat, inQuotes: bool)
    requires k <= |s|
  {
    Occurs(s[..k], '"' as nat) % 2 == if inQuotes then 1 else 0
  }

  lemma {:induction false} OutsideNext(s: Text, k: nat, inQuotes: bool)
    requires s != [] && k < |s|
    ensures OutsideAt(s, k + 1, inQuotes) <==> OutsideAt(s[1..], k, if s[0] == QUOTE then !inQuotes else inQuotes)
  {
    assert s[..k + 1][0] == s[0] && s[..k + 1][1..] == s[1..][..k];
  }

  lemma {:induction false} LineNext(s: Text, inQuotes: bool)
    requires s != [] && Line(s, inQuotes) != []
    ensures Line(s, inQuotes) == [s[0]] + Line(s[1..], if s[0] == QUOTE then !inQuotes else inQuotes)
    ensures (s[0] == 10 || s[0] == 13) ==> inQuotes
  {
  }

  /** The line ends where it has to. */
  lemma {:induction false} LineEnds(s: Text, inQuotes: bool)
    ensures var line := Line(s, inQuotes);
      line <= s && (|line| < |s| ==> (s[|line|] == 10 || s[|line|] == 13) && OutsideAt(s, |line|, inQuotes))
    decreases |s|
  {
    if s == [] {
    } else if Line(s, inQuotes) == [] {
      assert s[..0] == [];
    } else {
      var now := if s[0] == QUOTE then !inQuotes else inQuotes;
      LineNext(s, inQuotes);
      LineEnds(s[1..], now);
      if |Line(s, inQuotes)| < |s| {
        OutsideNext(s, |Line(s, inQuotes)| - 1, inQuotes);
      }
    }
  }

  /** And no earlier. */
  lemma {:induction false} LineGoesOn(s: Text, inQuotes: bool, k: nat)
    requires k < |Line(s, inQuotes)| <= |s| && (s[k] == 10 || s[k] == 13)
    ensures !OutsideAt(s, k, inQuotes)
    decreases |s|
  {
    LineNext(s, inQuotes);
    if k == 0 {
      assert s[..0] == [];
    } else {
      LineGoesOn(s[1..], if s[0] == QUOTE then !inQuotes else inQuotes, k - 1);
      OutsideNext(s, k - 1, inQuotes);
    }
  }

  /** The header line ends at the first line break behind an even number of quotes. */
  lemma {:induction false} LineIs(s: Text)
    ensures var line := Line(s, false);
      && line <= s && (|line| < |s| ==> (s[|line|] == 10 || s[|line|] == 13) && Occurs(line, '"' as nat) % 2 == 0)
      && forall k :: 0 <= k < |line| && (s[k] == 10 || s[k] == 13) ==> Occurs(s[..k], '"' as nat) % 2 == 1
  {
    LineEnds(s, false);
    assert Line(s, false) == s[..|Line(s, false)|];
    forall k | 0 <= k < |Line(s, false)| && (s[k] == 10 || s[k] == 13)
      ensures Occurs(s[..k], '"' as nat) % 2 == 1
    {
      LineGoesOn(s, false, k);
    }
  }

  /** One more character counts if it is the one looked for and stands behind an even number of quotes. */
  lemma {:induction false} CountAppend(s: Text, u: Unit, needle: Unit, inQuotes: bool)
    requires needle != '"' as nat
    ensures Count(s + [u], needle, inQuotes) == Count(s, needle, inQuotes) + if u == needle && OutsideAt(s, |s|, inQuotes) then 1 else 0
    decreases |s|
  {
    assert s[..|s|] == s;
    if s == [] {
      assert s + [u] == [u] && [u][1..] == [];
    } else {
      var now := if s[0] == QUOTE then !inQuotes else inQuotes;
      assert (s + [u])[1..] == s[1..] + [u] && s[1..][..|s| - 1] == s[1..];
      CountAppend(s[1..], u, needle, now);
      OutsideNext(s, |s| - 1, inQuotes);
    }
  }

  /** What is tried: comma, semicolon, tab and bar, and the comma is the answer if none of them occurs. */
  lemma {:induction false} CandidatesAre(line: Text, best: Unit)
    requires IsGuess(line, CANDIDATES, best)
    ensures CANDIDATES == [',' as nat, ';' as nat, 9, '|' as nat]
    ensures Count(line, best, false) == 0 ==> best == ',' as nat
    ensures forall d :: d in CANDIDATES ==> Count(line, d, false) <= Count(line, best, false)
  {
    if !(forall x :: x in CANDIDATES ==> Count(line, x, false) == 0) {
      var k :| 0 <= k < |CANDIDATES| && CANDIDATES[k] == best && Leads(line, CANDIDATES, k);
    }
  }
}
