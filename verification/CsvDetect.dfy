/** Guessing the delimiter from the header line, and when the guess is the one a file was written with. */
module CsvDetect {
  import opened JsText
  import opened CsvReader
  import opened CsvDocument
  import opened CsvWriter
  import opened Sequences

  const SEMICOLON: Unit := 59
  const PIPE: Unit := 124

  /** The candidates in order of preference. */
  const CANDIDATES: seq<Unit> := [COMMA, SEMICOLON, TAB, PIPE]

  // ---- outside quotes: behind an even number of them ----

  /** Up to the first line break outside quotes. */
  function Line(s: Text, inQuotes: bool): Text {
    if s == [] then []
    else if s[0] == QUOTE then [QUOTE] + Line(s[1..], !inQuotes)
    else if !inQuotes && (s[0] == LF || s[0] == CR) then []
    else [s[0]] + Line(s[1..], inQuotes)
  }

  function Count(s: Text, needle: Unit, inQuotes: bool): nat {
    if s == [] then 0
    else if s[0] == QUOTE then Count(s[1..], needle, !inQuotes)
    else (if !inQuotes && s[0] == needle then 1 else 0) + Count(s[1..], needle, inQuotes)
  }

  lemma {:induction false} LineStep(s: Text, i: nat, inQuotes: bool)
    requires i < |s|
    ensures s[i] == QUOTE ==> s[..i] + Line(s[i..], inQuotes) == s[..i + 1] + Line(s[i + 1..], !inQuotes)
    ensures s[i] != QUOTE && !(!inQuotes && (s[i] == LF || s[i] == CR)) ==>
      s[..i] + Line(s[i..], inQuotes) == s[..i + 1] + Line(s[i + 1..], inQuotes)
  {
    assert s[i..][1..] == s[i + 1..] && s[..i + 1] == s[..i] + [s[i]];
  }

  method FirstLogicalLine(text: Text) returns (line: Text)
    ensures line == Line(text, false)
  {
    var inQuotes, i := false, 0;
    assert text[0..] == text && text[..0] == [];
    while i < |text|
      invariant i <= |text| && text[..i] + Line(text[i..], inQuotes) == Line(text, false)
    {
      LineStep(text, i, inQuotes);
      if text[i] == QUOTE {
        if inQuotes && i + 1 < |text| && text[i + 1] == QUOTE {
          LineStep(text, i + 1, false);
          i := i + 2;
        } else {
          inQuotes, i := !inQuotes, i + 1;
        }
      } else if !inQuotes && (text[i] == LF || text[i] == CR) {
        assert text[..i] + [] == text[..i];
        return text[..i];
      } else {
        i := i + 1;
      }
    }
    assert text[..i] == text && text[i..] == [] && text + [] == text;
    line := text;
  }

  method CountOutsideQuotes(line: Text, needle: Unit) returns (n: nat)
    ensures n == Count(line, needle, false)
  {
    var inQuotes, i := false, 0;
    n := 0;
    assert line[0..] == line;
    while i < |line|
      invariant i <= |line| && n + Count(line[i..], needle, inQuotes) == Count(line, needle, false)
    {
      assert line[i..][1..] == line[i + 1..];
      if line[i] == QUOTE {
        if inQuotes && i + 1 < |line| && line[i + 1] == QUOTE {
          assert line[i + 1..][1..] == line[i + 2..] && line[i + 1..][0] == QUOTE;
          i := i + 2;
        } else {
          inQuotes, i := !inQuotes, i + 1;
        }
      } else {
        if !inQuotes && line[i] == needle {
          n := n + 1;
        }
        i := i + 1;
      }
    }
  }

  /** The first of the candidates that occur most often, and the comma if none occurs. */
  predicate IsGuess(line: Text, candidates: seq<Unit>, best: Unit) {
    if forall x :: x in candidates ==> Count(line, x, false) == 0 then best == COMMA
    else exists k :: 0 <= k < |candidates| && candidates[k] == best && Leads(line, candidates, k)
  }

  predicate Leads(line: Text, candidates: seq<Unit>, k: nat)
    requires k < |candidates|
  {
    var n := Count(line, candidates[k], false);
    n > 0 && (forall i :: 0 <= i < k ==> Count(line, candidates[i], false) < n)
    && forall i :: k < i < |candidates| ==> Count(line, candidates[i], false) <= n
  }

  method DetectDelimiter(input: Text) returns (best: Unit)
    ensures IsGuess(Line(StripBom(input), false), CANDIDATES, best)
  {
    var text := StripBom(input);
    var header := FirstLogicalLine(text);
    var bestCount := 0;
    ghost var at := 0;
    best := COMMA;
    for k := 0 to |CANDIDATES|
      invariant bestCount == 0 ==> best == COMMA && forall i :: 0 <= i < k ==> Count(header, CANDIDATES[i], false) == 0
      invariant bestCount > 0 ==> 0 <= at < k && CANDIDATES[at] == best && bestCount == Count(header, best, false)
      invariant bestCount > 0 ==> forall i :: 0 <= i < at ==> Count(header, CANDIDATES[i], false) < bestCount
      invariant bestCount > 0 ==> forall i :: at < i < k ==> Count(header, CANDIDATES[i], false) <= bestCount
    {
      var count := CountOutsideQuotes(header, CANDIDATES[k]);
      if count > bestCount {
        bestCount, best, at := count, CANDIDATES[k], k;
      }
    }
    if bestCount > 0 {
      assert Leads(header, CANDIDATES, at);
    }
  }

  // ---- what was written ----

  /** How often `x` stands in a text. */
  function Occurs(s: Text, x: Unit): nat {
    if s == [] then 0 else (if s[0] == x then 1 else 0) + Occurs(s[1..], x)
  }

  lemma {:induction false} BareLine(s: Text, rest: Text, x: Unit)
    requires QUOTE !in s && LF !in s && CR !in s
    ensures Line(s + rest, false) == s + Line(rest, false) && Count(s + rest, x, false) == Occurs(s, x) + Count(rest, x, false)
    decreases |s|
  {
    if s == [] {
      assert s + rest == rest;
    } else {
      assert (s + rest)[1..] == s[1..] + rest;
      BareLine(s[1..], rest, x);
    }
  }

  lemma {:induction false} TwiceLine(u: Unit, rest: Text, x: Unit)
    ensures Line(Twice(u) + rest, true) == Twice(u) + Line(rest, true) && Count(Twice(u) + rest, x, true) == Count(rest, x, true)
  {
    var s := Twice(u) + rest;
    if u == QUOTE {
      assert s[1..] == [QUOTE] + rest && s[1..][1..] == rest;
      assert Line(s, true) == [QUOTE] + Line(s[1..], false) && Line(s[1..], false) == [QUOTE] + Line(rest, true);
      assert Count(s[1..], x, false) == Count(rest, x, true);
    } else {
      assert s[1..] == rest;
    }
  }

  lemma {:induction false} InsideLine(s: Text, rest: Text, x: Unit)
    ensures Line(Doubled(s) + rest, true) == Doubled(s) + Line(rest, true) && Count(Doubled(s) + rest, x, true) == Count(rest, x, true)
    decreases |s|
  {
    if s == [] {
      assert Doubled(s) + rest == rest;
    } else {
      DoubledStep(s, rest);
      TwiceLine(s[0], Doubled(s[1..]) + rest, x);
      InsideLine(s[1..], rest, x);
      DoubledStep(s, Line(rest, true));
    }
  }

  /** How often `x` is seen outside quotes in a written cell. */
  function Seen(cell: Text, d: Unit, x: Unit): nat {
    if NeedsQuotes(cell, d) then 0 else Occurs(cell, x)
  }

  lemma {:induction false} CellLine(cell: Text, d: Unit, rest: Text, x: Unit)
    ensures Line(CsvCell(cell, d) + rest, false) == CsvCell(cell, d) + Line(rest, false)
    ensures Count(CsvCell(cell, d) + rest, x, false) == Seen(cell, d, x) + Count(rest, x, false)
  {
    if NeedsQuotes(cell, d) {
      QuotedPieces(cell, [], rest);
      QuotedPieces(cell, [], Line(rest, false));
      assert [] + rest == rest && [] + Line(rest, false) == Line(rest, false);
      assert CsvCell(cell, d) == Written(Quoted(cell, []));
      QuoteLine(Doubled(cell) + ([QUOTE] + rest), false, x);
      InsideLine(cell, [QUOTE] + rest, x);
      QuoteLine(rest, true, x);
    } else {
      BareLine(cell, rest, x);
    }
  }

  lemma {:induction false} QuoteLine(rest: Text, inQuotes: bool, x: Unit)
    ensures Line([QUOTE] + rest, inQuotes) == [QUOTE] + Line(rest, !inQuotes)
    ensures Count([QUOTE] + rest, x, inQuotes) == Count(rest, x, !inQuotes)
  {
    assert ([QUOTE] + rest)[1..] == rest;
  }

  /** The same for a row: its cells, and one delimiter between any two. */
  function SeenInRow(row: Row, d: Unit, x: Unit): nat {
    if row == [] then 0
    else Seen(row[0], d, x) + (if |row| > 1 && x == d then 1 else 0) + SeenInRow(row[1..], d, x)
  }

  lemma {:induction false} RowLine(row: Row, d: Unit, rest: Text, x: Unit)
    requires IsDelimiter(d) && x != QUOTE
    ensures Line(RowText(row, d) + rest, false) == RowText(row, d) + Line(rest, false)
    ensures Count(RowText(row, d) + rest, x, false) == SeenInRow(row, d, x) + Count(rest, x, false)
    decreases |row|
  {
    if row == [] {
      assert RowText(row, d) + rest == rest;
    } else if |row| == 1 {
      assert CellTexts(row, d) == [CsvCell(row[0], d)];
      CellLine(row[0], d, rest, x);
    } else {
      var a, b := CsvCell(row[0], d), RowText(row[1..], d);
      RowTextStep(row, d);
      Behind(a, d, b, rest);
      RowLine(row[1..], d, rest, x);
      CellLine(row[0], d, [d] + (b + rest), x);
      Behind(a, d, b, Line(rest, false));
    }
  }

  /** Delimiters are quoted inside cells, so that only those between cells are seen. */
  lemma {:induction false} OwnSeen(row: Row, d: Unit)
    ensures SeenInRow(row, d, d) == if row == [] then 0 else |row| - 1
    decreases |row|
  {
    if row == [] {
    } else {
      if !NeedsQuotes(row[0], d) {
        NotThere(row[0], d);
      }
      OwnSeen(row[1..], d);
    }
  }

  lemma {:induction false} NotThere(s: Text, x: Unit)
    requires x !in s
    ensures Occurs(s, x) == 0
    decreases |s|
  {
    if s == [] {
    } else {
      NotThere(s[1..], x);
    }
  }

  lemma {:induction false} HeaderLine(grid: seq<Row>, d: Unit, x: Unit)
    requires IsDelimiter(d) && x != QUOTE && grid != []
    ensures Line(ToCsv(grid, d), false) == RowText(grid[0], d) && Count(RowText(grid[0], d), x, false) == SeenInRow(grid[0], d, x)
  {
    if |grid| == 1 {
      ToCsvOne(grid, d);
      RowEnds(grid[0], d, [], x);
    } else {
      ToCsvStep(grid, d);
      RowEnds(grid[0], d, ToCsv(grid[1..], d), x);
    }
    assert RowText(grid[0], d) + [] == RowText(grid[0], d);
    RowLine(grid[0], d, [], x);
  }

  /** The line break behind a row is outside quotes. */
  lemma {:induction false} RowEnds(row: Row, d: Unit, more: Text, x: Unit)
    requires IsDelimiter(d) && x != QUOTE
    ensures Line(RowText(row, d) + CRLF + more, false) == RowText(row, d)
  {
    Assoc(RowText(row, d), CRLF, more);
    RowLine(row, d, CRLF + more, x);
    assert Line(CRLF + more, false) == [];
    assert RowText(row, d) + [] == RowText(row, d);
  }

  /**
   * A written file is read with the delimiter it was written with exactly when no other candidate is seen more often in the
   * header, nor as often if it is preferred, and a header of one cell was written with the comma.
   */
  lemma {:induction false} OwnDelimiter(grid: seq<Row>, k: nat, guess: Unit)
    requires k < |CANDIDATES| && grid != [] && !Starts(ToCsv(grid, CANDIDATES[k]), BOM)
    requires IsGuess(Line(StripBom(ToCsv(grid, CANDIDATES[k])), false), CANDIDATES, guess)
    ensures var d := CANDIDATES[k]; var n := if grid[0] == [] then 0 else |grid[0]| - 1;
      guess == d <==>
        (n > 0 || d == COMMA)
        && (forall i :: 0 <= i < k ==> SeenInRow(grid[0], d, CANDIDATES[i]) < n)
        && (forall i :: k < i < |CANDIDATES| ==> SeenInRow(grid[0], d, CANDIDATES[i]) <= n)
  {
    var d := CANDIDATES[k];
    var line := Line(ToCsv(grid, d), false);
    forall i | 0 <= i < |CANDIDATES|
      ensures Count(line, CANDIDATES[i], false) == SeenInRow(grid[0], d, CANDIDATES[i])
    {
      HeaderLine(grid, d, CANDIDATES[i]);
    }
    OwnSeen(grid[0], d);
  }
}
