/** Text values in a content line of a calendar (RFC 5545, section 3.3.11), escaped and unescaped. */
module Ical {
  import opened JsText
  import opened Wrappers

  const BACKSLASH: Unit := 92
  const SEMICOLON: Unit := 59
  const COLON: Unit := 58
  const LETTER_N: Unit := 110

  // ---- escaping, section 3.3.11 ----

  /** Every `u` replaced by `t`. */
  function Substitute(s: Text, u: Unit, t: Text): Text {
    if s == [] then [] else (if s[0] == u then t else [s[0]]) + Substitute(s[1..], u, t)
  }

  predicate CrLfAt(s: Text) {
    |s| > 1 && s[0] == CR && s[1] == LF
  }

  /** Every line break, CR LF counting as one, replaced by `t`. */
  function Breaks(s: Text, t: Text): Text {
    if s == [] then []
    else if CrLfAt(s) then t + Breaks(s[2..], t)
    else (if s[0] == CR || s[0] == LF then t else [s[0]]) + Breaks(s[1..], t)
  }

  function Delimited(s: Text): Text {
    Substitute(Substitute(Substitute(s, BACKSLASH, [BACKSLASH, BACKSLASH]), SEMICOLON, [BACKSLASH, SEMICOLON]), COMMA, [BACKSLASH, COMMA])
  }

  function EscapeText(value: Text): Text {
    Breaks(Delimited(value), [BACKSLASH, LETTER_N])
  }

  function Normalised(value: Text): Text {
    Breaks(value, [LF])
  }

  /** The reader's side: the character behind a backslash, or a line break for `n`. */
  function Unescape(s: Text): Text {
    if s == [] then []
    else if s[0] == BACKSLASH && |s| > 1 then [if s[1] == LETTER_N then LF else s[1]] + Unescape(s[2..])
    else [s[0]] + Unescape(s[1..])
  }

  /** What the four passes make of one character that is not a line break. */
  function Escaped(u: Unit): Text {
    if u == BACKSLASH || u == SEMICOLON || u == COMMA then [BACKSLASH, u] else [u]
  }

  lemma {:induction false} SubstituteJoin(a: Text, b: Text, u: Unit, t: Text)
    ensures Substitute(a + b, u, t) == Substitute(a, u, t) + Substitute(b, u, t)
    decreases |a|
  {
    if a == [] {
      assert a + b == b;
    } else {
      assert (a + b)[1..] == a[1..] + b;
      SubstituteJoin(a[1..], b, u, t);
    }
  }

  lemma {:induction false} SubstituteOne(v: Unit, u: Unit, t: Text)
    ensures Substitute([v], u, t) == if v == u then t else [v]
  {
    assert [v][1..] == [];
  }

  lemma {:induction false} SubstituteTwo(v: Unit, w: Unit, u: Unit, t: Text)
    requires v != u && w != u
    ensures Substitute([v, w], u, t) == [v, w]
  {
    assert [v, w][1..] == [w];
    SubstituteOne(w, u, t);
  }

  lemma {:induction false} DelimitedJoin(a: Text, b: Text)
    ensures Delimited(a + b) == Delimited(a) + Delimited(b)
  {
    var one := [BACKSLASH, BACKSLASH];
    var two := [BACKSLASH, SEMICOLON];
    SubstituteJoin(a, b, BACKSLASH, one);
    SubstituteJoin(Substitute(a, BACKSLASH, one), Substitute(b, BACKSLASH, one), SEMICOLON, two);
    SubstituteJoin(Substitute(Substitute(a, BACKSLASH, one), SEMICOLON, two), Substitute(Substitute(b, BACKSLASH, one), SEMICOLON, two),
                   COMMA, [BACKSLASH, COMMA]);
  }

  /** The backslash is doubled before the others are put in front of a delimiter, so none is doubled twice. */
  lemma {:induction false} DelimitedOne(u: Unit)
    ensures Delimited([u]) == Escaped(u)
  {
    SubstituteOne(u, BACKSLASH, [BACKSLASH, BACKSLASH]);
    SubstituteOne(u, SEMICOLON, [BACKSLASH, SEMICOLON]);
    SubstituteOne(u, COMMA, [BACKSLASH, COMMA]);
    SubstituteTwo(BACKSLASH, BACKSLASH, SEMICOLON, [BACKSLASH, SEMICOLON]);
    SubstituteTwo(BACKSLASH, BACKSLASH, COMMA, [BACKSLASH, COMMA]);
    SubstituteTwo(BACKSLASH, SEMICOLON, COMMA, [BACKSLASH, COMMA]);
  }

  lemma {:induction false} DelimitedStep(s: Text)
    requires s != []
    ensures Delimited(s) == Escaped(s[0]) + Delimited(s[1..])
  {
    assert s == [s[0]] + s[1..];
    DelimitedJoin([s[0]], s[1..]);
    DelimitedOne(s[0]);
  }

  lemma {:induction false} BreaksFront(a: Text, s: Text, t: Text)
    requires CR !in a && LF !in a
    ensures Breaks(a + s, t) == a + Breaks(s, t)
    decreases |a|
  {
    if a == [] {
      assert a + s == s;
    } else {
      assert (a + s)[1..] == a[1..] + s;
      BreaksFront(a[1..], s, t);
    }
  }

  /** The four passes are one: a line break becomes an escape, and any other character is escaped by itself. */
  lemma {:induction false} EscapeStep(s: Text)
    requires s != []
    ensures CrLfAt(s) ==> EscapeText(s) == [BACKSLASH, LETTER_N] + EscapeText(s[2..])
    ensures !CrLfAt(s) && (s[0] == CR || s[0] == LF) ==> EscapeText(s) == [BACKSLASH, LETTER_N] + EscapeText(s[1..])
    ensures s[0] != CR && s[0] != LF ==> EscapeText(s) == Escaped(s[0]) + EscapeText(s[1..])
  {
    DelimitedStep(s);
    var all, rest := Delimited(s), Delimited(s[1..]);
    if s[0] == CR || s[0] == LF {
      assert all == [s[0]] + rest && all[1..] == rest;
      if s[1..] != [] {
        DelimitedStep(s[1..]);
        assert s[1..][1..] == s[2..];
        if CrLfAt(s) {
          assert rest == [LF] + Delimited(s[2..]);
          assert all[2..] == Delimited(s[2..]);
        }
      }
    } else {
      BreaksFront(Escaped(s[0]), rest, [BACKSLASH, LETTER_N]);
    }
  }

  lemma {:induction false} UnescapePair(u: Unit, s: Text)
    ensures Unescape([BACKSLASH, u] + s) == [if u == LETTER_N then LF else u] + Unescape(s)
  {
    assert ([BACKSLASH, u] + s)[2..] == s;
  }

  lemma {:induction false} UnescapePlain(u: Unit, s: Text)
    requires u != BACKSLASH
    ensures Unescape([u] + s) == [u] + Unescape(s)
  {
    assert ([u] + s)[1..] == s;
  }

  /** Unescaping gives the value back, with every line break as LF. */
  lemma {:induction false} UnescapeBack(value: Text)
    ensures Unescape(EscapeText(value)) == Normalised(value)
    decreases |value|
  {
    if value == [] {
    } else {
      EscapeStep(value);
      if CrLfAt(value) {
        UnescapeBack(value[2..]);
        UnescapePair(LETTER_N, EscapeText(value[2..]));
      } else {
        UnescapeBack(value[1..]);
        UnescapePair(LETTER_N, EscapeText(value[1..]));
        UnescapePair(value[0], EscapeText(value[1..]));
        UnescapePlain(if value[0] == BACKSLASH then COLON else value[0], EscapeText(value[1..]));
      }
    }
  }

  /** An escaped value stays on one line. */
  lemma {:induction false} OneLine(value: Text)
    ensures CR !in EscapeText(value) && LF !in EscapeText(value)
    decreases |value|
  {
    if value == [] {
    } else {
      EscapeStep(value);
      OneLine(value[1..]);
      if CrLfAt(value) {
        OneLine(value[2..]);
      }
    }
  }

  lemma {:induction false} SameEscape(value: Text)
    ensures EscapeText(Normalised(value)) == EscapeText(value)
    decreases |value|
  {
    if value == [] {
    } else {
      EscapeStep(value);
      EscapeStep(Normalised(value));
      if CrLfAt(value) {
        SameEscape(value[2..]);
        assert Normalised(value)[1..] == Normalised(value[2..]);
      } else {
        SameEscape(value[1..]);
        assert Normalised(value)[1..] == Normalised(value[1..]);
      }
    }
  }

  /** Two values are written alike exactly when they differ in their line breaks only. */
  lemma {:induction false} EscapeTells(a: Text, b: Text)
    ensures EscapeText(a) == EscapeText(b) <==> Normalised(a) == Normalised(b)
  {
    UnescapeBack(a);
    UnescapeBack(b);
    SameEscape(a);
    SameEscape(b);
  }

  // ---- the grammar of text values ----

  predicate Escapable(u: Unit) {
    u == '\\' as nat || u == ';' as nat || u == ',' as nat || u == 'n' as nat || u == 'N' as nat
  }

  predicate Safe(u: Unit) {
    u != '\\' as nat && u != ';' as nat && u != ',' as nat && u != 10 && u != 13
  }

  function Ahead(u: Unit, rest: Option<Text>): Option<Text> {
    match rest
    case None => None
    case Some(t) => Some([u] + t)
  }

  /** A reader that takes nothing but what the grammar of section 3.3.11 allows: safe characters, and these five escapes. */
  function ReadText(s: Text): Option<Text> {
    if s == [] then Some([])
    else if Safe(s[0]) then Ahead(s[0], ReadText(s[1..]))
    else if s[0] == '\\' as nat && |s| > 1 && Escapable(s[1]) then
      Ahead(if s[1] == 'n' as nat || s[1] == 'N' as nat then 10 else s[1], ReadText(s[2..]))
    else None
  }

  /** The value without a carriage return: a pair is one line break, and so is one by itself. */
  function WithLineFeeds(s: Text): Text {
    if s == [] then []
    else if s[0] == 13 then [10 as Unit] + WithLineFeeds(if |s| > 1 && s[1] == 10 then s[2..] else s[1..])
    else [s[0]] + WithLineFeeds(s[1..])
  }

  lemma {:induction false} NormalisedIs(s: Text)
    ensures Normalised(s) == WithLineFeeds(s)
    decreases |s|
  {
    if s == [] {
    } else if CrLfAt(s) {
      NormalisedIs(s[2..]);
    } else {
      NormalisedIs(s[1..]);
    }
  }

  lemma {:induction false} ReadPair(u: Unit, s: Text)
    requires Escapable(u)
    ensures ReadText([BACKSLASH, u] + s) == Ahead(if u == 'n' as nat || u == 'N' as nat then 10 else u, ReadText(s))
  {
    assert ([BACKSLASH, u] + s)[2..] == s;
  }

  lemma {:induction false} ReadPlain(u: Unit, s: Text)
    requires Safe(u)
    ensures ReadText([u] + s) == Ahead(u, ReadText(s))
  {
    assert ([u] + s)[1..] == s;
  }

  /** What is written is in the grammar, every comma and semicolon behind its backslash, and says the value. */
  lemma {:induction false} StrictlyReadBack(value: Text)
    ensures ReadText(EscapeText(value)) == Some(WithLineFeeds(value))
    decreases |value|
  {
    if value == [] {
    } else {
      EscapeStep(value);
      if CrLfAt(value) {
        StrictlyReadBack(value[2..]);
        ReadPair(LETTER_N, EscapeText(value[2..]));
      } else {
        StrictlyReadBack(value[1..]);
        if value[0] == CR || value[0] == LF {
          ReadPair(LETTER_N, EscapeText(value[1..]));
        } else if Safe(value[0]) {
          ReadPlain(value[0], EscapeText(value[1..]));
        } else {
          ReadPair(value[0], EscapeText(value[1..]));
        }
      }
    }
  }
}
