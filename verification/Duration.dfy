/** The duration printer and parser of the command line. */
module Duration {
  import opened Decimal
  import opened JsText
  import opened Wrappers

  const DOT: Unit := 46
  const LETTER_H: Unit := 104
  const LETTER_M: Unit := 109
  const LETTER_S: Unit := 115

  /** The spellings of the units in the order of the alternation: hours, hour, hrs, hr, h, minutes, ..., sec, s. */
  const SPELLINGS: seq<Text> := [
    [104, 111, 117, 114, 115], [104, 111, 117, 114], [104, 114, 115], [104, 114], [104],
    [109, 105, 110, 117, 116, 101, 115], [109, 105, 110, 117, 116, 101], [109, 105, 110, 115], [109, 105, 110], [109],
    [115, 101, 99, 111, 110, 100, 115], [115, 101, 99, 111, 110, 100], [115, 101, 99, 115], [115, 101, 99], [115]]

  // ---- matching ----

  function DigitsAt(s: Text): (n: nat)
    ensures n <= |s| && forall u :: u in s[..n] ==> IsDigit(u)
    ensures n < |s| ==> !IsDigit(s[n])
  {
    if s == [] || !IsDigit(s[0]) then 0 else
      var n := DigitsAt(s[1..]);
      assert s[..n + 1] == [s[0]] + s[1..][..n];
      n + 1
  }

  /** `(?:\.\d+)?` */
  function FractionAt(s: Text): (n: nat)
    ensures n <= |s|
  {
    if Starts(s, DOT) && DigitsAt(s[1..]) > 0 then 1 + DigitsAt(s[1..]) else 0
  }

  /** The first of the spellings that stands here. */
  function SpellingAt(s: Text, units: seq<Text>): (r: Option<Text>)
    ensures r.Some? ==> r.value in units && r.value <= s
  {
    if units == [] then None else if units[0] <= s then Some(units[0]) else SpellingAt(s, units[1..])
  }

  /** A number with its unit: digits, digits behind the point, and the spelling of the unit. */
  datatype Group = Group(whole: Text, fraction: Text, unit: Text)

  predicate AllDigits(s: Text) {
    forall u :: u in s ==> IsDigit(u)
  }

  predicate Formed(g: Group, units: seq<Text>) {
    g.whole != [] && AllDigits(g.whole) && AllDigits(g.fraction) && g.unit in units
  }

  function NumberText(whole: Text, fraction: Text): Text {
    if fraction == [] then whole else whole + [DOT] + fraction
  }

  function GroupText(g: Group): Text {
    NumberText(g.whole, g.fraction) + g.unit
  }

  function FractionDigits(s: Text, f: nat): Text
    requires f <= |s|
  {
    if f == 0 then [] else s[1..f]
  }

  /** The group at the front, as the pattern matches it: giving digits back would not help it on. */
  function GroupAt(s: Text, units: seq<Text>): Option<Group> {
    var n := DigitsAt(s);
    var f := FractionAt(s[n..]);
    if n == 0 then None else
      match SpellingAt(s[n..][f..], units)
      case None => None
      case Some(unit) => Some(Group(s[..n], FractionDigits(s[n..], f), unit))
  }

  // ---- values, exact ----

  function NumberValue(whole: Text, fraction: Text): real {
    NumberOf(whole) as real + NumberOf(fraction) as real / Pow10(|fraction|) as real
  }

  function InMinutes(g: Group): real {
    var value := NumberValue(g.whole, g.fraction);
    if Starts(g.unit, LETTER_H) then value * 60.0 else if Starts(g.unit, LETTER_S) then value / 60.0 else value
  }

  /** To two places: `Math.round` is the floor of one half more. */
  function Round(minutes: real): real {
    (minutes * 100.0 + 0.5).Floor as real / 100.0
  }

  // ---- the parser ----

  datatype Tally = Tally(total: real, matched: nat, consumed: nat)

  function Count(t: Tally, g: Group): Tally {
    Tally(t.total + InMinutes(g), t.matched + 1, t.consumed + |GroupText(g)|)
  }

  /** All matches from here on; what does not match is skipped. */
  function Matches(s: Text, units: seq<Text>, t: Tally): Tally
    decreases |s|
  {
    if s == [] then t else
      match GroupAt(s, units)
      case None => Matches(s[1..], units, t)
      case Some(g) =>
        GroupStands(s, units);
        Matches(s[|GroupText(g)|..], units, Count(t, g))
  }

  /** The number in front of the unit. */
  lemma {:induction false} NumberStands(s: Text, n: nat, f: nat)
    requires n == DigitsAt(s) && f == FractionAt(s[n..])
    ensures n + f <= |s| && NumberText(s[..n], FractionDigits(s[n..], f)) == s[..n + f]
    ensures AllDigits(FractionDigits(s[n..], f))
  {
    if f > 0 {
      assert s[n..][1..f] == s[n..][1..][..f - 1];
      assert s[..n] + [DOT] + s[n..][1..f] == s[..n + f];
    }
  }

  lemma {:induction false} GroupStands(s: Text, units: seq<Text>)
    requires GroupAt(s, units).Some?
    ensures var g := GroupAt(s, units).value; Formed(g, units) && GroupText(g) <= s && |GroupText(g)| > 0
  {
    var n := DigitsAt(s);
    var f := FractionAt(s[n..]);
    var unit := SpellingAt(s[n..][f..], units).value;
    NumberStands(s, n, f);
    assert s == s[..n + f] + s[n..][f..];
    assert s[..n + f] + unit <= s;
  }

  function Lower(u: Unit): Unit {
    if 65 <= u <= 90 then u + 32 else u
  }

  function LowerAll(s: Text): (r: Text)
    ensures |r| == |s|
  {
    if s == [] then [] else [Lower(s[0])] + LowerAll(s[1..])
  }

  function Compact(text: Text): Text {
    WithoutSpaces(LowerAll(text))
  }

  /** A number and nothing else. */
  predicate IsNumber(s: Text) {
    DigitsAt(s) > 0 && DigitsAt(s) + FractionAt(s[DigitsAt(s)..]) == |s|
  }

  const NOTHING: Tally := Tally(0.0, 0, 0)

  function Parsed(text: Text): Option<real> {
    var s := Compact(text);
    if s == [] then None
    else if IsNumber(s) then Some(Round(NumberAt(s)))
    else Accepted(Matches(s, SPELLINGS, NOTHING), |s|)
  }

  function NumberAt(s: Text): real {
    var n := DigitsAt(s);
    NumberValue(s[..n], FractionDigits(s[n..], FractionAt(s[n..])))
  }

  /** Every character has to belong to a match. */
  function Accepted(t: Tally, length: nat): Option<real> {
    if t.matched == 0 || t.consumed != length then None else Some(Round(t.total))
  }

  /** One turn of the loop over the matches: a character that begins none, or a whole match. */
  lemma {:induction false} Turn(s: Text, at: nat, units: seq<Text>, t: Tally)
    requires at < |s|
    ensures GroupAt(s[at..], units).None? ==> Matches(s[at..], units, t) == Matches(s[at + 1..], units, t)
    ensures GroupAt(s[at..], units).Some? ==> var g := GroupAt(s[at..], units).value;
      0 < |GroupText(g)| <= |s| - at && Matches(s[at..], units, t) == Matches(s[at + |GroupText(g)|..], units, Count(t, g))
  {
    assert s[at..][1..] == s[at + 1..];
    if GroupAt(s[at..], units).Some? {
      GroupStands(s[at..], units);
      var length := |GroupText(GroupAt(s[at..], units).value)|;
      assert s[at..][length..] == s[at + length..];
    }
  }

  lemma {:induction false} Borders(s: Text, units: seq<Text>, t: Tally)
    ensures s[0..] == s && Matches(s[|s|..], units, t) == t
  {
  }

  /** The next match, or one character on. */
  method Advance(s: Text, at: nat, units: seq<Text>, tally: Tally) returns (next: nat, more: Tally)
    requires at < |s|
    ensures at < next <= |s| && Matches(s[next..], units, more) == Matches(s[at..], units, tally)
  {
    Turn(s, at, units, tally);
    var m := GroupAt(s[at..], units);
    next := if m.None? then at + 1 else at + |GroupText(m.value)|;
    more := if m.None? then tally else Count(tally, m.value);
  }

  method TallyMatches(s: Text, units: seq<Text>) returns (tally: Tally)
    ensures tally == Matches(s, units, NOTHING)
  {
    tally := NOTHING;
    var at := 0;
    Borders(s, units, tally);
    ghost var all := Matches(s, units, tally);
    while at < |s|
      invariant at <= |s| && Matches(s[at..], units, tally) == all
    {
      at, tally := Advance(s, at, units, tally);
    }
    Borders(s, units, tally);
  }

  method ParseDuration(text: Text) returns (r: Option<real>)
    ensures r == Parsed(text)
  {
    var compact := Compact(text);
    if compact == [] {
      return None;
    }
    if IsNumber(compact) {
      return Some(Round(NumberAt(compact)));
    }
    var tally := TallyMatches(compact, SPELLINGS);
    r := if tally.matched == 0 || tally.consumed != |compact| then None else Some(Round(tally.total));
  }
}
