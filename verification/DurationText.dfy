/** What the duration parser accepts, and that it reads every printed duration back. */
module DurationText {
  import opened Decimal
  import opened Duration
  import opened JsText
  import opened Wrappers

  // ---- the alternation finds the spelling that was written ----

  predicate NoDigits(s: Text) {
    s != [] && forall u :: u in s ==> !IsDigit(u)
  }

  function Head(s: Text): Unit {
    if s == [] then 0 else s[0]
  }

  predicate AllNoDigits(units: seq<Text>) {
    forall u :: u in units ==> NoDigits(u)
  }

  /** Spellings of one unit get shorter, so that none is the beginning of one that is tried after it. */
  predicate Ordered(units: seq<Text>) {
    AllNoDigits(units)
    && forall i, j :: 0 <= i < j < |units| ==> Head(units[i]) != Head(units[j]) || |units[i]| > |units[j]|
  }

  function Measure(u: Text): nat {
    |u| + if Head(u) == LETTER_H then 20 else if Head(u) == LETTER_M then 10 else 0
  }

  predicate Falling(units: seq<Text>) {
    forall k :: 0 < k < |units| ==> Measure(units[k - 1]) > Measure(units[k])
  }

  lemma {:induction false} FallsFurther(units: seq<Text>, i: nat, j: nat)
    requires Falling(units) && i < j < |units|
    ensures Measure(units[i]) > Measure(units[j])
    decreases j
  {
    if i >= j - 1 {
    } else {
      FallsFurther(units, i, j - 1);
    }
  }

  lemma {:induction false} FallingIsOrdered(units: seq<Text>)
    requires Falling(units) && AllNoDigits(units)
    ensures Ordered(units)
  {
    forall i, j | 0 <= i < j < |units|
      ensures Head(units[i]) != Head(units[j]) || |units[i]| > |units[j]|
    {
      FallsFurther(units, i, j);
    }
  }

  lemma {:induction false} SpellingsOrdered()
    ensures Ordered(SPELLINGS)
  {
    var measures := [25, 24, 23, 22, 21, 17, 16, 14, 13, 11, 7, 6, 4, 3, 1];
    assert forall k :: 0 <= k < |SPELLINGS| ==> NoDigits(SPELLINGS[k]) && Measure(SPELLINGS[k]) == measures[k];
    FallingIsOrdered(SPELLINGS);
  }

  /** What may follow a unit: nothing, or the next number. */
  predicate Next(more: Text) {
    more == [] || IsDigit(more[0])
  }

  lemma {:induction false} SpellingFound(u: Text, more: Text, units: seq<Text>)
    requires Ordered(units) && u in units && Next(more)
    ensures SpellingAt(u + more, units) == Some(u)
    decreases |units|
  {
    if units[0] == u {
      assert u <= u + more;
    } else {
      var j :| 0 < j < |units| && units[j] == u;
      NotBefore(units[0], u, more);
      RestOrdered(units);
      assert u == units[1..][j - 1];
      SpellingFound(u, more, units[1..]);
    }
  }

  lemma {:induction false} RestOrdered(units: seq<Text>)
    requires units != [] && Ordered(units)
    ensures Ordered(units[1..])
  {
  }

  lemma {:induction false} NotBefore(first: Text, u: Text, more: Text)
    requires NoDigits(first) && NoDigits(u) && Next(more) && (Head(first) != Head(u) || |first| > |u|)
    ensures !(first <= u + more)
  {
    if |first| > |u| && more != [] {
      assert (u + more)[|u|] == more[0] && first[|u|] in first;
    }
    assert (u + more)[0] == u[0];
  }

  // ---- groups read back ----

  lemma {:induction false} DigitsFound(a: Text, s: Text)
    requires AllDigits(a) && !Starting(s)
    ensures DigitsAt(a + s) == |a| && (a + s)[..|a|] == a && (a + s)[|a|..] == s
    decreases |a|
  {
    if a == [] {
      assert a + s == s;
    } else {
      assert a[0] in a && (a + s)[1..] == a[1..] + s;
      DigitsFound(a[1..], s);
    }
  }

  predicate Starting(s: Text) {
    s != [] && IsDigit(s[0])
  }

  lemma {:induction false} NumberFound(whole: Text, fraction: Text, rest: Text)
    requires AllDigits(whole) && AllDigits(fraction) && !Starting(rest) && !Starts(rest, DOT)
    ensures var s := NumberText(whole, fraction) + rest; var n := DigitsAt(s); var f := FractionAt(s[n..]);
      n == |whole| && s[..n] == whole && FractionDigits(s[n..], f) == fraction && s[n..][f..] == rest
  {
    if fraction == [] {
      DigitsFound(whole, rest);
    } else {
      var behind := [DOT] + (fraction + rest);
      assert NumberText(whole, fraction) + rest == whole + behind;
      DigitsFound(whole, behind);
      assert behind[1..] == fraction + rest;
      DigitsFound(fraction, rest);
      assert behind[1..1 + |fraction|] == fraction && behind[1 + |fraction|..] == rest;
    }
  }

  lemma {:induction false} GroupFound(g: Group, more: Text, units: seq<Text>)
    requires Ordered(units) && NoDot(units) && Formed(g, units) && Next(more)
    ensures GroupAt(GroupText(g) + more, units) == Some(g)
  {
    assert g.unit[0] in g.unit;
    assert GroupText(g) + more == NumberText(g.whole, g.fraction) + (g.unit + more);
    NumberFound(g.whole, g.fraction, g.unit + more);
    SpellingFound(g.unit, more, units);
  }

  function GroupsText(gs: seq<Group>): Text {
    if gs == [] then [] else GroupText(gs[0]) + GroupsText(gs[1..])
  }

  function Sum(gs: seq<Group>): real {
    if gs == [] then 0.0 else InMinutes(gs[0]) + Sum(gs[1..])
  }

  predicate AllFormed(gs: seq<Group>, units: seq<Text>) {
    forall g :: g in gs ==> Formed(g, units)
  }

  /** The tally behind all of these groups. */
  function CountAll(t: Tally, gs: seq<Group>): Tally
    decreases |gs|
  {
    if gs == [] then t else CountAll(Count(t, gs[0]), gs[1..])
  }

  lemma {:induction false} CountIs(t: Tally, gs: seq<Group>)
    ensures CountAll(t, gs) == Tally(t.total + Sum(gs), t.matched + |gs|, t.consumed + |GroupsText(gs)|)
    decreases |gs|
  {
    if gs == [] {
    } else {
      CountIs(Count(t, gs[0]), gs[1..]);
    }
  }

  predicate NoDot(units: seq<Text>) {
    forall u :: u in units ==> !Starts(u, DOT)
  }

  lemma {:induction false} FirstDigit(g: Group, rest: Text, units: seq<Text>)
    requires Formed(g, units)
    ensures Starting(GroupText(g) + rest) && |GroupText(g)| > 0
  {
    assert g.whole[0] in g.whole;
    assert (GroupText(g) + rest)[0] == g.whole[0];
  }

  lemma {:induction false} GroupsFound(gs: seq<Group>, units: seq<Text>, t: Tally)
    requires Ordered(units) && NoDot(units) && AllFormed(gs, units)
    ensures Matches(GroupsText(gs), units, t) == CountAll(t, gs) && Next(GroupsText(gs))
    decreases |gs|
  {
    if gs == [] {
    } else {
      var g, rest := gs[0], GroupsText(gs[1..]);
      assert g in gs;
      GroupsFound(gs[1..], units, Count(t, g));
      FirstDigit(g, rest, units);
      GroupFound(g, rest, units);
      assert (GroupText(g) + rest)[|GroupText(g)|..] == rest;
    }
  }

  lemma {:induction false} NotANumber(g: Group, rest: Text, units: seq<Text>)
    requires Ordered(units) && NoDot(units) && Formed(g, units)
    ensures !IsNumber(GroupText(g) + rest)
  {
    var s := GroupText(g) + rest;
    assert s == NumberText(g.whole, g.fraction) + (g.unit + rest);
    assert g.unit[0] in g.unit;
    NumberFound(g.whole, g.fraction, g.unit + rest);
    assert s[DigitsAt(s)..][FractionAt(s[DigitsAt(s)..])..] != [];
  }

  lemma {:induction false} SpellingsNoDot()
    ensures NoDot(SPELLINGS)
  {
    assert forall k :: 0 <= k < |SPELLINGS| ==> SPELLINGS[k][0] != DOT;
  }

  /** Any text that is a list of numbers with units, spaces and capitals aside, is read as their sum. */
  lemma {:induction false} GroupsReadBack(text: Text, gs: seq<Group>)
    requires gs != [] && AllFormed(gs, SPELLINGS) && Compact(text) == GroupsText(gs)
    ensures Parsed(text) == Some(Round(Sum(gs)))
  {
    SpellingsOrdered();
    SpellingsNoDot();
    assert gs[0] in gs;
    NotANumber(gs[0], GroupsText(gs[1..]), SPELLINGS);
    FirstDigit(gs[0], GroupsText(gs[1..]), SPELLINGS);
    GroupsFound(gs, SPELLINGS, NOTHING);
    CountIs(NOTHING, gs);
  }

  lemma {:induction false} ConsumedBound(s: Text, units: seq<Text>, t: Tally)
    ensures t.consumed <= Matches(s, units, t).consumed <= t.consumed + |s|
    ensures t.matched <= Matches(s, units, t).matched
    decreases |s|
  {
    if s == [] {
    } else {
      if GroupAt(s, units).None? {
        ConsumedBound(s[1..], units, t);
      } else {
        GroupStands(s, units);
        var g := GroupAt(s, units).value;
        ConsumedBound(s[|GroupText(g)|..], units, Count(t, g));
      }
    }
  }

  lemma {:induction false} FirstMatches(s: Text, units: seq<Text>, t: Tally)
    requires s != [] && Matches(s, units, t).consumed == t.consumed + |s|
    ensures GroupAt(s, units).Some?
  {
    if GroupAt(s, units).None? {
      ConsumedBound(s[1..], units, t);
    }
  }

  lemma {:induction false} RestOf(s: Text, units: seq<Text>, t: Tally, g: Group)
    requires s != [] && GroupAt(s, units) == Some(g)
    ensures Formed(g, units) && 0 < |GroupText(g)| <= |s| && s == GroupText(g) + s[|GroupText(g)|..]
    ensures Matches(s, units, t) == Matches(s[|GroupText(g)|..], units, Count(t, g))
  {
    GroupStands(s, units);
  }

  lemma {:induction false} FirstConsumed(s: Text, units: seq<Text>, t: Tally)
    requires s != [] && Matches(s, units, t).consumed == t.consumed + |s|
    ensures GroupAt(s, units).Some?
    ensures var g := GroupAt(s, units).value; var n := |GroupText(g)|;
      Formed(g, units) && 0 < n <= |s| && s == GroupText(g) + s[n..]
      && Matches(s[n..], units, Count(t, g)).consumed == Count(t, g).consumed + |s[n..]|
  {
    FirstMatches(s, units, t);
    RestOf(s, units, t, GroupAt(s, units).value);
  }

  /** If nothing is left over, the text is a list of groups. */
  lemma {:induction false} AllConsumed(s: Text, units: seq<Text>, t: Tally) returns (gs: seq<Group>)
    requires Matches(s, units, t).consumed == t.consumed + |s|
    ensures AllFormed(gs, units) && GroupsText(gs) == s
    decreases |s|
  {
    if s == [] {
      gs := [];
    } else {
      FirstConsumed(s, units, t);
      var g := GroupAt(s, units).value;
      var rest := AllConsumed(s[|GroupText(g)|..], units, Count(t, g));
      gs := [g] + rest;
      assert gs[1..] == rest;
    }
  }

  ghost predicate IsGroups(s: Text) {
    exists gs :: gs != [] && AllFormed(gs, SPELLINGS) && GroupsText(gs) == s
  }

  /** What is a duration: a bare number, or numbers with units and nothing else. */
  lemma {:induction false} Accepts(text: Text)
    ensures Parsed(text).Some? <==> IsNumber(Compact(text)) || IsGroups(Compact(text))
  {
    var s := Compact(text);
    if IsGroups(s) {
      var gs :| gs != [] && AllFormed(gs, SPELLINGS) && GroupsText(gs) == s;
      GroupsReadBack(text, gs);
    }
    if s != [] && !IsNumber(s) && Parsed(text).Some? {
      var gs := AllConsumed(s, SPELLINGS, NOTHING);
      assert IsGroups(s);
    }
  }

  // ---- the printer ----

  /** After rounding to whole minutes; what is not finite counts as zero. */
  function MinutesText(n: int): Text {
    if n <= 0 then [ZERO, LETTER_M] else
      var h, m := n / 60, n % 60;
      if h == 0 then DecimalText(m) + [LETTER_M]
      else if m == 0 then DecimalText(h) + [LETTER_H]
      else DecimalText(h) + [LETTER_H] + [SPACE] + DecimalText(m) + [LETTER_M]
  }

  lemma {:induction false} LowerJoin(a: Text, b: Text)
    ensures LowerAll(a + b) == LowerAll(a) + LowerAll(b)
    decreases |a|
  {
    if a == [] {
      assert a + b == b;
    } else {
      assert (a + b)[1..] == a[1..] + b;
      LowerJoin(a[1..], b);
    }
  }

  lemma {:induction false} SpacesJoin(a: Text, b: Text)
    ensures WithoutSpaces(a + b) == WithoutSpaces(a) + WithoutSpaces(b)
    decreases |a|
  {
    if a == [] {
      assert a + b == b;
    } else {
      assert (a + b)[1..] == a[1..] + b;
      SpacesJoin(a[1..], b);
    }
  }

  lemma {:induction false} CompactJoin(a: Text, b: Text)
    ensures Compact(a + b) == Compact(a) + Compact(b)
  {
    LowerJoin(a, b);
    SpacesJoin(LowerAll(a), LowerAll(b));
  }

  lemma {:induction false} CompactDigits(s: Text)
    requires AllDigits(s)
    ensures Compact(s) == s
    decreases |s|
  {
    if s == [] {
    } else {
      assert s[0] in s && s == [s[0]] + s[1..];
      CompactDigits(s[1..]);
      CompactOne(s[0]);
      CompactJoin([s[0]], s[1..]);
    }
  }

  lemma {:induction false} CompactOne(u: Unit)
    ensures Compact([u]) == if IsSpace(Lower(u)) then [] else [Lower(u)]
  {
    var v := [Lower(u)];
    assert [u][1..] == [] && v[1..] == [];
    assert LowerAll([u]) == v;
    assert WithoutSpaces(v[1..]) == [];
  }

  function Whole(n: nat, unit: Unit): Group {
    Group(DecimalText(n), [], [unit])
  }

  lemma {:induction false} WholeValue(n: nat, unit: Unit)
    requires unit == LETTER_H || unit == LETTER_M
    ensures InMinutes(Whole(n, unit)) == if unit == LETTER_H then (60 * n) as real else n as real
  {
    NumberBack(n);
    assert NumberValue(DecimalText(n), []) == n as real;
  }

  lemma {:induction false} WholeIs(n: nat, unit: Unit, units: seq<Text>)
    requires [unit] in units && (unit == LETTER_H || unit == LETTER_M)
    ensures Formed(Whole(n, unit), units) && GroupText(Whole(n, unit)) == DecimalText(n) + [unit]
    ensures Compact(DecimalText(n) + [unit]) == DecimalText(n) + [unit]
  {
    CompactDigits(DecimalText(n));
    CompactOne(unit);
    CompactJoin(DecimalText(n), [unit]);
  }

  lemma {:induction false} RoundWhole(n: nat)
    ensures Round(n as real) == n as real
  {
    assert (n as real * 100.0 + 0.5).Floor == 100 * n;
  }

  /** The groups of a printed duration. */
  function GroupsOf(n: nat): seq<Group> {
    if n < 60 then [Whole(n, LETTER_M)]
    else if n % 60 == 0 then [Whole(n / 60, LETTER_H)]
    else [Whole(n / 60, LETTER_H), Whole(n % 60, LETTER_M)]
  }

  lemma {:induction false} OneGroup(g: Group)
    ensures GroupsText([g]) == GroupText(g) && Sum([g]) == InMinutes(g)
  {
    assert [g][1..] == [];
    assert GroupText(g) + [] == GroupText(g);
  }

  lemma {:induction false} TwoGroups(g: Group, h: Group)
    ensures GroupsText([g, h]) == GroupText(g) + GroupText(h) && Sum([g, h]) == InMinutes(g) + InMinutes(h)
  {
    assert [g, h][1..] == [h];
    OneGroup(h);
  }

  lemma {:induction false} SpaceBetween(a: Text, b: Text)
    requires Compact(a) == a && Compact(b) == b
    ensures Compact(a + [SPACE] + b) == a + b
  {
    CompactOne(SPACE);
    CompactJoin(a, [SPACE]);
    CompactJoin(a + [SPACE], b);
    assert a + [] == a;
  }

  lemma {:induction false} Letters()
    ensures [LETTER_H] in SPELLINGS && [LETTER_M] in SPELLINGS
  {
    assert SPELLINGS[4] == [LETTER_H] && SPELLINGS[9] == [LETTER_M];
  }

  lemma {:induction false} PrintedSum(n: nat)
    ensures Sum(GroupsOf(n)) == n as real
  {
    var h, m := n / 60, n % 60;
    WholeValue(h, LETTER_H);
    WholeValue(m, LETTER_M);
    WholeValue(n, LETTER_M);
    OneGroup(Whole(h, LETTER_H));
    OneGroup(Whole(n, LETTER_M));
    TwoGroups(Whole(h, LETTER_H), Whole(m, LETTER_M));
  }

  lemma {:induction false} TwoPrinted(h: nat, m: nat, units: seq<Text>)
    requires [LETTER_H] in units && [LETTER_M] in units
    ensures var gs := [Whole(h, LETTER_H), Whole(m, LETTER_M)];
      AllFormed(gs, units)
      && Compact(DecimalText(h) + [LETTER_H] + [SPACE] + DecimalText(m) + [LETTER_M]) == GroupsText(gs)
  {
    WholeIs(h, LETTER_H, units);
    WholeIs(m, LETTER_M, units);
    TwoGroups(Whole(h, LETTER_H), Whole(m, LETTER_M));
    var a, b := DecimalText(h) + [LETTER_H], DecimalText(m) + [LETTER_M];
    SpaceBetween(a, b);
    assert DecimalText(h) + [LETTER_H] + [SPACE] + DecimalText(m) + [LETTER_M] == a + [SPACE] + b;
  }

  lemma {:induction false} PrintedGroups(n: nat)
    ensures AllFormed(GroupsOf(n), SPELLINGS) && Compact(MinutesText(n)) == GroupsText(GroupsOf(n))
  {
    Letters();
    if n < 60 {
      WholeIs(n, LETTER_M, SPELLINGS);
      OneGroup(Whole(n, LETTER_M));
      assert DecimalText(0) == [ZERO] && [ZERO] + [LETTER_M] == [ZERO, LETTER_M];
    } else if n % 60 == 0 {
      WholeIs(n / 60, LETTER_H, SPELLINGS);
      OneGroup(Whole(n / 60, LETTER_H));
    } else {
      TwoPrinted(n / 60, n % 60, SPELLINGS);
    }
  }

  /** Every printed duration is read back as the number of minutes; a negative one is printed as none. */
  lemma {:induction false} PrintedReadBack(n: int)
    ensures Parsed(MinutesText(n)) == Some(if n <= 0 then 0.0 else n as real)
  {
    var m: nat := if n <= 0 then 0 else n;
    PrintedGroups(m);
    PrintedSum(m);
    GroupsReadBack(MinutesText(n), GroupsOf(m));
    RoundWhole(m);
  }

  // ---- what the units are worth ----

  /** The text has the letters of this name. */
  predicate Spells(unit: Text, name: string) {
    |unit| == |name| && forall i :: 0 <= i < |name| ==> unit[i] == name[i] as nat
  }

  lemma {:induction false} HourNames()
    ensures Spells(SPELLINGS[0], "hours") && Spells(SPELLINGS[1], "hour") && Spells(SPELLINGS[2], "hrs")
    ensures Spells(SPELLINGS[3], "hr") && Spells(SPELLINGS[4], "h")
  {
  }

  lemma {:induction false} MinuteNames()
    ensures Spells(SPELLINGS[5], "minutes") && Spells(SPELLINGS[6], "minute") && Spells(SPELLINGS[7], "mins")
    ensures Spells(SPELLINGS[8], "min") && Spells(SPELLINGS[9], "m")
  {
  }

  lemma {:induction false} SecondNames()
    ensures Spells(SPELLINGS[10], "seconds") && Spells(SPELLINGS[11], "second") && Spells(SPELLINGS[12], "secs")
    ensures Spells(SPELLINGS[13], "sec") && Spells(SPELLINGS[14], "s") && |SPELLINGS| == 15
  {
  }

  /** The digits of a number without its point, as a whole number. */
  function Scaled(whole: Text, fraction: Text): int {
    NumberOf(whole) * Pow10(|fraction|) + NumberOf(fraction)
  }

  lemma {:induction false} ScaledIs(whole: Text, fraction: Text)
    ensures NumberValue(whole, fraction) * Pow10(|fraction|) as real == Scaled(whole, fraction) as real
  {
    var a, b, p := NumberOf(whole) as real, NumberOf(fraction) as real, Pow10(|fraction|) as real;
    assert (a + b / p) * p == a * p + b;
  }

  lemma {:induction false} Sixty(value: real, p: real)
    ensures value * 60.0 * p == 60.0 * (value * p) && 60.0 * (value / 60.0) * p == value * p
  {
  }

  /** An hour is sixty minutes, and sixty seconds are one; the unit goes by its first letter. */
  lemma {:induction false} GroupWorth(g: Group)
    ensures Starts(g.unit, 'h' as nat) ==> InMinutes(g) * Pow10(|g.fraction|) as real == 60.0 * Scaled(g.whole, g.fraction) as real
    ensures Starts(g.unit, 'm' as nat) ==> InMinutes(g) * Pow10(|g.fraction|) as real == Scaled(g.whole, g.fraction) as real
    ensures Starts(g.unit, 's' as nat) ==> 60.0 * InMinutes(g) * Pow10(|g.fraction|) as real == Scaled(g.whole, g.fraction) as real
  {
    ScaledIs(g.whole, g.fraction);
    Sixty(NumberValue(g.whole, g.fraction), Pow10(|g.fraction|) as real);
  }

  /** A bare number is that many minutes. */
  lemma {:induction false} BareNumber(text: Text, whole: Text, fraction: Text)
    requires Compact(text) == (if fraction == [] then whole else whole + ['.' as nat] + fraction)
    requires whole != [] && AllDigits(whole) && AllDigits(fraction)
    ensures Parsed(text) == Some(Round(NumberValue(whole, fraction)))
    ensures NumberValue(whole, fraction) * Pow10(|fraction|) as real == Scaled(whole, fraction) as real
  {
    assert NumberText(whole, fraction) + [] == NumberText(whole, fraction);
    NumberFound(whole, fraction, []);
    ScaledIs(whole, fraction);
  }

  /** The result is given in hundredths, the nearest ones, halves up. */
  lemma {:induction false} RoundIs(minutes: real)
    ensures Round(minutes) * 100.0 == (Round(minutes) * 100.0).Floor as real
    ensures Round(minutes) - 0.005 <= minutes < Round(minutes) + 0.005
  {
    assert Round(minutes) * 100.0 == (minutes * 100.0 + 0.5).Floor as real;
  }

  // ---- how durations are printed ----

  /** As many hours as there are, then the minutes, and neither if there are none of it; without either, no minutes. */
  lemma {:induction false} PrintedForm(h: nat, m: nat)
    requires m < 60
    ensures var hours, minutes := DecimalText(h) + ['h' as nat], DecimalText(m) + ['m' as nat];
      MinutesText(60 * h + m) ==
        if h > 0 && m > 0 then hours + [' ' as nat] + minutes else if h > 0 then hours else minutes
  {
    var n := 60 * h + m;
    assert n / 60 == h && n % 60 == m;
    assert DecimalText(0) == [ZERO];
  }

  /** Capitals count as small letters, and every other character as itself. */
  lemma {:induction false} LowerAllIs(s: Text, k: nat)
    requires k < |s|
    ensures LowerAll(s)[k] == if 'A' as nat <= s[k] <= 'Z' as nat then s[k] - 'A' as nat + 'a' as nat else s[k]
  {
    if k == 0 {
    } else {
      LowerAllIs(s[1..], k - 1);
    }
  }
}
