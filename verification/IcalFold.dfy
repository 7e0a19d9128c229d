/** Folding a line to 75 octets (RFC 5545, section 3.1), on UTF-8 octets and without splitting a character. */
module IcalFold {
  import opened Bitwise
  import opened Ical
  import opened JsText
  import opened Utf8
  import opened Wrappers

  const FIRST: nat := 75
  const FURTHER: nat := 74
  const FOLD: Text := [CR, LF, SPACE]

  // ---- what folding is ----

  /** How many of the code points fit into `limit` octets. */
  function Fit(ps: seq<Point>, limit: nat): (k: nat)
    ensures k <= |ps|
    decreases |ps|
  {
    if ps == [] || |Encode(ps[0])| > limit then 0 else 1 + Fit(ps[1..], limit - |Encode(ps[0])|)
  }

  /** As many as fit and not one more. */
  lemma {:induction false} FitIs(ps: seq<Point>, limit: nat)
    ensures |EncodeAll(ps[..Fit(ps, limit)])| <= limit
    ensures Fit(ps, limit) < |ps| ==> |EncodeAll(ps[..Fit(ps, limit) + 1])| > limit
    decreases |ps|
  {
    var k := Fit(ps, limit);
    if k > 0 {
      FitIs(ps[1..], limit - |Encode(ps[0])|);
      assert ps[..k][1..] == ps[1..][..k - 1];
      if k < |ps| {
        assert ps[..k + 1][1..] == ps[1..][..k];
      }
    } else if ps != [] {
      assert ps[..1] == [ps[0]] && [ps[0]][1..] == [];
    }
  }

  /** The code points line by line: each line takes as many as fit. */
  function Chunks(ps: seq<Point>, limit: nat): seq<seq<Point>>
    requires limit >= 4
    decreases |ps|
  {
    if ps == [] then [] else
      var k := Fit(ps, limit);
      [ps[..k]] + Chunks(ps[k..], FURTHER)
  }

  function Parts(chunks: seq<seq<Point>>): seq<Text> {
    if chunks == [] then [] else [FromPoints(chunks[0])] + Parts(chunks[1..])
  }

  function Folded(line: Text): Text {
    if |Octets(line)| <= FIRST then line else Join(Parts(Chunks(Points(line), FIRST)), FOLD)
  }

  // ---- the loop over octets finds these lines ----

  lemma {:induction false} NextOctets(ps: seq<Point>, k: nat, e: nat, limit: nat, p: nat)
    requires k < |ps| && e == |EncodeAll(ps[..k])| <= p <= limit < |EncodeAll(ps[..k + 1])|
    ensures p < |EncodeAll(ps)| && (IsContinuation(EncodeAll(ps)[p]) <==> p > e)
  {
    OctetOf(ps, k, 0);
    OctetAt(ps, k, p - e);
  }

  lemma {:induction false} OctetAt(ps: seq<Point>, k: nat, i: nat)
    requires k < |ps| && i < |Encode(ps[k])|
    ensures |EncodeAll(ps[..k])| + i < |EncodeAll(ps)|
    ensures IsContinuation(EncodeAll(ps)[|EncodeAll(ps[..k])| + i]) <==> i > 0
  {
    OctetOf(ps, k, i);
    LeadAndRest(ps[k], i);
  }

  /** Behind the last code point that fits, every octet up to the limit continues the next one. */
  lemma {:induction false} Stops(ps: seq<Point>, limit: nat, e: nat, p: nat)
    requires limit >= 4 && |EncodeAll(ps)| > limit && e == |EncodeAll(ps[..Fit(ps, limit)])| <= p <= limit
    ensures 0 < e && (IsContinuation(EncodeAll(ps)[p]) <==> p > e)
  {
    FitIs(ps, limit);
    assert ps[..|ps|] == ps;
    NextOctets(ps, Fit(ps, limit), e, limit, p);
  }

  lemma {:induction false} SuffixOctets(ps: seq<Point>, n: nat)
    requires n <= |ps|
    ensures |EncodeAll(ps[..n])| <= |EncodeAll(ps)| && EncodeAll(ps)[|EncodeAll(ps[..n])|..] == EncodeAll(ps[n..])
    ensures EncodeAll(ps)[..|EncodeAll(ps[..n])|] == EncodeAll(ps[..n])
  {
    assert ps == ps[..n] + ps[n..];
    EncodeJoin(ps[..n], ps[n..]);
  }

  /** The same in the whole line, of which `ps` is what stands from `start` on. */
  lemma {:induction false} StopsAt(bytes: seq<byte>, start: nat, limit: nat, ps: seq<Point>, stop: nat)
    requires limit >= 4 && start + limit < |bytes| && bytes[start..] == EncodeAll(ps) && stop == start + |EncodeAll(ps[..Fit(ps, limit)])|
    ensures start < stop <= start + limit && !IsContinuation(bytes[stop])
    ensures forall q :: stop < q <= start + limit ==> IsContinuation(bytes[q])
  {
    FitIs(ps, limit);
    Stops(ps, limit, stop - start, stop - start);
    assert bytes[stop] == bytes[start..][stop - start];
    forall q | stop < q <= start + limit
      ensures IsContinuation(bytes[q])
    {
      Stops(ps, limit, stop - start, q - start);
      assert bytes[q] == bytes[start..][q - start];
    }
  }

  /** Back over continuation octets to the beginning of a character. */
  method WalkBack(bytes: seq<byte>, start: nat, limit: nat, ghost stop: nat) returns (end: nat)
    requires start + limit < |bytes| && start < stop <= start + limit && !IsContinuation(bytes[stop])
    requires forall q :: stop < q <= start + limit ==> IsContinuation(bytes[q])
    ensures end == stop
  {
    end := start + limit;
    while end > start && end < |bytes| && IsContinuation(bytes[end])
      invariant stop <= end <= start + limit
    {
      end := end - 1;
    }
  }

  /** One line: the octets from `start` that fit and end on a character. */
  method Cut(bytes: seq<byte>, start: nat, limit: nat, ghost ps: seq<Point>) returns (end: nat)
    requires limit >= 4 && start < |bytes| && bytes[start..] == EncodeAll(ps)
    ensures start < end <= |bytes| && end == start + |EncodeAll(ps[..Fit(ps, limit)])|
    ensures bytes[start..end] == EncodeAll(ps[..Fit(ps, limit)]) && bytes[end..] == EncodeAll(ps[Fit(ps, limit)..])
  {
    ghost var e := |EncodeAll(ps[..Fit(ps, limit)])|;
    CutAt(bytes, start, ps, Fit(ps, limit), e);
    if start + limit < |bytes| {
      StopsAt(bytes, start, limit, ps, start + e);
      end := WalkBack(bytes, start, limit, start + e);
    } else {
      AllFits(ps, limit);
      end := |bytes|;
    }
  }

  lemma {:induction false} CutAt(bytes: seq<byte>, start: nat, ps: seq<Point>, k: nat, e: nat)
    requires start <= |bytes| && bytes[start..] == EncodeAll(ps) && k <= |ps| && e == |EncodeAll(ps[..k])|
    ensures start + e <= |bytes|
    ensures bytes[start..start + e] == EncodeAll(ps[..k]) && bytes[start + e..] == EncodeAll(ps[k..])
  {
    SuffixOctets(ps, k);
    Slices(bytes, start, e);
  }

  lemma {:induction false} Slices(bytes: seq<byte>, start: nat, e: nat)
    requires start + e <= |bytes|
    ensures bytes[start..start + e] == bytes[start..][..e] && bytes[start + e..] == bytes[start..][e..]
  {
  }

  lemma {:induction false} AllFits(ps: seq<Point>, limit: nat)
    requires |EncodeAll(ps)| <= limit
    ensures Fit(ps, limit) == |ps| && ps[..|ps|] == ps
  {
    FitIs(ps, limit);
    var k := Fit(ps, limit);
    if k < |ps| {
      SuffixOctets(ps, k + 1);
    }
  }

  /** `toString("utf8")` of octets that are well formed. */
  function ToText(b: seq<byte>): Option<Text> {
    match DecodeAll(b)
    case None => None
    case Some(ps) => Some(FromPoints(ps))
  }

  lemma {:induction false} PartsSnoc(chunks: seq<seq<Point>>, c: seq<Point>)
    ensures Parts(chunks + [c]) == Parts(chunks) + [FromPoints(c)]
    decreases |chunks|
  {
    if chunks == [] {
      assert chunks + [c] == [c] && [c][1..] == [];
    } else {
      assert (chunks + [c])[1..] == chunks[1..] + [c];
      PartsSnoc(chunks[1..], c);
    }
  }

  lemma {:induction false} OneChunk(before: seq<seq<Point>>, ps: seq<Point>, limit: nat)
    requires limit >= 4 && ps != []
    ensures before + Chunks(ps, limit) == before + [ps[..Fit(ps, limit)]] + Chunks(ps[Fit(ps, limit)..], FURTHER)
  {
  }

  method FoldLine(line: Text) returns (folded: Text)
    ensures folded == Folded(line)
  {
    var bytes := Octets(line);
    if |bytes| <= 75 {
      return line;
    }
    var parts: seq<Text> := [];
    var start, limit := 0, 75;
    ghost var rest, chunks := Points(line), [];
    while start < |bytes|
      invariant start <= |bytes| && limit >= 4 && bytes[start..] == EncodeAll(rest)
      invariant parts == Parts(chunks) && chunks + Chunks(rest, limit) == Chunks(Points(line), FIRST)
      decreases |bytes| - start
    {
      var end := Cut(bytes, start, limit, rest);
      ghost var c := rest[..Fit(rest, limit)];
      DecodeBack(c);
      var part := ToText(bytes[start..end]);
      OneChunk(chunks, rest, limit);
      PartsSnoc(chunks, c);
      parts := parts + [part.value];
      chunks, rest := chunks + [c], rest[Fit(rest, limit)..];
      start := end;
      limit := 74;
    }
    assert chunks + [] == chunks;
    folded := Join(parts, FOLD);
  }

  // ---- what a reader makes of it ----

  /** The reader's side: a line break with a space or tab behind it is no line break. */
  function Unfold(s: Text): Text {
    if s == [] then []
    else if |s| > 2 && s[0] == CR && s[1] == LF && (s[2] == SPACE || s[2] == TAB) then Unfold(s[3..])
    else [s[0]] + Unfold(s[1..])
  }

  /** The physical lines. */
  function Lines(s: Text): (lines: seq<Text>)
    ensures lines != []
  {
    if s == [] then [[]]
    else if CrLfAt(s) then [[]] + Lines(s[2..])
    else var rest := Lines(s[1..]); [[s[0]] + rest[0]] + rest[1..]
  }

  predicate NoBreak(s: Text) {
    CR !in s && LF !in s
  }

  lemma {:induction false} UnfoldPlain(a: Text, s: Text)
    requires NoBreak(a)
    ensures Unfold(a + s) == a + Unfold(s)
    decreases |a|
  {
    if a == [] {
      assert a + s == s;
    } else {
      assert (a + s)[1..] == a[1..] + s;
      UnfoldPlain(a[1..], s);
    }
  }

  lemma {:induction false} UnfoldFold(s: Text)
    ensures Unfold(FOLD + s) == Unfold(s)
  {
    assert (FOLD + s)[3..] == s;
  }

  lemma {:induction false} LinesPlain(a: Text, s: Text)
    requires NoBreak(a)
    ensures Lines(a + s) == [a + Lines(s)[0]] + Lines(s)[1..]
    decreases |a|
  {
    if a == [] {
      assert a + s == s && a + Lines(s)[0] == Lines(s)[0] && Lines(s) == [Lines(s)[0]] + Lines(s)[1..];
    } else {
      assert (a + s)[1..] == a[1..] + s;
      LinesPlain(a[1..], s);
      assert [a[0]] + (a[1..] + Lines(s)[0]) == a + Lines(s)[0];
    }
  }

  lemma {:induction false} LinesFold(s: Text)
    ensures Lines(FOLD + s) == [[]] + [[SPACE] + Lines(s)[0]] + Lines(s)[1..]
  {
    assert (FOLD + s)[2..] == [SPACE] + s && ([SPACE] + s)[1..] == s;
  }

  /** All of the chunks one after the other. */
  function Together(chunks: seq<seq<Point>>): seq<Point> {
    if chunks == [] then [] else chunks[0] + Together(chunks[1..])
  }

  lemma {:induction false} ChunksTogether(ps: seq<Point>, limit: nat)
    requires limit >= 4
    ensures Together(Chunks(ps, limit)) == ps
    decreases |ps|
  {
    if ps == [] {
    } else {
      var k := Fit(ps, limit);
      ChunksTogether(ps[k..], FURTHER);
      assert ps == ps[..k] + ps[k..];
    }
  }

  predicate PlainPoints(ps: seq<Point>) {
    CR !in ps && LF !in ps
  }

  lemma {:induction false} PlainParts(ps: seq<Point>)
    requires PlainPoints(ps)
    ensures NoBreak(FromPoints(ps))
  {
    PointsBack(ps);
    PlainUnits(FromPoints(ps), CR);
    PlainUnits(FromPoints(ps), LF);
  }

  /** A folded line is what its first part is, or has the fold and the other parts behind that. */
  lemma {:induction false} JoinStep(chunks: seq<seq<Point>>)
    requires chunks != []
    ensures |chunks| == 1 ==> Join(Parts(chunks), FOLD) == FromPoints(chunks[0])
    ensures |chunks| > 1 ==> Join(Parts(chunks), FOLD) == FromPoints(chunks[0]) + (FOLD + Join(Parts(chunks[1..]), FOLD))
  {
    assert Parts(chunks)[1..] == Parts(chunks[1..]);
    if |chunks| > 1 {
      assert Parts(chunks[1..]) != [];
    }
  }

  lemma {:induction false} UnfoldParts(chunks: seq<seq<Point>>)
    requires PlainPoints(Together(chunks))
    ensures Unfold(Join(Parts(chunks), FOLD)) == FromPoints(Together(chunks))
    decreases |chunks|
  {
    if chunks == [] {
    } else {
      var a, rest := FromPoints(chunks[0]), Join(Parts(chunks[1..]), FOLD);
      PlainParts(chunks[0]);
      UnfoldParts(chunks[1..]);
      FromPointsJoin(chunks[0], Together(chunks[1..]));
      JoinStep(chunks);
      if |chunks| == 1 {
        assert a + [] == a;
        UnfoldPlain(a, []);
      } else {
        UnfoldPlain(a, FOLD + rest);
        UnfoldFold(rest);
      }
    }
  }

  lemma {:induction false} PlainLine(line: Text)
    requires NoBreak(line)
    ensures PlainPoints(Points(line))
  {
    PlainUnits(line, CR);
    PlainUnits(line, LF);
  }

  /** Unfolding restores the line exactly when it was short or has no lone surrogate. */
  lemma {:induction false} UnfoldRestores(line: Text)
    requires NoBreak(line)
    ensures Unfold(Folded(line)) == line <==> |Octets(line)| <= FIRST || WellFormed(line)
  {
    if |Octets(line)| <= FIRST {
      assert line + [] == line;
      UnfoldPlain(line, []);
    } else {
      PlainLine(line);
      ChunksTogether(Points(line), FIRST);
      UnfoldParts(Chunks(Points(line), FIRST));
      TextBack(line);
    }
  }

  lemma {:induction false} SpaceOctets(ps: seq<Point>)
    ensures |Octets([SPACE] + FromPoints(ps))| == 1 + |EncodeAll(ps)| && |Octets(FromPoints(ps))| == |EncodeAll(ps)|
  {
    PointsBack(ps);
    PointFirst(SPACE, FromPoints(ps));
    assert ([SPACE] + ps)[1..] == ps;
  }

  lemma {:induction false} ShortNext(ps: seq<Point>, limit: nat)
    ensures |Octets([SPACE] + FromPoints(ps[..Fit(ps, limit)]))| <= 1 + limit
  {
    FitIs(ps, limit);
    SpaceOctets(ps[..Fit(ps, limit)]);
  }

  /** The first line of the parts, and the ones behind it, each with its space. */
  lemma {:induction false} ShortParts(ps: seq<Point>, limit: nat)
    requires limit >= 4 && ps != [] && PlainPoints(ps)
    ensures var lines := Lines(Join(Parts(Chunks(ps, limit)), FOLD));
      lines[0] == FromPoints(ps[..Fit(ps, limit)]) && forall l :: l in lines[1..] ==> |Octets(l)| <= 1 + FURTHER
    decreases |ps|
  {
    var k := Fit(ps, limit);
    var chunks := Chunks(ps, limit);
    assert chunks[1..] == Chunks(ps[k..], FURTHER);
    var a, rest := FromPoints(ps[..k]), Join(Parts(chunks[1..]), FOLD);
    PlainParts(ps[..k]);
    JoinStep(chunks);
    if ps[k..] == [] {
      assert a + [] == a;
      LinesPlain(a, []);
    } else {
      ShortParts(ps[k..], FURTHER);
      LinesPlain(a, FOLD + rest);
      LinesFold(rest);
      ShortNext(ps[k..], FURTHER);
      assert a + [] == a;
    }
  }

  /** No physical line is longer than 75 octets. */
  lemma {:induction false} LinesShort(line: Text)
    requires NoBreak(line)
    ensures forall l :: l in Lines(Folded(line)) ==> |Octets(l)| <= 75
  {
    if |Octets(line)| <= FIRST {
      assert line + [] == line;
      LinesPlain(line, []);
    } else {
      var ps := Points(line);
      PlainLine(line);
      ShortParts(ps, FIRST);
      FitIs(ps, FIRST);
      SpaceOctets(ps[..Fit(ps, FIRST)]);
      var lines := Lines(Folded(line));
      assert lines == [lines[0]] + lines[1..];
    }
  }

  lemma {:induction false} OneMore(ps: seq<Point>, k: nat)
    requires k < |ps|
    ensures |EncodeAll(ps[..k + 1])| <= |EncodeAll(ps[..k])| + 4
    decreases |ps|
  {
    if k == 0 {
      assert ps[..1] == [ps[0]] && [ps[0]][1..] == [];
    } else {
      OneMore(ps[1..], k - 1);
      assert ps[..k + 1][1..] == ps[1..][..k] && ps[..k][1..] == ps[1..][..k - 1];
    }
  }

  /** What is cut off before its end is full up to one character. */
  lemma {:induction false} AlmostFull(ps: seq<Point>, limit: nat)
    requires Fit(ps, limit) < |ps|
    ensures |EncodeAll(ps[..Fit(ps, limit)])| + 4 > limit
  {
    FitIs(ps, limit);
    OneMore(ps, Fit(ps, limit));
  }

  lemma {:induction false} FullParts(ps: seq<Point>, limit: nat)
    requires limit >= 4 && ps != [] && PlainPoints(ps)
    ensures var lines := Lines(Join(Parts(Chunks(ps, limit)), FOLD));
      (|lines| == 1 <==> Fit(ps, limit) == |ps|) && forall i :: 1 <= i < |lines| - 1 ==> |Octets(lines[i])| >= 72
    decreases |ps|, 0
  {
    var k := Fit(ps, limit);
    var chunks := Chunks(ps, limit);
    var a := FromPoints(ps[..k]);
    assert chunks[1..] == Chunks(ps[k..], FURTHER);
    PlainParts(ps[..k]);
    JoinStep(chunks);
    if ps[k..] == [] {
      assert a + [] == a;
      LinesPlain(a, []);
    } else {
      FitIs(ps, limit);
      assert k > 0;
      FullRest(a, ps[k..]);
    }
  }

  lemma {:induction false} FullRest(a: Text, ps: seq<Point>)
    requires NoBreak(a) && ps != [] && PlainPoints(ps)
    ensures var lines := Lines(a + (FOLD + Join(Parts(Chunks(ps, FURTHER)), FOLD)));
      |lines| > 1 && forall i :: 1 <= i < |lines| - 1 ==> |Octets(lines[i])| >= 72
    decreases |ps|, 1
  {
    var rest := Join(Parts(Chunks(ps, FURTHER)), FOLD);
    FullParts(ps, FURTHER);
    ShortParts(ps, FURTHER);
    LinesPlain(a, FOLD + rest);
    LinesFold(rest);
    FullHead(ps);
    FullBehind(Lines(a + (FOLD + rest)), Lines(rest));
  }

  lemma {:induction false} FullHead(ps: seq<Point>)
    ensures Fit(ps, FURTHER) < |ps| ==> |Octets([SPACE] + FromPoints(ps[..Fit(ps, FURTHER)]))| >= 72
  {
    if Fit(ps, FURTHER) < |ps| {
      AlmostFull(ps, FURTHER);
      SpaceOctets(ps[..Fit(ps, FURTHER)]);
    }
  }

  lemma {:induction false} FullBehind(lines: seq<Text>, behind: seq<Text>)
    requires behind != [] && |lines| > 1 && lines[1..] == [[SPACE] + behind[0]] + behind[1..]
    requires |behind| > 1 ==> |Octets([SPACE] + behind[0])| >= 72
    requires forall i :: 1 <= i < |behind| - 1 ==> |Octets(behind[i])| >= 72
    ensures forall i :: 1 <= i < |lines| - 1 ==> |Octets(lines[i])| >= 72
  {
    forall i | 1 <= i < |lines| - 1
      ensures |Octets(lines[i])| >= 72
    {
      assert lines[i] == lines[1..][i - 1];
    }
  }

  /** A line is folded exactly if it has more than 75 octets, and then every physical line but the last has at least 72. */
  lemma {:induction false} LinesFull(line: Text)
    requires NoBreak(line)
    ensures |Lines(Folded(line))| == 1 <==> |Octets(line)| <= 75
    ensures forall i :: 0 <= i < |Lines(Folded(line))| - 1 ==> |Octets(Lines(Folded(line))[i])| >= 72
  {
    if |Octets(line)| <= FIRST {
      assert line + [] == line;
      LinesPlain(line, []);
    } else {
      var ps := Points(line);
      PlainLine(line);
      FullParts(ps, FIRST);
      ShortParts(ps, FIRST);
      FitIs(ps, FIRST);
      assert ps[..|ps|] == ps;
      AlmostFull(ps, FIRST);
      SpaceOctets(ps[..Fit(ps, FIRST)]);
    }
  }

  // ---- content lines ----

  method ContentLine(name: Text, value: Text, params: Text) returns (line: Text)
    ensures line == Folded(name + params + [':' as nat] + EscapeText(value))
  {
    line := FoldLine(name + params + [':' as nat] + EscapeText(value));
  }

  /** A reader that unfolds, takes the name and parameters off and unescapes has the value, with its line breaks as LF. */
  lemma {:induction false} ContentReadsBack(name: Text, value: Text, params: Text)
    requires NoBreak(name) && NoBreak(params)
    requires var line := name + params + [':' as nat] + EscapeText(value); |Octets(line)| <= FIRST || WellFormed(line)
    ensures var front, text := name + params + [':' as nat], Unfold(Folded(name + params + [':' as nat] + EscapeText(value)));
      |front| <= |text| && text[..|front|] == front && Unescape(text[|front|..]) == Normalised(value)
    ensures forall l :: l in Lines(Folded(name + params + [':' as nat] + EscapeText(value))) ==> |Octets(l)| <= 75
  {
    var front := name + params + [':' as nat];
    OneLine(value);
    UnfoldRestores(front + EscapeText(value));
    LinesShort(front + EscapeText(value));
    UnescapeBack(value);
    assert (front + EscapeText(value))[|front|..] == EscapeText(value);
  }
}
