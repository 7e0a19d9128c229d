/** The encoder: from a payload to a finished symbol, with the mask that scores best. */
module QrEncode {
  import opened Bitwise
  import opened Bch
  import opened Gf256
  import opened Interleave
  import opened QrData
  import opened QrGrid
  import opened QrLayout
  import opened QrPenalty
  import opened QrReader
  import opened QrStandard
  import opened QrSymbol
  import opened Wrappers

  // ---- the symbol of a stream is unique ----

  /** The modules of version `version` at level `level` with mask `mask` that carry `stream`. */
  ghost predicate IsSymbol(m: Matrix, version: nat, level: EccLevel, mask: nat, stream: seq<byte>)
    requires IsVersion(version)
  {
    && IsSquare(m, Size(version))
    && (exists bits :: HasPatterns(m, version, bits))
    && (exists bits :: HasFormat(m, Size(version), level, mask, bits))
    && HasData(m, version, mask, stream)
  }

  /** Every module has a purpose. */
  lemma {:induction false} FunctionCovered(version: nat, r: int, c: int)
    requires IsVersion(version) && In(Size(version), r, c) && IsFunction(version, r, c)
    ensures IsPatternCell(version, r, c) || FormatIndex(Size(version), r, c) >= 0
  {
  }

  lemma {:induction false} SameFixed(a: Matrix, b: Matrix, version: nat, r: int, c: int)
    requires IsVersion(version) && IsSquare(a, Size(version)) && IsSquare(b, Size(version))
    requires HasFinders(a, Size(version)) && HasTiming(a, Size(version))
    requires HasFinders(b, Size(version)) && HasTiming(b, Size(version))
    requires In(Size(version), r, c)
    requires InAnyFinder(Size(version), r, c) || InTiming(Size(version), r, c) || (r == Size(version) - 8 && c == 8)
    ensures a[r][c] == b[r][c]
  {
  }

  lemma {:induction false} SameAlignment(a: Matrix, b: Matrix, version: nat, r: int, c: int)
    requires IsVersion(version) && IsSquare(a, Size(version)) && IsSquare(b, Size(version))
    requires HasAlignment(a, version) && HasAlignment(b, version)
    requires In(Size(version), r, c) && InAlignment(version, r, c)
    ensures a[r][c] == b[r][c]
  {
    var i, j :| 0 <= i < 3 && 0 <= j < 3 && InPattern(version, i, j, r, c);
    assert a[r][c] == PatternDark(version, i, j, r, c);
  }

  lemma {:induction false} SameVersion(a: Matrix, b: Matrix, version: nat, p: nat, q: nat, r: int, c: int)
    requires 7 <= version <= 10 && IsSquare(a, Size(version)) && IsSquare(b, Size(version))
    requires HasVersion(a, version, p) && HasVersion(b, version, q)
    requires In(Size(version), r, c) && VersionIndex(Size(version), r, c) >= 0
    ensures a[r][c] == b[r][c]
  {
    FormatGenerator();
    BchWordUnique(p, q, version, 0x1f25, 12);
  }

  lemma {:induction false} SamePatterns(a: Matrix, b: Matrix, version: nat, p: nat, q: nat, r: int, c: int)
    requires IsVersion(version) && IsSquare(a, Size(version)) && IsSquare(b, Size(version))
    requires HasPatterns(a, version, p) && HasPatterns(b, version, q)
    requires In(Size(version), r, c) && IsPatternCell(version, r, c)
    ensures a[r][c] == b[r][c]
  {
    if InAlignment(version, r, c) {
      SameAlignment(a, b, version, r, c);
    } else if version >= 7 && VersionIndex(Size(version), r, c) >= 0 {
      SameVersion(a, b, version, p, q, r, c);
    } else {
      SameFixed(a, b, version, r, c);
    }
  }

  lemma {:induction false} SameFormat(a: Matrix, b: Matrix, version: nat, level: EccLevel, mask: nat, p: nat, q: nat, r: int, c: int)
    requires IsVersion(version) && IsSquare(a, Size(version)) && IsSquare(b, Size(version))
    requires HasFormat(a, Size(version), level, mask, p) && HasFormat(b, Size(version), level, mask, q)
    requires In(Size(version), r, c) && FormatIndex(Size(version), r, c) >= 0
    ensures a[r][c] == b[r][c]
  {
    SameFormatBits(p, q, level, mask);
  }

  lemma {:induction false} SameFormatBits(p: nat, q: nat, level: EccLevel, mask: nat)
    requires IsFormat(p, level, mask) && IsFormat(q, level, mask)
    ensures p == q
  {
    FormatGenerator();
    BchWordUnique(Xor(p, 0x5412), Xor(q, 0x5412), LevelBits(level) * 8 + mask, 0x537, 10);
    XorCancel(p, 0x5412);
    XorCancel(q, 0x5412);
  }

  lemma {:induction false} SameData(a: Matrix, b: Matrix, version: nat, mask: nat, stream: seq<byte>, r: int, c: int)
    requires IsVersion(version) && IsSquare(a, Size(version)) && IsSquare(b, Size(version))
    requires HasData(a, version, mask, stream) && HasData(b, version, mask, stream)
    requires In(Size(version), r, c) && !IsFunction(version, r, c)
    ensures a[r][c] == b[r][c]
  {
    DataCellsAre(version);
    var cells := DataCells(version);
    assert (r, c) in cells;
    var k :| 0 <= k < |cells| && cells[k] == (r, c);
  }

  /** Version, level, mask and stream decide every module. */
  lemma {:induction false} SymbolUnique(a: Matrix, b: Matrix, version: nat, level: EccLevel, mask: nat, stream: seq<byte>)
    requires IsVersion(version)
    requires IsSymbol(a, version, level, mask, stream) && IsSymbol(b, version, level, mask, stream)
    ensures a == b
  {
    var s := Size(version);
    var p :| HasPatterns(a, version, p);
    var q :| HasPatterns(b, version, q);
    var f :| HasFormat(a, s, level, mask, f);
    var g :| HasFormat(b, s, level, mask, g);
    forall r, c | In(s, r, c)
      ensures a[r][c] == b[r][c]
    {
      if !IsFunction(version, r, c) {
        SameData(a, b, version, mask, stream, r, c);
      } else {
        FunctionCovered(version, r, c);
        if IsPatternCell(version, r, c) {
          SamePatterns(a, b, version, p, q, r, c);
        } else {
          SameFormat(a, b, version, level, mask, f, g, r, c);
        }
      }
    }
    forall r | 0 <= r < s
      ensures a[r] == b[r]
    {
    }
  }

  // ---- choosing the mask ----

  method BuildModules(version: nat, level: EccLevel, mask: nat, stream: seq<byte>) returns (m: Matrix)
    requires IsVersion(version) && mask < 8
    ensures IsSymbol(m, version, level, mask, stream)
  {
    var grid, versionBits, formatBits := Build(version, level, mask, stream);
    m := grid.Image();
    assert HasPatterns(m, version, versionBits) && HasFormat(m, Size(version), level, mask, formatBits);
  }

  /** `symbol(k)` is the symbol of the stream with mask `k`, if there is one, and `penalty(k)` its penalty. */
  ghost predicate Tells(symbol: nat -> Option<Matrix>, penalty: nat -> nat, version: nat, level: EccLevel, stream: seq<byte>)
    requires IsVersion(version)
  {
    forall k: nat, m: Matrix {:trigger IsSymbol(m, version, level, k, stream)} ::
      IsSymbol(m, version, level, k, stream) ==> symbol(k) == Some(m) && penalty(k) == Penalty(m)
  }

  /** Mask `mask` is the first of the eight with the least penalty. */
  ghost predicate FirstLeast(penalty: nat -> nat, mask: nat, bound: nat) {
    && mask < bound
    && (forall k: nat :: k < bound ==> penalty(mask) <= penalty(k))
    && (forall k: nat :: k < mask ==> penalty(mask) < penalty(k))
  }

  method BuildKnown(version: nat, level: EccLevel, mask: nat, stream: seq<byte>,
                    ghost symbol: nat -> Option<Matrix>, ghost penalty: nat -> nat) returns (m: Matrix)
    requires IsVersion(version) && mask < 8 && Tells(symbol, penalty, version, level, stream)
    ensures symbol(mask) == Some(m)
  {
    m := BuildModules(version, level, mask, stream);
  }

  method BuildScored(version: nat, level: EccLevel, mask: nat, stream: seq<byte>,
                     ghost symbol: nat -> Option<Matrix>, ghost penalty: nat -> nat) returns (m: Matrix, score: nat)
    requires IsVersion(version) && mask < 8 && Tells(symbol, penalty, version, level, stream)
    ensures symbol(mask) == Some(m) && penalty(mask) == score
  {
    m := BuildModules(version, level, mask, stream);
    score := PenaltyOf(m);
  }

  /** The mask whose symbol has the least penalty, the first such mask if there are several. */
  method SelectMask(version: nat, level: EccLevel, stream: seq<byte>,
                    ghost symbol: nat -> Option<Matrix>, ghost penalty: nat -> nat) returns (mask: nat, m: Matrix)
    requires IsVersion(version) && Tells(symbol, penalty, version, level, stream)
    ensures symbol(mask) == Some(m) && FirstLeast(penalty, mask, 8)
    ensures forall k: nat :: k < 8 ==> symbol(k).Some?
  {
    var best: Option<nat> := None;
    mask := 0;
    m := BuildKnown(version, level, 0, stream, symbol, penalty);
    for candidate := 0 to 8
      invariant symbol(mask) == Some(m) && forall k: nat :: k < candidate ==> symbol(k).Some?
      invariant if candidate == 0 then best == None else FirstLeast(penalty, mask, candidate) && best == Some(penalty(mask))
    {
      var attempt, score := BuildScored(version, level, candidate, stream, symbol, penalty);
      if best.None? || score < best.value {
        best := Some(score);
        mask := candidate;
        m := attempt;
      }
    }
  }

  /** The symbol of the stream with this mask, if there is one. */
  ghost function SymbolWith(version: nat, level: EccLevel, mask: nat, stream: seq<byte>): Option<Matrix>
    requires IsVersion(version)
  {
    if m: Matrix :| IsSymbol(m, version, level, mask, stream) then Some(m) else None
  }

  ghost function PenaltyWith(version: nat, level: EccLevel, mask: nat, stream: seq<byte>): nat
    requires IsVersion(version)
  {
    match SymbolWith(version, level, mask, stream)
    case None => 0
    case Some(m) => Penalty(m)
  }

  lemma {:induction false} SymbolIs(m: Matrix, version: nat, level: EccLevel, mask: nat, stream: seq<byte>)
    requires IsVersion(version) && IsSymbol(m, version, level, mask, stream)
    ensures SymbolWith(version, level, mask, stream) == Some(m)
  {
    SymbolUnique(m, SymbolWith(version, level, mask, stream).value, version, level, mask, stream);
  }

  lemma {:induction false} WithTells(symbol: nat -> Option<Matrix>, penalty: nat -> nat, version: nat, level: EccLevel, stream: seq<byte>)
    requires IsVersion(version)
    requires forall k: nat :: symbol(k) == SymbolWith(version, level, k, stream)
    requires forall k: nat :: penalty(k) == PenaltyWith(version, level, k, stream)
    ensures Tells(symbol, penalty, version, level, stream)
  {
    forall k: nat, m: Matrix | IsSymbol(m, version, level, k, stream)
      ensures symbol(k) == Some(m) && penalty(k) == Penalty(m)
    {
      SymbolIs(m, version, level, k, stream);
    }
  }

  /** Among the symbols with the eight masks, the one with this mask is the first with the least penalty. */
  ghost predicate Minimal(mask: nat, version: nat, level: EccLevel, stream: seq<byte>)
    requires IsVersion(version)
  {
    && mask < 8
    && forall k: nat :: k < 8 ==>
      && SymbolWith(version, level, k, stream).Some?
      && PenaltyWith(version, level, mask, stream) <= PenaltyWith(version, level, k, stream)
      && (k < mask ==> PenaltyWith(version, level, mask, stream) < PenaltyWith(version, level, k, stream))
  }

  method ChooseMask(version: nat, level: EccLevel, stream: seq<byte>) returns (mask: nat, m: Matrix)
    requires IsVersion(version)
    ensures SymbolWith(version, level, mask, stream) == Some(m) && Minimal(mask, version, level, stream)
  {
    ghost var symbol := (k: nat) => SymbolWith(version, level, k, stream);
    ghost var penalty := (k: nat) => PenaltyWith(version, level, k, stream);
    WithTells(symbol, penalty, version, level, stream);
    mask, m := SelectMask(version, level, stream, symbol, penalty);
    MinimalByFunctions(symbol, penalty, mask, version, level, stream);
  }

  lemma {:induction false} MinimalByFunctions(symbol: nat -> Option<Matrix>, penalty: nat -> nat, mask: nat, version: nat, level: EccLevel, stream: seq<byte>)
    requires IsVersion(version)
    requires forall k: nat :: symbol(k) == SymbolWith(version, level, k, stream)
    requires forall k: nat :: penalty(k) == PenaltyWith(version, level, k, stream)
    requires FirstLeast(penalty, mask, 8) && forall k: nat :: k < 8 ==> symbol(k).Some?
    ensures Minimal(mask, version, level, stream)
  {
    assert symbol(mask) == SymbolWith(version, level, mask, stream);
  }

  method PickMask(version: nat, level: EccLevel, mask: Option<nat>, stream: seq<byte>) returns (chosen: nat, m: Matrix)
    requires IsVersion(version) && (mask.Some? ==> mask.value < 8)
    ensures chosen < 8 && IsSymbol(m, version, level, chosen, stream)
    ensures mask.Some? ==> chosen == mask.value
    ensures mask.None? ==> Minimal(chosen, version, level, stream)
  {
    match mask
    case Some(fixed) =>
      chosen := fixed;
      m := BuildModules(version, level, fixed, stream);
    case None =>
      chosen, m := ChooseMask(version, level, stream);
  }

  // ---- the whole encoder ----

  datatype QrCode = QrCode(version: nat, level: EccLevel, mask: nat, size: nat, modules: Matrix)

  lemma {:induction false} CountFits(byteLength: nat, version: nat, level: EccLevel)
    requires IsVersion(version) && Fits(byteLength, version, level)
    ensures byteLength < Pow2(CountBits(version))
  {
    assert Pow2(8) == 256;
    Pow2Monotone(9, 16);
    assert Pow2(9) == 512;
  }

  ghost predicate SmallestFit(version: nat, byteLength: nat, level: EccLevel) {
    IsVersion(version) && Fits(byteLength, version, level) && forall v: nat :: 1 <= v < version ==> !Fits(byteLength, v, level)
  }

  /** When encoding fails: the fixed version is too small, or every version is. */
  ghost predicate CannotEncode(byteLength: nat, level: EccLevel, version: Option<nat>)
    requires version.Some? ==> IsVersion(version.value)
  {
    match version
    case Some(v) => !Fits(byteLength, v, level)
    case None => forall v: nat :: IsVersion(v) ==> !Fits(byteLength, v, level)
  }

  /** Without a fixed version: beyond 271 bytes at level L, and beyond 213 at level M. */
  lemma {:induction false} FailsExactly(byteLength: nat, level: EccLevel)
    ensures CannotEncode(byteLength, level, None) <==> byteLength > if level == L then 271 else 213
  {
    FitsIs(byteLength, 10, level);
    forall v: nat | IsVersion(v)
      ensures Fits(byteLength, v, level) ==> byteLength <= if level == L then 271 else 213
    {
      FitsIs(byteLength, v, level);
      CapacityGrows(v, level);
    }
  }

  lemma {:induction false} CapacityGrows(v: nat, level: EccLevel)
    ensures ByteCapacity(v, level) <= if level == L then 271 else 213
  {
  }

  method PickVersion(byteLength: nat, level: EccLevel, version: Option<nat>) returns (r: Result<nat, QrError>)
    requires version.Some? ==> IsVersion(version.value)
    ensures version.Some? ==> r == Success(version.value)
    ensures version.None? && r.Success? ==> SmallestFit(r.value, byteLength, level)
    ensures r.Failure? ==> CannotEncode(byteLength, level, version)
  {
    match version
    case Some(v) => r := Success(v);
    case None => r := ChooseVersion(byteLength, level);
  }

  method StreamOf(data: seq<byte>, version: nat, level: EccLevel) returns (r: Result<seq<byte>, QrError>, ghost codewords: seq<byte>)
    requires IsVersion(version)
    ensures r.Success? <==> Fits(|data|, version, level)
    ensures r.Success? ==> |codewords| == DataCapacity(version, level) && Carries(codewords, data, version)
    ensures r.Success? ==> r.value == SymbolStream(codewords, version, level)
  {
    var words := DataCodewords(data, version, level);
    if words.Failure? {
      return Failure(words.error), [];
    }
    codewords := words.value;
    LayoutTotal(version, level);
    var tables := new Tables();
    var stream := InterleaveCodewords(tables, words.value, Layout(version, level), Width(version, level),
                                      SpecOf(version, level).ec);
    r := Success(stream);
  }

  /** The code carries exactly this payload, whichever copy of the format information is read. */
  ghost predicate Reads(code: QrCode, data: seq<byte>) {
    ReadQr(code.modules, true) == ReadQr(code.modules, false) == Some(data)
  }

  lemma {:induction false} SymbolReads(m: Matrix, version: nat, level: EccLevel, mask: nat, codewords: seq<byte>, data: seq<byte>)
    requires IsVersion(version) && mask < 8 && |codewords| == DataCapacity(version, level)
    requires IsSymbol(m, version, level, mask, SymbolStream(codewords, version, level))
    requires Fits(|data|, version, level) && Carries(codewords, data, version)
    ensures ReadQr(m, true) == ReadQr(m, false) == Some(data)
  {
    var bits :| HasFormat(m, Size(version), level, mask, bits);
    var versionBits :| HasPatterns(m, version, versionBits);
    CountFits(|data|, version, level);
    SymbolReadsBack(m, version, level, mask, bits, versionBits, codewords, data, true);
    SymbolReadsBack(m, version, level, mask, bits, versionBits, codewords, data, false);
  }

  /** Encoding fails only when it must; otherwise a reader gets the payload back byte for byte. */
  method EncodeQr(data: seq<byte>, level: EccLevel, mask: Option<nat>, version: Option<nat>)
    returns (r: Result<QrCode, QrError>, ghost stream: seq<byte>)
    requires (mask.Some? ==> mask.value < 8) && (version.Some? ==> IsVersion(version.value))
    ensures r.Failure? <==> CannotEncode(|data|, level, version)
    ensures r.Success? ==> Reads(r.value, data)
    ensures r.Success? ==> var code := r.value;
      && IsVersion(code.version) && code.level == level && code.mask < 8 && code.size == Size(code.version)
      && IsSymbol(code.modules, code.version, level, code.mask, stream)
      && (mask.Some? ==> code.mask == mask.value)
      && (mask.None? ==> Minimal(code.mask, code.version, level, stream))
      && (version.Some? ==> code.version == version.value)
      && (version.None? ==> SmallestFit(code.version, |data|, level))
  {
    stream := [];
    var v := PickVersion(|data|, level, version);
    if v.Failure? {
      return Failure(v.error), [];
    }
    var s, codewords := StreamOf(data, v.value, level);
    if s.Failure? {
      return Failure(s.error), [];
    }
    var chosen, m := PickMask(v.value, level, mask, s.value);
    SymbolReads(m, v.value, level, chosen, codewords, data);
    stream := s.value;
    r := Success(QrCode(v.value, level, chosen, |m|, m));
  }
}
