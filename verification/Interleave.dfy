/** Blocks of codewords interleaved column by column, for any block layout. */
module Interleave {
  import opened Bitwise
  import opened Gf256
  import opened ReedSolomon
  import opened Wrappers

  type Blocks = seq<seq<byte>>

  // ---- the interleaved stream ----

  /** Codeword `i` of every block that has one, in block order. */
  function Column(blocks: Blocks, i: nat): seq<byte> {
    if blocks == [] then [] else
      var last := blocks[|blocks| - 1];
      Column(blocks[..|blocks| - 1], i) + (if i < |last| then [last[i]] else [])
  }

  /** The first `n` columns, one after the other. */
  function Columns(blocks: Blocks, n: nat): seq<byte> {
    if n == 0 then [] else Columns(blocks, n - 1) + Column(blocks, n - 1)
  }

  /** The interleaving loops: `for i < width`, for each block, push its codeword `i` if it has one. */
  method InterleaveBlocks(blocks: Blocks, width: nat) returns (out: seq<byte>)
    ensures out == Columns(blocks, width)
  {
    out := [];
    for i := 0 to width
      invariant out == Columns(blocks, i)
    {
      ghost var before := out;
      for b := 0 to |blocks|
        invariant out == before + Column(blocks[..b], i)
      {
        assert blocks[..b + 1][..b] == blocks[..b];
        if i < |blocks[b]| {
          out := out + [blocks[b][i]];
        }
      }
      assert blocks[..|blocks|] == blocks;
    }
  }

  // ---- where each codeword lands ----

  /** How many of the first `b` blocks are longer than `i`. */
  function LongerThan(lengths: seq<nat>, b: nat, i: nat): nat
    requires b <= |lengths|
  {
    if b == 0 then 0 else LongerThan(lengths, b - 1, i) + (if i < lengths[b - 1] then 1 else 0)
  }

  function BeforeColumn(lengths: seq<nat>, i: nat): nat {
    if i == 0 then 0 else BeforeColumn(lengths, i - 1) + LongerThan(lengths, |lengths|, i - 1)
  }

  /** The place in the stream of codeword `i` of block `b`, worked out from the layout alone. */
  function Position(lengths: seq<nat>, b: nat, i: nat): nat
    requires b <= |lengths|
  {
    BeforeColumn(lengths, i) + LongerThan(lengths, b, i)
  }

  ghost predicate HasLengths(blocks: Blocks, lengths: seq<nat>) {
    |blocks| == |lengths| && forall b :: 0 <= b < |blocks| ==> |blocks[b]| == lengths[b]
  }

  lemma {:induction false} ColumnLength(blocks: Blocks, lengths: seq<nat>, n: nat, i: nat)
    requires HasLengths(blocks, lengths) && n <= |blocks|
    ensures |Column(blocks[..n], i)| == LongerThan(lengths, n, i)
  {
    if n == 0 {
    } else {
      ColumnLength(blocks, lengths, n - 1, i);
      assert blocks[..n][..n - 1] == blocks[..n - 1];
    }
  }

  lemma {:induction false} ColumnAt(blocks: Blocks, lengths: seq<nat>, n: nat, b: nat, i: nat)
    requires HasLengths(blocks, lengths) && b < n <= |blocks| && i < lengths[b]
    ensures LongerThan(lengths, b, i) < |Column(blocks[..n], i)|
    ensures Column(blocks[..n], i)[LongerThan(lengths, b, i)] == blocks[b][i]
  {
    ColumnLength(blocks, lengths, n - 1, i);
    assert blocks[..n][..n - 1] == blocks[..n - 1];
    if b >= n - 1 {
    } else {
      ColumnAt(blocks, lengths, n - 1, b, i);
    }
  }

  lemma {:induction false} ColumnsLength(blocks: Blocks, lengths: seq<nat>, n: nat)
    requires HasLengths(blocks, lengths)
    ensures |Columns(blocks, n)| == BeforeColumn(lengths, n)
  {
    if n == 0 {
    } else {
      ColumnsLength(blocks, lengths, n - 1);
      ColumnLength(blocks, lengths, |blocks|, n - 1);
      assert blocks[..|blocks|] == blocks;
    }
  }

  lemma {:induction false} ColumnsGrow(blocks: Blocks, n: nat, p: nat)
    requires p < |Columns(blocks, n)|
    ensures p < |Columns(blocks, n + 1)| && Columns(blocks, n + 1)[p] == Columns(blocks, n)[p]
  {
  }

  lemma {:induction false} ColumnsAt(blocks: Blocks, lengths: seq<nat>, n: nat, b: nat, i: nat)
    requires HasLengths(blocks, lengths) && b < |blocks| && i < n && i < lengths[b]
    ensures Position(lengths, b, i) < |Columns(blocks, n)|
    ensures Columns(blocks, n)[Position(lengths, b, i)] == blocks[b][i]
    decreases n
  {
    if i < n - 1 {
      ColumnsAt(blocks, lengths, n - 1, b, i);
      ColumnsGrow(blocks, n - 1, Position(lengths, b, i));
    } else {
      ColumnsAtLast(blocks, lengths, b, i);
    }
  }

  lemma {:induction false} ColumnsAtLast(blocks: Blocks, lengths: seq<nat>, b: nat, i: nat)
    requires HasLengths(blocks, lengths) && b < |blocks| && i < lengths[b]
    ensures Position(lengths, b, i) < |Columns(blocks, i + 1)|
    ensures Columns(blocks, i + 1)[Position(lengths, b, i)] == blocks[b][i]
  {
    var before, column, k := Columns(blocks, i), Column(blocks, i), LongerThan(lengths, b, i);
    ColumnsLength(blocks, lengths, i);
    ColumnAt(blocks, lengths, |blocks|, b, i);
    assert blocks[..|blocks|] == blocks;
    assert k < |column| && column[k] == blocks[b][i];
    assert (before + column)[|before| + k] == column[k];
  }

  // ---- the layout of a whole symbol ----

  /** The data codewords before block `b`. */
  function Offset(lengths: seq<nat>, b: nat): nat
    requires b <= |lengths|
  {
    if b == 0 then 0 else Offset(lengths, b - 1) + lengths[b - 1]
  }

  function Total(lengths: seq<nat>): nat {
    Offset(lengths, |lengths|)
  }

  lemma {:induction false} OffsetMonotone(lengths: seq<nat>, a: nat, b: nat)
    requires a <= b <= |lengths|
    ensures Offset(lengths, a) <= Offset(lengths, b)
  {
    if a >= b {
    } else {
      OffsetMonotone(lengths, a, b - 1);
    }
  }

  /** Block `b` of the data, before any interleaving. */
  function BlockOf(data: seq<byte>, lengths: seq<nat>, b: nat): (r: seq<byte>)
    requires b < |lengths| && Total(lengths) <= |data|
    ensures |r| == lengths[b]
  {
    OffsetMonotone(lengths, b + 1, |lengths|);
    data[Offset(lengths, b)..Offset(lengths, b + 1)]
  }

  function Split(data: seq<byte>, lengths: seq<nat>): (blocks: Blocks)
    requires Total(lengths) <= |data|
    ensures HasLengths(blocks, lengths)
  {
    seq(|lengths|, b requires 0 <= b < |lengths| => BlockOf(data, lengths, b))
  }

  function Join(blocks: Blocks): seq<byte> {
    if blocks == [] then [] else Join(blocks[..|blocks| - 1]) + blocks[|blocks| - 1]
  }

  lemma {:induction false} JoinPrefix(data: seq<byte>, lengths: seq<nat>, b: nat)
    requires b <= |lengths| && Total(lengths) <= |data|
    ensures Offset(lengths, b) <= |data| && Join(Split(data, lengths)[..b]) == data[..Offset(lengths, b)]
  {
    OffsetMonotone(lengths, b, |lengths|);
    if b == 0 {
    } else {
      var blocks, last := Split(data, lengths), BlockOf(data, lengths, b - 1);
      JoinPrefix(data, lengths, b - 1);
      JoinSnoc(blocks, b - 1);
      assert data[..Offset(lengths, b)] == data[..Offset(lengths, b - 1)] + last;
    }
  }

  lemma {:induction false} JoinSnoc(blocks: Blocks, b: nat)
    requires b < |blocks|
    ensures Join(blocks[..b + 1]) == Join(blocks[..b]) + blocks[b]
  {
    assert blocks[..b + 1][..b] == blocks[..b];
  }

  function EcBlocks(blocks: Blocks, ec: nat): (r: Blocks)
    ensures |r| == |blocks|
  {
    seq(|blocks|, b requires 0 <= b < |blocks| => Remainder(blocks[b], ec))
  }

  /** The full codeword stream: data codewords in columns, then error-correction codewords in columns. */
  function Stream(data: seq<byte>, lengths: seq<nat>, width: nat, ec: nat): seq<byte>
    requires Total(lengths) <= |data|
  {
    var blocks := Split(data, lengths);
    Columns(blocks, width) + Columns(EcBlocks(blocks, ec), ec)
  }

  // ---- counting by rows and by columns ----

  function Min(a: nat, b: nat): nat {
    if a < b then a else b
  }

  function ClippedTotal(lengths: seq<nat>, b: nat, n: nat): nat
    requires b <= |lengths|
  {
    if b == 0 then 0 else ClippedTotal(lengths, b - 1, n) + Min(lengths[b - 1], n)
  }

  lemma {:induction false} ClippedStep(lengths: seq<nat>, b: nat, n: nat)
    requires b <= |lengths|
    ensures ClippedTotal(lengths, b, n + 1) == ClippedTotal(lengths, b, n) + LongerThan(lengths, b, n)
    ensures ClippedTotal(lengths, b, 0) == 0
  {
    if b == 0 {
    } else {
      ClippedStep(lengths, b - 1, n);
    }
  }

  lemma {:induction false} ClippedWhole(lengths: seq<nat>, b: nat, n: nat)
    requires b <= |lengths| && forall k :: 0 <= k < b ==> lengths[k] <= n
    ensures ClippedTotal(lengths, b, n) == Offset(lengths, b)
  {
    if b == 0 {
    } else {
      ClippedWhole(lengths, b - 1, n);
    }
  }

  lemma {:induction false} BeforeColumnClipped(lengths: seq<nat>, n: nat)
    ensures BeforeColumn(lengths, n) == ClippedTotal(lengths, |lengths|, n)
  {
    if n == 0 {
      ClippedStep(lengths, |lengths|, 0);
    } else {
      BeforeColumnClipped(lengths, n - 1);
      ClippedStep(lengths, |lengths|, n - 1);
    }
  }

  // ---- reading ----

  /** Block `b` of a stream, by the layout alone. */
  function TakeBlock(stream: seq<byte>, lengths: seq<nat>, b: nat): seq<byte>
    requires b < |lengths|
  {
    seq(lengths[b], i requires 0 <= i < lengths[b] =>
      if Position(lengths, b, i) < |stream| then stream[Position(lengths, b, i)] else 0)
  }

  function TakeBlocks(stream: seq<byte>, lengths: seq<nat>): Blocks {
    seq(|lengths|, b requires 0 <= b < |lengths| => TakeBlock(stream, lengths, b))
  }

  function Repeat(n: nat, count: nat): (r: seq<nat>)
    ensures |r| == count && forall k :: 0 <= k < count ==> r[k] == n
  {
    seq(count, _ => n)
  }

  /** No syndrome of the block and its error-correction codewords differs from zero. */
  ghost predicate Intact(block: seq<byte>, ec: seq<byte>, n: nat) {
    forall i: nat :: i < n ==> Eval(block + ec, Alpha(i)) == 0
  }

  ghost function CheckedData(blocks: Blocks, ecBlocks: Blocks, ec: nat): Option<seq<byte>>
    requires |blocks| == |ecBlocks|
  {
    if forall b :: 0 <= b < |blocks| ==> Intact(blocks[b], ecBlocks[b], ec) then Some(Join(blocks)) else None
  }

  /** The data codewords of a stream, if every block checks out against its error correction. */
  ghost function ReadStream(stream: seq<byte>, lengths: seq<nat>, ec: nat): Option<seq<byte>> {
    if |stream| < Total(lengths) then None
    else CheckedData(
      TakeBlocks(stream, lengths), TakeBlocks(stream[Total(lengths)..], Repeat(ec, |lengths|)), ec)
  }

  /** De-interleaving undoes interleaving, whatever follows in the stream. */
  lemma {:induction false} TakesBack(blocks: Blocks, lengths: seq<nat>, width: nat, rest: seq<byte>)
    requires HasLengths(blocks, lengths) && forall b :: 0 <= b < |blocks| ==> lengths[b] <= width
    ensures TakeBlocks(Columns(blocks, width) + rest, lengths) == blocks
    ensures |Columns(blocks, width)| == Total(lengths)
  {
    var stream := Columns(blocks, width) + rest;
    forall b, i: nat | 0 <= b < |blocks| && i < lengths[b]
      ensures TakeBlock(stream, lengths, b)[i] == blocks[b][i]
    {
      ColumnsAt(blocks, lengths, width, b, i);
    }
    forall b | 0 <= b < |blocks|
      ensures TakeBlock(stream, lengths, b) == blocks[b]
    {
    }
    ColumnsLength(blocks, lengths, width);
    BeforeColumnClipped(lengths, width);
    ClippedWhole(lengths, |lengths|, width);
  }

  /** A reader gets exactly the data codewords back, for any data, layout and amount of error correction. */
  lemma {:induction false} StreamReadsBack(data: seq<byte>, lengths: seq<nat>, width: nat, ec: nat, rest: seq<byte>)
    requires Total(lengths) == |data| && ec > 0
    requires forall b :: 0 <= b < |lengths| ==> lengths[b] <= width
    ensures ReadStream(Stream(data, lengths, width, ec) + rest, lengths, ec) == Some(data)
  {
    var blocks := Split(data, lengths);
    BlocksReadBack(blocks, lengths, width, ec, rest);
    SplitJoins(data, lengths);
  }

  lemma {:induction false} SplitJoins(data: seq<byte>, lengths: seq<nat>)
    requires Total(lengths) == |data|
    ensures Join(Split(data, lengths)) == data
  {
    JoinPrefix(data, lengths, |lengths|);
    assert Split(data, lengths)[..|lengths|] == Split(data, lengths);
    assert data[..|data|] == data;
  }

  lemma {:induction false} BlocksReadBack(blocks: Blocks, lengths: seq<nat>, width: nat, ec: nat, rest: seq<byte>)
    requires HasLengths(blocks, lengths) && ec > 0
    requires forall b :: 0 <= b < |lengths| ==> lengths[b] <= width
    ensures ReadStream(Columns(blocks, width) + Columns(EcBlocks(blocks, ec), ec) + rest, lengths, ec) == Some(Join(blocks))
  {
    var ecBlocks := EcBlocks(blocks, ec);
    var first, second := Columns(blocks, width), Columns(ecBlocks, ec);
    assert first + second + rest == first + (second + rest);
    TakesBack(blocks, lengths, width, second + rest);
    TakesBack(ecBlocks, Repeat(ec, |lengths|), ec, rest);
    assert (first + (second + rest))[Total(lengths)..] == second + rest;
    ComputedIntact(blocks, ec);
  }

  lemma {:induction false} ComputedIntact(blocks: Blocks, ec: nat)
    requires ec > 0
    ensures CheckedData(blocks, EcBlocks(blocks, ec), ec) == Some(Join(blocks))
  {
    forall b, i: nat | 0 <= b < |blocks| && i < ec
      ensures Eval(blocks[b] + Remainder(blocks[b], ec), Alpha(i)) == 0
    {
      CodewordVanishes(blocks[b], ec, i);
    }
  }

  // ---- the program's own loops ----

  /** Blocks of the shape `g1` times `d1`, `g2` times `d2`, cut one after the other. */
  method CutBlocks(data: seq<byte>, lengths: seq<nat>) returns (blocks: Blocks)
    requires Total(lengths) == |data|
    ensures blocks == Split(data, lengths)
  {
    blocks := [];
    var offset := 0;
    for b := 0 to |lengths|
      invariant offset == Offset(lengths, b) && |blocks| == b
      invariant forall k :: 0 <= k < b ==> blocks[k] == BlockOf(data, lengths, k)
    {
      OffsetMonotone(lengths, b + 1, |lengths|);
      blocks := blocks + [data[offset..offset + lengths[b]]];
      offset := offset + lengths[b];
    }
  }

  method InterleaveCodewords(tables: Tables, data: seq<byte>, lengths: seq<nat>, width: nat, ec: nat) returns (out: seq<byte>)
    requires tables.Valid() && ec <= 512 && Total(lengths) == |data|
    ensures out == Stream(data, lengths, width, ec)
  {
    var blocks := CutBlocks(data, lengths);
    var ecBlocks := AppendCodewords(tables, blocks, ec);
    var first := InterleaveBlocks(blocks, width);
    var second := InterleaveBlocks(ecBlocks, ec);
    out := first + second;
  }

  method AppendCodewords(tables: Tables, blocks: Blocks, ec: nat) returns (ecBlocks: Blocks)
    requires tables.Valid() && ec <= 512
    ensures ecBlocks == EcBlocks(blocks, ec)
  {
    ecBlocks := [];
    for b := 0 to |blocks|
      invariant |ecBlocks| == b
      invariant forall k :: 0 <= k < b ==> ecBlocks[k] == Remainder(blocks[k], ec)
    {
      var r := EcCodewords(tables, blocks[b], ec);
      ecBlocks := ecBlocks + [r];
    }
  }
}
