/**
 * Line ranges and code blocks shared by every stage of the reordering:
 * a function's span (lineno, end_lineno), a block (start, end, is_function),
 * the function/filler sub-sequences of a block list, and what it means for a
 * block list to tile a line interval.
 */
module Blocks {

  /** The inclusive 1-based line span of one top-level function definition. */
  datatype Range = Range(start: int, end: int)

  /**
   * One block (start, end, is_function). The source flags blocks with the
   * integers 1 and 0 and only ever tests them for truth; here the flag is a bool.
   */
  datatype Block = Block(start: int, end: int, isFunction: bool)

  /** The function block a range becomes: (start, end, 1). */
  function FunctionBlock(r: Range): Block
  {
    Block(r.start, r.end, true)
  }

  /** Line `line` lies inside block `b` (both ends inclusive). */
  predicate InBlock(b: Block, line: int)
  {
    b.start <= line <= b.end
  }

  /** The function-flagged blocks of `bs`, in their order in `bs`. */
  function FunctionBlocks(bs: seq<Block>): seq<Block>
  {
    if bs == [] then []
    else FunctionBlocks(bs[..|bs| - 1]) + (if bs[|bs| - 1].isFunction then [bs[|bs| - 1]] else [])
  }

  /** The filler blocks of `bs`, in their order in `bs`. */
  function FillerBlocks(bs: seq<Block>): seq<Block>
  {
    if bs == [] then []
    else FillerBlocks(bs[..|bs| - 1]) + (if bs[|bs| - 1].isFunction then [] else [bs[|bs| - 1]])
  }

  /** The indices of the function-flagged blocks of `bs`, in increasing order. */
  function FunctionIndices(bs: seq<Block>): seq<nat>
  {
    if bs == [] then []
    else FunctionIndices(bs[..|bs| - 1]) + (if bs[|bs| - 1].isFunction then [|bs| - 1] else [])
  }

  /**
   * Function ranges sorted, non-overlapping and inside first..last: what a parser
   * yields for a file of lines first..last.
   */
  predicate SortedRanges(ranges: seq<Range>, first: int, last: int)
  {
    (forall i :: 0 <= i < |ranges| ==> first <= ranges[i].start <= ranges[i].end <= last) &&
    (forall i :: 0 < i < |ranges| ==> ranges[i - 1].end < ranges[i].start)
  }

  /** `t` is a rearrangement of the function blocks of `bs` (so in particular as long). */
  predicate IsShuffleOf(t: seq<Block>, bs: seq<Block>)
  {
    |t| == |FunctionBlocks(bs)| && multiset(t) == multiset(FunctionBlocks(bs))
  }

  /**
   * `bs` partitions the lines first..last: every block is non-empty, the first
   * starts at `first`, each ends one line before the next starts, and the last
   * ends at `last`; an empty list tiles exactly the empty intervals.
   */
  ghost predicate Tiles(bs: seq<Block>, first: int, last: int)
  {
    (bs == [] ==> last < first) &&
    (bs != [] ==> bs[0].start == first && bs[|bs| - 1].end == last) &&
    (forall i :: 0 <= i < |bs| ==> bs[i].start <= bs[i].end) &&
    (forall i, j :: 0 <= i < j < |bs| && j == i + 1 ==> bs[i].end + 1 == bs[j].start)
  }

  lemma {:induction false} FunctionBlocksAppend(a: seq<Block>, b: seq<Block>)
    ensures FunctionBlocks(a + b) == FunctionBlocks(a) + FunctionBlocks(b)
  {
    if b == [] {
      assert a + b == a;
    } else {
      assert (a + b)[..|a + b| - 1] == a + b[..|b| - 1];
      FunctionBlocksAppend(a, b[..|b| - 1]);
    }
  }

  lemma {:induction false} FillerBlocksAppend(a: seq<Block>, b: seq<Block>)
    ensures FillerBlocks(a + b) == FillerBlocks(a) + FillerBlocks(b)
  {
    if b == [] {
      assert a + b == a;
    } else {
      assert (a + b)[..|a + b| - 1] == a + b[..|b| - 1];
      FillerBlocksAppend(a, b[..|b| - 1]);
    }
  }

  /** Every block is either a function block or a filler block, and none is lost. */
  lemma {:induction false} FunctionAndFillerSplit(bs: seq<Block>)
    ensures multiset(bs) == multiset(FunctionBlocks(bs)) + multiset(FillerBlocks(bs))
    ensures |FunctionBlocks(bs)| + |FillerBlocks(bs)| == |bs|
  {
    if bs != [] {
      var n := |bs| - 1;
      FunctionAndFillerSplit(bs[..n]);
      assert bs == bs[..n] + [bs[n]];
      assert multiset(bs) == multiset(bs[..n]) + multiset{bs[n]};
      if bs[n].isFunction {
        assert FunctionBlocks(bs) == FunctionBlocks(bs[..n]) + [bs[n]];
        assert FillerBlocks(bs) == FillerBlocks(bs[..n]);
      } else {
        assert FunctionBlocks(bs) == FunctionBlocks(bs[..n]);
        assert FillerBlocks(bs) == FillerBlocks(bs[..n]) + [bs[n]];
      }
    }
  }

  /**
   * The indices list and the function-block list correspond entry by entry:
   * FunctionIndices(bs)[k] is the position in `bs` of FunctionBlocks(bs)[k],
   * the indices increase strictly, and every function-flagged position is listed.
   */
  lemma {:induction false} FunctionIndicesSpec(bs: seq<Block>)
    ensures |FunctionIndices(bs)| == |FunctionBlocks(bs)|
    ensures forall k :: 0 <= k < |FunctionIndices(bs)| ==>
              FunctionIndices(bs)[k] < |bs| && bs[FunctionIndices(bs)[k]] == FunctionBlocks(bs)[k]
    ensures forall k, m :: 0 <= k < m < |FunctionIndices(bs)| ==>
              FunctionIndices(bs)[k] < FunctionIndices(bs)[m]
    ensures forall i :: 0 <= i < |bs| && bs[i].isFunction ==> i in FunctionIndices(bs)
  {
    if bs != [] {
      var n := |bs| - 1;
      FunctionIndicesSpec(bs[..n]);
    }
  }

  /** Every function block of `bs` is function-flagged and is one of the blocks of `bs`. */
  lemma {:induction false} FunctionBlocksAreFunctions(bs: seq<Block>)
    ensures forall b :: b in FunctionBlocks(bs) ==> b.isFunction && b in bs
  {
    if bs != [] {
      FunctionBlocksAreFunctions(bs[..|bs| - 1]);
      assert forall b :: b in bs[..|bs| - 1] ==> b in bs;
    }
  }

  /** The function indices depend only on the flags. */
  lemma {:induction false} SameFlagsSameIndices(a: seq<Block>, b: seq<Block>)
    requires |a| == |b|
    requires forall i :: 0 <= i < |a| ==> a[i].isFunction == b[i].isFunction
    ensures FunctionIndices(a) == FunctionIndices(b)
  {
    if a != [] {
      SameFlagsSameIndices(a[..|a| - 1], b[..|b| - 1]);
    }
  }

  /** Two lists with the same flags and the same filler blocks have the same filler sub-sequence. */
  lemma {:induction false} SameFillers(a: seq<Block>, b: seq<Block>)
    requires |a| == |b|
    requires forall i :: 0 <= i < |a| ==> a[i].isFunction == b[i].isFunction
    requires forall i :: 0 <= i < |a| && !a[i].isFunction ==> a[i] == b[i]
    ensures FillerBlocks(a) == FillerBlocks(b)
  {
    if a != [] {
      SameFillers(a[..|a| - 1], b[..|b| - 1]);
    }
  }

  /** Blocks of a tiling are strictly ordered and lie inside the interval. */
  lemma {:induction false} TilesOrdered(bs: seq<Block>, first: int, last: int, i: int, j: int)
    requires Tiles(bs, first, last)
    requires 0 <= i < j < |bs|
    ensures bs[i].end < bs[j].start
    decreases j - i
  {
    if i + 1 < j {
      TilesOrdered(bs, first, last, i + 1, j);
    }
  }

  lemma TilesBounds(bs: seq<Block>, first: int, last: int, i: int)
    requires Tiles(bs, first, last)
    requires 0 <= i < |bs|
    ensures first <= bs[i].start && bs[i].end <= last
  {
    if 0 < i { TilesOrdered(bs, first, last, 0, i); }
    if i < |bs| - 1 { TilesOrdered(bs, first, last, i, |bs| - 1); }
  }

  /** Dropping the last block of a tiling leaves a tiling of the lines before it. */
  lemma TilesDropLast(bs: seq<Block>, first: int, last: int)
    requires Tiles(bs, first, last) && bs != []
    ensures Tiles(bs[..|bs| - 1], first, bs[|bs| - 1].start - 1)
  {
  }

  /**
   * A tiling covers each line of first..last exactly once, and no line outside it:
   * some block holds `line` iff first <= line <= last, and at most one block does.
   */
  lemma {:induction false} TilesCoverExactlyOnce(bs: seq<Block>, first: int, last: int, line: int)
    requires Tiles(bs, first, last)
    ensures (exists i :: 0 <= i < |bs| && InBlock(bs[i], line)) <==> first <= line <= last
    ensures forall i, j :: 0 <= i < |bs| && 0 <= j < |bs| && InBlock(bs[i], line) && InBlock(bs[j], line) ==> i == j
  {
    forall i, j | 0 <= i < |bs| && 0 <= j < |bs| && InBlock(bs[i], line) && InBlock(bs[j], line)
      ensures i == j
    {
      if i < j { TilesOrdered(bs, first, last, i, j); }
      if j < i { TilesOrdered(bs, first, last, j, i); }
    }
    if exists i :: 0 <= i < |bs| && InBlock(bs[i], line) {
      var i :| 0 <= i < |bs| && InBlock(bs[i], line);
      TilesBounds(bs, first, last, i);
    }
    if first <= line <= last {
      var i := CoveringBlockExists(bs, first, last, line);
      assert InBlock(bs[i], line);
    }
  }

  /** The index of the block of a tiling that holds `line`. */
  lemma {:induction false} CoveringBlockExists(bs: seq<Block>, first: int, last: int, line: int) returns (i: nat)
    requires Tiles(bs, first, last)
    requires first <= line <= last
    ensures i < |bs| && InBlock(bs[i], line)
    decreases |bs|
  {
    var n := |bs| - 1;
    if bs[n].start <= line {
      i := n;
    } else {
      TilesDropLast(bs, first, last);
      i := CoveringBlockExists(bs[..n], first, bs[n].start - 1, line);
    }
  }

}
