/**
 * Block partitioning: a cursor walk over the function ranges that emits a
 * filler block for each gap before a function, the function's own block, and
 * a final filler block for the lines after the last function.
 */
module Partition {
  import opened Blocks

  /** The ranges as function blocks (start, end, 1), in the same order. */
  function RangeBlocks(ranges: seq<Range>): (r: seq<Block>)
  {
    seq(|ranges|, k requires 0 <= k < |ranges| => FunctionBlock(ranges[k]))
  }

  lemma RangeBlocksSnoc(ranges: seq<Range>, i: int)
    requires 0 <= i < |ranges|
    ensures RangeBlocks(ranges[..i + 1]) == RangeBlocks(ranges[..i]) + [FunctionBlock(ranges[i])]
  {
  }

  /** Filler blocks are never empty. */
  predicate FillersNonEmpty(bs: seq<Block>)
  {
    forall i :: 0 <= i < |bs| && !bs[i].isFunction ==> bs[i].start <= bs[i].end
  }

  /** No two filler blocks are neighbours: each gap becomes at most one filler. */
  ghost predicate NoAdjacentFillers(bs: seq<Block>)
  {
    forall i, j :: 0 <= i < j < |bs| && j == i + 1 ==> bs[i].isFunction || bs[j].isFunction
  }

  /** Appending a non-empty block that starts right after a tiling extends the tiling. */
  lemma TilesExtend(bs: seq<Block>, first: int, b: Block)
    requires Tiles(bs, first, b.start - 1)
    requires bs == [] ==> b.start == first
    requires b.start <= b.end
    ensures Tiles(bs + [b], first, b.end)
  {
  }

  /** Appending one block adds it to the function blocks iff it is function-flagged. */
  lemma FunctionBlocksSnoc(bs: seq<Block>, b: Block)
    ensures FunctionBlocks(bs + [b]) == FunctionBlocks(bs) + (if b.isFunction then [b] else [])
  {
    assert (bs + [b])[..|bs|] == bs;
  }

  /** The blocks one range adds at cursor `cur`: a filler for any gap, then the range's block. */
  function StepBlocks(cur: int, r: Range): seq<Block>
  {
    (if cur < r.start then [Block(cur, r.start - 1, false)] else []) + [FunctionBlock(r)]
  }

  /** The block list after one step at cursor `cur`, appended to as the loop body does it. */
  function AfterStep(blocks: seq<Block>, cur: int, r: Range): seq<Block>
  {
    (if cur < r.start then blocks + [Block(cur, r.start - 1, false)] else blocks) + [FunctionBlock(r)]
  }

  lemma AfterStepAppends(blocks: seq<Block>, cur: int, r: Range)
    ensures AfterStep(blocks, cur, r) == blocks + StepBlocks(cur, r)
  {
  }

  /** One step of the walk adds exactly the range's block to the function blocks. */
  lemma StepFunctionBlocks(blocks: seq<Block>, cur: int, r: Range)
    ensures FunctionBlocks(blocks + StepBlocks(cur, r)) == FunctionBlocks(blocks) + [FunctionBlock(r)]
  {
    if cur < r.start {
      var filler := Block(cur, r.start - 1, false);
      FunctionBlocksSnoc(blocks, filler);
      FunctionBlocksSnoc(blocks + [filler], FunctionBlock(r));
      assert blocks + StepBlocks(cur, r) == blocks + [filler] + [FunctionBlock(r)];
    } else {
      FunctionBlocksSnoc(blocks, FunctionBlock(r));
    }
  }

  /** One step of the walk only adds a non-empty filler. */
  lemma StepFillers(blocks: seq<Block>, cur: int, r: Range)
    requires FillersNonEmpty(blocks)
    ensures FillersNonEmpty(blocks + StepBlocks(cur, r))
  {
  }

  /** For sorted input, one step of the walk extends the tiling to the range's end. */
  lemma StepTiles(blocks: seq<Block>, first: int, cur: int, r: Range)
    requires Tiles(blocks, first, cur - 1)
    requires blocks == [] ==> cur == first
    requires cur <= r.start <= r.end
    ensures Tiles(blocks + StepBlocks(cur, r), first, r.end)
  {
    if cur < r.start {
      var filler := Block(cur, r.start - 1, false);
      TilesExtend(blocks, first, filler);
      TilesExtend(blocks + [filler], first, FunctionBlock(r));
      assert blocks + StepBlocks(cur, r) == blocks + [filler] + [FunctionBlock(r)];
    } else {
      TilesExtend(blocks, first, FunctionBlock(r));
    }
  }

  /** The state of the walk after the first `i` ranges: blocks so far and the cursor. */
  ghost predicate Walked(ranges: seq<Range>, first: int, last: int, i: int, blocks: seq<Block>, cur: int)
    requires 0 <= i <= |ranges|
  {
    FunctionBlocks(blocks) == RangeBlocks(ranges[..i]) &&
    FillersNonEmpty(blocks) &&
    (i == 0 ==> blocks == [] && cur == first) &&
    (i > 0 ==> cur == ranges[i - 1].end + 1) &&
    (SortedRanges(ranges, first, last) ==> Tiles(blocks, first, cur - 1)) &&
    (i > 0 ==> blocks != [] && blocks[|blocks| - 1].isFunction) &&
    NoAdjacentFillers(blocks)
  }

  lemma WalkStart(ranges: seq<Range>, first: int, last: int)
    ensures Walked(ranges, first, last, 0, [], first)
  {
    assert ranges[..0] == [];
  }

  lemma WalkStep(ranges: seq<Range>, first: int, last: int, i: int, blocks: seq<Block>, cur: int, after: seq<Block>)
    requires 0 <= i < |ranges|
    requires Walked(ranges, first, last, i, blocks, cur)
    requires after == AfterStep(blocks, cur, ranges[i])
    ensures Walked(ranges, first, last, i + 1, after, ranges[i].end + 1)
  {
    AfterStepAppends(blocks, cur, ranges[i]);
    var r := ranges[i];
    StepFunctionBlocks(blocks, cur, r);
    StepFillers(blocks, cur, r);
    RangeBlocksSnoc(ranges, i);
    if SortedRanges(ranges, first, last) {
      assert cur <= r.start by {
        if i > 0 { assert ranges[i - 1].end < r.start; }
      }
      StepTiles(blocks, first, cur, r);
    }
  }

  /** The blocks after the walk, with the filler for any lines left after the cursor. */
  function CloseBlocks(blocks: seq<Block>, cur: int, last: int): seq<Block>
  {
    if cur <= last then blocks + [Block(cur, last, false)] else blocks
  }

  /** A filler after a function block (or alone) does not sit next to another filler. */
  lemma NoAdjacentFillersSnoc(bs: seq<Block>, b: Block)
    requires NoAdjacentFillers(bs)
    requires bs != [] ==> bs[|bs| - 1].isFunction
    ensures NoAdjacentFillers(bs + [b])
  {
    var xs := bs + [b];
    forall i, j | 0 <= i < j < |xs| && j == i + 1 ensures xs[i].isFunction || xs[j].isFunction {
      if j < |bs| { assert xs[i] == bs[i] && xs[j] == bs[j]; }
    }
  }

  /** With lines left after the cursor, the final filler keeps the walk's guarantees and completes the tiling. */
  lemma WalkFinishFiller(ranges: seq<Range>, first: int, last: int, blocks: seq<Block>, cur: int)
    requires Walked(ranges, first, last, |ranges|, blocks, cur)
    requires cur <= last
    ensures FunctionBlocks(blocks + [Block(cur, last, false)]) == RangeBlocks(ranges)
    ensures FillersNonEmpty(blocks + [Block(cur, last, false)])
    ensures NoAdjacentFillers(blocks + [Block(cur, last, false)])
    ensures ranges == [] ==> blocks + [Block(cur, last, false)] == [Block(first, last, false)]
    ensures SortedRanges(ranges, first, last) ==> Tiles(blocks + [Block(cur, last, false)], first, last)
  {
    assert ranges[..|ranges|] == ranges;
    var filler := Block(cur, last, false);
    if SortedRanges(ranges, first, last) { TilesExtend(blocks, first, filler); }
    FunctionBlocksSnoc(blocks, filler);
    NoAdjacentFillersSnoc(blocks, filler);
  }

  /** With no lines left after the cursor, the walk's blocks already have every guarantee. */
  lemma WalkFinishBare(ranges: seq<Range>, first: int, last: int, blocks: seq<Block>, cur: int)
    requires Walked(ranges, first, last, |ranges|, blocks, cur)
    requires last < cur
    ensures FunctionBlocks(blocks) == RangeBlocks(ranges)
    ensures ranges == [] ==> blocks == []
    ensures SortedRanges(ranges, first, last) ==> Tiles(blocks, first, last)
  {
    assert ranges[..|ranges|] == ranges;
    if SortedRanges(ranges, first, last) && ranges != [] {
      assert ranges[|ranges| - 1].end <= last;
    }
  }

  /** The final filler keeps the walk's guarantees and completes the tiling. */
  lemma WalkFinish(ranges: seq<Range>, first: int, last: int, blocks: seq<Block>, cur: int, closed: seq<Block>)
    requires Walked(ranges, first, last, |ranges|, blocks, cur)
    requires closed == CloseBlocks(blocks, cur, last)
    ensures FunctionBlocks(closed) == RangeBlocks(ranges)
    ensures FillersNonEmpty(closed)
    ensures NoAdjacentFillers(closed)
    ensures ranges == [] ==> closed == if first <= last then [Block(first, last, false)] else []
    ensures SortedRanges(ranges, first, last) ==> Tiles(closed, first, last)
  {
    if cur <= last {
      WalkFinishFiller(ranges, first, last, blocks, cur);
    } else {
      WalkFinishBare(ranges, first, last, blocks, cur);
    }
  }

  /**
   * get_code_blocks(function_ranges, first_line, last_line). Whatever the
   * ranges, the function-flagged blocks are exactly the ranges, in order,
   * every filler block is non-empty and no two fillers are neighbours; with no ranges the result is the single
   * filler first_line..last_line, or nothing for an empty interval; and when
   * the ranges are sorted, non-overlapping and inside the interval, the blocks
   * tile it exactly.
   */
  method GetCodeBlocks(functionRanges: seq<Range>, firstLine: int, lastLine: int) returns (blocks: seq<Block>)
    ensures FunctionBlocks(blocks) == RangeBlocks(functionRanges)
    ensures FillersNonEmpty(blocks)
    ensures NoAdjacentFillers(blocks)
    ensures functionRanges == [] ==>
              blocks == if firstLine <= lastLine then [Block(firstLine, lastLine, false)] else []
    ensures SortedRanges(functionRanges, firstLine, lastLine) ==> Tiles(blocks, firstLine, lastLine)
  {
    var currentLine := firstLine;
    blocks := [];
    WalkStart(functionRanges, firstLine, lastLine);
    for i := 0 to |functionRanges|
      invariant Walked(functionRanges, firstLine, lastLine, i, blocks, currentLine)
    {
      var r := functionRanges[i];
      ghost var before := blocks;
      if currentLine < r.start {
        // the lines between the cursor and the function form one filler
        blocks := blocks + [Block(currentLine, r.start - 1, false)];
      }
      blocks := blocks + [Block(r.start, r.end, true)];
      WalkStep(functionRanges, firstLine, lastLine, i, before, currentLine, blocks);
      currentLine := r.end + 1;
    }
    ghost var walked := blocks;
    if currentLine <= lastLine {
      blocks := blocks + [Block(currentLine, lastLine, false)];
    }
    WalkFinish(functionRanges, firstLine, lastLine, walked, currentLine, blocks);
  }
}
