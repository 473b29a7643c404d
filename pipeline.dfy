/**
 * The whole run: read the lines, extract the top-level function ranges,
 * partition the file into blocks, reorder the function blocks in place, and
 * write the blocks' lines back out. The parser and the files are not modelled:
 * the caller supplies the lines and the parsed top-level statements.
 */
module Pipeline {
  import opened Blocks
  import opened Lines
  import opened Extraction
  import opened Partition
  import opened RandomShuffle
  import opened Reorder
  import opened Assembly

  /** Reordering the blocks of a tiled file writes out a rearrangement of its lines. */
  lemma ReorderedLinesArePermutation(lines: seq<string>, bs: seq<Block>, t: seq<Block>)
    requires Tiles(bs, 1, |lines|)
    requires IsShuffleOf(t, bs)
    ensures |Assemble(lines, Reordered(bs, t))| == |lines|
    ensures multiset(Assemble(lines, Reordered(bs, t))) == multiset(lines)
  {
    ReorderedIsPermutation(bs, t);
    AssemblePermutation(lines, Reordered(bs, t), bs);
    AssembleTilingFile(lines, bs);
    assert |multiset(Assemble(lines, Reordered(bs, t)))| == |multiset(lines)|;
  }

  /** A file with at most one top-level function is written back unchanged. */
  lemma FewFunctionsRewriteUnchanged(lines: seq<string>, bs: seq<Block>, t: seq<Block>)
    requires Tiles(bs, 1, |lines|)
    requires IsShuffleOf(t, bs)
    requires |FunctionBlocks(bs)| <= 1
    ensures Assemble(lines, Reordered(bs, t)) == lines
  {
    ReorderedFewFunctions(bs, t);
    AssembleTilingFile(lines, bs);
  }

  /** Reordering a function, a filler and a function with the functions swapped. */
  lemma ReorderedAroundFiller(f: Block, x: Block, g: Block)
    requires f.isFunction && !x.isFunction && g.isFunction
    ensures FunctionBlocks([f, x, g]) == [f, g]
    ensures Reordered([f, x, g], [g, f]) == [g, x, f]
  {
    AroundFillerSlots(f, x, g);
    AroundFillerScatter(f, x, g);
  }

  lemma AroundFillerSlots(f: Block, x: Block, g: Block)
    requires f.isFunction && !x.isFunction && g.isFunction
    ensures FunctionBlocks([f, x, g]) == [f, g]
    ensures FunctionIndices([f, x, g]) == [0, 2]
  {
    assert [f, x, g][..2] == [f, x] && [f, x][..1] == [f] && [f][..0] == [];
    assert FunctionBlocks([f]) == [f];
    assert FunctionIndices([f]) == [0];
  }

  lemma AroundFillerScatter(f: Block, x: Block, g: Block)
    ensures Scatter([f, x, g], [0, 2], [g, f]) == [g, x, f]
  {
    assert [0, 2][..1] == [0] && [0][..0] == [] && [g, f][..1] == [g] && [g][..0] == [];
    assert Scatter([f, x, g], [0], [g]) == [g, x, g];
  }

  /** Reordering two function blocks with the order swapped. */
  lemma ReorderedPair(f: Block, g: Block)
    requires f.isFunction && g.isFunction
    ensures FunctionBlocks([f, g]) == [f, g]
    ensures Reordered([f, g], [g, f]) == [g, f]
  {
    PairSlots(f, g);
    PairScatter(f, g);
  }

  lemma PairSlots(f: Block, g: Block)
    requires f.isFunction && g.isFunction
    ensures FunctionBlocks([f, g]) == [f, g]
    ensures FunctionIndices([f, g]) == [0, 1]
  {
    assert [f, g][..1] == [f] && [f][..0] == [];
    assert FunctionBlocks([f]) == [f];
    assert FunctionIndices([f]) == [0];
  }

  lemma PairScatter(f: Block, g: Block)
    ensures Scatter([f, g], [0, 1], [g, f]) == [g, f]
  {
    assert [0, 1][..1] == [0] && [0][..0] == [] && [g, f][..1] == [g] && [g][..0] == [];
    assert Scatter([f, g], [0], [g]) == [g, g];
  }

  /**
   * Filler lines keep their block index, not their line numbers: with a
   * two-line function, a filler line and a one-line function, swapping the
   * functions moves the filler line from line 3 to line 2.
   */
  lemma FillerLinesCanMove(lines: seq<string>)
    requires |lines| == 4
    ensures Tiles([Block(1, 2, true), Block(3, 3, false), Block(4, 4, true)], 1, 4)
    ensures IsShuffleOf([Block(4, 4, true), Block(1, 2, true)],
                        [Block(1, 2, true), Block(3, 3, false), Block(4, 4, true)])
    ensures Assemble(lines, Reordered([Block(1, 2, true), Block(3, 3, false), Block(4, 4, true)],
                                      [Block(4, 4, true), Block(1, 2, true)]))
            == [lines[3], lines[2], lines[0], lines[1]]
  {
    var f, g, x := Block(1, 2, true), Block(4, 4, true), Block(3, 3, false);
    ReorderedAroundFiller(f, x, g);
    SwappedAroundFillerLines(lines);
  }

  /** The output lines of the four-line file with its two functions swapped around the filler. */
  lemma SwappedAroundFillerLines(lines: seq<string>)
    requires |lines| == 4
    ensures Assemble(lines, [Block(4, 4, true), Block(3, 3, false), Block(1, 2, true)])
            == [lines[3], lines[2], lines[0], lines[1]]
  {
    var f, g, x := Block(1, 2, true), Block(4, 4, true), Block(3, 3, false);
    assert BlockLines(lines, g) == [lines[3]];
    assert BlockLines(lines, x) == [lines[2]];
    assert BlockLines(lines, f) == [lines[0], lines[1]];
    assert Assemble(lines, [g]) == [lines[3]] by { assert [g][..0] == []; }
    assert Assemble(lines, [g, x]) == [lines[3], lines[2]] by { assert [g, x][..1] == [g]; }
    assert [g, x, f][..2] == [g, x];
  }

  /**
   * As written, when the last line has no newline and its function block
   * moves off the end, ''.join glues it to the next block's first line: the
   * written file reads back as one line instead of two.
   */
  lemma UnterminatedLastLineMerges(l1: string, l2: string)
    requires Terminated(l1)
    requires IsLine(l2) && l2[|l2| - 1] != '\n'
    ensures IsReadLines([l1, l2])
    ensures Tiles([Block(1, 1, true), Block(2, 2, true)], 1, 2)
    ensures IsShuffleOf([Block(2, 2, true), Block(1, 1, true)], [Block(1, 1, true), Block(2, 2, true)])
    ensures ReadLines(Join(Assemble([l1, l2], Reordered([Block(1, 1, true), Block(2, 2, true)],
                                                        [Block(2, 2, true), Block(1, 1, true)]))))
            == [l2 + l1]
  {
    PairReadLines(l1, l2);
    PairTilesAndShuffle();
    ReorderedPair(Block(1, 1, true), Block(2, 2, true));
    SwappedPairText(l1, l2);
    GluedLines(l1, l2);
  }

  lemma PairReadLines(l1: string, l2: string)
    requires Terminated(l1) && IsLine(l2)
    ensures IsReadLines([l1, l2])
  {
  }

  lemma PairTilesAndShuffle()
    ensures Tiles([Block(1, 1, true), Block(2, 2, true)], 1, 2)
    ensures IsShuffleOf([Block(2, 2, true), Block(1, 1, true)], [Block(1, 1, true), Block(2, 2, true)])
  {
    PairSlots(Block(1, 1, true), Block(2, 2, true));
  }

  /** The text written for a two-line file with its two one-line blocks swapped. */
  lemma SwappedPairText(l1: string, l2: string)
    ensures Join(Assemble([l1, l2], [Block(2, 2, true), Block(1, 1, true)])) == l2 + l1
  {
    SwappedPairLines(l1, l2);
    JoinPair(l2, l1);
  }

  lemma SwappedPairLines(l1: string, l2: string)
    ensures Assemble([l1, l2], [Block(2, 2, true), Block(1, 1, true)]) == [l2, l1]
  {
    var f, g := Block(1, 1, true), Block(2, 2, true);
    assert [g, f][..1] == [g] && [g][..0] == [];
    assert BlockLines([l1, l2], g) == [l2];
    assert BlockLines([l1, l2], f) == [l1];
    assert Assemble([l1, l2], [g]) == [l2];
  }

  lemma JoinPair(a: string, b: string)
    ensures Join([a, b]) == a + b
  {
    assert [a, b][..1] == [a] && [a][..0] == [];
    assert Join([a]) == a;
  }

  /** A line without a newline followed by a terminated line reads back as a single line. */
  lemma GluedLines(l1: string, l2: string)
    requires Terminated(l1)
    requires IsLine(l2) && l2[|l2| - 1] != '\n'
    ensures ReadLines(l2 + l1) == [l2 + l1]
  {
    var s := l2 + l1;
    forall i | 0 <= i < |s| - 1 ensures s[i] != '\n' {
      if i >= |l2| { assert s[i] == l1[i - |l2|]; }
    }
    ReadLinesOfLine(s);
  }

  /**
   * Writing the reordered blocks of a file whose every line is terminated
   * gives a text that reads back as exactly the reordered lines: a
   * rearrangement of the (terminated) input lines, as many as there were.
   */
  lemma TerminatedOutputReadsBack(lines: seq<string>, bs: seq<Block>, t: seq<Block>)
    requires IsReadLines(lines)
    requires Tiles(bs, 1, |lines|)
    requires IsShuffleOf(t, bs)
    ensures ReadLines(Join(Assemble(TerminateLines(lines), Reordered(bs, t))))
            == Assemble(TerminateLines(lines), Reordered(bs, t))
    ensures |Assemble(TerminateLines(lines), Reordered(bs, t))| == |lines|
    ensures multiset(Assemble(TerminateLines(lines), Reordered(bs, t))) == multiset(TerminateLines(lines))
  {
    var fileLines := TerminateLines(lines);
    var out := Assemble(fileLines, Reordered(bs, t));
    ReorderedLinesArePermutation(fileLines, bs, t);
    TerminateLinesSpec(lines);
    AssembleElements(fileLines, Reordered(bs, t));
    AllTerminatedAreReadLines(out);
    ReadLinesJoin(out);
  }

  /** Two rearrangements that end with the same element agree on what comes before it. */
  lemma SameLastSamePrefix(a: seq<Block>, b: seq<Block>, x: Block)
    requires multiset(a + [x]) == multiset(b + [x])
    ensures forall y :: y in a ==> y in b
  {
    assert multiset(a) == multiset(a + [x]) - multiset{x};
    assert multiset(b) == multiset(b + [x]) - multiset{x};
    forall y | y in a ensures y in b {
      assert y in multiset(a);
    }
  }

  /** Blocks of a tiling other than its last lie, non-empty, before the last one starts. */
  lemma BeforeLastBlock(bs: seq<Block>, first: int, last: int, front: seq<Block>)
    requires Tiles(bs, first, last) && bs != []
    requires forall y :: y in front ==> y in bs[..|bs| - 1]
    ensures forall y :: y in front ==> first <= y.start <= y.end < bs[|bs| - 1].start
  {
    forall y | y in front ensures first <= y.start <= y.end < bs[|bs| - 1].start {
      var j :| 0 <= j < |bs| - 1 && bs[j] == y;
      TilesBounds(bs, first, last, j);
      TilesOrdered(bs, first, last, j, |bs| - 1);
    }
  }

  /** Blocks ending before the last line of a readlines() result output only terminated lines. */
  lemma EarlyLinesTerminated(lines: seq<string>, front: seq<Block>, m: nat)
    requires IsReadLines(lines) && m < |lines|
    requires forall y :: y in front ==> 1 <= y.start <= y.end <= m
    ensures forall y :: y in Assemble(lines, front) ==> Terminated(y)
  {
    AssembleWithin(lines, front, m);
    forall y | y in Assemble(lines, front) ensures Terminated(y) {
      var k :| 0 <= k < m && lines[..m][k] == y;
    }
  }

  /** A suffix of a readlines() result has the readlines() shape. */
  lemma ReadLinesSuffix(lines: seq<string>, m: nat)
    requires IsReadLines(lines) && m <= |lines|
    ensures IsReadLines(lines[m..])
  {
    forall i | 0 <= i < |lines| - m ensures lines[m..][i] == lines[m + i] { }
  }

  /** With the block holding the last line written last, the output lines have the readlines() shape. */
  lemma KeptLastShape(lines: seq<string>, bs: seq<Block>, front: seq<Block>)
    requires IsReadLines(lines)
    requires Tiles(bs, 1, |lines|) && bs != []
    requires multiset(front + [bs[|bs| - 1]]) == multiset(bs)
    ensures IsReadLines(Assemble(lines, front + [bs[|bs| - 1]]))
  {
    var x := bs[|bs| - 1];
    assert 1 <= x.start <= x.end == |lines| by {
      TilesBounds(bs, 1, |lines|, |bs| - 1);
    }
    var m := x.start - 1;
    assert forall y :: y in front ==> 1 <= y.start <= y.end <= m by {
      assert bs == bs[..|bs| - 1] + [x];
      SameLastSamePrefix(front, bs[..|bs| - 1], x);
      BeforeLastBlock(bs, 1, |lines|, front);
    }
    assert forall y :: y in Assemble(lines, front) ==> Terminated(y) by {
      EarlyLinesTerminated(lines, front, m);
    }
    assert IsReadLines(lines[m..]) by {
      ReadLinesSuffix(lines, m);
    }
    assert Assemble(lines, front + [x]) == Assemble(lines, front) + lines[m..] by {
      assert (front + [x])[..|front|] == front;
      assert BlockLines(lines, x) == lines[m..];
    }
    TerminatedBeforeReadLines(Assemble(lines, front), lines[m..]);
  }

  /**
   * When the block holding the last line is still written last, the written
   * text reads back as exactly the rearranged lines, whether or not that last
   * line ends with a newline: every earlier line comes from before it.
   */
  lemma KeptLastReadsBack(lines: seq<string>, bs: seq<Block>, r: seq<Block>)
    requires IsReadLines(lines)
    requires Tiles(bs, 1, |lines|)
    requires multiset(r) == multiset(bs)
    requires r != [] && bs != [] && r[|r| - 1] == bs[|bs| - 1]
    ensures ReadLines(Join(Assemble(lines, r))) == Assemble(lines, r)
  {
    assert r == r[..|r| - 1] + [bs[|bs| - 1]];
    KeptLastShape(lines, bs, r[..|r| - 1]);
    ReadLinesJoin(Assemble(lines, r));
  }

  /** The reordered block list `r` still ends with the block that holds the file's last line. */
  predicate KeepsLastBlock(bs: seq<Block>, r: seq<Block>)
  {
    bs == [] || (r != [] && r[|r| - 1] == bs[|bs| - 1])
  }

  /**
   * The lines the corrected run slices: the file's own lines while the block
   * holding the last line is written last, else the lines with a newline
   * added to the last one, so that ''.join cannot glue it to the next line.
   */
  function CorrectedLines(lines: seq<string>, bs: seq<Block>, r: seq<Block>): seq<string>
  {
    if KeepsLastBlock(bs, r) then lines else TerminateLines(lines)
  }

  /**
   * The corrected run reads back as a rearrangement of the lines, with the
   * newline added only when the last line's block moved off the end; with at
   * most one function block it writes the input text itself.
   */
  lemma CorrectedRun(lines: seq<string>, bs: seq<Block>, t: seq<Block>, r: seq<Block>, written: string)
    requires IsReadLines(lines)
    requires Tiles(bs, 1, |lines|)
    requires IsShuffleOf(t, bs) && r == Reordered(bs, t)
    requires written == Join(Assemble(CorrectedLines(lines, bs, r), r))
    ensures |ReadLines(written)| == |lines|
    ensures KeepsLastBlock(bs, r) ==> multiset(ReadLines(written)) == multiset(lines)
    ensures !KeepsLastBlock(bs, r) ==> multiset(ReadLines(written)) == multiset(TerminateLines(lines))
    ensures |FunctionBlocks(bs)| <= 1 ==> written == Join(lines)
  {
    if KeepsLastBlock(bs, r) {
      ReorderedLinesArePermutation(lines, bs, t);
      if bs != [] {
        ReorderedIsPermutation(bs, t);
        KeptLastReadsBack(lines, bs, r);
      }
    } else {
      TerminatedOutputReadsBack(lines, bs, t);
    }
    if |FunctionBlocks(bs)| <= 1 {
      ReorderedFewFunctions(bs, t);
      AssembleTilingFile(lines, bs);
    }
  }

  /**
   * The driver's first two steps: the top-level function ranges of `body`, and
   * the code blocks they cut lines 1 to `lastLine` into.
   */
  method CodeBlocksOfFile(body: seq<Stmt>, lastLine: nat) returns (codeBlocks: seq<Block>)
    requires WellFormedBody(body, 1, lastLine)
    ensures Tiles(codeBlocks, 1, lastLine)
    ensures FunctionBlocks(codeBlocks) == RangeBlocks(FunctionRanges(body))
  {
    var functionRanges := GetFunctionRangesAtLevel(body);
    FunctionRangesSorted(body, 1, lastLine);
    codeBlocks := GetCodeBlocks(functionRanges, 1, lastLine);
  }

  /**
   * The driver's third step: the list of code blocks, reordered in place by
   * reorder_functions_relatively, ends up as the blocks with their function
   * blocks put in a shuffled order and every filler left where it was.
   */
  method ReorderCodeBlocks(codeBlocks: seq<Block>, randBelow: nat -> nat) returns (order: seq<Block>)
    requires IsRandBelow(randBelow)
    ensures exists t :: IsShuffleOf(t, codeBlocks) && order == Reordered(codeBlocks, t)
  {
    var blocks := new Block[|codeBlocks|](k requires 0 <= k < |codeBlocks| => codeBlocks[k]);
    assert blocks[..] == codeBlocks;
    ReorderFunctionsRelatively(blocks, randBelow);
    order := blocks[..];
  }

  /**
   * One run of the tool on a file read as `lines` and parsed as `body`. The
   * newline missing from the last line is added only when that line's block
   * is no longer written last, where ''.join would glue it to the next line.
   * The written text reads back as a rearrangement of the lines (with that
   * newline added, if it was); with at most one top-level function it is the
   * input text itself. The last ensures names the code blocks and the shuffle
   * the written text comes from, so that CorrectedRun applies to it.
   */
  method ReorderFile(lines: seq<string>, body: seq<Stmt>, randBelow: nat -> nat) returns (written: string)
    requires IsReadLines(lines)
    requires WellFormedBody(body, 1, |lines|)
    requires IsRandBelow(randBelow)
    ensures |ReadLines(written)| == |lines|
    ensures multiset(ReadLines(written)) == multiset(lines) ||
            multiset(ReadLines(written)) == multiset(TerminateLines(lines))
    ensures |FunctionRanges(body)| <= 1 ==> written == Join(lines)
    ensures exists cb: seq<Block>, t: seq<Block> ::
              Tiles(cb, 1, |lines|) && FunctionBlocks(cb) == RangeBlocks(FunctionRanges(body)) &&
              IsShuffleOf(t, cb) &&
              written == Join(Assemble(CorrectedLines(lines, cb, Reordered(cb, t)), Reordered(cb, t)))
  {
    var codeBlocks := CodeBlocksOfFile(body, |lines|);
    assert |FunctionBlocks(codeBlocks)| == |FunctionRanges(body)|;
    var order := ReorderCodeBlocks(codeBlocks, randBelow);
    ghost var t :| IsShuffleOf(t, codeBlocks) && order == Reordered(codeBlocks, t);
    var fileLines := CorrectedLines(lines, codeBlocks, order);
    written := WriteReorderedFile(fileLines, order);
    assert |ReadLines(written)| == |lines| &&
           (multiset(ReadLines(written)) == multiset(lines) ||
            multiset(ReadLines(written)) == multiset(TerminateLines(lines))) &&
           (|FunctionBlocks(codeBlocks)| <= 1 ==> written == Join(lines)) by {
      CorrectedRun(lines, codeBlocks, t, order, written);
    }
  }
}
