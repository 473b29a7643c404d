/**
 * Reassembly: the output file is the concatenation, in block order, of the
 * slices lines[start - 1 : end] of the original lines.
 */
module Assembly {
  import opened Blocks
  import opened Lines

  /** A slice bound as the language normalises it: negative counts from the end, then clamped to 0..n. */
  function SliceBound(i: int, n: nat): (r: nat)
    ensures r <= n
    ensures 0 <= i <= n ==> r == i
  {
    if i < 0 then (if i + n < 0 then 0 else i + n)
    else if i > n then n
    else i
  }

  /** The list slice s[i:j]; empty when the normalised bounds cross. */
  function PySlice<T>(s: seq<T>, i: int, j: int): (r: seq<T>)
    ensures |r| <= |s|
    ensures forall x :: x in r ==> x in s
  {
    var lo := SliceBound(i, |s|);
    var hi := SliceBound(j, |s|);
    if lo < hi then s[lo..hi] else []
  }

  /** The lines of block `b`: current_file_lines[start - 1 : end]. */
  function BlockLines(lines: seq<string>, b: Block): (r: seq<string>)
    ensures 1 <= b.start <= b.end + 1 && b.end <= |lines| ==> r == lines[b.start - 1..b.end]
    ensures forall x :: x in r ==> x in lines
  {
    PySlice(lines, b.start - 1, b.end)
  }

  /** The lines of the blocks of `bs`, concatenated in block order. */
  function Assemble(lines: seq<string>, bs: seq<Block>): seq<string>
  {
    if bs == [] then []
    else Assemble(lines, bs[..|bs| - 1]) + BlockLines(lines, bs[|bs| - 1])
  }

  lemma {:induction false} AssembleAppend(lines: seq<string>, a: seq<Block>, b: seq<Block>)
    ensures Assemble(lines, a + b) == Assemble(lines, a) + Assemble(lines, b)
  {
    if b == [] {
      assert a + b == a;
    } else {
      assert (a + b)[..|a + b| - 1] == a + b[..|b| - 1];
      AssembleAppend(lines, a, b[..|b| - 1]);
    }
  }

  /** Only original lines appear in the output. */
  lemma {:induction false} AssembleElements(lines: seq<string>, bs: seq<Block>)
    ensures forall x :: x in Assemble(lines, bs) ==> x in lines
  {
    if bs != [] {
      AssembleElements(lines, bs[..|bs| - 1]);
    }
  }

  /** Non-empty blocks that lie within the first `m` lines output only lines from among them. */
  lemma {:induction false} AssembleWithin(lines: seq<string>, bs: seq<Block>, m: nat)
    requires m <= |lines|
    requires forall b :: b in bs ==> 1 <= b.start <= b.end <= m
    ensures forall x :: x in Assemble(lines, bs) ==> x in lines[..m]
  {
    if bs != [] {
      var n := |bs| - 1;
      assert forall b :: b in bs[..n] ==> b in bs;
      AssembleWithin(lines, bs[..n], m);
      var b := bs[n];
      assert b in bs;
      var slice := lines[b.start - 1..b.end];
      assert BlockLines(lines, b) == slice;
      forall x | x in slice ensures x in lines[..m] {
        var k :| 0 <= k < |slice| && slice[k] == x;
        assert lines[..m][b.start - 1 + k] == x;
      }
    }
  }

  /** Blocks tiling first..last inside the file reproduce exactly those lines. */
  lemma {:induction false} AssembleTiling(lines: seq<string>, bs: seq<Block>, first: int, last: int)
    requires Tiles(bs, first, last)
    requires 1 <= first <= last + 1 && last <= |lines|
    ensures Assemble(lines, bs) == lines[first - 1..last]
    decreases |bs|
  {
    if bs != [] {
      var n := |bs| - 1;
      TilesDropLast(bs, first, last);
      TilesBounds(bs, first, last, n);
      AssembleTiling(lines, bs[..n], first, bs[n].start - 1);
      assert BlockLines(lines, bs[n]) == lines[bs[n].start - 1..last];
      assert lines[first - 1..bs[n].start - 1] + lines[bs[n].start - 1..last] == lines[first - 1..last];
    }
  }

  /** In particular, blocks tiling the whole file, in order, reproduce the file. */
  lemma AssembleTilingFile(lines: seq<string>, bs: seq<Block>)
    requires Tiles(bs, 1, |lines|)
    ensures Assemble(lines, bs) == lines
  {
    AssembleTiling(lines, bs, 1, |lines|);
  }

  /** Assembling a rearrangement of the blocks yields a rearrangement of the lines. */
  lemma {:induction false} AssemblePermutation(lines: seq<string>, a: seq<Block>, b: seq<Block>)
    requires multiset(a) == multiset(b)
    ensures multiset(Assemble(lines, a)) == multiset(Assemble(lines, b))
    decreases |a|
  {
    if a == [] {
      assert |b| == |multiset(b)| == 0;
    } else {
      var n := |a| - 1;
      var x := a[n];
      assert a == a[..n] + [x];
      assert x in multiset(b);
      var k :| 0 <= k < |b| && b[k] == x;
      var rest := b[..k] + b[k + 1..];
      assert b == b[..k] + [x] + b[k + 1..];
      assert multiset(b) == multiset(b[..k]) + multiset{x} + multiset(b[k + 1..]);
      assert multiset(a) == multiset(a[..n]) + multiset{x};
      assert multiset(rest) == multiset(b[..k]) + multiset(b[k + 1..]);
      assert multiset(rest) == multiset(b) - multiset{x};
      assert multiset(a[..n]) == multiset(a) - multiset{x};
      AssemblePermutation(lines, a[..n], rest);
      AssembleAppend(lines, b[..k] + [x], b[k + 1..]);
      AssembleAppend(lines, b[..k], [x]);
      AssembleAppend(lines, b[..k], b[k + 1..]);
      assert Assemble(lines, [x]) == BlockLines(lines, x) by {
        assert [x][..0] == [];
      }
    }
  }

  /**
   * The slicing and writing of write_reordered_file: the text written is the
   * join of the assembled lines; blocks that tile the file in order rewrite
   * it unchanged.
   */
  method WriteReorderedFile(currentFileLines: seq<string>, blocks: seq<Block>) returns (written: string)
    ensures written == Join(Assemble(currentFileLines, blocks))
    ensures Tiles(blocks, 1, |currentFileLines|) ==> written == Join(currentFileLines)
  {
    var newFileCodeBlocks: seq<seq<string>> := [];
    for i := 0 to |blocks|
      invariant |newFileCodeBlocks| == i
      invariant forall k :: 0 <= k < i ==> newFileCodeBlocks[k] == BlockLines(currentFileLines, blocks[k])
    {
      var b := blocks[i];
      newFileCodeBlocks := newFileCodeBlocks + [PySlice(currentFileLines, b.start - 1, b.end)];
    }

    written := "";
    for j := 0 to |newFileCodeBlocks|
      invariant written == Join(Assemble(currentFileLines, blocks[..j]))
    {
      assert blocks[..j + 1][..j] == blocks[..j];
      JoinAppend(Assemble(currentFileLines, blocks[..j]), newFileCodeBlocks[j]);
      written := written + Join(newFileCodeBlocks[j]);
    }
    assert blocks[..|blocks|] == blocks;
    if Tiles(blocks, 1, |currentFileLines|) {
      AssembleTilingFile(currentFileLines, blocks);
    }
  }
}
