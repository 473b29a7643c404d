/**
 * Relative reordering: the function blocks are collected with their slot
 * indices, shuffled among themselves, and written back into the same slots;
 * filler blocks never move.
 */
module Reorder {
  import opened Blocks
  import opened RandomShuffle

  /**
   * `bs` after the assignments bs[idx[0]] := t[0], ..., bs[idx[n-1]] := t[n-1],
   * performed in that order.
   */
  function Scatter(bs: seq<Block>, idx: seq<nat>, t: seq<Block>): (r: seq<Block>)
    requires |idx| == |t|
    requires forall k :: 0 <= k < |idx| ==> idx[k] < |bs|
    ensures |r| == |bs|
  {
    if idx == [] then bs
    else Scatter(bs, idx[..|idx| - 1], t[..|t| - 1])[idx[|idx| - 1] := t[|t| - 1]]
  }

  /** With strictly increasing slots, slot idx[k] ends up holding t[k] and every other position is untouched. */
  lemma {:induction false} ScatterAt(bs: seq<Block>, idx: seq<nat>, t: seq<Block>)
    requires |idx| == |t|
    requires forall k :: 0 <= k < |idx| ==> idx[k] < |bs|
    requires forall k, m :: 0 <= k < m < |idx| ==> idx[k] < idx[m]
    ensures forall k :: 0 <= k < |idx| ==> Scatter(bs, idx, t)[idx[k]] == t[k]
    ensures forall j :: 0 <= j < |bs| && j !in idx ==> Scatter(bs, idx, t)[j] == bs[j]
  {
    if idx != [] {
      var n := |idx| - 1;
      ScatterAt(bs, idx[..n], t[..n]);
      assert forall j :: j in idx[..n] ==> j in idx;
    }
  }

  /**
   * The block list after reorder_functions_relatively, when the shuffle put the
   * function blocks in the order `t`: the i-th function slot holds t[i].
   */
  function Reordered(bs: seq<Block>, t: seq<Block>): (r: seq<Block>)
    requires |t| == |FunctionBlocks(bs)|
  {
    FunctionIndicesSpec(bs);
    Scatter(bs, FunctionIndices(bs), t)
  }

  /**
   * Reordering keeps the length, keeps every filler at its index, and keeps the
   * function slots where they were.
   */
  lemma ReorderedSlots(bs: seq<Block>, t: seq<Block>)
    requires IsShuffleOf(t, bs)
    ensures |Reordered(bs, t)| == |bs|
    ensures forall i :: 0 <= i < |bs| ==> Reordered(bs, t)[i].isFunction == bs[i].isFunction
    ensures forall i :: 0 <= i < |bs| && !bs[i].isFunction ==> Reordered(bs, t)[i] == bs[i]
  {
    var idx := FunctionIndices(bs);
    FunctionIndicesSpec(bs);
    FunctionBlocksAreFunctions(bs);
    ScatterAt(bs, idx, t);
    var r := Reordered(bs, t);
    forall i | 0 <= i < |bs|
      ensures r[i].isFunction == bs[i].isFunction
      ensures !bs[i].isFunction ==> r[i] == bs[i]
    {
      if i in idx {
        var k :| 0 <= k < |idx| && idx[k] == i;
        assert t[k] in multiset(t);
        assert t[k] in FunctionBlocks(bs);
      }
    }
  }

  /** The function blocks of the reordered list are exactly `t`, in order. */
  lemma ReorderedFunctionBlocks(bs: seq<Block>, t: seq<Block>)
    requires IsShuffleOf(t, bs)
    ensures FunctionBlocks(Reordered(bs, t)) == t
  {
    var r := Reordered(bs, t);
    ReorderedSlots(bs, t);
    SameFlagsSameIndices(bs, r);
    FunctionIndicesSpec(bs);
    FunctionIndicesSpec(r);
    ScatterAt(bs, FunctionIndices(bs), t);
    assert |FunctionBlocks(r)| == |t|;
    forall k | 0 <= k < |t| ensures FunctionBlocks(r)[k] == t[k] {
      assert FunctionBlocks(r)[k] == r[FunctionIndices(r)[k]];
    }
  }

  /** The filler blocks of the reordered list are those of the original, in order. */
  lemma ReorderedFillerBlocks(bs: seq<Block>, t: seq<Block>)
    requires IsShuffleOf(t, bs)
    ensures FillerBlocks(Reordered(bs, t)) == FillerBlocks(bs)
  {
    ReorderedSlots(bs, t);
    SameFillers(bs, Reordered(bs, t));
  }

  /** Reordering permutes the block list. */
  lemma ReorderedIsPermutation(bs: seq<Block>, t: seq<Block>)
    requires IsShuffleOf(t, bs)
    ensures multiset(Reordered(bs, t)) == multiset(bs)
  {
    var r := Reordered(bs, t);
    ReorderedFunctionBlocks(bs, t);
    ReorderedFillerBlocks(bs, t);
    FunctionAndFillerSplit(bs);
    FunctionAndFillerSplit(r);
  }

  /** Putting the function blocks back in their own order changes nothing. */
  lemma ReorderedIdentity(bs: seq<Block>)
    ensures Reordered(bs, FunctionBlocks(bs)) == bs
  {
    var r := Reordered(bs, FunctionBlocks(bs));
    ReorderedSlots(bs, FunctionBlocks(bs));
    FunctionIndicesSpec(bs);
    ScatterAt(bs, FunctionIndices(bs), FunctionBlocks(bs));
    forall i | 0 <= i < |bs| ensures r[i] == bs[i] {
      if bs[i].isFunction {
        var k :| 0 <= k < |FunctionIndices(bs)| && FunctionIndices(bs)[k] == i;
      }
    }
  }

  /** With zero or one function block, every shuffle leaves the list as it was. */
  lemma ReorderedFewFunctions(bs: seq<Block>, t: seq<Block>)
    requires IsShuffleOf(t, bs)
    requires |FunctionBlocks(bs)| <= 1
    ensures Reordered(bs, t) == bs
  {
    var fs := FunctionBlocks(bs);
    if |t| == 1 {
      assert t[0] in multiset(fs);
      assert t == fs;
    } else {
      assert t == fs;
    }
    ReorderedIdentity(bs);
  }

  /** Everything the in-place reorder promises, stated of the reordered list. */
  lemma ReorderedSummary(bs: seq<Block>, t: seq<Block>)
    requires IsShuffleOf(t, bs)
    ensures |Reordered(bs, t)| == |bs|
    ensures forall i :: 0 <= i < |bs| ==> Reordered(bs, t)[i].isFunction == bs[i].isFunction
    ensures forall i :: 0 <= i < |bs| && !bs[i].isFunction ==> Reordered(bs, t)[i] == bs[i]
    ensures multiset(FunctionBlocks(Reordered(bs, t))) == multiset(FunctionBlocks(bs))
    ensures multiset(Reordered(bs, t)) == multiset(bs)
    ensures |FunctionBlocks(bs)| <= 1 ==> Reordered(bs, t) == bs
  {
    ReorderedSlots(bs, t);
    ReorderedFunctionBlocks(bs, t);
    ReorderedIsPermutation(bs, t);
    if |FunctionBlocks(bs)| <= 1 {
      ReorderedFewFunctions(bs, t);
    }
  }

  /**
   * The first loop of reorder_functions_relatively: the indices of the
   * function blocks and the blocks themselves, both in list order.
   */
  method FunctionSlots(blocks: array<Block>) returns (functionsIndices: seq<nat>, blocksToShuffle: seq<Block>)
    ensures functionsIndices == FunctionIndices(blocks[..])
    ensures blocksToShuffle == FunctionBlocks(blocks[..])
    ensures |functionsIndices| == |blocksToShuffle|
    ensures forall k :: 0 <= k < |functionsIndices| ==> functionsIndices[k] < blocks.Length
  {
    functionsIndices, blocksToShuffle := [], [];
    for i := 0 to blocks.Length
      invariant functionsIndices == FunctionIndices(blocks[..i])
      invariant blocksToShuffle == FunctionBlocks(blocks[..i])
    {
      assert blocks[..i + 1][..i] == blocks[..i];
      if blocks[i].isFunction {
        functionsIndices := functionsIndices + [i];
        blocksToShuffle := blocksToShuffle + [blocks[i]];
      }
    }
    assert blocks[..blocks.Length] == blocks[..];
    FunctionIndicesSpec(blocks[..]);
  }

  /**
   * Writing a permutation of the collected function blocks back into the
   * collected slots is a relative reorder, with all that this entails.
   */
  lemma WriteBackIsReorder(bs: seq<Block>, collected: seq<Block>, order: seq<Block>, after: seq<Block>)
    requires collected == FunctionBlocks(bs)
    requires |order| == |collected| && multiset(order) == multiset(collected)
    requires after == Reordered(bs, order)
    ensures IsShuffleOf(order, bs)
    ensures |after| == |bs|
    ensures forall i :: 0 <= i < |bs| ==> after[i].isFunction == bs[i].isFunction
    ensures forall i :: 0 <= i < |bs| && !bs[i].isFunction ==> after[i] == bs[i]
    ensures multiset(FunctionBlocks(after)) == multiset(FunctionBlocks(bs))
    ensures multiset(after) == multiset(bs)
    ensures |FunctionBlocks(bs)| <= 1 ==> after == bs
  {
    ReorderedSummary(bs, order);
  }

  /**
   * The second loop of reorder_functions_relatively: blocks[idx] is assigned
   * the i-th shuffled block for the i-th collected slot idx.
   */
  method AssignSlots(blocks: array<Block>, functionsIndices: seq<nat>, shuffled: array<Block>)
    requires shuffled != blocks
    requires |functionsIndices| == shuffled.Length
    requires forall k :: 0 <= k < |functionsIndices| ==> functionsIndices[k] < blocks.Length
    modifies blocks
    ensures blocks[..] == Scatter(old(blocks[..]), functionsIndices, shuffled[..])
  {
    ghost var original := blocks[..];
    for i := 0 to |functionsIndices|
      invariant blocks[..] == Scatter(original, functionsIndices[..i], shuffled[..i])
    {
      assert functionsIndices[..i + 1][..i] == functionsIndices[..i];
      assert shuffled[..i + 1][..i] == shuffled[..i];
      blocks[functionsIndices[i]] := shuffled[i];
    }
    assert functionsIndices[..|functionsIndices|] == functionsIndices;
    assert shuffled[..|functionsIndices|] == shuffled[..];
  }

  /**
   * reorder_functions_relatively(blocks): gathers the function slots and their
   * blocks, shuffles the blocks, and assigns them back slot by slot, in place.
   */
  method ReorderFunctionsRelatively(blocks: array<Block>, randBelow: nat -> nat)
    requires IsRandBelow(randBelow)
    modifies blocks
    ensures exists t :: IsShuffleOf(t, old(blocks[..])) && blocks[..] == Reordered(old(blocks[..]), t)
    ensures forall i :: 0 <= i < blocks.Length ==> blocks[i].isFunction == old(blocks[i]).isFunction
    ensures forall i :: 0 <= i < blocks.Length && !old(blocks[i]).isFunction ==> blocks[i] == old(blocks[i])
    ensures multiset(FunctionBlocks(blocks[..])) == multiset(FunctionBlocks(old(blocks[..])))
    ensures multiset(blocks[..]) == multiset(old(blocks[..]))
    ensures |FunctionBlocks(old(blocks[..]))| <= 1 ==> blocks[..] == old(blocks[..])
  {
    ghost var original := blocks[..];
    var functionsIndices, blocksToShuffle := FunctionSlots(blocks);

    var shuffled := new Block[|blocksToShuffle|](k requires 0 <= k < |blocksToShuffle| => blocksToShuffle[k]);
    assert shuffled[..] == blocksToShuffle;
    Shuffle(shuffled, randBelow);
    ghost var order := shuffled[..];
    AssignSlots(blocks, functionsIndices, shuffled);
    ghost var after := blocks[..];
    assert after == Reordered(original, order);
    WriteBackIsReorder(original, blocksToShuffle, order, after);
  }
}
