/**
 * Range extraction: the function definitions among a module's top-level
 * statements, each mapped to its line span (lineno, end_lineno).
 *
 * The parser is not modelled. A statement is what it offers: whether the
 * node is a (plain, non-async) function definition, and its line span.
 */
module Extraction {
  import opened Blocks

  /** A top-level statement of `parent.body`. */
  datatype Stmt = FunctionDef(lineno: int, endLineno: int) | Other(lineno: int, endLineno: int)

  /** The ranges of the function definitions in `body`, in source order. */
  function FunctionRanges(body: seq<Stmt>): seq<Range>
  {
    if body == [] then []
    else
      var node := body[|body| - 1];
      FunctionRanges(body[..|body| - 1]) + (if node.FunctionDef? then [Range(node.lineno, node.endLineno)] else [])
  }

  /**
   * What a parser guarantees of a module's top-level statements for a file
   * of lines first..last: each spans at least one line inside the file, and
   * none begins before the previous one ends. Simple statements may share a
   * line (`x = 1; y = 2`), but a function definition is a compound
   * statement and shares its lines with no neighbour.
   */
  predicate WellFormedBody(body: seq<Stmt>, first: int, last: int)
  {
    (forall i :: 0 <= i < |body| ==> first <= body[i].lineno <= body[i].endLineno <= last) &&
    (forall i :: 0 < i < |body| ==> body[i - 1].endLineno <= body[i].lineno) &&
    (forall i :: 0 < i < |body| && (body[i - 1].FunctionDef? || body[i].FunctionDef?) ==>
       body[i - 1].endLineno < body[i].lineno)
  }

  /** The loop of get_function_ranges_at_level over `parent.body`. */
  method GetFunctionRangesAtLevel(body: seq<Stmt>) returns (functionRanges: seq<Range>)
    ensures functionRanges == FunctionRanges(body)
    ensures |functionRanges| <= |body|
  {
    functionRanges := [];
    for i := 0 to |body|
      invariant functionRanges == FunctionRanges(body[..i])
      invariant |functionRanges| <= i
    {
      var node := body[i];
      if node.FunctionDef? {
        functionRanges := functionRanges + [Range(node.lineno, node.endLineno)];
      }
      assert body[..i + 1][..i] == body[..i];
    }
    assert body[..|body|] == body;
  }

  /** Extraction distributes over concatenation: ranges keep the statements' order. */
  lemma {:induction false} FunctionRangesAppend(a: seq<Stmt>, b: seq<Stmt>)
    ensures FunctionRanges(a + b) == FunctionRanges(a) + FunctionRanges(b)
  {
    if b == [] {
      assert a + b == a;
    } else {
      assert (a + b)[..|a + b| - 1] == a + b[..|b| - 1];
      FunctionRangesAppend(a, b[..|b| - 1]);
    }
  }

  /** A single statement contributes its span iff it is a function definition. */
  lemma FunctionRangesSingle(node: Stmt)
    ensures FunctionRanges([node]) == if node.FunctionDef? then [Range(node.lineno, node.endLineno)] else []
  {
    assert [node][..0] == [];
  }

  /** A range is extracted iff a function definition with exactly that span is in the body. */
  lemma {:induction false} FunctionRangesMembership(body: seq<Stmt>, r: Range)
    ensures r in FunctionRanges(body) <==> FunctionDef(r.start, r.end) in body
  {
    if body != [] {
      var n := |body| - 1;
      FunctionRangesMembership(body[..n], r);
      assert body == body[..n] + [body[n]];
    }
  }

  /** Bodies of non-function statements contribute nothing. */
  lemma {:induction false} FunctionRangesOfOthers(body: seq<Stmt>)
    requires forall i :: 0 <= i < |body| ==> body[i].Other?
    ensures FunctionRanges(body) == []
  {
    if body != [] {
      FunctionRangesOfOthers(body[..|body| - 1]);
    }
  }

  /** A body made only of function definitions gives one range per definition, in order. */
  lemma {:induction false} FunctionRangesOfFunctions(body: seq<Stmt>)
    requires forall i :: 0 <= i < |body| ==> body[i].FunctionDef?
    ensures |FunctionRanges(body)| == |body|
    ensures forall i :: 0 <= i < |body| ==> FunctionRanges(body)[i] == Range(body[i].lineno, body[i].endLineno)
  {
    if body != [] {
      FunctionRangesOfFunctions(body[..|body| - 1]);
    }
  }

  lemma {:induction false} WellFormedOrdered(body: seq<Stmt>, first: int, last: int, i: int, j: int)
    requires WellFormedBody(body, first, last)
    requires 0 <= i < j < |body|
    ensures body[i].endLineno <= body[j].lineno
    ensures body[i].FunctionDef? || body[j].FunctionDef? ==> body[i].endLineno < body[j].lineno
    decreases j - i
  {
    if i + 1 < j {
      WellFormedOrdered(body, first, last, i + 1, j);
    }
  }

  /** Every extracted range lies inside the span of the statements it was read from. */
  lemma {:induction false} FunctionRangesWithin(body: seq<Stmt>, first: int, last: int)
    requires WellFormedBody(body, first, last)
    ensures forall r :: r in FunctionRanges(body) ==> first <= r.start <= r.end <= last
    ensures body != [] ==> forall r :: r in FunctionRanges(body) ==> r.end <= body[|body| - 1].endLineno
  {
    if body != [] {
      var n := |body| - 1;
      assert WellFormedBody(body[..n], first, last);
      FunctionRangesWithin(body[..n], first, last);
      if n > 0 {
        forall r | r in FunctionRanges(body[..n]) ensures r.end <= body[n].endLineno {
          WellFormedOrdered(body, first, last, n - 1, n);
        }
      }
    }
  }

  /** Statements a parser produces give sorted, non-overlapping ranges inside the file. */
  lemma {:induction false} FunctionRangesSorted(body: seq<Stmt>, first: int, last: int)
    requires WellFormedBody(body, first, last)
    ensures SortedRanges(FunctionRanges(body), first, last)
  {
    FunctionRangesWithin(body, first, last);
    var all := FunctionRanges(body);
    forall i | 0 <= i < |all| ensures first <= all[i].start <= all[i].end <= last {
      assert all[i] in all;
    }
    if body != [] {
      var n := |body| - 1;
      var prefix := body[..n];
      assert WellFormedBody(prefix, first, last);
      FunctionRangesSorted(prefix, first, last);
      var rs := FunctionRanges(prefix);
      assert all == rs + (if body[n].FunctionDef? then [Range(body[n].lineno, body[n].endLineno)] else []);
      if body[n].FunctionDef? && rs != [] {
        FunctionRangesWithin(prefix, first, last);
        assert rs[|rs| - 1] in rs;
        WellFormedOrdered(body, first, last, n - 1, n);
        assert all[|rs| - 1].end < all[|rs|].start;
      }
    }
  }
}
