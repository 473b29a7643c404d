/**
 * Decoded text (newlines already translated to '\n') and its lines as file.readlines()
 * sees them: every line but the last ends with its newline, and no other newline.
 */
module Lines {

  /** A non-empty piece of text with no newline before its last character. */
  predicate IsLine(x: string)
  {
    |x| > 0 && forall i :: 0 <= i < |x| - 1 ==> x[i] != '\n'
  }

  /** A line that ends with its newline. */
  predicate Terminated(x: string)
  {
    IsLine(x) && x[|x| - 1] == '\n'
  }

  /** A list of lines as readlines() returns it: only the last may lack its newline. */
  predicate IsReadLines(xs: seq<string>)
  {
    (forall i :: 0 <= i < |xs| ==> IsLine(xs[i])) &&
    (forall i :: 0 <= i < |xs| - 1 ==> Terminated(xs[i]))
  }

  /** ''.join(xs). */
  function Join(xs: seq<string>): string
  {
    if xs == [] then ""
    else Join(xs[..|xs| - 1]) + xs[|xs| - 1]
  }

  /** The length of the first line of `s`: up to and including the first newline, or all of `s`. */
  function FirstLineLength(s: string): (k: nat)
    requires s != []
    ensures 0 < k <= |s|
    ensures IsLine(s[..k])
    ensures k < |s| ==> s[k - 1] == '\n'
    decreases |s|
  {
    if s[0] == '\n' || |s| == 1 then 1 else 1 + FirstLineLength(s[1..])
  }

  /**
   * file.readlines() on a file whose decoded text is `s`: the text cut into
   * lines, which join back to `s`.
   */
  function ReadLines(s: string): (r: seq<string>)
    ensures IsReadLines(r)
    ensures Join(r) == s
    decreases |s|
  {
    if s == [] then []
    else
      var k := FirstLineLength(s);
      var rest := ReadLines(s[k..]);
      JoinCons(s[..k], rest);
      assert s[..k] + s[k..] == s;
      ReadLinesCons(s[..k], rest);
      [s[..k]] + rest
  }

  /** Putting a line before a readlines() result keeps its shape, if the line is terminated or alone. */
  lemma ReadLinesCons(x: string, ys: seq<string>)
    requires IsLine(x) && IsReadLines(ys)
    requires ys != [] ==> Terminated(x)
    ensures IsReadLines([x] + ys)
  {
    var xs := [x] + ys;
    forall i | 0 < i < |xs| ensures xs[i] == ys[i - 1] { }
  }

  lemma {:induction false} JoinAppend(a: seq<string>, b: seq<string>)
    ensures Join(a + b) == Join(a) + Join(b)
  {
    if b == [] {
      assert a + b == a;
    } else {
      assert (a + b)[..|a + b| - 1] == a + b[..|b| - 1];
      JoinAppend(a, b[..|b| - 1]);
    }
  }

  lemma JoinCons(x: string, ys: seq<string>)
    ensures Join([x] + ys) == x + Join(ys)
  {
    JoinAppend([x], ys);
    assert [x][..0] == [];
  }

  /** The first line of x + rest is x, when x ends with its newline or nothing follows it. */
  lemma {:induction false} FirstLineOf(x: string, rest: string)
    requires IsLine(x)
    requires Terminated(x) || rest == []
    ensures FirstLineLength(x + rest) == |x|
    decreases |x|
  {
    if |x| > 1 {
      assert x[0] != '\n';
      assert (x + rest)[1..] == x[1..] + rest;
      FirstLineOf(x[1..], rest);
    }
  }

  /** A single line reads back as itself. */
  lemma ReadLinesOfLine(s: string)
    requires IsLine(s)
    ensures ReadLines(s) == [s]
  {
    FirstLineOf(s, []);
    assert s + [] == s;
    assert s[..|s|] == s && s[|s|..] == [];
  }

  /** Reading back joined lines gives the lines again. */
  lemma {:induction false} ReadLinesJoin(xs: seq<string>)
    requires IsReadLines(xs)
    ensures ReadLines(Join(xs)) == xs
    decreases |xs|
  {
    if xs != [] {
      var x, ys := xs[0], xs[1..];
      assert xs == [x] + ys;
      JoinCons(x, ys);
      var s := x + Join(ys);
      if ys == [] {
        assert s == x;
        FirstLineOf(x, []);
      } else {
        FirstLineOf(x, Join(ys));
        assert IsReadLines(ys) by {
          assert forall i :: 0 <= i < |ys| ==> ys[i] == xs[i + 1];
        }
        ReadLinesJoin(ys);
      }
      assert s[..|x|] == x;
      assert s[|x|..] == Join(ys);
    }
  }

  /** The text of `lines` with a newline added at the end if it lacks one. */
  function TerminateLines(lines: seq<string>): (r: seq<string>)
    ensures |r| == |lines|
    ensures forall i :: 0 <= i < |lines| - 1 ==> r[i] == lines[i]
    ensures lines != [] ==> r[|r| - 1] == lines[|lines| - 1] || r[|r| - 1] == lines[|lines| - 1] + "\n"
    ensures lines != [] ==> |r[|r| - 1]| > 0 && r[|r| - 1][|r[|r| - 1]| - 1] == '\n'
  {
    if lines == [] then []
    else
      var last := lines[|lines| - 1];
      if |last| > 0 && last[|last| - 1] == '\n' then lines
      else lines[..|lines| - 1] + [last + "\n"]
  }

  /**
   * After terminating, every line ends with its newline, and the text is the
   * original text, followed by one newline if it lacked a final one.
   */
  lemma TerminateLinesSpec(lines: seq<string>)
    requires IsReadLines(lines)
    ensures forall x :: x in TerminateLines(lines) ==> Terminated(x)
    ensures Join(TerminateLines(lines)) == Join(lines) ||
            Join(TerminateLines(lines)) == Join(lines) + "\n"
  {
    TerminatedLines(lines);
    TerminatedText(lines);
  }

  lemma TerminatedLines(lines: seq<string>)
    requires IsReadLines(lines)
    ensures forall x :: x in TerminateLines(lines) ==> Terminated(x)
  {
    var r := TerminateLines(lines);
    forall x | x in r ensures Terminated(x) {
      var i :| 0 <= i < |r| && r[i] == x;
      if i < |lines| - 1 {
        assert x == lines[i];
      } else {
        var last := lines[i];
        assert IsLine(last);
        if x != last {
          assert x == last + "\n";
          assert forall k :: 0 <= k < |x| - 1 ==> x[k] == last[k];
        }
      }
    }
  }

  lemma TerminatedText(lines: seq<string>)
    ensures Join(TerminateLines(lines)) == Join(lines) ||
            Join(TerminateLines(lines)) == Join(lines) + "\n"
  {
    var r := TerminateLines(lines);
    if r != lines {
      var n := |lines| - 1;
      var last := lines[n];
      assert r == lines[..n] + [last + "\n"];
      assert r[..n] == lines[..n];
    }
  }

  /** Terminated lines followed by a readlines() result still have the readlines() shape. */
  lemma TerminatedBeforeReadLines(a: seq<string>, b: seq<string>)
    requires forall x :: x in a ==> Terminated(x)
    requires IsReadLines(b)
    ensures IsReadLines(a + b)
  {
    var xs := a + b;
    forall i | 0 <= i < |xs| ensures IsLine(xs[i]) && (i < |xs| - 1 ==> Terminated(xs[i])) {
      if i < |a| {
        assert xs[i] == a[i] && a[i] in a;
      } else {
        assert xs[i] == b[i - |a|];
      }
    }
  }

  /** Lines that all end with their newline are a valid readlines() result. */
  lemma AllTerminatedAreReadLines(xs: seq<string>)
    requires forall x :: x in xs ==> Terminated(x)
    ensures IsReadLines(xs)
  {
    forall i | 0 <= i < |xs| ensures Terminated(xs[i]) {
      assert xs[i] in xs;
    }
  }
}
