/**
 * get_last_comment_line_before_index (checker.py:120-124): from the line just above
 * `ind`, walk upwards over comment-only and blank lines and return the first line of
 * that run. The loop condition at checker.py:122 is written
 * `i > -1 and line_is_comment(lines[i]) or lines[i].strip() == ""`, which Python reads
 * as `(i > -1 and ...) or ...`: once `i` reaches -1 the blank test still runs, on
 * `lines[-1]`, the LAST line of the file. This module models the loop as written and
 * the loop with the guard applied to both tests, which is what the rest of the model uses.
 */
module CommentScan {
  import opened Results
  import opened Text
  import opened SyntaxTree
  import opened Classifier

  /** A line the scan walks over: a comment alone, or a line that strips to nothing. */
  predicate Skippable(parse: Parse, line: string) {
    LineIsComment(parse, line) || IsBlank(line)
  }

  /**
   * The first line of the run of skippable lines that ends just above `ind`: every line
   * from it up to `ind` is skippable, and the line before it, if any, is not.
   */
  function CommentRunStart(parse: Parse, lines: seq<string>, ind: nat): (r: nat)
    requires ind <= |lines|
    ensures r <= ind
    ensures forall j | r <= j < ind :: Skippable(parse, lines[j])
    ensures r > 0 ==> !Skippable(parse, lines[r - 1])
    decreases ind
  {
    if ind == 0 then 0
    else if Skippable(parse, lines[ind - 1]) then CommentRunStart(parse, lines, ind - 1)
    else ind
  }

  /** The three properties above determine the start of the run. */
  lemma {:induction false} CommentRunStartUnique(parse: Parse, lines: seq<string>, ind: nat, r: nat)
    requires ind <= |lines| && r <= ind
    requires forall j | r <= j < ind :: Skippable(parse, lines[j])
    requires r > 0 ==> !Skippable(parse, lines[r - 1])
    ensures r == CommentRunStart(parse, lines, ind)
    decreases ind
  {
    if r < ind {
      CommentRunStartUnique(parse, lines, ind - 1, r);
    }
  }

  /**
   * get_last_comment_line_before_index with the guard `i > -1` applying to both tests:
   * the scan stops at the top of the file, so the result is never negative.
   */
  method GetLastCommentLineBeforeIndex(parse: Parse, lines: seq<string>, ind: nat) returns (r: nat)
    requires ind <= |lines|
    ensures r <= ind
    ensures forall j | r <= j < ind :: Skippable(parse, lines[j])
    ensures r > 0 ==> !Skippable(parse, lines[r - 1])
  {
    var i: int := ind - 1;
    while i > -1 && (LineIsComment(parse, lines[i]) || IsBlank(lines[i]))
      invariant -1 <= i < ind
      invariant forall j | i < j < ind :: Skippable(parse, lines[j])
    {
      i := i - 1;
    }
    r := i + 1;
  }

  /** Python's `lines[i]` on a list of `n` elements: a negative index counts from the end. */
  function PyIndex(n: nat, i: int): (k: nat)
    requires 0 <= n + i && i < n
    ensures k < n
    ensures i >= 0 ==> k == i
    ensures i < 0 ==> k - n == i
  {
    if i < 0 then n + i else i
  }

  /** The number of blank lines at the end of the file. */
  function TrailingBlanks(lines: seq<string>): (n: nat)
    ensures n <= |lines|
    ensures forall j | |lines| - n <= j < |lines| :: IsBlank(lines[j])
    ensures n < |lines| ==> !IsBlank(lines[|lines| - 1 - n])
  {
    if lines != [] && IsBlank(lines[|lines| - 1]) then 1 + TrailingBlanks(lines[..|lines| - 1]) else 0
  }

  /**
   * What the loop as written returns: the start of the run when the run stops inside
   * the file; otherwise, having wrapped around to the end of the file, minus the number
   * of trailing blank lines; and None (an IndexError) when every line is blank.
   */
  function AsWrittenRunStart(parse: Parse, lines: seq<string>, ind: nat): (r: Option<int>)
    requires ind <= |lines|
    ensures r.Some? ==> -|lines| < r.value <= CommentRunStart(parse, lines, ind)
    ensures r.Some? && r.value > 0 ==> r.value == CommentRunStart(parse, lines, ind)
    ensures CommentRunStart(parse, lines, ind) > 0 ==> r == Some(CommentRunStart(parse, lines, ind))
    ensures r.None? <==> CommentRunStart(parse, lines, ind) == 0 && forall j | 0 <= j < |lines| :: IsBlank(lines[j])
  {
    var start := CommentRunStart(parse, lines, ind);
    if start > 0 then Some(start)
    else if TrailingBlanks(lines) == |lines| then None
    else Some(-(TrailingBlanks(lines) as int))
  }

  /**
   * get_last_comment_line_before_index as written: the condition is
   * `(i > -1 and line_is_comment(lines[i])) or lines[i].strip() == ""`, with Python's
   * negative indexing; None stands for the IndexError raised below `-len(lines)`.
   */
  method GetLastCommentLineBeforeIndexAsWritten(parse: Parse, lines: seq<string>, ind: nat) returns (r: Option<int>)
    requires ind <= |lines|
    ensures r == AsWrittenRunStart(parse, lines, ind)
  {
    var n: int := |lines|;
    var i: int := ind - 1;
    while true
      invariant -n - 1 <= i < ind
      invariant i >= -1 ==> forall j | i < j < ind :: Skippable(parse, lines[j])
      invariant i <= -1 ==> (forall j | 0 <= j < ind :: Skippable(parse, lines[j])) &&
                            forall j | n + i < j < n :: IsBlank(lines[j])
      decreases i + n + 1
    {
      if i < -n {
        // lines[i] is out of range: IndexError
        TrailingAllBlank(lines);
        CommentRunStartUnique(parse, lines, ind, 0);
        return None;
      }
      var stepOver := (i > -1 && LineIsComment(parse, lines[i])) || IsBlank(lines[PyIndex(n, i)]);
      if !stepOver {
        break;
      }
      i := i - 1;
    }
    if i >= 0 {
      CommentRunStartUnique(parse, lines, ind, i + 1);
    } else {
      CommentRunStartUnique(parse, lines, ind, 0);
      TrailingBlanksUnique(lines, -i - 1);
    }
    r := Some(i + 1);
  }

  lemma {:induction false} TrailingAllBlank(lines: seq<string>)
    requires forall j | 0 <= j < |lines| :: IsBlank(lines[j])
    ensures TrailingBlanks(lines) == |lines|
  {
    if lines != [] {
      TrailingAllBlank(lines[..|lines| - 1]);
    }
  }

  /** The number of trailing blank lines is the length of the blank suffix that a non-blank line precedes. */
  lemma {:induction false} TrailingBlanksUnique(lines: seq<string>, m: nat)
    requires m < |lines|
    requires forall j | |lines| - m <= j < |lines| :: IsBlank(lines[j])
    requires !IsBlank(lines[|lines| - 1 - m])
    ensures TrailingBlanks(lines) == m
  {
    if m > 0 {
      var front := lines[..|lines| - 1];
      assert front[|front| - 1 - (m - 1)] == lines[|lines| - 1 - m];
      TrailingBlanksUnique(front, m - 1);
    }
  }

  /**
   * A hunk on the first line of a file whose last line is blank: the scan as written
   * reads `lines[-1]`, steps over it and returns -1 instead of 0.
   */
  lemma AsWrittenScanWrapsAround(parse: Parse)
    ensures CommentRunStart(parse, ["x = 1\n", "\n"], 0) == 0
    ensures AsWrittenRunStart(parse, ["x = 1\n", "\n"], 0) == Some(-1)
  {
    var lines := ["x = 1\n", "\n"];
    assert !IsBlank(lines[0]) by { assert !IsSpace(lines[0][0]); }
    assert IsBlank(lines[1]) by { assert IsSpace(lines[1][0]); }
    TrailingBlanksUnique(lines, 1);
  }

  /** In a file made of one blank line, the scan as written runs off the start of the list: IndexError. */
  lemma AsWrittenScanFailsOnBlankFile(parse: Parse)
    ensures AsWrittenRunStart(parse, ["\n"], 0) == None
  {
    assert IsBlank("\n") by { assert IsSpace("\n"[0]); }
    TrailingAllBlank(["\n"]);
  }

  /** The tag test `for i in range(lo, hi): line_is_tag(lines[i], tags)` with Python's indexing. */
  predicate PyRangeHasTag(parse: Parse, tags: seq<string>, lines: seq<string>, lo: int, hi: nat)
    requires 0 <= |lines| + lo && hi <= |lines|
  {
    exists i | lo <= i < hi :: LineIsTag(parse, tags, lines[PyIndex(|lines|, i)])
  }

  /**
   * Whenever the scan as written returns, checking the lines from its result up to
   * `ind` for a tag line decides the same as checking from the corrected start: the
   * extra lines it wraps around to are blank, and a blank line, whose parse holds no
   * comment, is never a tag line.
   */
  lemma {:induction false} AsWrittenDecisionAgrees(parse: Parse, tags: seq<string>, lines: seq<string>, ind: nat)
    requires ind <= |lines|
    requires BlankLinesParseEmpty(parse)
    requires AsWrittenRunStart(parse, lines, ind).Some?
    ensures 0 <= |lines| + AsWrittenRunStart(parse, lines, ind).value
    ensures PyRangeHasTag(parse, tags, lines, AsWrittenRunStart(parse, lines, ind).value, ind) <==>
            PyRangeHasTag(parse, tags, lines, CommentRunStart(parse, lines, ind), ind)
  {
    var lo := AsWrittenRunStart(parse, lines, ind).value;
    var start := CommentRunStart(parse, lines, ind);
    if lo < 0 {
      forall i | lo <= i < 0
        ensures !LineIsTag(parse, tags, lines[PyIndex(|lines|, i)])
      {
        assert IsBlank(lines[PyIndex(|lines|, i)]);
        BlankLineIsUnclassified(parse, tags, lines[PyIndex(|lines|, i)]);
      }
    }
  }

  /**
   * The first case of checker's tests: above line 5 come two blank lines and two
   * comment lines, below a line of code; the run starts at line 1.
   */
  lemma CommentRunOverBlankLines(parse: Parse, lines: seq<string>)
    requires lines == ["print(22)\n", "# comment\n", "# comment2\n", "\n", "\n", "print(23)\n"]
    requires !LineIsComment(parse, lines[0]) && LineIsComment(parse, lines[1]) && LineIsComment(parse, lines[2])
    ensures CommentRunStart(parse, lines, 5) == 1
  {
    assert !IsBlank(lines[0]) by { assert !IsSpace(lines[0][0]); }
    assert lines[3] == lines[4] == "\n";
    assert IsBlank("\n") by { assert IsSpace("\n"[0]); }
    assert forall j | 1 <= j < 5 :: Skippable(parse, lines[j]);
    CommentRunStartUnique(parse, lines, 5, 1);
  }
}
