/**
 * The tracking decision and the per-file aggregation of get_doc_tracked_differences
 * (checker.py:126-170). A difference is tracked when a tag line sits in the run of
 * comment and blank lines just above it, when one of its own lines is tagged, or when
 * the same two checks succeed on the header of a class or function enclosing it.
 * Reading the files and obtaining the differences are inputs: `changes` maps each
 * path to the lines `readlines()` returned and to the differences found for it.
 */
module Tracking {
  import opened Results
  import opened SyntaxTree
  import opened Classifier
  import opened Scopes
  import opened CommentScan

  /** checker.py's Difference: a changed range of lines, 0-based, both ends included. */
  datatype Difference = Difference(fromLine: int, toLine: int)

  type Path = string

  /** One file of the run: its lines, as `readlines()` returns them, and its differences. */
  datatype FileChanges = FileChanges(lines: seq<string>, differences: seq<Difference>)

  /** The ancestor chain of the node tree-sitter locates at the end of a row of a file's content. */
  type Locate = (string, nat) -> seq<Node>

  /** `"".join(lines)`. */
  function Concat(lines: seq<string>): string {
    if lines == [] then "" else lines[0] + Concat(lines[1..])
  }

  /**
   * `result[file_path] = set([*result.get(file_path, set([])), difference])`: the
   * difference joins the set of its file and no other entry changes.
   */
  function AddTracked(result: map<Path, set<Difference>>, path: Path, d: Difference): (r: map<Path, set<Difference>>)
    ensures r.Keys == result.Keys + {path}
    ensures r[path] == (if path in result then result[path] else {}) + {d}
    ensures forall p | p in result && p != path :: r[p] == result[p]
  {
    result[path := (if path in result then result[path] else {}) + {d}]
  }

  /** Adding a difference that is already there changes nothing. */
  lemma AddTrackedIdempotent(result: map<Path, set<Difference>>, path: Path, d: Difference)
    ensures AddTracked(AddTracked(result, path, d), path, d) == AddTracked(result, path, d)
  {
    var once := AddTracked(result, path, d);
    assert once[path] + {d} == once[path];
  }

  /** The order in which differences are added does not matter. */
  lemma AddTrackedCommutes(result: map<Path, set<Difference>>, p1: Path, d1: Difference, p2: Path, d2: Difference)
    ensures AddTracked(AddTracked(result, p1, d1), p2, d2) == AddTracked(AddTracked(result, p2, d2), p1, d1)
  {
    var a := AddTracked(AddTracked(result, p1, d1), p2, d2);
    var b := AddTracked(AddTracked(result, p2, d2), p1, d1);
    assert a.Keys == b.Keys;
    forall p | p in a ensures a[p] == b[p] {
    }
  }

  /**
   * A line range the loops can index: `from` is at most the number of lines (the scan
   * above it reads `lines[from - 1]`), and a non-empty range ends inside the file.
   */
  predicate RangeValid(lines: seq<string>, from: int, to: int) {
    0 <= from <= |lines| && (from <= to ==> to < |lines|)
  }

  /** Some line of the comment run just above `from` is a tag line. */
  predicate PrecedingTag(parse: Parse, tags: seq<string>, lines: seq<string>, from: nat)
    requires from <= |lines|
  {
    exists i | CommentRunStart(parse, lines, from) <= i < from :: LineIsTag(parse, tags, lines[i])
  }

  /** Some line of `[from, to]` is a tagged line. */
  predicate TaggedInRange(parse: Parse, tags: seq<string>, lines: seq<string>, from: int, to: int)
    requires RangeValid(lines, from, to)
  {
    exists i | from <= i <= to :: LineIsTagged(parse, tags, lines[i])
  }

  /** The two checks checker.py runs on a range: the comment run above it, then the range itself. */
  predicate RangeTracked(parse: Parse, tags: seq<string>, lines: seq<string>, from: int, to: int)
    requires RangeValid(lines, from, to)
  {
    PrecedingTag(parse, tags, lines, from) || TaggedInRange(parse, tags, lines, from, to)
  }

  /**
   * The two checks of checker.py:137-148 and 156-166: scan the comment run above `from`
   * for a tag line, stopping at the first; if none, scan `[from, to]` for a tagged line.
   */
  method CheckRange(parse: Parse, tags: seq<string>, lines: seq<string>, from: nat, to: int) returns (add: bool)
    requires RangeValid(lines, from, to)
    ensures add == RangeTracked(parse, tags, lines, from, to)
  {
    add := false;
    var lineBeforeIndex := GetLastCommentLineBeforeIndex(parse, lines, from);
    CommentRunStartUnique(parse, lines, from, lineBeforeIndex);
    var i := lineBeforeIndex;
    while i < from
      invariant lineBeforeIndex <= i <= from
      invariant !add ==> forall j | lineBeforeIndex <= j < i :: !LineIsTag(parse, tags, lines[j])
      invariant add ==> PrecedingTag(parse, tags, lines, from)
    {
      if LineIsTag(parse, tags, lines[i]) {
        add := true;
        break;
      }
      i := i + 1;
    }
    if !add {
      i := from;
      while i <= to
        invariant from <= i <= (if from <= to then to + 1 else from)
        invariant !add ==> forall j | from <= j < i :: !LineIsTagged(parse, tags, lines[j])
        invariant add ==> TaggedInRange(parse, tags, lines, from, to)
      {
        if LineIsTagged(parse, tags, lines[i]) {
          add := true;
          break;
        }
        i := i + 1;
      }
    }
  }

  /** The scopes found for a row fit in the file, and none of them made get_structure_code_nodes raise. */
  predicate ScopesValid(lines: seq<string>, chain: seq<Node>) {
    CodeNodesOf(chain).Ok? &&
    forall k | 0 <= k < |CodeNodesOf(chain).value| ::
      RangeValid(lines, CodeNodesOf(chain).value[k].fromLine, CodeNodesOf(chain).value[k].toLine)
  }

  /** A difference checker.py can process without an exception. */
  predicate DifferenceValid(locate: Locate, lines: seq<string>, d: Difference) {
    RangeValid(lines, d.fromLine, d.toLine) && ScopesValid(lines, locate(Concat(lines), d.fromLine))
  }

  predicate FileValid(locate: Locate, f: FileChanges) {
    forall k | 0 <= k < |f.differences| :: DifferenceValid(locate, f.lines, f.differences[k])
  }

  /** The header of one of the first `m` code nodes passes the two checks. */
  predicate AnyNodeTracked(parse: Parse, tags: seq<string>, lines: seq<string>, nodes: seq<CodeNode>, m: nat)
    requires m <= |nodes|
    requires forall k | 0 <= k < |nodes| :: RangeValid(lines, nodes[k].fromLine, nodes[k].toLine)
  {
    exists t | 0 <= t < m :: RangeTracked(parse, tags, lines, nodes[t].fromLine, nodes[t].toLine)
  }

  /** The header of some class or function enclosing the difference passes the two checks. */
  predicate ScopeTracked(parse: Parse, tags: seq<string>, locate: Locate, lines: seq<string>, d: Difference)
    requires DifferenceValid(locate, lines, d)
  {
    var nodes := CodeNodesOf(locate(Concat(lines), d.fromLine)).value;
    AnyNodeTracked(parse, tags, lines, nodes, |nodes|)
  }

  /** The tracking decision for one difference. */
  predicate Tracked(parse: Parse, tags: seq<string>, locate: Locate, lines: seq<string>, d: Difference)
    requires DifferenceValid(locate, lines, d)
  {
    RangeTracked(parse, tags, lines, d.fromLine, d.toLine) || ScopeTracked(parse, tags, locate, lines, d)
  }

  /** The tracked differences of a file. */
  function TrackedIn(parse: Parse, tags: seq<string>, locate: Locate, f: FileChanges): set<Difference>
    requires FileValid(locate, f)
  {
    set k | 0 <= k < |f.differences| && Tracked(parse, tags, locate, f.lines, f.differences[k]) :: f.differences[k]
  }

  /** What get_doc_tracked_differences returns: every file with a tracked difference, mapped to its tracked differences. */
  function TrackedDifferences(parse: Parse, tags: seq<string>, locate: Locate, changes: map<Path, FileChanges>)
    : (r: map<Path, set<Difference>>)
    requires forall p | p in changes :: FileValid(locate, changes[p])
    ensures r.Keys <= changes.Keys
    ensures forall p | p in r :: r[p] != {} && r[p] <= set k | 0 <= k < |changes[p].differences| :: changes[p].differences[k]
  {
    map p | p in changes && TrackedIn(parse, tags, locate, changes[p]) != {} :: TrackedIn(parse, tags, locate, changes[p])
  }

  /**
   * A difference is in the result under a path exactly when it is one of that file's
   * differences and is tracked; a file appears only when it has a tracked difference.
   */
  lemma TrackedDifferencesSpec(parse: Parse, tags: seq<string>, locate: Locate, changes: map<Path, FileChanges>, p: Path, d: Difference)
    requires forall q | q in changes :: FileValid(locate, changes[q])
    ensures TrackedDifferences(parse, tags, locate, changes).Keys <= changes.Keys
    ensures p in TrackedDifferences(parse, tags, locate, changes) ==> TrackedDifferences(parse, tags, locate, changes)[p] != {}
    ensures (p in TrackedDifferences(parse, tags, locate, changes) && d in TrackedDifferences(parse, tags, locate, changes)[p]) <==>
            (p in changes && exists k | 0 <= k < |changes[p].differences| ::
               changes[p].differences[k] == d && Tracked(parse, tags, locate, changes[p].lines, d))
  {
    var r := TrackedDifferences(parse, tags, locate, changes);
    if p in changes {
      var f := changes[p];
      if exists k | 0 <= k < |f.differences| :: f.differences[k] == d && Tracked(parse, tags, locate, f.lines, d) {
        var k :| 0 <= k < |f.differences| && f.differences[k] == d && Tracked(parse, tags, locate, f.lines, d);
        assert d in TrackedIn(parse, tags, locate, f);
      }
    }
  }

  /** With no differences at all, nothing is tracked. */
  lemma NoDifferencesNothingTracked(parse: Parse, tags: seq<string>, locate: Locate, changes: map<Path, FileChanges>)
    requires forall p | p in changes :: changes[p].differences == []
    ensures TrackedDifferences(parse, tags, locate, changes) == map[]
  {
    var r := TrackedDifferences(parse, tags, locate, changes);
    forall p | p in changes ensures TrackedIn(parse, tags, locate, changes[p]) == {} {
    }
    assert r.Keys == {};
  }

  /** With no tags, nothing is tracked. */
  lemma NoTagsNothingTracked(parse: Parse, locate: Locate, changes: map<Path, FileChanges>)
    requires forall p | p in changes :: FileValid(locate, changes[p])
    ensures TrackedDifferences(parse, [], locate, changes) == map[]
  {
    var r := TrackedDifferences(parse, [], locate, changes);
    forall p | p in changes ensures TrackedIn(parse, [], locate, changes[p]) == {} {
    }
    assert r.Keys == {};
  }

  /** A function with a tag comment right above its header: `# test`, `def f():`, `    return 1`. */
  function TaggedFunctionLines(): seq<string> {
    ["# test\n", "def f():\n", "    return 1\n"]
  }

  /** The ancestor chain at the end of row 2 of those lines: the return statement, the body, `f`, the module. */
  function TaggedFunctionChain(): seq<Node> {
    [Other("return_statement", 2), Other("block", 2), Definition("function_definition", "f", 1, 1), Other("module", 0)]
  }

  lemma TaggedFunctionScopes()
    ensures CodeNodesOf(TaggedFunctionChain()) == Ok([CodeNode("function_definition", "f", 1, 1)])
  {
    var chain := TaggedFunctionChain();
    var cF := CodeNode("function_definition", "f", 1, 1);
    assert ToCodeNode(chain[2]) == Ok(cF);
    assert !IsDefinition(chain[3]) && IsDefinition(chain[2]) && !IsDefinition(chain[1]) && !IsDefinition(chain[0]);
    forall k | 0 <= k < 3 ensures chain[k..][1..] == chain[k + 1..] && chain[k..][0] == chain[k] { }
    assert Collect(chain[3..]) == Ok([]);
    assert [cF] + [] == [cF];
    assert Collect(chain[2..]) == Ok([cF]);
    assert Collect(chain[1..]) == Ok([cF]);
    assert Collect(chain) == Ok([cF]);
    assert Reverse([cF]) == [cF];
  }

  /**
   * A change to the body of a function whose header is preceded by a tag line is
   * tracked through the enclosing-scope check, although no line of the change, nor
   * any line just above it, carries a tag.
   */
  lemma TaggedFunctionTracksItsBody(parse: Parse, tags: seq<string>, locate: Locate)
    requires LineIsTag(parse, tags, TaggedFunctionLines()[0])
    requires locate(Concat(TaggedFunctionLines()), 2) == TaggedFunctionChain()
    ensures DifferenceValid(locate, TaggedFunctionLines(), Difference(2, 2))
    ensures ScopeTracked(parse, tags, locate, TaggedFunctionLines(), Difference(2, 2))
    ensures TrackedDifferences(parse, tags, locate, map["a.py" := FileChanges(TaggedFunctionLines(), [Difference(2, 2)])])
            == map["a.py" := {Difference(2, 2)}]
  {
    var lines := TaggedFunctionLines();
    TaggedFunctionScopes();
    var f := CodeNode("function_definition", "f", 1, 1);
    assert RangeValid(lines, 1, 1);
    assert Skippable(parse, lines[0]);
    CommentRunStartUnique(parse, lines, 1, 0);
    assert PrecedingTag(parse, tags, lines, 1);
    assert RangeTracked(parse, tags, lines, f.fromLine, f.toLine);
    var changes := map["a.py" := FileChanges(lines, [Difference(2, 2)])];
    assert FileValid(locate, changes["a.py"]);
    assert Tracked(parse, tags, locate, lines, Difference(2, 2));
    assert changes["a.py"].differences[0] == Difference(2, 2);
    assert Difference(2, 2) in TrackedIn(parse, tags, locate, changes["a.py"]);
    assert TrackedIn(parse, tags, locate, changes["a.py"]) == {Difference(2, 2)};
    var r := TrackedDifferences(parse, tags, locate, changes);
    assert r.Keys == {"a.py"};
  }

  /** `before` with `path` mapped to `s`, or left out when `s` is empty. */
  function Put(before: map<Path, set<Difference>>, path: Path, s: set<Difference>): map<Path, set<Difference>> {
    if s == {} then before else before[path := s]
  }

  lemma AddTrackedPut(before: map<Path, set<Difference>>, path: Path, s: set<Difference>, d: Difference)
    requires path !in before
    ensures AddTracked(Put(before, path, s), path, d) == Put(before, path, s + {d})
  {
  }

  /** The differences among the first `n` whose own range is tracked (the first loop of checker.py). */
  function RangeTrackedAmong(parse: Parse, tags: seq<string>, locate: Locate, f: FileChanges, n: nat): set<Difference>
    requires FileValid(locate, f) && n <= |f.differences|
  {
    set k | 0 <= k < n && RangeTracked(parse, tags, f.lines, f.differences[k].fromLine, f.differences[k].toLine) :: f.differences[k]
  }

  /** The differences among the first `n` tracked through an enclosing scope (the second loop of checker.py). */
  function ScopeTrackedAmong(parse: Parse, tags: seq<string>, locate: Locate, f: FileChanges, n: nat): set<Difference>
    requires FileValid(locate, f) && n <= |f.differences|
  {
    set k | 0 <= k < n && ScopeTracked(parse, tags, locate, f.lines, f.differences[k]) :: f.differences[k]
  }

  lemma RangeTrackedAmongStep(parse: Parse, tags: seq<string>, locate: Locate, f: FileChanges, j: nat)
    requires FileValid(locate, f) && j < |f.differences|
    ensures RangeTrackedAmong(parse, tags, locate, f, j + 1) == RangeTrackedAmong(parse, tags, locate, f, j) +
              if RangeTracked(parse, tags, f.lines, f.differences[j].fromLine, f.differences[j].toLine)
              then {f.differences[j]} else {}
  {
  }

  lemma ScopeTrackedAmongStep(parse: Parse, tags: seq<string>, locate: Locate, f: FileChanges, j: nat)
    requires FileValid(locate, f) && j < |f.differences|
    ensures ScopeTrackedAmong(parse, tags, locate, f, j + 1) == ScopeTrackedAmong(parse, tags, locate, f, j) +
              if ScopeTracked(parse, tags, locate, f.lines, f.differences[j]) then {f.differences[j]} else {}
  {
  }

  lemma TrackedInSplits(parse: Parse, tags: seq<string>, locate: Locate, f: FileChanges)
    requires FileValid(locate, f)
    ensures TrackedIn(parse, tags, locate, f) ==
            RangeTrackedAmong(parse, tags, locate, f, |f.differences|) + ScopeTrackedAmong(parse, tags, locate, f, |f.differences|)
  {
  }

  /**
   * The first loop of checker.py (lines 136-150) over one file: every difference whose
   * own range is tracked is added under the file's path.
   */
  method AddRangeTracked(parse: Parse, tags: seq<string>, locate: Locate, path: Path, f: FileChanges,
                         before: map<Path, set<Difference>>)
    returns (result: map<Path, set<Difference>>)
    requires FileValid(locate, f) && path !in before
    ensures result == Put(before, path, RangeTrackedAmong(parse, tags, locate, f, |f.differences|))
  {
    result := before;
    var lines, differences := f.lines, f.differences;
    ghost var added: set<Difference> := {};
    for j := 0 to |differences|
      invariant added == RangeTrackedAmong(parse, tags, locate, f, j)
      invariant result == Put(before, path, added)
    {
      var difference := differences[j];
      var add := CheckRange(parse, tags, lines, difference.fromLine, difference.toLine);
      RangeTrackedAmongStep(parse, tags, locate, f, j);
      if add {
        AddTrackedPut(before, path, added, difference);
        result := AddTracked(result, path, difference);
        added := added + {difference};
      } else {
        assert added + {} == added;
      }
    }
  }

  /**
   * The body of the second loop of checker.py (lines 153-168) for one difference: the
   * difference is added once for every enclosing scope whose header is tracked.
   */
  method AddIfScopeTracked(parse: Parse, tags: seq<string>, locate: Locate, path: Path, lines: seq<string>,
                           difference: Difference, ghost before: map<Path, set<Difference>>, ghost soFar: set<Difference>,
                           current: map<Path, set<Difference>>)
    returns (result: map<Path, set<Difference>>)
    requires DifferenceValid(locate, lines, difference) && path !in before
    requires current == Put(before, path, soFar)
    ensures result == Put(before, path, soFar +
              if ScopeTracked(parse, tags, locate, lines, difference) then {difference} else {})
  {
    result := current;
    assert soFar + {} == soFar;
    var found := GetStructureCodeNodes(locate(Concat(lines), difference.fromLine));
    var codeNodes := found.value;
    ghost var seen := false;
    var m := 0;
    while m < |codeNodes|
      invariant 0 <= m <= |codeNodes|
      invariant seen == AnyNodeTracked(parse, tags, lines, codeNodes, m)
      invariant result == Put(before, path, soFar + if seen then {difference} else {})
    {
      var codeNode := codeNodes[m];
      var add := CheckRange(parse, tags, lines, codeNode.fromLine, codeNode.toLine);
      if add {
        AddTrackedPut(before, path, soFar + if seen then {difference} else {}, difference);
        result := AddTracked(result, path, difference);
      }
      assert AnyNodeTracked(parse, tags, lines, codeNodes, m + 1) == (seen || add);
      seen := seen || add;
      m := m + 1;
    }
  }

  /** The second loop of checker.py (lines 152-168) over one file. */
  method AddScopeTracked(parse: Parse, tags: seq<string>, locate: Locate, path: Path, f: FileChanges,
                         ghost before: map<Path, set<Difference>>, ghost firstPass: set<Difference>,
                         current: map<Path, set<Difference>>)
    returns (result: map<Path, set<Difference>>)
    requires FileValid(locate, f) && path !in before
    requires current == Put(before, path, firstPass)
    ensures result == Put(before, path, firstPass + ScopeTrackedAmong(parse, tags, locate, f, |f.differences|))
  {
    result := current;
    ghost var added: set<Difference> := {};
    assert firstPass + {} == firstPass;
    for j := 0 to |f.differences|
      invariant added == ScopeTrackedAmong(parse, tags, locate, f, j)
      invariant result == Put(before, path, firstPass + added)
    {
      var difference := f.differences[j];
      result := AddIfScopeTracked(parse, tags, locate, path, f.lines, difference, before, firstPass + added, result);
      ScopeTrackedAmongStep(parse, tags, locate, f, j);
      if ScopeTracked(parse, tags, locate, f.lines, difference) {
        assert firstPass + added + {difference} == firstPass + (added + {difference});
        added := added + {difference};
      } else {
        assert firstPass + added + {} == firstPass + added;
        assert added + {} == added;
      }
    }
  }

  /**
   * get_doc_tracked_differences: for every file, a first pass adds each difference whose
   * own range is tracked, a second pass adds each difference one of whose enclosing
   * scopes is tracked; the result is exactly TrackedDifferences.
   */
  method GetDocTrackedDifferences(parse: Parse, tags: seq<string>, locate: Locate, changes: map<Path, FileChanges>)
    returns (result: map<Path, set<Difference>>)
    requires forall p | p in changes :: FileValid(locate, changes[p])
    ensures result == TrackedDifferences(parse, tags, locate, changes)
  {
    result := map[];
    var paths := changes.Keys;
    while paths != {}
      invariant paths <= changes.Keys
      invariant forall p | p in result :: p in changes && p !in paths &&
                  result[p] == TrackedIn(parse, tags, locate, changes[p]) && result[p] != {}
      invariant forall p | p in changes && p !in paths && TrackedIn(parse, tags, locate, changes[p]) != {} :: p in result
      decreases paths
    {
      var path :| path in paths;
      var f := changes[path];
      ghost var before := result;
      result := AddRangeTracked(parse, tags, locate, path, f, result);
      result := AddScopeTracked(parse, tags, locate, path, f, before,
                                RangeTrackedAmong(parse, tags, locate, f, |f.differences|), result);
      TrackedInSplits(parse, tags, locate, f);
      paths := paths - {path};
    }
    ghost var expected := TrackedDifferences(parse, tags, locate, changes);
    assert result.Keys == expected.Keys;
  }
}
