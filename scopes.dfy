/**
 * get_structure_code_nodes (checker.py:83-112), Python branch: the classes and functions
 * that enclose a line, outermost first. Parsing the file and locating the smallest named
 * node at the end of the target line are tree-sitter's; the model starts from the
 * located node's ancestor chain, `chain[0]` being the located node and each next
 * element the parent of the previous one, up to the root.
 */
module Scopes {
  import opened Results
  import opened SyntaxTree

  /** checker.py's CodeNode: the node type, the definition's name, its first row and the row of its `:`. */
  datatype CodeNode = CodeNode(kind: string, name: string, fromLine: nat, toLine: nat)

  /** The exceptions get_structure_code_nodes can raise while building a CodeNode. */
  datatype ScopeError =
    | MissingName   // the definition has no `name` field: `None.text` raises AttributeError
    | MissingColon  // retrieve_end_point returned None: `None[0]` raises TypeError

  /** The node types the Python branch keeps. */
  predicate IsDefinition(n: Node) {
    n.kind == "function_definition" || n.kind == "class_definition"
  }

  /**
   * The CodeNode built for one definition (checker.py:101-102): its type, its name, the
   * row it starts on and the row of its first `:` child. The name is read before the
   * colon is looked up, so a node lacking both fails on the name.
   */
  function ToCodeNode(n: Node): (r: Result<CodeNode, ScopeError>)
    ensures r.Err? <==> n.nameText.None? || forall i | 0 <= i < |n.children| :: n.children[i].kind != ":"
    ensures n.nameText.None? ==> r == Err(MissingName)
    ensures r.Ok? ==> r.value.kind == n.kind && Some(r.value.name) == n.nameText && r.value.fromLine == n.startPoint.row
    ensures r.Ok? ==> exists i | 0 <= i < |n.children| ::
              n.children[i].kind == ":" && r.value.toLine == n.children[i].endPoint.row &&
              forall j | 0 <= j < i :: n.children[j].kind != ":"
  {
    match n.nameText
    case None => Err(MissingName)
    case Some(name) =>
      match RetrieveEndPoint(n)
      case None => Err(MissingColon)
      case Some(end) => Ok(CodeNode(n.kind, name, n.startPoint.row, end.row))
  }

  /** The definitions of the chain, in walk order (innermost first). */
  function Definitions(chain: seq<Node>): (r: seq<Node>)
    ensures |r| <= |chain|
    ensures forall i | 0 <= i < |r| :: IsDefinition(r[i]) && r[i] in chain
    ensures forall k | 0 <= k < |chain| && IsDefinition(chain[k]) :: chain[k] in r
    ensures (forall k | 0 <= k < |chain| :: !IsDefinition(chain[k])) <==> r == []
  {
    if chain == [] then []
    else if IsDefinition(chain[0]) then [chain[0]] + Definitions(chain[1..])
    else Definitions(chain[1..])
  }

  /** The filter keeps walk order: the definitions of a joined chain are those of its first part, then those of its second. */
  lemma {:induction false} DefinitionsAppend(a: seq<Node>, b: seq<Node>)
    ensures Definitions(a + b) == Definitions(a) + Definitions(b)
  {
    if a != [] {
      assert (a + b)[1..] == a[1..] + b;
      DefinitionsAppend(a[1..], b);
    } else {
      assert a + b == b;
    }
  }

  function Reverse<T>(s: seq<T>): (r: seq<T>)
    ensures |r| == |s|
    ensures forall i | 0 <= i < |s| :: r[i] == s[|s| - 1 - i]
  {
    if s == [] then [] else Reverse(s[1..]) + [s[0]]
  }

  /** What the `contexts` list holds once the walk is over, or the first exception raised on the way. */
  function Collect(chain: seq<Node>): Result<seq<CodeNode>, ScopeError> {
    if chain == [] then Ok([])
    else if !IsDefinition(chain[0]) then Collect(chain[1..])
    else match ToCodeNode(chain[0])
      case Err(e) => Err(e)
      case Ok(c) =>
        match Collect(chain[1..])
        case Err(e) => Err(e)
        case Ok(cs) => Ok([c] + cs)
  }

  /** The result of get_structure_code_nodes on the chain: the collected list reversed. */
  function CodeNodesOf(chain: seq<Node>): Result<seq<CodeNode>, ScopeError> {
    match Collect(chain)
    case Err(e) => Err(e)
    case Ok(cs) => Ok(Reverse(cs))
  }

  lemma {:induction false} CollectErr(chain: seq<Node>)
    ensures Collect(chain).Err? <==>
              exists k | 0 <= k < |chain| :: IsDefinition(chain[k]) && ToCodeNode(chain[k]).Err?
  {
    if chain != [] {
      CollectErr(chain[1..]);
      if exists k | 1 <= k < |chain| :: IsDefinition(chain[k]) && ToCodeNode(chain[k]).Err? {
        var k :| 1 <= k < |chain| && IsDefinition(chain[k]) && ToCodeNode(chain[k]).Err?;
        assert chain[1..][k - 1] == chain[k];
      }
      if exists k | 0 <= k < |chain| - 1 :: IsDefinition(chain[1..][k]) && ToCodeNode(chain[1..][k]).Err? {
        var k :| 0 <= k < |chain| - 1 && IsDefinition(chain[1..][k]) && ToCodeNode(chain[1..][k]).Err?;
        assert chain[k + 1] == chain[1..][k];
      }
    }
  }

  lemma {:induction false} CollectOk(chain: seq<Node>)
    requires Collect(chain).Ok?
    ensures |Collect(chain).value| == |Definitions(chain)|
    ensures forall i | 0 <= i < |Definitions(chain)| :: Ok(Collect(chain).value[i]) == ToCodeNode(Definitions(chain)[i])
  {
    if chain != [] {
      CollectOk(chain[1..]);
      if IsDefinition(chain[0]) {
        var cs := Collect(chain[1..]).value;
        assert Collect(chain).value == [ToCodeNode(chain[0]).value] + cs;
        assert Definitions(chain) == [chain[0]] + Definitions(chain[1..]);
      }
    }
  }

  /**
   * get_structure_code_nodes: it fails exactly when some enclosing definition lacks a
   * name or a `:`; otherwise it returns one CodeNode per enclosing definition, never more
   * than the chain is long, outermost first (the last definition met on the walk towards
   * the root comes first), and nothing when no ancestor is a definition.
   */
  lemma CodeNodesOfSpec(chain: seq<Node>)
    ensures CodeNodesOf(chain).Err? <==>
              exists k | 0 <= k < |chain| :: IsDefinition(chain[k]) && ToCodeNode(chain[k]).Err?
    ensures CodeNodesOf(chain).Ok? ==>
              var v := CodeNodesOf(chain).value;
              |v| == |Definitions(chain)| <= |chain| &&
              forall i | 0 <= i < |v| :: Ok(v[i]) == ToCodeNode(Definitions(chain)[|v| - 1 - i])
    ensures (forall k | 0 <= k < |chain| :: !IsDefinition(chain[k])) ==> CodeNodesOf(chain) == Ok([])
  {
    CollectErr(chain);
    if Collect(chain).Ok? {
      CollectOk(chain);
    }
  }

  function Prepend(cs: seq<CodeNode>, r: Result<seq<CodeNode>, ScopeError>): Result<seq<CodeNode>, ScopeError> {
    match r
    case Err(e) => Err(e)
    case Ok(v) => Ok(cs + v)
  }

  /**
   * The walk of get_structure_code_nodes: follow the parents from the located node,
   * append a CodeNode for each function or class definition, then reverse the list.
   */
  method GetStructureCodeNodes(chain: seq<Node>) returns (r: Result<seq<CodeNode>, ScopeError>)
    ensures r == CodeNodesOf(chain)
  {
    var contexts: seq<CodeNode> := [];
    var k := 0;
    assert chain[k..] == chain;
    assert Prepend(contexts, Collect(chain)) == Collect(chain) by {
      if Collect(chain).Ok? {
        assert [] + Collect(chain).value == Collect(chain).value;
      }
    }
    while k < |chain|
      invariant 0 <= k <= |chain|
      invariant Collect(chain) == Prepend(contexts, Collect(chain[k..]))
    {
      var node := chain[k];
      assert chain[k..][1..] == chain[k + 1..];
      if IsDefinition(node) {
        var c := ToCodeNode(node);
        if c.Err? {
          return Err(c.error);
        }
        assert Collect(chain[k..]) == Prepend([c.value], Collect(chain[k + 1..]));
        if Collect(chain[k + 1..]).Ok? {
          var rest := Collect(chain[k + 1..]).value;
          assert contexts + ([c.value] + rest) == (contexts + [c.value]) + rest;
        }
        contexts := contexts + [c.value];
      }
      k := k + 1;
    }
    assert chain[k..] == [];
    assert Collect(chain) == Ok(contexts + []);
    assert contexts + [] == contexts;
    r := Ok(Reverse(contexts));
  }

  /** A definition node reduced to what the walk reads: its type, name, first row and a `:` ending on `colonRow`. */
  function Definition(kind: string, name: string, row: nat, colonRow: nat): Node {
    Node(kind, 0, 0, Point(row, 0), Point(colonRow, 1), Some(name), [
      Node(":", 0, 0, Point(colonRow, 0), Point(colonRow, 1), None, [])])
  }

  /** A node that is not a definition (a block, a statement, the module). */
  function Other(kind: string, row: nat): Node {
    Node(kind, 0, 0, Point(row, 0), Point(row, 1), None, [])
  }

  /** A definition node built by `Definition` converts to the CodeNode of its fields. */
  lemma DefinitionConverts(kind: string, name: string, row: nat, colonRow: nat)
    ensures ToCodeNode(Definition(kind, name, row, colonRow)) == Ok(CodeNode(kind, name, row, colonRow))
  {
    assert Definition(kind, name, row, colonRow).children[0].kind == ":";
  }

  /** A definition met on the walk just above a block is collected alone. */
  lemma ScopeSegment(row: nat, kind: string, name: string, defRow: nat, colonRow: nat)
    requires kind == "function_definition" || kind == "class_definition"
    ensures Collect([Other("block", row), Definition(kind, name, defRow, colonRow)]) == Ok([CodeNode(kind, name, defRow, colonRow)])
  {
    var def := Definition(kind, name, defRow, colonRow);
    var c := CodeNode(kind, name, defRow, colonRow);
    DefinitionConverts(kind, name, defRow, colonRow);
    assert [def][0] == def && [def][1..] == [];
    assert Collect([def]) == Ok([c]) by {
      assert Collect([]) == Ok([]);
      assert [c] + [] == [c];
    }
    assert [Other("block", row), def][0] == Other("block", row) && [Other("block", row), def][1..] == [def];
  }

  /** The walk over a joined chain collects what it collects over each part, in order. */
  lemma {:induction false} CollectAppend(a: seq<Node>, b: seq<Node>)
    requires Collect(a).Ok? && Collect(b).Ok?
    ensures Collect(a + b) == Ok(Collect(a).value + Collect(b).value)
    decreases |a|
  {
    if a == [] {
      assert a + b == b;
      assert Collect(a).value + Collect(b).value == Collect(b).value;
    } else {
      var ab := a + b;
      assert ab[0] == a[0] && ab[1..] == a[1..] + b;
      if IsDefinition(a[0]) {
        CollectAppendDefinition(a, b);
      } else {
        assert Collect(a) == Collect(a[1..]);
        CollectAppend(a[1..], b);
        assert Collect(ab) == Collect(a[1..] + b);
      }
    }
  }

  /** The walk collects a well-formed definition met first, then whatever it collects above it. */
  lemma CollectDefinitionFirst(chain: seq<Node>)
    requires chain != [] && IsDefinition(chain[0]) && ToCodeNode(chain[0]).Ok? && Collect(chain[1..]).Ok?
    ensures Collect(chain) == Ok([ToCodeNode(chain[0]).value] + Collect(chain[1..]).value)
  {
  }

  /** The step of CollectAppend where the chain starts with a definition. */
  lemma {:induction false} CollectAppendDefinition(a: seq<Node>, b: seq<Node>)
    requires a != [] && IsDefinition(a[0])
    requires Collect(a).Ok? && Collect(b).Ok?
    ensures Collect(a + b) == Ok(Collect(a).value + Collect(b).value)
    decreases |a|, 0
  {
    var ab := a + b;
    assert ab[0] == a[0] && ab[1..] == a[1..] + b;
    var c := ToCodeNode(a[0]).value;
    var x := Collect(a[1..]).value;
    var y := Collect(b).value;
    CollectDefinitionFirst(a);
    CollectAppend(a[1..], b);
    CollectDefinitionFirst(ab);
    assert [c] + (x + y) == ([c] + x) + y;
  }

  /** The chain `rest` extended, below it, by the block of a definition and the definition itself. */
  function Scoped(row: nat, kind: string, name: string, defRow: nat, colonRow: nat, rest: seq<Node>): seq<Node> {
    [Other("block", row), Definition(kind, name, defRow, colonRow)] + rest
  }

  /** Walking up through a definition and then `rest` collects that definition first. */
  lemma CollectScoped(row: nat, kind: string, name: string, defRow: nat, colonRow: nat, rest: seq<Node>)
    requires kind == "function_definition" || kind == "class_definition"
    requires Collect(rest).Ok?
    ensures Collect(Scoped(row, kind, name, defRow, colonRow, rest)) == Ok([CodeNode(kind, name, defRow, colonRow)] + Collect(rest).value)
  {
    ScopeSegment(row, kind, name, defRow, colonRow);
    CollectAppend([Other("block", row), Definition(kind, name, defRow, colonRow)], rest);
  }

  /** The chain from the body of class `Test` (row 0) up to the module. */
  function TestClassChain(): seq<Node> {
    Scoped(1, "class_definition", "Test", 0, 0, [Other("module", 0)])
  }

  /** The chain from the body of class `A` (row 1), nested in `Test`. */
  function ClassAChain(): seq<Node> {
    Scoped(2, "class_definition", "A", 1, 1, TestClassChain())
  }

  /** The chain from the body of `test`, whose header runs from row 2 to its `:` on row 4. */
  function TestFunctionChain(): seq<Node> {
    Scoped(5, "function_definition", "test", 2, 4, ClassAChain())
  }

  /**
   * The ancestor chain of `print(22)` on row 6 of the nested test file: the body of `haha`
   * (header on row 5), inside `test`, inside class `A`, inside class `Test`, inside the module.
   */
  function NestedChain(): seq<Node> {
    Scoped(6, "function_definition", "haha", 5, 5, TestFunctionChain())
  }

  lemma TestClassChainCollected()
    ensures Collect(TestClassChain()) == Ok([CodeNode("class_definition", "Test", 0, 0)])
  {
    var root := [Other("module", 0)];
    assert Collect(root) == Ok([]) by { assert root[1..] == []; }
    CollectScoped(1, "class_definition", "Test", 0, 0, root);
    assert [CodeNode("class_definition", "Test", 0, 0)] + [] == [CodeNode("class_definition", "Test", 0, 0)];
  }

  lemma ClassAChainCollected()
    ensures Collect(ClassAChain()) == Ok([CodeNode("class_definition", "A", 1, 1), CodeNode("class_definition", "Test", 0, 0)])
  {
    TestClassChainCollected();
    CollectScoped(2, "class_definition", "A", 1, 1, TestClassChain());
    var cA := CodeNode("class_definition", "A", 1, 1);
    var cTop := CodeNode("class_definition", "Test", 0, 0);
    assert [cA] + [cTop] == [cA, cTop];
  }

  lemma TestFunctionChainCollected()
    ensures Collect(TestFunctionChain()) == Ok([CodeNode("function_definition", "test", 2, 4),
                                                CodeNode("class_definition", "A", 1, 1), CodeNode("class_definition", "Test", 0, 0)])
  {
    ClassAChainCollected();
    CollectScoped(5, "function_definition", "test", 2, 4, ClassAChain());
    var cTest := CodeNode("function_definition", "test", 2, 4);
    var rest := [CodeNode("class_definition", "A", 1, 1), CodeNode("class_definition", "Test", 0, 0)];
    assert [cTest] + rest == [cTest, rest[0], rest[1]];
  }

  lemma NestedChainCollected()
    ensures Collect(NestedChain()) == Ok([CodeNode("function_definition", "haha", 5, 5), CodeNode("function_definition", "test", 2, 4),
                                          CodeNode("class_definition", "A", 1, 1), CodeNode("class_definition", "Test", 0, 0)])
  {
    TestFunctionChainCollected();
    CollectScoped(6, "function_definition", "haha", 5, 5, TestFunctionChain());
    var cHaha := CodeNode("function_definition", "haha", 5, 5);
    var rest := [CodeNode("function_definition", "test", 2, 4),
                 CodeNode("class_definition", "A", 1, 1), CodeNode("class_definition", "Test", 0, 0)];
    assert [cHaha] + rest == [cHaha, rest[0], rest[1], rest[2]];
  }

  /**
   * From inside `haha`, the scopes come back outermost first, each with the row of its
   * header's `:`; the header of `test` spans rows 2 to 4.
   */
  lemma NestedScopesOutermostFirst()
    ensures CodeNodesOf(NestedChain()) ==
              Ok([CodeNode("class_definition", "Test", 0, 0), CodeNode("class_definition", "A", 1, 1),
                  CodeNode("function_definition", "test", 2, 4), CodeNode("function_definition", "haha", 5, 5)])
  {
    var inner := [CodeNode("function_definition", "haha", 5, 5), CodeNode("function_definition", "test", 2, 4),
                  CodeNode("class_definition", "A", 1, 1), CodeNode("class_definition", "Test", 0, 0)];
    NestedChainCollected();
    var v := Reverse(inner);
    assert v == [inner[3], inner[2], inner[1], inner[0]];
  }
}
