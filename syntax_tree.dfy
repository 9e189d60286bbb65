/**
 * The concrete syntax tree that tree-sitter hands to checker.py, seen only through
 * the attributes the checker reads, and the two searches the checker runs over it:
 * `find_first_comment` (checker.py:24-31) and `retrieve_end_point` (checker.py:74-81).
 */
module SyntaxTree {
  import opened Results

  /** A tree-sitter point: 0-based row and column. */
  datatype Point = Point(row: nat, column: nat)

  /**
   * A tree-sitter node: its grammar type, its byte span in the parsed text, its start
   * and end points, the text of its `name` field child if it has one, and its children
   * in source order.
   */
  datatype Node = Node(
    kind: string,
    startByte: nat,
    endByte: nat,
    startPoint: Point,
    endPoint: Point,
    nameText: Option<string>,
    children: seq<Node>)

  /** The subtree of `n` listed in pre-order: `n` first, then each child's subtree left to right. */
  function PreOrder(n: Node): seq<Node>
    decreases n, 1
  {
    [n] + PreOrderAll(n.children)
  }

  /** The pre-order listings of `ns`, concatenated. */
  function PreOrderAll(ns: seq<Node>): seq<Node>
    decreases ns, 0
  {
    if ns == [] then [] else PreOrder(ns[0]) + PreOrderAll(ns[1..])
  }

  /** The first node of `s` whose type is `comment`, if any. */
  function FirstComment(s: seq<Node>): (r: Option<Node>)
    ensures r.None? <==> forall k | 0 <= k < |s| :: s[k].kind != "comment"
    ensures r.Some? ==> exists k | 0 <= k < |s| :: s[k] == r.value && s[k].kind == "comment" &&
                          forall j | 0 <= j < k :: s[j].kind != "comment"
  {
    if s == [] then None
    else if s[0].kind == "comment" then Some(s[0])
    else FirstComment(s[1..])
  }

  lemma {:induction false} FirstCommentAppend(a: seq<Node>, b: seq<Node>)
    ensures FirstComment(a + b) == if FirstComment(a).Some? then FirstComment(a) else FirstComment(b)
  {
    if a == [] {
      assert a + b == b;
    } else {
      assert (a + b)[1..] == a[1..] + b;
      FirstCommentAppend(a[1..], b);
    }
  }

  /**
   * find_first_comment: the node itself when it is a comment; otherwise the first
   * comment found in the children's subtrees, left to right; None when there is none.
   */
  function FindFirstComment(node: Node): (r: Option<Node>)
    ensures r.Some? ==> r.value.kind == "comment"
    decreases node, 1
  {
    if node.kind == "comment" then Some(node) else FirstCommentAmong(node.children)
  }

  /** The `for child in node.children` loop of find_first_comment, with its early return. */
  function FirstCommentAmong(nodes: seq<Node>): (r: Option<Node>)
    ensures r.Some? ==> r.value.kind == "comment"
    decreases nodes, 0
  {
    if nodes == [] then None
    else match FindFirstComment(nodes[0])
      case Some(c) => Some(c)
      case None => FirstCommentAmong(nodes[1..])
  }

  /** The depth-first, leftmost-first search finds exactly the first comment in pre-order. */
  lemma {:induction false} FindFirstCommentIsPreOrderFirst(node: Node)
    ensures FindFirstComment(node) == FirstComment(PreOrder(node))
    decreases node, 1
  {
    FirstCommentAppend([node], PreOrderAll(node.children));
    if node.kind != "comment" {
      FirstCommentAmongIsPreOrderFirst(node.children);
    }
  }

  lemma {:induction false} FirstCommentAmongIsPreOrderFirst(nodes: seq<Node>)
    ensures FirstCommentAmong(nodes) == FirstComment(PreOrderAll(nodes))
    decreases nodes, 0
  {
    if nodes != [] {
      FindFirstCommentIsPreOrderFirst(nodes[0]);
      FirstCommentAmongIsPreOrderFirst(nodes[1..]);
      FirstCommentAppend(PreOrder(nodes[0]), PreOrderAll(nodes[1..]));
    }
  }

  /**
   * The consequences the callers of find_first_comment rely on: it returns None exactly
   * when no node of the subtree is a comment, and otherwise a comment of the subtree
   * preceded in pre-order by no other comment.
   */
  lemma FindFirstCommentSpec(node: Node)
    ensures FindFirstComment(node).None? <==>
              forall k | 0 <= k < |PreOrder(node)| :: PreOrder(node)[k].kind != "comment"
    ensures FindFirstComment(node).Some? ==>
              exists k | 0 <= k < |PreOrder(node)| :: PreOrder(node)[k] == FindFirstComment(node).value &&
                forall j | 0 <= j < k :: PreOrder(node)[j].kind != "comment"
  {
    FindFirstCommentIsPreOrderFirst(node);
  }

  /** The `for child in node.children` loop of retrieve_end_point: the end point of the first `:` child. */
  function FirstColonEnd(children: seq<Node>): (r: Option<Point>)
    ensures r.None? <==> forall i | 0 <= i < |children| :: children[i].kind != ":"
    ensures r.Some? ==> exists i | 0 <= i < |children| ::
              children[i].kind == ":" && r.value == children[i].endPoint &&
              forall j | 0 <= j < i :: children[j].kind != ":"
  {
    if children == [] then None
    else if children[0].kind == ":" then Some(children[0].endPoint)
    else FirstColonEnd(children[1..])
  }

  /**
   * retrieve_end_point: the end point of the first child whose type is `:` (the colon
   * that opens a definition's body), None exactly when no child has that type.
   */
  function RetrieveEndPoint(node: Node): (r: Option<Point>)
    ensures r.None? <==> forall i | 0 <= i < |node.children| :: node.children[i].kind != ":"
    ensures r.Some? ==> exists i | 0 <= i < |node.children| ::
              node.children[i].kind == ":" && r.value == node.children[i].endPoint &&
              forall j | 0 <= j < i :: node.children[j].kind != ":"
  {
    FirstColonEnd(node.children)
  }

  /** The header `def fct():`: the end point of its colon is row 0, column 10; a call statement has no colon. */
  lemma EndPointOfFunctionHeader()
    ensures RetrieveEndPoint(Node("function_definition", 0, 24, Point(0, 0), Point(1, 13), Some("fct"), [
              Node("def", 0, 3, Point(0, 0), Point(0, 3), None, []),
              Node("identifier", 4, 7, Point(0, 4), Point(0, 7), None, []),
              Node("parameters", 7, 9, Point(0, 7), Point(0, 9), None, []),
              Node(":", 9, 10, Point(0, 9), Point(0, 10), None, []),
              Node("block", 15, 24, Point(1, 4), Point(1, 13), None, [])])) == Some(Point(0, 10))
    ensures RetrieveEndPoint(Node("expression_statement", 0, 9, Point(0, 0), Point(0, 9), None, [
              Node("call", 0, 9, Point(0, 0), Point(0, 9), None, [])])) == None
  {
  }
}
