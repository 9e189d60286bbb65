/**
 * The comment classifier of checker.py (lines 33-71): whether a single source line is a
 * comment alone, a comment alone that carries a tag, or any line whose first comment
 * carries a tag. Parsing is tree-sitter's and is not modelled: it is the parameter
 * `parse`, the root node tree-sitter's Python grammar gives for the line.
 */
module Classifier {
  import opened Results
  import opened Text
  import opened SyntaxTree

  /** `Parser(PY_LANGUAGE).parse(bytes(line, 'utf8')).root_node`, as a function of the line. */
  type Parse = string -> Node

  /** The text a node spans in its line: `line[node.start_byte:node.end_byte]`. */
  function NodeText(line: string, node: Node): (r: string)
    ensures |r| <= |line|
    ensures node.endByte <= node.startByte ==> r == ""
  {
    Slice(line, node.startByte, node.endByte)
  }

  /** The `for tag in tags: if tag in text: return True` loop; matching is plain substring containment. */
  function AnyTagIn(tags: seq<string>, text: string): (r: bool)
    ensures r <==> exists k | 0 <= k < |tags| :: Contains(text, tags[k])
  {
    if tags == [] then false
    else if Contains(text, tags[0]) then true
    else AnyTagIn(tags[1..], text)
  }

  /**
   * line_is_comment: the parse of the line has exactly one top-level child, a comment.
   * That comment is then also the first comment of the whole tree.
   */
  function LineIsComment(parse: Parse, line: string): (r: bool)
    ensures r && parse(line).kind != "comment" ==>
              |parse(line).children| == 1 && FindFirstComment(parse(line)) == Some(parse(line).children[0])
  {
    var children := parse(line).children;
    if |children| == 1 && children[0].kind == "comment" then
      assert FindFirstComment(children[0]) == Some(children[0]);
      true
    else false
  }

  /** line_is_tag: a comment-only line whose comment text contains one of the tags. */
  function LineIsTag(parse: Parse, tags: seq<string>, line: string): (r: bool)
    ensures r ==> LineIsComment(parse, line)
    ensures r <==> LineIsComment(parse, line) &&
                   exists k | 0 <= k < |tags| :: Contains(NodeText(line, parse(line).children[0]), tags[k])
    ensures tags == [] ==> !r
  {
    var children := parse(line).children;
    if |children| == 1 && children[0].kind == "comment" then AnyTagIn(tags, NodeText(line, children[0]))
    else false
  }

  /**
   * line_is_tagged: the first comment of the line's tree (a trailing comment after code
   * counts) exists and its text contains one of the tags.
   */
  function LineIsTagged(parse: Parse, tags: seq<string>, line: string): (r: bool)
    ensures r <==> FindFirstComment(parse(line)).Some? &&
                   exists k | 0 <= k < |tags| :: Contains(NodeText(line, FindFirstComment(parse(line)).value), tags[k])
    ensures tags == [] ==> !r
  {
    match FindFirstComment(parse(line))
    case None => false
    case Some(comment) => AnyTagIn(tags, NodeText(line, comment))
  }

  /** Tree-sitter finds no comment node anywhere in the parse of a blank line (the empty line included). */
  ghost predicate BlankLinesParseEmpty(parse: Parse) {
    forall line :: IsBlank(line) ==> forall k | 0 <= k < |PreOrder(parse(line))| :: PreOrder(parse(line))[k].kind != "comment"
  }

  /** Under that parse, a blank line is neither a comment line, nor a tag line, nor a tagged line. */
  lemma BlankLineIsUnclassified(parse: Parse, tags: seq<string>, line: string)
    requires BlankLinesParseEmpty(parse)
    requires IsBlank(line)
    ensures !LineIsComment(parse, line) && !LineIsTag(parse, tags, line) && !LineIsTagged(parse, tags, line)
  {
    NoCommentNoTag(parse, tags, line);
  }

  /** Every tag line is a tagged line, as long as the root itself is not a comment node. */
  lemma TagLineIsTagged(parse: Parse, tags: seq<string>, line: string)
    requires parse(line).kind != "comment"
    ensures LineIsTag(parse, tags, line) ==> LineIsTagged(parse, tags, line)
  {
  }

  /**
   * Classification looks only at comment nodes: a line whose tree holds no comment is
   * neither a tag line nor a tagged line, whatever characters its text contains.
   */
  lemma NoCommentNoTag(parse: Parse, tags: seq<string>, line: string)
    requires forall k | 0 <= k < |PreOrder(parse(line))| :: PreOrder(parse(line))[k].kind != "comment"
    ensures !LineIsComment(parse, line) && !LineIsTag(parse, tags, line) && !LineIsTagged(parse, tags, line)
  {
    var root := parse(line);
    FindFirstCommentSpec(root);
    if root.children != [] {
      assert PreOrderAll(root.children) == PreOrder(root.children[0]) + PreOrderAll(root.children[1..]);
      assert PreOrderAll(root.children)[0] == root.children[0];
      assert PreOrder(root)[1] == root.children[0];
    }
  }

  /** The tree tree-sitter gives for `print(22) # comment`: a call statement and a trailing comment. */
  function TrailingCommentTree(): Node {
    Node("module", 0, 19, Point(0, 0), Point(0, 19), None, [
      Node("expression_statement", 0, 9, Point(0, 0), Point(0, 9), None, [
        Node("call", 0, 9, Point(0, 0), Point(0, 9), None, [])]),
      Node("comment", 10, 19, Point(0, 10), Point(0, 19), None, [])])
  }

  /** A tag in a comment that follows code makes the line tagged but not a tag line. */
  lemma TrailingCommentIsTaggedNotTag(parse: Parse)
    requires parse("print(22) # comment") == TrailingCommentTree()
    ensures !LineIsComment(parse, "print(22) # comment")
    ensures !LineIsTag(parse, ["# comment"], "print(22) # comment")
    ensures LineIsTagged(parse, ["# comment"], "print(22) # comment")
  {
    var line := "print(22) # comment";
    var root := TrailingCommentTree();
    assert FindFirstComment(root.children[0].children[0]) == None;
    assert FindFirstComment(root.children[0]) == None;
    assert FindFirstComment(root) == Some(root.children[1]);
    assert NodeText(line, root.children[1]) == "# comment";
    assert Contains("# comment", "# comment");
  }

  /** The tree tree-sitter gives for `str = '# comment'`: an assignment of a string literal. */
  function StringLiteralTree(): Node {
    Node("module", 0, 17, Point(0, 0), Point(0, 17), None, [
      Node("expression_statement", 0, 17, Point(0, 0), Point(0, 17), None, [
        Node("assignment", 0, 17, Point(0, 0), Point(0, 17), None, [
          Node("identifier", 0, 3, Point(0, 0), Point(0, 3), None, []),
          Node("=", 4, 5, Point(0, 4), Point(0, 5), None, []),
          Node("string", 6, 17, Point(0, 6), Point(0, 17), None, [
            Node("string_start", 6, 7, Point(0, 6), Point(0, 7), None, []),
            Node("string_content", 7, 16, Point(0, 7), Point(0, 16), None, []),
            Node("string_end", 16, 17, Point(0, 16), Point(0, 17), None, [])])])])])
  }

  /** The raw text of `str = '# comment'` does hold the tag `# comment`, inside the string literal. */
  lemma StringLiteralHoldsTag()
    ensures Contains("str = '# comment'", "# comment")
  {
    var line := "str = '# comment'";
    assert line[7..16] == "# comment";
    assert OccursAt(line, "# comment", 7);
    ContainsIffOccurs(line, "# comment");
  }

  /** A tag inside a string literal is not a comment: the line is not tagged although its text holds the tag. */
  lemma StringLiteralIsNotTagged(parse: Parse)
    requires parse("str = '# comment'") == StringLiteralTree()
    ensures FindFirstComment(parse("str = '# comment'")) == None
    ensures !LineIsTagged(parse, ["# comment"], "str = '# comment'")
  {
    var root := StringLiteralTree();
    var str := root.children[0].children[0].children[2];
    assert FirstCommentAmong(str.children) == None;
    assert FindFirstComment(str) == None;
    assert FindFirstComment(root.children[0].children[0]) == None;
    assert FindFirstComment(root.children[0]) == None;
  }
}
