# doc-tracking checker — a Dafny model

This project models the core of `checker.py`, the module that decides which
changed line ranges of a Python code base touch code that is marked as
documented by a "doc tag" comment (for example `# test`). The model has these parts:

- **Comment classification** (`classifier.dfy`, `syntax_tree.dfy`). A line is a
  comment line when its parse has exactly one top-level child and that child is
  a comment. It is a tag line when, in addition, one of the tags occurs in that
  comment's text. It is tagged when the first comment found by a pre-order walk
  of its parse holds a tag. Text inside a string literal is never a comment.
- **Scope extraction** (`scopes.dfy`). This is the walk from the node at a line
  up to the root. The walk collects every `function_definition` and
  `class_definition` as a `CodeNode`: its kind, its name, its first line, and
  the line of the `:` that ends its header. The result is ordered outermost
  first. A definition without a name or without a `:` child is an error, as
  the Python code would raise.
- **Backward comment scan** (`comment_scan.dfy`). The loop walks upward from
  a line over comment and blank lines and returns the first line of that run.
  Both versions are modelled: the operator-precedence reading the source
  actually has, and the guarded loop it evidently means. See Findings below.
- **Tracking decision and aggregation** (`tracking.dfy`). These are the two
  passes of `get_doc_tracked_differences`:
  - Pass 1 checks each difference's own lines and the comment run just above
    them.
  - Pass 2 checks the same for each enclosing definition.
  - A tracked difference is added to a per-file set in the result dictionary.

## External inputs

The tree-sitter parser is a function parameter `parse: string -> Node`. So is
the ancestor walk: `named_descendant_for_point_range` followed by repeated
`.parent` is given as `locate: (string, nat) -> seq<Node>`. That sequence is
the located node followed by each of its ancestors up to the root. File
contents and the change list are passed in as a map from path to
`FileChanges` (the file's lines and its differences).

## Model

| member | source | states |
|---|---|---|
| Text.LStrip | checker.py:122 | result is a suffix of the line, everything removed is whitespace, and the result does not start with whitespace |
| Text.RStrip | checker.py:122 | result is a prefix of the line, everything removed is whitespace, and the result does not end with whitespace |
| Text.Strip | checker.py:122 | definition: `str.strip()`, the line with leading and trailing whitespace removed |
| Text.StripEmptyIffBlank | checker.py:122 | `line.strip() == ""` holds exactly when every character of the line is whitespace |
| Text.ContainsIffOccurs | checker.py:53 | the substring test `t in s` holds exactly when `t` occurs in `s` at some index |
| Text.Contains | checker.py:52-54 | the substring test `tag in text`, searched left to right; a match needs the tag to be no longer than the text, and the empty tag always matches |
| Text.Slice | checker.py:53 | slicing clamps its bounds like Python's: it is the plain subsequence when the bounds are in range, and empty when the upper bound is not above the lower |
| SyntaxTree.FindFirstComment | checker.py:24-31 | any node returned is a comment |
| SyntaxTree.FirstCommentAmong | checker.py:27-31 | any node returned from the loop over the children is a comment |
| SyntaxTree.FindFirstCommentIsPreOrderFirst | checker.py:24-31 | the recursive search returns exactly the first comment of the node's pre-order walk |
| SyntaxTree.FirstCommentAmongIsPreOrderFirst | checker.py:27-31 | the loop over the children returns the first comment of the concatenated pre-order walks of those children |
| SyntaxTree.FindFirstCommentSpec | checker.py:24-31 | result is None exactly when no node of the tree is a comment; otherwise it is a comment and no comment comes before it in pre-order |
| SyntaxTree.FirstColonEnd | checker.py:78-81 | result is None exactly when no child is `:`; otherwise it is the end point of the first `:` child |
| SyntaxTree.RetrieveEndPoint | checker.py:74-81 | result is None exactly when the node has no `:` child; otherwise it is the end point of its first `:` child |
| SyntaxTree.EndPointOfFunctionHeader | tests/checker/test_checker_python.py:108-131 | the header `def fct():` ends at row 0, column 10; a statement without a `:` child gives None |
| Classifier.AnyTagIn | checker.py:52-54 | the loop over the tags answers true exactly when some tag is a substring of the text |
| Classifier.NodeText | checker.py:53 | `line[start_byte:end_byte]`: never longer than the line, and empty when the node's end does not come after its start |
| Classifier.LineIsComment | checker.py:33-41 | a comment line whose root is not itself a comment has exactly one child, and that child is the line's first comment |
| Classifier.LineIsTag | checker.py:43-55 | true exactly when the line is a comment line and some tag occurs in its single comment's text; a tag line is a comment line; with no tags nothing is a tag line |
| Classifier.LineIsTagged | checker.py:57-71 | true exactly when the line's first comment exists and some tag occurs in its text; with no tags nothing is tagged |
| Classifier.TagLineIsTagged | checker.py:43-71 | every tag line is also a tagged line |
| Classifier.BlankLinesParseEmpty | checker.py:33-41 | definition: the assumption that tree-sitter's parse of a blank line holds no comment node anywhere |
| Classifier.BlankLineIsUnclassified | tests/checker/test_checker_python.py:31-62 | under that assumption a blank line, the empty line of the tests included, is neither a comment line, nor a tag line, nor a tagged line |
| Classifier.NoCommentNoTag | checker.py:57-71 | a line whose parse contains no comment is neither tagged nor a tag line |
| Classifier.TrailingCommentIsTaggedNotTag | tests/checker/test_checker_python.py:43-62 | for `print(22) # comment` with tag `# comment`, the line is tagged but is not a tag line |
| Classifier.StringLiteralHoldsTag | tests/checker/test_checker_python.py:70 | the raw text of `str = '# comment'` does contain the tag |
| Classifier.StringLiteralIsNotTagged | tests/checker/test_checker_python.py:65-82 | yet that line, whose parse holds the tag only in a string literal, is not tagged |
| Scopes.CodeNode | checker.py:11-16 | definition: the `CodeNode` dataclass as a value: the node type, the name, the first row and the row of the header's `:` |
| Scopes.IsDefinition | checker.py:100 | definition: the test `typ in ('function_definition', 'class_definition')` of the Python branch |
| Scopes.ToCodeNode | checker.py:100-102 | a definition converts to a CodeNode with its kind, name and start row, and with the row where its first `:` ends; a missing name or a missing `:` is an error, and a missing name is reported first |
| Scopes.Definitions | checker.py:98-100 | the walk keeps only function and class definitions, all taken from the chain, and keeps every definition of the chain; it keeps none exactly when the chain has none |
| Scopes.DefinitionsAppend | checker.py:98-110 | the filter keeps walk order: the definitions of a joined chain are those of its first part followed by those of its second |
| Scopes.Reverse | checker.py:112 | `contexts[::-1]` has the same length, with index i holding element length-1-i |
| Scopes.Collect | checker.py:97-110 | definition: the `contexts` list after the walk, in walk order, or the first exception; its properties are those of Scopes.CollectErr and Scopes.CollectOk |
| Scopes.CodeNodesOf | checker.py:83-112 | definition: get_structure_code_nodes on a chain, the collected list reversed; its properties are those of Scopes.CodeNodesOfSpec |
| Scopes.CollectErr | checker.py:97-110 | the walk fails exactly when some definition on the chain is ill-formed |
| Scopes.CollectOk | checker.py:97-110 | a successful walk yields one CodeNode per definition, in walk order (innermost first) |
| Scopes.CollectDefinitionFirst | checker.py:99-102 | a well-formed definition met first on the walk is appended before whatever the walk collects above it |
| Scopes.CollectAppend | checker.py:97-110 | walking a chain made of two parts collects the first part's CodeNodes followed by the second part's |
| Scopes.CodeNodesOfSpec | checker.py:83-112 | the result fails exactly when some definition is ill-formed; otherwise it has one CodeNode per definition, outermost first, and is empty when there are no definitions |
| Scopes.GetStructureCodeNodes | checker.py:93-112 | the loop over the ancestor chain returns exactly the outermost-first list of CodeNodes, or the first error |
| Scopes.TestClassChainCollected | tests/checker/test_checker_python.py:155-158 | inside class `Test` alone, the walk collects `Test(0,0)` |
| Scopes.ClassAChainCollected | tests/checker/test_checker_python.py:160-164 | inside class `A` within `Test`, the walk collects `A(1,1)` and then `Test(0,0)` |
| Scopes.TestFunctionChainCollected | tests/checker/test_checker_python.py:166-171 | inside `test`, the walk collects `test(2,4)`, `A(1,1)` and `Test(0,0)` |
| Scopes.NestedChainCollected | tests/checker/test_checker_python.py:187-193 | from row 6 of the nested test file, inside `haha`, the walk collects `haha`, `test`, `A` and `Test`, innermost first |
| Scopes.NestedScopesOutermostFirst | tests/checker/test_checker_python.py:187-193 | for that chain the scopes come back as `[Test(0,0), A(1,1), test(2,4), haha(5,5)]`: outermost first, and the header of `test` ends on row 4, not on the row it starts |
| CommentScan.CommentRunStart | checker.py:120-124 | result is at most the index; every line from it up to the index is a comment or blank; the line just above it, if any, is neither |
| CommentScan.CommentRunStartUnique | checker.py:120-124 | those three properties determine the start of the run uniquely |
| CommentScan.Skippable | checker.py:122 | definition: the loop condition of the intended scan, a comment line or a line that strips to nothing |
| CommentScan.GetLastCommentLineBeforeIndex | checker.py:120-124 | the guarded scan loop returns the start of the comment/blank run ending just above the index |
| CommentScan.PyIndex | checker.py:122 | Python indexing `lines[i]` with `-n <= i < n` reaches element i, or element n+i when i is negative |
| CommentScan.TrailingBlanks | checker.py:122 | counts the blank lines at the end of the file: all of them are blank, and the line before them is not |
| CommentScan.AsWrittenRunStart | checker.py:120-124 | closed form of the loop as written: when it returns, its result lies above -len(lines) and at most the intended start, equals that start when positive, and is None exactly when the run reaches the top of a file whose every line is blank |
| CommentScan.GetLastCommentLineBeforeIndexAsWritten | checker.py:120-124 | the loop as written either returns the run start when that is positive, or wraps around to minus the number of trailing blank lines, or fails with an index error when every line is blank |
| CommentScan.TrailingAllBlank | checker.py:122 | in an all-blank file, every line is a trailing blank |
| CommentScan.TrailingBlanksUnique | checker.py:122 | the trailing-blank count is determined by its defining properties |
| CommentScan.AsWrittenScanWrapsAround | checker.py:120-124 | for `["x = 1\n", "\n"]` at index 0 the loop as written returns -1 where the intended result is 0 |
| CommentScan.AsWrittenScanFailsOnBlankFile | checker.py:120-124 | for `["\n"]` at index 0 the loop as written indexes out of range |
| CommentScan.AsWrittenDecisionAgrees | checker.py:138-142 | assuming tree-sitter's parse of a blank line holds no comment (Classifier.BlankLinesParseEmpty), whenever the loop as written returns, the tag search over `range(start, from)` gives the same answer as with the corrected start |
| CommentScan.PyRangeHasTag | checker.py:139-142 | definition: the `for i in range(lo, hi): line_is_tag(lines[i])` search with Python's negative indexing |
| CommentScan.CommentRunOverBlankLines | tests/checker/test_checker_python.py:84-105 | the run above line 5 in the first test file skips two blank lines and two comments and starts at line 1 |
| Tracking.Difference | checker.py:19-22 | definition: the `Difference` dataclass as an immutable value, a first and a last changed line |
| Tracking.AddTracked | checker.py:150 | adding a difference to a path keeps the other entries, creates the entry if missing, and adds the difference to that path's set |
| Tracking.Concat | checker.py:135 | definition: `"".join(lines)`, the content handed to the scope search |
| Tracking.AddTrackedIdempotent | checker.py:150 | adding the same difference twice is the same as adding it once |
| Tracking.AddTrackedCommutes | checker.py:132-168 | the order of additions does not change the result, so neither does dictionary iteration order |
| Tracking.CheckRange | checker.py:137-148 | the two early-exit loops answer exactly "a tag line in the comment run above the range, or a tagged line inside it" |
| Tracking.AnyNodeTracked | checker.py:155-168 | definition: the header of one of the first m code nodes passes the two checks of Tracking.CheckRange |
| Tracking.AddTrackedPut | checker.py:150 | adding to a path's accumulated set extends that set by the difference |
| Tracking.RangeTrackedAmongStep | checker.py:136-150 | pass 1 over one more difference adds that difference exactly when its own range is tracked |
| Tracking.ScopeTrackedAmongStep | checker.py:152-168 | pass 2 over one more difference adds that difference exactly when one of its enclosing definitions is tracked |
| Tracking.TrackedInSplits | checker.py:136-168 | a file's tracked set is the union of the differences found by the two passes |
| Tracking.AddRangeTracked | checker.py:136-150 | pass 1 records, for the file, exactly the differences whose own range is tracked |
| Tracking.AddIfScopeTracked | checker.py:153-168 | the loop over one difference's code nodes adds it exactly when some enclosing definition is tracked |
| Tracking.AddScopeTracked | checker.py:152-168 | pass 2 adds to the file's set exactly the differences with a tracked enclosing definition |
| Tracking.GetDocTrackedDifferences | checker.py:126-170 | the result equals the specification: each file maps to its tracked differences, and files with none are absent |
| Tracking.TrackedDifferences | checker.py:126-170 | the reference result: only changed files appear, every entry is non-empty, and every entry holds only differences of that file |
| Tracking.TrackedDifferencesSpec | checker.py:126-170 | result keys are among the changed files, no entry is empty, and d is listed for p exactly when d is a difference of p tracked by range or by scope |
| Tracking.NoDifferencesNothingTracked | tests/checker/test_checker_python.py:403-409 | with no differences the result is the empty dictionary |
| Tracking.NoTagsNothingTracked | checker.py:126-170 | with an empty tag list nothing is tracked |
| Tracking.TaggedFunctionScopes | checker.py:154 | in the example file the changed line lies in one function, `f`, whose header is line 1 |
| Tracking.TaggedFunctionTracksItsBody | checker.py:152-168 | a change in the body of a function preceded by a tag line is tracked through its scope, and the result maps the file to that difference |

## Left out

- Parsing is taken as the `parse` and `locate` parameters. Tree-sitter's grammar, `named_descendant_for_point_range`, `child_by_field_name`, `.parent` and `.text.decode()` are not modelled. A definition's name text is a field of `Node`.
- Byte offsets and character offsets are taken to be equal. Lines are assumed ASCII, so `line[start_byte:end_byte]` slices characters. UTF-8 multi-byte text is not modelled.
- `str.strip()` is modelled for ASCII whitespace and the separators 28–31. Unicode whitespace beyond that is not modelled.
- The `language` parameter is fixed to `"python"`. The JavaScript and HTML branches of `get_structure_code_nodes` (checker.py:103-109) are left out.
- File I/O (`open`, `readlines`) and `get_differences` are left out. `get_differences` has an empty body in checker.py, so the model takes the changed files and their differences as input. Hunk parsing and the two-sided git difference used by the tests are not part of this model.
- `Difference` is declared in checker.py with `@dataclass class Difference(frozen=True)`. Python rejects that keyword at class creation. The model reads the intent instead: an immutable, hashable value, written as a datatype.
- `CodeNode`'s defaults are not modelled. Every CodeNode is built with all four fields.
- The truthiness tests `if result:` and `while node:` are taken to be "is not None"; a tree-sitter node is always truthy.
- Tracking.GetDocTrackedDifferences: requires every difference's range to lie within its file, and every enclosing definition to have a name and a `:`. When one of them fails, checker.py raises `IndexError`, `AttributeError` or `TypeError`; the model does not include the exception paths of the aggregation. The exception paths of scope extraction alone are modelled, in `Scopes.GetStructureCodeNodes`.
- Tracking.CheckRange: requires the range to start within the file (`0 <= from <= |lines|`) and, when it is non-empty, to end inside it. checker.py would raise `IndexError` or read from the end of the list otherwise. The check runs on the corrected backward scan. `CommentScan.AsWrittenDecisionAgrees` shows the scan as written gives the same decision whenever it returns, assuming tree-sitter's parse of a blank line holds no comment node (`Classifier.BlankLinesParseEmpty`).
- Tracking.GetDocTrackedDifferences: a file that is empty, or whose lines are all blank, makes the scan at checker.py:122 raise `IndexError` in pass 1, which stops the whole run. The model uses the corrected scan there and returns a map. `CommentScan.AsWrittenScanFailsOnBlankFile` records the exception.
- `run()`, the command-line interface, configuration and output formatting are outside the core and are not modelled.

## Findings

| source | as written | input that shows it | evidently intended | confidence | as-written member | corrected member |
|---|---|---|---|---|---|---|
| checker.py:122 | `i > -1 and line_is_comment(lines[i]) or lines[i].strip() == ""` groups as `(i > -1 and comment) or blank`, so the blank test runs at i = -1 and reads `lines[-1]`, the last line | lines `["x = 1\n", "\n"]`, index 0: the file ends in a blank line, so the scan steps to i = -2 and returns -1 instead of 0 | the guard `i > -1` covers both tests, and the result is never negative | not executed | CommentScan.AsWrittenScanWrapsAround | CommentScan.GetLastCommentLineBeforeIndex |
| checker.py:122 | same expression: when every line is blank the blank test keeps succeeding for negative i until `lines[i]` is out of range | lines `["\n"]`, index 0: the scan reads `lines[-1]` and then `lines[-2]`, which raises IndexError | the scan stops at the top of the file and returns 0 | not executed | CommentScan.AsWrittenScanFailsOnBlankFile | CommentScan.GetLastCommentLineBeforeIndex |
