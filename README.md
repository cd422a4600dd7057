# odt2markdown in Dafny

A model of `odt2markdown.py`. This program reads the content tree of an
OpenDocument text file and writes Markdown-like text. The model covers:

- **The automatic-style table** (`OdfStyle`, `scan_style`, `odf_get_styles`).
  Each style definition is flattened into a string-to-string dictionary. Three
  font fields are then lifted out of it.
- **Style lookup and code classification** (`odf_get_node_style`,
  `odf_is_span_code`, `odf_p_is_all_code`).
- **Inline rendering** (`odf_process_space`, `odf_process_span_spaces`,
  `markdown`, `odf_process_span`, `odf_process_p`).
- **Block sequencing** (`odf_process_nodes`). A two-state machine chooses the
  separator before each block.
- **List rendering** (`odf_process_list`).
- **Table extraction** (`odf_parse_extract_table`).

Layout:

| file | module | contents |
|---|---|---|
| `wrappers.dfy` | `Wrappers` | `Option` and `Result` |
| `strings.dfy` | `Strings` | `str.strip()`, `startswith`, `in`, `' ' * n`, `join`, `int()` |
| `tree.dfy` | `Tree` | the content tree and `odf_node_get_attribute_value` |
| `styles.dfy` | `Styles` | the style table and `odf_get_node_style` |
| `inline.dfy` | `Inline` | spaces, spans, `markdown`, the all-code test, paragraphs |
| `blocks.dfy` | `Blocks` | `odf_process_nodes` and `odf_process_list` |
| `tables.dfy` | `Tables` | `odf_parse_extract_table` |

Modelling choices:

- **The tree.** A node is `Element(local, attrs, children)` or `Text(data)`.
  Namespaces are dropped, so an element or attribute is known by its local
  name. Attributes are a sequence of `(name, value)` pairs in document order.
- **Loops are methods.** Each loop of the source is a method with loop
  invariants. Each method is proved equal to a recursive specification
  function, for example `ScanStyle` to `StyleDict` and `PIsAllCode` to
  `AllCode`. The properties the program promises are lemmas about those
  functions.
- **Nested loops are split.** The nested loops of `odf_parse_extract_table`
  become three methods, one per level: tables, rows and cells. The body of
  the loop in `odf_p_is_all_code` is the method `ChildFlags`.
- **The style table is an argument.** The source reaches the table through
  the owner document. Here every rendering operation receives it explicitly.
- **Document-library calls are parameters.** `getElementsByType` becomes
  `byType(n, kind)`: the elements of that kind below `n`, in document order.
  `str(cell)` becomes `textOf(cell)`.
- **Warnings are a value.** The warnings list of the table extractor is passed
  in and returned.
- **Whitespace.** `strip()` removes the characters that Python 2's `unicode`
  type treats as whitespace.

## Model

| member | source | states |
|---|---|---|
| Strings.Strip | odt2markdown.py:304 | `str.strip()` returns a slice of its input; everything around the slice is whitespace, and the result neither starts nor ends with whitespace |
| Strings.StripEmptyIffBlank | odt2markdown.py:161 | `text.strip() == ''` holds exactly when every character of `text` is whitespace |
| Strings.Spaces | odt2markdown.py:77 | `" " * value` is `value` spaces, and no spaces when `value` is not positive |
| Tree.AttributeValue | odt2markdown.py:332-338 | the lookup gives nothing exactly when no attribute has that local name; otherwise it gives the value of the first attribute that does |
| Tree.NodeGetAttributeValue | odt2markdown.py:332-338 | the scan over the attributes, stopping at the first match, returns `AttributeValue` |
| Styles.ScanStyle | odt2markdown.py:322-329 | `scan_style` returns the dictionary `StyleDict(s)`: own attributes are written first, then each child's attributes; a later write of a key replaces an earlier one |
| Styles.AssignKeys | odt2markdown.py:322-329 | the keys of the filled dictionary are exactly the keys written to it |
| Styles.AssignLastWriteWins | odt2markdown.py:322-329 | each key holds the value of its last write |
| Styles.ChildWritesMembers | odt2markdown.py:326-328 | the children's writes are exactly the pairs (`child/attr`, value) over every child and every attribute |
| Styles.StyleDictOwnAttributes | odt2markdown.py:324-325 | when keys are distinct, every own attribute is in the dictionary under its local name with its value |
| Styles.StyleDictChildAttributes | odt2markdown.py:326-328 | when keys are distinct, every child attribute is in the dictionary under `child/attr` with its value |
| Styles.StyleDictNoOtherKeys | odt2markdown.py:322-329 | every key of the dictionary is an own attribute name or a `child/attr` name |
| Styles.GetStyles | odt2markdown.py:29-53 | the loop over the style definitions builds `StyleTableOf(autos)`: one entry per distinct name, built from the last definition carrying that name |
| Styles.LastNamedIsLast | odt2markdown.py:36-40 | `LastNamed` finds the last definition carrying a name; no later definition carries it |
| Styles.StyleTableHasEveryName | odt2markdown.py:36-41 | every named definition has an entry in the table |
| Styles.StyleTableFontsLifted | odt2markdown.py:41-51 | every entry carries its own name; its font weight, name and style are the `text-properties/...` dictionary entries, or `''` when a key is absent |
| Styles.StyleEntryFromLastDefinition | odt2markdown.py:36-51 | a name has an entry exactly when some definition carries it; the entry is built from the dictionary of the last such definition |
| Styles.NodeStyle | odt2markdown.py:81-98 | a node has a style exactly when it is an element whose `style-name` attribute names an entry of the table; the style is that entry |
| Styles.NodeStyleCarriesName | odt2markdown.py:38-41 | with a table from `odf_get_styles`, the style found for a node has the name the node asked for |
| Inline.ProcessSpace | odt2markdown.py:71-78 | the result is all spaces; it is one space when `c` is absent or empty; otherwise its length is `int(c)`, with whitespace around the numeral ignored as `int()` ignores it, and zero when that is negative |
| Inline.ProcessSpanSpaces | odt2markdown.py:55-68 | the loop returns the span's run `SpanRun`, which is never empty |
| Inline.RunTextAppend | odt2markdown.py:57-65 | the run of two child lists is the run of the first followed by the run of the second |
| Inline.SpanRunNeverEmpty | odt2markdown.py:66-68 | the run is the in-order concatenation of the pieces, or a single space when that concatenation is empty |
| Inline.IsSpanCode | odt2markdown.py:101-108 | `no style` exactly when there is no style or its font name is empty; `code` exactly when the font name contains `Courier`; `no code` otherwise |
| Inline.ParagraphCodeImpliesSpanCode | odt2markdown.py:101-108 | a node whose font name starts with `Courier` (the paragraph test) is also classified `code` by the span test, which only asks for `Courier` somewhere in the name |
| Inline.CourierInsideNameIsSpanCodeOnly | odt2markdown.py:179-181 | the converse fails: a style whose font name is `X-Courier` makes a `code` span but not a code paragraph |
| Inline.Markdown | odt2markdown.py:160-172 | whitespace-only text is returned unchanged; otherwise the first of these that applies is used: backticks (`handle_code` and a Courier font), `__` (bold), `_` (italic), none |
| Inline.MarkdownSingleWrap | odt2markdown.py:160-172 | the result is always `m + text + m` for one marker `m` of `''`, `` ` ``, `__` or `_`, so the text sits unchanged in the middle |
| Inline.CodeDecorationWins | odt2markdown.py:164-167 | a bold, italic Courier style with `handle_code` gets backticks only |
| Inline.NoCodeDecorationWithoutHandleCode | odt2markdown.py:164-171 | without `handle_code` the result is never wrapped in backticks |
| Inline.ProcessSpan | odt2markdown.py:146-157 | the span's run, unchanged without a style and decorated by `markdown` with one |
| Inline.CodeBlockSpansHaveNoBackticks | odt2markdown.py:186-192 | in an all-code paragraph a span is rendered as its run, `__run__` or `_run_`, never in backticks |
| Inline.RaisedIffSomeChildSets | odt2markdown.py:115-131 | a flag of the paragraph test is raised exactly when some child sets it |
| Inline.ChildFlags | odt2markdown.py:116-131 | for one child: a non-blank span raises the flag of its classification; a text child raises "has code" in a Courier paragraph and "has no code" otherwise |
| Inline.PIsAllCode | odt2markdown.py:111-142 | the loop and the final test return `AllCode(p, p_is_code)` |
| Inline.AllCodeCharacterization | odt2markdown.py:111-142 | with `p_is_code`: false exactly when some non-blank span is `no code`. Without it: true exactly when some non-blank span is `code`, none is `no code` or `no style`, and there is no text child |
| Inline.InsertKeepsFlag | odt2markdown.py:119-120 | inserting a child that sets no flag leaves every flag as it was |
| Inline.BlankSpanIgnored | odt2markdown.py:119-120 | inserting a span whose run is whitespace-only, anywhere in a paragraph, never changes the all-code verdict |
| Inline.ProcessP | odt2markdown.py:175-212 | the loop returns `RenderParagraph(p)` |
| Inline.ParagraphTextAppend | odt2markdown.py:188-200 | the paragraph text of two child lists is the text of the first followed by the text of the second |
| Inline.ParagraphCases | odt2markdown.py:184-212 | no paragraph style: the plain concatenation, yet with spans rendered with `handle_code = not all-code`, so a style-less paragraph of code spans gets neither backticks nor the indent. All code: four spaces plus the concatenation, with spans rendered without backticks. Otherwise: `markdown` of the concatenation, always with `handle_code` |
| Inline.CourierParagraphIsCodeLine | odt2markdown.py:179-208 | a paragraph whose font name starts with `Courier` and has no non-blank `no code` span renders as four spaces plus its text |
| Inline.StylelessCodeParagraphIsPlainText | odt2markdown.py:184-205 | a paragraph without a style whose only child is a non-blank, plain Courier span renders as the bare run: the span alone would get backticks, but the all-code test turns them off and no indent is added because the paragraph has no style |
| Blocks.ProcessNodes | odt2markdown.py:215-263 | the paragraphs and lists among the children are rendered in order, then sequenced (`handle_cr`) or joined by single newlines |
| Blocks.JoinLines | odt2markdown.py:229-261 | the second loop returns `Sequence(lines)`: each line preceded by the separator from the two-state table, or `'\n'.join(lines)` when `handle_cr` is false |
| Blocks.InCodeIffAfterCodeLine | odt2markdown.py:231-258 | the machine is in the code state exactly when some earlier line starts with four spaces and every line after it is whitespace-only |
| Blocks.CodeLinesJoinedByOneNewline | odt2markdown.py:235-238 | two consecutive lines that both start with four spaces are separated by exactly one newline |
| Blocks.FirstSeparator | odt2markdown.py:247-258 | the first line is preceded by one newline or a blank line, never by nothing |
| Blocks.DirectConcatenation | odt2markdown.py:239-241 | a line is appended with no separator exactly when the machine is in the code state and the line starts with `* ` |
| Blocks.BulletAfterCodeTakesBlankLine | odt2markdown.py:235-246 | a `\n* ` line right after a code line takes the blank-line branch and leaves the code state |
| Blocks.StepInCodeOnNewlineLine | odt2markdown.py:235-246 | in the code state, a non-blank line that starts with a newline is preceded by a blank line and leaves the code state |
| Blocks.EmptySequence | odt2markdown.py:229-261 | an empty block list yields `''` in both modes |
| Blocks.CodeThenText | odt2markdown.py:229-258 | a code line followed by a line that is not whitespace-only, not indented four spaces and not a `* ` bullet: each is preceded by a blank line |
| Blocks.ProcessList | odt2markdown.py:266-283 | the two loops return `RenderList(l)`: each `list-item` child rendered with `handle_cr` false and put after `"\n* "`, then `"\n\n<!-- -->"` |
| Blocks.BulletsAppend | odt2markdown.py:277-279 | the bullets of two item lists are the bullets of the first followed by those of the second |
| Blocks.ListShape | odt2markdown.py:277-281 | a rendered list always ends with `"\n\n<!-- -->"`; it is exactly that with no items, and otherwise starts with `"\n* "` |
| Blocks.ListAfterCodeTakesBlankLine | odt2markdown.py:235-246 | a list that follows a code line is preceded by a blank line and ends the code state |
| Blocks.ListOutsideCodeTakesOneNewline | odt2markdown.py:253-255 | outside code, a list with at least one item is preceded by a single newline |
| Blocks.TwoItemList | odt2markdown.py:266-283 | a list whose items render to `a` and `b` renders to `"\n* " + a + "\n* " + b + "\n\n<!-- -->"` |
| Tables.ParseExtractTable | odt2markdown.py:286-319 | fails, leaving the warnings untouched, exactly when neither a document nor a node is given. Otherwise it succeeds with the records of every row of every table under the node, or under the document's text body when no node is given, and appends one warning per extra cell |
| Tables.ExtractTables | odt2markdown.py:298-317 | the table loop returns the records of the rows of every table, table after table, and their warnings |
| Tables.ExtractRows | odt2markdown.py:299-317 | the row loop returns one record per row in order, and the warnings of those rows |
| Tables.ExtractRow | odt2markdown.py:300-316 | the cell loop returns the row's record and appends one warning for each cell at index 2 or later |
| Tables.RecordsPerRow | odt2markdown.py:316-317 | exactly one record per row, in row order |
| Tables.Records | odt2markdown.py:298-317 | there are as many records as rows |
| Tables.RecordAt | odt2markdown.py:300-317 | record `k` is the record built from the cells of row `k` |
| Tables.ExtractedRow | odt2markdown.py:303-310 | the code is the first cell's stripped text. The data is the second cell rendered by `odf_process_nodes` for `question`, `answer_true`, `answer_false`, `rule` and `feedback`, and the second cell's stripped text for any other code |
| Tables.RecordsAppend | odt2markdown.py:298-317 | the records of two runs of rows are the records of the first run followed by those of the second |
| Tables.ExtraCellsAppend | odt2markdown.py:311-312 | the extra-cell counts of two runs of rows add up |
| Tables.NoWarningsIffTwoColumns | odt2markdown.py:311-312 | no warning is added exactly when every row has exactly two cells |

## Left out

- `odf_load` (odt2markdown.py:19-26) is not modelled, because it is file loading. The style table is built by `GetStyles` from the definitions and passed explicitly.
- `odf_dump_nodes` and `odf_dump_styles` are not modelled, because they are print-only debugging.
- Every `print` diagnostic is omitted: unhandled nodes and the missing-style-table message. These diagnostics do not change any output.
- The error path of `odf_get_node_style` when the owner document has no style table (odt2markdown.py:88-93) does not exist in the model. The table is always an argument.
- The odfpy library is not part of this model: `getElementsByType`, `str(cell)`, `getAttribute`, `qname` and `nodeType`. Element search and cell text are parameters. `getAttribute('name')` and `getAttribute('stylename')` are read as the first attribute with local name `name` or `style-name`.
- Attribute namespaces are dropped, so two attributes with the same local name in different namespaces cannot be told apart.
- Styles.GetStyles: a definition without a `name` attribute gets no entry. The source stores it under the key `None`, where no lookup by a style name can reach it.
- Styles.ScanStyle: the source fills the dictionary in the iteration order of the odfpy attribute dictionary. The model writes in document order. The order matters only when two writes share a key, and the shape lemmas assume distinct keys.
- Styles.ScanStyle: a style definition whose children include a text node is excluded by a precondition. The source would fail reading `attributes` on it.
- Inline.ProcessSpace: only ASCII numerals with an optional sign, once surrounding whitespace is stripped, are modelled. Any other count is excluded by a precondition. That includes counts `int()` rejects, where the source raises. It also includes forms Python 2's `int()` accepts on a `unicode` value, such as non-ASCII decimal digits (`u'\u0663'`).
- Blocks.ProcessNodes: a text node directly under a block container or a list is excluded by a precondition. In the source it fails on `qname`.
- Tables.ParseExtractTable: rows with fewer than two cells are excluded by a precondition. In the source they fail or reuse the previous row's values.
- Tables.ParseExtractTable: when both a document and a node are given, the node is used and no error is raised. This follows odt2markdown.py:288-294, which only rejects the case where both are missing.
- Tables.ParseExtractTable: a record's code may be empty (a blank first cell). The code does not reject such rows.
- The mutable default `messages=[]` is not modelled. The caller always passes the warnings list.
- Python 2 byte/unicode conversions such as `str(cell)` on non-ASCII text are not modelled. Text is a sequence of characters throughout.
