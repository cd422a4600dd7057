/**
 * Block sequencing and lists: `odf_process_nodes` renders the paragraphs and
 * lists under a node and joins them, with a two-state machine choosing the
 * separator before each block; `odf_process_list` renders bullet items.
 */
module Blocks {
  import opened Strings
  import opened Tree
  import opened Styles
  import opened Inline

  const Bullet := "\n* "
  /** Appended after every list so that a following code line is not read as part of the list. */
  const ListEnd := "\n\n<!-- -->"

  // ---------------------------------------------------------------- what can be rendered

  /** A node whose children `odf_process_nodes` can render: all elements, paragraphs and lists renderable. */
  predicate Renderable(start: Node)
    decreases start, 2
  {
    start.Element? && forall i :: 0 <= i < |start.children| ==> BlockOk(start.children[i])
  }

  /** A block child: an element; a paragraph must be renderable, and so must a list. */
  predicate BlockOk(c: Node)
    decreases c, 1
  {
    c.Element? && (c.local == "p" ==> ParagraphOk(c)) && (c.local == "list" ==> ListOk(c))
  }

  /** A list whose children are all elements and whose items are renderable. */
  predicate ListOk(l: Node)
    decreases l, 0
  {
    l.Element? && forall j :: 0 <= j < |l.children| ==>
      l.children[j].Element? && (l.children[j].local == "list-item" ==> Renderable(l.children[j]))
  }

  // ---------------------------------------------------------------- the line-adjacency machine

  /**
   * One transition: from the current state and the next line, the new state
   * and the separator written before the line.
   */
  function Step(inCode: bool, line: string): (bool, string) {
    if inCode then
      if StartsWith(line, CodeIndent) || Strip(line) == "" then (true, "\n")
      else if StartsWith(line, "* ") then (false, "")
      else (false, "\n\n")
    else
      if StartsWith(line, CodeIndent) then (true, "\n\n")
      else if StartsWith(line, "* ") || StartsWith(line, Bullet) then (false, "\n")
      else (false, "\n\n")
  }

  /** The state before line `i`: not in code at the start, then one transition per line. */
  function InCodeBefore(lines: seq<string>, i: nat): bool
    requires i <= |lines|
  {
    if i == 0 then false else Step(InCodeBefore(lines, i - 1), lines[i - 1]).0
  }

  /** The separator written before line `i`. */
  function Separator(lines: seq<string>, i: nat): string
    requires i < |lines|
  {
    Step(InCodeBefore(lines, i), lines[i]).1
  }

  /** The output after the first `i` lines: each preceded by its separator. */
  function Sequenced(lines: seq<string>, i: nat): string
    requires i <= |lines|
  {
    if i == 0 then "" else Sequenced(lines, i - 1) + Separator(lines, i - 1) + lines[i - 1]
  }

  /** The joined document: the machine's output, or the lines joined by single newlines. */
  function Sequence(lines: seq<string>, handleCr: bool): string {
    if handleCr then Sequenced(lines, |lines|) else Join(lines, "\n")
  }

  /** Line `j` starts with four spaces and every line after it, up to line `i`, is whitespace-only. */
  predicate CodeRunFrom(lines: seq<string>, j: nat, i: nat)
    requires j < i <= |lines|
  {
    StartsWith(lines[j], CodeIndent) && forall k :: j < k < i ==> IsBlank(lines[k])
  }

  /**
   * The machine is in code before line `i` exactly when some earlier line
   * starts with four spaces and every line after it is whitespace-only.
   */
  lemma {:induction false} InCodeIffAfterCodeLine(lines: seq<string>, i: nat)
    requires i <= |lines|
    ensures InCodeBefore(lines, i) <==> exists j :: 0 <= j < i && CodeRunFrom(lines, j, i)
  {
    if i > 0 {
      InCodeIffAfterCodeLine(lines, i - 1);
      StripEmptyIffBlank(lines[i - 1]);
      if StartsWith(lines[i - 1], CodeIndent) {
        assert CodeRunFrom(lines, i - 1, i);
      } else if InCodeBefore(lines, i) {
        var j :| 0 <= j < i - 1 && CodeRunFrom(lines, j, i - 1);
        assert CodeRunFrom(lines, j, i);
      } else if exists j :: 0 <= j < i && CodeRunFrom(lines, j, i) {
        var j :| 0 <= j < i && CodeRunFrom(lines, j, i);
        assert CodeRunFrom(lines, j, i - 1);
        assert false;
      }
    }
  }

  /** Two consecutive lines that both start with four spaces are separated by exactly one newline. */
  lemma CodeLinesJoinedByOneNewline(lines: seq<string>, i: nat)
    requires 0 < i < |lines|
    requires StartsWith(lines[i - 1], CodeIndent) && StartsWith(lines[i], CodeIndent)
    ensures Separator(lines, i) == "\n"
  {
  }

  /** The first line is never glued to anything: its separator is one or two newlines. */
  lemma FirstSeparator(lines: seq<string>)
    requires |lines| > 0
    ensures Separator(lines, 0) == "\n" || Separator(lines, 0) == "\n\n"
  {
  }

  /** A line is written with no separator exactly when the machine is in code and the line starts with `* `. */
  lemma DirectConcatenation(lines: seq<string>, i: nat)
    requires i < |lines|
    ensures Separator(lines, i) == "" <==> InCodeBefore(lines, i) && StartsWith(lines[i], "* ")
  {
    if StartsWith(lines[i], "* ") {
      assert lines[i][1] == ' ' && lines[i][0] == '*';
      assert !IsSpace(lines[i][0]);
      StripEmptyIffBlank(lines[i]);
    }
  }

  /** A line starting `\n* ` right after a code line takes the blank-line branch and leaves code. */
  lemma BulletAfterCodeTakesBlankLine(lines: seq<string>, i: nat)
    requires 0 < i < |lines|
    requires StartsWith(lines[i - 1], CodeIndent) && StartsWith(lines[i], Bullet)
    ensures Separator(lines, i) == "\n\n" && !InCodeBefore(lines, i + 1)
  {
    assert lines[i][1] == '*' && !IsSpace(lines[i][1]);
    StripEmptyIffBlank(lines[i]);
  }

  /** With no blocks, both modes give the empty string. */
  lemma EmptySequence(handleCr: bool)
    ensures Sequence([], handleCr) == ""
  {
  }

  // ---------------------------------------------------------------- rendering blocks

  /** The rendered blocks among the first `i` children: paragraphs and lists, in order; other children skipped. */
  function BlockLines(start: Node, i: nat, styles: StyleTable): seq<string>
    requires Renderable(start) && i <= |start.children|
    decreases start, i
  {
    if i == 0 then []
    else
      var c := start.children[i - 1];
      assert BlockOk(c);
      BlockLines(start, i - 1, styles)
      + (if c.local == "p" then [RenderParagraph(c, styles)]
         else if c.local == "list" then [RenderList(c, styles)]
         else [])
  }

  /** What `odf_process_nodes` returns for a node. */
  function RenderBlocks(start: Node, handleCr: bool, styles: StyleTable): string
    requires Renderable(start)
    decreases start, |start.children| + 1
  {
    Sequence(BlockLines(start, |start.children|, styles), handleCr)
  }

  /** The rendered items among the first `j` children of a list. */
  function ListItems(l: Node, j: nat, styles: StyleTable): seq<string>
    requires ListOk(l) && j <= |l.children|
    decreases l, j
  {
    if j == 0 then []
    else
      var c := l.children[j - 1];
      ListItems(l, j - 1, styles) + (if c.local == "list-item" then [RenderBlocks(c, false, styles)] else [])
  }

  /** Each item on its own bullet line. */
  function Bullets(items: seq<string>): string {
    if |items| == 0 then "" else Bullets(items[..|items| - 1]) + Bullet + items[|items| - 1]
  }

  /** What `odf_process_list` returns for a list. */
  function RenderList(l: Node, styles: StyleTable): string
    requires ListOk(l)
    decreases l, |l.children| + 1
  {
    Bullets(ListItems(l, |l.children|, styles)) + ListEnd
  }

  /** `odf_process_nodes`: render the paragraph and list children, then join them. */
  method ProcessNodes(start: Node, handleCr: bool, styles: StyleTable) returns (out: string)
    requires Renderable(start)
    ensures out == RenderBlocks(start, handleCr, styles)
    decreases start
  {
    var lines: seq<string> := [];
    for i := 0 to |start.children|
      invariant lines == BlockLines(start, i, styles)
    {
      var n := start.children[i];
      if n.local == "p" {
        var line := ProcessP(n, styles);
        lines := lines + [line];
      } else if n.local == "list" {
        var line := ProcessList(n, styles);
        lines := lines + [line];
      }
    }
    out := JoinLines(lines, handleCr);
  }

  /**
   * The joining half of `odf_process_nodes`: with `handleCr` the state machine
   * picks each separator, otherwise the lines are joined by single newlines.
   */
  method JoinLines(lines: seq<string>, handleCr: bool) returns (out: string)
    ensures out == Sequence(lines, handleCr)
  {
    if handleCr {
      var inCode := false;
      out := "";
      for i := 0 to |lines|
        invariant inCode == InCodeBefore(lines, i)
        invariant out == Sequenced(lines, i)
      {
        var line := lines[i];
        if inCode {
          if StartsWith(line, CodeIndent) || Strip(line) == "" {
            out := out + "\n" + line;
          } else if StartsWith(line, "* ") {
            out := out + line;
            inCode := false;
          } else {
            out := out + "\n\n" + line;
            inCode := false;
          }
        } else {
          if StartsWith(line, CodeIndent) {
            out := out + "\n\n" + line;
            inCode := true;
          } else if StartsWith(line, "* ") || StartsWith(line, Bullet) {
            out := out + "\n" + line;
          } else {
            out := out + "\n\n" + line;
          }
        }
      }
    } else {
      out := Join(lines, "\n");
    }
  }

  /** `odf_process_list`: render each list item (single-newline joins), then one bullet line per item and the end marker. */
  method ProcessList(l: Node, styles: StyleTable) returns (out: string)
    requires ListOk(l)
    ensures out == RenderList(l, styles)
    decreases l
  {
    var items: seq<string> := [];
    for j := 0 to |l.children|
      invariant items == ListItems(l, j, styles)
    {
      var n := l.children[j];
      if n.local == "list-item" {
        var item := ProcessNodes(n, false, styles);
        items := items + [item];
      }
    }
    out := "";
    for k := 0 to |items|
      invariant out == Bullets(items[..k])
    {
      assert items[..k + 1][..k] == items[..k];
      out := out + Bullet + items[k];
    }
    assert items[..|items|] == items;
    out := out + ListEnd;
  }

  // ---------------------------------------------------------------- properties of lists

  /** Bullet lines concatenate: the bullets of two item lists are the bullets of each, in order. */
  lemma {:induction false} BulletsAppend(a: seq<string>, b: seq<string>)
    ensures Bullets(a + b) == Bullets(a) + Bullets(b)
  {
    if |b| > 0 {
      var b' := b[..|b| - 1];
      assert (a + b)[..|a + b| - 1] == a + b';
      BulletsAppend(a, b');
    } else {
      assert a + b == a;
    }
  }

  /**
   * A list always ends with the end marker; with no items it is exactly the
   * marker, otherwise it starts with a bullet.
   */
  lemma {:induction false} ListShape(l: Node, styles: StyleTable)
    requires ListOk(l)
    ensures var r := RenderList(l, styles);
      |r| >= |ListEnd| && r[|r| - |ListEnd|..] == ListEnd
      && (ListItems(l, |l.children|, styles) == [] ==> r == ListEnd)
      && (ListItems(l, |l.children|, styles) != [] ==> StartsWith(r, Bullet))
  {
    var items := ListItems(l, |l.children|, styles);
    var r := RenderList(l, styles);
    assert r[|r| - |ListEnd|..] == ListEnd;
    if items != [] {
      BulletsAppend([items[0]], items[1..]);
      assert [items[0]] + items[1..] == items;
      assert Bullets([items[0]]) == Bullet + items[0] by {
        assert [items[0]][..0] == [];
      }
    }
  }

  /** In code, a line that starts with a newline and is not whitespace-only takes the blank-line branch. */
  lemma StepInCodeOnNewlineLine(line: string)
    requires |line| > 0 && line[0] == '\n' && !IsBlank(line)
    ensures Step(true, line) == (false, "\n\n")
  {
    StripEmptyIffBlank(line);
  }

  /**
   * A rendered list that follows a code line takes the blank-line branch
   * (a list starts with a newline, never with `* `), and the machine leaves code.
   */
  lemma ListAfterCodeTakesBlankLine(l: Node, styles: StyleTable)
    requires ListOk(l)
    ensures Step(true, RenderList(l, styles)) == (false, "\n\n")
  {
    ListShape(l, styles);
    var r := RenderList(l, styles);
    var tail := |r| - |ListEnd|;
    assert ListEnd[2] == '<' && r[tail..] == ListEnd;
    assert r[tail + 2] == r[tail..][2];
    assert !IsSpace(r[tail + 2]);
    assert r[0] == '\n' by {
      if ListItems(l, |l.children|, styles) != [] { assert r[0] == Bullet[0]; }
    }
    StepInCodeOnNewlineLine(r);
  }

  /** Outside code, a list with items follows the previous block after a single newline. */
  lemma ListOutsideCodeTakesOneNewline(l: Node, styles: StyleTable)
    requires ListOk(l) && ListItems(l, |l.children|, styles) != []
    ensures Step(false, RenderList(l, styles)) == (false, "\n")
  {
    ListShape(l, styles);
    assert RenderList(l, styles)[0] == '\n';
  }

  // ---------------------------------------------------------------- two small documents

  /** A code line followed by an ordinary line: each is preceded by a blank line. */
  lemma CodeThenText(code: string, text: string)
    requires StartsWith(code, CodeIndent)
    requires !IsBlank(text) && !StartsWith(text, CodeIndent) && !StartsWith(text, "* ")
    ensures Sequence([code, text], true) == "\n\n" + code + "\n\n" + text
  {
    var lines := [code, text];
    assert Separator(lines, 0) == "\n\n";
    assert InCodeBefore(lines, 1);
    StripEmptyIffBlank(text);
    assert Separator(lines, 1) == "\n\n";
    assert Sequenced(lines, 1) == "\n\n" + code;
  }

  /** A list whose two items render to `a` and `b`: two bullets, then the end marker. */
  lemma TwoItemList(l: Node, styles: StyleTable, a: string, b: string)
    requires ListOk(l) && ListItems(l, |l.children|, styles) == [a, b]
    ensures RenderList(l, styles) == Bullet + a + Bullet + b + ListEnd
  {
    assert [a, b][..1] == [a];
    assert [a][..0] == [];
    assert Bullets([a]) == Bullet + a;
    assert Bullets([a, b]) == Bullet + a + Bullet + b;
  }
}
