/**
 * Inline rendering: space runs (`odf_process_space`, `odf_process_span_spaces`),
 * code classification (`odf_is_span_code`, `odf_p_is_all_code`), decoration
 * (`markdown`) and the span and paragraph renderers (`odf_process_span`,
 * `odf_process_p`).
 */
module Inline {
  import opened Wrappers
  import opened Strings
  import opened Tree
  import opened Styles

  const CodeFont := "Courier"
  const CodeIndent := "    "

  // ---------------------------------------------------------------- odf_process_space

  /**
   * A `text:s` element whose count is absent or empty, or is a signed decimal
   * numeral once surrounding whitespace is ignored, as `int()` reads it.
   */
  predicate CountOk(n: Node) {
    n.Element? &&
    var v := AttributeValue(n.attrs, "c");
    v.None? || v.value == "" || IsIntLiteral(Strip(v.value))
  }

  /** `odf_process_space`: the `c` attribute's count of spaces, one when it is absent or empty. */
  function ProcessSpace(n: Node): (r: string)
    requires CountOk(n)
    ensures forall i :: 0 <= i < |r| ==> r[i] == ' '
    ensures AttributeValue(n.attrs, "c").None? || AttributeValue(n.attrs, "c").value == "" ==> r == " "
    ensures AttributeValue(n.attrs, "c").Some? && AttributeValue(n.attrs, "c").value != "" ==>
      |r| == (var c := IntValue(Strip(AttributeValue(n.attrs, "c").value)); if c > 0 then c else 0)
  {
    var v := AttributeValue(n.attrs, "c");
    Spaces(if v.None? || v.value == "" then 1 else IntValue(Strip(v.value)))
  }

  // ---------------------------------------------------------------- odf_process_span_spaces

  /** Children a run can be read from: every `text:s` among them has an acceptable count. */
  predicate PiecesOk(cs: seq<Node>) {
    forall i :: 0 <= i < |cs| && cs[i].Element? && cs[i].local == "s" ==> CountOk(cs[i])
  }

  /** What one span child contributes: text as is, `text:s` expanded, any other element nothing. */
  function RunPiece(c: Node): string
    requires c.Element? && c.local == "s" ==> CountOk(c)
  {
    match c
    case Text(data) => data
    case Element(local, _, _) => if local == "s" then ProcessSpace(c) else ""
  }

  /** The in-order concatenation of the pieces of `cs`. */
  function RunText(cs: seq<Node>): string
    requires PiecesOk(cs)
  {
    if |cs| == 0 then "" else RunText(cs[..|cs| - 1]) + RunPiece(cs[|cs| - 1])
  }

  /** The run of a span: its pieces in order, or a single space when they add up to nothing. */
  function SpanRun(span: Node): string
    requires span.Element? && PiecesOk(span.children)
  {
    var t := RunText(span.children);
    if t == "" then " " else t
  }

  /** Reading a run piece by piece agrees with reading its two halves and concatenating. */
  lemma {:induction false} RunTextAppend(a: seq<Node>, b: seq<Node>)
    requires PiecesOk(a) && PiecesOk(b)
    ensures PiecesOk(a + b) && RunText(a + b) == RunText(a) + RunText(b)
  {
    if |b| > 0 {
      var b' := b[..|b| - 1];
      assert (a + b)[..|a + b| - 1] == a + b';
      RunTextAppend(a, b');
    } else {
      assert a + b == a;
    }
  }

  /** A run is never empty, and it is the single space exactly when its pieces add up to nothing. */
  lemma SpanRunNeverEmpty(span: Node)
    requires span.Element? && PiecesOk(span.children)
    ensures |SpanRun(span)| > 0
    ensures SpanRun(span) == RunText(span.children) || (RunText(span.children) == "" && SpanRun(span) == " ")
  {
  }

  /** `odf_process_span_spaces`: walks the span's children, accumulating text and expanded spaces. */
  method ProcessSpanSpaces(span: Node) returns (t: string)
    requires span.Element? && PiecesOk(span.children)
    ensures t == SpanRun(span) && t != ""
  {
    t := "";
    for i := 0 to |span.children|
      invariant t == RunText(span.children[..i])
    {
      var n := span.children[i];
      assert span.children[..i + 1][..i] == span.children[..i];
      match n
      case Element(local, _, _) =>
        if local == "s" {
          t := t + ProcessSpace(n);
        }
      case Text(data) =>
        t := t + data;
    }
    assert span.children[..|span.children|] == span.children;
    if t == "" {
      t := " ";
    }
  }

  // ---------------------------------------------------------------- odf_is_span_code

  /** The three outcomes of span classification. */
  datatype SpanCode = NoStyle | Code | NoCode

  /**
   * `odf_is_span_code`: no style when the span names no known style or its font
   * name is empty; code when the font name contains "Courier"; otherwise no code.
   */
  function IsSpanCode(span: Node, styles: StyleTable): (r: SpanCode)
    ensures r == NoStyle <==> NodeStyle(span, styles).None? || NodeStyle(span, styles).value.fontName == ""
    ensures r == Code <==> NodeStyle(span, styles).Some? && Contains(NodeStyle(span, styles).value.fontName, CodeFont)
  {
    var style := NodeStyle(span, styles);
    if style.None? || style.value.fontName == "" then NoStyle
    else if Contains(style.value.fontName, CodeFont) then Code
    else NoCode
  }

  /**
   * The paragraph test is stricter than the span test: a font name that starts
   * with "Courier" also contains it, so a paragraph styled as code would be
   * classified as a code span too.
   */
  lemma ParagraphCodeImpliesSpanCode(n: Node, styles: StyleTable)
    requires ParagraphIsCode(n, styles)
    ensures IsSpanCode(n, styles) == Code
  {
    assert OccursAt(NodeStyle(n, styles).value.fontName, CodeFont, 0);
  }

  /** The converse fails: "Courier" inside, not at the start of, the font name makes a code span only. */
  lemma CourierInsideNameIsSpanCodeOnly()
    ensures var style := OdfStyle("S", "X-Courier", "", "", map[]);
      var n := Element("span", [("style-name", "S")], []);
      IsSpanCode(n, map["S" := style]) == Code && !ParagraphIsCode(n, map["S" := style])
  {
    var style := OdfStyle("S", "X-Courier", "", "", map[]);
    var n := Element("span", [("style-name", "S")], []);
    assert AttributeValue(n.attrs, "style-name") == Some("S");
    assert "X-Courier"[2..9] == CodeFont;
    assert OccursAt("X-Courier", CodeFont, 2);
    assert "X-Courier"[0] != CodeFont[0];
  }

  // ---------------------------------------------------------------- markdown

  /**
   * `markdown`: whitespace-only text is returned as is; otherwise exactly one
   * decoration applies, the first of code (backticks, when `handleCode` holds
   * and the font name contains "Courier"), bold (double underscores) and
   * italic (single underscores), or none.
   */
  function Markdown(text: string, style: OdfStyle, handleCode: bool): (r: string)
    ensures IsBlank(text) ==> r == text
    ensures !IsBlank(text) && handleCode && Contains(style.fontName, CodeFont) ==> r == "`" + text + "`"
    ensures !IsBlank(text) && !(handleCode && Contains(style.fontName, CodeFont)) && style.fontWeight == "bold" ==>
      r == "__" + text + "__"
    ensures (!IsBlank(text) && !(handleCode && Contains(style.fontName, CodeFont)) && style.fontWeight != "bold"
             && style.fontStyle == "italic") ==> r == "_" + text + "_"
    ensures (!IsBlank(text) && !(handleCode && Contains(style.fontName, CodeFont)) && style.fontWeight != "bold"
             && style.fontStyle != "italic") ==> r == text
  {
    StripEmptyIffBlank(text);
    if Strip(text) == "" then text
    else if handleCode && Contains(style.fontName, CodeFont) then "`" + text + "`"
    else if style.fontWeight == "bold" then "__" + text + "__"
    else if style.fontStyle == "italic" then "_" + text + "_"
    else text
  }

  /** The decorations `markdown` can apply. */
  predicate IsMarker(m: string) {
    m == "" || m == "`" || m == "__" || m == "_"
  }

  /** Decoration never nests: the result is the text inside one marker pair, from which the text is recovered. */
  lemma MarkdownSingleWrap(text: string, style: OdfStyle, handleCode: bool)
    ensures exists m :: IsMarker(m) && Markdown(text, style, handleCode) == m + text + m
    ensures var r := Markdown(text, style, handleCode);
      var k := (|r| - |text|) / 2;
      0 <= k && r[k..|r| - k] == text
  {
    var r := Markdown(text, style, handleCode);
    var m := if r == text then "" else if r == "`" + text + "`" then "`"
             else if r == "__" + text + "__" then "__" else "_";
    assert r == m + text + m;
    assert r[|m|..|r| - |m|] == text;
  }

  /** Code wins over bold and italic: with all three present only the backticks are applied. */
  lemma CodeDecorationWins(text: string, style: OdfStyle)
    requires !IsBlank(text)
    requires Contains(style.fontName, CodeFont) && style.fontWeight == "bold" && style.fontStyle == "italic"
    ensures Markdown(text, style, true) == "`" + text + "`"
  {
  }

  /** Without `handleCode` no backticks are ever added: the result is the text, bold or italic. */
  lemma NoCodeDecorationWithoutHandleCode(text: string, style: OdfStyle)
    ensures var r := Markdown(text, style, false);
      r == text || r == "__" + text + "__" || r == "_" + text + "_"
  {
  }

  // ---------------------------------------------------------------- odf_process_span

  /** The rendering of a span: its run, decorated by its style when it names one. */
  function RenderSpan(span: Node, handleCode: bool, styles: StyleTable): string
    requires span.Element? && PiecesOk(span.children)
  {
    match NodeStyle(span, styles)
    case None => SpanRun(span)
    case Some(style) => Markdown(SpanRun(span), style, handleCode)
  }

  /** `odf_process_span`: the span's run, left as is without a style, decorated by `markdown` with one. */
  method ProcessSpan(span: Node, handleCode: bool, styles: StyleTable) returns (t: string)
    requires span.Element? && PiecesOk(span.children)
    ensures t == RenderSpan(span, handleCode, styles)
    ensures NodeStyle(span, styles).None? ==> t == SpanRun(span)
  {
    var spanWithSpaces := ProcessSpanSpaces(span);
    var style := NodeStyle(span, styles);
    if style.None? {
      return spanWithSpaces;
    }
    t := Markdown(spanWithSpaces, style.value, handleCode);
  }

  // ---------------------------------------------------------------- odf_p_is_all_code

  /** A paragraph child the renderer can handle: a `text:s` has an acceptable count, a span's pieces do. */
  predicate ChildOk(c: Node) {
    c.Element? ==> (c.local == "s" ==> CountOk(c)) && (c.local == "span" ==> PiecesOk(c.children))
  }

  /** A paragraph element every child of which the renderer can handle. */
  predicate ParagraphOk(p: Node) {
    p.Element? && forall i :: 0 <= i < |p.children| ==> ChildOk(p.children[i])
  }

  /** A span child whose run is not whitespace-only, classified as `k`. */
  predicate MarkedSpan(c: Node, k: SpanCode, styles: StyleTable)
    requires ChildOk(c)
  {
    c.Element? && c.local == "span" && !IsBlank(SpanRun(c)) && IsSpanCode(c, styles) == k
  }

  /** The three flags of the paragraph test. */
  datatype Flag = HasCode | HasNoCode | HasNoFont

  /**
   * Whether child `c` sets `flag`: a non-blank span sets the flag of its
   * classification; a text child sets "has code" in a code-styled paragraph and
   * "has no code" otherwise; other children set nothing.
   */
  predicate Sets(c: Node, flag: Flag, pIsCode: bool, styles: StyleTable)
    requires ChildOk(c)
  {
    match flag
    case HasCode => MarkedSpan(c, Code, styles) || (c.Text? && pIsCode)
    case HasNoCode => MarkedSpan(c, NoCode, styles) || (c.Text? && !pIsCode)
    case HasNoFont => MarkedSpan(c, NoStyle, styles)
  }

  /** The value of `flag` after the loop has visited `cs`. */
  predicate Raised(cs: seq<Node>, flag: Flag, pIsCode: bool, styles: StyleTable)
    requires forall i :: 0 <= i < |cs| ==> ChildOk(cs[i])
  {
    |cs| > 0 && (Raised(cs[..|cs| - 1], flag, pIsCode, styles) || Sets(cs[|cs| - 1], flag, pIsCode, styles))
  }

  /** Visiting child `i` raises a flag when it was raised already or the child sets it. */
  lemma RaisedStep(cs: seq<Node>, i: nat, pIsCode: bool, styles: StyleTable)
    requires i < |cs| && forall j :: 0 <= j < |cs| ==> ChildOk(cs[j])
    ensures forall flag ::
      Raised(cs[..i + 1], flag, pIsCode, styles) == (Raised(cs[..i], flag, pIsCode, styles) || Sets(cs[i], flag, pIsCode, styles))
  {
    assert cs[..i + 1][..i] == cs[..i];
  }

  /** A flag is raised exactly when some visited child sets it. */
  lemma {:induction false} RaisedIffSomeChildSets(cs: seq<Node>, flag: Flag, pIsCode: bool, styles: StyleTable)
    requires forall i :: 0 <= i < |cs| ==> ChildOk(cs[i])
    ensures Raised(cs, flag, pIsCode, styles) <==> exists i :: 0 <= i < |cs| && Sets(cs[i], flag, pIsCode, styles)
  {
    if |cs| > 0 {
      var cs' := cs[..|cs| - 1];
      RaisedIffSomeChildSets(cs', flag, pIsCode, styles);
      if exists i :: 0 <= i < |cs| && Sets(cs[i], flag, pIsCode, styles) {
        var i :| 0 <= i < |cs| && Sets(cs[i], flag, pIsCode, styles);
        if i < |cs| - 1 {
          assert cs'[i] == cs[i];
        }
      }
    }
  }

  /**
   * The verdict of the paragraph test from its three flags: a code-styled
   * paragraph is all code unless "has no code" is raised; another paragraph is
   * all code when "has code" is raised and neither of the others is.
   */
  predicate AllCode(p: Node, pIsCode: bool, styles: StyleTable)
    requires ParagraphOk(p)
  {
    var cs := p.children;
    if pIsCode then !Raised(cs, HasNoCode, pIsCode, styles)
    else Raised(cs, HasCode, pIsCode, styles) && !Raised(cs, HasNoCode, pIsCode, styles)
         && !Raised(cs, HasNoFont, pIsCode, styles)
  }

  /**
   * The paragraph test in terms of spans and text children. For a code-styled
   * paragraph: false exactly when some non-blank span is "no code" (vacuously
   * true otherwise). Otherwise: true exactly when some non-blank span is code,
   * no non-blank span is "no code" or "no style", and there is no text child.
   * Whitespace-only spans take part in neither case.
   */
  lemma AllCodeCharacterization(p: Node, pIsCode: bool, styles: StyleTable)
    requires ParagraphOk(p)
    ensures pIsCode ==>
      (AllCode(p, pIsCode, styles) <==> forall i :: 0 <= i < |p.children| ==> !MarkedSpan(p.children[i], NoCode, styles))
    ensures !pIsCode ==>
      (AllCode(p, pIsCode, styles) <==>
        (exists i :: 0 <= i < |p.children| && MarkedSpan(p.children[i], Code, styles))
        && (forall i :: 0 <= i < |p.children| ==>
              !MarkedSpan(p.children[i], NoCode, styles) && !MarkedSpan(p.children[i], NoStyle, styles))
        && (forall i :: 0 <= i < |p.children| ==> !p.children[i].Text?))
  {
    RaisedIffSomeChildSets(p.children, HasCode, pIsCode, styles);
    RaisedIffSomeChildSets(p.children, HasNoCode, pIsCode, styles);
    RaisedIffSomeChildSets(p.children, HasNoFont, pIsCode, styles);
  }

  /** Inserting a child that sets no flag into a child list leaves every flag as it was. */
  lemma {:induction false} InsertKeepsFlag(cs: seq<Node>, k: nat, c: Node, flag: Flag, pIsCode: bool, styles: StyleTable)
    requires k <= |cs| && ChildOk(c) && forall i :: 0 <= i < |cs| ==> ChildOk(cs[i])
    requires !Sets(c, flag, pIsCode, styles)
    ensures var ds := cs[..k] + [c] + cs[k..];
      && (forall i :: 0 <= i < |ds| ==> ChildOk(ds[i]))
      && Raised(ds, flag, pIsCode, styles) == Raised(cs, flag, pIsCode, styles)
  {
    var ds := cs[..k] + [c] + cs[k..];
    assert forall i :: 0 <= i < k ==> ds[i] == cs[i];
    assert ds[k] == c;
    assert forall i :: k < i < |ds| ==> ds[i] == cs[i - 1];
    RaisedIffSomeChildSets(cs, flag, pIsCode, styles);
    RaisedIffSomeChildSets(ds, flag, pIsCode, styles);
    if Raised(ds, flag, pIsCode, styles) {
      var i :| 0 <= i < |ds| && Sets(ds[i], flag, pIsCode, styles);
      if i < k { assert Sets(cs[i], flag, pIsCode, styles); }
      else { assert Sets(cs[i - 1], flag, pIsCode, styles); }
    }
    if Raised(cs, flag, pIsCode, styles) {
      var i :| 0 <= i < |cs| && Sets(cs[i], flag, pIsCode, styles);
      if i < k { assert Sets(ds[i], flag, pIsCode, styles); }
      else { assert ds[i + 1] == cs[i]; }
    }
  }

  /** Inserting a span whose run is whitespace-only into a paragraph never changes the test. */
  lemma BlankSpanIgnored(p: Node, k: nat, span: Node, pIsCode: bool, styles: StyleTable)
    requires ParagraphOk(p) && k <= |p.children|
    requires span.Element? && span.local == "span" && PiecesOk(span.children) && IsBlank(SpanRun(span))
    ensures var q := Element(p.local, p.attrs, p.children[..k] + [span] + p.children[k..]);
      ParagraphOk(q) && AllCode(q, pIsCode, styles) == AllCode(p, pIsCode, styles)
  {
    InsertKeepsFlag(p.children, k, span, HasCode, pIsCode, styles);
    InsertKeepsFlag(p.children, k, span, HasNoCode, pIsCode, styles);
    InsertKeepsFlag(p.children, k, span, HasNoFont, pIsCode, styles);
  }

  /**
   * The body of `odf_p_is_all_code`'s loop for one child: which of the three
   * flags it raises.
   */
  method ChildFlags(node: Node, pIsCode: bool, styles: StyleTable) returns (code: bool, noCode: bool, noFont: bool)
    requires ChildOk(node)
    ensures code == Sets(node, HasCode, pIsCode, styles)
    ensures noCode == Sets(node, HasNoCode, pIsCode, styles)
    ensures noFont == Sets(node, HasNoFont, pIsCode, styles)
  {
    code, noCode, noFont := false, false, false;
    match node {
      case Element(local, _, _) =>
        if local == "span" {
          var spanIsCode := IsSpanCode(node, styles);
          var run := ProcessSpanSpaces(node);
          StripEmptyIffBlank(run);
          var spanIsSpace := Strip(run) == "";
          if !spanIsSpace {
            if spanIsCode == NoCode {
              noCode := true;
            } else if spanIsCode == Code {
              code := true;
            } else {
              noFont := true;
            }
          }
        }
      case Text(_) =>
        if pIsCode {
          code := true;
        } else {
          noCode := true;
        }
    }
  }

  /** `odf_p_is_all_code`: one pass over the children setting three flags, then the verdict. */
  method PIsAllCode(p: Node, pIsCode: bool, styles: StyleTable) returns (r: bool)
    requires ParagraphOk(p)
    ensures r == AllCode(p, pIsCode, styles)
  {
    var cs := p.children;
    var pHasCode, pHasNoCode, pHasNoFont := false, false, false;
    for i := 0 to |cs|
      invariant pHasCode == Raised(cs[..i], HasCode, pIsCode, styles)
      invariant pHasNoCode == Raised(cs[..i], HasNoCode, pIsCode, styles)
      invariant pHasNoFont == Raised(cs[..i], HasNoFont, pIsCode, styles)
    {
      RaisedStep(cs, i, pIsCode, styles);
      var code, noCode, noFont := ChildFlags(cs[i], pIsCode, styles);
      if code {
        pHasCode := true;
      }
      if noCode {
        pHasNoCode := true;
      }
      if noFont {
        pHasNoFont := true;
      }
    }
    assert cs[..|cs|] == cs;
    if pIsCode {
      r := !pHasNoCode;
    } else {
      r := pHasCode && !pHasNoCode && !pHasNoFont;
    }
  }

  // ---------------------------------------------------------------- odf_process_p

  /** What one paragraph child contributes: spans rendered, `text:s` expanded, text as is, anything else nothing. */
  function ParagraphPiece(c: Node, handleCode: bool, styles: StyleTable): string
    requires ChildOk(c)
  {
    match c
    case Text(data) => data
    case Element(local, _, _) =>
      if local == "span" then RenderSpan(c, handleCode, styles)
      else if local == "s" then ProcessSpace(c)
      else ""
  }

  /** The in-order concatenation of the pieces of a paragraph's children. */
  function ParagraphText(cs: seq<Node>, handleCode: bool, styles: StyleTable): string
    requires forall i :: 0 <= i < |cs| ==> ChildOk(cs[i])
  {
    if |cs| == 0 then ""
    else ParagraphText(cs[..|cs| - 1], handleCode, styles) + ParagraphPiece(cs[|cs| - 1], handleCode, styles)
  }

  /** The paragraph is styled with a font whose name starts with "Courier". */
  predicate ParagraphIsCode(p: Node, styles: StyleTable) {
    NodeStyle(p, styles).Some? && StartsWith(NodeStyle(p, styles).value.fontName, CodeFont)
  }

  /** What `odf_process_p` returns for a paragraph. */
  function RenderParagraph(p: Node, styles: StyleTable): string
    requires ParagraphOk(p)
  {
    var allCode := AllCode(p, ParagraphIsCode(p, styles), styles);
    var text := ParagraphText(p.children, !allCode, styles);
    match NodeStyle(p, styles)
    case None => text
    case Some(style) => if allCode then CodeIndent + text else Markdown(text, style, true)
  }

  /** `odf_process_p`: classify the paragraph, render its children in order, then indent or decorate. */
  method ProcessP(p: Node, styles: StyleTable) returns (t: string)
    requires ParagraphOk(p)
    ensures t == RenderParagraph(p, styles)
  {
    t := "";
    var pStyle := NodeStyle(p, styles);
    var pIsCode := false;
    if pStyle.Some? {
      if StartsWith(pStyle.value.fontName, CodeFont) {
        pIsCode := true;
      }
    }
    var pAllCode := PIsAllCode(p, pIsCode, styles);
    var handleCode := !pAllCode;
    for i := 0 to |p.children|
      invariant t == ParagraphText(p.children[..i], handleCode, styles)
    {
      var n := p.children[i];
      assert p.children[..i + 1][..i] == p.children[..i];
      match n
      case Element(local, _, _) =>
        if local == "span" {
          var s := ProcessSpan(n, handleCode, styles);
          t := t + s;
        } else if local == "s" {
          t := t + ProcessSpace(n);
        }
      case Text(data) =>
        t := t + data;
    }
    assert p.children[..|p.children|] == p.children;
    if pStyle.None? {
      return;
    }
    if pAllCode {
      t := CodeIndent + t;
    } else {
      t := Markdown(t, pStyle.value, true);
    }
  }

  /** A paragraph's text is the concatenation of its children's pieces, in document order. */
  lemma {:induction false} ParagraphTextAppend(a: seq<Node>, b: seq<Node>, handleCode: bool, styles: StyleTable)
    requires forall i :: 0 <= i < |a| ==> ChildOk(a[i])
    requires forall i :: 0 <= i < |b| ==> ChildOk(b[i])
    ensures ParagraphText(a + b, handleCode, styles) == ParagraphText(a, handleCode, styles) + ParagraphText(b, handleCode, styles)
  {
    if |b| > 0 {
      var b' := b[..|b| - 1];
      assert (a + b)[..|a + b| - 1] == a + b';
      ParagraphTextAppend(a, b', handleCode, styles);
    } else {
      assert a + b == a;
    }
  }

  /**
   * The three cases of paragraph rendering: without a style the plain
   * concatenation; when all code, four spaces then the concatenation with spans
   * rendered without backticks; otherwise the concatenation decorated by the
   * paragraph's style with code handling on.
   */
  lemma ParagraphCases(p: Node, styles: StyleTable)
    requires ParagraphOk(p)
    ensures var allCode := AllCode(p, ParagraphIsCode(p, styles), styles);
      && (NodeStyle(p, styles).None? ==> RenderParagraph(p, styles) == ParagraphText(p.children, !allCode, styles))
      && (NodeStyle(p, styles).Some? && allCode ==>
            RenderParagraph(p, styles) == CodeIndent + ParagraphText(p.children, false, styles))
      && (NodeStyle(p, styles).Some? && !allCode ==>
            RenderParagraph(p, styles) == Markdown(ParagraphText(p.children, true, styles), NodeStyle(p, styles).value, true))
  {
  }

  /**
   * A paragraph without a style made only of one non-blank, plain Courier span
   * loses the span's code formatting: the test finds it all code, so the span
   * is rendered without backticks, but without a paragraph style no indent is
   * added either. The result is the bare run.
   */
  lemma StylelessCodeParagraphIsPlainText(p: Node, span: Node, styles: StyleTable)
    requires p.Element? && NodeStyle(p, styles).None? && p.children == [span]
    requires span.Element? && span.local == "span" && PiecesOk(span.children) && !IsBlank(SpanRun(span))
    requires NodeStyle(span, styles).Some? && Contains(NodeStyle(span, styles).value.fontName, CodeFont)
    requires NodeStyle(span, styles).value.fontWeight != "bold" && NodeStyle(span, styles).value.fontStyle != "italic"
    ensures ParagraphOk(p) && RenderParagraph(p, styles) == SpanRun(span)
    ensures RenderSpan(span, true, styles) == "`" + SpanRun(span) + "`"
  {
    assert ChildOk(p.children[0]);
    assert MarkedSpan(p.children[0], Code, styles);
    AllCodeCharacterization(p, false, styles);
    assert AllCode(p, false, styles);
    assert ParagraphText(p.children, false, styles) == ParagraphText([], false, styles) + ParagraphPiece(span, false, styles) by {
      assert p.children[..0] == [];
    }
  }

  /** Inside an all-code paragraph a span gets no backticks of its own: it is its run, bold or italic. */
  lemma CodeBlockSpansHaveNoBackticks(span: Node, styles: StyleTable)
    requires span.Element? && PiecesOk(span.children)
    ensures var r := RenderSpan(span, false, styles); var t := SpanRun(span);
      r == t || r == "__" + t + "__" || r == "_" + t + "_"
  {
    match NodeStyle(span, styles)
    case None =>
    case Some(style) => NoCodeDecorationWithoutHandleCode(SpanRun(span), style);
  }

  /**
   * A paragraph styled with a "Courier..." font none of whose non-blank spans is
   * "no code" renders as an indented code line: four spaces, then its children
   * rendered without backticks.
   */
  lemma CourierParagraphIsCodeLine(p: Node, styles: StyleTable)
    requires ParagraphOk(p) && ParagraphIsCode(p, styles)
    requires forall i :: 0 <= i < |p.children| ==> !MarkedSpan(p.children[i], NoCode, styles)
    ensures RenderParagraph(p, styles) == CodeIndent + ParagraphText(p.children, false, styles)
  {
    AllCodeCharacterization(p, true, styles);
  }
}
