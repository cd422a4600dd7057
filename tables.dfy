/**
 * Table extraction (`odf_parse_extract_table`): one record per table row, in
 * document order, with a warning per cell beyond the second.
 *
 * The element search of the document library (`getElementsByType`) and the
 * text of a cell (`str(cell)`) are parameters: `byType(n, kind)` lists the
 * elements of that kind below `n` in document order, `textOf(n)` is the text
 * content of `n`.
 */
module Tables {
  import opened Wrappers
  import opened Strings
  import opened Tree
  import opened Styles
  import opened Blocks

  /** The content codes whose second cell is rendered as markup instead of taken as plain text. */
  const RenderedCodes: set<string> := {"question", "answer_true", "answer_false", "rule", "feedback"}
  const TooManyColumns := "table has more than 2 columns"
  const NoArguments := "arguments cannot all be None"

  /** One extracted row. */
  datatype TableRow = TableRow(contentCode: string, contentData: string)

  /** The part of a loaded document the extractor reads: its text body. */
  datatype Document = Document(text: Node)

  /** The node the tables are searched under: the given node, else the document's text body. */
  function StartNode(doc: Option<Document>, node: Option<Node>): Option<Node> {
    if node.Some? then node else if doc.Some? then Some(doc.value.text) else None
  }

  /** A row with at least two cells whose second cell, when it is rendered, can be. */
  predicate RowOk(row: Node, byType: (Node, string) -> seq<Node>, textOf: Node -> string) {
    var cells := byType(row, "table-cell");
    |cells| >= 2 && (Strip(textOf(cells[0])) in RenderedCodes ==> Renderable(cells[1]))
  }

  /** Every row of `rows` is well formed. */
  predicate RowsOk(rows: seq<Node>, byType: (Node, string) -> seq<Node>, textOf: Node -> string) {
    forall k :: 0 <= k < |rows| ==> RowOk(rows[k], byType, textOf)
  }

  /** The rows of the given tables, table after table. */
  function RowsOf(tables: seq<Node>, byType: (Node, string) -> seq<Node>): seq<Node> {
    if |tables| == 0 then []
    else RowsOf(tables[..|tables| - 1], byType) + byType(tables[|tables| - 1], "table-row")
  }

  /** Taking one more table appends its rows. */
  lemma RowsOfSnoc(tables: seq<Node>, i: nat, byType: (Node, string) -> seq<Node>)
    requires i < |tables|
    ensures RowsOf(tables[..i + 1], byType) == RowsOf(tables[..i], byType) + byType(tables[i], "table-row")
  {
    assert tables[..i + 1][..i] == tables[..i];
  }

  /** The rows of all tables under `start`, in document order. */
  function TableRows(start: Node, byType: (Node, string) -> seq<Node>): seq<Node> {
    RowsOf(byType(start, "table"), byType)
  }

  /** Every row of every table under `start` is well formed. */
  predicate Extractable(start: Node, byType: (Node, string) -> seq<Node>, textOf: Node -> string) {
    var tables := byType(start, "table");
    forall i :: 0 <= i < |tables| ==> RowsOk(byType(tables[i], "table-row"), byType, textOf)
  }

  /** The record of one row: its first cell's stripped text, and its second cell rendered or stripped. */
  function RowRecord(row: Node, byType: (Node, string) -> seq<Node>, textOf: Node -> string, styles: StyleTable): TableRow
    requires RowOk(row, byType, textOf)
  {
    var cells := byType(row, "table-cell");
    var code := Strip(textOf(cells[0]));
    TableRow(code, if code in RenderedCodes then RenderBlocks(cells[1], true, styles) else Strip(textOf(cells[1])))
  }

  /** The records of the given rows, in order. */
  function Records(rows: seq<Node>, byType: (Node, string) -> seq<Node>, textOf: Node -> string, styles: StyleTable): (r: seq<TableRow>)
    requires RowsOk(rows, byType, textOf)
    ensures |r| == |rows|
  {
    if |rows| == 0 then []
    else Records(rows[..|rows| - 1], byType, textOf, styles) + [RowRecord(rows[|rows| - 1], byType, textOf, styles)]
  }

  /** How many cells beyond the second the rows hold altogether. */
  function ExtraCells(rows: seq<Node>, byType: (Node, string) -> seq<Node>): nat {
    if |rows| == 0 then 0
    else
      var n := |byType(rows[|rows| - 1], "table-cell")|;
      ExtraCells(rows[..|rows| - 1], byType) + (if n > 2 then n - 2 else 0)
  }

  /** `n` copies of the too-many-columns warning. */
  function Warnings(n: nat): (w: seq<string>)
    ensures |w| == n && forall i :: 0 <= i < n ==> w[i] == TooManyColumns
  {
    seq(n, _ => TooManyColumns)
  }

  /**
   * The cell loop of `odf_parse_extract_table` for one row: the first cell's
   * stripped text is the code, the second cell gives the data, every further
   * cell appends a warning.
   */
  method ExtractRow(row: Node, messages: seq<string>,
                    byType: (Node, string) -> seq<Node>, textOf: Node -> string, styles: StyleTable)
    returns (record: TableRow, messagesOut: seq<string>)
    requires RowOk(row, byType, textOf)
    ensures record == RowRecord(row, byType, textOf, styles)
    ensures messagesOut == messages + Warnings(ExtraCells([row], byType))
  {
    var cells := byType(row, "table-cell");
    var contentCode, contentData := "", "";
    messagesOut := messages;
    for c := 0 to |cells|
      invariant c >= 1 ==> contentCode == Strip(textOf(cells[0]))
      invariant c >= 2 ==> contentData == RowRecord(row, byType, textOf, styles).contentData
      invariant messagesOut == messages + Warnings(if c > 2 then c - 2 else 0)
    {
      var cell := cells[c];
      if c == 0 {
        contentCode := Strip(textOf(cell));
      } else if c == 1 {
        if contentCode in RenderedCodes {
          contentData := ProcessNodes(cell, true, styles);
        } else {
          contentData := Strip(textOf(cell));
        }
      } else {
        assert Warnings(c - 1) == Warnings(if c > 2 then c - 2 else 0) + [TooManyColumns];
        messagesOut := messagesOut + [TooManyColumns];
      }
    }
    assert [row][..0] == [];
    record := TableRow(contentCode, contentData);
  }

  /** The row loop of `odf_parse_extract_table` for one table. */
  method ExtractRows(rows: seq<Node>, messages: seq<string>,
                     byType: (Node, string) -> seq<Node>, textOf: Node -> string, styles: StyleTable)
    returns (records: seq<TableRow>, messagesOut: seq<string>)
    requires RowsOk(rows, byType, textOf)
    ensures records == Records(rows, byType, textOf, styles)
    ensures messagesOut == messages + Warnings(ExtraCells(rows, byType))
  {
    records, messagesOut := [], messages;
    for j := 0 to |rows|
      invariant records == Records(rows[..j], byType, textOf, styles)
      invariant messagesOut == messages + Warnings(ExtraCells(rows[..j], byType))
    {
      var record;
      record, messagesOut := ExtractRow(rows[j], messagesOut, byType, textOf, styles);
      assert rows[..j + 1][..j] == rows[..j];
      records := records + [record];
      WarningsAppend(messages, ExtraCells(rows[..j], byType), ExtraCells([rows[j]], byType));
    }
    assert rows[..|rows|] == rows;
  }

  /** The table loop of `odf_parse_extract_table`: the rows of every table, table after table. */
  method ExtractTables(tables: seq<Node>, messages: seq<string>,
                       byType: (Node, string) -> seq<Node>, textOf: Node -> string, styles: StyleTable)
    returns (records: seq<TableRow>, messagesOut: seq<string>)
    requires forall i :: 0 <= i < |tables| ==> RowsOk(byType(tables[i], "table-row"), byType, textOf)
    ensures RowsOk(RowsOf(tables, byType), byType, textOf)
    ensures records == Records(RowsOf(tables, byType), byType, textOf, styles)
    ensures messagesOut == messages + Warnings(ExtraCells(RowsOf(tables, byType), byType))
  {
    records, messagesOut := [], messages;
    for i := 0 to |tables|
      invariant RowsOk(RowsOf(tables[..i], byType), byType, textOf)
      invariant records == Records(RowsOf(tables[..i], byType), byType, textOf, styles)
      invariant messagesOut == messages + Warnings(ExtraCells(RowsOf(tables[..i], byType), byType))
    {
      ghost var done := RowsOf(tables[..i], byType);
      var rows := byType(tables[i], "table-row");
      var more;
      more, messagesOut := ExtractRows(rows, messagesOut, byType, textOf, styles);
      NextTable(tables, i, messages, byType, textOf, styles);
      records := records + more;
    }
    assert tables[..|tables|] == tables;
  }

  /**
   * `odf_parse_extract_table`: fails only when neither a document nor a node is
   * given; otherwise one record per row of every table under the node (or
   * under the document's text body when no node is given), in document order,
   * and one warning appended per cell beyond the second.
   */
  method ParseExtractTable(doc: Option<Document>, node: Option<Node>, messages: seq<string>,
                           byType: (Node, string) -> seq<Node>, textOf: Node -> string, styles: StyleTable)
    returns (result: Result<seq<TableRow>, string>, messagesOut: seq<string>)
    requires StartNode(doc, node).Some? ==> Extractable(StartNode(doc, node).value, byType, textOf)
    ensures doc.None? && node.None? ==> result == Failure(NoArguments) && messagesOut == messages
    ensures (doc.Some? || node.Some?) ==>
      var rows := TableRows(StartNode(doc, node).value, byType);
      && RowsOk(rows, byType, textOf)
      && result == Success(Records(rows, byType, textOf, styles))
      && messagesOut == messages + Warnings(ExtraCells(rows, byType))
  {
    if doc.None? && node.None? {
      return Failure(NoArguments), messages;
    }
    var start := if node.None? then doc.value.text else node.value;
    var ttab;
    ttab, messagesOut := ExtractTables(byType(start, "table"), messages, byType, textOf, styles);
    result := Success(ttab);
  }

  /** The loop step of `ExtractTables`: one more table appends its rows' records and warnings. */
  lemma NextTable(tables: seq<Node>, i: nat, messages: seq<string>,
                  byType: (Node, string) -> seq<Node>, textOf: Node -> string, styles: StyleTable)
    requires i < |tables|
    requires RowsOk(RowsOf(tables[..i], byType), byType, textOf)
    requires RowsOk(byType(tables[i], "table-row"), byType, textOf)
    ensures RowsOk(RowsOf(tables[..i + 1], byType), byType, textOf)
    ensures Records(RowsOf(tables[..i + 1], byType), byType, textOf, styles)
      == Records(RowsOf(tables[..i], byType), byType, textOf, styles)
       + Records(byType(tables[i], "table-row"), byType, textOf, styles)
    ensures messages + Warnings(ExtraCells(RowsOf(tables[..i + 1], byType), byType))
      == (messages + Warnings(ExtraCells(RowsOf(tables[..i], byType), byType)))
       + Warnings(ExtraCells(byType(tables[i], "table-row"), byType))
  {
    var done := RowsOf(tables[..i], byType);
    var rows := byType(tables[i], "table-row");
    RowsOfSnoc(tables, i, byType);
    RecordsAppend(done, rows, byType, textOf, styles);
    ExtraCellsAppend(done, rows, byType);
    WarningsAppend(messages, ExtraCells(done, byType), ExtraCells(rows, byType));
  }

  /** Warnings accumulate: `m` warnings then `n` more are `m + n` warnings. */
  lemma WarningsAppend(messages: seq<string>, m: nat, n: nat)
    ensures (messages + Warnings(m)) + Warnings(n) == messages + Warnings(m + n)
  {
    assert Warnings(m) + Warnings(n) == Warnings(m + n);
  }

  /** The extra cells of two runs of rows add up. */
  lemma {:induction false} ExtraCellsAppend(a: seq<Node>, b: seq<Node>, byType: (Node, string) -> seq<Node>)
    ensures ExtraCells(a + b, byType) == ExtraCells(a, byType) + ExtraCells(b, byType)
  {
    if |b| > 0 {
      var b' := b[..|b| - 1];
      ExtraCellsAppend(a, b', byType);
      assert (a + b)[..|a + b| - 1] == a + b';
    } else {
      assert a + b == a;
    }
  }

  /** Extraction distributes over row runs: the records of `a + b` are those of `a`, then those of `b`. */
  lemma {:induction false} RecordsAppend(a: seq<Node>, b: seq<Node>, byType: (Node, string) -> seq<Node>,
                                         textOf: Node -> string, styles: StyleTable)
    requires RowsOk(a, byType, textOf) && RowsOk(b, byType, textOf)
    ensures RowsOk(a + b, byType, textOf)
    ensures Records(a + b, byType, textOf, styles) == Records(a, byType, textOf, styles) + Records(b, byType, textOf, styles)
  {
    if |b| > 0 {
      var b' := b[..|b| - 1];
      RecordsAppend(a, b', byType, textOf, styles);
      assert (a + b)[..|a + b| - 1] == a + b';
    } else {
      assert a + b == a;
    }
  }

  /** One record per row, in row order: record `k` is the record of row `k`. */
  lemma RecordsPerRow(rows: seq<Node>, byType: (Node, string) -> seq<Node>, textOf: Node -> string,
                      styles: StyleTable)
    requires RowsOk(rows, byType, textOf)
    ensures |Records(rows, byType, textOf, styles)| == |rows|
    ensures forall k :: 0 <= k < |rows| ==> Records(rows, byType, textOf, styles)[k] == RowRecord(rows[k], byType, textOf, styles)
  {
    forall k | 0 <= k < |rows|
      ensures Records(rows, byType, textOf, styles)[k] == RowRecord(rows[k], byType, textOf, styles)
    {
      RecordAt(rows, k, byType, textOf, styles);
    }
  }

  /** Record `k` is the record of row `k`. */
  lemma {:induction false} RecordAt(rows: seq<Node>, k: nat, byType: (Node, string) -> seq<Node>, textOf: Node -> string,
                                    styles: StyleTable)
    requires RowsOk(rows, byType, textOf) && k < |rows|
    ensures Records(rows, byType, textOf, styles)[k] == RowRecord(rows[k], byType, textOf, styles)
  {
    if k == |rows| - 1 {
      RecordOfLastRow(rows, byType, textOf, styles);
    } else {
      var rows' := rows[..|rows| - 1];
      RecordKept(rows, k, byType, textOf, styles);
      RecordAt(rows', k, byType, textOf, styles);
      assert rows'[k] == rows[k];
    }
  }

  /** The last record is the record of the last row. */
  lemma RecordOfLastRow(rows: seq<Node>, byType: (Node, string) -> seq<Node>, textOf: Node -> string, styles: StyleTable)
    requires RowsOk(rows, byType, textOf) && |rows| > 0
    ensures Records(rows, byType, textOf, styles)[|rows| - 1] == RowRecord(rows[|rows| - 1], byType, textOf, styles)
  {
  }

  /** Adding a row leaves the earlier records as they were. */
  lemma RecordKept(rows: seq<Node>, k: nat, byType: (Node, string) -> seq<Node>, textOf: Node -> string, styles: StyleTable)
    requires RowsOk(rows, byType, textOf) && k < |rows| - 1
    ensures RowsOk(rows[..|rows| - 1], byType, textOf)
    ensures Records(rows, byType, textOf, styles)[k] == Records(rows[..|rows| - 1], byType, textOf, styles)[k]
  {
    RowsOkPrefix(rows, byType, textOf);
  }

  /** Dropping the last row keeps the rows well formed. */
  lemma RowsOkPrefix(rows: seq<Node>, byType: (Node, string) -> seq<Node>, textOf: Node -> string)
    requires |rows| > 0 && RowsOk(rows, byType, textOf)
    ensures RowsOk(rows[..|rows| - 1], byType, textOf)
  {
    var rows' := rows[..|rows| - 1];
    forall k | 0 <= k < |rows'|
      ensures RowOk(rows'[k], byType, textOf)
    {
      assert rows'[k] == rows[k];
    }
  }

  /** No warning is emitted exactly when every row has exactly two cells. */
  lemma {:induction false} NoWarningsIffTwoColumns(rows: seq<Node>, byType: (Node, string) -> seq<Node>)
    requires forall k :: 0 <= k < |rows| ==> |byType(rows[k], "table-cell")| >= 2
    ensures ExtraCells(rows, byType) == 0 <==> forall k :: 0 <= k < |rows| ==> |byType(rows[k], "table-cell")| == 2
  {
    if |rows| > 0 {
      var rows' := rows[..|rows| - 1];
      NoWarningsIffTwoColumns(rows', byType);
      assert forall k :: 0 <= k < |rows'| ==> rows'[k] == rows[k];
    }
  }

  /**
   * Row `k`'s record: its code is the first cell's stripped text; its data is
   * the second cell rendered as blocks (with the blank-line rule on) for the
   * five recognised codes, and the second cell's stripped text for any other.
   */
  lemma ExtractedRow(rows: seq<Node>, k: nat, byType: (Node, string) -> seq<Node>, textOf: Node -> string,
                     styles: StyleTable)
    requires RowsOk(rows, byType, textOf) && k < |rows|
    ensures |Records(rows, byType, textOf, styles)| == |rows|
    ensures var rec := Records(rows, byType, textOf, styles)[k];
      var cells := byType(rows[k], "table-cell");
      && rec.contentCode == Strip(textOf(cells[0]))
      && (rec.contentCode in RenderedCodes ==> rec.contentData == RenderBlocks(cells[1], true, styles))
      && (rec.contentCode !in RenderedCodes ==> rec.contentData == Strip(textOf(cells[1])))
  {
    RecordsPerRow(rows, byType, textOf, styles);
  }
}
