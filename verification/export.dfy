/** The row and text construction of lib/export-utils.ts: the same seven
    cells per item rendered as CSV, as an HTML table for Excel, and as the
    rows of a printable page. */
module Export {
  import opened Common

  /** The joined bidder of an exported item. */
  datatype ExportBidder = ExportBidder(fullName: string, email: string)

  /** An exported item; every property the interface marks optional is an
      Option. Amounts are cents. */
  datatype ExportItem = ExportItem(
    id: string,
    title: Option<string>,
    service: Option<string>,
    honor: Option<string>,
    currentBid: int,
    currentBidder: Option<ExportBidder>,
    isPaid: Option<bool>)

  const Headers: seq<string> :=
    ["Title", "Service", "Honor", "Current Bid", "Bidder Name", "Bidder Email", "Paid Status"]

  const ColumnCount := 7
  const NoBids := "No bids"

  function BidderNameCell(b: Option<ExportBidder>): (r: string)
    ensures b.Some? && |b.value.fullName| > 0 ==> r == b.value.fullName
    ensures b.None? || |b.value.fullName| == 0 ==> r == NoBids
  {
    if b.Some? && |b.value.fullName| > 0 then b.value.fullName else NoBids
  }

  function BidderEmailCell(b: Option<ExportBidder>): (r: string)
    ensures b.None? ==> r == ""
    ensures b.Some? ==> r == b.value.email
  {
    if b.Some? then b.value.email else ""
  }

  function PaidCell(isPaid: Option<bool>): (r: string)
    ensures r == "Paid" <==> isPaid == Some(true)
    ensures r != "Paid" ==> r == "Unpaid"
  {
    if isPaid == Some(true) then "Paid" else "Unpaid"
  }

  /** The seven cells of one item, with `bid` as the amount cell. */
  function CellsWith(it: ExportItem, bid: string): (r: seq<string>)
    ensures |r| == ColumnCount
    ensures r[0] == it.title.GetOr("") && r[1] == it.service.GetOr("") && r[2] == it.honor.GetOr("")
    ensures r[3] == bid
    ensures r[4] == BidderNameCell(it.currentBidder) && r[5] == BidderEmailCell(it.currentBidder)
    ensures r[6] == PaidCell(it.isPaid)
  {
    [it.title.GetOr(""), it.service.GetOr(""), it.honor.GetOr(""), bid,
     BidderNameCell(it.currentBidder), BidderEmailCell(it.currentBidder), PaidCell(it.isPaid)]
  }

  /** CSV and Excel: the amount as `current_bid.toString()`. */
  function Cells(it: ExportItem): (r: seq<string>)
    ensures |r| == ColumnCount && r[3] == DollarString(it.currentBid)
  {
    CellsWith(it, DollarString(it.currentBid))
  }

  function Rows(items: seq<ExportItem>): (r: seq<seq<string>>)
    ensures |r| == |items|
    ensures forall k :: 0 <= k < |items| ==> r[k] == Cells(items[k])
  {
    seq(|items|, k requires 0 <= k < |items| => Cells(items[k]))
  }

  // ---------------------------------------------------------------------------
  // CSV

  function Quote(cell: string): string {
    "\"" + cell + "\""
  }

  function QuoteAll(cells: seq<string>): (r: seq<string>)
    ensures |r| == |cells|
    ensures forall k :: 0 <= k < |cells| ==> r[k] == Quote(cells[k])
  {
    seq(|cells|, k requires 0 <= k < |cells| => Quote(cells[k]))
  }

  /** One data line: every cell in double quotes, no escaping. */
  function CsvLine(cells: seq<string>): string {
    Join(QuoteAll(cells), ",")
  }

  function CsvLines(header: seq<string>, rows: seq<seq<string>>): (r: seq<string>)
    ensures |r| == |rows| + 1
    ensures r[0] == Join(header, ",")
    ensures forall k :: 0 <= k < |rows| ==> r[k + 1] == CsvLine(rows[k])
  {
    [Join(header, ",")] + seq(|rows|, k requires 0 <= k < |rows| => CsvLine(rows[k]))
  }

  /** The unquoted header line, then one line per row, joined by newlines. */
  function CsvText(header: seq<string>, rows: seq<seq<string>>): string {
    Join(CsvLines(header, rows), "\n")
  }

  /** `exportToCSV`'s text. */
  function Csv(items: seq<ExportItem>): string {
    CsvText(Headers, Rows(items))
  }

  // Reading a CSV back

  function Unquote(cell: string): string {
    if |cell| >= 2 && cell[0] == '"' && cell[|cell| - 1] == '"' then cell[1..|cell| - 1] else cell
  }

  function ParseLine(line: string): (r: seq<string>)
  {
    var fields := Split(line, ',');
    seq(|fields|, k requires 0 <= k < |fields| => Unquote(fields[k]))
  }

  /** A plain reader: lines on newline, fields on comma, outer quotes
      dropped. */
  function ParseCsv(text: string): (r: (seq<string>, seq<seq<string>>))
  {
    var lines := Split(text, '\n');
    (Split(lines[0], ','), seq(|lines| - 1, k requires 0 <= k < |lines| - 1 => ParseLine(lines[k + 1])))
  }

  /** Text the unescaped format carries intact. */
  predicate Plain(s: string) {
    ',' !in s && '"' !in s && '\n' !in s
  }

  predicate PlainItem(it: ExportItem) {
    Plain(it.title.GetOr("")) && Plain(it.service.GetOr("")) && Plain(it.honor.GetOr("")) &&
    Plain(BidderNameCell(it.currentBidder)) && Plain(BidderEmailCell(it.currentBidder))
  }

  lemma HeadersArePlain()
    ensures forall k :: 0 <= k < |Headers| ==> Plain(Headers[k])
  {
    forall k | 0 <= k < |Headers|
      ensures Plain(Headers[k])
    {
      var h := Headers[k];
      assert h in ["Title", "Service", "Honor", "Current Bid", "Bidder Name", "Bidder Email", "Paid Status"];
    }
  }

  lemma CellsArePlain(it: ExportItem)
    requires PlainItem(it)
    ensures forall k :: 0 <= k < |Cells(it)| ==> Plain(Cells(it)[k])
  {
    var c := Cells(it);
    assert Plain(c[6]);
  }

  lemma {:induction false} LineRoundTrip(cells: seq<string>)
    requires |cells| >= 1
    requires forall k :: 0 <= k < |cells| ==> Plain(cells[k])
    ensures ParseLine(CsvLine(cells)) == cells
    ensures '\n' !in CsvLine(cells)
  {
    var q := QuoteAll(cells);
    forall k | 0 <= k < |q|
      ensures ',' !in q[k] && '\n' !in q[k]
    {
      assert q[k] == "\"" + cells[k] + "\"";
    }
    SplitJoin(q, ',');
    JoinAvoids(q, ",", '\n');
    forall k | 0 <= k < |cells|
      ensures Unquote(q[k]) == cells[k]
    {
      assert q[k][1..|q[k]| - 1] == cells[k];
    }
  }

  /** Reading text whose lines hold no newline splits it back into those
      lines. */
  lemma ParseJoinedLines(lines: seq<string>)
    requires |lines| >= 1
    requires forall k :: 0 <= k < |lines| ==> '\n' !in lines[k]
    ensures ParseCsv(Join(lines, "\n")).0 == Split(lines[0], ',')
    ensures |ParseCsv(Join(lines, "\n")).1| == |lines| - 1
    ensures forall k :: 0 <= k < |lines| - 1 ==> ParseCsv(Join(lines, "\n")).1[k] == ParseLine(lines[k + 1])
  {
    SplitJoin(lines, '\n');
  }

  /** The lines of a CSV of plain cells hold no newline, and each data line
      reads back as its row. */
  lemma CsvLinesReadBack(header: seq<string>, rows: seq<seq<string>>)
    requires |header| >= 1 && forall k :: 0 <= k < |header| ==> Plain(header[k])
    requires forall k :: 0 <= k < |rows| ==> |rows[k]| >= 1
    requires forall k, j :: 0 <= k < |rows| && 0 <= j < |rows[k]| ==> Plain(rows[k][j])
    ensures forall k :: 0 <= k < |rows| + 1 ==> '\n' !in CsvLines(header, rows)[k]
    ensures forall k :: 0 <= k < |rows| ==> ParseLine(CsvLines(header, rows)[k + 1]) == rows[k]
  {
    var lines := CsvLines(header, rows);
    forall k | 0 <= k < |rows|
      ensures ParseLine(lines[k + 1]) == rows[k] && '\n' !in lines[k + 1]
    {
      LineRoundTrip(rows[k]);
    }
    JoinAvoids(header, ",", '\n');
    forall k | 0 <= k < |lines|
      ensures '\n' !in lines[k]
    {
      if k > 0 {
        assert lines[(k - 1) + 1] == lines[k];
      }
    }
  }

  lemma {:induction false} CsvTextRoundTrip(header: seq<string>, rows: seq<seq<string>>)
    requires |header| >= 1 && forall k :: 0 <= k < |header| ==> Plain(header[k])
    requires forall k :: 0 <= k < |rows| ==> |rows[k]| >= 1
    requires forall k, j :: 0 <= k < |rows| && 0 <= j < |rows[k]| ==> Plain(rows[k][j])
    ensures ParseCsv(CsvText(header, rows)) == (header, rows)
  {
    var lines := CsvLines(header, rows);
    CsvLinesReadBack(header, rows);
    ParseJoinedLines(lines);
    SplitJoin(header, ',');
    var parsed := ParseCsv(Join(lines, "\n"));
    assert parsed.1 == rows;
  }

  /** When no cell holds a comma, a quote or a newline, reading the CSV
      back gives the header and exactly one seven-cell row per item, in
      order. */
  lemma CsvRoundTrip(items: seq<ExportItem>)
    requires forall k :: 0 <= k < |items| ==> PlainItem(items[k])
    ensures ParseCsv(Csv(items)) == (Headers, Rows(items))
  {
    HeadersArePlain();
    var rows := Rows(items);
    forall k, j | 0 <= k < |rows| && 0 <= j < |rows[k]|
      ensures Plain(rows[k][j])
    {
      CellsArePlain(items[k]);
    }
    CsvTextRoundTrip(Headers, rows);
  }

  // ---------------------------------------------------------------------------
  // Excel (an HTML table)

  function Tagged(tag: string, cells: seq<string>): (r: seq<string>)
    ensures |r| == |cells|
    ensures forall k :: 0 <= k < |cells| ==> r[k] == "<" + tag + ">" + cells[k] + "</" + tag + ">"
  {
    seq(|cells|, k requires 0 <= k < |cells| => "<" + tag + ">" + cells[k] + "</" + tag + ">")
  }

  function TableRow(cells: seq<string>): string {
    "<tr>" + Join(Tagged("td", cells), "") + "</tr>"
  }

  function TableRows(rows: seq<seq<string>>): (r: seq<string>)
    ensures |r| == |rows|
    ensures forall k :: 0 <= k < |rows| ==> r[k] == TableRow(rows[k])
  {
    seq(|rows|, k requires 0 <= k < |rows| => TableRow(rows[k]))
  }

  function TableOpen(header: seq<string>): string {
    "<table><thead><tr>" + Join(Tagged("th", header), "") + "</tr></thead><tbody>"
  }

  const TableEnd := "</tbody></table>"

  /** A header row of `th` cells, then one `tr` of `td` cells per row. */
  function Table(header: seq<string>, rows: seq<seq<string>>): string {
    TableOpen(header) + Join(TableRows(rows), "") + TableEnd
  }

  /** `exportToExcel`'s text. */
  function Excel(items: seq<ExportItem>): string {
    Table(Headers, Rows(items))
  }

  /** Adding a row adds exactly one `tr`, after the earlier ones. */
  lemma TableAppend(header: seq<string>, rows: seq<seq<string>>, row: seq<string>)
    ensures Table(header, rows + [row]) ==
      TableOpen(header) + Join(TableRows(rows), "") + TableRow(row) + TableEnd
  {
    assert TableRows(rows + [row]) == TableRows(rows) + [TableRow(row)];
    ConcatAppend(TableRows(rows), TableRow(row));
  }

  /** The Excel table grows by exactly one row, holding the new item's
      cells, placed after the rows before it. */
  lemma ExcelAppend(items: seq<ExportItem>, it: ExportItem)
    ensures Excel(items + [it]) ==
      TableOpen(Headers) + Join(TableRows(Rows(items)), "") + TableRow(Cells(it)) + TableEnd
  {
    assert Rows(items + [it]) == Rows(items) + [Cells(it)];
    TableAppend(Headers, Rows(items), Cells(it));
  }

  // ---------------------------------------------------------------------------
  // PDF (a printable page)

  /** `exportToPDF`'s cells: the amount as "$" and the locale rendering
      `format`, a parameter here, the rest as in the CSV. */
  function PdfCells(it: ExportItem, format: int -> string): (r: seq<string>)
    ensures |r| == ColumnCount
    ensures r[3] == "$" + format(it.currentBid)
    ensures forall k :: 0 <= k < ColumnCount && k != 3 ==> r[k] == Cells(it)[k]
  {
    CellsWith(it, "$" + format(it.currentBid))
  }

  function PdfRows(items: seq<ExportItem>, format: int -> string): (r: seq<seq<string>>)
    ensures |r| == |items|
    ensures forall k :: 0 <= k < |items| ==> r[k] == PdfCells(items[k], format)
  {
    seq(|items|, k requires 0 <= k < |items| => PdfCells(items[k], format))
  }
}
