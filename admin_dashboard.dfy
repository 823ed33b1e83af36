/**
 * The report dashboard of the admin console: the CSV export of the loaded reports and the
 * report query with its optional, inclusive issue-date range.
 *
 * The export quotes every data cell the way section 2 of RFC 4180 describes (rules 5 to 7:
 * the field is enclosed in double quotes and each double quote inside it is doubled). It
 * departs from RFC 4180 in two ways: the header row is not quoted, and
 * records are separated by a line feed alone rather than CRLF. A reader for that format is
 * given here as the export's inverse, and reading an export back yields the header and every
 * report's cells, in order.
 */
module AdminDashboard {
  import opened Wrappers
  import opened JsText

  /** The website and status a report row is joined with; either join may be missing. */
  datatype WebsiteRef = WebsiteRef(name: string)
  datatype StatusRef = StatusRef(name: string, color: Option<string>)

  /** A report row as loaded with its joined website and status names. Dates are the text the
      database returns: `issueDate` as `yyyy-MM-dd`, `createdAt` as an ISO-8601 timestamp. */
  datatype Report = Report(
    id: string,
    username: string,
    whatsapp: string,
    issueDate: string,
    issueTitle: string,
    issueDescription: string,
    imageUrl: Option<string>,
    createdAt: string,
    website: Option<WebsiteRef>,
    status: Option<StatusRef>)

  // ---------------------------------------------------------------------------
  // CSV export
  // ---------------------------------------------------------------------------

  const Headers: seq<string> :=
    ["ID", "Username", "WhatsApp", "Tanggal Kendala", "Kendala", "Website", "Isi Kendala", "Status", "Dibuat"]

  function WebsiteName(r: Report): string {
    if r.website.Some? then r.website.value.name else ""
  }

  function StatusName(r: Report): string {
    if r.status.Some? then r.status.value.name else ""
  }

  /** The nine cells of a report's row, one per header column. */
  function Cells(r: Report): (cells: seq<string>)
    ensures |cells| == |Headers|
  {
    [r.id, r.username, r.whatsapp, r.issueDate, r.issueTitle,
     WebsiteName(r), r.issueDescription, StatusName(r), r.createdAt]
  }

  function AllCells(reports: seq<Report>): (rows: seq<seq<string>>)
    ensures |rows| == |reports|
    ensures forall i :: 0 <= i < |reports| ==> rows[i] == Cells(reports[i])
  {
    if reports == [] then [] else [Cells(reports[0])] + AllCells(reports[1..])
  }

  /** Every double quote doubled: `replace(/"/g, '""')`. */
  function Escape(c: string): string {
    if c == [] then [] else (if c[0] == '"' then "\"\"" else [c[0]]) + Escape(c[1..])
  }

  /** A data cell as written: enclosed in double quotes with its inner quotes doubled. */
  function Quote(c: string): string {
    "\"" + Escape(c) + "\""
  }

  /** Each cell written as a quoted field, in order. */
  function QuoteAll(cells: seq<string>): (q: seq<string>)
    ensures |q| == |cells|
    ensures forall i :: 0 <= i < |q| ==> q[i] == Quote(cells[i])
  {
    if cells == [] then [] else [Quote(cells[0])] + QuoteAll(cells[1..])
  }

  function RowLine(r: Report): string {
    Join(QuoteAll(Cells(r)), ",")
  }

  /** Each report written as one data line, in order. */
  function Lines(reports: seq<Report>): (lines: seq<string>)
    ensures |lines| == |reports|
    ensures forall i :: 0 <= i < |lines| ==> lines[i] == RowLine(reports[i])
  {
    if reports == [] then [] else [RowLine(reports[0])] + Lines(reports[1..])
  }

  /** `exportCSV`: the unquoted header line, then one line per report, joined by `\n`. */
  function ExportCsv(reports: seq<Report>): string {
    Join([Join(Headers, ",")] + Lines(reports), "\n")
  }

  // ---------------------------------------------------------------------------
  // A reader for the exported format
  // ---------------------------------------------------------------------------

  /** Collapses each doubled quote into one: the inverse of `Escape`. */
  function Collapse(e: string): string
    decreases |e|
  {
    if e == [] then []
    else if |e| >= 2 && e[0] == '"' && e[1] == '"' then "\"" + Collapse(e[2..])
    else [e[0]] + Collapse(e[1..])
  }

  /** Strips the enclosing quotes of a quoted cell and collapses its doubled quotes. */
  function Unquote(q: string): string {
    if |q| >= 2 then Collapse(q[1..|q| - 1]) else q
  }

  /**
   * Reads the inside of a quoted field, `s` starting just after its opening quote: a doubled
   * quote stands for one quote, a lone quote closes the field. Gives the field's text and what
   * follows the closing quote; `None` when the field is not closed.
   */
  function ReadQuoted(s: string): (r: Option<(string, string)>)
    ensures r.Some? ==> |r.value.1| < |s|
    decreases |s|
  {
    if s == [] then None
    else if s[0] == '"' then
      if |s| >= 2 && s[1] == '"' then
        match ReadQuoted(s[2..])
        case None => None
        case Some((c, rest)) => Some(("\"" + c, rest))
      else Some(([], s[1..]))
    else
      match ReadQuoted(s[1..])
      case None => None
      case Some((c, rest)) => Some(([s[0]] + c, rest))
  }

  /** Reads one record: quoted fields separated by commas. Gives its fields and the rest. */
  function ReadFields(s: string): (r: Option<(seq<string>, string)>)
    ensures r.Some? ==> |r.value.1| < |s| && r.value.0 != []
    decreases |s|
  {
    if s == [] || s[0] != '"' then None
    else
      match ReadQuoted(s[1..])
      case None => None
      case Some((c, rest)) =>
        if rest != [] && rest[0] == ',' then
          match ReadFields(rest[1..])
          case None => None
          case Some((cs, rest')) => Some(([c] + cs, rest'))
        else Some(([c], rest))
  }

  /** Reads records separated by `\n` up to the end of the text. */
  function ReadRecords(s: string): Option<seq<seq<string>>>
    decreases |s|
  {
    match ReadFields(s)
    case None => None
    case Some((fields, rest)) =>
      if rest == [] then Some([fields])
      else if rest[0] == '\n' then
        match ReadRecords(rest[1..])
        case None => None
        case Some(records) => Some([fields] + records)
      else None
  }

  /** Reads an export: the header line split at commas, then the quoted records, if any. */
  function ParseExport(s: string): Option<(seq<string>, seq<seq<string>>)> {
    var i := IndexOf(s, '\n');
    var header := Split(s[..i], ',');
    if i == |s| then Some((header, []))
    else
      match ReadRecords(s[i + 1..])
      case None => None
      case Some(records) => Some((header, records))
  }

  // ---------------------------------------------------------------------------
  // Round trips
  // ---------------------------------------------------------------------------

  /** Collapsing doubled quotes undoes the escape. */
  lemma {:induction false} CollapseEscape(c: string)
    ensures Collapse(Escape(c)) == c
  {
    if c != [] {
      var e := Escape(c);
      var tail := Escape(c[1..]);
      CollapseEscape(c[1..]);
      assert c == [c[0]] + c[1..];
      if c[0] == '"' {
        assert e == "\"\"" + tail;
        assert e[2..] == tail;
        assert Collapse(e) == "\"" + Collapse(tail);
      } else {
        assert e == [c[0]] + tail;
        assert e[1..] == tail;
        assert Collapse(e) == [c[0]] + Collapse(tail);
      }
    }
  }

  /** Stripping the quotes of a written cell and collapsing its doubled quotes gives the cell back. */
  lemma UnquoteQuote(c: string)
    ensures Unquote(Quote(c)) == c
  {
    var q := Quote(c);
    assert q[1..|q| - 1] == Escape(c);
    CollapseEscape(c);
  }

  /** The reader recovers a quoted cell, provided what follows it is not another quote. */
  lemma {:induction false} ReadEscaped(c: string, rest: string)
    requires rest == [] || rest[0] != '"'
    ensures ReadQuoted(Escape(c) + "\"" + rest) == Some((c, rest))
  {
    if c == [] {
      assert Escape(c) + "\"" + rest == "\"" + rest;
    } else {
      var tail := Escape(c[1..]) + "\"" + rest;
      ReadEscaped(c[1..], rest);
      assert c == [c[0]] + c[1..];
      if c[0] == '"' {
        assert Escape(c) + "\"" + rest == "\"\"" + tail;
        assert ("\"\"" + tail)[2..] == tail;
      } else {
        assert Escape(c) + "\"" + rest == [c[0]] + tail;
        assert ([c[0]] + tail)[1..] == tail;
      }
    }
  }

  /** A written cell followed by the end of its record. */
  lemma ReadLastField(c: string, rest: string)
    requires rest == [] || rest[0] == '\n'
    ensures ReadFields(Quote(c) + rest) == Some(([c], rest))
  {
    var x := Escape(c) + "\"" + rest;
    assert Quote(c) + rest == "\"" + x;
    assert ("\"" + x)[1..] == x;
    ReadEscaped(c, rest);
  }

  /** A written cell followed by a comma and further fields. */
  lemma ReadNextField(c: string, more: string)
    ensures ReadFields(more).Some? ==>
      ReadFields(Quote(c) + "," + more) == Some(([c] + ReadFields(more).value.0, ReadFields(more).value.1))
  {
    var x := Escape(c) + "\"" + ("," + more);
    assert Quote(c) + "," + more == "\"" + x;
    assert ("\"" + x)[1..] == x;
    ReadEscaped(c, "," + more);
    assert ("," + more)[1..] == more;
  }

  /** The reader recovers the cells of a written row. */
  lemma {:induction false} ReadRow(cells: seq<string>, rest: string)
    requires cells != []
    requires rest == [] || rest[0] == '\n'
    ensures ReadFields(Join(QuoteAll(cells), ",") + rest) == Some((cells, rest))
  {
    var q := QuoteAll(cells);
    if |cells| == 1 {
      assert Join(q, ",") == Quote(cells[0]);
      ReadLastField(cells[0], rest);
      assert cells == [cells[0]];
    } else {
      var more := Join(QuoteAll(cells[1..]), ",") + rest;
      assert q[1..] == QuoteAll(cells[1..]);
      assert Join(q, ",") + rest == Quote(cells[0]) + "," + more;
      ReadRow(cells[1..], rest);
      ReadNextField(cells[0], more);
      assert cells == [cells[0]] + cells[1..];
    }
  }

  /** The reader recovers every report's cells, in order, from the data lines. */
  lemma {:induction false} ReadLines(reports: seq<Report>)
    requires reports != []
    ensures ReadRecords(Join(Lines(reports), "\n")) == Some(AllCells(reports))
  {
    var lines := Lines(reports);
    if |reports| == 1 {
      var row := Join(QuoteAll(Cells(reports[0])), ",");
      ReadRow(Cells(reports[0]), "");
      assert row + "" == row;
      assert Join(lines, "\n") == row;
      assert AllCells(reports) == [Cells(reports[0])];
    } else {
      var more := Join(Lines(reports[1..]), "\n");
      assert lines[1..] == Lines(reports[1..]);
      assert Join(lines, "\n") == Join(QuoteAll(Cells(reports[0])), ",") + ("\n" + more);
      ReadRow(Cells(reports[0]), "\n" + more);
      assert ("\n" + more)[1..] == more;
      ReadLines(reports[1..]);
    }
  }

  lemma HeadersPlain()
    ensures |Headers| == 9
    ensures forall k :: 0 <= k < |Headers| ==> ',' !in Headers[k] && '\n' !in Headers[k] && '"' !in Headers[k]
  {
  }

  /**
   * Reading back a header line of plain names followed by the written rows gives the names
   * and, for every report in order, its cells.
   */
  lemma {:induction false} ReadWritten(names: seq<string>, reports: seq<Report>)
    requires names != []
    requires forall k :: 0 <= k < |names| ==> ',' !in names[k] && '\n' !in names[k]
    ensures ParseExport(Join([Join(names, ",")] + Lines(reports), "\n")) == Some((names, AllCells(reports)))
  {
    var header := Join(names, ",");
    assert "," == [','];
    JoinAvoids(names, ",", '\n');
    SplitJoin(names, ',');
    var csv := Join([header] + Lines(reports), "\n");
    if reports == [] {
      assert csv == header;
      NoSeparator(header, '\n');
      assert csv[..|csv|] == csv;
    } else {
      var data := Join(Lines(reports), "\n");
      assert ([header] + Lines(reports))[1..] == Lines(reports);
      assert csv == header + ("\n" + data);
      IndexOfPrefix(header, '\n', "\n" + data);
      assert csv[..|header|] == header;
      assert csv[|header| + 1..] == data;
      ReadLines(reports);
    }
  }

  /**
   * Reading an export back gives the nine header names and, for every report in order, its
   * nine cells: the data rows are the reports' rows, one per report, and nothing is lost by
   * the quoting.
   */
  lemma ExportRoundTrip(reports: seq<Report>)
    ensures ParseExport(ExportCsv(reports)) == Some((Headers, AllCells(reports)))
  {
    HeadersPlain();
    ReadWritten(Headers, reports);
  }

  // ---------------------------------------------------------------------------
  // The report query
  // ---------------------------------------------------------------------------

  datatype Column = IssueDate | CreatedAt

  /** A filter the query builder adds: `.gte(column, value)` or `.lte(column, value)`. */
  datatype Filter = Gte(column: Column, value: string) | Lte(column: Column, value: string)

  /** The query sent for the reports table: its ordering and its filters. */
  datatype ReportQuery = ReportQuery(orderBy: Column, ascending: bool, filters: seq<Filter>)

  function ColumnValue(r: Report, c: Column): string {
    match c
    case IssueDate => r.issueDate
    case CreatedAt => r.createdAt
  }

  predicate FilterHolds(f: Filter, r: Report) {
    match f
    case Gte(c, v) => LexLeq(v, ColumnValue(r, c))
    case Lte(c, v) => LexLeq(ColumnValue(r, c), v)
  }

  /** The rows a query keeps: those that satisfy all of its filters. */
  predicate Selects(q: ReportQuery, r: Report) {
    forall k :: 0 <= k < |q.filters| ==> FilterHolds(q.filters[k], r)
  }

  /** The date range the dashboard asks for; either bound may be absent, both are inclusive. */
  predicate InRange(r: Report, from: Option<string>, to: Option<string>) {
    (from.None? || LexLeq(from.value, r.issueDate)) && (to.None? || LexLeq(r.issueDate, to.value))
  }

  function FilterRows(q: ReportQuery, rows: seq<Report>): (kept: seq<Report>)
    ensures forall r :: r in kept <==> r in rows && Selects(q, r)
  {
    if rows == [] then []
    else (if Selects(q, rows[0]) then [rows[0]] else []) + FilterRows(q, rows[1..])
  }

  predicate SortedBy(rows: seq<Report>, c: Column, ascending: bool) {
    forall i, j :: 0 <= i < j < |rows| ==>
      if ascending then LexLeq(ColumnValue(rows[i], c), ColumnValue(rows[j], c))
      else LexLeq(ColumnValue(rows[j], c), ColumnValue(rows[i], c))
  }

  /** What the database may answer to a query over `table`: the selected rows, each as often as
      in the table, in the query's order (rows with equal keys in any order). */
  predicate IsAnswer(q: ReportQuery, table: seq<Report>, answer: seq<Report>) {
    multiset(answer) == multiset(FilterRows(q, table)) && SortedBy(answer, q.orderBy, q.ascending)
  }

  /** Every row of an answer is a table row in the date range, and every table row in the
      range is in the answer. */
  lemma AnswerIsRange(q: ReportQuery, table: seq<Report>, answer: seq<Report>, from: Option<string>, to: Option<string>)
    requires IsAnswer(q, table, answer)
    requires forall r :: Selects(q, r) <==> InRange(r, from, to)
    ensures forall r :: r in answer <==> r in table && InRange(r, from, to)
  {
    forall r
      ensures r in answer <==> r in table && InRange(r, from, to)
    {
      assert r in answer <==> r in multiset(answer);
      assert r in FilterRows(q, table) <==> r in multiset(FilterRows(q, table));
    }
  }

  /** The dashboard's page state. */
  class Dashboard {
    var reports: seq<Report>
    var dateFrom: Option<string>
    var dateTo: Option<string>
    var loading: bool

    constructor ()
      ensures reports == [] && dateFrom.None? && dateTo.None? && loading
    {
      reports, dateFrom, dateTo, loading := [], None, None, true;
    }

    /**
     * `fetchReports`: builds the query (newest first, then a lower bound when `dateFrom` is
     * set and an upper bound when `dateTo` is set) and stores what the database answered,
     * or the empty list when it answered no data. The dates are the `yyyy-MM-dd` text of
     * the chosen days.
     */
    method FetchReports(data: Option<seq<Report>>) returns (query: ReportQuery)
      modifies this
      ensures query.orderBy == CreatedAt && !query.ascending
      ensures forall r :: Selects(query, r) <==> InRange(r, dateFrom, dateTo)
      ensures reports == data.GetOr([]) && !loading
      ensures dateFrom == old(dateFrom) && dateTo == old(dateTo)
    {
      loading := true;
      query := ReportQuery(CreatedAt, false, []);
      if dateFrom.Some? {
        query := query.(filters := query.filters + [Gte(IssueDate, dateFrom.value)]);
      }
      if dateTo.Some? {
        query := query.(filters := query.filters + [Lte(IssueDate, dateTo.value)]);
      }
      forall r
        ensures Selects(query, r) <==> InRange(r, dateFrom, dateTo)
      {
        if dateFrom.Some? && dateTo.Some? {
          assert query.filters == [Gte(IssueDate, dateFrom.value), Lte(IssueDate, dateTo.value)];
          assert Selects(query, r) <==> FilterHolds(query.filters[0], r) && FilterHolds(query.filters[1], r);
        } else if dateFrom.Some? {
          assert query.filters == [Gte(IssueDate, dateFrom.value)];
          assert Selects(query, r) <==> FilterHolds(query.filters[0], r);
        } else if dateTo.Some? {
          assert query.filters == [Lte(IssueDate, dateTo.value)];
          assert Selects(query, r) <==> FilterHolds(query.filters[0], r);
        } else {
          assert query.filters == [];
        }
      }
      reports := data.GetOr([]);
      loading := false;
    }
  }
}
