/** The purchase-order CSV export: a fixed header line, then one line per
    row of six double-quoted cells, each the column's text or empty for
    `null`. The cells are written verbatim between the quotes, so a text
    holding a double quote is not recoverable from the file; the export with
    doubled inner quotes (section 2, rule 7 of RFC 4180) is given beside it,
    with a decoder that reads both. */
module CsvExport {
  import opened Outcomes

  /** A row of the export query: date, time and the four purchase-order
      fields; `None` is SQL `NULL`. */
  datatype CsvRow = CsvRow(
    date: Option<string>,
    time: Option<string>,
    description: Option<string>,
    unitNumber: Option<string>,
    customer: Option<string>,
    vendorSupplier: Option<string>)

  const Header: string := "Date,Time,Description,Unit Number,Customer,Vendor/Supplier\n"

  /** How a cell's text is put between its quotes. */
  datatype Quoting = Verbatim | DoubledQuotes

  /** `value || ''` for each column, in column order; `NULL` and the empty
      text give the same cell. */
  function Texts(row: CsvRow): (ts: seq<string>)
    ensures |ts| == 6
  {
    [row.date.GetOr(""), row.time.GetOr(""), row.description.GetOr(""),
     row.unitNumber.GetOr(""), row.customer.GetOr(""), row.vendorSupplier.GetOr("")]
  }

  function TextsOf(rows: seq<CsvRow>): (r: seq<seq<string>>)
    ensures |r| == |rows|
    ensures forall i :: 0 <= i < |rows| ==> r[i] == Texts(rows[i])
    decreases |rows|
  {
    if |rows| == 0 then [] else [Texts(rows[0])] + TextsOf(rows[1..])
  }

  function EscapeChar(c: char): string
  {
    if c == '"' then "\"\"" else [c]
  }

  /** Every double quote doubled. */
  function Escape(s: string): (r: string)
    ensures |r| >= |s|
    ensures '"' !in s ==> r == s
    decreases |s|
  {
    if |s| == 0 then [] else EscapeChar(s[0]) + Escape(s[1..])
  }

  function Cell(q: Quoting, text: string): string
  {
    "\"" + (if q.DoubledQuotes? then Escape(text) else text) + "\""
  }

  /** The cells of a line, separated by commas. */
  function Cells(q: Quoting, texts: seq<string>): string
    requires |texts| >= 1
    decreases |texts|
  {
    if |texts| == 1 then Cell(q, texts[0])
    else Cell(q, texts[0]) + "," + Cells(q, texts[1..])
  }

  function Line(q: Quoting, row: CsvRow): string
  {
    Cells(q, Texts(row)) + "\n"
  }

  function Lines(q: Quoting, rows: seq<CsvRow>): string
    decreases |rows|
  {
    if |rows| == 0 then [] else Line(q, rows[0]) + Lines(q, rows[1..])
  }

  function Export(q: Quoting, rows: seq<CsvRow>): (csv: string)
    ensures |csv| >= |Header| && csv[..|Header|] == Header
  {
    Header + Lines(q, rows)
  }

  /** The export as the route builds it. */
  function ExportCsv(rows: seq<CsvRow>): (csv: string)
    ensures |csv| >= |Header| && csv[..|Header|] == Header
  {
    Export(Verbatim, rows)
  }

  /** The export with inner quotes doubled. */
  function ExportCsvEscaped(rows: seq<CsvRow>): (csv: string)
    ensures |csv| >= |Header| && csv[..|Header|] == Header
  {
    Export(DoubledQuotes, rows)
  }

  lemma {:induction false} LinesAppend(q: Quoting, rows: seq<CsvRow>, row: CsvRow)
    ensures Lines(q, rows + [row]) == Lines(q, rows) + Line(q, row)
    decreases |rows|
  {
    if |rows| == 0 {
      assert rows + [row] == [row];
      assert [row][1..] == [];
    } else {
      assert (rows + [row])[0] == rows[0];
      assert (rows + [row])[1..] == rows[1..] + [row];
      LinesAppend(q, rows[1..], row);
    }
  }

  /** The route appends one line per row, in query order: exporting one row
      more appends exactly that row's line. */
  lemma ExportAppendsLine(q: Quoting, rows: seq<CsvRow>, row: CsvRow)
    ensures Export(q, rows + [row]) == Export(q, rows) + Line(q, row)
  {
    LinesAppend(q, rows, row);
    assert Header + (Lines(q, rows) + Line(q, row)) == (Header + Lines(q, rows)) + Line(q, row);
  }

  // ---------------------------------------------------------------------
  // Reading the file back
  // ---------------------------------------------------------------------

  /** The text of a quoted cell, read from just after its opening quote: a
      doubled quote stands for one quote, a single quote closes the cell.
      Yields the text and what follows the closing quote. */
  function ReadQuoted(s: string): (r: Option<(string, string)>)
    ensures r.Some? ==> |r.value.1| < |s|
    decreases |s|
  {
    if |s| == 0 then None
    else if s[0] != '"' then
      match ReadQuoted(s[1..])
      case None => None
      case Some((text, rest)) => Some(([s[0]] + text, rest))
    else if |s| >= 2 && s[1] == '"' then
      match ReadQuoted(s[2..])
      case None => None
      case Some((text, rest)) => Some(("\"" + text, rest))
    else Some(([], s[1..]))
  }

  function ReadCell(s: string): (r: Option<(string, string)>)
    ensures r.Some? ==> |r.value.1| < |s|
  {
    if |s| > 0 && s[0] == '"' then ReadQuoted(s[1..]) else None
  }

  /** `n` cells separated by commas, and what follows the last. */
  function ReadCells(s: string, n: nat): (r: Option<(seq<string>, string)>)
    requires n >= 1
    ensures r.Some? ==> |r.value.0| == n && |r.value.1| < |s|
    decreases n
  {
    match ReadCell(s)
    case None => None
    case Some((text, rest)) =>
      if n == 1 then Some(([text], rest))
      else if |rest| > 0 && rest[0] == ',' then
        match ReadCells(rest[1..], n - 1)
        case None => None
        case Some((texts, after)) => Some(([text] + texts, after))
      else None
  }

  /** Lines of six cells, each ended by a newline, to the end of the text. */
  function ReadLines(s: string): (r: Option<seq<seq<string>>>)
    decreases |s|
  {
    if |s| == 0 then Some([])
    else
      match ReadCells(s, 6)
      case None => None
      case Some((texts, rest)) =>
        if |rest| > 0 && rest[0] == '\n' then
          match ReadLines(rest[1..])
          case None => None
          case Some(lines) => Some([texts] + lines)
        else None
  }

  /** The header, then the lines. */
  function DecodeCsv(csv: string): Option<seq<seq<string>>>
  {
    if |csv| >= |Header| && csv[..|Header|] == Header then ReadLines(csv[|Header|..]) else None
  }

  /** What may follow a cell: anything but a quote, which would read as a
      doubled quote. */
  predicate EndsCell(rest: string)
  {
    rest == [] || rest[0] != '"'
  }

  /** Reading one escaped character, then the rest. */
  lemma ReadQuotedStep(c: char, tail: string)
    ensures ReadQuoted(EscapeChar(c) + tail) ==
      match ReadQuoted(tail)
      case None => None
      case Some(p) => Some(([c] + p.0, p.1))
  {
    var s := EscapeChar(c) + tail;
    if c == '"' {
      assert s[2..] == tail;
    } else {
      assert s[1..] == tail;
    }
  }

  /** A lone quote closes the cell. */
  lemma ReadClosingQuote(rest: string)
    requires EndsCell(rest)
    ensures ReadQuoted("\"" + rest) == Some(([], rest))
  {
    assert ("\"" + rest)[1..] == rest;
  }

  lemma Assoc(a: string, b: string, c: string)
    ensures (a + b) + c == a + (b + c)
  {
  }

  /** An escaped text followed by the closing quote reads back as the text;
      `after` starts with the closing quote. */
  lemma {:induction false} ReadEscaped(text: string, after: string)
    requires |after| > 0 && after[0] == '"' && EndsCell(after[1..])
    ensures ReadQuoted(Escape(text) + after) == Some((text, after[1..]))
    decreases |text|
  {
    if |text| == 0 {
      assert Escape(text) + after == after;
      assert after == "\"" + after[1..];
      ReadClosingQuote(after[1..]);
    } else {
      var tail := Escape(text[1..]) + after;
      Assoc(EscapeChar(text[0]), Escape(text[1..]), after);
      ReadEscaped(text[1..], after);
      ReadQuotedStep(text[0], tail);
      assert [text[0]] + text[1..] == text;
    }
  }

  lemma CellRoundTrip(text: string, rest: string)
    requires EndsCell(rest)
    ensures ReadCell(Cell(DoubledQuotes, text) + rest) == Some((text, rest))
  {
    var q := "\"";
    var e := Escape(text);
    var after := q + rest;
    Assoc(q + e, q, rest);
    Assoc(q, e, after);
    assert (q + (e + after))[1..] == e + after;
    assert after[1..] == rest;
    ReadEscaped(text, after);
  }

  /** The cells of a list of two or more texts are the first cell, a comma,
      and the cells of the rest. */
  lemma CellsFront(texts: seq<string>, rest: string)
    requires |texts| >= 2
    ensures Cells(DoubledQuotes, texts) + rest ==
      Cell(DoubledQuotes, texts[0]) + ("," + (Cells(DoubledQuotes, texts[1..]) + rest))
  {
    var first := Cell(DoubledQuotes, texts[0]);
    var others := Cells(DoubledQuotes, texts[1..]);
    assert Cells(DoubledQuotes, texts) == first + "," + others;
    Assoc(first + ",", others, rest);
    Assoc(first, ",", others + rest);
  }

  /** Reading `|texts|` cells: the first cell, then a comma and the rest. */
  lemma ReadCellsFront(s: string, texts: seq<string>, tail: string, rest: string)
    requires |texts| >= 2
    requires ReadCell(s) == Some((texts[0], "," + tail))
    requires ReadCells(tail, |texts| - 1) == Some((texts[1..], rest))
    ensures ReadCells(s, |texts|) == Some((texts, rest))
  {
    assert ("," + tail)[1..] == tail;
    assert [texts[0]] + texts[1..] == texts;
  }

  /** One more cell in front: a cell, a comma, then the cells that follow. */
  lemma CellsStep(texts: seq<string>, rest: string)
    requires |texts| >= 2
    requires ReadCells(Cells(DoubledQuotes, texts[1..]) + rest, |texts| - 1) == Some((texts[1..], rest))
    ensures ReadCells(Cells(DoubledQuotes, texts) + rest, |texts|) == Some((texts, rest))
  {
    var tail := Cells(DoubledQuotes, texts[1..]) + rest;
    var comma := "," + tail;
    CellsFront(texts, rest);
    assert EndsCell(comma) by {
      assert comma[0] == ',';
    }
    CellRoundTrip(texts[0], comma);
    ReadCellsFront(Cells(DoubledQuotes, texts) + rest, texts, tail, rest);
  }

  lemma {:induction false} CellsRoundTrip(texts: seq<string>, rest: string)
    requires |texts| >= 1
    requires EndsCell(rest)
    ensures ReadCells(Cells(DoubledQuotes, texts) + rest, |texts|) == Some((texts, rest))
    decreases |texts|
  {
    if |texts| == 1 {
      CellRoundTrip(texts[0], rest);
      assert [texts[0]] == texts;
    } else {
      CellsRoundTrip(texts[1..], rest);
      CellsStep(texts, rest);
    }
  }

  lemma {:induction false} LinesRoundTrip(rows: seq<CsvRow>)
    ensures ReadLines(Lines(DoubledQuotes, rows)) == Some(TextsOf(rows))
    decreases |rows|
  {
    if |rows| > 0 {
      var line := Texts(rows[0]);
      var after := Lines(DoubledQuotes, rows[1..]);
      Assoc(Cells(DoubledQuotes, line), "\n", after);
      CellsRoundTrip(line, "\n" + after);
      assert ("\n" + after)[1..] == after;
      LinesRoundTrip(rows[1..]);
    }
  }

  /** With inner quotes doubled every export reads back as the texts of its
      rows, in order. */
  lemma EscapedRoundTrip(rows: seq<CsvRow>)
    ensures DecodeCsv(ExportCsvEscaped(rows)) == Some(TextsOf(rows))
  {
    var csv := ExportCsvEscaped(rows);
    assert csv[|Header|..] == Lines(DoubledQuotes, rows);
    LinesRoundTrip(rows);
  }

  /** No column of any row holds a double quote. */
  predicate QuoteFree(rows: seq<CsvRow>)
  {
    forall i, j :: 0 <= i < |rows| && 0 <= j < 6 ==> '"' !in Texts(rows[i])[j]
  }

  lemma {:induction false} CellsVerbatimWhenQuoteFree(texts: seq<string>)
    requires |texts| >= 1
    requires forall j :: 0 <= j < |texts| ==> '"' !in texts[j]
    ensures Cells(Verbatim, texts) == Cells(DoubledQuotes, texts)
    decreases |texts|
  {
    if |texts| > 1 {
      CellsVerbatimWhenQuoteFree(texts[1..]);
    }
  }

  lemma {:induction false} VerbatimIsEscapedWhenQuoteFree(rows: seq<CsvRow>)
    requires QuoteFree(rows)
    ensures Lines(Verbatim, rows) == Lines(DoubledQuotes, rows)
    decreases |rows|
  {
    if |rows| > 0 {
      var ts := Texts(rows[0]);
      assert forall j :: 0 <= j < 6 ==> '"' !in ts[j];
      CellsVerbatimWhenQuoteFree(ts);
      assert QuoteFree(rows[1..]) by {
        forall i, j | 0 <= i < |rows[1..]| && 0 <= j < 6
          ensures '"' !in Texts(rows[1..][i])[j]
        {
          assert rows[1..][i] == rows[i + 1];
        }
      }
      VerbatimIsEscapedWhenQuoteFree(rows[1..]);
    }
  }

  /** The export as written reads back as the texts of its rows when no
      column holds a double quote. */
  lemma ExportRoundTrip(rows: seq<CsvRow>)
    requires QuoteFree(rows)
    ensures DecodeCsv(ExportCsv(rows)) == Some(TextsOf(rows))
  {
    VerbatimIsEscapedWhenQuoteFree(rows);
    EscapedRoundTrip(rows);
  }

  /** Four cells written verbatim, the first or the second holding `","`,
      read alike: both begin `"","",""`. */
  lemma SwappedCellsCollide()
    ensures Cells(Verbatim, ["\",\"", "", "", ""]) == Cells(Verbatim, ["", "\",\"", "", ""])
  {
    var x := ["\",\"", "", "", ""];
    var y := ["", "\",\"", "", ""];
    var others := Cells(Verbatim, ["", ""]);
    assert x[1..][1..] == ["", ""] && y[1..][1..] == ["", ""];
    var first := "\"\",\"\",\"\",";
    assert Cells(Verbatim, x) == (Cell(Verbatim, "\",\"") + ",") + ((Cell(Verbatim, "") + ",") + others);
    assert Cells(Verbatim, y) == (Cell(Verbatim, "") + ",") + ((Cell(Verbatim, "\",\"") + ",") + others);
    Assoc(Cell(Verbatim, "\",\"") + ",", Cell(Verbatim, "") + ",", others);
    Assoc(Cell(Verbatim, "") + ",", Cell(Verbatim, "\",\"") + ",", others);
    assert (Cell(Verbatim, "\",\"") + ",") + (Cell(Verbatim, "") + ",") == first;
    assert (Cell(Verbatim, "") + ",") + (Cell(Verbatim, "\",\"") + ",") == first;
  }

  /** With the cells written verbatim, two rows whose texts differ give the
      same file: a description `","` with no unit number, and no description
      with a unit number `","`. Both columns are filled by the extraction. */
  lemma ExportCollides()
    ensures var a := CsvRow(None, None, Some("\",\""), None, None, None);
      var b := CsvRow(None, None, None, Some("\",\""), None, None);
      && TextsOf([a]) != TextsOf([b])
      && ExportCsv([a]) == ExportCsv([b])
  {
    var a := CsvRow(None, None, Some("\",\""), None, None, None);
    var b := CsvRow(None, None, None, Some("\",\""), None, None);
    assert TextsOf([a])[0][2] != TextsOf([b])[0][2];
    assert Texts(a)[1..][1..] == ["\",\"", "", "", ""];
    assert Texts(b)[1..][1..] == ["", "\",\"", "", ""];
    SwappedCellsCollide();
    assert Cells(Verbatim, Texts(a)) == Cells(Verbatim, Texts(b));
    assert [a][1..] == [] && [b][1..] == [];
  }
}
