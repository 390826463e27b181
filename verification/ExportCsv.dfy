/** The csv exports (exportMessages.ts), read back by a reader of comma-separated values. */
module ExportCsv {
  import opened Text
  import opened Wrappers

  predicate Special(c: char) { c == '"' || c == ',' || c == '\n' || c == '\r' }

  predicate NeedsQuotes(s: string) { exists c | c in s :: Special(c) }

  function DoubleQuotes(s: string): string {
    if s == "" then "" else (if s[0] == '"' then "\"\"" else [s[0]]) + DoubleQuotes(s[1..])
  }

  function CsvCell(s: string): string {
    if NeedsQuotes(s) then "\"" + DoubleQuotes(s) + "\"" else s
  }

  function CsvLine(cells: seq<string>): string { Join(Cells(cells), ',') }

  function Cells(cells: seq<string>): (r: seq<string>)
    ensures |r| == |cells|
  {
    seq(|cells|, i requires 0 <= i < |cells| => CsvCell(cells[i]))
  }

  /** The file: every line followed by a line feed. */
  function File(table: seq<seq<string>>): string {
    if table == [] then "" else CsvLine(table[0]) + "\n" + File(table[1..])
  }

  // A reader after section 2 of RFC 4180, with a line feed for the line break
  // and one after the last row. None is a text that follows no rule.

  function ReadRows(s: string): Option<seq<seq<string>>>
    decreases |s|, 3
  {
    if s == "" then Some([]) else ReadCell(s, [])
  }

  function ReadCell(s: string, row: seq<string>): Option<seq<seq<string>>>
    decreases |s|, 2
  {
    if s != "" && s[0] == '"' then ReadQuoted(s[1..], row, "") else ReadPlain(s, row, "")
  }

  function ReadPlain(s: string, row: seq<string>, cell: string): Option<seq<seq<string>>>
    decreases |s|, 1
  {
    if s != "" && !Special(s[0]) then ReadPlain(s[1..], row, cell + [s[0]]) else ReadEnd(s, row + [cell])
  }

  function ReadQuoted(s: string, row: seq<string>, cell: string): Option<seq<seq<string>>>
    decreases |s|, 1
  {
    if s == "" then None
    else if s[0] != '"' then ReadQuoted(s[1..], row, cell + [s[0]])
    else if |s| > 1 && s[1] == '"' then ReadQuoted(s[2..], row, cell + "\"")
    else ReadEnd(s[1..], row + [cell])
  }

  /** What may follow a cell. */
  function ReadEnd(s: string, row: seq<string>): Option<seq<seq<string>>>
    decreases |s|, 0
  {
    if s == "" then None
    else if s[0] == ',' then ReadCell(s[1..], row)
    else if s[0] == '\n' then
      var rest := ReadRows(s[1..]);
      if rest.Some? then Some([row] + rest.value) else None
    else None
  }

  lemma {:induction false} ReadPlainText(s: string, rest: string, row: seq<string>, cell: string)
    requires !NeedsQuotes(s) && rest != "" && Special(rest[0])
    ensures ReadPlain(s + rest, row, cell) == ReadEnd(rest, row + [cell + s])
  {
    if s == "" {
      assert s + rest == rest && cell + s == cell;
    } else {
      assert s[0] in s && (forall c | c in s[1..] :: c in s);
      ReadPlainText(s[1..], rest, row, cell + [s[0]]);
      assert (s + rest)[1..] == s[1..] + rest && cell + [s[0]] + s[1..] == cell + s;
    }
  }

  lemma {:induction false} ReadQuotedText(s: string, rest: string, row: seq<string>, cell: string)
    requires rest != "" && rest[0] != '"'
    ensures ReadQuoted(DoubleQuotes(s) + "\"" + rest, row, cell) == ReadEnd(rest, row + [cell + s])
  {
    var text := DoubleQuotes(s) + "\"" + rest;
    if s == "" {
      assert text[1..] == rest && cell + s == cell;
    } else {
      var n := if s[0] == '"' then 2 else 1;
      ReadQuotedText(s[1..], rest, row, cell + [s[0]]);
      assert text[n..] == DoubleQuotes(s[1..]) + "\"" + rest && cell + [s[0]] + s[1..] == cell + s;
    }
  }

  lemma ReadOneCell(s: string, rest: string, row: seq<string>)
    requires rest != "" && (rest[0] == ',' || rest[0] == '\n')
    ensures ReadCell(CsvCell(s) + rest, row) == ReadEnd(rest, row + [s])
  {
    hide ReadPlain, ReadQuoted, ReadEnd, ReadRows, DoubleQuotes;
    assert "" + s == s;
    if NeedsQuotes(s) {
      ReadQuotedText(s, rest, row, "");
      assert (CsvCell(s) + rest)[1..] == DoubleQuotes(s) + "\"" + rest;
    } else {
      ReadPlainText(s, rest, row, "");
      assert s != "" ==> s[0] in s;
    }
  }

  lemma {:induction false} ReadOneLine(cells: seq<string>, rest: string, row: seq<string>)
    requires cells != []
    ensures ReadCell(CsvLine(cells) + "\n" + rest, row) == ReadEnd("\n" + rest, row + cells)
  {
    hide ReadCell, ReadPlain, ReadQuoted, ReadRows, CsvCell;
    var more := cells[1..];
    if more == [] {
      assert CsvLine(cells) + "\n" + rest == CsvCell(cells[0]) + ("\n" + rest);
      ReadOneCell(cells[0], "\n" + rest, row);
      assert cells == [cells[0]];
    } else {
      assert Cells(cells)[1..] == Cells(more);
      assert CsvLine(cells) + "\n" + rest == CsvCell(cells[0]) + ("," + CsvLine(more) + "\n" + rest);
      ReadOneCell(cells[0], "," + CsvLine(more) + "\n" + rest, row);
      assert ("," + CsvLine(more) + "\n" + rest)[1..] == CsvLine(more) + "\n" + rest;
      ReadOneLine(more, rest, row + [cells[0]]);
      assert row + [cells[0]] + more == row + cells;
    }
  }

  /** Whatever the cells hold, the reader finds every row of the file again, cell by cell. */
  lemma {:induction false} FileReadsBack(table: seq<seq<string>>)
    requires forall i | 0 <= i < |table| :: table[i] != []
    ensures ReadRows(File(table)) == Some(table)
  {
    if table != [] {
      FileReadsBack(table[1..]);
      var rest := File(table[1..]);
      ReadOneLine(table[0], rest, []);
      assert ("\n" + rest)[1..] == rest && [] + table[0] == table[0];
      assert [table[0]] + table[1..] == table;
    }
  }

  // What a text costs at least: no text read as a table is shorter than the file written for it.

  function RowCost(row: seq<string>): nat {
    if row == [] then 0 else RowCost(row[..|row| - 1]) + |CsvCell(row[|row| - 1])| + 1
  }

  function TableCost(table: seq<seq<string>>): nat {
    if table == [] then 0 else RowCost(table[0]) + TableCost(table[1..])
  }

  lemma {:induction false} RowsCost(s: string)
    requires ReadRows(s).Some?
    ensures |s| >= TableCost(ReadRows(s).value)
    decreases |s|, 3
  {
    if s != "" {
      CellCost(s, []);
    }
  }

  lemma {:induction false} CellCost(s: string, row: seq<string>)
    requires ReadCell(s, row).Some?
    ensures RowCost(row) + |s| >= TableCost(ReadCell(s, row).value)
    decreases |s|, 2
  {
    if s != "" && s[0] == '"' {
      QuotedCost(s[1..], row, "");
    } else {
      PlainCost(s, row, "");
    }
  }

  lemma {:induction false} PlainCost(s: string, row: seq<string>, cell: string)
    requires ReadPlain(s, row, cell).Some? && !NeedsQuotes(cell)
    ensures RowCost(row) + |cell| + |s| >= TableCost(ReadPlain(s, row, cell).value)
    decreases |s|, 1
  {
    if s != "" && !Special(s[0]) {
      PlainCost(s[1..], row, cell + [s[0]]);
    } else {
      assert (row + [cell])[..|row|] == row;
      EndCost(s, row + [cell]);
    }
  }

  lemma {:induction false} QuotedCost(s: string, row: seq<string>, cell: string)
    requires ReadQuoted(s, row, cell).Some?
    ensures RowCost(row) + 1 + |DoubleQuotes(cell)| + |s| >= TableCost(ReadQuoted(s, row, cell).value)
    decreases |s|, 1
  {
    if s[0] != '"' {
      DoubleQuotesCost(cell, s[0]);
      QuotedCost(s[1..], row, cell + [s[0]]);
    } else if |s| > 1 && s[1] == '"' {
      DoubleQuotesCost(cell, '"');
      QuotedCost(s[2..], row, cell + "\"");
    } else {
      assert (row + [cell])[..|row|] == row;
      DoubleQuotesGrows(cell);
      EndCost(s[1..], row + [cell]);
    }
  }

  lemma {:induction false} EndCost(s: string, row: seq<string>)
    requires ReadEnd(s, row).Some? && row != []
    ensures RowCost(row) - 1 + |s| >= TableCost(ReadEnd(s, row).value)
    decreases |s|, 0
  {
    if s[0] == ',' {
      CellCost(s[1..], row);
    } else {
      RowsCost(s[1..]);
      var rest := ReadRows(s[1..]).value;
      assert ([row] + rest)[1..] == rest;
    }
  }

  lemma {:induction false} DoubleQuotesCost(cell: string, c: char)
    ensures |DoubleQuotes(cell + [c])| == |DoubleQuotes(cell)| + if c == '"' then 2 else 1
  {
    if cell != "" {
      DoubleQuotesCost(cell[1..], c);
      assert (cell + [c])[1..] == cell[1..] + [c];
    }
  }

  lemma {:induction false} DoubleQuotesGrows(cell: string)
    ensures |DoubleQuotes(cell)| >= |cell|
  {
    if cell != "" {
      DoubleQuotesGrows(cell[1..]);
    }
  }

  lemma {:induction false} LineCost(cells: seq<string>)
    requires cells != []
    ensures |CsvLine(cells)| + 1 == RowCost(cells)
  {
    var last, front := cells[|cells| - 1], cells[..|cells| - 1];
    if front != [] {
      LineCost(front);
      assert Cells(cells) == Cells(front) + [CsvCell(last)];
      JoinCost(Cells(front), CsvCell(last));
    }
  }

  lemma {:induction false} JoinCost(cells: seq<string>, last: string)
    requires cells != []
    ensures |Join(cells + [last], ',')| == |Join(cells, ',')| + 1 + |last|
  {
    if |cells| > 1 {
      JoinCost(cells[1..], last);
      assert (cells + [last])[1..] == cells[1..] + [last];
    }
  }

  lemma {:induction false} FileCost(table: seq<seq<string>>)
    requires forall i | 0 <= i < |table| :: table[i] != []
    ensures |File(table)| == TableCost(table)
  {
    if table != [] {
      LineCost(table[0]);
      FileCost(table[1..]);
    }
  }

  /** A row as the csv export sees it; every value is the text it is written with. */
  datatype ExportRow = ExportRow(
    timestamp: string, time: string, sequence: Option<string>, subject: string,
    payloadType: string, size: string, headers: Option<string>, payload: string)
  {
    function Cells(): seq<string> {
      [timestamp, time, if sequence.Some? then sequence.value else "", subject,
       payloadType, size, if headers.Some? then headers.value else "", payload]
    }

    /** What a column of this name should hold; one the row has nothing for is empty. */
    ghost function Named(column: string): Option<string> {
      match column
      case "timestamp" => Some(timestamp)
      case "time" => Some(time)
      case "sequence" => Some(if sequence.Some? then sequence.value else "")
      case "subject" => Some(subject)
      case "payloadType" => Some(payloadType)
      case "size" => Some(size)
      case "headers" => Some(if headers.Some? then headers.value else "")
      case "payload" => Some(payload)
      case _ => None
    }
  }

  /** Every cell stands under the name of what it holds. */
  lemma CellsAreUnderTheirColumns(row: ExportRow, i: nat)
    requires i < |COLUMNS|
    ensures |row.Cells()| == |COLUMNS| && Some(row.Cells()[i]) == row.Named(COLUMNS[i])
  {
  }

  const COLUMNS := ["timestamp", "time", "sequence", "subject", "payloadType", "size", "headers", "payload"]

  function CellsOf(rows: seq<ExportRow>): (r: seq<seq<string>>)
    ensures |r| == |rows|
  {
    seq(|rows|, i requires 0 <= i < |rows| => rows[i].Cells())
  }

  /** The csv export: a header line and a line per row, which the reader takes apart again. */
  method Csv(rows: seq<ExportRow>) returns (text: string)
    ensures ReadRows(text) == Some([COLUMNS] + CellsOf(rows))
  {
    hide ReadRows, Join, File, COLUMNS;
    var lines := [Join(COLUMNS, ',')];
    ghost var table := [];
    for i := 0 to |rows|
      invariant table == CellsOf(rows[..i]) && lines == [Join(COLUMNS, ',')] + Lines(table)
    {
      lines := lines + [CsvLine(rows[i].Cells())];
      table := table + [rows[i].Cells()];
    }
    assert rows[..|rows|] == rows;
    text := Join(lines, '\n') + "\n";
    FlatText(COLUMNS, table);
    PlainColumns();
    HeaderReadsBackIffPlain(COLUMNS, table);
  }

  lemma PlainColumns()
    ensures COLUMNS != [] && forall i | 0 <= i < |COLUMNS| :: !NeedsQuotes(COLUMNS[i])
  {
  }

  function Lines(table: seq<seq<string>>): (r: seq<string>)
    ensures |r| == |table|
  {
    seq(|table|, i requires 0 <= i < |table| => CsvLine(table[i]))
  }

  lemma {:induction false} LinesMakeFile(table: seq<seq<string>>)
    requires table != []
    ensures Join(Lines(table), '\n') + "\n" == File(table)
  {
    if |table| > 1 {
      LinesMakeFile(table[1..]);
      assert Lines(table)[1..] == Lines(table[1..]);
    }
  }

  lemma PlainLine(columns: seq<string>)
    requires forall i | 0 <= i < |columns| :: !NeedsQuotes(columns[i])
    ensures CsvLine(columns) == Join(columns, ',')
  {
    assert Cells(columns) == columns;
  }

  /** What the columns of a row hold; a column the row has not is empty. */
  function FlatCells(columns: seq<string>, row: map<string, string>): (r: seq<string>)
    ensures |r| == |columns|
    ensures forall i | 0 <= i < |columns| :: if columns[i] in row then r[i] == row[columns[i]] else r[i] == ""
  {
    seq(|columns|, i requires 0 <= i < |columns| => if columns[i] in row then row[columns[i]] else "")
  }

  function FlatTable(columns: seq<string>, rows: seq<map<string, string>>): (r: seq<seq<string>>)
    ensures |r| == |rows|
  {
    seq(|rows|, i requires 0 <= i < |rows| => FlatCells(columns, rows[i]))
  }

  /**
   * The csv-flat export, from the columns on. Its header line is joined
   * without quoting, so it reads back as the columns and the rows exactly
   * when no column name holds a character that needs quotes.
   */
  method CsvFlat(columns: seq<string>, rows: seq<map<string, string>>) returns (text: string)
    requires columns != []
    ensures
      ReadRows(text) == Some([columns] + FlatTable(columns, rows)) <==>
      forall i | 0 <= i < |columns| :: !NeedsQuotes(columns[i])
  {
    hide ReadRows, Join, File;
    var lines := [Join(columns, ',')];
    ghost var table := [];
    for i := 0 to |rows|
      invariant table == FlatTable(columns, rows[..i]) && lines == [Join(columns, ',')] + Lines(table)
    {
      lines := lines + [CsvLine(FlatCells(columns, rows[i]))];
      table := table + [FlatCells(columns, rows[i])];
    }
    assert rows[..|rows|] == rows;
    text := Join(lines, '\n') + "\n";
    FlatText(columns, table);
    HeaderReadsBackIffPlain(columns, table);
  }

  lemma FlatText(columns: seq<string>, table: seq<seq<string>>)
    ensures Join([Join(columns, ',')] + Lines(table), '\n') + "\n" == Join(columns, ',') + "\n" + File(table)
  {
    if table != [] {
      LinesMakeFile(table);
      assert ([Join(columns, ',')] + Lines(table))[1..] == Lines(table);
    }
  }

  lemma HeaderReadsBackIffPlain(columns: seq<string>, table: seq<seq<string>>)
    requires columns != [] && (forall i | 0 <= i < |table| :: table[i] != [])
    ensures
      ReadRows(Join(columns, ',') + "\n" + File(table)) == Some([columns] + table) <==>
      forall i | 0 <= i < |columns| :: !NeedsQuotes(columns[i])
  {
    var text, whole := Join(columns, ',') + "\n" + File(table), [columns] + table;
    assert whole[1..] == table;
    FileCost(whole);
    if forall i | 0 <= i < |columns| :: !NeedsQuotes(columns[i]) {
      PlainLine(columns);
      FileReadsBack(whole);
    } else if ReadRows(text) == Some(whole) {
      RowsCost(text);
      RawIsShorter(columns);
      assert false;
    }
  }

  /** A line joined without quoting is shorter than the quoted one as soon as a name needs quotes. */
  lemma {:induction false} RawIsShorter(columns: seq<string>)
    requires columns != []
    ensures |Join(columns, ',')| <= |CsvLine(columns)|
    ensures (exists i | 0 <= i < |columns| :: NeedsQuotes(columns[i])) ==> |Join(columns, ',')| < |CsvLine(columns)|
  {
    DoubleQuotesGrows(columns[0]);
    if |columns| > 1 {
      RawIsShorter(columns[1..]);
      assert Cells(columns)[1..] == Cells(columns[1..]);
      assert forall i | 0 < i < |columns| :: columns[i] == columns[1..][i - 1];
    }
  }
}
