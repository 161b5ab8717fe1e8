/** The CSV reader and cell printer of the enterprise web client.

    The reader is a quote-toggling scanner with one character of look-ahead; the printer
    quotes every cell and doubles its quotes.  `Parse` is the specification of the reader,
    `ParseCsv` the index loop itself.
 */
module Csv {

  type Row = seq<string>

  const CRLF: string := "\r\n"

  /** The characters removed by JavaScript's `trim`: white space and line terminators. */
  predicate IsSpace(c: char) {
    || '\t' <= c <= '\r' || c == ' ' || c == '\U{00A0}' || c == '\U{1680}'
    || '\U{2000}' <= c <= '\U{200A}' || c == '\U{2028}' || c == '\U{2029}'
    || c == '\U{202F}' || c == '\U{205F}' || c == '\U{3000}' || c == '\U{FEFF}'
  }

  predicate Blank(cell: string) {
    forall i :: 0 <= i < |cell| ==> IsSpace(cell[i])
  }

  /** A row is kept when some cell is not blank. */
  predicate Keep(row: Row) {
    exists i :: 0 <= i < |row| && !Blank(row[i])
  }

  function KeptRows(table: seq<Row>): seq<Row> {
    if table == [] then []
    else (if Keep(table[0]) then [table[0]] else []) + KeptRows(table[1..])
  }

  // ---------------------------------------------------------------- the reader

  /** The reader's local buffers. */
  datatype Scan = Scan(rows: seq<Row>, row: Row, field: string, quoted: bool)

  const Start := Scan([], [], "", false)

  function EndRow(m: Scan): Scan {
    var row := m.row + [m.field];
    Scan(if Keep(row) then m.rows + [row] else m.rows, [], "", m.quoted)
  }

  /** True when `text` starts with the two characters `a`, `b`. */
  predicate StartsWith(text: string, a: char, b: char) {
    |text| >= 2 && text[0] == a && text[1] == b
  }

  function Read(text: string, m: Scan): Scan
    decreases |text|
  {
    if text == "" then m
    else if m.quoted && StartsWith(text, '"', '"') then
      Read(text[2..], m.(field := m.field + "\""))
    else if text[0] == '"' then
      Read(text[1..], m.(quoted := !m.quoted))
    else if text[0] == ',' && !m.quoted then
      Read(text[1..], m.(row := m.row + [m.field], field := ""))
    else if (text[0] == '\n' || text[0] == '\r') && !m.quoted then
      Read(text[if StartsWith(text, '\r', '\n') then 2 else 1..], EndRow(m))
    else
      Read(text[1..], m.(field := m.field + [text[0]]))
  }

  function Parse(text: string): seq<Row> {
    EndRow(Read(text, Start)).rows
  }

  /** The scanning loop: `index` skips the second half of `""` and of CR LF. */
  method ParseCsv(text: string) returns (rows: seq<Row>)
    ensures rows == Parse(text)
  {
    rows := [];
    var row: Row := [];
    var field := "";
    var quoted := false;
    var index := 0;
    while index < |text|
      invariant 0 <= index <= |text|
      invariant Read(text, Start) == Read(text[index..], Scan(rows, row, field, quoted))
    {
      var character := text[index];
      var next := if index + 1 < |text| then [text[index + 1]] else "";
      ghost var rest := text[index..];
      assert rest[0] == character && (|rest| >= 2 <==> next != "");
      assert rest[1..] == text[index + 1..];
      assert next != "" ==> rest[1] == next[0] && rest[2..] == text[index + 2..];
      if character == '"' && quoted && next == "\"" {
        field := field + "\"";
        index := index + 1;
      } else if character == '"' {
        quoted := !quoted;
      } else if character == ',' && !quoted {
        row := row + [field];
        field := "";
      } else if (character == '\n' || character == '\r') && !quoted {
        if character == '\r' && next == "\n" {
          index := index + 1;
        }
        row := row + [field];
        if Keep(row) {
          rows := rows + [row];
        }
        row := [];
        field := "";
      } else {
        field := field + [character];
      }
      index := index + 1;
    }
    row := row + [field];
    if Keep(row) {
      rows := rows + [row];
    }
  }

  // ---------------------------------------------------------------- the printer

  /** `replaceAll('"', '""')`. */
  function Escape(cell: string): string {
    if cell == "" then ""
    else (if cell[0] == '"' then "\"\"" else [cell[0]]) + Escape(cell[1..])
  }

  function CsvCell(cell: string): string {
    "\"" + Escape(cell) + "\""
  }

  function PrintCells(row: Row): string {
    if row == [] then ""
    else if |row| == 1 then CsvCell(row[0])
    else CsvCell(row[0]) + "," + PrintCells(row[1..])
  }

  function PrintTable(table: seq<Row>): string {
    if table == [] then "" else PrintCells(table[0]) + (CRLF + PrintTable(table[1..]))
  }

  // ---------------------------------------------------------------- print, then parse

  /** Inside quotes, an escaped cell and its closing quote read back as the cell. */
  lemma {:induction false} ReadEscaped(cell: string, rest: string, m: Scan)
    requires m.quoted && (rest == "" || rest[0] != '"')
    ensures Read(Escape(cell) + "\"" + rest, m)
         == Read(rest, m.(field := m.field + cell, quoted := false))
    decreases |cell|
  {
    var text := Escape(cell) + "\"" + rest;
    if cell == "" {
      assert text == "\"" + rest;
      assert text[1..] == rest;
      assert m.field + cell == m.field;
    } else {
      var tail := Escape(cell[1..]) + "\"" + rest;
      var m' := m.(field := m.field + [cell[0]]);
      assert m'.field + cell[1..] == m.field + cell;
      if cell[0] == '"' {
        assert text == "\"\"" + tail;
        assert text[2..] == tail;
      } else {
        assert text == [cell[0]] + tail;
        assert text[1..] == tail;
      }
      ReadEscaped(cell[1..], rest, m');
    }
  }

  lemma ReadCell(cell: string, rest: string, m: Scan)
    requires !m.quoted && m.field == "" && (rest == "" || rest[0] != '"')
    ensures Read(CsvCell(cell) + rest, m) == Read(rest, m.(field := cell))
  {
    var inner := Escape(cell) + "\"" + rest;
    assert CsvCell(cell) + rest == "\"" + inner;
    assert ("\"" + inner)[1..] == inner;
    if StartsWith("\"" + inner, '"', '"') { assert !m.quoted; }
    ReadEscaped(cell, rest, m.(quoted := true));
    assert "" + cell == cell;
  }

  /** What a line break makes of the cells collected in `m.row` and a last cell. */
  lemma ReadLineEnd(rest: string, m: Scan)
    requires !m.quoted
    ensures Read(CRLF + rest, m) == Read(rest, EndRow(m))
  {
    assert (CRLF + rest)[2..] == rest;
  }

  function WithRow(m: Scan, row: Row): Scan {
    Scan(if Keep(row) then m.rows + [row] else m.rows, [], "", false)
  }

  lemma EndRowIs(m: Scan)
    requires !m.quoted
    ensures EndRow(m) == WithRow(m, m.row + [m.field])
  {
  }

  lemma {:induction false} ReadCells(row: Row, rest: string, m: Scan)
    requires !m.quoted && m.field == "" && row != []
    ensures Read(PrintCells(row) + (CRLF + rest), m) == Read(rest, WithRow(m, m.row + row))
    decreases |row|
  {
    hide Keep, EndRow, CsvCell;
    var end := CRLF + rest;
    if |row| == 1 {
      ReadCell(row[0], end, m);
      ReadLineEnd(rest, m.(field := row[0]));
      EndRowIs(m.(field := row[0]));
      assert m.row + row == m.row + [row[0]];
    } else {
      var more := PrintCells(row[1..]) + end;
      var m' := m.(row := m.row + [row[0]]);
      assert PrintCells(row) + end == CsvCell(row[0]) + ("," + more);
      ReadCell(row[0], "," + more, m);
      assert ("," + more)[1..] == more;
      assert Read("," + more, m.(field := row[0])) == Read(more, m');
      ReadCells(row[1..], rest, m');
      assert m'.row + row[1..] == m.row + row;
    }
  }

  /** A printed row, read at a row start, adds exactly that row if it is not blank. */
  lemma ReadRow(row: Row, rest: string, m: Scan)
    requires !m.quoted && m.field == "" && m.row == []
    ensures Read(PrintCells(row) + (CRLF + rest), m) == Read(rest, WithRow(m, row))
  {
    if row == [] {
      assert PrintCells(row) + (CRLF + rest) == CRLF + rest;
      ReadLineEnd(rest, m);
      assert !Keep([] + [""]);
    } else {
      ReadCells(row, rest, m);
      assert [] + row == row;
    }
  }

  lemma {:induction false} ReadTable(table: seq<Row>, m: Scan)
    requires !m.quoted && m.field == "" && m.row == []
    ensures Read(PrintTable(table), m) == m.(rows := m.rows + KeptRows(table))
    decreases |table|
  {
    hide Keep, EndRow, PrintCells;
    if table == [] {
      assert m.rows + KeptRows(table) == m.rows;
    } else {
      ReadRow(table[0], PrintTable(table[1..]), m);
      var m' := WithRow(m, table[0]);
      ReadTable(table[1..], m');
      assert m'.rows + KeptRows(table[1..]) == m.rows + KeptRows(table);
    }
  }

  /** CSV round trip: printing any table and parsing it returns its non-blank rows. */
  lemma PrintThenParse(table: seq<Row>)
    ensures Parse(PrintTable(table)) == KeptRows(table)
  {
    ReadTable(table, Start);
  }

  /** The printer doubles quotes and leaves everything else as it is, in order. */
  lemma {:induction false} EscapeIs(a: string, c: char, b: string)
    ensures Escape(a + [c] + b) == Escape(a) + (if c == '"' then "\"\"" else [c]) + Escape(b)
    decreases |a|
  {
    var text := a + [c] + b;
    if a == "" {
      assert text == [c] + b;
      assert text[1..] == b;
    } else {
      assert text[1..] == a[1..] + [c] + b;
      EscapeIs(a[1..], c, b);
    }
  }

  /** A row is kept for one character of it that is not white space. */
  lemma KeepIs(row: Row)
    ensures Keep(row) <==> exists i, j :: 0 <= i < |row| && 0 <= j < |row[i]| && !IsSpace(row[i][j])
  {
    if i :| 0 <= i < |row| && !Blank(row[i]) {
      var j :| 0 <= j < |row[i]| && !IsSpace(row[i][j]);
    }
  }

  /** Row by row and in order, the blank rows are left out. */
  lemma KeptRowsAre(a: seq<Row>, row: Row, b: seq<Row>)
    ensures KeptRows(a + [row] + b) == KeptRows(a) + (if Keep(row) then [row] else []) + KeptRows(b)
  {
    hide Keep;
    KeptRowsConcat(a + [row], b);
    KeptRowsConcat(a, [row]);
    assert [row][1..] == [];
  }

  // ---------------------------------------------------------------- files written by others

  /** A cell as another program may write it: as it is, or quoted. */
  datatype Cell = Bare(text: string) | Quoted(text: string)

  predicate Plain(text: string) {
    forall i :: 0 <= i < |text| ==> text[i] != '"' && text[i] != ',' && text[i] != '\r' && text[i] != '\n'
  }

  /** Bare cells need no quotes. */
  predicate Proper(cells: seq<Cell>) {
    forall i :: 0 <= i < |cells| ==> cells[i].Bare? ==> Plain(cells[i].text)
  }

  function CellText(c: Cell): string {
    match c
    case Bare(text) => text
    case Quoted(text) => CsvCell(text)
  }

  function LineText(cells: seq<Cell>): string {
    if cells == [] then ""
    else if |cells| == 1 then CellText(cells[0])
    else CellText(cells[0]) + "," + LineText(cells[1..])
  }

  datatype LineEnd = Lf | Cr | CrLf

  function EndText(end: LineEnd): string {
    match end
    case Lf => "\n"
    case Cr => "\r"
    case CrLf => "\r\n"
  }

  datatype Line = Line(cells: seq<Cell>, end: LineEnd)

  predicate AllProper(lines: seq<Line>) {
    forall i :: 0 <= i < |lines| ==> Proper(lines[i].cells)
  }

  function FileText(lines: seq<Line>): string {
    if lines == [] then "" else LineText(lines[0].cells) + (EndText(lines[0].end) + FileText(lines[1..]))
  }

  function Texts(cells: seq<Cell>): Row {
    seq(|cells|, i requires 0 <= i < |cells| => cells[i].text)
  }

  function TableOf(lines: seq<Line>): seq<Row> {
    seq(|lines|, i requires 0 <= i < |lines| => Texts(lines[i].cells))
  }

  lemma {:induction false} ReadPlain(text: string, rest: string, m: Scan)
    requires !m.quoted && Plain(text)
    ensures Read(text + rest, m) == Read(rest, m.(field := m.field + text))
    decreases |text|
  {
    if text == "" {
      assert text + rest == rest && m.field + text == m.field;
    } else {
      var m' := m.(field := m.field + [text[0]]);
      assert (text + rest)[1..] == text[1..] + rest;
      ReadPlain(text[1..], rest, m');
      assert m'.field + text[1..] == m.field + text;
    }
  }

  lemma ReadWritten(c: Cell, rest: string, m: Scan)
    requires !m.quoted && m.field == "" && (c.Bare? ==> Plain(c.text)) && (rest == "" || rest[0] != '"')
    ensures Read(CellText(c) + rest, m) == Read(rest, m.(field := c.text))
  {
    match c
    case Bare(text) =>
      ReadPlain(text, rest, m);
      assert "" + text == text;
    case Quoted(text) =>
      ReadCell(text, rest, m);
  }

  /** The row being collected, its last cell still open. */
  function Collected(m: Scan, row: Row): Scan {
    if row == [] then m else m.(row := m.row + row[..|row| - 1], field := row[|row| - 1])
  }

  lemma {:induction false} ReadLine(cells: seq<Cell>, rest: string, m: Scan)
    requires !m.quoted && m.field == "" && Proper(cells) && (rest == "" || rest[0] != '"')
    ensures Read(LineText(cells) + rest, m) == Read(rest, Collected(m, Texts(cells)))
    decreases |cells|
  {
    hide Read, CellText, Plain;
    if cells == [] {
      assert LineText(cells) + rest == rest;
    } else if |cells| == 1 {
      ReadWritten(cells[0], rest, m);
      assert m.row + Texts(cells)[..0] == m.row;
    } else {
      var first := m.(row := m.row + [cells[0].text]);
      assert LineText(cells) + rest == CellText(cells[0]) + ("," + (LineText(cells[1..]) + rest));
      ReadSeparated(cells[0], LineText(cells[1..]) + rest, m);
      ReadLine(cells[1..], rest, first);
      CollectedMore(m, cells[0].text, Texts(cells[1..]));
      assert Texts(cells) == [cells[0].text] + Texts(cells[1..]);
    }
  }

  lemma ReadSeparated(c: Cell, more: string, m: Scan)
    requires !m.quoted && m.field == "" && (c.Bare? ==> Plain(c.text))
    ensures Read(CellText(c) + ("," + more), m) == Read(more, m.(row := m.row + [c.text]))
  {
    hide CellText, Plain;
    ReadWritten(c, "," + more, m);
    assert ("," + more)[1..] == more;
  }

  lemma CollectedMore(m: Scan, cell: string, row: Row)
    requires m.field == "" && row != []
    ensures Collected(m.(row := m.row + [cell]), row) == Collected(m, [cell] + row)
  {
    assert m.row + [cell] + row[..|row| - 1] == m.row + ([cell] + row)[..|row|];
  }

  /** Any line break ends the row; one more, as when CR and LF come from two lines, adds nothing. */
  lemma ReadEnd(end: LineEnd, more: string, m: Scan)
    requires !m.quoted
    ensures Read(EndText(end) + more, m) == Read(more, EndRow(m))
  {
    var text := EndText(end) + more;
    assert end.CrLf? ==> text[2..] == more;
    assert !end.CrLf? ==> text[1..] == more;
    assert !Keep([] + [""]);
    assert EndRow(EndRow(m)) == EndRow(m);
    if end.Cr? && more != "" && more[0] == '\n' {
      assert text[2..] == more[1..];
    }
  }

  lemma EndCollected(m: Scan, row: Row)
    requires !m.quoted && m.row == [] && m.field == ""
    ensures EndRow(Collected(m, row)) == WithRow(m, row)
  {
    if row == [] {
      assert !Keep([] + [""]);
    } else {
      assert [] + row[..|row| - 1] + [row[|row| - 1]] == row;
    }
  }

  lemma {:induction false} ReadFile(lines: seq<Line>, rest: string, m: Scan)
    requires AtRowStart(m) && AllProper(lines)
    ensures Read(FileText(lines) + rest, m) == Read(rest, AddedRows(m, TableOf(lines)))
    decreases |lines|
  {
    hide Read, LineText, EndText, Proper, Texts, KeptRows;
    if lines == [] {
      assert FileText(lines) + rest == rest;
      NoRowsAdded(m);
    } else {
      var row, more := Texts(lines[0].cells), FileText(lines[1..]) + rest;
      FileTextIs(lines, rest);
      ReadWholeLine(lines[0], more, m);
      ReadFile(lines[1..], rest, WithRow(m, row));
      RowsAdded(m, row, TableOf(lines[1..]));
      assert TableOf(lines) == [row] + TableOf(lines[1..]);
    }
  }

  predicate AtRowStart(m: Scan) {
    !m.quoted && m.row == [] && m.field == ""
  }

  function AddedRows(m: Scan, table: seq<Row>): Scan {
    m.(rows := m.rows + KeptRows(table))
  }

  lemma NoRowsAdded(m: Scan)
    ensures AddedRows(m, []) == m
  {
    assert m.rows + KeptRows([]) == m.rows;
  }

  lemma RowsAdded(m: Scan, row: Row, table: seq<Row>)
    requires AtRowStart(m)
    ensures AtRowStart(WithRow(m, row)) && AddedRows(WithRow(m, row), table) == AddedRows(m, [row] + table)
  {
    hide Keep;
    assert ([row] + table)[1..] == table;
    assert WithRow(m, row).rows + KeptRows(table) == m.rows + KeptRows([row] + table);
  }

  lemma FileTextIs(lines: seq<Line>, rest: string)
    requires lines != []
    ensures FileText(lines) + rest == LineText(lines[0].cells) + (EndText(lines[0].end) + (FileText(lines[1..]) + rest))
  {
  }

  /** A line and its break, read at a row start, add its row. */
  lemma ReadWholeLine(line: Line, more: string, m: Scan)
    requires AtRowStart(m) && Proper(line.cells)
    ensures Read(LineText(line.cells) + (EndText(line.end) + more), m) == Read(more, WithRow(m, Texts(line.cells)))
  {
    hide Read, LineText, Keep, EndRow, Proper, Texts;
    var row, end := Texts(line.cells), EndText(line.end) + more;
    ReadLine(line.cells, end, m);
    ReadEnd(line.end, more, Collected(m, row));
    EndCollected(m, row);
  }

  /** The reader reads what others write: whatever the cells, each bare or quoted at will, with any
      mixture of line breaks and with or without one at the end, the parse is the table of the
      cells without its blank rows. */
  lemma ParseWritten(lines: seq<Line>, last: seq<Cell>)
    requires AllProper(lines) && Proper(last)
    ensures Parse(FileText(lines) + LineText(last)) == KeptRows(TableOf(lines) + [Texts(last)])
  {
    hide Read, LineText, Keep, Proper, Texts, KeptRows;
    var table, row := TableOf(lines), Texts(last);
    ReadFile(lines, LineText(last), Start);
    var m := AddedRows(Start, table);
    ReadLastLine(last, m);
    KeptRowsConcat(table, [row]);
    AddedToNone(table);
    RowsAddedLast(m, row);
  }

  lemma AddedToNone(table: seq<Row>)
    ensures AddedRows(Start, table).rows == KeptRows(table)
  {
    assert [] + KeptRows(table) == KeptRows(table);
  }

  /** The last row needs no break. */
  lemma ReadLastLine(last: seq<Cell>, m: Scan)
    requires AtRowStart(m) && Proper(last)
    ensures EndRow(Read(LineText(last), m)) == WithRow(m, Texts(last))
  {
    hide LineText, Keep, EndRow, Proper, Texts;
    assert LineText(last) + "" == LineText(last);
    ReadLine(last, "", m);
    EndCollected(m, Texts(last));
  }

  lemma RowsAddedLast(m: Scan, row: Row)
    ensures WithRow(m, row).rows == m.rows + KeptRows([row])
  {
    hide Keep;
    assert [row][1..] == [];
  }

  // ---------------------------------------------------------------- arbitrary text

  lemma {:induction false} ReadKeepsRows(text: string, m: Scan)
    requires KeptRows(m.rows) == m.rows
    ensures KeptRows(Read(text, m).rows) == Read(text, m).rows
    decreases |text|
  {
    EndRowKept(m);
    if text == "" {
    } else if m.quoted && StartsWith(text, '"', '"') {
      ReadKeepsRows(text[2..], m.(field := m.field + "\""));
    } else if text[0] == '"' {
      ReadKeepsRows(text[1..], m.(quoted := !m.quoted));
    } else if text[0] == ',' && !m.quoted {
      ReadKeepsRows(text[1..], m.(row := m.row + [m.field], field := ""));
    } else if (text[0] == '\n' || text[0] == '\r') && !m.quoted {
      ReadKeepsRows(text[if StartsWith(text, '\r', '\n') then 2 else 1..], EndRow(m));
    } else {
      ReadKeepsRows(text[1..], m.(field := m.field + [text[0]]));
    }
  }

  lemma {:induction false} KeptRowsConcat(a: seq<Row>, b: seq<Row>)
    ensures KeptRows(a + b) == KeptRows(a) + KeptRows(b)
    decreases |a|
  {
    hide Keep;
    if a == [] {
      assert a + b == b;
    } else {
      KeptRowsConcat(a[1..], b);
      assert (a + b)[1..] == a[1..] + b;
    }
  }

  lemma EndRowKept(m: Scan)
    requires KeptRows(m.rows) == m.rows
    ensures KeptRows(EndRow(m).rows) == EndRow(m).rows
  {
    KeptRowsConcat(m.rows, [m.row + [m.field]]);
  }

  /** Whatever the input, balanced or not, printing the parse and parsing again changes nothing. */
  lemma ParsePrintParse(text: string)
    ensures Parse(PrintTable(Parse(text))) == Parse(text)
  {
    ReadKeepsRows(text, Start);
    EndRowKept(Read(text, Start));
    PrintThenParse(Parse(text));
  }

  function Quotes(text: string): nat {
    if text == "" then 0 else (if text[0] == '"' then 1 else 0) + Quotes(text[1..])
  }

  /** The scanner ends inside quotes exactly when it has read an odd number of quotes. */
  lemma {:induction false} QuotedIsParity(text: string, m: Scan)
    ensures Read(text, m).quoted == (m.quoted != (Quotes(text) % 2 == 1))
    decreases |text|
  {
    if text == "" {
    } else if m.quoted && StartsWith(text, '"', '"') {
      assert text[1..][1..] == text[2..];
      QuotedIsParity(text[2..], m.(field := m.field + "\""));
    } else if text[0] == '"' {
      QuotedIsParity(text[1..], m.(quoted := !m.quoted));
    } else if text[0] == ',' && !m.quoted {
      QuotedIsParity(text[1..], m.(row := m.row + [m.field], field := ""));
    } else if (text[0] == '\n' || text[0] == '\r') && !m.quoted {
      if StartsWith(text, '\r', '\n') {
        assert text[1..][1..] == text[2..];
        QuotedIsParity(text[2..], EndRow(m));
      } else {
        QuotedIsParity(text[1..], EndRow(m));
      }
    } else {
      QuotedIsParity(text[1..], m.(field := m.field + [text[0]]));
    }
  }

  /** Reading can be resumed at any point where the look-ahead cannot straddle the cut. */
  lemma {:induction false} ReadConcat(a: string, b: string, m: Scan)
    requires b == "" || (b[0] != '"' && b[0] != '\n')
    ensures Read(a + b, m) == Read(b, Read(a, m))
    decreases |a|
  {
    if a == "" {
      assert a + b == b;
    } else {
      assert (a + b)[1..] == a[1..] + b;
      assert |a| >= 2 ==> (a + b)[2..] == a[2..] + b;
      if m.quoted && StartsWith(a, '"', '"') {
        ReadConcat(a[2..], b, m.(field := m.field + "\""));
      } else if a[0] == '"' {
        ReadConcat(a[1..], b, m.(quoted := !m.quoted));
      } else if a[0] == ',' && !m.quoted {
        ReadConcat(a[1..], b, m.(row := m.row + [m.field], field := ""));
      } else if (a[0] == '\n' || a[0] == '\r') && !m.quoted {
        ReadConcat(a[if StartsWith(a, '\r', '\n') then 2 else 1..], b, EndRow(m));
      } else {
        ReadConcat(a[1..], b, m.(field := m.field + [a[0]]));
      }
    }
  }

  /** Rows already collected do not influence what is read next. */
  lemma {:induction false} ReadOnTopOf(done: seq<Row>, text: string, m: Scan)
    ensures Read(text, m.(rows := done + m.rows))
         == Read(text, m).(rows := done + Read(text, m).rows)
    decreases |text|
  {
    var on := m.(rows := done + m.rows);
    assert EndRow(on) == EndRow(m).(rows := done + EndRow(m).rows);
    if text == "" {
    } else if m.quoted && StartsWith(text, '"', '"') {
      ReadOnTopOf(done, text[2..], m.(field := m.field + "\""));
    } else if text[0] == '"' {
      ReadOnTopOf(done, text[1..], m.(quoted := !m.quoted));
    } else if text[0] == ',' && !m.quoted {
      ReadOnTopOf(done, text[1..], m.(row := m.row + [m.field], field := ""));
    } else if (text[0] == '\n' || text[0] == '\r') && !m.quoted {
      ReadOnTopOf(done, text[if StartsWith(text, '\r', '\n') then 2 else 1..], EndRow(m));
    } else {
      ReadOnTopOf(done, text[1..], m.(field := m.field + [text[0]]));
    }
  }

  /** Texts with an even number of quotes are parsed independently of what follows a CR LF. */
  lemma ParseConcat(a: string, b: string)
    requires Quotes(a) % 2 == 0
    ensures Parse(a + CRLF + b) == Parse(a) + Parse(b)
  {
    var mid := Read(a, Start);
    var tail := CRLF + b;
    assert a + CRLF + b == a + tail;
    QuotedIsParity(a, Start);
    ReadConcat(a, tail, Start);
    assert tail[2..] == b;
    assert Read(tail, mid) == Read(b, EndRow(mid));
    assert EndRow(mid) == Start.(rows := Parse(a) + []);
    ReadOnTopOf(Parse(a), b, Start);
    var end := Read(b, Start);
    assert EndRow(end.(rows := Parse(a) + end.rows)).rows == Parse(a) + EndRow(end).rows;
  }

  /** A CR LF ends a row exactly when an even number of quotes precedes it; otherwise it is
      two more characters of the open cell. */
  lemma LineBreakEndsRow(a: string)
    ensures Read(a + CRLF, Start)
         == if Quotes(a) % 2 == 0 then EndRow(Read(a, Start))
            else Read(a, Start).(field := Read(a, Start).field + CRLF)
  {
    var mid := Read(a, Start);
    QuotedIsParity(a, Start);
    ReadConcat(a, CRLF, Start);
    assert CRLF[2..] == "" && CRLF[1..] == "\n" && "\n"[1..] == "";
    if mid.quoted {
      assert mid.field + "\r" + "\n" == mid.field + CRLF;
      assert Read("\n", mid.(field := mid.field + "\r")) == mid.(field := mid.field + CRLF);
    }
  }

  /** So the parity in ParseConcat is needed: after an open quote, everything up to the next
      quote, line breaks included, is read into the one open cell. */
  lemma {:induction false} OpenQuoteSwallows(a: string, b: string)
    requires Quotes(a) % 2 == 1 && Quotes(b) == 0
    ensures var mid := Read(a, Start);
            Parse(a + CRLF + b) == EndRow(mid.(field := mid.field + CRLF + b)).rows
  {
    var mid := Read(a, Start);
    var tail := CRLF + b;
    assert a + CRLF + b == a + tail;
    QuotedIsParity(a, Start);
    ReadConcat(a, tail, Start);
    assert tail[1..] == ['\n'] + b && tail[1..][1..] == b;
    ReadQuoted(tail, mid);
    assert mid.field + tail == mid.field + CRLF + b;
  }

  lemma {:induction false} ReadQuoted(text: string, m: Scan)
    requires m.quoted && Quotes(text) == 0
    ensures Read(text, m) == m.(field := m.field + text)
    decreases |text|
  {
    if text == "" {
      assert m.field + text == m.field;
    } else {
      var m' := m.(field := m.field + [text[0]]);
      ReadQuoted(text[1..], m');
      assert m'.field + text[1..] == m.field + text;
    }
  }
}
