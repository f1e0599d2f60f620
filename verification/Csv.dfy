// The CSV conversion of apps/frontend/lib/data-import-convert.ts: a quote-aware reader, a column mapper, a
// writer and a chunker. File names of the parts are not modelled.
module Csv {
  import opened Wrappers
  import opened JsText

  type Row = map<string, string>

  datatype Parsed = Parsed(headers: seq<string>, rows: seq<Row>, separator: char)

  // ---------------------------------------------------------------------------------------------------
  // Reading
  // ---------------------------------------------------------------------------------------------------

  function Count(s: string, c: char): nat {
    if s == "" then 0 else (if s[0] == c then 1 else 0) + Count(s[1..], c)
  }

  function DetectSeparator(headerLine: string): char {
    if Count(headerLine, ';') >= Count(headerLine, ',') then ';' else ','
  }

  /** The untrimmed cells of the rest of a line, `current` being the cell read so far. */
  function Cells(rest: string, current: string, inQuotes: bool, separator: char): (cells: seq<string>)
    ensures cells != []
    decreases |rest|
  {
    if rest == "" then [current]
    else if rest[0] == '"' then
      if inQuotes && |rest| > 1 && rest[1] == '"' then Cells(rest[2..], current + "\"", true, separator)
      else Cells(rest[1..], current, !inQuotes, separator)
    else if rest[0] == separator && !inQuotes then [current] + Cells(rest[1..], "", false, separator)
    else Cells(rest[1..], current + [rest[0]], inQuotes, separator)
  }

  function TrimAll(cells: seq<string>): (trimmed: seq<string>)
    ensures |trimmed| == |cells|
  {
    if cells == [] then [] else [Trim(cells[0])] + TrimAll(cells[1..])
  }

  function CellsOfLine(line: string, separator: char): seq<string> {
    TrimAll(Cells(line, "", false, separator))
  }

  method SplitCsvLine(line: string, separator: char) returns (cells: seq<string>)
    requires separator != '"'
    ensures cells == CellsOfLine(line, separator)
  {
    var raw: seq<string>, current, inQuotes, i := [], "", false, 0;
    while i < |line|
      invariant 0 <= i <= |line|
      invariant raw + Cells(line[i..], current, inQuotes, separator) == Cells(line, "", false, separator)
    {
      var ch := line[i];
      if ch == '"' {
        if inQuotes && i + 1 < |line| && line[i + 1] == '"' {
          current := current + "\"";
          i := i + 1;
        } else {
          inQuotes := !inQuotes;
        }
      } else if ch == separator && !inQuotes {
        raw := raw + [current];
        current := "";
      } else {
        current := current + [ch];
      }
      i := i + 1;
    }
    raw := raw + [current];
    cells := TrimAll(raw);
  }

  function DropByteOrderMark(text: string): string {
    if text != "" && text[0] == BYTE_ORDER_MARK then text[1..] else text
  }

  /** Both CR LF and a lone CR become LF. */
  function NormalizeBreaks(text: string): string
    decreases |text|
  {
    if text == "" then ""
    else if text[0] == '\r' then
      ['\n'] + NormalizeBreaks(if |text| > 1 && text[1] == '\n' then text[2..] else text[1..])
    else [text[0]] + NormalizeBreaks(text[1..])
  }

  function WithoutBlanks(lines: seq<string>): seq<string> {
    if lines == [] then []
    else if Trim(lines[0]) != "" then [lines[0]] + WithoutBlanks(lines[1..])
    else WithoutBlanks(lines[1..])
  }

  function Lines(text: string): seq<string> {
    WithoutBlanks(Split(NormalizeBreaks(DropByteOrderMark(text)), '\n'))
  }

  function WithoutEmpty(cells: seq<string>): seq<string> {
    if cells == [] then []
    else if cells[0] != "" then [cells[0]] + WithoutEmpty(cells[1..])
    else WithoutEmpty(cells[1..])
  }

  /** Cells are matched with headers by position; missing cells are empty, and the last of several equal
      headers wins. */
  function RowOf(headers: seq<string>, cells: seq<string>): Row {
    if headers == [] then map[]
    else
      var c := |headers| - 1;
      RowOf(headers[..c], cells)[headers[c] := if c < |cells| then cells[c] else ""]
  }

  function RowsOf(headers: seq<string>, lines: seq<string>, separator: char): (rows: seq<Row>)
    ensures |rows| == |lines|
  {
    if lines == [] then []
    else [RowOf(headers, CellsOfLine(lines[0], separator))] + RowsOf(headers, lines[1..], separator)
  }

  function Parse(text: string): Parsed {
    var lines := Lines(text);
    if lines == [] then Parsed([], [], ';')
    else
      var separator := DetectSeparator(lines[0]);
      var headers := WithoutEmpty(CellsOfLine(lines[0], separator));
      Parsed(headers, RowsOf(headers, lines[1..], separator), separator)
  }

  lemma {:induction false} RowsOfAppended(headers: seq<string>, lines: seq<string>, line: string, separator: char)
    ensures RowsOf(headers, lines + [line], separator)
         == RowsOf(headers, lines, separator) + [RowOf(headers, CellsOfLine(line, separator))]
  {
    if lines != [] {
      RowsOfAppended(headers, lines[1..], line, separator);
      assert (lines + [line])[1..] == lines[1..] + [line];
    }
  }

  method BuildRow(headers: seq<string>, cells: seq<string>) returns (row: Row)
    ensures row == RowOf(headers, cells)
  {
    row := map[];
    for c := 0 to |headers|
      invariant row == RowOf(headers[..c], cells)
    {
      row := row[headers[c] := if c < |cells| then cells[c] else ""];
      assert headers[..c + 1][..c] == headers[..c];
    }
    assert headers[..|headers|] == headers;
  }

  method ParseFlexibleCsv(text: string) returns (parsed: Parsed)
    ensures parsed == Parse(text)
  {
    var lines := Lines(text);
    if |lines| == 0 {
      return Parsed([], [], ';');
    }
    var separator := DetectSeparator(lines[0]);
    var headerCells := SplitCsvLine(lines[0], separator);
    var headers := WithoutEmpty(headerCells);
    var rows: seq<Row> := [];
    for i := 1 to |lines|
      invariant rows == RowsOf(headers, lines[1..i], separator)
    {
      var cells := SplitCsvLine(lines[i], separator);
      var row := BuildRow(headers, cells);
      RowsOfAppended(headers, lines[1..i], lines[i], separator);
      assert lines[1..i + 1] == lines[1..i] + [lines[i]];
      rows := rows + [row];
    }
    assert lines[1..|lines|] == lines[1..];
    parsed := Parsed(headers, rows, separator);
  }

  // ---------------------------------------------------------------------------------------------------
  // Mapping columns
  // ---------------------------------------------------------------------------------------------------

  /** Target column to source column; None is an explicit null. */
  type Mapping = map<string, Option<string>>

  function Lookup(row: Row, key: string): string {
    if key in row then row[key] else ""
  }

  function MappedValue(row: Row, mapping: Mapping, key: string): string {
    if key in mapping && mapping[key].Some? && mapping[key].value != "" then Trim(Lookup(row, mapping[key].value))
    else ""
  }

  function MappedRow(row: Row, mapping: Mapping, keys: seq<string>): Row {
    map key | key in keys :: MappedValue(row, mapping, key)
  }

  function MappedRows(rows: seq<Row>, mapping: Mapping, keys: seq<string>): (mapped: seq<Row>)
    ensures |mapped| == |rows|
    ensures forall i :: 0 <= i < |rows| ==> mapped[i] == MappedRow(rows[i], mapping, keys)
  {
    if rows == [] then [] else [MappedRow(rows[0], mapping, keys)] + MappedRows(rows[1..], mapping, keys)
  }

  method ApplyMappingToRows(rows: seq<Row>, mapping: Mapping, keys: seq<string>) returns (mapped: seq<Row>)
    ensures mapped == MappedRows(rows, mapping, keys)
  {
    mapped := [];
    for i := 0 to |rows|
      invariant |mapped| == i && forall j :: 0 <= j < i ==> mapped[j] == MappedRow(rows[j], mapping, keys)
    {
      var out: Row := map[];
      for k := 0 to |keys|
        invariant out == map key | key in keys[..k] :: MappedValue(rows[i], mapping, key)
      {
        out := out[keys[k] := MappedValue(rows[i], mapping, keys[k])];
        assert keys[..k + 1] == keys[..k] + [keys[k]];
      }
      assert keys[..|keys|] == keys;
      mapped := mapped + [out];
    }
  }

  // ---------------------------------------------------------------------------------------------------
  // Writing
  // ---------------------------------------------------------------------------------------------------

  function DoubleQuotes(v: string): string {
    if v == "" then "" else (if v[0] == '"' then "\"\"" else [v[0]]) + DoubleQuotes(v[1..])
  }

  function Escape(v: string): string {
    if ';' in v || '"' in v || '\n' in v then "\"" + DoubleQuotes(v) + "\"" else v
  }

  function EscapedValues(keys: seq<string>, row: Row): (cells: seq<string>)
    ensures |cells| == |keys|
  {
    if keys == [] then [] else [Escape(Lookup(row, keys[0]))] + EscapedValues(keys[1..], row)
  }

  function RowLine(keys: seq<string>, row: Row): string {
    Join(EscapedValues(keys, row), ';')
  }

  function RowLines(keys: seq<string>, rows: seq<Row>): (lines: seq<string>)
    ensures |lines| == |rows|
  {
    if rows == [] then [] else [RowLine(keys, rows[0])] + RowLines(keys, rows[1..])
  }

  function Print(keys: seq<string>, rows: seq<Row>): string {
    Join([Join(keys, ';')] + RowLines(keys, rows), '\n')
  }

  lemma {:induction false} RowLinesAppended(keys: seq<string>, rows: seq<Row>, row: Row)
    ensures RowLines(keys, rows + [row]) == RowLines(keys, rows) + [RowLine(keys, row)]
  {
    if rows != [] {
      RowLinesAppended(keys, rows[1..], row);
      assert (rows + [row])[1..] == rows[1..] + [row];
    }
  }

  method BuildPlanwiseCsv(keys: seq<string>, rows: seq<Row>) returns (text: string)
    ensures text == Print(keys, rows)
  {
    var lines := [Join(keys, ';')];
    for i := 0 to |rows|
      invariant lines == [Join(keys, ';')] + RowLines(keys, rows[..i])
    {
      RowLinesAppended(keys, rows[..i], rows[i]);
      assert rows[..i + 1] == rows[..i] + [rows[i]];
      lines := lines + [Join(EscapedValues(keys, rows[i]), ';')];
    }
    assert rows[..|rows|] == rows;
    text := Join(lines, '\n');
  }

  // ---------------------------------------------------------------------------------------------------
  // Parts
  // ---------------------------------------------------------------------------------------------------

  function Chunks<T>(rows: seq<T>, maxRows: int): (chunks: seq<seq<T>>)
    requires maxRows > 0
    ensures rows != [] ==> chunks != []
    decreases |rows|
  {
    if rows == [] then []
    else if |rows| <= maxRows then [rows]
    else [rows[..maxRows]] + Chunks(rows[maxRows..], maxRows)
  }

  function ChunksOf<T>(rows: seq<T>, maxRows: int): (chunks: seq<seq<T>>)
    ensures chunks != []
  {
    if maxRows <= 0 then [rows] else if rows == [] then [[]] else Chunks(rows, maxRows)
  }

  method ChunkRows<T>(rows: seq<T>, maxRows: int) returns (chunks: seq<seq<T>>)
    ensures chunks == ChunksOf(rows, maxRows)
  {
    if maxRows <= 0 {
      return [rows];
    }
    if |rows| == 0 {
      return [[]];
    }
    chunks := [];
    var i := 0;
    while i < |rows|
      invariant 0 <= i
      invariant chunks + Chunks(if i <= |rows| then rows[i..] else [], maxRows) == Chunks(rows, maxRows)
      decreases |rows| - i
    {
      var end := if i + maxRows <= |rows| then i + maxRows else |rows|;
      ghost var rest := rows[i..];
      assert rows[i..end] == rest[..end - i];
      if |rest| <= maxRows {
        assert rest[..end - i] == rest;
      } else {
        assert rest[maxRows..] == rows[i + maxRows..];
      }
      chunks := chunks + [rows[i..end]];
      i := i + maxRows;
    }
  }

  datatype Part = Part(content: string, rowCount: nat)

  function PartsOf(keys: seq<string>, chunks: seq<seq<Row>>): (parts: seq<Part>)
    ensures |parts| == |chunks|
  {
    if chunks == [] then []
    else [Part(Print(keys, chunks[0]), |chunks[0]|)] + PartsOf(keys, chunks[1..])
  }

  /** With a single chunk the source returns the same single part by a branch of its own. */
  function BuildPlanwiseCsvParts(keys: seq<string>, rows: seq<Row>, maxRows: int): seq<Part> {
    PartsOf(keys, ChunksOf(rows, maxRows))
  }
}
