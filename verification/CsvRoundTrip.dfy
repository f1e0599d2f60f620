// The reader and the writer of Csv undo each other on the data that flows through the conversion.
module CsvRoundTrip {
  import opened Wrappers
  import opened JsText
  import opened Csv

  predicate NoBreaks(s: string) {
    '\n' !in s && '\r' !in s
  }

  /** A value the reader can produce: trimmed and without line breaks. */
  predicate Clean(v: string) {
    Trimmed(v) && NoBreaks(v)
  }

  /** A column name that survives the unquoted header line. */
  predicate GoodKey(key: string) {
    key != "" && Clean(key) && ';' !in key && ',' !in key && '"' !in key
  }

  ghost predicate GoodKeys(keys: seq<string>) {
    keys != [] && forall key <- keys :: GoodKey(key)
  }

  ghost predicate CleanValues(row: Row) {
    forall key <- row :: Clean(row[key])
  }

  ghost predicate CleanRow(keys: seq<string>, row: Row) {
    row.Keys == (set key | key in keys) && CleanValues(row)
  }

  ghost predicate CleanRows(keys: seq<string>, rows: seq<Row>) {
    forall row <- rows :: CleanRow(keys, row)
  }

  // ---------------------------------------------------------------------------------------------------
  // One cell
  // ---------------------------------------------------------------------------------------------------

  lemma {:induction false} PlainCell(v: string, rest: string, current: string)
    requires ';' !in v && '"' !in v
    ensures Cells(v + rest, current, false, ';') == Cells(rest, current + v, false, ';')
  {
    if v == "" {
      assert v + rest == rest && current + v == current;
    } else {
      assert (v + rest)[1..] == v[1..] + rest;
      PlainCell(v[1..], rest, current + [v[0]]);
      assert current + [v[0]] + v[1..] == current + v;
    }
  }

  lemma {:induction false} QuotedCell(v: string, rest: string, current: string)
    requires rest == "" || rest[0] != '"'
    ensures Cells(DoubleQuotes(v) + "\"" + rest, current, true, ';') == Cells(rest, current + v, false, ';')
  {
    if v == "" {
      assert DoubleQuotes(v) + "\"" + rest == "\"" + rest;
      assert ("\"" + rest)[1..] == rest && current + v == current;
    } else {
      var tail := DoubleQuotes(v[1..]) + "\"" + rest;
      QuotedCell(v[1..], rest, current + [v[0]]);
      assert current + [v[0]] + v[1..] == current + v;
      hide DoubleQuotes;
      if v[0] == '"' {
        assert DoubleQuotes(v) + "\"" + rest == "\"\"" + tail;
        assert ("\"\"" + tail)[2..] == tail;
        assert current + "\"" == current + [v[0]];
      } else {
        assert DoubleQuotes(v) + "\"" + rest == [v[0]] + tail;
        assert ([v[0]] + tail)[1..] == tail;
      }
    }
  }

  lemma {:induction false} DoubledIsNoShorter(v: string)
    ensures |DoubleQuotes(v)| >= |v|
  {
    if v != "" {
      DoubledIsNoShorter(v[1..]);
    }
  }

  /** A value is written as it is exactly when it holds no separator, quote or line feed. */
  lemma QuotedExactly(v: string)
    ensures Escape(v) == v <==> forall c <- v :: c !in [';', '"', '\n']
  {
    DoubledIsNoShorter(v);
  }

  /** An escaped value is read back whole. */
  lemma EscapedCell(v: string, rest: string)
    requires rest == "" || rest[0] == ';'
    ensures Cells(Escape(v) + rest, "", false, ';') == Cells(rest, v, false, ';')
  {
    if ';' in v || '"' in v || '\n' in v {
      assert Escape(v) + rest == "\"" + (DoubleQuotes(v) + "\"" + rest);
      assert (Escape(v) + rest)[1..] == DoubleQuotes(v) + "\"" + rest;
      QuotedCell(v, rest, "");
    } else {
      PlainCell(v, rest, "");
    }
    assert "" + v == v;
  }

  // ---------------------------------------------------------------------------------------------------
  // One line
  // ---------------------------------------------------------------------------------------------------

  function Escaped(values: seq<string>): (cells: seq<string>)
    ensures |cells| == |values|
  {
    if values == [] then [] else [Escape(values[0])] + Escaped(values[1..])
  }

  lemma {:induction false} CellsOfEscaped(values: seq<string>)
    requires values != [] && forall v <- values :: Trimmed(v)
    ensures Cells(Join(Escaped(values), ';'), "", false, ';') == values
    ensures CellsOfLine(Join(Escaped(values), ';'), ';') == values
  {
    hide Escape, DoubleQuotes, Trim;
    var cells := Escaped(values);
    if |values| == 1 {
      EscapedCell(values[0], "");
      assert Join(cells, ';') + "" == Join(cells, ';');
    } else {
      CellsOfEscaped(values[1..]);
      var rest := [';'] + Join(cells[1..], ';');
      EscapedCell(values[0], rest);
      assert Join(cells, ';') == Escape(values[0]) + rest;
      assert rest[1..] == Join(cells[1..], ';');
    }
    TrimAllOfTrimmed(values);
  }

  lemma {:induction false} TrimAllOfTrimmed(values: seq<string>)
    requires forall v <- values :: Trimmed(v)
    ensures TrimAll(values) == values
  {
    if values != [] {
      TrimOfTrimmed(values[0]);
      TrimAllOfTrimmed(values[1..]);
    }
  }

  function Values(keys: seq<string>, row: Row): (values: seq<string>)
    ensures |values| == |keys| && forall i :: 0 <= i < |keys| ==> values[i] == Lookup(row, keys[i])
  {
    if keys == [] then [] else [Lookup(row, keys[0])] + Values(keys[1..], row)
  }

  lemma {:induction false} EscapedValuesAreEscaped(keys: seq<string>, row: Row)
    ensures EscapedValues(keys, row) == Escaped(Values(keys, row))
  {
    if keys != [] {
      EscapedValuesAreEscaped(keys[1..], row);
      assert Values(keys, row)[1..] == Values(keys[1..], row);
    }
  }

  lemma {:induction false} GoodKeysNeedNoEscape(keys: seq<string>)
    requires forall key <- keys :: GoodKey(key)
    ensures Escaped(keys) == keys
  {
    if keys != [] {
      assert GoodKey(keys[0]);
      GoodKeysNeedNoEscape(keys[1..]);
    }
  }

  lemma {:induction false} RowOfValues(keys: seq<string>, values: seq<string>, row: Row)
    requires |keys| <= |values| && forall i :: 0 <= i < |keys| ==> values[i] == Lookup(row, keys[i])
    ensures forall key :: key in RowOf(keys, values) <==> key in keys
    ensures forall key <- keys :: RowOf(keys, values)[key] == Lookup(row, key)
  {
    if keys != [] {
      var front, last := keys[..|keys| - 1], keys[|keys| - 1];
      RowOfValues(front, values, row);
      assert keys == front + [last];
    }
  }

  /** A printed row is read back as the row. */
  lemma RowLineIsRead(keys: seq<string>, row: Row)
    requires GoodKeys(keys) && CleanRow(keys, row)
    ensures RowOf(keys, CellsOfLine(RowLine(keys, row), ';')) == row
  {
    EscapedValuesAreEscaped(keys, row);
    CellsOfEscaped(Values(keys, row));
    RowOfValues(keys, Values(keys, row), row);
  }

  // ---------------------------------------------------------------------------------------------------
  // The characters of a printed line
  // ---------------------------------------------------------------------------------------------------

  lemma {:induction false} DoubledCharacters(v: string)
    ensures forall c <- DoubleQuotes(v) :: c in v
  {
    if v != "" {
      DoubledCharacters(v[1..]);
      assert v == [v[0]] + v[1..];
    }
  }

  lemma EscapedCharacters(v: string)
    ensures forall c <- Escape(v) :: c == '"' || c in v
  {
    DoubledCharacters(v);
  }

  lemma {:induction false} EscapedAreCharacters(values: seq<string>)
    requires forall v <- values :: NoBreaks(v)
    ensures forall cell <- Escaped(values) :: NoBreaks(cell)
  {
    if values != [] {
      assert NoBreaks(values[0]);
      EscapedCharacters(values[0]);
      EscapedAreCharacters(values[1..]);
    }
  }

  /** A printed line of clean values has no line break, and is blank exactly when it is a single empty value. */
  lemma PrintedLine(values: seq<string>)
    requires values != [] && forall v <- values :: Clean(v)
    ensures NoBreaks(Join(Escaped(values), ';'))
    ensures Trim(Join(Escaped(values), ';')) == "" <==> values == [""]
  {
    var line := Join(Escaped(values), ';');
    EscapedAreCharacters(values);
    JoinedCharacters(Escaped(values), ';');
    TrimIsTrimmed(line);
    if |values| == 1 {
      assert line == Escape(values[0]);
      if values[0] != "" {
        assert Clean(values[0]) && !IsSpace(values[0][0]);
        assert line[0] in line && (line[0] == '"' || line[0] == values[0][0]);
      }
    } else {
      assert ';' in line && !IsSpace(';');
    }
  }

  // ---------------------------------------------------------------------------------------------------
  // The lines of a printed text
  // ---------------------------------------------------------------------------------------------------

  lemma {:induction false} NormalizeWithoutReturns(text: string)
    requires '\r' !in text
    ensures NormalizeBreaks(text) == text
  {
    if text != "" {
      assert text == [text[0]] + text[1..];
      NormalizeWithoutReturns(text[1..]);
    }
  }

  lemma LinesOfJoined(lines: seq<string>)
    requires lines != [] && forall line <- lines :: NoBreaks(line)
    requires lines[0] == "" || lines[0][0] != BYTE_ORDER_MARK
    ensures Lines(Join(lines, '\n')) == WithoutBlanks(lines)
  {
    var text := Join(lines, '\n');
    JoinedCharacters(lines, '\n');
    assert text == "" || text[0] == if lines[0] == "" then '\n' else lines[0][0];
    NormalizeWithoutReturns(text);
    SplitOfJoin(lines, '\n');
  }

  /** The printed line of the row is blank, which takes a single column with an empty value. */
  predicate Vanishes(keys: seq<string>, row: Row) {
    |keys| == 1 && Lookup(row, keys[0]) == ""
  }

  function Keep<T>(items: seq<T>, keeps: T -> bool): seq<T> {
    if items == [] then []
    else if keeps(items[0]) then [items[0]] + Keep(items[1..], keeps)
    else Keep(items[1..], keeps)
  }

  lemma {:induction false} KeepOfConcat<T>(first: seq<T>, second: seq<T>, keeps: T -> bool)
    ensures Keep(first + second, keeps) == Keep(first, keeps) + Keep(second, keeps)
  {
    if first == [] {
      assert first + second == second;
    } else {
      var item, rest := first[0], first[1..];
      KeepOfConcat(rest, second, keeps);
      assert (first + second)[0] == item && (first + second)[1..] == rest + second;
      var kept, others := Keep(rest, keeps), Keep(second, keeps);
      assert [item] + (kept + others) == ([item] + kept) + others;
    }
  }

  /** Nothing is dropped exactly when every item is kept. */
  lemma {:induction false} KeepsAllExactly<T>(items: seq<T>, keeps: T -> bool)
    ensures |Keep(items, keeps)| <= |items|
    ensures Keep(items, keeps) == items <==> forall item <- items :: keeps(item)
  {
    if items != [] {
      KeepsAllExactly(items[1..], keeps);
      assert items == [items[0]] + items[1..];
      if !keeps(items[0]) {
        assert |Keep(items, keeps)| < |items|;
        assert items[0] in items;
      }
    }
  }

  function IsPrinted(keys: seq<string>): Row -> bool {
    row => !Vanishes(keys, row)
  }

  /** The rows whose printed line is not blank: all of them, unless there is a single column. */
  function Kept(keys: seq<string>, rows: seq<Row>): seq<Row> {
    Keep(rows, IsPrinted(keys))
  }

  /** The line of one clean row. */
  lemma RowLineFacts(keys: seq<string>, row: Row)
    requires GoodKeys(keys) && CleanRow(keys, row)
    ensures NoBreaks(RowLine(keys, row))
    ensures Trim(RowLine(keys, row)) == "" <==> Vanishes(keys, row)
  {
    var values := Values(keys, row);
    EscapedValuesAreEscaped(keys, row);
    forall v <- values ensures Clean(v) {
      var i :| 0 <= i < |values| && values[i] == v;
      assert keys[i] in row;
    }
    PrintedLine(values);
  }

  lemma {:induction false} RowLinesHaveNoBreaks(keys: seq<string>, rows: seq<Row>)
    requires GoodKeys(keys) && CleanRows(keys, rows)
    ensures forall line <- RowLines(keys, rows) :: NoBreaks(line)
  {
    if rows != [] {
      hide RowLine, CleanRow, GoodKeys, NoBreaks;
      RowLinesHaveNoBreaks(keys, rows[1..]);
      RowLineFacts(keys, rows[0]);
    }
  }

  lemma {:induction false} RowLinesAreRead(keys: seq<string>, rows: seq<Row>)
    requires GoodKeys(keys) && CleanRows(keys, rows)
    ensures RowsOf(keys, WithoutBlanks(RowLines(keys, rows)), ';') == Kept(keys, rows)
  {
    if rows != [] {
      hide RowLine, CellsOfLine, CleanRow, GoodKeys, NoBreaks, Trim, Vanishes, RowOf, RowsOf;
      var row, rest := rows[0], rows[1..];
      var line, lines := RowLine(keys, row), RowLines(keys, rest);
      RowLinesAreRead(keys, rest);
      RowLineIsRead(keys, row);
      RowLineFacts(keys, row);
      WithoutBlanksPrepended(line, lines);
      assert RowLines(keys, rows) == [line] + lines;
      RowsOfPrepended(keys, line, WithoutBlanks(lines));
    }
  }

  lemma WithoutBlanksPrepended(line: string, lines: seq<string>)
    ensures WithoutBlanks([line] + lines)
         == if Trim(line) == "" then WithoutBlanks(lines) else [line] + WithoutBlanks(lines)
  {
    assert ([line] + lines)[1..] == lines;
  }

  lemma RowsOfPrepended(headers: seq<string>, line: string, lines: seq<string>)
    ensures RowsOf(headers, [line] + lines, ';')
         == [RowOf(headers, CellsOfLine(line, ';'))] + RowsOf(headers, lines, ';')
  {
    assert ([line] + lines)[1..] == lines;
  }

  lemma {:induction false} CountIn(s: string, t: string, c: char)
    ensures Count(s + t, c) == Count(s, c) + Count(t, c)
    ensures c !in s ==> Count(s, c) == 0
  {
    if s == "" {
      assert s + t == t;
    } else {
      CountIn(s[1..], t, c);
      assert (s + t)[1..] == s[1..] + t;
      assert s == [s[0]] + s[1..];
    }
  }

  lemma {:induction false} HeaderHasNoComma(keys: seq<string>)
    requires forall key <- keys :: GoodKey(key)
    ensures Count(Join(keys, ';'), ',') == 0
  {
    JoinedCharacters(keys, ';');
    CountIn(Join(keys, ';'), "", ',');
  }

  lemma {:induction false} NothingEmpty(keys: seq<string>)
    requires forall key <- keys :: key != ""
    ensures WithoutEmpty(keys) == keys
  {
    if keys != [] {
      assert keys[0] in keys && forall key <- keys[1..] :: key in keys;
      NothingEmpty(keys[1..]);
    }
  }

  /** Reading a printed text gives back the header, the separator and the rows, except for the rows that a
      single empty column made blank. */
  lemma ParseOfPrint(keys: seq<string>, rows: seq<Row>)
    requires GoodKeys(keys) && CleanRows(keys, rows)
    ensures Parse(Print(keys, rows)) == Parsed(keys, Kept(keys, rows), ';')
  {
    var header := Join(keys, ';');
    var lines := [header] + RowLines(keys, rows);
    GoodKeysNeedNoEscape(keys);
    CellsOfEscaped(keys);
    PrintedLine(keys);
    assert GoodKey(keys[0]);
    assert header[0] == keys[0][0] && IsSpace(BYTE_ORDER_MARK);
    RowLinesHaveNoBreaks(keys, rows);
    RowLinesAreRead(keys, rows);
    LinesOfJoined(lines);
    assert lines[1..] == RowLines(keys, rows);
    var kept := WithoutBlanks(RowLines(keys, rows));
    assert WithoutBlanks(lines) == [header] + kept;
    assert ([header] + kept)[1..] == kept;
    HeaderHasNoComma(keys);
    NothingEmpty(keys);
  }

  // ---------------------------------------------------------------------------------------------------
  // Parts
  // ---------------------------------------------------------------------------------------------------

  function Flatten<T>(parts: seq<seq<T>>): seq<T> {
    if parts == [] then [] else parts[0] + Flatten(parts[1..])
  }

  /** Every part read back, one after the other. */
  function ReadBack(parts: seq<Part>): seq<Row> {
    if parts == [] then [] else Parse(parts[0].content).rows + ReadBack(parts[1..])
  }

  function RowTotal(parts: seq<Part>): nat {
    if parts == [] then 0 else parts[0].rowCount + RowTotal(parts[1..])
  }

  lemma {:induction false} ChunksPartition<T>(rows: seq<T>, maxRows: int)
    requires maxRows > 0
    ensures Flatten(Chunks(rows, maxRows)) == rows
    ensures forall i :: 0 <= i < |Chunks(rows, maxRows)| ==> 1 <= |Chunks(rows, maxRows)[i]| <= maxRows
    ensures forall i :: 0 <= i < |Chunks(rows, maxRows)| - 1 ==> |Chunks(rows, maxRows)[i]| == maxRows
    decreases |rows|
  {
    if |rows| > maxRows {
      var first, rest := rows[..maxRows], rows[maxRows..];
      ChunksPartition(rest, maxRows);
      var chunks := Chunks(rest, maxRows);
      assert Chunks(rows, maxRows) == [first] + chunks;
      assert ([first] + chunks)[1..] == chunks;
      assert Flatten([first] + chunks) == first + rest;
    } else if rows != [] {
      assert Flatten([rows]) == rows + Flatten([rows][1..]);
    }
  }

  /** Chunking splits the rows in order, each chunk but the last holding exactly `maxRows` of them. */
  lemma ChunksOfPartition<T>(rows: seq<T>, maxRows: int)
    ensures Flatten(ChunksOf(rows, maxRows)) == rows
    ensures maxRows > 0 ==>
              && (forall i :: 0 <= i < |ChunksOf(rows, maxRows)| ==> |ChunksOf(rows, maxRows)[i]| <= maxRows)
              && forall i :: 0 <= i < |ChunksOf(rows, maxRows)| - 1 ==> |ChunksOf(rows, maxRows)[i]| == maxRows
  {
    if maxRows > 0 && rows != [] {
      ChunksPartition(rows, maxRows);
    } else {
      assert Flatten([rows]) == rows + Flatten([rows][1..]);
    }
  }

  lemma {:induction false} PartsAreReadBack(keys: seq<string>, chunks: seq<seq<Row>>)
    requires GoodKeys(keys) && CleanRows(keys, Flatten(chunks))
    ensures ReadBack(PartsOf(keys, chunks)) == Kept(keys, Flatten(chunks))
    ensures RowTotal(PartsOf(keys, chunks)) == |Flatten(chunks)|
    ensures forall i :: 0 <= i < |chunks| ==> PartsOf(keys, chunks)[i].rowCount == |chunks[i]|
  {
    if chunks != [] {
      hide GoodKeys, CleanRow, Print, Parse, IsPrinted;
      var first, rest := chunks[0], Flatten(chunks[1..]);
      assert Flatten(chunks) == first + rest;
      assert forall row :: row in first || row in rest ==> row in first + rest;
      ParseOfPrint(keys, first);
      PartsAreReadBack(keys, chunks[1..]);
      KeepOfConcat(first, rest, IsPrinted(keys));
      hide Keep;
      assert PartsOf(keys, chunks)[1..] == PartsOf(keys, chunks[1..]);
    }
  }

  // ---------------------------------------------------------------------------------------------------
  // What the reader produces
  // ---------------------------------------------------------------------------------------------------

  lemma {:induction false} NormalizedHasNoReturns(text: string)
    ensures '\r' !in NormalizeBreaks(text)
    decreases |text|
  {
    if text != "" {
      if text[0] == '\r' {
        NormalizedHasNoReturns(if |text| > 1 && text[1] == '\n' then text[2..] else text[1..]);
      } else {
        NormalizedHasNoReturns(text[1..]);
      }
    }
  }

  lemma {:induction false} CellCharacters(rest: string, current: string, inQuotes: bool, separator: char)
    requires NoBreaks(rest) && NoBreaks(current)
    ensures forall cell <- Cells(rest, current, inQuotes, separator) :: NoBreaks(cell)
    decreases |rest|
  {
    if rest != "" {
      assert forall c <- rest[1..] :: c in rest;
      if rest[0] == '"' {
        if inQuotes && |rest| > 1 && rest[1] == '"' {
          CellCharacters(rest[2..], current + "\"", true, separator);
        } else {
          CellCharacters(rest[1..], current, !inQuotes, separator);
        }
      } else if rest[0] == separator && !inQuotes {
        CellCharacters(rest[1..], "", false, separator);
      } else {
        CellCharacters(rest[1..], current + [rest[0]], inQuotes, separator);
      }
    }
  }

  lemma {:induction false} TrimAllIsClean(cells: seq<string>)
    requires forall cell <- cells :: NoBreaks(cell)
    ensures forall cell <- TrimAll(cells) :: Clean(cell)
  {
    if cells != [] {
      assert NoBreaks(cells[0]) && forall cell <- cells[1..] :: cell in cells;
      TrimIsTrimmed(cells[0]);
      TrimAllIsClean(cells[1..]);
    }
  }

  lemma {:induction false} RowOfIsClean(headers: seq<string>, cells: seq<string>)
    requires forall cell <- cells :: Clean(cell)
    ensures CleanValues(RowOf(headers, cells))
  {
    if headers != [] {
      var c := |headers| - 1;
      RowOfIsClean(headers[..c], cells);
      assert c < |cells| ==> cells[c] in cells;
      var before := RowOf(headers[..c], cells);
      assert RowOf(headers, cells) == before[headers[c] := if c < |cells| then cells[c] else ""];
      assert Clean("");
    }
  }

  lemma {:induction false} RowsOfAreClean(headers: seq<string>, lines: seq<string>, separator: char)
    requires forall line <- lines :: NoBreaks(line)
    ensures forall row <- RowsOf(headers, lines, separator) :: CleanValues(row)
  {
    if lines != [] {
      assert NoBreaks(lines[0]) && forall line <- lines[1..] :: line in lines;
      CellCharacters(lines[0], "", false, separator);
      TrimAllIsClean(Cells(lines[0], "", false, separator));
      RowOfIsClean(headers, CellsOfLine(lines[0], separator));
      RowsOfAreClean(headers, lines[1..], separator);
    }
  }

  lemma {:induction false} WithoutBlanksIsSubset(lines: seq<string>)
    ensures forall line <- WithoutBlanks(lines) :: line in lines
  {
    if lines != [] {
      WithoutBlanksIsSubset(lines[1..]);
    }
  }

  /** Every value read from any text is trimmed and free of line breaks. */
  lemma ParsedValuesAreClean(text: string)
    ensures forall row <- Parse(text).rows :: CleanValues(row)
  {
    var normalized := NormalizeBreaks(DropByteOrderMark(text));
    NormalizedHasNoReturns(DropByteOrderMark(text));
    SplitPartsAreFree(normalized, '\n');
    WithoutBlanksIsSubset(Split(normalized, '\n'));
    var lines := Lines(text);
    forall line <- lines ensures NoBreaks(line) {}
    if lines != [] {
      var separator := DetectSeparator(lines[0]);
      RowsOfAreClean(WithoutEmpty(CellsOfLine(lines[0], separator)), lines[1..], separator);
    }
  }

  lemma MappedRowsAreClean(rows: seq<Row>, mapping: Mapping, keys: seq<string>)
    requires forall row <- rows :: CleanValues(row)
    ensures CleanRows(keys, MappedRows(rows, mapping, keys))
  {
    var mapped := MappedRows(rows, mapping, keys);
    forall row <- mapped ensures CleanRow(keys, row) {
      var i :| 0 <= i < |mapped| && mapped[i] == row;
      assert rows[i] in rows;
      forall key <- row ensures Clean(row[key]) {
        if key in mapping && mapping[key].Some? {
          TrimIsTrimmed(Lookup(rows[i], mapping[key].value));
        }
      }
    }
  }

  // ---------------------------------------------------------------------------------------------------
  // The whole conversion
  // ---------------------------------------------------------------------------------------------------

  /** Whatever text is read, mapping it, printing it in parts and reading the parts back gives exactly the
      mapped rows, except for the rows that a single empty column made blank. Each part has at most `maxRows`
      rows, and the row counts add up to all of them. */
  lemma ConversionRoundTrip(text: string, mapping: Mapping, keys: seq<string>, maxRows: int)
    requires GoodKeys(keys)
    ensures var rows := MappedRows(Parse(text).rows, mapping, keys);
            var parts := BuildPlanwiseCsvParts(keys, rows, maxRows);
            && ReadBack(parts) == Kept(keys, rows)
            && RowTotal(parts) == |rows|
            && (maxRows > 0 ==> forall part <- parts :: part.rowCount <= maxRows)
  {
    var rows := MappedRows(Parse(text).rows, mapping, keys);
    var chunks := ChunksOf(rows, maxRows);
    ParsedValuesAreClean(text);
    MappedRowsAreClean(Parse(text).rows, mapping, keys);
    ChunksOfPartition(rows, maxRows);
    PartsAreReadBack(keys, chunks);
    hide GoodKeys, CleanRows, Parse, MappedRows, ChunksOf, Kept;
    var parts := PartsOf(keys, chunks);
    forall part <- parts | maxRows > 0 ensures part.rowCount <= maxRows {
      var i :| 0 <= i < |parts| && parts[i] == part;
      assert |chunks[i]| <= maxRows;
    }
  }

  /** Nothing is lost exactly when there are two columns or more, or no value of the single one is empty. */
  lemma ConversionLosesNothingExactly(text: string, mapping: Mapping, keys: seq<string>, maxRows: int)
    requires GoodKeys(keys)
    ensures var rows := MappedRows(Parse(text).rows, mapping, keys);
            ReadBack(BuildPlanwiseCsvParts(keys, rows, maxRows)) == rows
            <==> |keys| >= 2 || forall row <- rows :: Lookup(row, keys[0]) != ""
  {
    ConversionRoundTrip(text, mapping, keys, maxRows);
    KeepsAllExactly(MappedRows(Parse(text).rows, mapping, keys), IsPrinted(keys));
  }

  // ---------------------------------------------------------------------------------------------------
  // Headers and positions
  // ---------------------------------------------------------------------------------------------------

  /** With distinct headers, a row gives each header the cell at its position, or nothing past the last cell. */
  lemma {:induction false} RowIsByPosition(headers: seq<string>, cells: seq<string>)
    requires forall i, j :: 0 <= i < j < |headers| ==> headers[i] != headers[j]
    ensures forall key :: key in RowOf(headers, cells) <==> key in headers
    ensures forall c :: 0 <= c < |headers| ==>
              RowOf(headers, cells)[headers[c]] == if c < |cells| then cells[c] else ""
  {
    if headers != [] {
      var front, last := headers[..|headers| - 1], headers[|headers| - 1];
      RowIsByPosition(front, cells);
      assert headers == front + [last];
      var before := RowOf(front, cells);
      assert RowOf(headers, cells) == before[last := if |front| < |cells| then cells[|front|] else ""];
      forall c | 0 <= c < |front| ensures headers[c] in before && headers[c] != last {
        assert headers[c] == front[c];
      }
    }
  }

  function EmptyCount(headers: seq<string>): (n: nat)
    ensures n <= |headers|
  {
    if headers == [] then 0 else (if headers[0] == "" then 1 else 0) + EmptyCount(headers[1..])
  }

  lemma {:induction false} WithoutEmptyConcat(first: seq<string>, second: seq<string>)
    ensures WithoutEmpty(first + second) == WithoutEmpty(first) + WithoutEmpty(second)
    decreases |first|
  {
    if first == [] {
      assert first + second == second;
    } else {
      assert (first + second)[1..] == first[1..] + second;
      WithoutEmptyConcat(first[1..], second);
      var kept, others := WithoutEmpty(first[1..]), WithoutEmpty(second);
      assert [first[0]] + (kept + others) == ([first[0]] + kept) + others;
    }
  }

  lemma {:induction false} WithoutEmptyLength(headers: seq<string>)
    ensures |WithoutEmpty(headers)| == |headers| - EmptyCount(headers)
    ensures forall key :: key in WithoutEmpty(headers) <==> key in headers && key != ""
  {
    if headers != [] {
      WithoutEmptyLength(headers[1..]);
      assert headers == [headers[0]] + headers[1..];
    }
  }

  /** The names that are not empty are pairwise distinct. */
  ghost predicate DistinctNames(headers: seq<string>) {
    forall i, j :: 0 <= i < j < |headers| && headers[i] != "" ==> headers[i] != headers[j]
  }

  lemma {:induction false} KeptNamesAreDistinct(headers: seq<string>)
    requires DistinctNames(headers)
    ensures forall i, j :: 0 <= i < j < |WithoutEmpty(headers)| ==> WithoutEmpty(headers)[i] != WithoutEmpty(headers)[j]
  {
    if headers != [] {
      var rest := headers[1..];
      assert DistinctNames(rest) by {
        assert forall j :: 0 <= j < |rest| ==> rest[j] == headers[j + 1];
      }
      KeptNamesAreDistinct(rest);
      WithoutEmptyLength(rest);
      if headers[0] != "" {
        var kept := WithoutEmpty(rest);
        forall j | 0 <= j < |kept| ensures kept[j] != headers[0] {
          assert kept[j] in kept && kept[j] in rest;
        }
        assert WithoutEmpty(headers) == [headers[0]] + kept;
      }
    }
  }

  function CellAt(cells: seq<string>, k: int): string
    requires 0 <= k
  {
    if k < |cells| then cells[k] else ""
  }

  /** The value under `headers[i]` is the cell at position `k`. */
  predicate ReadFrom(headers: seq<string>, i: nat, cells: seq<string>, k: int)
    requires i < |headers| && 0 <= k
  {
    var row := RowOf(WithoutEmpty(headers), cells);
    headers[i] in row && row[headers[i]] == CellAt(cells, k)
  }

  lemma KeptPosition(headers: seq<string>, i: nat)
    requires i < |headers| && headers[i] != ""
    ensures var k := i - EmptyCount(headers[..i]);
            0 <= k < |WithoutEmpty(headers)| && WithoutEmpty(headers)[k] == headers[i]
  {
    var before, after := headers[..i], headers[i..];
    assert headers == before + after && after[0] == headers[i];
    WithoutEmptyConcat(before, after);
    WithoutEmptyLength(before);
    assert WithoutEmpty(after)[0] == headers[i];
  }

  /** A column is read from as many cells too early as there are unnamed columns before it. */
  lemma ColumnIsShifted(headers: seq<string>, i: nat, cells: seq<string>)
    requires DistinctNames(headers) && i < |headers| && headers[i] != ""
    ensures ReadFrom(headers, i, cells, i - EmptyCount(headers[..i]))
  {
    hide WithoutEmpty, RowOf, EmptyCount, DistinctNames;
    KeptPosition(headers, i);
    KeptNamesAreDistinct(headers);
    RowIsByPosition(WithoutEmpty(headers), cells);
  }

  lemma {:induction false} EmptyCountIsZeroExactly(headers: seq<string>)
    ensures EmptyCount(headers) == 0 <==> forall j :: 0 <= j < |headers| ==> headers[j] != ""
  {
    if headers != [] {
      EmptyCountIsZeroExactly(headers[1..]);
      assert forall j :: 0 <= j < |headers| - 1 ==> headers[1..][j] == headers[j + 1];
    }
  }

  /** A named column is read from its own position exactly when no unnamed column stands before it. */
  lemma EmptyHeaderShiftsColumns(headers: seq<string>, i: nat)
    requires DistinctNames(headers) && i < |headers| && headers[i] != ""
    ensures (forall j :: 0 <= j < i ==> headers[j] != "") <==> forall cells :: ReadFrom(headers, i, cells, i)
  {
    var before := headers[..i];
    EmptyCountIsZeroExactly(before);
    assert forall j :: 0 <= j < i ==> before[j] == headers[j];
    hide WithoutEmpty, RowOf, EmptyCount, DistinctNames, ReadFrom;
    if EmptyCount(before) == 0 {
      forall cells ensures ReadFrom(headers, i, cells, i) {
        ColumnIsShifted(headers, i, cells);
      }
    } else {
      var cells := seq(i, k => "x");
      ColumnIsShifted(headers, i, cells);
      ReadFromOnePlace(headers, i, cells, i - EmptyCount(before), i);
    }
  }

  lemma ReadFromOnePlace(headers: seq<string>, i: nat, cells: seq<string>, k: int, other: int)
    requires i < |headers| && 0 <= k && 0 <= other && ReadFrom(headers, i, cells, k)
    ensures ReadFrom(headers, i, cells, other) <==> CellAt(cells, k) == CellAt(cells, other)
  {
  }
}
