// The conversion as a whole, from the cells of the text that is read to the rows that are read back from the parts, and
// the texts that mean the same: comma or semicolon, any line break, with or without a byte order mark.
module CsvConversion {
  import opened Wrappers
  import opened JsText
  import opened Csv
  import opened CsvRoundTrip

  // ---------------------------------------------------------------------------------------------------
  // From cell to cell
  // ---------------------------------------------------------------------------------------------------

  /** The pipeline of the conversion page. */
  function Convert(text: string, mapping: Mapping, keys: seq<string>, maxRows: int): seq<Part> {
    BuildPlanwiseCsvParts(keys, MappedRows(Parse(text).rows, mapping, keys), maxRows)
  }

  /** The cells of the k-th line that is not blank. */
  function CellsAt(text: string, k: nat): seq<string>
    requires k < |Lines(text)|
  {
    CellsOfLine(Lines(text)[k], DetectSeparator(Lines(text)[0]))
  }

  /** Nothing feeds the target column: no mapping, a null or empty one, or one to a column the text does not have. */
  predicate Unmapped(mapping: Mapping, key: string, headers: seq<string>) {
    key !in mapping || mapping[key].None? || mapping[key].value == "" || mapping[key].value !in headers
  }

  /** What the mapping says about one converted row: a target column holds the cell of its source column, counted
      without the unnamed columns before it, or nothing. */
  ghost predicate RowFromCells(headers: seq<string>, cells: seq<string>, mapping: Mapping, keys: seq<string>,
                               row: Row)
  {
    && row.Keys == (set key | key in keys)
    && forall key <- keys ::
         && (forall c: nat | c < |headers| && headers[c] != "" && key in mapping && mapping[key] == Some(headers[c]) ::
               row[key] == CellAt(cells, c - EmptyCount(headers[..c])))
         && (Unmapped(mapping, key, headers) ==> row[key] == "")
  }

  /** The i-th converted row comes from the cells of line i + 1. */
  ghost predicate RowSays(text: string, mapping: Mapping, keys: seq<string>, row: Row, i: nat)
    requires i + 1 < |Lines(text)|
  {
    RowFromCells(CellsAt(text, 0), CellsAt(text, i + 1), mapping, keys, row)
  }

  lemma {:induction false} TrimAllTrims(cells: seq<string>)
    ensures forall cell <- TrimAll(cells) :: Trimmed(cell)
  {
    if cells != [] {
      TrimIsTrimmed(cells[0]);
      TrimAllTrims(cells[1..]);
    }
  }

  lemma {:induction false} RowsOfAt(headers: seq<string>, lines: seq<string>, separator: char, i: nat)
    requires i < |lines|
    ensures RowsOf(headers, lines, separator)[i] == RowOf(headers, CellsOfLine(lines[i], separator))
  {
    if i > 0 {
      RowsOfAt(headers, lines[1..], separator, i - 1);
    }
  }

  lemma {:induction false} RowKeys(headers: seq<string>, cells: seq<string>, key: string)
    ensures key in RowOf(headers, cells) <==> key in headers
  {
    if headers != [] {
      var c := |headers| - 1;
      RowKeys(headers[..c], cells, key);
      assert headers == headers[..c] + [headers[c]];
    }
  }

  lemma MappedFromCell(headers: seq<string>, cells: seq<string>, mapping: Mapping, key: string, c: nat)
    requires DistinctNames(headers) && c < |headers| && headers[c] != ""
    requires key in mapping && mapping[key] == Some(headers[c]) && forall cell <- cells :: Trimmed(cell)
    ensures MappedValue(RowOf(WithoutEmpty(headers), cells), mapping, key)
         == CellAt(cells, c - EmptyCount(headers[..c]))
  {
    ColumnIsShifted(headers, c, cells);
    var k := c - EmptyCount(headers[..c]);
    if k < |cells| {
      assert cells[k] in cells;
    }
    TrimOfTrimmed(CellAt(cells, k));
    hide Trim, RowOf, WithoutEmpty, EmptyCount, DistinctNames;
  }

  lemma UnmappedIsEmpty(headers: seq<string>, cells: seq<string>, mapping: Mapping, key: string)
    requires Unmapped(mapping, key, headers)
    ensures MappedValue(RowOf(WithoutEmpty(headers), cells), mapping, key) == ""
  {
    if key in mapping && mapping[key].Some? {
      RowKeys(WithoutEmpty(headers), cells, mapping[key].value);
      WithoutEmptyLength(headers);
    }
    assert Trim("") == "";
  }

  lemma MappedRowIs(headers: seq<string>, cells: seq<string>, mapping: Mapping, keys: seq<string>)
    requires DistinctNames(headers) && forall cell <- cells :: Trimmed(cell)
    ensures RowFromCells(headers, cells, mapping, keys, MappedRow(RowOf(WithoutEmpty(headers), cells), mapping, keys))
  {
    var row := MappedRow(RowOf(WithoutEmpty(headers), cells), mapping, keys);
    hide RowOf, WithoutEmpty, EmptyCount, DistinctNames, MappedValue, Unmapped, Trimmed;
    forall key <- keys
      ensures forall c: nat | c < |headers| && headers[c] != "" && key in mapping && mapping[key] == Some(headers[c]) ::
                row[key] == CellAt(cells, c - EmptyCount(headers[..c]))
      ensures Unmapped(mapping, key, headers) ==> row[key] == ""
    {
      forall c: nat | c < |headers| && headers[c] != "" && key in mapping && mapping[key] == Some(headers[c])
        ensures row[key] == CellAt(cells, c - EmptyCount(headers[..c]))
      {
        MappedFromCell(headers, cells, mapping, key, c);
      }
      if Unmapped(mapping, key, headers) {
        UnmappedIsEmpty(headers, cells, mapping, key);
      }
    }
  }

  lemma MappedRowSays(text: string, mapping: Mapping, keys: seq<string>, i: nat)
    requires i + 1 < |Lines(text)| && DistinctNames(CellsAt(text, 0))
    ensures |MappedRows(Parse(text).rows, mapping, keys)| == |Lines(text)| - 1
    ensures RowSays(text, mapping, keys, MappedRows(Parse(text).rows, mapping, keys)[i], i)
  {
    var lines, headers, cells := Lines(text), CellsAt(text, 0), CellsAt(text, i + 1);
    var separator := DetectSeparator(lines[0]);
    TrimAllTrims(Cells(lines[i + 1], "", false, separator));
    assert forall cell <- cells :: Trimmed(cell);
    assert Parse(text).rows == RowsOf(WithoutEmpty(headers), lines[1..], separator);
    assert cells == CellsOfLine(lines[1..][i], separator);
    hide Parse, Lines, CellsOfLine, DetectSeparator, RowOf, WithoutEmpty, DistinctNames, Trimmed, CellsAt;
    RowsOfAt(WithoutEmpty(headers), lines[1..], separator, i);
    MappedRowIs(headers, cells, mapping, keys);
    hide RowFromCells, MappedRow, RowsOf;
  }

  /** Whatever text with distinct names is converted, the parts read back are one row for each line after the header,
      each as the mapping says, less the rows that a single empty column made blank. */
  lemma ConversionByCells(text: string, mapping: Mapping, keys: seq<string>, maxRows: int)
    requires GoodKeys(keys) && Lines(text) != [] && DistinctNames(CellsAt(text, 0))
    ensures exists rows: seq<Row> ::
              && |rows| == |Lines(text)| - 1
              && (forall i | 0 <= i < |rows| :: RowSays(text, mapping, keys, rows[i], i))
              && ReadBack(Convert(text, mapping, keys, maxRows)) == Kept(keys, rows)
  {
    var rows := MappedRows(Parse(text).rows, mapping, keys);
    ConversionRoundTrip(text, mapping, keys, maxRows);
    MappedCount(text, mapping, keys);
    hide GoodKeys, DistinctNames, RowSays, Parse, MappedRows, ReadBack, Kept, CellsAt;
    forall i | 0 <= i < |rows| ensures RowSays(text, mapping, keys, rows[i], i) {
      MappedRowSays(text, mapping, keys, i);
    }
  }

  lemma MappedCount(text: string, mapping: Mapping, keys: seq<string>)
    requires Lines(text) != []
    ensures |MappedRows(Parse(text).rows, mapping, keys)| == |Lines(text)| - 1
  {
  }

  /** With two target columns or more nothing is lost: row i holds the mapped cells of line i + 1. */
  lemma WideConversionByCells(text: string, mapping: Mapping, keys: seq<string>, maxRows: int)
    requires GoodKeys(keys) && |keys| >= 2 && Lines(text) != [] && DistinctNames(CellsAt(text, 0))
    ensures var back := ReadBack(Convert(text, mapping, keys, maxRows));
            && |back| == |Lines(text)| - 1
            && forall i | 0 <= i < |back| :: RowSays(text, mapping, keys, back[i], i)
  {
    ConversionByCells(text, mapping, keys, maxRows);
    var rows: seq<Row> :|
      && |rows| == |Lines(text)| - 1
      && (forall i | 0 <= i < |rows| :: RowSays(text, mapping, keys, rows[i], i))
      && ReadBack(Convert(text, mapping, keys, maxRows)) == Kept(keys, rows);
    KeepsAllExactly(rows, IsPrinted(keys));
    hide GoodKeys, DistinctNames, RowSays, Convert, ReadBack, CellsAt, Lines;
  }

  // ---------------------------------------------------------------------------------------------------
  // Texts that mean the same
  // ---------------------------------------------------------------------------------------------------

  lemma {:induction false} PlainCellsAreSplit(rest: string, current: string, separator: char)
    requires '"' !in rest && separator != '"'
    ensures var parts := Split(rest, separator);
            Cells(rest, current, false, separator) == [current + parts[0]] + parts[1..]
    decreases |rest|
  {
    if rest == "" {
      assert current + "" == current;
    } else if rest[0] == separator {
      PlainCellsAreSplit(rest[1..], "", separator);
      var parts := Split(rest[1..], separator);
      assert "" + parts[0] == parts[0] && [parts[0]] + parts[1..] == parts;
      assert current + "" == current;
    } else {
      PlainCellsAreSplit(rest[1..], current + [rest[0]], separator);
      var parts := Split(rest[1..], separator);
      assert current + [rest[0]] + parts[0] == current + ([rest[0]] + parts[0]);
    }
  }

  lemma {:induction false} PlainJoined(items: seq<string>, separator: char)
    requires items != [] && separator != '"'
    requires forall item <- items :: Trimmed(item) && separator !in item && '"' !in item
    ensures CellsOfLine(Join(items, separator), separator) == items
  {
    var line := Join(items, separator);
    JoinedCharacters(items, separator);
    SplitOfJoin(items, separator);
    PlainCellsAreSplit(line, "", separator);
    assert "" + items[0] == items[0] && [items[0]] + items[1..] == items;
    TrimAllOfTrimmed(items);
  }

  lemma {:induction false} NotIn(s: string, c: char)
    ensures Count(s, c) > 0 <==> c in s
  {
    if s != "" {
      NotIn(s[1..], c);
    }
  }

  /** A header line of two columns or more without quotes is read with the separator it was written with, comma or
      semicolon, if its names contain neither. */
  lemma SeparatorIsDetected(names: seq<string>, separator: char)
    requires |names| >= 2 && (separator == ';' || separator == ',')
    requires forall name <- names :: Trimmed(name) && ';' !in name && ',' !in name && '"' !in name
    ensures DetectSeparator(Join(names, separator)) == separator
    ensures CellsOfLine(Join(names, separator), DetectSeparator(Join(names, separator))) == names
  {
    JoinedCharacters(names, separator);
    NotIn(Join(names, separator), ';');
    NotIn(Join(names, separator), ',');
    PlainJoined(names, separator);
    hide CellsOfLine, Join, Trimmed, Count;
  }

  /** Lines joined by one of the three line breaks. */
  function JoinBreaks(lines: seq<string>, lineBreak: string): string {
    if lines == [] then ""
    else if |lines| == 1 then lines[0]
    else lines[0] + lineBreak + JoinBreaks(lines[1..], lineBreak)
  }

  lemma {:induction false} NormalizeAfterPlain(line: string, rest: string)
    requires NoBreaks(line)
    ensures NormalizeBreaks(line + rest) == line + NormalizeBreaks(rest)
  {
    if line == "" {
      assert line + rest == rest;
    } else {
      assert (line + rest)[1..] == line[1..] + rest;
      NormalizeAfterPlain(line[1..], rest);
    }
  }

  lemma NormalizeBreak(lineBreak: string, rest: string)
    requires lineBreak in ["\n", "\r\n", "\r"]
    requires lineBreak == "\r" ==> rest == "" || rest[0] != '\n'
    ensures NormalizeBreaks(lineBreak + rest) == ['\n'] + NormalizeBreaks(rest)
  {
    assert (lineBreak + rest)[|lineBreak|..] == rest;
    if lineBreak == "\r\n" {
      assert (lineBreak + rest)[2..] == rest;
    } else {
      assert (lineBreak + rest)[1..] == rest;
    }
  }

  lemma {:induction false} BreaksMeanTheSame(lines: seq<string>, lineBreak: string)
    requires lineBreak in ["\n", "\r\n", "\r"] && forall line <- lines :: NoBreaks(line)
    ensures NormalizeBreaks(JoinBreaks(lines, lineBreak)) == Join(lines, '\n')
  {
    if |lines| == 1 {
      NormalizeAfterPlain(lines[0], "");
      assert lines[0] + "" == lines[0];
    } else if |lines| > 1 {
      var rest := JoinBreaks(lines[1..], lineBreak);
      assert JoinBreaks(lines, lineBreak) == lines[0] + (lineBreak + rest);
      assert Join(lines, '\n') == lines[0] + (['\n'] + Join(lines[1..], '\n'));
      hide NormalizeBreaks, JoinBreaks, Join, NoBreaks;
      BreaksMeanTheSame(lines[1..], lineBreak);
      StartsPlain(lines[1..], lineBreak);
      NormalizeBreak(lineBreak, rest);
      NormalizeAfterPlain(lines[0], lineBreak + rest);
    }
  }

  lemma StartsPlain(lines: seq<string>, lineBreak: string)
    requires lineBreak in ["\n", "\r\n", "\r"] && forall line <- lines :: NoBreaks(line)
    ensures lineBreak == "\r" ==> JoinBreaks(lines, lineBreak) == "" || JoinBreaks(lines, lineBreak)[0] != '\n'
  {
    if lines != [] {
      assert NoBreaks(lines[0]);
      if lines[0] != "" {
        assert lines[0][0] in lines[0] && JoinBreaks(lines, lineBreak)[0] == lines[0][0];
      }
    }
  }

  /** A text is read alike whatever the line breaks between its lines, with or without a byte order mark before it. */
  lemma TextsReadAlike(lines: seq<string>, lineBreak: string)
    requires lineBreak in ["\n", "\r\n", "\r"] && forall line <- lines :: NoBreaks(line)
    requires lines != [] && lines[0] != "" && lines[0][0] != BYTE_ORDER_MARK
    ensures Parse(JoinBreaks(lines, lineBreak)) == Parse(Join(lines, '\n'))
    ensures Parse([BYTE_ORDER_MARK] + JoinBreaks(lines, lineBreak)) == Parse(Join(lines, '\n'))
  {
    var text, plain := JoinBreaks(lines, lineBreak), Join(lines, '\n');
    BreaksMeanTheSame(lines, lineBreak);
    LinesOfJoined(lines);
    NormalizeWithoutReturns(plain) by {
      JoinedCharacters(lines, '\n');
    }
    assert text[0] == lines[0][0] && plain[0] == lines[0][0];
    assert ([BYTE_ORDER_MARK] + text)[1..] == text;
    assert Lines(text) == Lines(plain) && Lines([BYTE_ORDER_MARK] + text) == Lines(plain);
    hide Lines, CellsOfLine, DetectSeparator, WithoutEmpty, RowsOf;
  }

  lemma {:induction false} BlankIsDropped(before: seq<string>, blank: string, after: seq<string>)
    requires Trim(blank) == ""
    ensures WithoutBlanks(before + [blank] + after) == WithoutBlanks(before + after)
  {
    var with, without := before + [blank] + after, before + after;
    if before == [] {
      assert with[1..] == after && without == after;
    } else {
      BlankIsDropped(before[1..], blank, after);
      assert with[1..] == before[1..] + [blank] + after && without[1..] == before[1..] + after;
    }
  }

  predicate IsPlainLine(line: string) {
    NoBreaks(line) && (line == "" || line[0] != BYTE_ORDER_MARK)
  }

  /** A line of white space changes nothing, wherever it stands. */
  lemma BlankLinesAreSkipped(before: seq<string>, blank: string, after: seq<string>)
    requires forall line <- before + [blank] + after :: IsPlainLine(line)
    requires forall c <- blank :: IsSpace(c)
    ensures Parse(Join(before + [blank] + after, '\n')) == Parse(Join(before + after, '\n'))
  {
    var with, without := before + [blank] + after, before + after;
    TrimIsTrimmed(blank);
    assert forall line <- without :: line in with;
    assert with[0] in with;
    hide Trim, IsSpace;
    BlankIsDropped(before, blank, after);
    LinesOfJoined(with);
    if without == [] {
      assert Lines(Join(without, '\n')) == [] by {
        LinesOfJoined([""]);
        assert Join([""], '\n') == Join(without, '\n');
        assert Trim("") == "";
      }
    } else {
      assert without[0] in without;
      LinesOfJoined(without);
    }
    hide Lines, WithoutBlanks, DetectSeparator, CellsOfLine, RowsOf, WithoutEmpty, Join;
  }
}
