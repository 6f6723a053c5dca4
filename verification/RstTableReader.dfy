/** A reader that recovers a printed grid table from its text alone, and the round trip with the printer. */
module RstTableReader {
  import opened PyText
  import opened RstTable

  // ---------------------------------------------------------------- the reader

  /** The widths are the lengths of the runs between the `+` signs of the first line. */
  function ReadWidths(line: string): seq<nat> {
    var fields := SplitOn(line, '+');
    if |fields| < 2 then [] else Lengths(fields[1..|fields| - 1])
  }

  function Lengths(fields: seq<string>): seq<nat> {
    seq(|fields|, i requires 0 <= i < |fields| => |fields[i]|)
  }

  /** Cuts a row line by width, skipping one bar before each cell and looking at no other character. */
  function CutCells(line: string, widths: seq<nat>): (cells: seq<string>)
    ensures |cells| == |widths|
    decreases widths
  {
    if widths == [] then []
    else if |line| < 1 + widths[0] then [""] + CutCells("", widths[1..])
    else [line[1..1 + widths[0]]] + CutCells(line[1 + widths[0]..], widths[1..])
  }

  function StripRight(s: string): string {
    if s != "" && s[|s| - 1] == ' ' then StripRight(s[..|s| - 1]) else s
  }

  function StripEach(lines: seq<string>): (r: seq<string>)
    ensures |r| == |lines| && forall i :: 0 <= i < |lines| ==> r[i] == StripRight(lines[i])
  {
    seq(|lines|, i requires 0 <= i < |lines| => StripRight(lines[i]))
  }

  function DropBlankTail(lines: seq<string>): seq<string> {
    if lines != [] && lines[|lines| - 1] == "" then DropBlankTail(lines[..|lines| - 1]) else lines
  }

  function Tidy(lines: seq<string>): seq<string> {
    DropBlankTail(StripEach(lines))
  }

  /** What column `j` holds in each of the row lines. */
  function ColumnOf(lines: seq<string>, widths: seq<nat>, j: nat): (column: seq<string>)
    requires j < |widths|
    ensures |column| == |lines| && forall i :: 0 <= i < |lines| ==> column[i] == CutCells(lines[i], widths)[j]
  {
    seq(|lines|, i requires 0 <= i < |lines| => CutCells(lines[i], widths)[j])
  }

  function ReadRow(lines: seq<string>, widths: seq<nat>): seq<seq<string>> {
    seq(|widths|, j requires 0 <= j < |widths| => Tidy(ColumnOf(lines, widths, j)))
  }

  /** A line that begins with `+` ends the row whose lines are pending. */
  function ReadRows(lines: seq<string>, pending: seq<string>, widths: seq<nat>): seq<seq<seq<string>>> {
    if lines == [] then []
    else if lines[0] != "" && lines[0][0] == '+' then [ReadRow(pending, widths)] + ReadRows(lines[1..], [], widths)
    else ReadRows(lines[1..], pending + [lines[0]], widths)
  }

  function ReadTable(text: string): seq<seq<seq<string>>> {
    var lines := SplitOn(text, '\n');
    if |lines| < 2 then [] else ReadRows(lines[1..|lines| - 1], [], ReadWidths(lines[0]))
  }

  // ---------------------------------------------------------------- what can be read back

  function TidyCells(row: Row): seq<seq<string>> {
    seq(COLUMNS, j requires 0 <= j < COLUMNS => Tidy(SplitLines(row[j])))
  }

  function TidyRows(rows: seq<Row>): seq<seq<seq<string>>> {
    if rows == [] then [] else [TidyCells(rows[0])] + TidyRows(rows[1..])
  }

  /** No line ends in a space and the last line is not blank. */
  predicate IsTidy(lines: seq<string>) {
    && (forall i :: 0 <= i < |lines| ==> lines[i] == "" || lines[i][|lines[i]| - 1] != ' ')
    && (lines == [] || lines[|lines| - 1] != "")
  }

  lemma {:induction false} StripRightIsPrefix(s: string)
    ensures |StripRight(s)| <= |s|
    ensures StripRight(s) == s <==> s == "" || s[|s| - 1] != ' '
  {
    if s != "" && s[|s| - 1] == ' ' { StripRightIsPrefix(s[..|s| - 1]); }
  }

  lemma {:induction false} DropBlankTailIsPrefix(lines: seq<string>)
    ensures |DropBlankTail(lines)| <= |lines| && DropBlankTail(lines) == lines[..|DropBlankTail(lines)|]
    ensures DropBlankTail(lines) == lines <==> lines == [] || lines[|lines| - 1] != ""
  {
    if lines != [] && lines[|lines| - 1] == "" { DropBlankTailIsPrefix(lines[..|lines| - 1]); }
  }

  lemma TidyIffUnchanged(lines: seq<string>)
    ensures Tidy(lines) == lines <==> IsTidy(lines)
  {
    forall i | 0 <= i < |lines| { StripRightIsPrefix(lines[i]); }
    DropBlankTailIsPrefix(StripEach(lines));
    if Tidy(lines) == lines {
      assert StripEach(lines) == lines;
    }
    if IsTidy(lines) {
      assert StripEach(lines) == lines;
    }
  }

  // ---------------------------------------------------------------- reading one line

  lemma {:induction false} StripRightOfPadded(s: string, n: nat)
    ensures StripRight(s + Padding(n, ' ')) == StripRight(s)
    decreases n
  {
    var t := s + Padding(n, ' ');
    if n == 0 {
      assert t == s;
    } else {
      StripRightOfPadded(s, n - 1);
      assert t[..|t| - 1] == s + Padding(n - 1, ' ');
      assert t[|t| - 1] == ' ';
    }
  }

  lemma {:induction false} CutUndoesRowLine(cells: seq<seq<string>>, columns: seq<nat>, i: nat)
    requires |cells| == |columns|
    requires forall j :: 0 <= j < |cells| && i < |cells[j]| ==> |cells[j][i]| <= columns[j]
    ensures |RowLine(cells, columns, i)| == |columns| + 1 + Total(columns)
    ensures forall j :: 0 <= j < |columns| ==>
              CutCells(RowLine(cells, columns, i), columns)[j] == PaddedLine(cells[j], i, columns[j])
  {
    if columns != [] {
      CutUndoesRowLine(cells[1..], columns[1..], i);
      var line, first := RowLine(cells, columns, i), PaddedLine(cells[0], i, columns[0]);
      var rest := RowLine(cells[1..], columns[1..], i);
      assert line == "|" + first + rest && |first| == columns[0];
      assert line[1..1 + columns[0]] == first && line[1 + columns[0]..] == rest;
    }
  }

  function Total(columns: seq<nat>): nat {
    if columns == [] then 0 else columns[0] + Total(columns[1..])
  }

  lemma {:induction false} SplitOfDashRuns(columns: seq<nat>)
    ensures |SplitOn(DashRuns(columns), '+')| == |columns| + 1
    ensures forall j :: 0 <= j < |columns| ==> |SplitOn(DashRuns(columns), '+')[j]| == columns[j]
    ensures |DashRuns(columns)| == |columns| + Total(columns)
    ensures '\n' !in DashRuns(columns)
  {
    if columns != [] {
      SplitOfDashRuns(columns[1..]);
      SplitOfFieldThen(Padding(columns[0], '-'), DashRuns(columns[1..]), '+');
      assert DashRuns(columns) == Padding(columns[0], '-') + ['+'] + DashRuns(columns[1..]);
    }
  }

  lemma ReadWidthsOfBreaker(columns: seq<nat>)
    ensures ReadWidths(Breaker(columns)) == columns
  {
    SplitOfDashRuns(columns);
    SplitOfFieldThen("", DashRuns(columns), '+');
    assert Breaker(columns) == "" + ['+'] + DashRuns(columns);
    var fields := SplitOn(Breaker(columns), '+');
    assert fields == [""] + SplitOn(DashRuns(columns), '+');
  }

  // ---------------------------------------------------------------- reading one row

  /** The padded column of a cell tidies to what the cell itself tidies to. */
  lemma {:induction false} TidyOfPadded(lines: seq<string>, width: nat, n: nat, column: seq<string>)
    requires |lines| <= n == |column|
    requires forall i :: 0 <= i < n ==> column[i] == PaddedLine(lines, i, width)
    ensures Tidy(column) == Tidy(lines)
    decreases n
  {
    if n == |lines| {
      forall i | 0 <= i < n ensures StripRight(column[i]) == StripRight(lines[i]) {
        var pad := width - |lines[i]|;
        StripRightOfPadded(lines[i], if pad < 0 then 0 else pad);
      }
      assert StripEach(column) == StripEach(lines);
    } else {
      TidyOfPadded(lines, width, n - 1, column[..n - 1]);
      StripRightOfPadded("", width);
      assert column[n - 1] == "" + Padding(width, ' ');
      assert StripEach(column)[..n - 1] == StripEach(column[..n - 1]);
    }
  }

  lemma ReadRowUndoesRowLines(row: Row, columns: Widths)
    requires RowFits(row, columns)
    ensures ReadRow(RowLines(CellLines(row), columns, Height(CellLines(row), COLUMNS)), columns) == TidyCells(row)
  {
    var cells := CellLines(row);
    var n := Height(cells, COLUMNS);
    var lines := RowLines(cells, columns, n);
    forall i | 0 <= i < n
      ensures forall j :: 0 <= j < COLUMNS ==> CutCells(lines[i], columns)[j] == PaddedLine(cells[j], i, columns[j])
    {
      assert forall j :: 0 <= j < COLUMNS ==> CellFits(row[j], columns[j]);
      CutUndoesRowLine(cells, columns, i);
    }
    forall j | 0 <= j < COLUMNS ensures Tidy(ColumnOf(lines, columns, j)) == Tidy(cells[j]) {
      TidyOfPadded(cells[j], columns[j], n, ColumnOf(lines, columns, j));
    }
  }

  // ---------------------------------------------------------------- reading the table

  lemma {:induction false} ReadRowsPending(lines: seq<string>, pending: seq<string>, rest: seq<string>,
                                           widths: seq<nat>)
    requires forall i :: 0 <= i < |lines| ==> lines[i] != "" && lines[i][0] == '|'
    ensures ReadRows(lines + rest, pending, widths) == ReadRows(rest, pending + lines, widths)
  {
    if lines == [] {
      assert lines + rest == rest && pending + lines == pending;
    } else {
      ReadRowsPending(lines[1..], pending + [lines[0]], rest, widths);
      assert (lines + rest)[1..] == lines[1..] + rest;
      assert pending + [lines[0]] + lines[1..] == pending + lines;
    }
  }

  lemma ReadRowsStep(lines: seq<string>, columns: seq<nat>, rest: seq<string>, widths: seq<nat>)
    requires forall i :: 0 <= i < |lines| ==> lines[i] != "" && lines[i][0] == '|'
    ensures ReadRows((lines + [Breaker(columns)]) + rest, [], widths)
            == [ReadRow(lines, widths)] + ReadRows(rest, [], widths)
  {
    hide ReadRow, DashRuns;
    ReadRowsPending(lines, [], [Breaker(columns)] + rest, widths);
    assert (lines + [Breaker(columns)]) + rest == lines + ([Breaker(columns)] + rest);
    assert [] + lines == lines;
    assert ([Breaker(columns)] + rest)[1..] == rest;
  }

  lemma {:induction false} ReadRowsUndoesRowBlocks(rows: seq<Row>, columns: Widths)
    requires Fits(rows, columns)
    ensures ReadRows(RowBlocks(rows, columns), [], columns) == TidyRows(rows)
  {
    if rows != [] {
      hide ReadRow, ReadRows, Breaker, TidyCells, RowFits, Height, CellLines, PaddedLine;
      assert RowFits(rows[0], columns);
      ReadRowsUndoesRowBlocks(rows[1..], columns);
      ReadRowUndoesRowLines(rows[0], columns);
      var lines := RowLines(CellLines(rows[0]), columns, Height(CellLines(rows[0]), COLUMNS));
      ReadRowsStep(lines, columns, RowBlocks(rows[1..], columns), columns);
    }
  }

  lemma {:induction false} SplitUndoesUnlines(lines: seq<string>)
    requires NoneContains(lines, '\n')
    ensures SplitOn(Unlines(lines), '\n') == lines + [""]
  {
    if lines != [] {
      SplitUndoesUnlines(lines[1..]);
      SplitOfFieldThen(lines[0], Unlines(lines[1..]), '\n');
    }
  }

  lemma {:induction false} RowLineHasNoNewline(cells: seq<seq<string>>, columns: seq<nat>, i: nat)
    requires |cells| == |columns|
    requires forall j :: 0 <= j < |cells| ==> NoneContains(cells[j], '\n')
    ensures '\n' !in RowLine(cells, columns, i)
  {
    if columns != [] {
      RowLineHasNoNewline(cells[1..], columns[1..], i);
      assert '\n' !in PaddedLine(cells[0], i, columns[0]);
    }
  }

  lemma {:induction false} RowBlocksHaveNoNewline(rows: seq<Row>, columns: Widths)
    ensures NoneContains(RowBlocks(rows, columns), '\n')
  {
    if rows != [] {
      RowBlocksHaveNoNewline(rows[1..], columns);
      var cells := CellLines(rows[0]);
      forall j | 0 <= j < COLUMNS { SplitLinesAreLines(rows[0][j]); }
      forall i: nat { RowLineHasNoNewline(cells, columns, i); }
      SplitOfDashRuns(columns);
      assert NoneContains(RowBlock(rows[0], columns), '\n');
    }
  }

  lemma ReadUndoesTableLines(rows: seq<Row>, columns: Widths)
    requires Fits(rows, columns)
    ensures ReadTable(Unlines(TableLines(rows, columns))) == TidyRows(rows)
  {
    var lines := TableLines(rows, columns);
    RowBlocksHaveNoNewline(rows, columns);
    SplitOfDashRuns(columns);
    SplitUndoesUnlines(lines);
    ReadWidthsOfBreaker(columns);
    ReadRowsUndoesRowBlocks(rows, columns);
    assert (lines + [""])[1..|lines|] == RowBlocks(rows, columns);
  }

  /** Whatever characters the cells hold, reading a printed table gives every cell's lines without trailing spaces
      and trailing blank lines. */
  lemma ReadUndoesPrint(rows: seq<Row>)
    ensures var text := Unlines(TableLines(rows, ColumnWidths(rows, |rows|)));
            ReadTable(text) == TidyRows(rows)
  {
    ColumnWidthsFit(rows);
    ReadUndoesTableLines(rows, ColumnWidths(rows, |rows|));
  }

  function RowsLines(rows: seq<Row>): seq<seq<seq<string>>> {
    if rows == [] then [] else [CellLines(rows[0])] + RowsLines(rows[1..])
  }

  predicate IsTidyRow(row: Row) {
    forall j :: 0 <= j < COLUMNS ==> IsTidy(SplitLines(row[j]))
  }

  lemma TidyCellsIffTidy(row: Row)
    ensures TidyCells(row) == CellLines(row) <==> IsTidyRow(row)
  {
    forall j | 0 <= j < COLUMNS { TidyIffUnchanged(SplitLines(row[j])); }
    assert TidyCells(row) == CellLines(row) ==> forall j :: 0 <= j < COLUMNS ==> TidyCells(row)[j] == CellLines(row)[j];
  }

  lemma {:induction false} TidyRowsIffTidy(rows: seq<Row>)
    ensures TidyRows(rows) == RowsLines(rows) <==> forall r :: 0 <= r < |rows| ==> IsTidyRow(rows[r])
  {
    if rows != [] {
      TidyRowsIffTidy(rows[1..]);
      TidyCellsIffTidy(rows[0]);
      SameHeadAndTail(TidyCells(rows[0]), CellLines(rows[0]), TidyRows(rows[1..]), RowsLines(rows[1..]));
      assert (forall r :: 0 <= r < |rows| ==> IsTidyRow(rows[r]))
          <==> IsTidyRow(rows[0]) && forall r :: 0 <= r < |rows[1..]| ==> IsTidyRow(rows[1..][r]) by {
        assert forall r :: 0 < r < |rows| ==> rows[r] == rows[1..][r - 1];
      }
    }
  }

  lemma SameHeadAndTail<T>(x: T, y: T, xs: seq<T>, ys: seq<T>)
    ensures [x] + xs == [y] + ys <==> x == y && xs == ys
  {
    assert ([x] + xs)[0] == x && ([x] + xs)[1..] == xs;
    assert ([y] + ys)[0] == y && ([y] + ys)[1..] == ys;
  }

  /** The table can be read back exactly if and only if no cell line ends in a space and no cell ends in a blank
      line. */
  lemma PrintedTableIsExactIffTidy(rows: seq<Row>)
    ensures ReadTable(Unlines(TableLines(rows, ColumnWidths(rows, |rows|)))) == RowsLines(rows)
            <==> forall r :: 0 <= r < |rows| ==> IsTidyRow(rows[r])
  {
    ReadUndoesPrint(rows);
    TidyRowsIffTidy(rows);
  }

  // ---------------------------------------------------------------- tables written as lines

  /** A table given as lines: each row has a list of lines for each column. */
  type LineTable = t: seq<seq<seq<string>>> | forall r :: 0 <= r < |t| ==> |t[r]| == COLUMNS

  /** Each cell's text is its lines joined by line feeds. */
  function RowOf(cells: seq<seq<string>>): (row: Row)
    requires |cells| == COLUMNS
    ensures forall j :: 0 <= j < COLUMNS ==> row[j] == Join(cells[j], '\n')
  {
    seq(COLUMNS, j requires 0 <= j < COLUMNS => Join(cells[j], '\n'))
  }

  function RowsOf(table: LineTable): (rows: seq<Row>) {
    if table == [] then [] else [RowOf(table[0])] + RowsOf(table[1..])
  }

  ghost predicate IsWritable(lines: seq<string>) {
    AreLines(lines) && IsTidy(lines)
  }

  ghost predicate IsWritableRow(cells: seq<seq<string>>)
    requires |cells| == COLUMNS
  {
    forall j :: 0 <= j < COLUMNS ==> IsWritable(cells[j])
  }

  lemma {:induction false} StripRightStays(s: string)
    ensures StripRight(s) == "" || StripRight(s)[|StripRight(s)| - 1] != ' '
    ensures forall c :: c !in s ==> c !in StripRight(s)
  {
    if s != "" && s[|s| - 1] == ' ' { StripRightStays(s[..|s| - 1]); }
  }

  lemma {:induction false} DropBlankTailStays(lines: seq<string>)
    ensures DropBlankTail(lines) == [] || DropBlankTail(lines)[|DropBlankTail(lines)| - 1] != ""
    ensures forall line :: line in DropBlankTail(lines) ==> line in lines
  {
    if lines != [] && lines[|lines| - 1] == "" { DropBlankTailStays(lines[..|lines| - 1]); }
  }

  /** What the reader gives for a cell can always be written. */
  lemma TidyIsWritable(lines: seq<string>)
    requires AreLines(lines)
    ensures IsWritable(Tidy(lines))
  {
    var stripped, tidy := StripEach(lines), Tidy(lines);
    DropBlankTailStays(stripped);
    forall i | 0 <= i < |tidy|
      ensures '\n' !in tidy[i] && '\r' !in tidy[i] && (tidy[i] == "" || tidy[i][|tidy[i]| - 1] != ' ')
    {
      assert tidy[i] in stripped;
      var k :| 0 <= k < |stripped| && stripped[k] == tidy[i];
      StripRightStays(lines[k]);
    }
  }

  /** A cell comes back as the lines it was written as exactly if they can be written. */
  lemma CellReadsBackIff(lines: seq<string>)
    ensures Tidy(SplitLines(Join(lines, '\n'))) == lines <==> IsWritable(lines)
  {
    hide SplitLines, Tidy, Join, AreLines;
    SplitLinesAreLines(Join(lines, '\n'));
    TidyIsWritable(SplitLines(Join(lines, '\n')));
    if IsWritable(lines) {
      SplitLinesUndoesJoin(lines);
      TidyIffUnchanged(lines);
    }
  }

  lemma RowReadsBackIff(cells: seq<seq<string>>)
    requires |cells| == COLUMNS
    ensures TidyCells(RowOf(cells)) == cells <==> IsWritableRow(cells)
  {
    hide SplitLines, Tidy, Join, IsWritable;
    var back := TidyCells(RowOf(cells));
    forall j | 0 <= j < COLUMNS ensures back[j] == cells[j] <==> IsWritable(cells[j]) { CellReadsBackIff(cells[j]); }
    if back == cells {
      forall j | 0 <= j < COLUMNS ensures IsWritable(cells[j]) { assert back[j] == cells[j]; }
    }
  }

  ghost predicate IsWritableTable(table: LineTable) {
    forall r :: 0 <= r < |table| ==> IsWritableRow(table[r])
  }

  lemma {:induction false} RowsReadBackIff(table: LineTable)
    ensures TidyRows(RowsOf(table)) == table <==> IsWritableTable(table)
  {
    if table != [] {
      hide IsWritableRow, TidyCells, RowOf;
      var rest := table[1..];
      RowsReadBackIff(rest);
      RowReadsBackIff(table[0]);
      assert table == [table[0]] + rest;
      assert RowsOf(table)[1..] == RowsOf(rest);
      SameHeadAndTail(TidyCells(RowOf(table[0])), table[0], TidyRows(RowsOf(rest)), rest);
      WritableHeadAndTail(table);
    }
  }

  lemma WritableHeadAndTail(table: LineTable)
    requires table != []
    ensures IsWritableTable(table) <==> IsWritableRow(table[0]) && IsWritableTable(table[1..])
  {
    hide IsWritableRow;
    if IsWritableRow(table[0]) && IsWritableTable(table[1..]) {
      forall r | 0 <= r < |table| ensures IsWritableRow(table[r]) {
        if r > 0 { assert table[r] == table[1..][r - 1]; }
      }
    }
    if IsWritableTable(table) {
      forall r | 0 <= r < |table| - 1 ensures IsWritableRow(table[1..][r]) { assert table[1..][r] == table[r + 1]; }
    }
  }

  /** Write, print and read: a table given as lines comes back as exactly those lines if and only if no line holds a
      line terminator or ends in a space and no cell ends in a blank line. */
  lemma WrittenTableReadsBackIff(table: LineTable)
    ensures var rows := RowsOf(table);
            ReadTable(Unlines(TableLines(rows, ColumnWidths(rows, |rows|)))) == table <==> IsWritableTable(table)
  {
    ReadUndoesPrint(RowsOf(table));
    RowsReadBackIff(table);
  }

  // ---------------------------------------------------------------- the shape of the text

  lemma {:induction false} BlockLineLengths(rows: seq<Row>, columns: Widths)
    requires Fits(rows, columns)
    ensures forall k :: 0 <= k < |RowBlocks(rows, columns)| ==>
              |RowBlocks(rows, columns)[k]| == COLUMNS + 1 + Total(columns)
  {
    if rows != [] {
      BlockLineLengths(rows[1..], columns);
      assert RowFits(rows[0], columns);
      forall i: nat ensures |RowLine(CellLines(rows[0]), columns, i)| == COLUMNS + 1 + Total(columns) {
        assert forall j :: 0 <= j < COLUMNS ==> CellFits(rows[0][j], columns[j]);
        CutUndoesRowLine(CellLines(rows[0]), columns, i);
      }
      SplitOfDashRuns(columns);
    }
  }

  /** Every physical line, separator or row, is as long as the sum of the widths and four bars or plus signs. */
  lemma PrintedLinesHaveOneLength(rows: seq<Row>)
    ensures var columns := ColumnWidths(rows, |rows|);
            forall k :: 0 <= k < |TableLines(rows, columns)| ==> |TableLines(rows, columns)[k]| == 4 + Total(columns)
  {
    var columns := ColumnWidths(rows, |rows|);
    ColumnWidthsFit(rows);
    BlockLineLengths(rows, columns);
    SplitOfDashRuns(columns);
  }
}
