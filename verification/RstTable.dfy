/** The grid-table printer of the RST generator: column widths, physical lines, and the loops that print them. */
module RstTable {
  import opened Common
  import opened PyText

  const COLUMNS: nat := 3

  /** One table row: a text for each column. */
  type Row = r: seq<string> | |r| == COLUMNS witness ["", "", ""]

  type Widths = w: seq<nat> | |w| == COLUMNS witness [0, 0, 0]

  function CellLines(row: Row): (cells: seq<seq<string>>)
    ensures |cells| == COLUMNS && forall j :: 0 <= j < COLUMNS ==> cells[j] == SplitLines(row[j])
  {
    seq(COLUMNS, j requires 0 <= j < COLUMNS => SplitLines(row[j]))
  }

  // ---------------------------------------------------------------- physical lines

  function DashRuns(columns: seq<nat>): string {
    if columns == [] then "" else Padding(columns[0], '-') + "+" + DashRuns(columns[1..])
  }

  function Breaker(columns: seq<nat>): string {
    "+" + DashRuns(columns)
  }

  /** Line `i` of a cell filled up to the column width; blank below the cell's last line. */
  function PaddedLine(lines: seq<string>, i: nat, width: nat): string {
    if i < |lines| then lines[i] + Padding(width - |lines[i]|, ' ') else Padding(width, ' ')
  }

  function RowLine(cells: seq<seq<string>>, columns: seq<nat>, i: nat): string
    requires |cells| == |columns|
  {
    if columns == [] then "|"
    else "|" + PaddedLine(cells[0], i, columns[0]) + RowLine(cells[1..], columns[1..], i)
  }

  function Height(cells: seq<seq<string>>, n: nat): (h: nat)
    requires n <= |cells|
    ensures forall j :: 0 <= j < n ==> |cells[j]| <= h
  {
    if n == 0 then 0
    else
      var h := Height(cells, n - 1);
      if h < |cells[n - 1]| then |cells[n - 1]| else h
  }

  function RowLines(cells: seq<seq<string>>, columns: seq<nat>, n: nat): (ls: seq<string>)
    requires |cells| == |columns|
    ensures |ls| == n && forall i :: 0 <= i < n ==> ls[i] == RowLine(cells, columns, i)
  {
    seq(n, i requires 0 <= i < n => RowLine(cells, columns, i))
  }

  /** The lines of one printed row and the separator under it. */
  function RowBlock(row: Row, columns: Widths): seq<string> {
    RowLines(CellLines(row), columns, Height(CellLines(row), COLUMNS)) + [Breaker(columns)]
  }

  function RowBlocks(rows: seq<Row>, columns: Widths): seq<string> {
    if rows == [] then [] else RowBlock(rows[0], columns) + RowBlocks(rows[1..], columns)
  }

  function TableLines(rows: seq<Row>, columns: Widths): seq<string> {
    [Breaker(columns)] + RowBlocks(rows, columns)
  }

  function Unlines(lines: seq<string>): string {
    if lines == [] then "" else lines[0] + "\n" + Unlines(lines[1..])
  }

  // ---------------------------------------------------------------- column widths

  function Widest(width: nat, lines: seq<string>, n: nat): nat
    requires n <= |lines|
  {
    if n == 0 then width
    else
      var w := Widest(width, lines, n - 1);
      if w < |lines[n - 1]| + 2 then |lines[n - 1]| + 2 else w
  }

  function ColumnWidth(rows: seq<Row>, n: nat, i: nat): nat
    requires n <= |rows| && i < COLUMNS
  {
    if n == 0 then 0
    else
      var lines := SplitLines(rows[n - 1][i]);
      Widest(ColumnWidth(rows, n - 1, i), lines, |lines|)
  }

  function ColumnWidths(rows: seq<Row>, n: nat): (columns: Widths)
    requires n <= |rows|
    ensures forall i :: 0 <= i < COLUMNS ==> columns[i] == ColumnWidth(rows, n, i)
  {
    seq(COLUMNS, i requires 0 <= i < COLUMNS => ColumnWidth(rows, n, i))
  }

  predicate CellFits(text: string, width: nat) {
    forall k :: 0 <= k < |SplitLines(text)| ==> |SplitLines(text)[k]| + 2 <= width
  }

  predicate RowFits(row: Row, columns: Widths) {
    forall i :: 0 <= i < COLUMNS ==> CellFits(row[i], columns[i])
  }

  ghost predicate Fits(rows: seq<Row>, columns: Widths) {
    forall r :: 0 <= r < |rows| ==> RowFits(rows[r], columns)
  }

  lemma {:induction false} WidestBounds(width: nat, lines: seq<string>, n: nat)
    requires n <= |lines|
    ensures width <= Widest(width, lines, n)
    ensures forall k :: 0 <= k < n ==> |lines[k]| + 2 <= Widest(width, lines, n)
    ensures Widest(width, lines, n) == width || exists k :: 0 <= k < n && |lines[k]| + 2 == Widest(width, lines, n)
  {
    if n > 0 { WidestBounds(width, lines, n - 1); }
  }

  lemma {:induction false} ColumnWidthBounds(rows: seq<Row>, n: nat, i: nat)
    requires n <= |rows| && i < COLUMNS
    ensures forall r :: 0 <= r < n ==> CellFits(rows[r][i], ColumnWidth(rows, n, i))
  {
    if n > 0 {
      ColumnWidthBounds(rows, n - 1, i);
      var lines := SplitLines(rows[n - 1][i]);
      WidestBounds(ColumnWidth(rows, n - 1, i), lines, |lines|);
      forall r | 0 <= r < n ensures CellFits(rows[r][i], ColumnWidth(rows, n, i)) {
        if r < n - 1 { assert CellFits(rows[r][i], ColumnWidth(rows, n - 1, i)); }
      }
    }
  }

  lemma {:induction false} LeastFit(rows: seq<Row>, n: nat, i: nat, width: nat)
    requires n <= |rows| && i < COLUMNS
    ensures (forall r :: 0 <= r < n ==> CellFits(rows[r][i], width)) <==> ColumnWidth(rows, n, i) <= width
  {
    ColumnWidthBounds(rows, n, i);
    if n > 0 && forall r :: 0 <= r < n ==> CellFits(rows[r][i], width) {
      LeastFit(rows, n - 1, i, width);
      var lines := SplitLines(rows[n - 1][i]);
      WidestBounds(ColumnWidth(rows, n - 1, i), lines, |lines|);
      assert CellFits(rows[n - 1][i], width);
    }
  }

  /** The printed widths hold every line with two columns to spare, and no smaller width does. */
  lemma ColumnWidthIsLeast(rows: seq<Row>, n: nat, i: nat, width: nat)
    requires n <= |rows| && i < COLUMNS
    ensures (forall r, k :: 0 <= r < n && 0 <= k < |CellLines(rows[r])[i]| ==> |CellLines(rows[r])[i][k]| + 2 <= width)
            <==> ColumnWidth(rows, n, i) <= width
  {
    hide ColumnWidth;
    LeastFit(rows, n, i, width);
    forall r | 0 <= r < n
      ensures CellFits(rows[r][i], width)
              <==> forall k :: 0 <= k < |CellLines(rows[r])[i]| ==> |CellLines(rows[r])[i][k]| + 2 <= width
    {
      assert CellLines(rows[r])[i] == SplitLines(rows[r][i]);
    }
  }

  lemma ColumnWidthsFit(rows: seq<Row>)
    ensures Fits(rows, ColumnWidths(rows, |rows|))
  {
    forall i | 0 <= i < COLUMNS { ColumnWidthBounds(rows, |rows|, i); }
  }

  // ---------------------------------------------------------------- the printing loops

  method BuildRowBreaker(columns: seq<nat>) returns (s: string)
    ensures s == Breaker(columns) + "\n"
  {
    s := "+";
    for j := 0 to |columns|
      invariant s + DashRuns(columns[j..]) == Breaker(columns)
    {
      s := s + (Padding(columns[j], '-') + "+");
    }
    s := s + "\n";
  }

  lemma RowLineStep(cells: seq<seq<string>>, columns: Widths, i: nat, j: nat, done: string)
    requires |cells| == COLUMNS && j < COLUMNS
    ensures done + RowLine(cells[j..], columns[j..], i)
            == done + ("|" + PaddedLine(cells[j], i, columns[j])) + RowLine(cells[j + 1..], columns[j + 1..], i)
  {
    assert cells[j..][1..] == cells[j + 1..] && columns[j..][1..] == columns[j + 1..];
  }

  method BuildRowLine(cells: seq<seq<string>>, columns: Widths, i: nat) returns (s: string)
    requires |cells| == COLUMNS
    ensures s == RowLine(cells, columns, i) + "\n"
  {
    s := "";
    for j := 0 to COLUMNS
      invariant s + RowLine(cells[j..], columns[j..], i) == RowLine(cells, columns, i)
    {
      RowLineStep(cells, columns, i, j, s);
      var text := "|";
      if |cells[j]| > i {
        text := text + (cells[j][i] + Padding(columns[j] - |cells[j][i]|, ' '));
      } else {
        text := text + Padding(columns[j], ' ');
      }
      s := s + text;
    }
    s := s + ("|" + "\n");
  }

  lemma UnlinesCons(lines: seq<string>)
    requires lines != []
    ensures Unlines(lines) == (lines[0] + "\n") + Unlines(lines[1..])
  {
  }

  lemma {:induction false} UnlinesAppend(a: seq<string>, b: seq<string>)
    ensures Unlines(a + b) == Unlines(a) + Unlines(b)
  {
    if a == [] {
      assert a + b == b;
    } else {
      hide Unlines;
      UnlinesAppend(a[1..], b);
      assert (a + b)[1..] == a[1..] + b;
      UnlinesCons(a);
      UnlinesCons(a + b);
      ConcatAssoc(a[0] + "\n", Unlines(a[1..]), Unlines(b));
    }
  }

  lemma UnlinesOne(line: string)
    ensures Unlines([line]) == line + "\n"
  {
  }

  lemma RowLinesStep(cells: seq<seq<string>>, columns: seq<nat>, i: nat)
    requires |cells| == |columns|
    ensures Unlines(RowLines(cells, columns, i + 1))
            == Unlines(RowLines(cells, columns, i)) + (RowLine(cells, columns, i) + "\n")
  {
    hide Unlines, RowLine;
    assert RowLines(cells, columns, i + 1) == RowLines(cells, columns, i) + [RowLine(cells, columns, i)];
    UnlinesAppend(RowLines(cells, columns, i), [RowLine(cells, columns, i)]);
    UnlinesOne(RowLine(cells, columns, i));
  }

  /** The text of one row's lines. */
  function RowText(row: Row, columns: Widths): string {
    Unlines(RowLines(CellLines(row), columns, Height(CellLines(row), COLUMNS)))
  }

  method BuildRow(row: Row, columns: Widths) returns (s: string)
    ensures s == RowText(row, columns)
  {
    hide Unlines, RowLine, RowLines, SplitLines;
    ghost var all := CellLines(row);
    var rowLines: seq<seq<string>> := [];
    var maxLine := 0;
    for i := 0 to COLUMNS
      invariant rowLines == all[..i] && maxLine == Height(all, i)
    {
      rowLines := rowLines + [SplitLines(row[i])];
      if maxLine < |rowLines[i]| { maxLine := |rowLines[i]|; }
    }
    assert rowLines == all;
    NoLines(all, columns);
    s := "";
    for i := 0 to maxLine
      invariant s == Unlines(RowLines(all, columns, i))
    {
      var line := BuildRowLine(rowLines, columns, i);
      RowLinesStep(all, columns, i);
      s := s + line;
    }
  }

  lemma NoLines(cells: seq<seq<string>>, columns: seq<nat>)
    requires |cells| == |columns|
    ensures Unlines(RowLines(cells, columns, 0)) == ""
  {
  }

  /** The first pass over the rows: how wide the columns are. */
  method MeasureColumns(rows: seq<Row>) returns (columns: Widths)
    ensures columns == ColumnWidths(rows, |rows|)
  {
    hide SplitLines;
    columns := [0, 0, 0];
    for r := 0 to |rows|
      invariant columns == ColumnWidths(rows, r)
    {
      for i := 0 to COLUMNS
        invariant forall k :: 0 <= k < COLUMNS ==> columns[k] == ColumnWidth(rows, if k < i then r + 1 else r, k)
      {
        var lines := SplitLines(rows[r][i]);
        for k := 0 to |lines|
          invariant columns[i] == Widest(ColumnWidth(rows, r, i), lines, k)
          invariant forall m :: 0 <= m < COLUMNS && m != i ==>
                      columns[m] == ColumnWidth(rows, if m < i then r + 1 else r, m)
        {
          if columns[i] < |lines[k]| + 2 { columns := columns[i := |lines[k]| + 2]; }
        }
      }
    }
  }

  method BuildTable(rows: seq<Row>) returns (s: string)
    ensures s == Unlines(TableLines(rows, ColumnWidths(rows, |rows|)))
  {
    hide Unlines, TableLines, RowText, Breaker, ColumnWidths;
    var columns := MeasureColumns(rows);
    s := BuildRowBreaker(columns);
    TableBegins(rows, columns);
    for r := 0 to |rows|
      invariant s == Unlines(TableLines(rows[..r], columns))
    {
      var text := BuildRow(rows[r], columns);
      var breaker := BuildRowBreaker(columns);
      TableGrows(rows, r, columns);
      s := s + text;
      s := s + breaker;
    }
    assert rows[..|rows|] == rows;
  }

  lemma TableBegins(rows: seq<Row>, columns: Widths)
    ensures Unlines(TableLines(rows[..0], columns)) == Breaker(columns) + "\n"
  {
    assert TableLines(rows[..0], columns) == [Breaker(columns)];
    UnlinesOne(Breaker(columns));
  }

  lemma {:induction false} RowBlocksAppend(rows: seq<Row>, row: Row, columns: Widths)
    ensures RowBlocks(rows + [row], columns) == RowBlocks(rows, columns) + RowBlock(row, columns)
  {
    hide RowBlock;
    if rows == [] {
      assert (rows + [row])[1..] == [] && (rows + [row])[0] == row;
      assert RowBlocks([], columns) == [];
    } else {
      RowBlocksAppend(rows[1..], row, columns);
      assert (rows + [row])[1..] == rows[1..] + [row];
      ConcatAssoc(RowBlock(rows[0], columns), RowBlocks(rows[1..], columns), RowBlock(row, columns));
    }
  }

  lemma TableGrows(rows: seq<Row>, r: nat, columns: Widths)
    requires r < |rows|
    ensures Unlines(TableLines(rows[..r + 1], columns))
            == Unlines(TableLines(rows[..r], columns)) + RowText(rows[r], columns) + (Breaker(columns) + "\n")
  {
    hide Unlines, Breaker, RowLines, Height, CellLines;
    TableLinesGrow(rows, r, columns);
    var lines := RowLines(CellLines(rows[r]), columns, Height(CellLines(rows[r]), COLUMNS));
    UnlinesAppend(TableLines(rows[..r], columns), lines + [Breaker(columns)]);
    UnlinesAppend(lines, [Breaker(columns)]);
    UnlinesOne(Breaker(columns));
    ConcatAssoc(Unlines(TableLines(rows[..r], columns)), Unlines(lines), Breaker(columns) + "\n");
  }

  lemma TableLinesGrow(rows: seq<Row>, r: nat, columns: Widths)
    requires r < |rows|
    ensures TableLines(rows[..r + 1], columns) == TableLines(rows[..r], columns) + RowBlock(rows[r], columns)
  {
    hide RowBlock, Breaker, RowBlocks;
    assert rows[..r + 1] == rows[..r] + [rows[r]];
    RowBlocksAppend(rows[..r], rows[r], columns);
    ConcatAssoc([Breaker(columns)], RowBlocks(rows[..r], columns), RowBlock(rows[r], columns));
  }
}
