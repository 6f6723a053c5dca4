/** What a printed table looks like, position by position. */
module RstTableShape {
  import opened PyText
  import opened RstTable
  import opened RstTableReader

  lemma TotalStep(columns: seq<nat>, j: nat)
    requires 0 < j <= |columns|
    ensures Total(columns[..j]) == columns[0] + Total(columns[1..][..j - 1])
  {
    assert columns[..j][1..] == columns[1..][..j - 1];
  }

  /** Character `at` of the text. */
  predicate HasAt(s: string, at: nat, c: char) {
    at < |s| && s[at] == c
  }

  lemma FirstChar(first: char, text: string, rest: string)
    ensures HasAt([first] + (text + rest), 0, first)
  {
  }

  lemma InFirst(first: char, text: string, rest: string, x: nat)
    requires x < |text|
    ensures HasAt([first] + (text + rest), 1 + x, text[x])
  {
  }

  lemma AfterFirst(first: char, text: string, rest: string, at: nat, c: char)
    requires HasAt(rest, at, c)
    ensures HasAt([first] + (text + rest), 1 + |text| + at, c)
  {
  }

  lemma BreakerStep(columns: seq<nat>)
    ensures columns == [] ==> Breaker(columns) == ['+'] + ("" + "")
    ensures columns != [] ==>
              Breaker(columns) == ['+'] + (Repeat('-', columns[0]) + Breaker(columns[1..]))
  {
    if columns != [] {
      var dashes, rest := Padding(columns[0], '-'), DashRuns(columns[1..]);
      assert dashes + "+" + rest == dashes + ("+" + rest);
    }
  }

  lemma {:induction false} BreakerHasPlus(columns: seq<nat>, j: nat)
    requires j <= |columns|
    ensures HasAt(Breaker(columns), j + Total(columns[..j]), '+')
  {
    hide *;
    BreakerStep(columns);
    TotalOfNone(columns);
    if columns == [] {
      FirstChar('+', "", "");
    } else if j == 0 {
      FirstChar('+', Repeat('-', columns[0]), Breaker(columns[1..]));
    } else {
      BreakerHasPlus(columns[1..], j - 1);
      TotalStep(columns, j);
      AfterFirst('+', Repeat('-', columns[0]), Breaker(columns[1..]), j - 1 + Total(columns[1..][..j - 1]), '+');
    }
  }

  lemma TotalOfNone(columns: seq<nat>)
    ensures Total(columns[..0]) == 0
  {
  }

  lemma {:induction false} BreakerHasDashes(columns: seq<nat>, j: nat, x: nat)
    requires j < |columns| && x < columns[j]
    ensures HasAt(Breaker(columns), j + Total(columns[..j]) + 1 + x, '-')
  {
    hide *;
    BreakerStep(columns);
    TotalOfNone(columns);
    var dashes, rest := Repeat('-', columns[0]), Breaker(columns[1..]);
    if j == 0 {
      InFirst('+', dashes, rest, x);
    } else {
      BreakerHasDashes(columns[1..], j - 1, x);
      TotalStep(columns, j);
      AfterFirst('+', dashes, rest, j - 1 + Total(columns[1..][..j - 1]) + 1 + x, '-');
    }
  }

  /** Line `i` of each cell fits its column. */
  predicate LineFits(cells: seq<seq<string>>, columns: seq<nat>, i: nat)
    requires |cells| == |columns|
  {
    forall j :: 0 <= j < |cells| && i < |cells[j]| ==> |cells[j][i]| <= columns[j]
  }

  /** Character `x` of line `i` of a cell, blank where the line or the cell has ended. */
  function CellChar(lines: seq<string>, i: nat, x: nat): char {
    if i < |lines| && x < |lines[i]| then lines[i][x] else ' '
  }

  lemma PaddedLineLength(lines: seq<string>, i: nat, width: nat)
    requires i < |lines| ==> |lines[i]| <= width
    ensures |PaddedLine(lines, i, width)| == width
  {
  }

  lemma BarThen(first: string, rest: string)
    ensures "|" + first + rest == ['|'] + (first + rest)
  {
  }

  lemma RowLineOf(cells: seq<seq<string>>, columns: seq<nat>, i: nat)
    requires |cells| == |columns| && LineFits(cells, columns, i)
    ensures columns == [] ==> RowLine(cells, columns, i) == ['|'] + ("" + "")
    ensures columns != [] ==>
              && LineFits(cells[1..], columns[1..], i) && |PaddedLine(cells[0], i, columns[0])| == columns[0]
              && RowLine(cells, columns, i)
                 == ['|'] + (PaddedLine(cells[0], i, columns[0]) + RowLine(cells[1..], columns[1..], i))
  {
    hide PaddedLine, Padding;
    if columns != [] {
      assert LineFits(cells[1..], columns[1..], i) by { hide RowLine; }
      assert |PaddedLine(cells[0], i, columns[0])| == columns[0] by {
        hide RowLine;
        PaddedLineLength(cells[0], i, columns[0]);
      }
      BarThen(PaddedLine(cells[0], i, columns[0]), RowLine(cells[1..], columns[1..], i));
    }
  }

  lemma PaddedLineAt(lines: seq<string>, i: nat, width: nat, x: nat)
    requires x < width && (i < |lines| ==> |lines[i]| <= width)
    ensures HasAt(PaddedLine(lines, i, width), x, CellChar(lines, i, x))
  {
  }

  lemma {:induction false} RowLineHasBar(cells: seq<seq<string>>, columns: seq<nat>, i: nat, j: nat)
    requires |cells| == |columns| && j <= |columns| && LineFits(cells, columns, i)
    ensures HasAt(RowLine(cells, columns, i), j + Total(columns[..j]), '|')
  {
    hide *;
    RowLineOf(cells, columns, i);
    TotalOfNone(columns);
    if columns == [] {
      FirstChar('|', "", "");
    } else {
      var first, rest := PaddedLine(cells[0], i, columns[0]), RowLine(cells[1..], columns[1..], i);
      if j == 0 {
        FirstChar('|', first, rest);
      } else {
        RowLineHasBar(cells[1..], columns[1..], i, j - 1);
        TotalStep(columns, j);
        AfterFirst('|', first, rest, j - 1 + Total(columns[1..][..j - 1]), '|');
      }
    }
  }

  lemma {:induction false} RowLineHasText(cells: seq<seq<string>>, columns: seq<nat>, i: nat, j: nat, x: nat)
    requires |cells| == |columns| && j < |columns| && x < columns[j] && LineFits(cells, columns, i)
    ensures HasAt(RowLine(cells, columns, i), j + Total(columns[..j]) + 1 + x, CellChar(cells[j], i, x))
  {
    hide PaddedLine, RowLine, CellChar, Total;
    RowLineOf(cells, columns, i);
    TotalOfNone(columns);
    var first, rest := PaddedLine(cells[0], i, columns[0]), RowLine(cells[1..], columns[1..], i);
    if j == 0 {
      PaddedLineAt(cells[0], i, columns[0], x);
      InFirst('|', first, rest, x);
    } else {
      RowLineHasText(cells[1..], columns[1..], i, j - 1, x);
      hide HasAt;
      TotalStep(columns, j);
      AfterFirst('|', first, rest, j - 1 + Total(columns[1..][..j - 1]) + 1 + x, CellChar(cells[j], i, x));
    }
  }

  // ---------------------------------------------------------------- the lines of a table

  function Larger(a: nat, b: nat): nat {
    if a < b then b else a
  }

  /** How many lines the tallest of the three cells has. */
  function Tallest(row: Row): nat {
    Larger(Larger(|SplitLines(row[0])|, |SplitLines(row[1])|), |SplitLines(row[2])|)
  }

  lemma HeightIsTallest(row: Row)
    ensures Height(CellLines(row), COLUMNS) == Tallest(row)
  {
    var cells := CellLines(row);
    hide SplitLines, CellLines;
    assert Height(cells, 0) == 0;
    assert Height(cells, 1) == |cells[0]|;
    assert Height(cells, 2) == Larger(|cells[0]|, |cells[1]|);
  }

  /** The lines above row `r`: the top separator, and for each row its lines and a separator. */
  function LinesAbove(rows: seq<Row>, r: nat): nat
    requires r <= |rows|
  {
    if r == 0 then 1 else LinesAbove(rows, r - 1) + Tallest(rows[r - 1]) + 1
  }

  lemma {:induction false} LinesAboveStep(rows: seq<Row>, r: nat)
    requires 0 < r <= |rows|
    ensures LinesAbove(rows, r) == Tallest(rows[0]) + 1 + LinesAbove(rows[1..], r - 1)
  {
    hide Tallest;
    if r > 1 { LinesAboveStep(rows, r - 1); }
  }

  lemma BlockLength(row: Row, columns: Widths)
    ensures |RowBlock(row, columns)| == Tallest(row) + 1
  {
    hide Tallest, Breaker, RowLine, Height;
    HeightIsTallest(row);
  }

  lemma {:induction false} BlockLineAt(rows: seq<Row>, columns: Widths, r: nat, i: nat)
    requires r < |rows| && i <= Tallest(rows[r])
    ensures LinesAbove(rows, r) - 1 + i < |RowBlocks(rows, columns)|
    ensures RowBlocks(rows, columns)[LinesAbove(rows, r) - 1 + i]
            == if i < Tallest(rows[r]) then RowLine(CellLines(rows[r]), columns, i) else Breaker(columns)
  {
    hide Tallest, Breaker, RowLine, CellLines, Height;
    BlockLength(rows[0], columns);
    if r == 0 {
      HeightIsTallest(rows[0]);
    } else {
      LinesAboveStep(rows, r);
      BlockLineAt(rows[1..], columns, r - 1, i);
    }
  }

  lemma {:induction false} LineCount(rows: seq<Row>, columns: Widths)
    ensures |TableLines(rows, columns)| == LinesAbove(rows, |rows|)
  {
    hide Tallest, Breaker, RowBlock;
    if rows != [] {
      LinesAboveStep(rows, |rows|);
      LineCount(rows[1..], columns);
      BlockLength(rows[0], columns);
    }
  }

  lemma CellsFitLines(rows: seq<Row>, r: nat, i: nat)
    requires r < |rows|
    ensures LineFits(CellLines(rows[r]), ColumnWidths(rows, |rows|), i)
  {
    hide SplitLines;
    ColumnWidthsFit(rows);
    assert RowFits(rows[r], ColumnWidths(rows, |rows|));
    assert forall j :: 0 <= j < COLUMNS ==> CellFits(rows[r][j], ColumnWidths(rows, |rows|)[j]);
  }

  /** A printed table is a grid. The bars and plus signs of all lines stand in the same four places. Above the first row
      and below every row there is a line of dashes between plus signs; the lines between are as many as the tallest
      cell has, and show the cells' characters, blanks where a line has ended. There are no other lines. */
  lemma TableIsAGrid(rows: seq<Row>, r: nat, i: nat, j: nat, x: nat)
    requires r < |rows| && i <= Tallest(rows[r]) && j <= COLUMNS
    ensures var columns := ColumnWidths(rows, |rows|);
            var lines := TableLines(rows, columns);
            var k, at := LinesAbove(rows, r) + i, j + Total(columns[..j]);
            && |lines| == LinesAbove(rows, |rows|) && 0 < k < |lines|
            && HasAt(lines[k], at, if i < Tallest(rows[r]) then '|' else '+')
            && (j < COLUMNS && x < columns[j] ==>
                  HasAt(lines[k], at + 1 + x,
                        if i < Tallest(rows[r]) then CellChar(SplitLines(rows[r][j]), i, x) else '-'))
  {
    hide HasAt, Tallest, RowLine, Breaker, LinesAbove, ColumnWidths, CellChar, SplitLines;
    var columns := ColumnWidths(rows, |rows|);
    LineCount(rows, columns);
    BlockLineAt(rows, columns, r, i);
    LinesAreAbove(rows, r);
    CellsFitLines(rows, r, i);
    RowLineHasBar(CellLines(rows[r]), columns, i, j);
    BreakerHasPlus(columns, j);
    if j < COLUMNS && x < columns[j] {
      RowLineHasText(CellLines(rows[r]), columns, i, j, x);
      BreakerHasDashes(columns, j, x);
    }
  }

  lemma LinesAreAbove(rows: seq<Row>, r: nat)
    requires r <= |rows|
    ensures LinesAbove(rows, r) >= 1
  {
  }

  /** The top line. */
  lemma TableBeginsWithSeparator(rows: seq<Row>, j: nat, x: nat)
    requires j <= COLUMNS
    ensures var columns := ColumnWidths(rows, |rows|);
            var line, at := TableLines(rows, columns)[0], j + Total(columns[..j]);
            HasAt(line, at, '+') && (j < COLUMNS && x < columns[j] ==> HasAt(line, at + 1 + x, '-'))
  {
    var columns := ColumnWidths(rows, |rows|);
    hide HasAt, Breaker, ColumnWidths, RowBlocks;
    BreakerHasPlus(columns, j);
    if j < COLUMNS && x < columns[j] { BreakerHasDashes(columns, j, x); }
  }
}
