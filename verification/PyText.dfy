/** The Python string operations that the RST generator relies on. Text is a Python 2 byte string. */
module PyText {

  /** `text.split(sep)` for a one-character separator. */
  function SplitOn(s: string, sep: char): (fields: seq<string>)
    ensures |fields| >= 1
  {
    if s == "" then [""]
    else
      var rest := SplitOn(s[1..], sep);
      if s[0] == sep then [""] + rest else [[s[0]] + rest[0]] + rest[1..]
  }

  /** `sep.join(fields)` */
  function Join(fields: seq<string>, sep: char): string {
    if fields == [] then ""
    else if |fields| == 1 then fields[0]
    else fields[0] + [sep] + Join(fields[1..], sep)
  }

  ghost predicate NoneContains(fields: seq<string>, sep: char) {
    forall i :: 0 <= i < |fields| ==> sep !in fields[i]
  }

  lemma {:induction false} FieldsLackSeparator(s: string, sep: char)
    ensures NoneContains(SplitOn(s, sep), sep)
  {
    if s != "" { FieldsLackSeparator(s[1..], sep); }
  }

  lemma JoinExtendsFirst(c: char, fields: seq<string>, sep: char)
    requires fields != []
    ensures Join([[c] + fields[0]] + fields[1..], sep) == [c] + Join(fields, sep)
    ensures Join([""] + fields, sep) == [sep] + Join(fields, sep)
  {
    assert ([[c] + fields[0]] + fields[1..])[1..] == fields[1..];
    assert ([""] + fields)[1..] == fields;
  }

  lemma {:induction false} JoinUndoesSplit(s: string, sep: char)
    ensures Join(SplitOn(s, sep), sep) == s
  {
    if s != "" {
      JoinUndoesSplit(s[1..], sep);
      JoinExtendsFirst(s[0], SplitOn(s[1..], sep), sep);
      assert s == [s[0]] + s[1..];
    }
  }

  lemma {:induction false} SplitOfFieldThen(a: string, b: string, sep: char)
    requires sep !in a
    ensures SplitOn(a + [sep] + b, sep) == [a] + SplitOn(b, sep)
  {
    var s := a + [sep] + b;
    if a == "" {
      assert s[1..] == b;
    } else {
      SplitOfFieldThen(a[1..], b, sep);
      assert s[1..] == a[1..] + [sep] + b;
      assert [a[0]] + a[1..] == a;
    }
  }

  lemma {:induction false} SplitOfOneField(a: string, sep: char)
    requires sep !in a
    ensures SplitOn(a, sep) == [a]
  {
    if a != "" {
      SplitOfOneField(a[1..], sep);
      assert [a[0]] + a[1..] == a;
    }
  }

  lemma {:induction false} SplitUndoesJoin(fields: seq<string>, sep: char)
    requires fields != [] && NoneContains(fields, sep)
    ensures SplitOn(Join(fields, sep), sep) == fields
  {
    if |fields| == 1 {
      SplitOfOneField(fields[0], sep);
    } else {
      SplitUndoesJoin(fields[1..], sep);
      SplitOfFieldThen(fields[0], Join(fields[1..], sep), sep);
    }
  }

  lemma {:induction false} JoinLast(fields: seq<string>, sep: char)
    requires |fields| >= 2
    ensures Join(fields, sep) == Join(fields[..|fields| - 1], sep) + [sep] + fields[|fields| - 1]
  {
    var n := |fields| - 1;
    if n > 1 {
      JoinLast(fields[1..], sep);
      assert fields[1..][..n - 1] == fields[..n][1..];
    }
  }

  /** The whitespace of `str.isspace` for byte strings. */
  predicate IsSpace(c: char) {
    c in " \t\n\r" || c as int == 11 || c as int == 12
  }

  function LowerChar(c: char): char {
    if 'A' <= c <= 'Z' then (c as int + 32) as char else c
  }

  /** `text.lower()` */
  function Lower(s: string): (r: string)
    ensures |r| == |s| && forall i :: 0 <= i < |s| ==> r[i] == LowerChar(s[i])
  {
    seq(|s|, i requires 0 <= i < |s| => LowerChar(s[i]))
  }

  function Repeat(c: char, n: nat): (r: string)
    ensures |r| == n && forall i :: 0 <= i < n ==> r[i] == c
  {
    seq(n, _ => c)
  }

  /** `"".ljust(n, c)`; an amount that is not positive gives the empty string. */
  function Padding(n: int, c: char): string {
    Repeat(c, if n < 0 then 0 else n)
  }

  lemma PaddingFills(n: int, c: char)
    ensures n <= 0 ==> Padding(n, c) == ""
    ensures n > 0 ==> |Padding(n, c)| == n
    ensures forall i :: 0 <= i < |Padding(n, c)| ==> Padding(n, c)[i] == c
  {
  }

  /** How many characters of `s` come before the first line terminator. */
  function LineLength(s: string): (n: nat)
    ensures n <= |s|
    ensures forall i :: 0 <= i < n ==> s[i] != '\n' && s[i] != '\r'
    ensures n < |s| ==> s[n] == '\n' || s[n] == '\r'
  {
    if s == "" || s[0] == '\n' || s[0] == '\r' then 0 else 1 + LineLength(s[1..])
  }

  /** Where the line after the one that ends at `n` begins. */
  function NextLine(s: string, n: nat): (next: nat)
    requires n < |s|
    ensures n < next <= |s|
  {
    if s[n] == '\r' && n + 1 < |s| && s[n + 1] == '\n' then n + 2 else n + 1
  }

  /** `text.splitlines()`: LF, CR and CR LF end a line; a terminator at the very end starts no further line. */
  function SplitLines(s: string): seq<string>
    decreases |s|
  {
    if s == "" then []
    else
      var n := LineLength(s);
      if n == |s| then [s] else [s[..n]] + SplitLines(s[NextLine(s, n)..])
  }

  /** No line holds a line terminator. */
  ghost predicate AreLines(lines: seq<string>) {
    NoneContains(lines, '\n') && NoneContains(lines, '\r')
  }

  lemma AreLinesCons(line: string, lines: seq<string>)
    requires '\n' !in line && '\r' !in line && AreLines(lines)
    ensures AreLines([line] + lines)
  {
  }

  lemma {:induction false} SplitLinesAreLines(s: string)
    ensures AreLines(SplitLines(s))
    decreases |s|
  {
    if s != "" {
      hide AreLines;
      var n := LineLength(s);
      NothingAreLines();
      if n == |s| {
        AreLinesCons(s, []);
        assert [s] + [] == [s];
      } else {
        SplitLinesAreLines(s[NextLine(s, n)..]);
        AreLinesCons(s[..n], SplitLines(s[NextLine(s, n)..]));
      }
    }
  }

  lemma NothingAreLines()
    ensures AreLines([])
  {
  }

  lemma {:induction false} LineLengthOf(a: string, rest: string)
    requires '\n' !in a && '\r' !in a
    ensures LineLength(a + ("\n" + rest)) == |a| && LineLength(a) == |a|
  {
    if a != "" {
      LineLengthOf(a[1..], rest);
      assert (a + ("\n" + rest))[1..] == a[1..] + ("\n" + rest);
      assert a[0] in a;
    }
  }

  lemma SplitLinesStep(a: string, rest: string)
    requires '\n' !in a && '\r' !in a
    ensures SplitLines(a + ("\n" + rest)) == [a] + SplitLines(rest)
  {
    var s := a + ("\n" + rest);
    assert s[..|a|] == a && s[|a|] == '\n' && s[|a| + 1..] == rest;
    hide LineLength;
    LineLengthOf(a, rest);
  }

  lemma OneLine(a: string)
    requires '\n' !in a && '\r' !in a && a != ""
    ensures SplitLines(a) == [a]
  {
    LineLengthOf(a, "");
  }

  lemma JoinedLines(lines: seq<string>)
    ensures lines == [] ==> SplitLines(Join(lines, '\n')) == []
    ensures |lines| == 1 ==> Join(lines, '\n') == lines[0]
    ensures |lines| > 1 ==> Join(lines, '\n') == lines[0] + ("\n" + Join(lines[1..], '\n'))
  {
    if |lines| > 1 {
      var a, rest := lines[0], Join(lines[1..], '\n');
      assert a + ['\n'] + rest == a + ("\n" + rest);
    }
  }

  lemma LinesHeadAndTail(lines: seq<string>)
    requires AreLines(lines) && lines != []
    ensures '\n' !in lines[0] && '\r' !in lines[0] && AreLines(lines[1..]) && lines == [lines[0]] + lines[1..]
  {
  }

  /** Splitting at line ends undoes joining with line feeds, unless the last line is empty. */
  lemma {:induction false} SplitLinesUndoesJoin(lines: seq<string>)
    requires AreLines(lines) && (lines == [] || lines[|lines| - 1] != "")
    ensures SplitLines(Join(lines, '\n')) == lines
  {
    hide *;
    JoinedLines(lines);
    if lines != [] {
      LinesHeadAndTail(lines);
      if |lines| == 1 {
        OneLine(lines[0]);
      } else {
        SplitLinesUndoesJoin(lines[1..]);
        SplitLinesStep(lines[0], Join(lines[1..], '\n'));
      }
    }
  }

  // ---------------------------------------------------------------- the character tables and line ends, spelled out

  lemma LowerIsByTable(k: nat)
    requires k < 26
    ensures Lower(["ABCDEFGHIJKLMNOPQRSTUVWXYZ"[k]]) == ["abcdefghijklmnopqrstuvwxyz"[k]]
  {
    assert "ABCDEFGHIJKLMNOPQRSTUVWXYZ"[k] as int == 65 + k && "abcdefghijklmnopqrstuvwxyz"[k] as int == 97 + k;
  }

  lemma LowerKeepsOthers(c: char)
    ensures c !in "ABCDEFGHIJKLMNOPQRSTUVWXYZ" ==> Lower([c]) == [c]
  {
    if 'A' <= c <= 'Z' {
      var k := c as int - 65;
      assert "ABCDEFGHIJKLMNOPQRSTUVWXYZ"[k] as int == 65 + k;
      assert "ABCDEFGHIJKLMNOPQRSTUVWXYZ"[k] == c;
    }
  }

  /** Tab, LF, vertical tab, form feed, CR and space. */
  lemma SpacesAre(c: char)
    ensures IsSpace(c) <==> c as int == 9 || c as int == 10 || c as int == 11 || c as int == 12 || c as int == 13
                            || c as int == 32
  {
  }

  /** All that there is to know about where lines end. */
  lemma LineEnds(a: string, rest: string)
    requires '\n' !in a && '\r' !in a
    ensures SplitLines("") == [] && (a != "" ==> SplitLines(a) == [a])
    ensures SplitLines(a + ("\n" + rest)) == [a] + SplitLines(rest)
    ensures SplitLines(a + ("\r\n" + rest)) == [a] + SplitLines(rest)
    ensures rest == "" || rest[0] != '\n' ==> SplitLines(a + ("\r" + rest)) == [a] + SplitLines(rest)
  {
    SplitLinesStep(a, rest);
    CarriageReturnEnds(a, rest);
    CarriageReturnEnds(a, "\n" + rest);
    assert "\r\n" + rest == "\r" + ("\n" + rest);
    if a != "" { OneLine(a); }
  }

  lemma {:induction false} LengthToReturn(a: string, rest: string)
    requires '\n' !in a && '\r' !in a
    ensures LineLength(a + ("\r" + rest)) == |a|
  {
    if a != "" {
      LengthToReturn(a[1..], rest);
      assert (a + ("\r" + rest))[1..] == a[1..] + ("\r" + rest);
      assert a[0] in a;
    }
  }

  lemma CarriageReturnEnds(a: string, rest: string)
    requires '\n' !in a && '\r' !in a
    ensures SplitLines(a + ("\r" + rest))
            == [a] + SplitLines(if rest != "" && rest[0] == '\n' then rest[1..] else rest)
  {
    var s := a + ("\r" + rest);
    assert s[..|a|] == a && s[|a|] == '\r' && s[|a| + 1..] == rest;
    assert rest != "" ==> s[|a| + 1] == rest[0] && s[|a| + 2..] == rest[1..];
    hide LineLength;
    LengthToReturn(a, rest);
  }
}
