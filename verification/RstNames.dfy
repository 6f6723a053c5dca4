/** Identifiers and anchors of the RST generator: splitting a Doxygen id, and slugging a title. */
module RstNames {
  import opened Common
  import opened PyText

  predicate IsHexDigit(c: char) {
    '0' <= c <= '9' || 'a' <= c <= 'f' || 'A' <= c <= 'F'
  }

  predicate AllHex(s: string) {
    forall i :: 0 <= i < |s| ==> IsHexDigit(s[i])
  }

  /** The pattern of 32 hexadecimal digits, anchored at both ends. */
  predicate IsValidUuid(s: string) {
    |s| == 32 && AllHex(s)
  }

  /** `s[-n:]` */
  function LastChars(s: string, n: nat): string {
    if |s| <= n then s else s[|s| - n..]
  }

  function GetPage(refid: string): (string, Option<string>) {
    var fields := SplitOn(refid, '_');
    var last := fields[|fields| - 1];
    if IsValidUuid(LastChars(last, 32)) then (Join(fields[..|fields| - 1], '_'), Some(last))
    else (refid, None)
  }

  lemma LastFieldIsSuffix(refid: string)
    ensures var fields := SplitOn(refid, '_');
            var last := fields[|fields| - 1];
            && '_' !in last
            && (|fields| == 1 ==> last == refid && '_' !in refid)
            && (|fields| >= 2 ==> refid == Join(fields[..|fields| - 1], '_') + "_" + last)
  {
    JoinUndoesSplit(refid, '_');
    FieldsLackSeparator(refid, '_');
    var fields := SplitOn(refid, '_');
    if |fields| >= 2 { JoinLast(fields, '_'); }
  }

  /** A tag is found exactly when the id ends in 32 hexadecimal digits. It is then all that follows the last
      underscore, and page and tag put back together give the id if and only if the id has an underscore. */
  lemma GetPageSplitsAtLastUnderscore(refid: string)
    ensures var (page, tag) := GetPage(refid);
            && (tag.Some? <==> |refid| >= 32
                               && forall k :: |refid| - 32 <= k < |refid| ==> refid[k] in "0123456789abcdefABCDEF")
            && (tag.None? ==> page == refid)
            && (tag.Some? ==> '_' !in tag.value)
            && (tag.Some? ==> (page + "_" + tag.value == refid <==> '_' in refid))
            && (tag.Some? && '_' !in refid ==> page == "" && tag.value == refid)
  {
    LastFieldIsSuffix(refid);
    LastFieldHasUuidIff(refid, SplitOn(refid, '_'));
  }

  /** The 32 characters that are looked at are the last ones of the id. */
  lemma LastFieldHasUuidIff(refid: string, fields: seq<string>)
    requires fields == SplitOn(refid, '_') && '_' !in fields[|fields| - 1]
    requires |fields| == 1 ==> fields[0] == refid
    requires |fields| >= 2 ==> refid == Join(fields[..|fields| - 1], '_') + "_" + fields[|fields| - 1]
    ensures |fields| >= 2 ==> '_' in refid
    ensures IsValidUuid(LastChars(fields[|fields| - 1], 32))
            <==> |refid| >= 32 && forall k :: |refid| - 32 <= k < |refid| ==> refid[k] in "0123456789abcdefABCDEF"
  {
    hide SplitOn, Join;
    var last := fields[|fields| - 1];
    if |last| < |refid| { assert refid[|refid| - |last| - 1] == '_'; }
    if |last| >= 32 {
      assert LastChars(last, 32) == refid[|refid| - 32..];
      HexDigitsAre(refid[|refid| - 32..]);
    } else if |refid| >= 32 {
      assert refid[|refid| - 32..][31 - |last|] == '_';
      HexDigitsAre(refid[|refid| - 32..]);
    }
  }

  lemma HexDigitsAre(s: string)
    ensures AllHex(s) <==> forall k :: 0 <= k < |s| ==> s[k] in "0123456789abcdefABCDEF"
  {
    forall k | 0 <= k < |s| ensures IsHexDigit(s[k]) <==> s[k] in "0123456789abcdefABCDEF" { HexDigitIs(s[k]); }
  }

  lemma HexDigitIs(c: char)
    ensures IsHexDigit(c) <==> c in "0123456789abcdefABCDEF"
  {
    var digits := "0123456789abcdefABCDEF";
    if '0' <= c <= '9' { assert digits[c as int - 48] == c; }
    if 'a' <= c <= 'f' { assert digits[c as int - 87] == c; }
    if 'A' <= c <= 'F' { assert digits[c as int - 49] == c; }
  }

  // ---------------------------------------------------------------- slugs

  /** A member of `string.punctuation`. */
  predicate IsPunctuation(c: char) {
    '!' <= c <= '/' || ':' <= c <= '@' || '[' <= c <= '`' || '{' <= c <= '~'
  }

  function BlankPunctuation(s: string): (r: string)
    ensures |r| == |s| && forall i :: 0 <= i < |s| ==> r[i] == if IsPunctuation(s[i]) then ' ' else s[i]
  {
    seq(|s|, i requires 0 <= i < |s| => if IsPunctuation(s[i]) then ' ' else s[i])
  }

  function WordLength(s: string): (n: nat)
    ensures n <= |s|
    ensures forall i :: 0 <= i < n ==> !IsSpace(s[i])
    ensures n < |s| ==> IsSpace(s[n])
  {
    if s == "" || IsSpace(s[0]) then 0 else 1 + WordLength(s[1..])
  }

  /** `text.split()`: the maximal runs of characters that are not whitespace. */
  function Words(s: string): seq<string>
    decreases |s|
  {
    if s == "" then []
    else if IsSpace(s[0]) then Words(s[1..])
    else [s[..WordLength(s)]] + Words(s[WordLength(s)..])
  }

  function StripTitleRef(text: string): string {
    Lower(Join(Words(BlankPunctuation(text)), '-'))
  }

  /** What a slug keeps of a title: its words without punctuation, in lower case. */
  function TitleWords(text: string): seq<string> {
    LowerAll(Words(BlankPunctuation(text)))
  }

  function LowerAll(words: seq<string>): (r: seq<string>)
    ensures |r| == |words| && forall i :: 0 <= i < |words| ==> r[i] == Lower(words[i])
  {
    seq(|words|, i requires 0 <= i < |words| => Lower(words[i]))
  }

  predicate IsSlugChar(c: char) {
    !IsSpace(c) && !IsPunctuation(c) && !('A' <= c <= 'Z')
  }

  predicate IsSlugWord(w: string) {
    w != "" && forall i :: 0 <= i < |w| ==> IsSlugChar(w[i])
  }

  ghost predicate AreSlugWords(ws: seq<string>) {
    forall k :: 0 <= k < |ws| ==> IsSlugWord(ws[k])
  }

  predicate IsPlainWord(w: string) {
    w != "" && forall i :: 0 <= i < |w| ==> !IsSpace(w[i]) && !IsPunctuation(w[i])
  }

  lemma {:induction false} WordsArePlain(s: string)
    requires forall i :: 0 <= i < |s| ==> !IsPunctuation(s[i])
    ensures forall k :: 0 <= k < |Words(s)| ==> IsPlainWord(Words(s)[k])
    decreases |s|
  {
    if s != "" {
      if IsSpace(s[0]) {
        WordsArePlain(s[1..]);
      } else {
        WordsArePlain(s[WordLength(s)..]);
      }
    }
  }

  function WithoutSpaces(s: string): string {
    if s == "" then "" else (if IsSpace(s[0]) then "" else [s[0]]) + WithoutSpaces(s[1..])
  }

  function Glued(words: seq<string>): string {
    if words == [] then "" else words[0] + Glued(words[1..])
  }

  lemma {:induction false} WithoutSpacesOfWord(s: string, n: nat)
    requires n <= |s| && forall i :: 0 <= i < n ==> !IsSpace(s[i])
    ensures WithoutSpaces(s) == s[..n] + WithoutSpaces(s[n..])
    decreases n
  {
    if n > 0 {
      WithoutSpacesOfWord(s[1..], n - 1);
      assert s[1..][n - 1..] == s[n..];
      assert s[..n] == [s[0]] + s[1..][..n - 1];
    }
  }

  /** Splitting into words loses nothing but whitespace. */
  lemma {:induction false} WordsKeepEveryCharacter(s: string)
    ensures Glued(Words(s)) == WithoutSpaces(s)
    decreases |s|
  {
    if s != "" {
      if IsSpace(s[0]) {
        WordsKeepEveryCharacter(s[1..]);
      } else {
        var n := WordLength(s);
        WordsKeepEveryCharacter(s[n..]);
        WithoutSpacesOfWord(s, n);
        assert ([s[..n]] + Words(s[n..]))[1..] == Words(s[n..]);
      }
    }
  }

  lemma TitleWordsAreSlugWords(text: string)
    ensures AreSlugWords(TitleWords(text))
  {
    var ws := Words(BlankPunctuation(text));
    WordsArePlain(BlankPunctuation(text));
    forall k | 0 <= k < |ws| ensures IsSlugWord(Lower(ws[k])) {
      assert IsPlainWord(ws[k]);
    }
  }

  lemma {:induction false} LowerOfJoin(ws: seq<string>)
    ensures Lower(Join(ws, '-')) == Join(LowerAll(ws), '-')
  {
    if |ws| > 1 {
      LowerOfJoin(ws[1..]);
      assert LowerAll(ws)[1..] == LowerAll(ws[1..]);
      assert Lower(ws[0] + ['-'] + Join(ws[1..], '-')) == Lower(ws[0]) + ['-'] + Lower(Join(ws[1..], '-'));
    }
  }

  lemma SlugJoinsTitleWords(text: string)
    ensures StripTitleRef(text) == Join(TitleWords(text), '-')
  {
    LowerOfJoin(Words(BlankPunctuation(text)));
  }

  /** A slug is lower-case words joined by single hyphens, and splitting it at hyphens gives the words back. */
  lemma SlugSplitsIntoTitleWords(text: string)
    ensures AreSlugWords(TitleWords(text))
    ensures TitleWords(text) == [] ==> StripTitleRef(text) == ""
    ensures TitleWords(text) != [] ==> SplitOn(StripTitleRef(text), '-') == TitleWords(text)
  {
    SlugJoinsTitleWords(text);
    TitleWordsAreSlugWords(text);
    var ws := TitleWords(text);
    if ws != [] {
      assert NoneContains(ws, '-') by {
        forall k | 0 <= k < |ws| ensures '-' !in ws[k] { assert IsSlugWord(ws[k]); }
      }
      SplitUndoesJoin(ws, '-');
    }
  }

  lemma WordLengthOf(w: string, rest: string)
    requires IsPlainWord(w)
    requires rest == "" || IsSpace(rest[0])
    ensures WordLength(w + rest) == |w|
  {
    var s := w + rest;
    assert forall i :: 0 <= i < |w| ==> s[i] == w[i];
    assert rest != "" ==> s[|w|] == rest[0];
  }

  lemma WordsStep(w: string, rest: string)
    requires IsPlainWord(w)
    ensures Words(w + (" " + rest)) == [w] + Words(rest)
    ensures Words(w) == [w]
  {
    var s := w + (" " + rest);
    WordLengthOf(w, " " + rest);
    WordLengthOf(w, "");
    assert s[0] == w[0] && s[..|w|] == w && s[|w|..] == " " + rest;
    assert (" " + rest)[1..] == rest;
    assert w + "" == w && w[..|w|] == w && w[|w|..] == "";
  }

  lemma BlankAfterWord(w: string, rest: string)
    requires IsPlainWord(w)
    ensures BlankPunctuation(w) == w
    ensures BlankPunctuation(w + ['-'] + rest) == w + (" " + BlankPunctuation(rest))
  {
  }

  lemma {:induction false} WordsOfBlankedJoin(ws: seq<string>)
    requires AreSlugWords(ws)
    ensures Words(BlankPunctuation(Join(ws, '-'))) == ws
  {
    if ws != [] {
      var w, rest := ws[0], Join(ws[1..], '-');
      assert IsPlainWord(w) by { assert IsSlugWord(w); }
      BlankAfterWord(w, rest);
      WordsStep(w, BlankPunctuation(rest));
      if |ws| > 1 {
        assert AreSlugWords(ws[1..]);
        WordsOfBlankedJoin(ws[1..]);
      }
    }
  }

  lemma {:induction false} LowerIsIdentityOn(ws: seq<string>)
    requires AreSlugWords(ws)
    ensures LowerAll(ws) == ws
  {
    forall k | 0 <= k < |ws| ensures Lower(ws[k]) == ws[k] {
      assert IsSlugWord(ws[k]);
    }
  }

  lemma TitleWordsOfSlug(text: string)
    ensures TitleWords(StripTitleRef(text)) == TitleWords(text)
  {
    SlugJoinsTitleWords(text);
    TitleWordsAreSlugWords(text);
    WordsOfBlankedJoin(TitleWords(text));
    LowerIsIdentityOn(TitleWords(text));
  }

  lemma SlugIsIdempotent(text: string)
    ensures StripTitleRef(StripTitleRef(text)) == StripTitleRef(text)
  {
    TitleWordsOfSlug(text);
    SlugJoinsTitleWords(text);
    SlugJoinsTitleWords(StripTitleRef(text));
  }

  /** Two titles get the same anchor exactly when they have the same lower-case words. */
  lemma SlugsAgreeIffTitleWordsAgree(a: string, b: string)
    ensures StripTitleRef(a) == StripTitleRef(b) <==> TitleWords(a) == TitleWords(b)
  {
    SlugJoinsTitleWords(a);
    SlugJoinsTitleWords(b);
    TitleWordsOfSlug(a);
    TitleWordsOfSlug(b);
  }

  // ---------------------------------------------------------------- slugs, spelled out character by character

  function IndexOf(s: string, c: char): (k: nat)
    requires c in s
    ensures k < |s| && s[k] == c
  {
    if s[0] == c then 0 else 1 + IndexOf(s[1..], c)
  }

  /** The punctuation and whitespace of the ASCII table, which titles are cut at. */
  predicate IsCut(c: char) {
    c in "!\"#$%&'()*+,-./:;<=>?@[\\]^_`{|}~" || c in " \t\n\r" || c as int == 11 || c as int == 12
  }

  /** What one character of a title leaves in its slug. */
  function SlugChar(c: char): string {
    var capitals, small := "ABCDEFGHIJKLMNOPQRSTUVWXYZ", "abcdefghijklmnopqrstuvwxyz";
    if IsCut(c) then "" else if c in capitals then [small[IndexOf(capitals, c)]] else [c]
  }

  function SlugChars(text: string): string {
    if text == "" then "" else SlugChar(text[0]) + SlugChars(text[1..])
  }

  lemma PunctuationIsListed(c: char)
    ensures IsPunctuation(c) ==> c in "!\"#$%&'()*+,-./:;<=>?@[\\]^_`{|}~"
  {
    var listed := "!\"#$%&'()*+,-./:;<=>?@[\\]^_`{|}~";
    if '!' <= c <= '/' {
      assert listed[c as int - 33] == c;
    } else if ':' <= c <= '@' {
      assert listed[c as int - 43] == c;
    } else if '[' <= c <= '`' {
      assert listed[c as int - 69] == c;
    } else if '{' <= c <= '~' {
      assert listed[c as int - 95] == c;
    }
  }

  lemma ListedIsPunctuation(c: char)
    ensures c in "!\"#$%&'()*+,-./:;<=>?@[\\]^_`{|}~" ==> IsPunctuation(c)
  {
  }

  lemma CutIs(c: char)
    ensures IsCut(c) <==> IsPunctuation(c) || IsSpace(c)
  {
    PunctuationIsListed(c);
    ListedIsPunctuation(c);
    SpacesAre(c);
  }

  lemma SlugCharIs(c: char)
    ensures SlugChar(c) == if IsPunctuation(c) || IsSpace(c) then "" else Lower([c])
  {
    CutIs(c);
    var capitals := "ABCDEFGHIJKLMNOPQRSTUVWXYZ";
    if c in capitals { LowerIsByTable(IndexOf(capitals, c)); } else { LowerKeepsOthers(c); }
  }

  lemma {:induction false} LowerOfGlued(words: seq<string>)
    ensures Glued(LowerAll(words)) == Lower(Glued(words))
  {
    if words != [] {
      LowerOfGlued(words[1..]);
      assert LowerAll(words)[1..] == LowerAll(words[1..]);
    }
  }

  lemma BlankCons(c: char, rest: string)
    ensures BlankPunctuation([c] + rest) == [if IsPunctuation(c) then ' ' else c] + BlankPunctuation(rest)
  {
  }

  lemma WithoutSpacesCons(c: char, rest: string)
    ensures WithoutSpaces([c] + rest) == (if IsSpace(c) then "" else [c]) + WithoutSpaces(rest)
  {
    assert ([c] + rest)[1..] == rest;
  }

  lemma LowerAppend(a: string, b: string)
    ensures Lower(a + b) == Lower(a) + Lower(b)
  {
  }

  lemma {:induction false} SlugCharsOfRest(text: string)
    ensures Lower(WithoutSpaces(BlankPunctuation(text))) == SlugChars(text)
  {
    if text != "" {
      var c, rest := text[0], text[1..];
      SlugCharsOfRest(rest);
      SlugCharIs(c);
      assert text == [c] + rest;
      hide BlankPunctuation, WithoutSpaces, Lower, SlugChar, IsPunctuation, LowerChar;
      var blank := if IsPunctuation(c) then ' ' else c;
      BlankCons(c, rest);
      WithoutSpacesCons(blank, BlankPunctuation(rest));
      LowerAppend(if IsSpace(blank) then "" else [blank], WithoutSpaces(BlankPunctuation(rest)));
      LowerOfNothing();
    }
  }

  lemma LowerOfNothing()
    ensures Lower("") == ""
  {
  }

  /** The letters of a slug's words are what the title leaves under the tables, in order. */
  lemma SlugKeepsCharacters(text: string)
    ensures Glued(TitleWords(text)) == SlugChars(text)
  {
    LowerOfGlued(Words(BlankPunctuation(text)));
    WordsKeepEveryCharacter(BlankPunctuation(text));
    SlugCharsOfRest(text);
  }

  lemma WordsOf(s: string)
    ensures s == "" ==> Words(s) == []
    ensures s != "" && IsSpace(s[0]) ==> Words(s) == Words(s[1..])
    ensures s != "" && !IsSpace(s[0]) ==> Words(s) == [s[..WordLength(s)]] + Words(s[WordLength(s)..])
  {
  }

  lemma {:induction false} WordsCut(s: string, c: char, t: string)
    requires IsSpace(c)
    ensures Words(s + ([c] + t)) == Words(s) + Words(t)
    decreases |s|
  {
    hide Words, IsSpace;
    var u := s + ([c] + t);
    WordsOf(s);
    WordsOf(u);
    if s == "" {
      assert u == [c] + t && u[1..] == t;
    } else if IsSpace(s[0]) {
      WordsCut(s[1..], c, t);
      assert u[1..] == s[1..] + ([c] + t);
    } else {
      var n := WordLength(s);
      WordLengthIsPositive(s);
      WordLengthBefore(s, [c] + t);
      WordsCut(s[n..], c, t);
      assert u[..n] == s[..n] && u[n..] == s[n..] + ([c] + t);
    }
  }

  lemma WordLengthIsPositive(s: string)
    requires s != "" && !IsSpace(s[0])
    ensures WordLength(s) > 0
  {
  }

  lemma {:induction false} WordLengthBefore(s: string, t: string)
    requires t != "" && IsSpace(t[0])
    ensures WordLength(s + t) == WordLength(s)
  {
    if s != "" && !IsSpace(s[0]) {
      WordLengthBefore(s[1..], t);
      assert (s + t)[1..] == s[1..] + t;
    } else if s == "" {
      assert s + t == t;
    }
  }

  lemma BlankAround(a: string, c: char, b: string)
    ensures BlankPunctuation(a + ([c] + b))
            == BlankPunctuation(a) + ([if IsPunctuation(c) then ' ' else c] + BlankPunctuation(b))
  {
  }

  lemma LowerAllAppend(a: seq<string>, b: seq<string>)
    ensures LowerAll(a + b) == LowerAll(a) + LowerAll(b)
  {
  }

  /** A title is cut at each punctuation or whitespace character. */
  lemma TitleIsCut(a: string, c: char, b: string)
    requires IsCut(c)
    ensures TitleWords(a + ([c] + b)) == TitleWords(a) + TitleWords(b)
  {
    CutIs(c);
    hide BlankPunctuation, Words, IsPunctuation, LowerAll, IsCut;
    var blank := if IsPunctuation(c) then ' ' else c;
    BlankAround(a, c, b);
    WordsCut(BlankPunctuation(a), blank, BlankPunctuation(b));
    LowerAllAppend(Words(BlankPunctuation(a)), Words(BlankPunctuation(b)));
  }

  /** It is cut nowhere else. */
  lemma UncutTitleIsOneWord(a: string)
    requires a != "" && forall k :: 0 <= k < |a| ==> !IsCut(a[k])
    ensures TitleWords(a) == [SlugChars(a)]
  {
    forall k | 0 <= k < |a| ensures !IsSpace(a[k]) && !IsPunctuation(a[k]) { CutIs(a[k]); }
    BlankAfterWord(a, "");
    WordsStep(a, "");
    SlugKeepsCharacters(a);
    hide *;
    OneWord(a);
  }

  lemma OneWord(a: string)
    requires BlankPunctuation(a) == a && Words(a) == [a]
    ensures TitleWords(a) == [Glued(TitleWords(a))]
  {
    var w := Lower(a);
    assert TitleWords(a) == [w];
    assert Glued([w]) == w + Glued([w][1..]) == w + "" == w;
  }
}
