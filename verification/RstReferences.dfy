/** What the notes of a finished run amount to: every reference leads somewhere, and where one name can lead to two
    places although every check of the run succeeds. */
module RstReferences {
  import opened Common
  import opened PyText
  import opened RstNames
  import opened RstMissing
  import opened RstGenerator

  /** The page that an id leads to. */
  function PageNameFor(p: Project, refid: string): string {
    var page := GetPage(refid).0;
    if refid in p.references then p.references[refid].pageName
    else if page in p.references then p.references[page].pageName
    else p.missingPage
  }

  lemma LowerKeepsColons(s: string)
    requires ':' !in s
    ensures ':' !in Lower(s)
  {
    forall i | 0 <= i < |s| ensures Lower(s)[i] != ':' { assert s[i] in s; }
  }

  /** Two of the three ways to choose an anchor never matter: cutting at a double colon leaves every displayed name
      alone, and the title slug is never used. The anchor is always the lower-case name, and only the page depends on
      the id. */
  lemma AnchorIsLowerCaseName(p: Project, node: RefNode)
    ensures NoteFor(p, LinkOf(node)) == Note(Quote(NameOf(node)), PageNameFor(p, node.refid), Lower(NameOf(node)))
  {
    FieldsLackSeparator(Strip(node.text), ':');
    LowerKeepsColons(NameOf(node));
    NoColonsFrom(Lower(NameOf(node)), 0);
  }

  /** A reference leads to the page its id is documented on, or to the page that encloses it, or to an item that
      really is written on the page for missing types. */
  predicate LeadsSomewhere(p: Project, written: set<string>, link: Link) {
    var page := GetPage(link.refid).0;
    var note := NoteFor(p, link);
    || (link.refid in p.references && note.rstName == p.references[link.refid].pageName)
    || (page in p.references && note.rstName == p.references[page].pageName)
    || (link.refid in written && note.rstName == p.missingPage)
  }

  /** The note for a link stands once under its key, and no other note has that key. */
  ghost predicate HasOneNote(p: Project, notes: seq<Note>, link: Link) {
    exists k :: 0 <= k < |notes| && notes[k] == NoteFor(p, link)
                && forall m :: 0 <= m < |notes| && notes[m].key == Quote(link.name) ==> m == k
  }

  lemma NoteIsListedOnce(p: Project, notes: seq<Note>, links: set<Link>, link: Link)
    requires KeysAreDistinct(notes) && NoteSet(notes) == NotesFor(p, links) && link in links
    ensures HasOneNote(p, notes, link)
  {
    var note := NoteFor(p, link);
    assert note in NoteSet(notes);
    var k :| 0 <= k < |notes| && notes[k] == note;
    forall m | 0 <= m < |notes| && notes[m].key == Quote(link.name) ensures m == k {
      assert notes[m].key == notes[k].key;
    }
  }

  /** Each of the links has one note, and leads somewhere. */
  ghost predicate AllResolved(p: Project, notes: seq<Note>, links: set<Link>, written: set<string>) {
    forall link :: link in links ==> HasOneNote(p, notes, link) && LeadsSomewhere(p, written, link)
  }

  lemma PageIsResolved(p: Project, pages: seq<seq<RefNode>>, i: nat, notes: seq<Note>, written: set<string>)
    requires i < |pages| && PageIsNoted(p, pages[i], notes) && IsLeastClosure(p, Seeds(p, pages), written)
    ensures AllResolved(p, notes, LinksOf(pages[i]), written)
  {
    hide NoteSet, NotesFor, KeysAreDistinct, LinksOf, HasOneNote;
    forall link | link in LinksOf(pages[i]) ensures HasOneNote(p, notes, link) && LeadsSomewhere(p, written, link) {
      NoteIsListedOnce(p, notes, LinksOf(pages[i]), link);
      if IsMissing(p, link.refid) { assert link.refid in Seeds(p, pages); }
    }
  }

  /** Every reference in a written item has its note on the page for missing types, and leads somewhere. */
  ghost predicate FootnoteResolves(p: Project, footnote: seq<Note>, written: set<string>) {
    forall link :: link in Emits(p, written) ==> NoteFor(p, link) in footnote && LeadsSomewhere(p, written, link)
  }

  lemma FootnoteIsResolved(p: Project, seeds: set<string>, footnote: seq<Note>, written: set<string>)
    requires IsLeastClosure(p, seeds, written) && NoteSet(footnote) == NotesFor(p, Emits(p, written))
    ensures FootnoteResolves(p, footnote, written)
  {
    hide Emits, NoteFor;
    forall link | link in Emits(p, written)
      ensures NoteFor(p, link) in footnote && LeadsSomewhere(p, written, link)
    {
      assert NoteFor(p, link) in NoteSet(footnote);
      WrittenLinkLeadsSomewhere(p, written, link);
    }
  }

  lemma WrittenLinkLeadsSomewhere(p: Project, written: set<string>, link: Link)
    requires IsClosed(p, written) && link in Emits(p, written)
    ensures LeadsSomewhere(p, written, link)
  {
    hide Emits;
    if IsMissing(p, link.refid) { assert link.refid in Uncovers(p, written); }
  }

  /** Nothing documented is written again, and everything written was mentioned by a page or a written item. */
  lemma WrittenItemsAreMissingAndMentioned(p: Project, seeds: set<string>, written: set<string>, item: string)
    requires IsLeastClosure(p, seeds, written) && item in written && item !in seeds
    ensures IsMissing(p, item)
    ensures exists link :: link in Emits(p, written - {item}) && link.refid == item
  {
    var without := written - {item};
    assert !IsClosed(p, without);
    UncoversMonotone(p, without, written);
    assert item in Uncovers(p, without);
  }

  /** What is written is documented nowhere: neither under its own id nor under its page's. */
  lemma WrittenIsUndocumented(p: Project, seeds: set<string>, written: set<string>, x: string)
    requires IsLeastClosure(p, seeds, written) && x in written
    requires forall s :: s in seeds ==> IsMissing(p, s)
    ensures x !in p.references && GetPage(x).0 !in p.references
  {
    hide Emits, GetPage;
    var missing := set y | y in written && IsMissing(p, y);
    UncoversMonotone(p, missing, written);
    assert IsClosed(p, missing) && seeds <= missing;
  }

  lemma SeedsAreMissing(p: Project, pages: seq<seq<RefNode>>)
    ensures forall s :: s in Seeds(p, pages) ==> IsMissing(p, s)
  {
    hide LinksOf, IsMissing;
  }

  /** A link of a page whose id is documented nowhere leads to a written item. */
  lemma PageLinkIsWritten(p: Project, pages: seq<seq<RefNode>>, written: set<string>, i: nat, link: Link)
    requires IsLeastClosure(p, Seeds(p, pages), written) && i < |pages| && link in LinksOf(pages[i])
    requires link.refid !in p.references && GetPage(link.refid).0 !in p.references
    ensures link.refid in written
  {
    hide LinksOf, GetPage;
    assert IsMissing(p, link.refid);
    assert link.refid in Seeds(p, pages);
  }

  lemma WrittenLinkIsWritten(p: Project, seeds: set<string>, written: set<string>, link: Link)
    requires IsLeastClosure(p, seeds, written) && link in Emits(p, written)
    requires link.refid !in p.references && GetPage(link.refid).0 !in p.references
    ensures link.refid in written
  {
    hide Emits, GetPage;
    assert IsMissing(p, link.refid);
    assert link.refid in Uncovers(p, written);
  }

  /** Where a link leads: the documentation of the id itself comes first, that of its page second, the page for missing
      types last. */
  lemma NoteLeadsTo(p: Project, link: Link)
    ensures var page := GetPage(link.refid).0;
            NoteFor(p, link).rstName == if link.refid in p.references then p.references[link.refid].pageName
                                        else if page in p.references then p.references[page].pageName
                                        else p.missingPage
    ensures NoteFor(p, link).key == ['`'] + link.name + ['`']
  {
    hide GetPage, AfterDoubleColon, Lower;
  }

  // ---------------------------------------------------------------- one name, two places

  /** No key of the notes leads to two places. */
  ghost predicate Unambiguous(notes: set<Note>) {
    forall a, b :: a in notes && b in notes && a.key == b.key ==> a == b
  }

  /** No name is displayed for ids that lead to different pages. */
  ghost predicate NamesStayOnOnePage(p: Project, links: set<Link>) {
    forall a, b :: a in links && b in links && a.name == b.name ==> PageNameFor(p, a.refid) == PageNameFor(p, b.refid)
  }

  lemma EmittedNote(p: Project, items: set<string>, link: Link)
    requires link in Emits(p, items)
    ensures NoteFor(p, link) == Note(Quote(link.name), PageNameFor(p, link.refid), Lower(link.name))
  {
    var x, i :| x in items && 0 <= i < |Mentions(p, x)| && link == LinkOf(Mentions(p, x)[i]);
    AnchorIsLowerCaseName(p, Mentions(p, x)[i]);
  }

  lemma NotesAreUnambiguousIff(p: Project, items: set<string>)
    ensures Unambiguous(NotesFor(p, Emits(p, items))) <==> NamesStayOnOnePage(p, Emits(p, items))
  {
    hide Emits, NoteFor, PageNameFor;
    var links := Emits(p, items);
    forall link | link in links { EmittedNote(p, items, link); }
    if Unambiguous(NotesFor(p, links)) {
      forall a, b | a in links && b in links && a.name == b.name
        ensures PageNameFor(p, a.refid) == PageNameFor(p, b.refid)
      {
        assert NoteFor(p, a) in NotesFor(p, links) && NoteFor(p, b) in NotesFor(p, links);
      }
    }
    if NamesStayOnOnePage(p, links) {
      forall m, n | m in NotesFor(p, links) && n in NotesFor(p, links) && m.key == n.key ensures m == n {
        var a :| a in links && m == NoteFor(p, a);
        var b :| b in links && n == NoteFor(p, b);
        QuoteIsInjective(a.name, b.name);
      }
    }
  }

  // ---------------------------------------------------------------- the rounds one by one

  /** The items of the `k`-th round from this one on. */
  ghost function RoundAt(p: Project, round: set<string>, done: set<string>, k: nat): set<string>
    requires round !! done
    decreases k
  {
    if k == 0 then round else RoundAt(p, NextRound(p, round, done), done + round, k - 1)
  }

  lemma {:induction false} EmptyRoundsStayEmpty(p: Project, done: set<string>, k: nat)
    ensures RoundAt(p, {}, done, k) == {}
    decreases k
  {
    if k > 0 {
      assert NextRound(p, {}, done) == {} && done + {} == done;
      EmptyRoundsStayEmpty(p, done, k - 1);
    }
  }

  lemma {:induction false} RoundAtIsReached(p: Project, round: set<string>, done: set<string>, k: nat)
    requires round !! done
    ensures RoundAt(p, round, done, k) <= AllRounds(p, round, done)
    decreases k
  {
    if round == {} {
      EmptyRoundsStayEmpty(p, done, k);
    } else if k > 0 {
      RoundAtIsReached(p, NextRound(p, round, done), done + round, k - 1);
    }
  }

  lemma {:induction false} ReachedInSomeRound(p: Project, round: set<string>, done: set<string>, x: string)
    returns (k: nat)
    requires round !! done && x in AllRounds(p, round, done)
    ensures x in RoundAt(p, round, done, k)
    decreases (Universe(p) + round) - done
  {
    if x in round {
      k := 0;
    } else {
      RoundShrinks(p, round, done);
      k := ReachedInSomeRound(p, NextRound(p, round, done), done + round, x);
      k := k + 1;
    }
  }

  lemma {:induction false} RoundAtIsFunctional(p: Project, round: set<string>, done: set<string>, k: nat)
    requires round !! done && RoundsAreFunctional(p, round, done)
    ensures Functional(Emits(p, RoundAt(p, round, done, k)))
    decreases k
  {
    hide Functional, Emits;
    if round == {} {
      EmptyRoundsStayEmpty(p, done, k);
      NothingIsFunctional(p);
    } else if k > 0 {
      RoundAtIsFunctional(p, NextRound(p, round, done), done + round, k - 1);
    }
  }

  lemma NothingIsFunctional(p: Project)
    ensures Functional(Emits(p, {}))
  {
  }

  /** The two items show one name for ids that lead to different pages. */
  ghost predicate Clash(p: Project, x: string, y: string) {
    exists a, b :: a in LinksOf(Mentions(p, x)) && b in LinksOf(Mentions(p, y)) && a.name == b.name
                   && PageNameFor(p, a.refid) != PageNameFor(p, b.refid)
  }

  /** No two items that are reached in different rounds clash. */
  ghost predicate RoundsKeepNamesApart(p: Project, seeds: set<string>) {
    forall j: nat, k: nat, x, y ::
      j < k && x in RoundAt(p, seeds, {}, j) && y in RoundAt(p, seeds, {}, k) ==> !Clash(p, x, y)
  }

  lemma EmitterOf(p: Project, items: set<string>, link: Link) returns (x: string)
    requires link in Emits(p, items)
    ensures x in items && link in LinksOf(Mentions(p, x))
  {
    var y, i :| y in items && 0 <= i < |Mentions(p, y)| && link == LinkOf(Mentions(p, y)[i]);
    x := y;
  }

  lemma EmittedBy(p: Project, items: set<string>, x: string, link: Link)
    requires x in items && link in LinksOf(Mentions(p, x))
    ensures link in Emits(p, items)
  {
  }

  lemma OnePageThenApart(p: Project, seeds: set<string>)
    requires NamesStayOnOnePage(p, Emits(p, AllRounds(p, seeds, {})))
    ensures RoundsKeepNamesApart(p, seeds)
  {
    hide Emits, LinksOf, PageNameFor;
    var written := AllRounds(p, seeds, {});
    forall j: nat, k: nat, x, y | j < k && x in RoundAt(p, seeds, {}, j) && y in RoundAt(p, seeds, {}, k)
      ensures !Clash(p, x, y)
    {
      RoundAtIsReached(p, seeds, {}, j);
      RoundAtIsReached(p, seeds, {}, k);
      forall link | link in LinksOf(Mentions(p, x)) { EmittedBy(p, written, x, link); }
      forall link | link in LinksOf(Mentions(p, y)) { EmittedBy(p, written, y, link); }
    }
  }

  lemma ApartThenOnePage(p: Project, seeds: set<string>, a: Link, b: Link)
    requires RoundsAreFunctional(p, seeds, {}) && RoundsKeepNamesApart(p, seeds)
    requires a in Emits(p, AllRounds(p, seeds, {})) && b in Emits(p, AllRounds(p, seeds, {})) && a.name == b.name
    ensures PageNameFor(p, a.refid) == PageNameFor(p, b.refid)
  {
    hide Emits, LinksOf, PageNameFor, AllRounds;
    var x := EmitterOf(p, AllRounds(p, seeds, {}), a);
    var y := EmitterOf(p, AllRounds(p, seeds, {}), b);
    var j := ReachedInSomeRound(p, seeds, {}, x);
    var k := ReachedInSomeRound(p, seeds, {}, y);
    if j == k {
      RoundAtIsFunctional(p, seeds, {}, j);
      EmittedBy(p, RoundAt(p, seeds, {}, j), x, a);
      EmittedBy(p, RoundAt(p, seeds, {}, j), y, b);
    } else if j < k {
      assert !Clash(p, x, y);
    } else {
      assert !Clash(p, y, x);
    }
  }

  /** A run whose own checks succeed gives every name one target on the page for missing types if and only if no two
      items that are reached in different rounds show one name for ids on different pages. */
  lemma FootnoteIsUnambiguousIff(p: Project, seeds: set<string>)
    requires RoundsAreFunctional(p, seeds, {})
    ensures Unambiguous(NotesFor(p, Emits(p, AllRounds(p, seeds, {})))) <==> RoundsKeepNamesApart(p, seeds)
  {
    hide Unambiguous, NotesFor, Emits, RoundsAreFunctional, RoundsKeepNamesApart, AllRounds;
    var links := Emits(p, AllRounds(p, seeds, {}));
    NotesAreUnambiguousIff(p, AllRounds(p, seeds, {}));
    if NamesStayOnOnePage(p, links) { OnePageThenApart(p, seeds); }
    if RoundsKeepNamesApart(p, seeds) {
      forall a, b | a in links && b in links && a.name == b.name { ApartThenOnePage(p, seeds, a, b); }
    }
  }

  lemma WrittenExactlyIfUndocumented(p: Project, pages: seq<seq<RefNode>>, written: seq<string>)
    requires IsLeastClosure(p, Seeds(p, pages), ItemSet(written))
    ensures forall x :: x in written ==> x !in p.references && GetPage(x).0 !in p.references
    ensures forall i, link :: 0 <= i < |pages| && link in LinksOf(pages[i])
                              && link.refid !in p.references && GetPage(link.refid).0 !in p.references
              ==> link.refid in written
    ensures forall link :: link in Emits(p, ItemSet(written))
                           && link.refid !in p.references && GetPage(link.refid).0 !in p.references
              ==> link.refid in written
  {
    hide Emits, GetPage, LinksOf, IsLeastClosure, Seeds, IsMissing;
    SeedsAreMissing(p, pages);
    forall x | x in written ensures x !in p.references && GetPage(x).0 !in p.references {
      WrittenIsUndocumented(p, Seeds(p, pages), ItemSet(written), x);
    }
    forall i, link | 0 <= i < |pages| && link in LinksOf(pages[i])
                     && link.refid !in p.references && GetPage(link.refid).0 !in p.references
      ensures link.refid in written
    {
      PageLinkIsWritten(p, pages, ItemSet(written), i, link);
    }
    forall link | link in Emits(p, ItemSet(written))
                  && link.refid !in p.references && GetPage(link.refid).0 !in p.references
      ensures link.refid in written
    {
      WrittenLinkIsWritten(p, Seeds(p, pages), ItemSet(written), link);
    }
  }

  /** The generator from end to end. When it succeeds, every reference on a page has one note under that page, every
      reference in a written item has its note on the page for missing types, and each of them leads somewhere. */
  method GenerateAll(p: Project, pages: seq<seq<RefNode>>)
    returns (ok: bool, pageNotes: seq<seq<Note>>, written: seq<string>, footnote: seq<Note>)
    ensures ok <==> PagesAreFunctional(pages) && RoundsAreFunctional(p, Seeds(p, pages), {})
    ensures ok ==> NoDuplicates(written) && IsLeastClosure(p, Seeds(p, pages), ItemSet(written))
    ensures ok ==> forall x :: x in written ==> x !in p.references && GetPage(x).0 !in p.references
    ensures ok ==> forall i, link :: 0 <= i < |pages| && link in LinksOf(pages[i])
                                     && link.refid !in p.references && GetPage(link.refid).0 !in p.references
                     ==> link.refid in written
    ensures ok ==> forall link :: link in Emits(p, ItemSet(written))
                                  && link.refid !in p.references && GetPage(link.refid).0 !in p.references
                     ==> link.refid in written
    ensures ok ==> |pageNotes| == |pages|
    ensures ok ==> forall i :: 0 <= i < |pages| ==>
                     AllResolved(p, pageNotes[i], LinksOf(pages[i]), ItemSet(written))
    ensures ok ==> FootnoteResolves(p, footnote, ItemSet(written))
    ensures ok ==> (Unambiguous(NoteSet(footnote)) <==> RoundsKeepNamesApart(p, Seeds(p, pages)))
  {
    hide *;
    var generator := new Generator(p);
    ok, pageNotes, written, footnote := generator.Generate(pages);
    if ok {
      forall i | 0 <= i < |pages| ensures AllResolved(p, pageNotes[i], LinksOf(pages[i]), ItemSet(written)) {
        PageIsResolved(p, pages, i, pageNotes[i], ItemSet(written));
      }
      FootnoteIsResolved(p, Seeds(p, pages), footnote, ItemSet(written));
      LeastClosureIsUnique(p, Seeds(p, pages), ItemSet(written));
      FootnoteIsUnambiguousIff(p, Seeds(p, pages));
      WrittenExactlyIfUndocumented(p, pages, written);
    }
  }

  // ---------------------------------------------------------------- a run that succeeds and is ambiguous

  const CLASHING: Project := Project(
    map["P" := Doc("first", "p"), "Q" := Doc("second", "q")],
    map["a" := [RefNode("P", "compound", "n"), RefNode("b", "compound", "b")], "b" := [RefNode("Q", "compound", "n")]],
    "missing")

  /** A reference to one letter shows that letter. */
  lemma LetterLink(refid: string, kindref: string, letter: string)
    requires |letter| == 1 && !IsSpace(letter[0]) && letter[0] != ':'
    ensures LinkOf(RefNode(refid, kindref, letter)) == Link(letter, refid)
  {
    assert Strip(letter) == letter;
    SplitOfOneField(letter, ':');
  }

  lemma ShortIdIsMissingIff(p: Project, refid: string)
    requires |refid| < 32
    ensures IsMissing(p, refid) <==> refid !in p.references
  {
    GetPageSplitsAtLastUnderscore(refid);
  }

  lemma LinksOfTwo(x: RefNode, y: RefNode)
    ensures LinksOf([x]) == {LinkOf(x)} && LinksOf([x, y]) == {LinkOf(x), LinkOf(y)}
  {
    hide LinkOf;
    assert LinkOf([x][0]) in LinksOf([x]);
    assert LinkOf([x, y][0]) in LinksOf([x, y]) && LinkOf([x, y][1]) in LinksOf([x, y]);
  }

  lemma EmitsOfOne(p: Project, item: string)
    ensures Emits(p, {item}) == LinksOf(Mentions(p, item))
  {
    hide LinkOf;
  }

  /** An item with two references, the second of which leads to a missing item with one. */
  lemma TwoItems(p: Project, a: string, b: string, x: Link, y: Link, z: Link)
    requires a != b && Emits(p, {a}) == {x, y} && Emits(p, {b}) == {z} && x.name != y.name && y.refid == b
    requires !IsMissing(p, x.refid) && IsMissing(p, b) && !IsMissing(p, z.refid)
    ensures RoundsAreFunctional(p, {a}, {}) && AllRounds(p, {a}, {}) == {a, b}
  {
    hide IsMissing, Emits;
    assert y in Emits(p, {a});
    assert Uncovers(p, {a}) == {b} && Uncovers(p, {b}) == {};
    TwoRounds(p, a, b);
  }

  lemma TwoRounds(p: Project, a: string, b: string)
    requires a != b && Uncovers(p, {a}) == {b} && Uncovers(p, {b}) == {}
    requires Functional(Emits(p, {a})) && Functional(Emits(p, {b}))
    ensures RoundsAreFunctional(p, {a}, {}) && AllRounds(p, {a}, {}) == {a, b}
  {
    hide Functional, Emits, Uncovers;
    RoundsCompose(p, {a}, {});
    assert {} + {a} == {a} && NextRound(p, {a}, {}) == {b};
    RoundsCompose(p, {b}, {a});
    assert NextRound(p, {b}, {a}) == {};
    assert AllRounds(p, {}, {a} + {b}) == {} && RoundsAreFunctional(p, {}, {a} + {b});
    assert {a} + AllRounds(p, {b}, {a}) == {a, b};
    assert {} + AllRounds(p, {a}, {}) == AllRounds(p, {a}, {});
  }

  lemma ClashingEmits(p: Project)
    requires p == CLASHING
    ensures Emits(p, {"a"}) == {Link("n", "P"), Link("b", "b")} && Emits(p, {"b"}) == {Link("n", "Q")}
  {
    hide LinkOf, Emits, LinksOf;
    LetterLink("P", "compound", "n");
    LetterLink("b", "compound", "b");
    LetterLink("Q", "compound", "n");
    EmitsOfOne(p, "a");
    EmitsOfOne(p, "b");
    LinksOfTwo(RefNode("P", "compound", "n"), RefNode("b", "compound", "b"));
    LinksOfTwo(RefNode("Q", "compound", "n"), RefNode("Q", "compound", "n"));
  }

  /** One page with one reference to a missing item. */
  lemma OnePage(p: Project, node: RefNode, name: string)
    requires LinkOf(node) == Link(name, node.refid) && IsMissing(p, node.refid)
    ensures PagesAreFunctional([[node]]) && Seeds(p, [[node]]) == {node.refid}
  {
    hide LinkOf, IsMissing;
    var pages := [[node]];
    LinksOfTwo(node, node);
    assert LinksOf(pages[0]) == {LinkOf(node)};
    assert LinkOf(node) in LinksOf(pages[0]);
  }

  lemma TwoTargets(p: Project, items: set<string>, a: string, b: string, x: Link, z: Link)
    requires a in items && b in items && x in Emits(p, {a}) && z in Emits(p, {b}) && x.name == z.name
    requires PageNameFor(p, x.refid) != PageNameFor(p, z.refid)
    ensures !Unambiguous(NotesFor(p, Emits(p, items)))
  {
    hide Emits, PageNameFor, NotesFor;
    EmitsMonotone(p, {a}, items);
    EmitsMonotone(p, {b}, items);
    NotesAreUnambiguousIff(p, items);
  }

  /** The source compares names within one page or round only. Here a page mentions item a; item a of the first round
      and item b of the second show one name for two documented ids. Every assertion of the run holds, and the page for
      missing types has two targets for that name. */
  lemma RoundsDoNotPreventClashes() returns (p: Project, pages: seq<seq<RefNode>>)
    ensures p == CLASHING && pages == [[RefNode("a", "compound", "a")]]
    ensures PagesAreFunctional(pages) && RoundsAreFunctional(p, Seeds(p, pages), {})
    ensures !Unambiguous(NotesFor(p, Emits(p, AllRounds(p, Seeds(p, pages), {}))))
  {
    p, pages := CLASHING, [[RefNode("a", "compound", "a")]];
    hide Functional, Emits, NotesFor, Unambiguous, LinkOf, IsMissing, AllRounds, RoundsAreFunctional,
         PagesAreFunctional, Seeds, GetPage;
    ClashingEmits(p);
    LetterLink("a", "compound", "a");
    ShortIdIsMissingIff(p, "a");
    ShortIdIsMissingIff(p, "b");
    ShortIdIsMissingIff(p, "P");
    ShortIdIsMissingIff(p, "Q");
    OnePage(p, pages[0][0], "a");
    TwoItems(p, "a", "b", Link("n", "P"), Link("b", "b"), Link("n", "Q"));
    TwoTargets(p, {"a", "b"}, "a", "b", Link("n", "P"), Link("n", "Q"));
  }
}
