/** The generator object: its two dictionaries, and the methods that fill and drain them. */
module RstGenerator {
  import opened Common
  import opened RstNames
  import opened RstMissing

  /** What is remembered for a reference key: the id, its kind, and the name that is displayed. */
  datatype PageRef = PageRef(refid: string, kindref: string, name: string)

  /** The list of missing items: for each id, its page and tag. */
  type MissedMap = map<string, (string, Option<string>)>

  function Entries(ids: set<string>): (entries: MissedMap)
    ensures entries.Keys == ids
  {
    map id | id in ids :: GetPage(id)
  }

  ghost predicate WellKeyed(refs: map<string, PageRef>) {
    forall key :: key in refs ==> key == Quote(refs[key].name)
  }

  /** The links that a reference dictionary stands for. */
  function LinksIn(refs: map<string, PageRef>): set<Link> {
    set key | key in refs :: Link(refs[key].name, refs[key].refid)
  }

  lemma QuoteIsInjective(a: string, b: string)
    requires Quote(a) == Quote(b)
    ensures a == b
  {
    assert Quote(a)[1..|Quote(a)| - 1] == a && Quote(b)[1..|Quote(b)| - 1] == b;
  }

  /** A keyed dictionary can hold one id for a name. */
  lemma LinksInIsFunctional(refs: map<string, PageRef>)
    requires WellKeyed(refs)
    ensures Functional(LinksIn(refs))
  {
  }

  lemma LinksInUpdate(refs: map<string, PageRef>, ref: PageRef)
    requires WellKeyed(refs)
    ensures var key := Quote(ref.name);
            key !in refs ==>
              && WellKeyed(refs[key := ref])
              && LinksIn(refs[key := ref]) == LinksIn(refs) + {Link(ref.name, ref.refid)}
  {
    var key := Quote(ref.name);
    if key !in refs {
      var after := refs[key := ref];
      assert after[key] == ref;
      forall l | l in LinksIn(refs) + {Link(ref.name, ref.refid)} ensures l in LinksIn(after) {
        if l in LinksIn(refs) {
          var k :| k in refs && l == Link(refs[k].name, refs[k].refid);
          assert k in after && after[k] == refs[k];
        } else {
          assert key in after;
        }
      }
    }
  }

  lemma LinksOfAppend(nodes: seq<RefNode>, n: nat)
    requires n < |nodes|
    ensures LinksOf(nodes[..n + 1]) == LinksOf(nodes[..n]) + {LinkOf(nodes[n])}
  {
    forall l | l in LinksOf(nodes[..n]) ensures l in LinksOf(nodes[..n + 1]) {
      var i :| 0 <= i < n && l == LinkOf(nodes[..n][i]);
      assert l == LinkOf(nodes[..n + 1][i]);
    }
    assert LinkOf(nodes[n]) == LinkOf(nodes[..n + 1][n]);
  }

  lemma LinksOfPrefix(nodes: seq<RefNode>, n: nat)
    requires n <= |nodes|
    ensures LinksOf(nodes[..n]) <= LinksOf(nodes)
  {
    forall l | l in LinksOf(nodes[..n]) ensures l in LinksOf(nodes) {
      var i :| 0 <= i < n && l == LinkOf(nodes[..n][i]);
      assert l == LinkOf(nodes[i]);
    }
  }

  function NotesFor(p: Project, links: set<Link>): set<Note> {
    set l | l in links :: NoteFor(p, l)
  }

  function NoteSet(notes: seq<Note>): set<Note> {
    set n | n in notes
  }

  predicate KeysAreDistinct(notes: seq<Note>) {
    forall i, j :: 0 <= i < j < |notes| ==> notes[i].key != notes[j].key
  }

  // ---------------------------------------------------------------- one more link

  lemma LinkOfKey(refs: map<string, PageRef>, key: string)
    requires WellKeyed(refs) && key in refs
    ensures key == Quote(refs[key].name) && Link(refs[key].name, refs[key].refid) in LinksIn(refs)
  {
  }

  /** Links that come from the dictionary, one for each key, are all of its links. */
  lemma LinksAreAll(refs: map<string, PageRef>, links: set<Link>)
    requires links <= LinksIn(refs)
    requires forall key :: key in refs ==> Link(refs[key].name, refs[key].refid) in links
    ensures links == LinksIn(refs)
  {
  }

  lemma NothingNoted(p: Project, before: MissedMap)
    ensures NoteSet([]) == NotesFor(p, {}) && KeysAreDistinct([]) && before == before + Entries(MissingIn(p, {}))
  {
    assert MissingIn(p, {}) == {};
  }

  lemma NotesStep(p: Project, notes: seq<Note>, links: set<Link>, link: Link)
    requires NoteSet(notes) == NotesFor(p, links)
    ensures NoteSet(notes + [NoteFor(p, link)]) == NotesFor(p, links + {link})
    ensures NoteFor(p, link).key == Quote(link.name)
  {
    var note := NoteFor(p, link);
    assert NoteSet(notes + [note]) == NoteSet(notes) + {note};
    assert NotesFor(p, links + {link}) == NotesFor(p, links) + {note};
  }

  lemma KeysStep(notes: seq<Note>, note: Note)
    requires KeysAreDistinct(notes) && forall i :: 0 <= i < |notes| ==> notes[i].key != note.key
    ensures KeysAreDistinct(notes + [note])
  {
  }

  lemma MissingInAdd(p: Project, links: set<Link>, link: Link)
    ensures MissingIn(p, links + {link})
            == if IsMissing(p, link.refid) then MissingIn(p, links) + {link.refid} else MissingIn(p, links)
  {
    assert IsMissing(p, link.refid) ==> link.refid in MissingIn(p, links + {link});
  }

  lemma EntriesAdd(before: MissedMap, ids: set<string>, id: string)
    ensures before + Entries(ids + {id}) == (before + Entries(ids))[id := GetPage(id)]
  {
    hide GetPage;
    var a, b := before + Entries(ids + {id}), (before + Entries(ids))[id := GetPage(id)];
    assert a.Keys == b.Keys;
    forall key | key in a ensures a[key] == b[key] { }
  }

  lemma MissedStep(p: Project, before: MissedMap, links: set<Link>, link: Link, list: MissedMap, longer: MissedMap)
    requires list == before + Entries(MissingIn(p, links))
    requires longer == if IsMissing(p, link.refid) then list[link.refid := GetPage(link.refid)] else list
    ensures longer == before + Entries(MissingIn(p, links + {link}))
  {
    hide MissingIn, IsMissing, Entries, GetPage;
    MissingInAdd(p, links, link);
    EntriesAdd(before, MissingIn(p, links), link.refid);
  }

  /** What is kept of the list after a round. */
  lemma FilteredEntries(p: Project, round: set<string>, done: set<string>, list: MissedMap, visited: MissedMap)
    requires list == Entries(Uncovers(p, round)) && visited.Keys == done + round
    ensures (map key | key in list && key !in visited :: list[key]) == Entries(NextRound(p, round, done))
  {
  }

  function ItemSet(items: seq<string>): set<string> {
    set x | x in items
  }

  lemma ItemSetAppend(items: seq<string>, item: string)
    ensures ItemSet(items + [item]) == ItemSet(items) + {item}
    ensures NoDuplicates(items) && item !in ItemSet(items) ==> NoDuplicates(items + [item])
  {
  }

  lemma EmitsAdd(p: Project, items: set<string>, item: string)
    ensures Emits(p, items + {item}) == Emits(p, items) + LinksOf(Mentions(p, item))
  {
  }

  lemma EmitsMonotone(p: Project, a: set<string>, b: set<string>)
    requires a <= b
    ensures Emits(p, a) <= Emits(p, b)
  {
  }

  lemma RoundsCompose(p: Project, round: set<string>, done: set<string>)
    requires round !! done && round != {}
    ensures var next := NextRound(p, round, done);
            && done + AllRounds(p, round, done) == (done + round) + AllRounds(p, next, done + round)
            && (Functional(Emits(p, round)) ==>
                  (RoundsAreFunctional(p, round, done) <==> RoundsAreFunctional(p, next, done + round)))
  {
    RoundShrinks(p, round, done);
  }

  lemma ItemsCompose(a: seq<string>, b: seq<string>)
    ensures ItemSet(a + b) == ItemSet(a) + ItemSet(b)
    ensures NoDuplicates(a) && NoDuplicates(b) && ItemSet(a) !! ItemSet(b) ==> NoDuplicates(a + b)
  {
    if NoDuplicates(a) && NoDuplicates(b) && ItemSet(a) !! ItemSet(b) {
      forall i, j | 0 <= i < j < |a + b| ensures (a + b)[i] != (a + b)[j] {
        if i < |a| <= j { assert a[i] in ItemSet(a) && b[j - |a|] in ItemSet(b); }
      }
    }
  }

  lemma NotesCompose(p: Project, a: set<string>, b: set<string>, xs: seq<Note>, ys: seq<Note>)
    requires NoteSet(xs) == NotesFor(p, Emits(p, a)) && NoteSet(ys) == NotesFor(p, Emits(p, b))
    ensures NoteSet(xs + ys) == NotesFor(p, Emits(p, a + b))
  {
    UncoversUnion(p, a, b);
    assert NoteSet(xs + ys) == NoteSet(xs) + NoteSet(ys);
    NotesForUnion(p, Emits(p, a), Emits(p, b));
  }

  lemma NotesForUnion(p: Project, a: set<Link>, b: set<Link>)
    ensures NotesFor(p, a + b) == NotesFor(p, a) + NotesFor(p, b)
  {
  }

  /** No page uses one name for two ids. */
  ghost predicate PagesAreFunctional(pages: seq<seq<RefNode>>) {
    forall i :: 0 <= i < |pages| ==> Functional(LinksOf(pages[i]))
  }

  /** The missing ids that the pages mention. */
  function Seeds(p: Project, pages: seq<seq<RefNode>>): set<string> {
    set i, l | 0 <= i < |pages| && l in LinksOf(pages[i]) && IsMissing(p, l.refid) :: l.refid
  }

  lemma SeedsAppend(p: Project, pages: seq<seq<RefNode>>, n: nat)
    requires n < |pages|
    ensures Seeds(p, pages[..n + 1]) == Seeds(p, pages[..n]) + MissingIn(p, LinksOf(pages[n]))
  {
    var before, after := pages[..n], pages[..n + 1];
    forall r | r in Seeds(p, before) + MissingIn(p, LinksOf(pages[n])) ensures r in Seeds(p, after) {
      if r in Seeds(p, before) {
        var i, l :| 0 <= i < n && l in LinksOf(before[i]) && IsMissing(p, l.refid) && r == l.refid;
        assert l in LinksOf(after[i]);
      } else {
        var l :| l in LinksOf(pages[n]) && IsMissing(p, l.refid) && r == l.refid;
        assert l in LinksOf(after[n]);
      }
    }
    forall r | r in Seeds(p, after) ensures r in Seeds(p, before) + MissingIn(p, LinksOf(pages[n])) {
      var i, l :| 0 <= i < n + 1 && l in LinksOf(after[i]) && IsMissing(p, l.refid) && r == l.refid;
      if i < n { assert l in LinksOf(before[i]); }
    }
  }

  lemma NoSeeds(p: Project, pages: seq<seq<RefNode>>)
    ensures map[] == Entries(Seeds(p, pages[..0]))
  {
    assert Seeds(p, pages[..0]) == {};
  }

  lemma SeedsStep(p: Project, pages: seq<seq<RefNode>>, n: nat)
    requires n < |pages|
    ensures Entries(Seeds(p, pages[..n])) + Entries(MissingIn(p, LinksOf(pages[n])))
            == Entries(Seeds(p, pages[..n + 1]))
  {
    hide Seeds, MissingIn, LinksOf;
    SeedsAppend(p, pages, n);
  }

  /** The page has a note for each of its links, each under its own key, and no others. */
  ghost predicate PageIsNoted(p: Project, page: seq<RefNode>, notes: seq<Note>) {
    KeysAreDistinct(notes) && NoteSet(notes) == NotesFor(p, LinksOf(page))
  }

  class Generator {
    const project: Project
    var pageReferences: map<string, PageRef>
    var missed: MissedMap

    constructor (project: Project)
      ensures this.project == project && pageReferences == map[] && missed == map[]
    {
      this.project := project;
      pageReferences := map[];
      missed := map[];
    }

    /** Records one reference. The result is false when the source's assertion fails. */
    method BuildRef(node: RefNode) returns (ok: bool)
      requires WellKeyed(pageReferences)
      modifies `pageReferences
      ensures WellKeyed(pageReferences)
      ensures ok <==> Functional(LinksIn(old(pageReferences)) + {LinkOf(node)})
      ensures ok ==> LinksIn(pageReferences) == LinksIn(old(pageReferences)) + {LinkOf(node)}
      ensures !ok ==> pageReferences == old(pageReferences)
    {
      ghost var before := LinksIn(pageReferences);
      LinksInIsFunctional(pageReferences);
      var name := NameOf(node);
      var target := Quote(name);
      if target in pageReferences {
        var reflink := pageReferences[target];
        QuoteIsInjective(reflink.name, name);
        assert Link(name, reflink.refid) in before;
        ok := reflink.refid == node.refid;
        if ok {
          assert before + {LinkOf(node)} == before;
        } else {
          assert LinkOf(node) in before + {LinkOf(node)};
        }
      } else {
        var ref := PageRef(node.refid, node.kindref, name);
        LinksInUpdate(pageReferences, ref);
        pageReferences := pageReferences[target := ref];
        LinksInIsFunctional(pageReferences);
        ok := true;
      }
    }

    /** Renders a text: every reference in it is recorded in order, up to the first one that fails. */
    method Render(nodes: seq<RefNode>) returns (ok: bool)
      requires WellKeyed(pageReferences)
      modifies `pageReferences
      ensures WellKeyed(pageReferences)
      ensures ok <==> Functional(LinksIn(old(pageReferences)) + LinksOf(nodes))
      ensures ok ==> LinksIn(pageReferences) == LinksIn(old(pageReferences)) + LinksOf(nodes)
    {
      ghost var before := LinksIn(pageReferences);
      for i := 0 to |nodes|
        invariant WellKeyed(pageReferences)
        invariant LinksIn(pageReferences) == before + LinksOf(nodes[..i])
      {
        LinksOfAppend(nodes, i);
        assert before + LinksOf(nodes[..i]) + {LinkOf(nodes[i])} == before + LinksOf(nodes[..i + 1]);
        ok := BuildRef(nodes[i]);
        if !ok {
          LinksOfPrefix(nodes, i + 1);
          return;
        }
      }
      assert nodes[..|nodes|] == nodes;
      LinksInIsFunctional(pageReferences);
      ok := true;
    }

    /** An id documented neither itself nor through its page is put on the list of missing items. */
    method RecordIfMissing(refid: string)
      modifies `missed
      ensures missed == if IsMissing(project, refid) then old(missed)[refid := GetPage(refid)] else old(missed)
    {
      var (page, tag) := GetPage(refid);
      if refid !in project.references && page !in project.references {
        missed := missed[refid := (page, tag)];
      }
    }

    /** Resolves and forgets every recorded reference, in whatever order the dictionary is walked. */
    method BuildPageRefNotes() returns (notes: seq<Note>)
      requires WellKeyed(pageReferences)
      modifies `pageReferences, `missed
      ensures pageReferences == map[]
      ensures NoteSet(notes) == NotesFor(project, LinksIn(old(pageReferences)))
      ensures KeysAreDistinct(notes)
      ensures missed == old(missed) + Entries(MissingIn(project, LinksIn(old(pageReferences))))
    {
      hide *;
      ghost var refs, before := pageReferences, missed;
      ghost var links: set<Link> := {};
      notes := [];
      NothingNoted(project, before);
      var todo := pageReferences.Keys;
      while todo != {}
        invariant todo <= refs.Keys && pageReferences == refs
        invariant links <= LinksIn(refs)
        invariant forall key :: key in refs && key !in todo ==> Link(refs[key].name, refs[key].refid) in links
        invariant NoteSet(notes) == NotesFor(project, links)
        invariant KeysAreDistinct(notes) && forall i :: 0 <= i < |notes| ==> notes[i].key !in todo
        invariant missed == before + Entries(MissingIn(project, links))
      {
        var key :| key in todo;
        var value := pageReferences[key];
        ghost var link, list := Link(value.name, value.refid), missed;
        LinkOfKey(refs, key);
        NotesStep(project, notes, links, link);
        var note := NoteFor(project, Link(value.name, value.refid));
        KeysStep(notes, note);
        RecordIfMissing(value.refid);
        MissedStep(project, before, links, link, list, missed);
        notes := notes + [note];
        links := links + {link};
        todo := todo - {key};
      }
      LinksAreAll(refs, links);
      pageReferences := map[];
    }

    /** Renders every item on the missing list, in whatever order the dictionary is walked. */
    method RenderRound() returns (ok: bool, items: seq<string>)
      requires pageReferences == map[]
      modifies `pageReferences
      ensures WellKeyed(pageReferences)
      ensures ok <==> Functional(Emits(project, missed.Keys))
      ensures ok ==> LinksIn(pageReferences) == Emits(project, missed.Keys)
      ensures ok ==> NoDuplicates(items) && ItemSet(items) == missed.Keys
    {
      items := [];
      var todo := missed.Keys;
      ghost var done: set<string> := {};
      while todo != {}
        invariant todo !! done && todo + done == missed.Keys
        invariant NoDuplicates(items) && ItemSet(items) == done
        invariant WellKeyed(pageReferences) && LinksIn(pageReferences) == Emits(project, done)
      {
        var key :| key in todo;
        EmitsAdd(project, done, key);
        ok := Render(Mentions(project, key));
        if !ok {
          assert done + {key} <= missed.Keys;
          EmitsMonotone(project, done + {key}, missed.Keys);
          return;
        }
        ItemSetAppend(items, key);
        items := items + [key];
        todo, done := todo - {key}, done + {key};
      }
      assert done == missed.Keys;
      LinksInIsFunctional(pageReferences);
      ok := true;
    }

    /** One turn of the missing-types loop: render the missing items, resolve what they mention, and keep of the newly
        missing ones those that were not written before. */
    method FinishRound(notFound: MissedMap) returns (ok: bool, items: seq<string>, notes: seq<Note>, visited: MissedMap)
      requires pageReferences == map[]
      modifies `pageReferences, `missed
      ensures ok <==> Functional(Emits(project, old(missed.Keys)))
      ensures ok ==> pageReferences == map[] && missed == Entries(NextRound(project, old(missed.Keys), notFound.Keys))
      ensures ok ==> NoDuplicates(items) && ItemSet(items) == old(missed.Keys)
      ensures ok ==> visited == notFound + old(missed)
      ensures ok ==> NoteSet(notes) == NotesFor(project, Emits(project, old(missed.Keys)))
    {
      hide NextRound, NoteSet, NotesFor, Entries, Functional, Emits, ItemSet, NoDuplicates, MissingIn, LinksIn;
      ghost var round := missed.Keys;
      notes, visited := [], notFound;
      ok, items := RenderRound();
      if !ok { return; }
      visited := notFound + missed;
      missed := map[];
      notes := BuildPageRefNotes();
      FilteredEntries(project, round, notFound.Keys, missed, visited);
      missed := map key | key in missed && key !in visited :: missed[key];
    }

    /** The page for missing types. Returns the items in the order in which they are written, and the notes that follow
        them. */
    method BuildMissedTypesAndStructs() returns (ok: bool, written: seq<string>, footnote: seq<Note>)
      requires pageReferences == map[]
      modifies `pageReferences, `missed
      ensures ok <==> RoundsAreFunctional(project, old(missed.Keys), {})
      ensures ok ==> NoDuplicates(written) && IsLeastClosure(project, old(missed.Keys), ItemSet(written))
      ensures ok ==> NoteSet(footnote) == NotesFor(project, Emits(project, ItemSet(written)))
      ensures ok ==> pageReferences == map[] && missed == map[]
    {
      ghost var seeds := missed.Keys;
      written, footnote := [], [];
      var notFound: MissedMap := map[];
      assert notFound.Keys == {} == ItemSet(written);
      while |missed| > 0
        invariant pageReferences == map[]
        invariant notFound.Keys == ItemSet(written) && NoDuplicates(written)
        invariant missed.Keys !! notFound.Keys
        invariant RoundsAreFunctional(project, missed.Keys, notFound.Keys) <==> RoundsAreFunctional(project, seeds, {})
        invariant notFound.Keys + AllRounds(project, missed.Keys, notFound.Keys) == AllRounds(project, seeds, {})
        invariant NoteSet(footnote) == NotesFor(project, Emits(project, notFound.Keys))
        decreases (Universe(project) + missed.Keys) - notFound.Keys
      {
        ghost var round, done := missed.Keys, notFound.Keys;
        assert round != {};
        RoundShrinks(project, round, done);
        var items, notes;
        ok, items, notes, notFound := FinishRound(notFound);
        if !ok { return; }
        RoundsCompose(project, round, done);
        ItemsCompose(written, items);
        NotesCompose(project, done, round, footnote, notes);
        written := written + items;
        footnote := footnote + notes;
      }
      assert missed.Keys == {};
      AllRoundsIsLeastClosure(project, seeds);
      ok := true;
    }

    /** One page: it is rendered, and its references are resolved. */
    method RenderPage(page: seq<RefNode>) returns (ok: bool, notes: seq<Note>)
      requires pageReferences == map[]
      modifies `pageReferences, `missed
      ensures ok <==> Functional(LinksOf(page))
      ensures ok ==> pageReferences == map[] && PageIsNoted(project, page, notes)
      ensures ok ==> missed == old(missed) + Entries(MissingIn(project, LinksOf(page)))
    {
      hide Functional, LinksOf, NoteSet, NotesFor, MissingIn, Entries, KeysAreDistinct;
      notes := [];
      assert LinksIn(pageReferences) + LinksOf(page) == LinksOf(page);
      ok := Render(page);
      if ok { notes := BuildPageRefNotes(); }
    }

    /** The whole run: every page is rendered and its references resolved, then the page for missing types. */
    method Generate(pages: seq<seq<RefNode>>)
      returns (ok: bool, pageNotes: seq<seq<Note>>, written: seq<string>, footnote: seq<Note>)
      requires pageReferences == map[] && missed == map[]
      modifies `pageReferences, `missed
      ensures ok <==> PagesAreFunctional(pages) && RoundsAreFunctional(project, Seeds(project, pages), {})
      ensures ok ==> |pageNotes| == |pages|
      ensures ok ==> forall i :: 0 <= i < |pages| ==> PageIsNoted(project, pages[i], pageNotes[i])
      ensures ok ==> NoDuplicates(written) && IsLeastClosure(project, Seeds(project, pages), ItemSet(written))
      ensures ok ==> NoteSet(footnote) == NotesFor(project, Emits(project, ItemSet(written)))
    {
      hide Functional, LinksOf, Seeds, Entries, NoteSet, NotesFor, MissingIn, RoundsAreFunctional, Emits, ItemSet,
           IsLeastClosure, NoDuplicates, PageIsNoted;
      pageNotes, written, footnote := [], [], [];
      NoSeeds(project, pages);
      for i := 0 to |pages|
        invariant pageReferences == map[] && |pageNotes| == i
        invariant missed == Entries(Seeds(project, pages[..i]))
        invariant forall k :: 0 <= k < i ==>
                    Functional(LinksOf(pages[k])) && PageIsNoted(project, pages[k], pageNotes[k])
      {
        var notes;
        ok, notes := RenderPage(pages[i]);
        if !ok { return; }
        SeedsStep(project, pages, i);
        pageNotes := pageNotes + [notes];
      }
      assert pages[..|pages|] == pages;
      ok, written, footnote := BuildMissedTypesAndStructs();
    }
  }
}
