/** Cross references of the RST generator: what is recorded while rendering, how each reference is resolved, and
    which items end up on the page for missing types. */
module RstMissing {
  import opened Common
  import opened PyText
  import opened RstNames

  /** A `ref` element of the Doxygen XML. */
  datatype RefNode = RefNode(refid: string, kindref: string, text: string)

  /** What is remembered about a documented id: the page it is documented on and the slug of its title. */
  datatype Doc = Doc(pageName: string, titleRef: string)

  /** The inputs of a run. `mentions` lists the references that rendering an item emits. */
  datatype Project = Project(references: map<string, Doc>, mentions: map<string, seq<RefNode>>, missingPage: string)

  /** A displayed name and the id it stands for. */
  datatype Link = Link(name: string, refid: string)

  /** A link target line: key, page and anchor. */
  datatype Note = Note(key: string, rstName: string, anchor: string)

  // ---------------------------------------------------------------- names and targets

  function Strip(s: string): string
    decreases |s|
  {
    if s != "" && IsSpace(s[0]) then Strip(s[1..])
    else if s != "" && IsSpace(s[|s| - 1]) then Strip(s[..|s| - 1])
    else s
  }

  /** The part of the text after its last colon. */
  function NameOf(node: RefNode): string {
    var tokens := SplitOn(Strip(node.text), ':');
    tokens[|tokens| - 1]
  }

  function LinkOf(node: RefNode): Link {
    Link(NameOf(node), node.refid)
  }

  function Quote(name: string): (key: string)
    ensures |key| == |name| + 2 && key[1..|key| - 1] == name
  {
    "`" + name + "`"
  }

  lemma StripOf(s: string)
    ensures s == "" ==> Strip(s) == ""
    ensures s != "" && IsSpace(s[0]) ==> Strip(s) == Strip(s[1..])
    ensures s != "" && !IsSpace(s[0]) && IsSpace(s[|s| - 1]) ==> Strip(s) == Strip(s[..|s| - 1])
    ensures s != "" && !IsSpace(s[0]) && !IsSpace(s[|s| - 1]) ==> Strip(s) == s
  {
  }

  /** Stripping takes whitespace off both ends, all of it and nothing else. */
  lemma {:induction false} StripTakesSpaces(s: string) returns (a: string, b: string)
    ensures s == a + (Strip(s) + b)
    ensures forall c :: c in a || c in b ==> IsSpace(c)
    ensures Strip(s) == "" || (!IsSpace(Strip(s)[0]) && !IsSpace(Strip(s)[|Strip(s)| - 1]))
    decreases |s|
  {
    hide Strip, IsSpace;
    StripOf(s);
    if s == "" || (!IsSpace(s[0]) && !IsSpace(s[|s| - 1])) {
      a, b := "", "";
      assert s == "" + (s + "");
    } else if IsSpace(s[0]) {
      var a';
      a', b := StripTakesSpaces(s[1..]);
      a := [s[0]] + a';
      ConcatAssoc([s[0]], a', Strip(s) + b);
      assert s == [s[0]] + s[1..];
    } else {
      var b';
      a, b' := StripTakesSpaces(s[..|s| - 1]);
      b := b' + [s[|s| - 1]];
      ConcatAssoc(Strip(s), b', [s[|s| - 1]]);
      ConcatAssoc(a, Strip(s) + b', [s[|s| - 1]]);
      assert s == s[..|s| - 1] + [s[|s| - 1]];
    }
  }

  /** The displayed name is the stripped text, or what follows its last colon. */
  lemma NameIsAfterLastColon(node: RefNode) returns (q: string)
    ensures ':' !in NameOf(node)
    ensures Strip(node.text) == NameOf(node) || Strip(node.text) == q + ":" + NameOf(node)
    ensures ':' !in Strip(node.text) ==> Strip(node.text) == NameOf(node)
  {
    var text := Strip(node.text);
    var tokens := SplitOn(text, ':');
    JoinUndoesSplit(text, ':');
    FieldsLackSeparator(text, ':');
    q := Join(tokens[..|tokens| - 1], ':');
    if |tokens| >= 2 { JoinLast(tokens, ':'); }
    if ':' !in text { SplitOfOneField(text, ':'); }
  }

  /** A reference key is the name between backquotes. */
  lemma KeyIsQuotedName(name: string)
    ensures Quote(name) == ['`'] + name + ['`']
  {
  }

  /** `s.split("::")[-1]` */
  function AfterDoubleColon(s: string): string
    decreases |s|
  {
    AfterDoubleColonFrom(s, 0)
  }

  function AfterDoubleColonFrom(s: string, i: nat): string
    requires i <= |s|
    decreases |s| - i
  {
    if |s| < i + 2 then s
    else if s[i] == ':' && s[i + 1] == ':' then AfterDoubleColonFrom(s[i + 2..], 0)
    else AfterDoubleColonFrom(s, i + 1)
  }

  /** Two colons at position `i`. */
  predicate ColonsAt(s: string, i: nat) {
    i + 1 < |s| && s[i] == ':' && s[i + 1] == ':'
  }

  lemma {:induction false} NoColonsFrom(s: string, i: nat)
    requires i <= |s| && forall k: nat :: i <= k ==> !ColonsAt(s, k)
    ensures AfterDoubleColonFrom(s, i) == s
    decreases |s| - i
  {
    if i + 2 <= |s| {
      assert !ColonsAt(s, i);
      NoColonsFrom(s, i + 1);
    }
  }

  lemma {:induction false} ColonsFrom(head: string, tail: string, i: nat)
    requires i <= |head| && forall k: nat :: i <= k ==> !ColonsAt(head + ":", k)
    ensures AfterDoubleColonFrom(head + "::" + tail, i) == AfterDoubleColon(tail)
    decreases |head| - i
  {
    var s := head + "::" + tail;
    assert forall k: nat :: k < |head| + 1 ==> s[k] == (head + ":")[k];
    if i == |head| {
      assert s[i + 2..] == tail;
    } else {
      assert !ColonsAt(head + ":", i);
      ColonsFrom(head, tail, i + 1);
    }
  }

  /** The split goes from left to right: a text without "::" is kept, and all before the first "::" is dropped. */
  lemma SplitsAtDoubleColons(head: string, tail: string)
    ensures (forall k: nat :: !ColonsAt(head, k)) ==> AfterDoubleColon(head) == head
    ensures (forall k: nat :: !ColonsAt(head + ":", k))
            ==> AfterDoubleColon(head + "::" + tail) == AfterDoubleColon(tail)
  {
    if forall k: nat :: !ColonsAt(head, k) { NoColonsFrom(head, 0); }
    if forall k: nat :: !ColonsAt(head + ":", k) { ColonsFrom(head, tail, 0); }
  }

  // ---------------------------------------------------------------- resolution

  predicate IsMissing(p: Project, refid: string) {
    refid !in p.references && GetPage(refid).0 !in p.references
  }

  /** The link target line for a link. The anchor of an item on its enclosing page is the item's own name; the case of
      an id that is itself a page id cannot reach the second branch, but the source writes it. */
  function NoteFor(p: Project, link: Link): Note {
    var page := GetPage(link.refid).0;
    var anchor := Lower(link.name);
    if link.refid in p.references then Note(Quote(link.name), p.references[link.refid].pageName, anchor)
    else if page in p.references then
      var doc := p.references[page];
      Note(Quote(link.name), doc.pageName, if link.refid != page then AfterDoubleColon(anchor) else doc.titleRef)
    else Note(Quote(link.name), p.missingPage, anchor)
  }

  // ---------------------------------------------------------------- links and closures

  function LinksOf(nodes: seq<RefNode>): (links: set<Link>) {
    set i | 0 <= i < |nodes| :: LinkOf(nodes[i])
  }

  function Mentions(p: Project, item: string): seq<RefNode> {
    if item in p.mentions then p.mentions[item] else []
  }

  /** The links that rendering all of these items emits. */
  function Emits(p: Project, items: set<string>): set<Link> {
    set x, i | x in items && 0 <= i < |Mentions(p, x)| :: LinkOf(Mentions(p, x)[i])
  }

  /** No name stands for two ids. */
  ghost predicate Functional(links: set<Link>) {
    forall a, b :: a in links && b in links && a.name == b.name ==> a.refid == b.refid
  }

  function MissingIn(p: Project, links: set<Link>): set<string> {
    set l | l in links && IsMissing(p, l.refid) :: l.refid
  }

  /** The missing ids that rendering all of these items mentions. */
  function Uncovers(p: Project, items: set<string>): set<string> {
    MissingIn(p, Emits(p, items))
  }

  ghost predicate IsClosed(p: Project, items: set<string>) {
    Uncovers(p, items) <= items
  }

  /** The items that missing ids lead to, and nothing else. */
  ghost predicate IsLeastClosure(p: Project, seeds: set<string>, items: set<string>) {
    && seeds <= items
    && IsClosed(p, items)
    && forall s :: seeds <= s && IsClosed(p, s) ==> items <= s
  }

  lemma UncoversMonotone(p: Project, a: set<string>, b: set<string>)
    requires a <= b
    ensures Uncovers(p, a) <= Uncovers(p, b)
  {
  }

  lemma UncoversUnion(p: Project, a: set<string>, b: set<string>)
    ensures Uncovers(p, a + b) == Uncovers(p, a) + Uncovers(p, b)
    ensures Emits(p, a + b) == Emits(p, a) + Emits(p, b)
  {
  }

  /** All that any round can ever add. */
  function Universe(p: Project): set<string> {
    Uncovers(p, p.mentions.Keys)
  }

  lemma UncoversInUniverse(p: Project, items: set<string>)
    ensures Uncovers(p, items) <= Universe(p)
  {
  }

  // ---------------------------------------------------------------- rounds

  function NextRound(p: Project, round: set<string>, done: set<string>): set<string> {
    Uncovers(p, round) - (done + round)
  }

  /** What is left to visit shrinks with every round that is not empty. */
  lemma RoundShrinks(p: Project, round: set<string>, done: set<string>)
    requires round != {} && round !! done
    ensures (Universe(p) + NextRound(p, round, done)) - (done + round) < (Universe(p) + round) - done
  {
    UncoversInUniverse(p, round);
    var x :| x in round;
    assert x in (Universe(p) + round) - done;
  }

  /** All the items of this round and the later ones. */
  ghost function AllRounds(p: Project, round: set<string>, done: set<string>): set<string>
    requires round !! done
    decreases (Universe(p) + round) - done
  {
    if round == {} then {}
    else
      RoundShrinks(p, round, done);
      round + AllRounds(p, NextRound(p, round, done), done + round)
  }

  /** No round, taken on its own, uses one name for two ids. */
  ghost predicate RoundsAreFunctional(p: Project, round: set<string>, done: set<string>)
    requires round !! done
    decreases (Universe(p) + round) - done
  {
    round == {} ||
    (RoundShrinks(p, round, done);
     && Functional(Emits(p, round))
     && RoundsAreFunctional(p, NextRound(p, round, done), done + round))
  }

  /** Round by round, everything is reached and nothing that a closed set could do without. */
  lemma {:induction false} AllRoundsClose(p: Project, round: set<string>, done: set<string>)
    requires round !! done && Uncovers(p, done) <= done + round
    ensures IsClosed(p, done + AllRounds(p, round, done))
    ensures round <= AllRounds(p, round, done)
    ensures forall s :: done + round <= s && IsClosed(p, s) ==> AllRounds(p, round, done) <= s
    decreases (Universe(p) + round) - done
  {
    if round == {} {
      assert done + AllRounds(p, round, done) == done == done + round;
    } else {
      RoundShrinks(p, round, done);
      var next, done' := NextRound(p, round, done), done + round;
      UncoversUnion(p, done, round);
      AllRoundsClose(p, next, done');
      assert done + AllRounds(p, round, done) == done' + AllRounds(p, next, done');
      forall s | done + round <= s && IsClosed(p, s) ensures AllRounds(p, round, done) <= s {
        UncoversMonotone(p, round, s);
        assert done' + next <= s;
      }
    }
  }

  lemma AllRoundsIsLeastClosure(p: Project, seeds: set<string>)
    ensures IsLeastClosure(p, seeds, AllRounds(p, seeds, {}))
  {
    AllRoundsClose(p, seeds, {});
    assert {} + AllRounds(p, seeds, {}) == AllRounds(p, seeds, {});
    assert {} + seeds == seeds;
    assert Emits(p, {}) == {};
  }

  /** The closure is one set, so no order of visiting can change it. */
  lemma LeastClosureIsUnique(p: Project, seeds: set<string>, a: set<string>)
    ensures IsLeastClosure(p, seeds, a) <==> a == AllRounds(p, seeds, {})
  {
    AllRoundsIsLeastClosure(p, seeds);
  }

  /** Names that are unambiguous over all missing items are unambiguous in every round. */
  lemma {:induction false} FunctionalOverallThenPerRound(p: Project, round: set<string>, done: set<string>)
    requires round !! done && Functional(Emits(p, AllRounds(p, round, done)))
    ensures RoundsAreFunctional(p, round, done)
    decreases (Universe(p) + round) - done
  {
    if round != {} {
      RoundShrinks(p, round, done);
      var next, done' := NextRound(p, round, done), done + round;
      UncoversUnion(p, round, AllRounds(p, next, done'));
      FunctionalOverallThenPerRound(p, next, done');
    }
  }
}
