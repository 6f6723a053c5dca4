/** Whole runs of the room server's objects: any sequence of arrivals, messages and departures. */
module RoomRuns {
  import opened Common
  import opened RoomSpec
  import opened RoomInvariants
  import opened RoomVenue
  import opened RoomServer

  /** What clients do. A connection is named by how many were accepted before it. */
  datatype Action = Arrive(room: RoomId) | Say(n: nat, cmd: Command) | Leave(n: nat)

  /** How many connections the actions open. */
  function Arrivals(actions: seq<Action>): nat {
    if actions == [] then 0
    else Arrivals(actions[..|actions| - 1]) + (if actions[|actions| - 1].Arrive? then 1 else 0)
  }

  /** What the transport makes of an action after history `h` with `k` connections accepted: only open connections
      deliver messages, and only accepted ones close. */
  function Delivered(a: Action, h: History, cs: seq<Connection>, k: nat): seq<Event>
    requires k + (if a.Arrive? then 1 else 0) <= |cs|
  {
    match a
    case Arrive(room) => [Join(cs[k], room)]
    case Say(n, cmd) => if n < k && IsOpen(h, cs[n]) then [Message(cs[n], cmd)] else []
    case Leave(n) => if n < k then [Close(cs[n])] else []
  }

  /** The history of the actions, where `cs` are the connections in the order in which they are accepted. */
  function HistoryOf(actions: seq<Action>, cs: seq<Connection>): History
    requires Arrivals(actions) <= |cs|
  {
    if actions == [] then []
    else
      var before, a := actions[..|actions| - 1], actions[|actions| - 1];
      var h := HistoryOf(before, cs);
      h + Delivered(a, h, cs, Arrivals(before))
  }

  lemma {:induction false} HistoryOfPrefix(actions: seq<Action>, cs: seq<Connection>, more: seq<Connection>)
    requires Arrivals(actions) <= |cs|
    ensures HistoryOf(actions, cs + more) == HistoryOf(actions, cs)
  {
    if actions != [] { HistoryOfPrefix(actions[..|actions| - 1], cs, more); }
  }

  lemma HistoryOfStep(actions: seq<Action>, a: Action, cs: seq<Connection>, more: seq<Connection>)
    requires |cs| == Arrivals(actions) && |more| == if a.Arrive? then 1 else 0
    ensures Arrivals(actions + [a]) == |cs + more|
    ensures HistoryOf(actions + [a], cs + more)
            == HistoryOf(actions, cs) + Delivered(a, HistoryOf(actions, cs), cs + more, |cs|)
  {
    assert (actions + [a])[..|actions|] == actions;
    HistoryOfPrefix(actions, cs, more);
  }

  // ---------------------------------------------------------------- every history is the history of some actions

  /** The connections in the order in which they joined. */
  function Joiners(h: History): seq<Connection> {
    if h == [] then []
    else Joiners(h[..|h| - 1]) + (if h[|h| - 1].Join? then [h[|h| - 1].c] else [])
  }

  function Place(cs: seq<Connection>, c: Connection): (n: nat)
    ensures c in cs ==> n < |cs| && cs[n] == c
  {
    if cs == [] || cs[|cs| - 1] == c then (if cs == [] then 0 else |cs| - 1) else Place(cs[..|cs| - 1], c)
  }

  function ActionOf(e: Event, cs: seq<Connection>): Action {
    match e
    case Join(_, room) => Arrive(room)
    case Message(c, cmd) => Say(Place(cs, c), cmd)
    case Close(c) => Leave(Place(cs, c))
  }

  function ActionsOf(h: History): seq<Action> {
    if h == [] then []
    else
      var before := h[..|h| - 1];
      ActionsOf(before) + [ActionOf(h[|h| - 1], Joiners(before))]
  }

  lemma {:induction false} JoinersHaveHomes(h: History, c: Connection)
    ensures c in Joiners(h) <==> c in Homes(h)
  {
    if h != [] { JoinersHaveHomes(h[..|h| - 1], c); }
  }

  lemma ActionDelivers(before: History, e: Event)
    requires IsHistory(before + [e])
    ensures var cs := Joiners(before);
            Delivered(ActionOf(e, cs), before, cs + (if e.Join? then [e.c] else []), |cs|) == [e]
  {
    assert (before + [e])[..|before|] == before;
    hide Joiners, IsHistory, Homes;
    JoinersHaveHomes(before, e.c);
    if e.Message? { MembersAreOpenAtHome(before, e.c, ""); }
  }

  /** Nothing that the transport can deliver is missed: every history is the history of some actions. */
  lemma {:induction false} EveryHistoryIsServed(h: History)
    requires IsHistory(h)
    ensures Arrivals(ActionsOf(h)) == |Joiners(h)| && HistoryOf(ActionsOf(h), Joiners(h)) == h
  {
    if h != [] {
      var before, e := h[..|h| - 1], h[|h| - 1];
      var more := if e.Join? then [e.c] else [];
      assert before + [e] == h;
      EveryHistoryIsServed(before);
      ActionDelivers(before, e);
      hide HistoryOf, Arrivals, ActionOf, Delivered, IsHistory;
      HistoryOfStep(ActionsOf(before), ActionOf(e, Joiners(before)), Joiners(before), more);
      assert Joiners(before) + [] == Joiners(before);
    } else {
      assert Arrivals([]) == 0 && HistoryOf([], []) == [];
    }
  }

  // ---------------------------------------------------------------- the run

  /** `cs` are the accepted connections, and `open` says which of them are open. */
  ghost predicate Tracks(h: History, accepted: set<Connection>, cs: seq<Connection>, open: seq<bool>) {
    && NoDuplicates(cs) && PeerSet(cs) == accepted && |open| == |cs|
    && forall k :: 0 <= k < |cs| ==> (open[k] <==> IsOpen(h, cs[k]))
  }

  lemma TracksAfter(h: History, accepted: set<Connection>, cs: seq<Connection>, open: seq<bool>, e: Event, k: nat)
    requires Tracks(h, accepted, cs, open) && k < |cs| && !e.Join? && e.c == cs[k]
    ensures Tracks(h + [e], accepted, cs, if e.Close? then open[k := false] else open)
  {
    assert (h + [e])[..|h|] == h;
  }

  lemma TracksJoin(h: History, accepted: set<Connection>, cs: seq<Connection>, open: seq<bool>,
                   c: Connection, room: RoomId)
    requires Tracks(h, accepted, cs, open) && c !in accepted
    ensures Tracks(h + [Join(c, room)], accepted + {c}, cs + [c], open + [true])
  {
    assert (h + [Join(c, room)])[..|h|] == h;
    assert forall k :: 0 <= k < |cs| ==> cs[k] in PeerSet(cs);
    PeerSetAppend(cs, c);
    AppendKeepsDistinct(cs, c);
  }

  lemma TracksHave(h: History, accepted: set<Connection>, cs: seq<Connection>, open: seq<bool>)
    requires Tracks(h, accepted, cs, open)
    ensures |open| == |cs|
    ensures forall k :: 0 <= k < |cs| ==> cs[k] in accepted && (open[k] <==> IsOpen(h, cs[k]))
  {
    assert forall k :: 0 <= k < |cs| ==> cs[k] in PeerSet(cs);
  }

  lemma AcceptedHaveHomes(server: Server, c: Connection)
    requires server.Valid() && c in server.accepted
    ensures c in Homes(server.history)
  {
    RunIsConsistent(server.history);
  }

  method Admit(server: Server, cs: seq<Connection>, open: seq<bool>, room: RoomId, ghost held: set<object>)
    returns (c: Connection, ghost held': set<object>)
    requires server.Valid() && Tracks(server.history, server.accepted, cs, open) && server.Objects() <= held
    modifies held
    ensures server.Valid() && Tracks(server.history, server.accepted, cs + [c], open + [true])
    ensures server.history == old(server.history) + [Join(c, room)]
    ensures server.Objects() <= held' && fresh(held' - held)
  {
    hide Server.Valid, IsOpen, Tracks;
    ghost var h, accepted := server.history, server.accepted;
    c := server.OnRequest(room);
    TracksJoin(h, accepted, cs, open, c, room);
    held' := held + {c} + server.Rooms() + server.Arrays();
  }

  method Tell(server: Server, cs: seq<Connection>, open: seq<bool>, n: nat, cmd: Command, ghost held: set<object>)
    requires server.Valid() && Tracks(server.history, server.accepted, cs, open) && server.Objects() <= held
    requires n < |cs| && IsOpen(server.history, cs[n])
    modifies held
    ensures server.Valid() && Tracks(server.history, server.accepted, cs, open)
    ensures server.history == old(server.history) + [Message(cs[n], cmd)]
    ensures server.Objects() <= held
  {
    hide Server.Valid, IsOpen, Tracks;
    TracksAfter(server.history, server.accepted, cs, open, Message(cs[n], cmd), n);
    server.OnMessage(cs[n], cmd);
  }

  method Dismiss(server: Server, cs: seq<Connection>, open: seq<bool>, n: nat, ghost held: set<object>)
    returns (open': seq<bool>)
    requires server.Valid() && Tracks(server.history, server.accepted, cs, open) && server.Objects() <= held
    requires n < |cs|
    modifies held
    ensures server.Valid() && Tracks(server.history, server.accepted, cs, open')
    ensures server.history == old(server.history) + [Close(cs[n])]
    ensures server.Objects() <= held
  {
    hide Server.Valid, IsOpen, Tracks;
    TracksHave(server.history, server.accepted, cs, open);
    TracksAfter(server.history, server.accepted, cs, open, Close(cs[n]), n);
    AcceptedHaveHomes(server, cs[n]);
    server.OnClose(cs[n]);
    open' := open[n := false];
  }

  /** One action, if the transport delivers it. The objects that the server holds are among `held`. */
  method Act(server: Server, cs: seq<Connection>, open: seq<bool>, a: Action, ghost held: set<object>)
    returns (more: seq<Connection>, open': seq<bool>, ghost held': set<object>)
    requires server.Valid() && Tracks(server.history, server.accepted, cs, open) && server.Objects() <= held
    modifies held
    ensures |more| == (if a.Arrive? then 1 else 0)
    ensures server.Valid() && Tracks(server.history, server.accepted, cs + more, open')
    ensures server.history == old(server.history) + Delivered(a, old(server.history), cs + more, |cs|)
    ensures server.Objects() <= held' && fresh(held' - held)
  {
    hide IsOpen, Tracks, Server.Valid, Server.Objects;
    more, open', held' := [], open, held;
    assert cs + [] == cs;
    TracksHave(server.history, server.accepted, cs, open);
    match a
    case Arrive(room) =>
      var c;
      c, held' := Admit(server, cs, open, room, held);
      more, open' := [c], open + [true];
    case Say(n, cmd) =>
      if n < |cs| && open[n] { Tell(server, cs, open, n, cmd, held); }
    case Leave(n) =>
      if n < |cs| { open' := Dismiss(server, cs, open, n, held); }
  }

  /** The server and its connections agree with the history of the run. */
  ghost predicate Agrees(server: Server, c: Connection)
    reads server, server.Rooms(), server.Arrays(), c
  {
    && c in Homes(server.history)
    && c.sent == ExpectedFrames(server.history, c)
    && (IsOpen(server.history, c) ==>
          && c.id in server.connections && c in server.connections[c.id].peers.elems
          && server.connections[c.id].venueUrl == LastVenueKnown(server.history, c))
  }

  lemma AllAgree(server: Server, cs: seq<Connection>, open: seq<bool>)
    requires server.Valid() && Tracks(server.history, server.accepted, cs, open)
    ensures NoDuplicates(cs) && PeerSet(cs) == server.accepted
    ensures forall c :: c in cs ==> Agrees(server, c)
  {
    hide ExpectedFrames, LastVenueKnown, IsOpen, IsHistory, Run, Homes;
    forall c | c in cs ensures Agrees(server, c) {
      assert c in PeerSet(cs);
      ObjectsAgreeWithHistory(server, c);
    }
  }

  method Start() returns (server: Server)
    ensures fresh(server.Objects()) && server.Valid() && server.history == [] && server.accepted == {}
  {
    hide Server.Valid;
    server := new Server();
  }

  /** Any run of the server's objects, from the first arrival on. What every connection has really been sent is what the
      history of the actions says it should have heard, and every open one knows the venue that is stored. */
  method Serve(actions: seq<Action>) returns (server: Server, cs: seq<Connection>)
    ensures server.Valid() && NoDuplicates(cs) && PeerSet(cs) == server.accepted
    ensures |cs| == Arrivals(actions) && server.history == HistoryOf(actions, cs)
    ensures forall c :: c in cs ==> Agrees(server, c)
  {
    hide *;
    server := Start();
    ghost var held := server.Objects();
    cs := [];
    var open: seq<bool> := [];
    NothingServed(server, cs, open);
    for i := 0 to |actions|
      invariant server.Objects() <= held && fresh(held)
      invariant server.Valid() && Tracks(server.history, server.accepted, cs, open)
      invariant |cs| == Arrivals(actions[..i]) && server.history == HistoryOf(actions[..i], cs)
    {
      var more;
      ghost var now: set<object>;
      more, open, now := Act(server, cs, open, actions[i], held);
      forall o | o in now ensures fresh(o) { assert o in held || o in now - held; }
      held := now;
      HistoryOfStep(actions[..i], actions[i], cs, more);
      assert actions[..i + 1] == actions[..i] + [actions[i]];
      cs := cs + more;
    }
    assert actions[..|actions|] == actions;
    AllAgree(server, cs, open);
  }

  lemma NothingServed(server: Server, cs: seq<Connection>, open: seq<bool>)
    requires server.history == [] && server.accepted == {} && cs == [] && open == []
    ensures Arrivals([]) == 0 && HistoryOf([], cs) == [] && Tracks(server.history, server.accepted, cs, open)
  {
  }
}
