/** The room server itself: rooms and connections as objects that the handlers change in place. */
module RoomServer {
  import opened Common
  import opened JsArrays
  import opened RoomSpec
  import opened RoomInvariants
  import opened RoomTheorems
  import opened RoomVenue

  class Room {
    const peers: JsArray<Connection>
    var venueUrl: string

    constructor ()
      ensures fresh(peers) && peers.elems == [] && venueUrl == ""
    {
      peers := new JsArray<Connection>();
      venueUrl := "";
    }
  }

  class Server {
    var connections: map<RoomId, Room>

    /** Every connection that was ever accepted, and everything that has happened. */
    ghost var accepted: set<Connection>
    ghost var history: History

    ghost function Rooms(): set<Room>
      reads `connections
    {
      set r | r in connections :: connections[r]
    }

    ghost function Arrays(): set<JsArray<Connection>>
      reads `connections
    {
      set r | r in connections :: connections[r].peers
    }

    /** Every object that the server holds. */
    ghost function Objects(): set<object>
      reads `connections, `accepted, Rooms()
    {
      var objects: set<object> := {this};
      objects + Rooms() + Arrays() + accepted
    }

    ghost predicate ShowsRooms(rooms: map<RoomId, RoomState>)
      reads `connections, Rooms(), Arrays()
    {
      && connections.Keys == rooms.Keys
      && forall r :: r in connections ==> rooms[r] == RoomState(connections[r].peers.elems, connections[r].venueUrl)
    }

    ghost predicate ShowsConnections(home: map<Connection, RoomId>, sent: map<Connection, seq<Frame>>)
      reads `accepted, accepted
    {
      && accepted == home.Keys == sent.Keys
      && forall c :: c in accepted ==> home[c] == c.id && sent[c] == c.sent
    }

    /** The objects hold this state. */
    ghost predicate Shows(s: State)
      reads `connections, `accepted, Rooms(), Arrays(), accepted
    {
      ShowsRooms(s.rooms) && ShowsConnections(s.home, s.sent)
    }

    /** No two rooms share an object. */
    ghost predicate Separate()
      reads `connections, Rooms()
    {
      forall r, q :: r in connections && q in connections && r != q ==>
        connections[r] != connections[q] && connections[r].peers != connections[q].peers
    }

    /** The objects are what the history makes of them. */
    ghost predicate Valid()
      reads this, Rooms(), Arrays(), accepted
    {
      Separate() && IsHistory(history) && Shows(Run(history))
    }

    constructor ()
      ensures Valid() && history == [] && connections == map[] && accepted == {}
    {
      connections := map[];
      accepted := {};
      history := [];
    }

    /** The loop over a room's peers. */
    method SendToRoom(roomId: RoomId, frame: Frame, self: Connection)
      requires roomId in connections && NoDuplicates(connections[roomId].peers.elems)
      modifies PeerSet(connections[roomId].peers.elems)
      ensures forall c :: c in connections[roomId].peers.elems ==>
                c.sent == old(c.sent) + (if c != self then [frame] else [])
    {
      var rooms := connections[roomId].peers;
      var i := 0;
      while i < |rooms.elems|
        invariant 0 <= i <= |rooms.elems|
        invariant forall k :: 0 <= k < i ==>
                    rooms.elems[k].sent == old(rooms.elems[k].sent) + (if rooms.elems[k] != self then [frame] else [])
        invariant forall k :: i <= k < |rooms.elems| ==> rooms.elems[k].sent == old(rooms.elems[k].sent)
      {
        var c := rooms.elems[i];
        if c != self { c.SendUTF(frame); }
        i := i + 1;
      }
    }

    /** The history grows by an event whose step the objects have already taken. */
    ghost method Record(e: Event)
      requires Separate() && IsHistory(history + [e]) && Shows(Run(history + [e]))
      modifies `history
      ensures Valid() && history == old(history) + [e]
      ensures Arrays() == old(Arrays()) && Rooms() == old(Rooms())
    {
      hide Run, IsHistory;
      history := history + [e];
    }

    /** A room with nobody in it and no venue. */
    method NewRoom(ghost s: State) returns (made: Room)
      requires Separate() && Shows(s)
      ensures fresh(made) && fresh(made.peers) && made !in Rooms() && made.peers !in Arrays()
      ensures made.peers.elems == [] && made.venueUrl == ""
      ensures Separate() && Shows(s) && Arrays() == old(Arrays()) && Rooms() == old(Rooms())
    {
      made := new Room();
    }

    /** It is stored under an id that had no room. */
    method AddRoom(roomId: RoomId, made: Room, ghost s: State)
      requires Separate() && Shows(s) && roomId !in connections
      requires made !in Rooms() && made.peers !in Arrays() && made.peers.elems == [] && made.venueUrl == ""
      modifies `connections
      ensures Separate() && ShowsConnections(s.home, s.sent)
      ensures ShowsRooms(s.rooms[roomId := RoomAt(s, roomId)]) && roomId in connections
      ensures Arrays() <= old(Arrays()) + {made.peers} && Rooms() <= old(Rooms()) + {made}
    {
      hide ShowsConnections;
      connections := connections[roomId := made];
    }

    /** The room is made if there is none. */
    method MakeRoom(roomId: RoomId, ghost s: State)
      requires Separate() && Shows(s)
      modifies `connections
      ensures Separate() && ShowsConnections(s.home, s.sent)
      ensures ShowsRooms(s.rooms[roomId := RoomAt(s, roomId)]) && roomId in connections
      ensures fresh(Arrays() - old(Arrays())) && fresh(Rooms() - old(Rooms()))
    {
      hide Separate, ShowsRooms, ShowsConnections;
      if roomId !in connections {
        var made := NewRoom(s);
        AddRoom(roomId, made, s);
      } else {
        StoredAlready(roomId, s);
      }
    }

    lemma StoredAlready(roomId: RoomId, s: State)
      requires Shows(s) && roomId in connections
      ensures s.rooms[roomId := RoomAt(s, roomId)] == s.rooms
    {
    }

    /** The connection is pushed on the array of its room. */
    method Seat(connection: Connection, roomId: RoomId, ghost s: State)
      requires Separate() && Shows(s) && roomId in connections
      modifies connections[roomId].peers
      ensures Separate() && ShowsConnections(s.home, s.sent)
      ensures ShowsRooms(s.rooms[roomId := RoomState(s.rooms[roomId].peers + [connection], s.rooms[roomId].venue)])
    {
      connections[roomId].peers.Push(connection);
    }

    /** The connection joins its room's array, at its end. */
    method Enter(connection: Connection, roomId: RoomId, ghost s: State) returns (ghost rooms: map<RoomId, RoomState>)
      requires Separate() && Shows(s)
      modifies `connections, Arrays()
      ensures rooms == s.rooms[roomId := RoomState(RoomAt(s, roomId).peers + [connection], RoomAt(s, roomId).venue)]
      ensures Separate() && ShowsRooms(rooms) && ShowsConnections(s.home, s.sent) && roomId in connections
      ensures fresh(Arrays() - old(Arrays())) && fresh(Rooms() - old(Rooms()))
    {
      hide Separate, ShowsRooms, ShowsConnections, RoomAt;
      ghost var before := RoomAt(s, roomId);
      MakeRoom(roomId, s);
      Seat(connection, roomId, State(s.rooms[roomId := before], s.home, s.sent));
      rooms := s.rooms[roomId := before][roomId := RoomState(before.peers + [connection], before.venue)];
      UpdateTwice(s.rooms, roomId, before, RoomState(before.peers + [connection], before.venue));
    }

    /** The two sends of a join. */
    method Greet(connection: Connection, roomId: RoomId, ghost s: State)
      requires Separate() && Shows(s) && roomId in connections && connection !in accepted && connection.sent == []
      modifies connection, `accepted
      ensures Separate() && ShowsRooms(s.rooms) && accepted == old(accepted) + {connection}
      ensures Arrays() == old(Arrays()) && Rooms() == old(Rooms())
      ensures ShowsConnections(s.home[connection := connection.id],
                               s.sent[connection := Greeting(|s.rooms[roomId].peers|, s.rooms[roomId].venue)])
    {
      hide Greeting;
      var room := connections[roomId];
      assert s.rooms[roomId] == RoomState(room.peers.elems, room.venueUrl);
      SendGreeting(connection, |room.peers.elems|, room.venueUrl);
      accepted := accepted + {connection};
    }

    method SendGreeting(connection: Connection, count: nat, venueUrl: string)
      requires connection.sent == []
      modifies connection
      ensures connection.sent == Greeting(count, venueUrl)
    {
      connection.SendUTF(JoinFrame(count));
      if |venueUrl| > 0 {
        connection.SendUTF(Relay(Venue(venueUrl)));
      }
    }

    /** `request.accept`: a connection that nothing has been sent on. */
    method Accept(roomId: RoomId, ghost s: State) returns (connection: Connection)
      requires Separate() && Shows(s)
      ensures fresh(connection) && connection.id == roomId && connection.sent == []
      ensures Separate() && Shows(s) && connection !in accepted && connection !in s.home
      ensures Arrays() == old(Arrays()) && Rooms() == old(Rooms())
    {
      connection := new Connection(roomId);
    }

    /** What is done with a connection once it is accepted. */
    method Welcome(connection: Connection, roomId: RoomId)
      requires Valid() && connection !in accepted && connection.id == roomId && connection.sent == []
      modifies this, Arrays(), connection
      ensures Valid()
      ensures history == old(history) + [Join(connection, roomId)] && accepted == old(accepted) + {connection}
      ensures fresh(Arrays() - old(Arrays())) && fresh(Rooms() - old(Rooms()))
    {
      hide Separate, ShowsRooms, Run, IsHistory, Homes, RoomAt, Greeting;
      ghost var s := Run(history);
      ghost var rooms := Enter(connection, roomId, s);
      Greet(connection, roomId, State(rooms, s.home, s.sent));
      AfterJoin(history, connection, roomId);
      Record(Join(connection, roomId));
    }

    /** `request`: the connection joins its room, which is made if need be, and is greeted. */
    method OnRequest(roomId: RoomId) returns (connection: Connection)
      requires Valid()
      modifies this, Arrays()
      ensures Valid() && fresh(connection) && connection.id == roomId
      ensures history == old(history) + [Join(connection, roomId)] && accepted == old(accepted) + {connection}
      ensures fresh(Arrays() - old(Arrays())) && fresh(Rooms() - old(Rooms()))
    {
      hide Separate, ShowsRooms, ShowsConnections, Run, IsHistory, Greeting;
      connection := Accept(roomId, Run(history));
      Welcome(connection, roomId);
    }

    /** `message`: an echo is answered with the head count; anything else goes to the others in the room, and a venue
        is remembered first. */
    method OnMessage(connection: Connection, cmd: Command)
      requires Valid() && IsOpen(history, connection)
      modifies `history, Rooms(), accepted
      ensures Valid() && history == old(history) + [Message(connection, cmd)]
    {
      hide Separate, ShowsRooms, ShowsConnections, Arrays, Rooms, Run, IsHistory, IsOpen, Homes, Broadcast,
           NoDuplicates, PeerSet;
      ghost var s := Run(history);
      AfterMessage(history, connection, cmd);
      HomeIs(connection, s);
      if cmd.Echo? {
        Answer(connection, s);
      } else {
        ghost var rooms := s.rooms;
        if cmd.Venue? {
          rooms := Remember(connection, cmd.text, s);
        }
        Post(connection, cmd, State(rooms, s.home, s.sent));
      }
      Record(Message(connection, cmd));
    }

    lemma HomeIs(connection: Connection, s: State)
      requires Shows(s) && connection in s.home
      ensures s.home.Keys == accepted && s.home[connection] == connection.id
      ensures connection.id in s.rooms <==> connection.id in connections
    {
    }

    method Answer(connection: Connection, ghost s: State)
      requires Separate() && Shows(s) && connection in accepted && connection.id in connections
      modifies connection
      ensures Separate() && ShowsRooms(s.rooms)
      ensures ShowsConnections(s.home,
                               s.sent[connection := s.sent[connection] + [EchoFrame(|s.rooms[connection.id].peers|)]])
    {
      connection.SendUTF(EchoFrame(|connections[connection.id].peers.elems|));
    }

    method Remember(connection: Connection, text: Text, ghost s: State) returns (ghost rooms: map<RoomId, RoomState>)
      requires Separate() && Shows(s) && connection.id in connections
      modifies Rooms()
      ensures rooms == s.rooms[connection.id := s.rooms[connection.id].(venue := text)]
      ensures Separate() && ShowsConnections(s.home, s.sent) && ShowsRooms(rooms)
    {
      connections[connection.id].venueUrl := text;
      rooms := s.rooms[connection.id := s.rooms[connection.id].(venue := text)];
    }

    method Post(connection: Connection, cmd: Command, ghost s: State)
      requires Separate() && Shows(s) && connection.id in connections
      requires NoDuplicates(s.rooms[connection.id].peers) && PeerSet(s.rooms[connection.id].peers) <= accepted
      modifies accepted
      ensures Separate() && ShowsRooms(s.rooms)
      ensures ShowsConnections(s.home, Broadcast(s.sent, s.rooms[connection.id].peers, connection, Relay(cmd)))
    {
      SendToRoom(connection.id, Relay(cmd), connection);
    }

    /** The connection is removed from the array of its room. */
    method TakeOut(connection: Connection, ghost s: State) returns (ghost rooms: map<RoomId, RoomState>)
      requires Separate() && Shows(s) && connection.id in connections
      modifies Arrays()
      ensures var room := s.rooms[connection.id];
              rooms == s.rooms[connection.id := RoomState(FilterOut(room.peers, [connection]), room.venue)]
      ensures Separate() && ShowsRooms(rooms) && ShowsConnections(s.home, s.sent)
    {
      hide FilterOut;
      var room := connections[connection.id];
      room.peers.Remove([connection]);
      rooms := s.rooms[connection.id := RoomState(room.peers.elems, room.venueUrl)];
    }

    /** The room is deleted if nobody is left in it. */
    method DropIfEmpty(roomId: RoomId, ghost s: State)
      requires Separate() && Shows(s) && roomId in connections
      modifies `connections
      ensures Separate() && ShowsConnections(s.home, s.sent)
      ensures ShowsRooms(if s.rooms[roomId].peers == [] then s.rooms - {roomId} else s.rooms)
      ensures Arrays() <= old(Arrays()) && Rooms() <= old(Rooms())
    {
      assert s.rooms[roomId].peers == connections[roomId].peers.elems;
      if |connections[roomId].peers.elems| == 0 {
        connections := connections - {roomId};
      }
    }

    /** `close`: the connection leaves its room, and the last one out takes the room with it. */
    method OnClose(connection: Connection)
      requires Valid() && connection in Homes(history)
      modifies `history, `connections, Arrays()
      ensures Valid() && history == old(history) + [Close(connection)]
      ensures Arrays() <= old(Arrays()) && Rooms() <= old(Rooms())
    {
      hide Separate, ShowsConnections, Arrays, Rooms, Run, IsHistory, Homes, FilterOut;
      ghost var s := Run(history);
      AfterClose(history, connection);
      HomeIs(connection, s);
      if connection.id in connections {
        ghost var rooms := TakeOut(connection, s);
        DropIfEmpty(connection.id, State(rooms, s.home, s.sent));
      }
      Record(Close(connection));
    }
  }

  /** What every accepted connection has really been sent is what the history says it should have heard; and what an
      open one knows of the venue is what the server has stored. */
  lemma ObjectsAgreeWithHistory(server: Server, c: Connection)
    requires server.Valid() && c in server.accepted
    ensures c in Homes(server.history) && c.sent == ExpectedFrames(server.history, c)
    ensures IsOpen(server.history, c) ==>
              && c.id in server.connections && c in server.connections[c.id].peers.elems
              && server.connections[c.id].venueUrl == LastVenueKnown(server.history, c)
  {
    var h := server.history;
    RunIsConsistent(h);
    DeliveryMatchesLog(h, c);
    if IsOpen(h, c) {
      OpenIsStored(h, c, Run(h));
      EveryoneKnowsTheVenue(h, c);
    }
  }

  lemma AfterJoin(h: History, c: Connection, r: RoomId)
    requires IsHistory(h)
    ensures Run(h).home == Homes(h)
    ensures c !in Run(h).home ==> IsHistory(h + [Join(c, r)])
    ensures var s, after := Run(h), Run(h + [Join(c, r)]);
            var peers := RoomAt(s, r).peers + [c];
            && after.rooms == s.rooms[r := RoomState(peers, RoomAt(s, r).venue)]
            && after.home == s.home[c := r]
            && after.sent == s.sent[c := Greeting(|peers|, RoomAt(s, r).venue)]
  {
    RunIsConsistent(h);
    RunExtends(h, Join(c, r));
    assert (h + [Join(c, r)])[..|h|] == h;
  }

  lemma AfterMessage(h: History, c: Connection, cmd: Command)
    requires IsHistory(h) && IsOpen(h, c)
    ensures IsHistory(h + [Message(c, cmd)])
    ensures var s, after := Run(h), Run(h + [Message(c, cmd)]);
            && c in s.home && s.home[c] in s.rooms && c in s.sent
            && var r := s.home[c];
               && after.home == s.home
               && after.rooms == (if cmd.Venue? then s.rooms[r := s.rooms[r].(venue := cmd.text)] else s.rooms)
               && after.sent == (if cmd.Echo? then s.sent[c := s.sent[c] + [EchoFrame(|s.rooms[r].peers|)]]
                                 else Broadcast(s.sent, s.rooms[r].peers, c, Relay(cmd)))
               && NoDuplicates(s.rooms[r].peers) && PeerSet(s.rooms[r].peers) <= s.home.Keys
  {
    RunExtends(h, Message(c, cmd));
    assert (h + [Message(c, cmd)])[..|h|] == h;
    RunIsConsistent(h);
    OpenIsStored(h, c, Run(h));
    PeersAreAccepted(h, Run(h).home[c]);
  }

  lemma AfterClose(h: History, c: Connection)
    requires IsHistory(h) && c in Homes(h)
    ensures IsHistory(h + [Close(c)])
    ensures var s, after := Run(h), Run(h + [Close(c)]);
            && c in s.home && after.home == s.home && after.sent == s.sent
            && (s.home[c] !in s.rooms ==> after.rooms == s.rooms)
            && (s.home[c] in s.rooms ==>
                  var room := s.rooms[s.home[c]];
                  var rooms := s.rooms[s.home[c] := RoomState(FilterOut(room.peers, [c]), room.venue)];
                  after.rooms == if FilterOut(room.peers, [c]) == [] then rooms - {s.home[c]} else rooms)
  {
    hide FilterOut;
    RunIsConsistent(h);
    RunExtends(h, Close(c));
    assert (h + [Close(c)])[..|h|] == h;
    var s := Run(h);
    if s.home[c] in s.rooms {
      var r := s.home[c];
      var left := RoomState(FilterOut(s.rooms[r].peers, [c]), s.rooms[r].venue);
      assert s.rooms[r := left] - {r} == s.rooms - {r};
    }
  }

  lemma PeersAreAccepted(h: History, r: RoomId)
    requires IsHistory(h)
    ensures NoDuplicates(RoomAt(Run(h), r).peers)
    ensures PeerSet(RoomAt(Run(h), r).peers) <= Run(h).home.Keys
  {
    RunIsConsistent(h);
    assert RoomIsRight(Run(h), h, r);
    forall c | c in PeerSet(RoomAt(Run(h), r).peers) ensures c in Run(h).home {
      MembersAreOpenAtHome(h, c, r);
    }
  }
}
