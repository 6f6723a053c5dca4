/** What holds after every run of the room server. */
module RoomInvariants {
  import opened Common
  import opened JsArrays
  import opened RoomSpec

  function PeerSet(s: seq<Connection>): (r: set<Connection>) {
    set c | c in s
  }

  lemma PeerSetAppend(s: seq<Connection>, x: Connection)
    ensures PeerSet(s + [x]) == PeerSet(s) + {x}
  {
  }

  lemma AppendKeepsDistinct(s: seq<Connection>, x: Connection)
    ensures NoDuplicates(s) && x !in PeerSet(s) ==> NoDuplicates(s + [x])
  {
    if NoDuplicates(s) && x !in PeerSet(s) {
      assert forall i :: 0 <= i < |s| ==> s[i] in PeerSet(s);
    }
  }

  lemma {:induction false} WithoutIsTheOthers(s: seq<Connection>, x: Connection)
    ensures PeerSet(FilterOut(s, [x])) == PeerSet(s) - {x}
  {
    if s != [] {
      var t, y := s[..|s| - 1], s[|s| - 1];
      assert s == t + [y];
      WithoutIsTheOthers(t, x);
      FilterOutLast(t, y, [x]);
      hide FilterOut, PeerSet;
      PeerSetAppend(t, y);
      PeerSetAppend(FilterOut(t, [x]), y);
    }
  }

  lemma {:induction false} WithoutKeepsDistinct(s: seq<Connection>, x: Connection)
    requires NoDuplicates(s)
    ensures NoDuplicates(FilterOut(s, [x]))
  {
    if s != [] {
      var t, y := s[..|s| - 1], s[|s| - 1];
      assert s == t + [y];
      assert NoDuplicates(t) && y !in PeerSet(t);
      hide FilterOut, NoDuplicates, PeerSet;
      WithoutKeepsDistinct(t, x);
      WithoutIsTheOthers(t, x);
      FilterOutLast(t, y, [x]);
      AppendKeepsDistinct(FilterOut(t, [x]), y);
    }
  }

  lemma {:induction false} NoDuplicatesCount(s: seq<Connection>)
    requires NoDuplicates(s)
    ensures |PeerSet(s)| == |s|
  {
    if s != [] {
      var n := |s| - 1;
      NoDuplicatesCount(s[..n]);
      assert PeerSet(s) == PeerSet(s[..n]) + {s[n]};
    }
  }

  /** A room's array lists exactly its open connections, each once; its venue is the last one posted since the room
      was last empty; and it is stored exactly while somebody is there. */
  ghost predicate RoomIsRight(s: State, h: History, r: RoomId) {
    && NoDuplicates(RoomAt(s, r).peers)
    && PeerSet(RoomAt(s, r).peers) == Members(h, r)
    && RoomAt(s, r).venue == VenueOf(h, r)
    && (r in s.rooms <==> Members(h, r) != {})
  }

  ghost predicate Consistent(s: State, h: History) {
    && s.home == Homes(h)
    && s.sent.Keys == s.home.Keys
    && forall r: RoomId :: RoomIsRight(s, h, r)
  }

  /** A connection is a member of a room exactly when it is open and that room is its own. */
  lemma {:induction false} MembersAreOpenAtHome(h: History, c: Connection, r: RoomId)
    requires IsHistory(h)
    ensures c in Members(h, r) <==> IsOpen(h, c) && IsAt(h, c, r)
    ensures IsOpen(h, c) ==> c in Homes(h)
  {
    if h != [] { MembersAreOpenAtHome(h[..|h| - 1], c, r); }
  }

  lemma JoinKeepsRooms(h: History, c: Connection, room: RoomId, s: State)
    requires IsHistory(h + [Join(c, room)]) && Consistent(s, h)
    ensures Consistent(Step(s, Join(c, room)), h + [Join(c, room)])
  {
    var h', s' := h + [Join(c, room)], Step(s, Join(c, room));
    assert h'[..|h|] == h;
    forall r: RoomId ensures RoomIsRight(s', h', r) {
      assert RoomIsRight(s, h, r);
      if r == room {
        MembersAreOpenAtHome(h, c, r);
        assert c !in PeerSet(RoomAt(s, r).peers);
        assert PeerSet(RoomAt(s, r).peers + [c]) == PeerSet(RoomAt(s, r).peers) + {c};
        assert c in Members(h', r);
      }
    }
  }

  lemma MessageKeepsRooms(h: History, c: Connection, cmd: Command, s: State)
    requires IsHistory(h + [Message(c, cmd)]) && Consistent(s, h)
    ensures Consistent(Step(s, Message(c, cmd)), h + [Message(c, cmd)])
  {
    var h', s' := h + [Message(c, cmd)], Step(s, Message(c, cmd));
    assert h'[..|h|] == h;
    OpenIsStored(h, c, s);
    forall r: RoomId ensures RoomIsRight(s', h', r) {
      assert RoomIsRight(s, h, r);
    }
  }

  /** Whoever is open is in the array of a stored room: no lookup a message makes can fail. */
  lemma OpenIsStored(h: History, c: Connection, s: State)
    requires IsHistory(h) && Consistent(s, h) && IsOpen(h, c)
    ensures c in s.home && c in s.sent && s.home[c] in s.rooms && c in s.rooms[s.home[c]].peers
  {
    MembersAreOpenAtHome(h, c, "");
    var r := s.home[c];
    MembersAreOpenAtHome(h, c, r);
    assert RoomIsRight(s, h, r);
    assert c in PeerSet(RoomAt(s, r).peers);
  }

  lemma CloseKeepsRoom(h: History, h': History, c: Connection, s: State, r: RoomId)
    requires IsHistory(h) && Consistent(s, h) && c in Homes(h) && h' == h + [Close(c)]
    ensures RoomIsRight(Step(s, Close(c)), h', r)
  {
    var s', peers := Step(s, Close(c)), RoomAt(s, r).peers;
    assert h'[..|h|] == h;
    assert RoomIsRight(s, h, r);
    MembersAreOpenAtHome(h, c, r);
    if r == s.home[c] && r in s.rooms {
      WithoutIsTheOthers(peers, c);
      WithoutKeepsDistinct(peers, c);
      var left := FilterOut(peers, [c]);
      if left == [] {
        assert Members(h', r) == {};
      } else {
        assert left[0] in Members(h', r);
      }
    } else {
      assert c !in Members(h, r) && Members(h', r) == Members(h, r);
    }
  }

  lemma CloseKeepsRooms(h: History, c: Connection, s: State)
    requires IsHistory(h + [Close(c)]) && Consistent(s, h)
    ensures Consistent(Step(s, Close(c)), h + [Close(c)])
  {
    var h' := h + [Close(c)];
    assert h'[..|h|] == h;
    forall r: RoomId { CloseKeepsRoom(h, h', c, s, r); }
  }

  /** After every run: each stored room lists its open connections, each exactly once, and is not empty. */
  lemma {:induction false} RunIsConsistent(h: History)
    requires IsHistory(h)
    ensures Consistent(Run(h), h)
  {
    if h == [] {
      forall r: RoomId ensures RoomIsRight(START, h, r) { assert PeerSet([]) == {}; }
    } else {
      var before, e := h[..|h| - 1], h[|h| - 1];
      assert before + [e] == h;
      RunIsConsistent(before);
      match e
      case Join(c, r) => JoinKeepsRooms(before, c, r, Run(before));
      case Message(c, cmd) => MessageKeepsRooms(before, c, cmd, Run(before));
      case Close(c) => CloseKeepsRooms(before, c, Run(before));
    }
  }

  /** An open connection sits in exactly one array, its own room's; a closed one in none. */
  lemma OneSeatPerOpenConnection(h: History, c: Connection, r: RoomId)
    requires IsHistory(h)
    ensures NoDuplicates(RoomAt(Run(h), r).peers)
    ensures c in RoomAt(Run(h), r).peers <==> IsOpen(h, c) && IsAt(h, c, r)
    ensures r in Run(h).rooms <==> RoomAt(Run(h), r).peers != []
  {
    RunIsConsistent(h);
    assert RoomIsRight(Run(h), h, r);
    MembersAreOpenAtHome(h, c, r);
    assert c in RoomAt(Run(h), r).peers <==> c in PeerSet(RoomAt(Run(h), r).peers);
    var peers := RoomAt(Run(h), r).peers;
    if peers != [] { assert peers[0] in PeerSet(peers); }
  }

  function OpenConnections(h: History): set<Connection> {
    set c | c in Homes(h).Keys && IsOpen(h, c)
  }

  lemma HeadCountIs(h: History, r: RoomId)
    requires IsHistory(h)
    ensures |RoomAt(Run(h), r).peers| == |Members(h, r)|
    ensures forall c :: c in Members(h, r) <==> c in RoomAt(Run(h), r).peers
  {
    RunIsConsistent(h);
    assert RoomIsRight(Run(h), h, r);
    NoDuplicatesCount(RoomAt(Run(h), r).peers);
    assert forall c :: c in Members(h, r) <==> c in PeerSet(RoomAt(Run(h), r).peers);
  }

  /** The lengths of the arrays of these rooms, added up. */
  ghost function PeerTotal(s: State, rooms: set<RoomId>): nat
    decreases rooms
  {
    if rooms == {} then 0
    else
      var r :| r in rooms;
      |RoomAt(s, r).peers| + PeerTotal(s, rooms - {r})
  }

  function OpenIn(h: History, rooms: set<RoomId>): set<Connection> {
    set c | c in OpenConnections(h) && c in Homes(h) && Homes(h)[c] in rooms
  }

  /** One more room brings its members, and nobody else. */
  lemma OpenInSplits(h: History, rooms: set<RoomId>, r: RoomId)
    requires IsHistory(h) && r in rooms
    ensures OpenIn(h, rooms) == OpenIn(h, rooms - {r}) + Members(h, r) && OpenIn(h, rooms - {r}) !! Members(h, r)
  {
    hide IsOpen, IsHistory, Members;
    forall c | c in OpenConnections(h) + Members(h, r)
      ensures c in Members(h, r) <==> c in OpenConnections(h) && c in Homes(h) && Homes(h)[c] == r
    {
      MembersAreOpenAtHome(h, c, r);
    }
  }

  lemma {:induction false} PeerTotalIsOpenIn(h: History, rooms: set<RoomId>)
    requires IsHistory(h)
    ensures PeerTotal(Run(h), rooms) == |OpenIn(h, rooms)|
    decreases rooms
  {
    hide IsHistory, Run, RoomAt, Members, OpenIn;
    if rooms != {} {
      var r :| r in rooms && PeerTotal(Run(h), rooms) == |RoomAt(Run(h), r).peers| + PeerTotal(Run(h), rooms - {r});
      PeerTotalIsOpenIn(h, rooms - {r});
      HeadCountIs(h, r);
      OpenInSplits(h, rooms, r);
    } else {
      NobodyInNoRoom(h);
    }
  }

  lemma NobodyInNoRoom(h: History)
    ensures OpenIn(h, {}) == {}
  {
  }

  /** The arrays of all stored rooms together are as long as there are open connections. */
  lemma PeerCountsAddUp(h: History)
    requires IsHistory(h)
    ensures PeerTotal(Run(h), Run(h).rooms.Keys) == |OpenConnections(h)|
  {
    RunIsConsistent(h);
    PeerTotalIsOpenIn(h, Run(h).rooms.Keys);
    forall c | c in OpenConnections(h) ensures c in OpenIn(h, Run(h).rooms.Keys) { OpenIsStored(h, c, Run(h)); }
    assert OpenIn(h, Run(h).rooms.Keys) == OpenConnections(h);
  }
}
