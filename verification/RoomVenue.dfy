/** Venue convergence: everybody in a room knows the venue that the server has stored for it. */
module RoomVenue {
  import opened RoomSpec
  import opened RoomInvariants
  import opened RoomTheorems

  function SentTo(h: History, c: Connection): seq<Frame> {
    if c in Run(h).sent then Run(h).sent[c] else []
  }

  /** What the last event of the history sent on a connection. */
  function NewlySent(h: History, c: Connection): seq<Frame>
    requires h != []
  {
    var before, now := SentTo(h[..|h| - 1], c), SentTo(h, c);
    if |before| <= |now| then now[|before|..] else []
  }

  /** The last venue among these frames, or else what was known already. */
  function LastVenueIn(frames: seq<Frame>, known: string): string {
    if frames == [] then known
    else
      var f := frames[|frames| - 1];
      if f.Relay? && f.cmd.Venue? then f.cmd.text else LastVenueIn(frames[..|frames| - 1], known)
  }

  /** The latest venue that the connection has posted itself or has been sent. */
  function LastVenueKnown(h: History, c: Connection): string {
    if h == [] then ""
    else
      var before, e := h[..|h| - 1], h[|h| - 1];
      var known := if e.Message? && e.c == c && e.cmd.Venue? then e.cmd.text else LastVenueKnown(before, c);
      LastVenueIn(NewlySent(h, c), known)
  }

  lemma {:induction false} StrangersKnowNothing(h: History, c: Connection)
    requires IsHistory(h) && c !in Homes(h)
    ensures LastVenueKnown(h, c) == "" && SentTo(h, c) == []
  {
    RunIsConsistent(h);
    if h != [] {
      var before, e := h[..|h| - 1], h[|h| - 1];
      StrangersKnowNothing(before, c);
      if e.Message? { MembersAreOpenAtHome(before, e.c, ""); }
    }
  }

  lemma GreetingTeaches(n: nat, venue: string)
    ensures LastVenueIn(Greeting(n, venue), "") == venue
  {
    if |venue| == 0 {
      LastOfOne(JoinFrame(n), "");
    } else {
      assert Greeting(n, venue)[1] == Relay(Venue(venue));
    }
  }

  lemma JoinLearns(before: History, c: Connection, r: RoomId)
    requires IsHistory(before + [Join(c, r)])
    ensures var h := before + [Join(c, r)]; LastVenueKnown(h, c) == RoomAt(Run(h), r).venue
  {
    var h := before + [Join(c, r)];
    assert h[..|before|] == before;
    StrangersKnowNothing(before, c);
    var venue, n := RoomAt(Run(before), r).venue, |RoomAt(Run(before), r).peers| + 1;
    assert NewlySent(h, c) == Greeting(n, venue);
    GreetingTeaches(n, venue);
  }

  lemma NewlySentIs(before: History, e: Event, c: Connection)
    requires IsHistory(before + [e]) && c in Homes(before)
    ensures NewlySent(before + [e], c) == NewFrames(before, e, c)
  {
    EventDelivers(before, e, c);
    assert (before + [e])[..|before|] == before;
  }

  lemma LastOfOne(f: Frame, known: string)
    ensures LastVenueIn([f], known) == if f.Relay? && f.cmd.Venue? then f.cmd.text else known
  {
    assert [f][..0] == [];
  }

  lemma StepVenue(s: State, d: Connection, cmd: Command, r: RoomId)
    requires d in s.home && s.home[d] in s.rooms && d in s.sent
    ensures RoomAt(Step(s, Message(d, cmd)), r).venue
            == if cmd.Venue? && s.home[d] == r then cmd.text else RoomAt(s, r).venue
  {
  }

  /** A venue teaches everybody in the room, its sender because it said so; nothing else teaches anybody. */
  lemma NewFramesTeach(before: History, d: Connection, cmd: Command, c: Connection, known: string)
    requires IsHistory(before + [Message(d, cmd)]) && c in Homes(before) && IsOpen(before, c)
    ensures LastVenueIn(NewFrames(before, Message(d, cmd), c), if c == d && cmd.Venue? then cmd.text else known)
            == if cmd.Venue? && (c == d || IsAt(before, d, Homes(before)[c])) then cmd.text else known
  {
    var r := Homes(before)[c];
    assert (before + [Message(d, cmd)])[..|before|] == before;
    if IsAt(before, d, r) {
      OneEntryHeard(c, EntryFor(before, d, cmd, r));
      LastOfOne(FrameOf(EntryFor(before, d, cmd, r)), known);
    } else {
      assert Heard(c, []) == [] && FramesOf([]) == [];
    }
  }

  lemma MessageTeaches(before: History, d: Connection, cmd: Command, c: Connection)
    requires IsHistory(before + [Message(d, cmd)]) && IsOpen(before, c) && c in Homes(before)
    requires LastVenueKnown(before, c) == RoomAt(Run(before), Homes(before)[c]).venue
    ensures var h := before + [Message(d, cmd)];
            LastVenueKnown(h, c) == RoomAt(Run(h), Homes(before)[c]).venue
  {
    var e := Message(d, cmd);
    var h, r := before + [e], Homes(before)[c];
    assert h[..|before|] == before && h[|h| - 1] == e;
    RunIsConsistent(before);
    OpenIsStored(before, d, Run(before));
    StepVenue(Run(before), d, cmd, r);
    NewlySentIs(before, e, c);
    NewFramesTeach(before, d, cmd, c, LastVenueKnown(before, c));
  }

  lemma OthersComeAndGo(before: History, e: Event, c: Connection)
    requires IsHistory(before + [e]) && !e.Message? && e.c != c && IsOpen(before, c) && c in Homes(before)
    requires LastVenueKnown(before, c) == RoomAt(Run(before), Homes(before)[c]).venue
    ensures var h := before + [e]; LastVenueKnown(h, c) == RoomAt(Run(h), Homes(before)[c]).venue
  {
    var h, r := before + [e], Homes(before)[c];
    assert h[..|before|] == before;
    RunIsConsistent(before);
    RunIsConsistent(h);
    OpenIsStored(before, c, Run(before));
    OpenIsStored(h, c, Run(h));
    NewlySentIs(before, e, c);
    assert Heard(c, []) == [] && FramesOf([]) == [];
  }

  /** In every reachable state, the latest venue that an open connection has posted or been sent is the one stored for
      its room; it knows of none exactly when none is stored. */
  lemma {:induction false} EveryoneKnowsTheVenue(h: History, c: Connection)
    requires IsHistory(h) && IsOpen(h, c)
    ensures c in Homes(h) && LastVenueKnown(h, c) == RoomAt(Run(h), Homes(h)[c]).venue
  {
    MembersAreOpenAtHome(h, c, "");
    var before, e := h[..|h| - 1], h[|h| - 1];
    assert before + [e] == h;
    if e.Join? && e.c == c {
      JoinLearns(before, c, e.room);
    } else {
      EveryoneKnowsTheVenue(before, c);
      match e
      case Message(d, cmd) => MessageTeaches(before, d, cmd, c);
      case Join(_, _) => OthersComeAndGo(before, e, c);
      case Close(_) => OthersComeAndGo(before, e, c);
    }
  }

  /** A room that nobody is in has forgotten its venue: whoever comes next is sent a head count of one and no more. */
  lemma EmptyRoomForgets(h: History, c: Connection, r: RoomId)
    requires IsHistory(h + [Join(c, r)]) && Members(h, r) == {}
    ensures SentTo(h + [Join(c, r)], c) == [JoinFrame(1)]
  {
    assert (h + [Join(c, r)])[..|h|] == h;
    HeadCountIs(h, r);
    RunIsConsistent(h);
    assert RoomIsRight(Run(h), h, r);
  }
}
