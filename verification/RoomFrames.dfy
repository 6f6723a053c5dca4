/** What one event sends, told from the history before it and the literal frames alone. */
module RoomFrames {
  import opened RoomSpec
  import opened RoomInvariants
  import opened RoomTheorems
  import opened RoomVenue

  /** A newcomer is sent the head count, itself included, and then the venue if the room has one; nobody else is sent
      anything. */
  lemma JoinIsGreeted(h: History, c: Connection, r: RoomId, d: Connection)
    requires IsHistory(h + [Join(c, r)])
    ensures var h', venue := h + [Join(c, r)], VenueOf(h, r);
            && SentTo(h', c) == [JoinFrame(|Members(h, r)| + 1)] + (if venue == "" then [] else [Relay(Venue(venue))])
            && (d != c ==> SentTo(h', d) == SentTo(h, d))
  {
    hide Run, Members, VenueOf, IsHistory, Homes;
    NewcomerIsCounted(h, c, r);
    JoinSends(h, c, r);
    HeadCountIs(h + [Join(c, r)], r);
    if d != c { JoinKeepsOthers(h, c, r, d); }
  }

  lemma NewcomerIsCounted(h: History, c: Connection, r: RoomId)
    requires IsHistory(h + [Join(c, r)])
    ensures IsHistory(h) && |Members(h + [Join(c, r)], r)| == |Members(h, r)| + 1
    ensures RoomAt(Run(h), r).venue == VenueOf(h, r)
  {
    assert (h + [Join(c, r)])[..|h|] == h;
    MembersAreOpenAtHome(h, c, r);
    RunIsConsistent(h);
    assert RoomIsRight(Run(h), h, r);
  }

  lemma JoinKeepsOthers(h: History, c: Connection, r: RoomId, d: Connection)
    requires d != c
    ensures SentTo(h + [Join(c, r)], d) == SentTo(h, d)
  {
    RunExtends(h, Join(c, r));
  }

  /** An echo is answered to its sender with the room's head count; anything else is relayed to the other members of
      the room. */
  lemma MessageIsSent(h: History, c: Connection, cmd: Command, d: Connection)
    requires IsHistory(h + [Message(c, cmd)]) && d in Homes(h)
    ensures c in Homes(h)
    ensures var h', r := h + [Message(c, cmd)], Homes(h)[c];
            SentTo(h', d) == SentTo(h, d) + if cmd == Echo && d == c then [EchoFrame(|Members(h, r)|)]
                                            else if cmd != Echo && d != c && d in Members(h, r) then [Relay(cmd)]
                                            else []
  {
    assert (h + [Message(c, cmd)])[..|h|] == h;
    MembersAreOpenAtHome(h, c, "");
    assert IsOpen(h, c);
    hide Run, Members, IsHistory, IsOpen, Homes, NewFrames;
    MessageDelivers(h, c, cmd, d);
    MessageNews(h, c, cmd, d);
    MembersAreOpenAtHome(h, d, Homes(h)[c]);
    MembersAreOpenAtHome(h, c, Homes(h)[c]);
  }

  /** Nothing is sent when a connection closes. */
  lemma CloseSendsNothing(h: History, c: Connection, d: Connection)
    ensures SentTo(h + [Close(c)], d) == SentTo(h, d)
  {
    RunExtends(h, Close(c));
  }
}
