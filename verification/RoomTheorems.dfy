/** Every run of the room server delivers exactly what the history of its rooms says. */
module RoomTheorems {
  import opened Common
  import opened RoomSpec
  import opened RoomInvariants

  // ---------------------------------------------------------------- lists

  lemma FramesAppend(log: seq<Entry>, entry: Entry)
    ensures FramesOf(log + [entry]) == FramesOf(log) + [FrameOf(entry)]
  {
    assert (log + [entry])[..|log|] == log;
  }

  lemma HeardAppend(c: Connection, log: seq<Entry>, entry: Entry)
    ensures Heard(c, log + [entry]) == Heard(c, log) + (if Hears(c, entry) then [entry] else [])
    ensures FramesOf(Heard(c, log + [entry]))
            == FramesOf(Heard(c, log)) + (if Hears(c, entry) then [FrameOf(entry)] else [])
  {
    assert (log + [entry])[..|log|] == log;
    if Hears(c, entry) {
      FramesAppend(Heard(c, log), entry);
    } else {
      assert Heard(c, log) + [] == Heard(c, log);
    }
  }

  // ---------------------------------------------------------------- the log a connection lives through

  /** The entry that an event adds to a room's log, if any. */
  function NewEntries(before: History, e: Event, r: RoomId): seq<Entry> {
    if e.Message? && IsAt(before, e.c, r) then [EntryFor(before, e.c, e.cmd, r)] else []
  }

  /** Only an open connection's share of the log grows. */
  lemma LogDuringGrows(before: History, e: Event, c: Connection)
    requires IsHistory(before + [e]) && c in Homes(before)
    ensures c in Homes(before + [e]) && Homes(before + [e])[c] == Homes(before)[c]
    ensures JoinedAt(before + [e], c) == JoinedAt(before, c)
    ensures LogDuring(before + [e], c)
            == LogDuring(before, c) + (if IsOpen(before + [e], c) then NewEntries(before, e, Homes(before)[c]) else [])
  {
    var h, r := before + [e], Homes(before)[c];
    assert h[..|before|] == before;
    var j := JoinedAt(before, c);
    assert h[..j] == before[..j];
    if IsOpen(h, c) {
      assert h[..|h|] == h && before[..|before|] == before;
      LogGrowsFrom(before, j, r);
    } else {
      if IsOpen(before, c) {
        assert before[..|before|] == before;
      }
      var l := LeftAt(before, c);
      assert LeftAt(h, c) == l && h[..l] == before[..l];
    }
  }

  lemma {:induction false} LogGrowsFrom(h: History, j: nat, r: RoomId)
    requires j <= |h|
    ensures |RoomLog(h[..j], r)| <= |RoomLog(h, r)|
  {
    if j < |h| {
      LogGrowsFrom(h[..|h| - 1], j, r);
      assert h[..|h| - 1][..j] == h[..j];
    } else {
      assert h[..j] == h;
    }
  }

  // ---------------------------------------------------------------- delivery

  lemma JoinSends(before: History, c: Connection, r: RoomId)
    ensures var h := before + [Join(c, r)];
            && c in Run(h).sent
            && Run(h).sent[c] == Greeting(|RoomAt(Run(h), r).peers|, RoomAt(Run(before), r).venue)
  {
    hide Greeting;
    assert (before + [Join(c, r)])[..|before|] == before;
  }

  lemma JoinExpects(before: History, c: Connection, r: RoomId)
    ensures var h := before + [Join(c, r)];
            c in Homes(h) && ExpectedFrames(h, c) == Greeting(|Members(h, r)|, VenueOf(before, r))
  {
    hide Members, VenueOf;
    var h := before + [Join(c, r)];
    assert h[..|before|] == before && h[..|h|] == h;
    assert LogDuring(h, c) == [];
    assert Heard(c, []) == [] && FramesOf([]) == [];
  }

  lemma JoinDelivers(before: History, c: Connection, r: RoomId)
    requires IsHistory(before + [Join(c, r)])
    ensures var h := before + [Join(c, r)];
            c in Run(h).sent && c in Homes(h) && Run(h).sent[c] == ExpectedFrames(h, c)
  {
    hide Run, Greeting, Members, VenueOf, ExpectedFrames;
    var h := before + [Join(c, r)];
    assert h[..|before|] == before;
    JoinSends(before, c, r);
    JoinExpects(before, c, r);
    RunIsConsistent(before);
    assert RoomIsRight(Run(before), before, r);
    HeadCountIs(h, r);
  }

  /** What one event sends on a connection that was there before it. */
  function NewFrames(before: History, e: Event, c: Connection): seq<Frame>
    requires c in Homes(before)
  {
    if IsOpen(before + [e], c) then FramesOf(Heard(c, NewEntries(before, e, Homes(before)[c]))) else []
  }

  lemma OneEntryHeard(c: Connection, entry: Entry)
    ensures FramesOf(Heard(c, [entry])) == if Hears(c, entry) then [FrameOf(entry)] else []
  {
    HeardAppend(c, [], entry);
    assert [] + [entry] == [entry];
  }

  /** What a message sends, told from the state: the asker or everybody else in the room hears it. */
  lemma StepSends(s: State, d: Connection, cmd: Command, c: Connection)
    requires d in s.home && s.home[d] in s.rooms && d in s.sent && c in s.sent
    ensures var peers := s.rooms[s.home[d]].peers;
            && c in Step(s, Message(d, cmd)).sent
            && Step(s, Message(d, cmd)).sent[c]
               == s.sent[c] + if cmd.Echo? && c == d then [EchoFrame(|peers|)]
                              else if !cmd.Echo? && c != d && c in peers then [Relay(cmd)]
                              else []
  {
  }

  /** What a message sends, told from the history. */
  lemma MessageNews(before: History, d: Connection, cmd: Command, c: Connection)
    requires c in Homes(before)
    ensures var r := Homes(before)[c];
            NewFrames(before, Message(d, cmd), c)
            == if IsOpen(before, c) && IsAt(before, d, r) && Hears(c, EntryFor(before, d, cmd, r))
               then [FrameOf(EntryFor(before, d, cmd, r))] else []
  {
    hide Heard, FramesOf, Members;
    assert (before + [Message(d, cmd)])[..|before|] == before;
    OneEntryHeard(c, EntryFor(before, d, cmd, Homes(before)[c]));
    NothingHeard(c);
  }

  lemma NothingHeard(c: Connection)
    ensures FramesOf(Heard(c, [])) == []
  {
  }

  lemma MessageDelivers(before: History, d: Connection, cmd: Command, c: Connection)
    requires IsHistory(before + [Message(d, cmd)]) && c in Homes(before)
    ensures var h := before + [Message(d, cmd)];
            && c in Run(before).sent && c in Run(h).sent
            && Run(h).sent[c] == Run(before).sent[c] + NewFrames(before, Message(d, cmd), c)
  {
    var e := Message(d, cmd);
    assert (before + [e])[..|before|] == before;
    RunExtends(before, e);
    assert IsHistory(before) && IsOpen(before, d);
    hide Members, RoomAt, NewFrames, Run, IsHistory, IsOpen, Homes, Step;
    RunIsConsistent(before);
    OpenIsStored(before, d, Run(before));
    StepSends(Run(before), d, cmd, c);
    HeadCountAt(before, d);
    MembersAreOpenAtHome(before, c, Homes(before)[d]);
    MessageNews(before, d, cmd, c);
  }

  lemma RunExtends(h: History, e: Event)
    ensures Run(h + [e]) == Step(Run(h), e)
  {
    assert (h + [e])[..|h|] == h;
  }

  /** The array of a stored room holds as many peers as the room has members. */
  lemma HeadCountAt(h: History, d: Connection)
    requires IsHistory(h) && d in Homes(h) && Homes(h)[d] in Run(h).rooms
    ensures var peers := Run(h).rooms[Homes(h)[d]].peers;
            && |peers| == |Members(h, Homes(h)[d])|
            && forall c :: c in Members(h, Homes(h)[d]) <==> c in peers
  {
    HeadCountIs(h, Homes(h)[d]);
  }

  lemma EventDelivers(before: History, e: Event, c: Connection)
    requires IsHistory(before + [e]) && c in Homes(before)
    ensures var h := before + [e];
            && c in Run(before).sent && c in Run(h).sent
            && Run(h).sent[c] == Run(before).sent[c] + NewFrames(before, e, c)
  {
    var h := before + [e];
    assert h[..|before|] == before;
    RunIsConsistent(before);
    if e.Message? { MessageDelivers(before, e.c, e.cmd, c); }
  }

  /** Refinement: in every run, a connection has been sent its join frame with the true head count, then the venue of
      its room at that moment if there was one, and then exactly the entries of its room's log that are meant for it,
      in log order, from its joining to its leaving. */
  lemma {:induction false} DeliveryMatchesLog(h: History, c: Connection)
    requires IsHistory(h) && c in Homes(h)
    ensures c in Run(h).sent && Run(h).sent[c] == ExpectedFrames(h, c)
  {
    var before, e := h[..|h| - 1], h[|h| - 1];
    assert before + [e] == h;
    if e.Join? && e.c == c {
      JoinDelivers(before, c, e.room);
    } else {
      DeliveryMatchesLog(before, c);
      EventDelivers(before, e, c);
      LogDuringGrows(before, e, c);
      ExpectedGrows(before, e, c);
    }
  }

  lemma HeardConcat(c: Connection, a: seq<Entry>, b: seq<Entry>)
    requires |b| <= 1
    ensures FramesOf(Heard(c, a + b)) == FramesOf(Heard(c, a)) + FramesOf(Heard(c, b))
  {
    if b == [] {
      assert a + b == a;
    } else {
      assert b == [b[0]];
      HeardAppend(c, a, b[0]);
      OneEntryHeard(c, b[0]);
    }
  }

  lemma GreetingStays(before: History, e: Event, c: Connection)
    requires IsHistory(before + [e]) && c in Homes(before)
    ensures c in Homes(before + [e]) && GreetingOf(before + [e], c) == GreetingOf(before, c)
  {
    hide Greeting, Members, VenueOf, IsHistory, LogDuring, NewEntries, IsOpen, Homes, JoinedAt;
    var h, j := before + [e], JoinedAt(before, c);
    LogDuringGrows(before, e, c);
    assert h[..j + 1] == before[..j + 1] && h[..j] == before[..j];
  }

  lemma ExpectedGrows(before: History, e: Event, c: Connection)
    requires IsHistory(before + [e]) && c in Homes(before)
    ensures c in Homes(before + [e])
    ensures ExpectedFrames(before + [e], c) == ExpectedFrames(before, c) + NewFrames(before, e, c)
  {
    var h := before + [e];
    LogDuringGrows(before, e, c);
    var log := LogDuring(before, c);
    var more := if IsOpen(h, c) then NewEntries(before, e, Homes(before)[c]) else [];
    assert LogDuring(h, c) == log + more;
    HeardConcat(c, log, more);
    assert FramesOf(Heard(c, more)) == NewFrames(before, e, c);
    GreetingStays(before, e, c);
    ConcatAssoc(GreetingOf(before, c), FramesOf(Heard(c, log)), FramesOf(Heard(c, more)));
  }

  // ---------------------------------------------------------------- one order for all

  function HeardByBoth(c: Connection, d: Connection, log: seq<Entry>): seq<Entry> {
    if log == [] then []
    else
      var n := |log| - 1;
      HeardByBoth(c, d, log[..n]) + (if Hears(c, log[n]) && Hears(d, log[n]) then [log[n]] else [])
  }

  lemma {:induction false} BothIsHeardTwice(c: Connection, d: Connection, log: seq<Entry>)
    ensures Heard(d, Heard(c, log)) == HeardByBoth(c, d, log)
  {
    if log != [] {
      var n := |log| - 1;
      BothIsHeardTwice(c, d, log[..n]);
      HeardAppend(d, Heard(c, log[..n]), log[n]);
      assert Heard(c, log[..n]) + [] == Heard(c, log[..n]);
    }
  }

  lemma {:induction false} BothIsSymmetric(c: Connection, d: Connection, log: seq<Entry>)
    ensures HeardByBoth(c, d, log) == HeardByBoth(d, c, log)
  {
    if log != [] { BothIsSymmetric(c, d, log[..|log| - 1]); }
  }

  /** Any stretch of a room's log looks the same to two peers where both hear it: what reaches both reaches them in
      one order. */
  lemma PeersAgreeOnOrder(c: Connection, d: Connection, log: seq<Entry>)
    ensures Heard(d, Heard(c, log)) == Heard(c, Heard(d, log))
  {
    BothIsHeardTwice(c, d, log);
    BothIsHeardTwice(d, c, log);
    BothIsSymmetric(c, d, log);
  }

  lemma {:induction false} HeardSplits(c: Connection, a: seq<Entry>, b: seq<Entry>)
    ensures Heard(c, a + b) == Heard(c, a) + Heard(c, b)
  {
    if b == [] {
      assert a + b == a;
    } else {
      var n := |b| - 1;
      HeardSplits(c, a, b[..n]);
      assert (a + b)[..|a + b| - 1] == a + b[..n];
    }
  }

  lemma {:induction false} FramesSplit(a: seq<Entry>, b: seq<Entry>)
    ensures FramesOf(a + b) == FramesOf(a) + FramesOf(b)
  {
    if b == [] {
      assert a + b == a;
    } else {
      var n := |b| - 1;
      FramesSplit(a, b[..n]);
      assert (a + b)[..|a + b| - 1] == a + b[..n];
    }
  }

  /** The later of two peers lives through a tail of what the earlier one lives through. */
  lemma LaterLogIsTail(h: History, c: Connection, d: Connection) returns (first: seq<Entry>)
    requires IsHistory(h) && IsOpen(h, c) && IsOpen(h, d) && c in Homes(h) && d in Homes(h)
    requires Homes(h)[c] == Homes(h)[d] && JoinedAt(h, c) <= JoinedAt(h, d)
    ensures LogDuring(h, c) == first + LogDuring(h, d)
  {
    var r, i, j := Homes(h)[c], JoinedAt(h, c), JoinedAt(h, d);
    assert h[..|h|] == h && h[..j][..i] == h[..i];
    LogGrowsFrom(h, j, r);
    LogGrowsFrom(h[..j], i, r);
    first := RoomLog(h, r)[|RoomLog(h[..i], r)|..|RoomLog(h[..j], r)|];
  }

  /** From the later join on, two open peers of a room have been sent their shares of one log, and the entries that
      reach both reach them in one order. */
  lemma PeersOfARoomAgree(h: History, c: Connection, d: Connection) returns (earlier: seq<Frame>)
    requires IsHistory(h) && IsOpen(h, c) && IsOpen(h, d) && c in Homes(h) && d in Homes(h)
    requires Homes(h)[c] == Homes(h)[d] && JoinedAt(h, c) <= JoinedAt(h, d)
    ensures c in Run(h).sent && d in Run(h).sent
    ensures var log := LogDuring(h, d);
            && Run(h).sent[d] == GreetingOf(h, d) + FramesOf(Heard(d, log))
            && Run(h).sent[c] == earlier + FramesOf(Heard(c, log))
            && Heard(d, Heard(c, log)) == Heard(c, Heard(d, log))
  {
    DeliveryMatchesLog(h, c);
    DeliveryMatchesLog(h, d);
    PeersAgreeOnOrder(c, d, LogDuring(h, d));
    var first := LaterLogIsTail(h, c, d);
    ExpectedSplits(h, c, first, LogDuring(h, d));
    earlier := GreetingOf(h, c) + FramesOf(Heard(c, first));
  }

  lemma ExpectedSplits(h: History, c: Connection, first: seq<Entry>, log: seq<Entry>)
    requires c in Homes(h) && LogDuring(h, c) == first + log
    ensures ExpectedFrames(h, c) == GreetingOf(h, c) + FramesOf(Heard(c, first)) + FramesOf(Heard(c, log))
  {
    HeardSplits(c, first, log);
    FramesSplit(Heard(c, first), Heard(c, log));
    ConcatAssoc(GreetingOf(h, c), FramesOf(Heard(c, first)), FramesOf(Heard(c, log)));
  }
}
