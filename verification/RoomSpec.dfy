/** The room server as a state machine over whole handler runs, and what a connection should hear, told from the
    history of events alone. */
module RoomSpec {
  import opened JsArrays

  type RoomId = string

  /** The canonical JSON text of a command; it is never empty. */
  type Text = s: string | |s| > 0 witness "{}"

  /** A parsed client message, by the two types the server looks at. */
  datatype Command = Echo | Venue(text: Text) | Other(text: Text)

  /** A frame the server sends. */
  datatype Frame = JoinFrame(count: nat) | EchoFrame(count: nat) | Relay(cmd: Command)

  /** An accepted connection. `sent` is everything the server has sent on it. */
  class Connection {
    const id: RoomId
    var sent: seq<Frame>

    constructor (id: RoomId)
      ensures this.id == id && sent == []
    {
      this.id := id;
      sent := [];
    }

    method SendUTF(frame: Frame)
      modifies this
      ensures sent == old(sent) + [frame]
    {
      sent := sent + [frame];
    }
  }

  datatype Event = Join(c: Connection, room: RoomId) | Message(c: Connection, cmd: Command) | Close(c: Connection)

  type History = seq<Event>

  // ---------------------------------------------------------------- the server's own state

  /** A room: its peers in the order they joined, and its venue frame, empty while there is none. */
  datatype RoomState = RoomState(peers: seq<Connection>, venue: string)

  datatype State = State(
    rooms: map<RoomId, RoomState>,
    home: map<Connection, RoomId>,
    sent: map<Connection, seq<Frame>>)

  const START: State := State(map[], map[], map[])

  /** What a connection hears when it joins. */
  function Greeting(count: nat, venue: string): seq<Frame> {
    [JoinFrame(count)] + (if |venue| > 0 then [Relay(Venue(venue))] else [])
  }

  /** The frame goes to every peer but the sender. */
  function Broadcast(sent: map<Connection, seq<Frame>>, peers: seq<Connection>, sender: Connection, frame: Frame)
    : map<Connection, seq<Frame>>
  {
    map c | c in sent :: if c in peers && c != sender then sent[c] + [frame] else sent[c]
  }

  function RoomAt(s: State, r: RoomId): RoomState {
    if r in s.rooms then s.rooms[r] else RoomState([], "")
  }

  /** One handler run. Where the source would look up a room that does not exist and throw, nothing changes; that
      such a lookup never happens for an open connection is proved, not assumed. */
  function Step(s: State, e: Event): State {
    match e
    case Join(c, r) =>
      var room := RoomAt(s, r);
      var peers := room.peers + [c];
      State(s.rooms[r := RoomState(peers, room.venue)], s.home[c := r], s.sent[c := Greeting(|peers|, room.venue)])
    case Message(c, cmd) =>
      if c !in s.home || s.home[c] !in s.rooms || c !in s.sent then s
      else
        var r := s.home[c];
        var room := s.rooms[r];
        if cmd.Echo? then s.(sent := s.sent[c := s.sent[c] + [EchoFrame(|room.peers|)]])
        else
          var room' := if cmd.Venue? then room.(venue := cmd.text) else room;
          s.(rooms := s.rooms[r := room'], sent := Broadcast(s.sent, room.peers, c, Relay(cmd)))
    case Close(c) =>
      if c !in s.home || s.home[c] !in s.rooms then s
      else
        var r := s.home[c];
        var peers := FilterOut(s.rooms[r].peers, [c]);
        s.(rooms := if peers == [] then s.rooms - {r} else s.rooms[r := RoomState(peers, s.rooms[r].venue)])
  }

  function Run(h: History): State {
    if h == [] then START else Step(Run(h[..|h| - 1]), h[|h| - 1])
  }

  // ---------------------------------------------------------------- what the history says

  /** The room of every connection that was ever accepted. */
  function Homes(h: History): map<Connection, RoomId> {
    if h == [] then map[]
    else
      var before, e := h[..|h| - 1], h[|h| - 1];
      if e.Join? then Homes(before)[e.c := e.room] else Homes(before)
  }

  predicate IsAt(h: History, c: Connection, r: RoomId) {
    c in Homes(h) && Homes(h)[c] == r
  }

  /** Joined and not closed since. */
  predicate IsOpen(h: History, c: Connection) {
    if h == [] then false
    else
      var e := h[|h| - 1];
      if e.c == c && e.Join? then true
      else if e.c == c && e.Close? then false
      else IsOpen(h[..|h| - 1], c)
  }

  /** What the transport guarantees: a connection is accepted once, only open connections deliver messages, and only
      accepted ones close, though a close may be reported again. */
  ghost predicate IsHistory(h: History) {
    h == [] ||
    (var before, e := h[..|h| - 1], h[|h| - 1];
     && IsHistory(before)
     && match e
        case Join(c, _) => c !in Homes(before)
        case Message(c, _) => IsOpen(before, c)
        case Close(c) => c in Homes(before))
  }

  /** The open connections of a room. */
  function Members(h: History, r: RoomId): set<Connection> {
    if h == [] then {}
    else
      var before, e := h[..|h| - 1], h[|h| - 1];
      match e
      case Join(c, room) => if room == r then Members(before, r) + {c} else Members(before, r)
      case Message(_, _) => Members(before, r)
      case Close(c) => Members(before, r) - {c}
  }

  /** The last venue posted in the room since it was last empty. */
  function VenueOf(h: History, r: RoomId): string {
    if h == [] || Members(h, r) == {} then ""
    else
      var before, e := h[..|h| - 1], h[|h| - 1];
      if e.Message? && e.cmd.Venue? && IsAt(before, e.c, r) then e.cmd.text else VenueOf(before, r)
  }

  /** An entry of a room's log: a command posted to the room, or a head count that was asked for. */
  datatype Entry = Posted(who: Connection, cmd: Command) | Asked(who: Connection, count: nat)

  /** The entry that a message makes in the log of its room. */
  function EntryFor(before: History, d: Connection, cmd: Command, r: RoomId): Entry {
    if cmd.Echo? then Asked(d, |Members(before, r)|) else Posted(d, cmd)
  }

  function RoomLog(h: History, r: RoomId): seq<Entry> {
    if h == [] then []
    else
      var before, e := h[..|h| - 1], h[|h| - 1];
      if e.Message? && IsAt(before, e.c, r) then
        RoomLog(before, r) + [EntryFor(before, e.c, e.cmd, r)]
      else RoomLog(before, r)
  }

  /** Others hear what is posted; only the asker hears a head count. */
  predicate Hears(c: Connection, entry: Entry) {
    if entry.Posted? then entry.who != c else entry.who == c
  }

  function FrameOf(entry: Entry): Frame {
    if entry.Posted? then Relay(entry.cmd) else EchoFrame(entry.count)
  }

  /** The entries of the log that a connection hears, in order. */
  function Heard(c: Connection, log: seq<Entry>): seq<Entry> {
    if log == [] then []
    else
      var n := |log| - 1;
      Heard(c, log[..n]) + (if Hears(c, log[n]) then [log[n]] else [])
  }

  function FramesOf(log: seq<Entry>): seq<Frame> {
    if log == [] then [] else FramesOf(log[..|log| - 1]) + [FrameOf(log[|log| - 1])]
  }

  /** How many events happened before the connection joined. */
  function JoinedAt(h: History, c: Connection): (n: nat)
    requires c in Homes(h)
    ensures n < |h|
  {
    if h[|h| - 1].Join? && h[|h| - 1].c == c then |h| - 1 else JoinedAt(h[..|h| - 1], c)
  }

  /** How many events happened before the connection closed; all of them while it is open. */
  function LeftAt(h: History, c: Connection): (n: nat)
    requires c in Homes(h)
    ensures JoinedAt(h, c) < n <= |h|
  {
    if IsOpen(h, c) then |h|
    else LeftAt(h[..|h| - 1], c)
  }

  /** The log of a connection's room between its joining and its leaving. */
  function LogDuring(h: History, c: Connection): seq<Entry>
    requires c in Homes(h)
  {
    var r := Homes(h)[c];
    var from := |RoomLog(h[..JoinedAt(h, c)], r)|;
    var log := RoomLog(h[..LeftAt(h, c)], r);
    if from <= |log| then log[from..] else []
  }

  /** The head count when the connection had joined, and the venue of its room just before. */
  function GreetingOf(h: History, c: Connection): seq<Frame>
    requires c in Homes(h)
  {
    var j, r := JoinedAt(h, c), Homes(h)[c];
    var count, venue := JoinFrame(|Members(h[..j + 1], r)|), VenueOf(h[..j], r);
    if venue == "" then [count] else [count, Relay(Venue(venue))]
  }

  /** The greeting, and then what the room's log holds for this connection. */
  function ExpectedFrames(h: History, c: Connection): seq<Frame>
    requires c in Homes(h)
  {
    GreetingOf(h, c) + FramesOf(Heard(c, LogDuring(h, c)))
  }
}
