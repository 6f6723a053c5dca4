/** The Annex B byte-stream scanner and the frame-splitting driver built on it. */
module AnnexB {
  import opened Common

  /** A start code prefix 00 00 01 ends just before position `k`. */
  predicate PrefixEndsAt(s: seq<byte>, k: int) {
    3 <= k <= |s| && s[k - 3] == 0 && s[k - 2] == 0 && s[k - 1] == 1
  }

  /** A unit that contains no start code prefix (section 7.4.1 of ITU-T H.264). */
  ghost predicate Clean(s: seq<byte>) {
    forall k :: !PrefixEndsAt(s, k)
  }

  /** The plain search that the scanner must agree with: try every position in turn. */
  function FirstPrefixEndFrom(s: seq<byte>, from: nat): (r: Option<nat>)
    ensures r.Some? ==> 3 <= r.value <= |s|
    decreases |s| - from
  {
    if from > |s| then None
    else if PrefixEndsAt(s, from) then Some(from)
    else FirstPrefixEndFrom(s, from + 1)
  }

  function FirstPrefixEnd(s: seq<byte>): Option<nat> {
    FirstPrefixEndFrom(s, 0)
  }

  lemma {:induction false} FirstPrefixEndFromIsLeast(s: seq<byte>, from: nat)
    ensures match FirstPrefixEndFrom(s, from)
            case Some(k) => from <= k && PrefixEndsAt(s, k) && forall j :: from <= j < k ==> !PrefixEndsAt(s, j)
            case None => forall j :: from <= j ==> !PrefixEndsAt(s, j)
    decreases |s| - from
  {
    if from <= |s| && !PrefixEndsAt(s, from) { FirstPrefixEndFromIsLeast(s, from + 1); }
  }

  /** The least position at which a prefix ends, and none exactly when there is no prefix at all. */
  lemma FirstPrefixEndIsLeast(s: seq<byte>)
    ensures match FirstPrefixEnd(s)
            case Some(k) => PrefixEndsAt(s, k) && forall j :: j < k ==> !PrefixEndsAt(s, j)
            case None => Clean(s)
  {
    FirstPrefixEndFromIsLeast(s, 0);
  }

  lemma FirstPrefixEndIs(s: seq<byte>, k: nat)
    requires PrefixEndsAt(s, k)
    requires forall j :: j < k ==> !PrefixEndsAt(s, j)
    ensures FirstPrefixEnd(s) == Some(k)
  {
    FirstPrefixEndIsLeast(s);
    var r := FirstPrefixEnd(s);
    assert r.Some?;
    assert !(r.value < k) && !(k < r.value);
  }

  lemma CleanHasNone(s: seq<byte>)
    requires Clean(s)
    ensures FirstPrefixEnd(s) == None
  {
    FirstPrefixEndIsLeast(s);
  }

  lemma PrefixIs(s: seq<byte>, k: int)
    ensures PrefixEndsAt(s, k) <==> 3 <= k <= |s| && s[k - 3..k] == [0, 0, 1]
  {
    if 3 <= k <= |s| {
      var last := s[k - 3..k];
      assert last[0] == s[k - 3] && last[1] == s[k - 2] && last[2] == s[k - 1];
    }
  }

  /** The bytes that `size` bytes from `base` denote; a size that is not positive denotes none. */
  function Window(s: seq<byte>, base: nat, size: int): seq<byte>
    requires base <= |s| && base + size <= |s|
  {
    if size <= 0 then [] else s[base..base + size]
  }

  /** One pass over the zero runs. The returned position is the scanner's return pointer (None for NULL);
      `offset` is the caller's variable behind the out-pointer, left alone when nothing is found. */
  method DetectStartCodePrefix(buf: array<byte>, base: nat, size: int, offsetBefore: int)
    returns (next: Option<nat>, offset: int)
    requires base <= buf.Length && base + size <= buf.Length
    ensures match FirstPrefixEnd(Window(buf[..], base, size))
            case Some(k) => next == Some(base + k) && offset == k
            case None => next == None && offset == offsetBefore
  {
    ghost var s := Window(buf[..], base, size);
    var bits, remaining := base, size;
    offset := offsetBefore;
    while true
      invariant base <= bits <= buf.Length && bits + remaining == base + size
      invariant remaining >= 0 || bits == base
      invariant forall j :: j <= bits - base ==> !PrefixEndsAt(s, j)
      invariant bits == base || s[bits - base - 1] != 0
      decreases remaining
    {
      var idx := 0;
      while idx < remaining && buf[bits] == 0
        invariant 0 <= idx && (idx <= remaining || idx == 0)
        invariant base + idx <= bits <= buf.Length && bits - idx + remaining == base + size
        invariant bits - idx == base || s[bits - idx - base - 1] != 0
        invariant forall k :: bits - idx - base <= k < bits - base ==> s[k] == 0
        invariant forall j :: j <= bits - base ==> !PrefixEndsAt(s, j)
      {
        assert s[bits - base] == buf[bits];
        bits := bits + 1;
        idx := idx + 1;
      }
      if idx >= remaining { break; }
      assert s[bits - base] == buf[bits];
      idx := idx + 1;
      bits := bits + 1;
      if idx >= 3 && buf[bits - 1] == 1 {
        assert PrefixEndsAt(s, bits - base);
        FirstPrefixEndIs(s, bits - base);
        return Some(bits), bits - base;
      }
      remaining := remaining - idx;
    }
    assert forall j :: !PrefixEndsAt(s, j);
    CleanHasNone(s);
    next := None;
  }

  /** What the driver hands to the decoder: where a frame starts and how many bytes it claims. */
  datatype Frame = Frame(start: nat, len: nat)

  const UINT_RANGE: int := 0x1_0000_0000
  const INT_MAX: int := 0x7fff_ffff

  /** Conversion of an int to a 32-bit unsigned int. */
  function AsUnsigned(n: int): nat
    requires -UINT_RANGE <= n < UINT_RANGE
  {
    if n < 0 then n + UINT_RANGE else n
  }

  lemma UnsignedIs(n: int)
    requires -0x1_0000_0000 <= n < 0x1_0000_0000
    ensures AsUnsigned(n) == n % 0x1_0000_0000
  {
    ModUnique(n, 0x1_0000_0000, if n < 0 then -1 else 0, if n < 0 then n + 0x1_0000_0000 else n);
  }

  /** One turn of the driver that stands at `data`: the frame it hands over, and where it stands next. */
  function Turn(s: seq<byte>, data: nat): (r: (Frame, nat))
    requires data <= |s| <= INT_MAX && FirstPrefixEnd(s).Some?
    ensures r.1 <= |s|
  {
    match FirstPrefixEnd(s[data..])
    case None => (Frame(data, |s| - data), FirstPrefixEnd(s).value)
    case Some(k) => (Frame(data, AsUnsigned(k - 4)), data + k)
  }

  function FramesFrom(s: seq<byte>, data: nat, steps: nat): (frames: seq<Frame>)
    requires data <= |s| <= INT_MAX && FirstPrefixEnd(s).Some?
    ensures |frames| == steps
    decreases steps
  {
    if steps == 0 then [] else [Turn(s, data).0] + FramesFrom(s, Turn(s, data).1, steps - 1)
  }

  lemma FramesFromStep(s: seq<byte>, done: seq<Frame>, data: nat, steps: nat)
    requires data <= |s| <= INT_MAX && FirstPrefixEnd(s).Some? && steps > 0
    ensures done + FramesFrom(s, data, steps)
            == (done + [Turn(s, data).0]) + FramesFrom(s, Turn(s, data).1, steps - 1)
  {
  }

  function Frames(s: seq<byte>, steps: nat): seq<Frame>
    requires |s| <= INT_MAX && FirstPrefixEnd(s).Some?
  {
    FramesFrom(s, FirstPrefixEnd(s).value, steps)
  }

  /** The splitting loop: scan, hand over, and start again from the top when the buffer is exhausted. Without any start
      code the first scan gives a null pointer and no offset, and the loop has nothing to hand over: the result is
      none. */
  method SplitFrames(buf: array<byte>, steps: nat) returns (frames: Option<seq<Frame>>)
    requires buf.Length <= INT_MAX
    ensures frames == if FirstPrefixEnd(buf[..]).Some? then Some(Frames(buf[..], steps)) else None
  {
    hide FirstPrefixEndFrom;
    var bufferSize := buf.Length;
    assert Window(buf[..], 0, bufferSize) == buf[..];
    var data: Option<nat>, offset: int := DetectStartCodePrefix(buf, 0, bufferSize, 0);
    if data.None? { return None; }
    ghost var s, all := buf[..], Frames(buf[..], steps);
    var handed: seq<Frame> := [];
    var i := 0;
    while i < steps
      invariant 0 <= i <= steps && buf[..] == s
      invariant data.Some? && data.value <= buf.Length && bufferSize - offset == buf.Length - data.value
      invariant handed + FramesFrom(s, data.value, steps - i) == all
    {
      ghost var turn := Turn(s, data.value);
      FramesFromStep(s, handed, data.value, steps - i);
      bufferSize := bufferSize - offset;
      assert Window(s, data.value, bufferSize) == s[data.value..];
      var next: Option<nat>;
      next, offset := DetectStartCodePrefix(buf, data.value, bufferSize, offset);
      var frame;
      if next.None? {
        frame := Frame(data.value, bufferSize);
        bufferSize := buf.Length;
        data, offset := DetectStartCodePrefix(buf, 0, bufferSize, offset);
      } else {
        frame := Frame(data.value, AsUnsigned(next.value - data.value - 4));
        data := next;
      }
      assert frame == turn.0;
      assert data == Some(turn.1);
      handed := handed + [frame];
      i := i + 1;
    }
    assert FramesFrom(s, data.value, 0) == [] && handed == all;
    frames := Some(handed);
  }

  // ---------------------------------------------------------------- streams of units

  /** A unit and the form of the start code written before it: four bytes, or three. */
  datatype Unit = Unit(long: bool, payload: seq<byte>)

  function StartCode(long: bool): seq<byte> {
    if long then [0, 0, 0, 1] else [0, 0, 1]
  }

  function Stream(us: seq<Unit>): seq<byte> {
    if us == [] then [] else StartCode(us[0].long) + us[0].payload + Stream(us[1..])
  }

  ghost predicate AllClean(us: seq<Unit>) {
    forall i :: 0 <= i < |us| ==> Clean(us[i].payload)
  }

  /** A buffer: the stream of some units, and before it bytes that hold no start code. */
  function Buffer(lead: seq<byte>, us: seq<Unit>): seq<byte> {
    lead + Stream(us)
  }

  /** Where the payload of unit `m` starts in the buffer. */
  function PayloadStart(lead: seq<byte>, us: seq<Unit>, m: nat): nat
    requires m < |us|
  {
    |lead| + |Stream(us[..m])| + |StartCode(us[m].long)|
  }

  lemma StreamCons(us: seq<Unit>)
    requires us != []
    ensures Stream(us) == StartCode(us[0].long) + us[0].payload + Stream(us[1..])
  {
  }

  /** Four-byte and three-byte start codes. */
  lemma StreamIs(u: Unit, us: seq<Unit>)
    ensures Stream([]) == []
    ensures Stream([u] + us) == (if u.long then [0, 0, 0, 1] else [0, 0, 1]) + u.payload + Stream(us)
  {
    assert ([u] + us)[1..] == us;
  }

  lemma {:induction false} StreamCut(us: seq<Unit>, m: nat)
    requires m <= |us|
    ensures Stream(us) == Stream(us[..m]) + Stream(us[m..])
  {
    if m == 0 {
      assert us[..0] == [] && us[0..] == us;
    } else {
      hide Stream, StartCode;
      StreamCut(us[1..], m - 1);
      assert us[..m][1..] == us[1..][..m - 1] && us[m..] == us[1..][m - 1..];
      StreamCons(us);
      StreamCons(us[..m]);
      ConcatAssoc(StartCode(us[0].long) + us[0].payload, Stream(us[..m][1..]), Stream(us[m..]));
    }
  }

  /** From the payload of unit `m` on, the buffer is that payload and the later units. */
  lemma AtPayload(lead: seq<byte>, us: seq<Unit>, m: nat)
    requires m < |us|
    ensures PayloadStart(lead, us, m) + |us[m].payload| <= |Buffer(lead, us)|
    ensures Buffer(lead, us)[PayloadStart(lead, us, m)..] == us[m].payload + Stream(us[m + 1..])
  {
    var a, b, c := Stream(us[..m]), StartCode(us[m].long), us[m].payload + Stream(us[m + 1..]);
    assert Stream(us) == a + (b + c) by {
      StreamCut(us, m);
      assert us[m..][1..] == us[m + 1..];
      ConcatAssoc(b, us[m].payload, Stream(us[m + 1..]));
    }
    assert Buffer(lead, us) == ((lead + a) + b) + c by {
      ConcatAssoc(lead, a, b + c);
      ConcatAssoc(lead + a, b, c);
    }
    DropTake((lead + a) + b, c);
  }

  lemma PayloadFits(lead: seq<byte>, us: seq<Unit>, m: nat)
    requires m < |us|
    ensures PayloadStart(lead, us, m) + |us[m].payload| <= |Buffer(lead, us)|
  {
    AtPayload(lead, us, m);
  }

  lemma PayloadInBuffer(lead: seq<byte>, us: seq<Unit>, m: nat)
    requires m < |us|
    ensures var d, p := PayloadStart(lead, us, m), us[m].payload;
            d + |p| <= |Buffer(lead, us)| && Buffer(lead, us)[d..d + |p|] == p
  {
    AtPayload(lead, us, m);
    var d, p := PayloadStart(lead, us, m), us[m].payload;
    assert Buffer(lead, us)[d..d + |p|] == Buffer(lead, us)[d..][..|p|];
  }

  /** The first prefix after a clean payload is the next unit's own, whatever zeros the payload ends in. */
  lemma NextPrefix(payload: seq<byte>, rest: seq<Unit>)
    requires Clean(payload)
    ensures FirstPrefixEnd(payload + Stream(rest))
            == if rest == [] then None else Some(|payload| + |StartCode(rest[0].long)|)
  {
    var s := payload + Stream(rest);
    forall j | j <= |payload| ensures !PrefixEndsAt(s, j) {
      if 3 <= j {
        assert s[j - 3] == payload[j - 3] && s[j - 2] == payload[j - 2] && s[j - 1] == payload[j - 1];
        assert !PrefixEndsAt(payload, j);
      }
    }
    if rest != [] {
      var code := StartCode(rest[0].long);
      var k := |payload| + |code|;
      assert Stream(rest) == code + (rest[0].payload + Stream(rest[1..]));
      assert forall j :: 0 <= j < |code| ==> s[|payload| + j] == code[j];
      assert s[k - 1] == code[|code| - 1] == 1;
      assert s[k - 2] == code[|code| - 2] == 0 && s[k - 3] == code[|code| - 3] == 0;
      assert PrefixEndsAt(s, k);
      forall j | j < k ensures !PrefixEndsAt(s, j) {
        if |payload| < j { assert s[j - 1] == code[j - 1 - |payload|] == 0; }
      }
      FirstPrefixEndIs(s, k);
    } else {
      assert s == payload;
      CleanHasNone(s);
    }
  }

  lemma BufferStarts(lead: seq<byte>, us: seq<Unit>)
    requires Clean(lead) && us != []
    ensures FirstPrefixEnd(Buffer(lead, us)) == Some(PayloadStart(lead, us, 0))
  {
    NextPrefix(lead, us);
    assert us[..0] == [];
  }

  /** The length the driver claims for unit `m`: it always subtracts a four-byte start code. */
  function ClaimedLength(us: seq<Unit>, m: nat): nat
    requires m < |us| && |us[m].payload| <= INT_MAX
  {
    if m == |us| - 1 || us[m + 1].long then |us[m].payload| else AsUnsigned(|us[m].payload| - 1)
  }

  lemma PayloadStartNext(lead: seq<byte>, us: seq<Unit>, m: nat)
    requires m + 1 < |us|
    ensures PayloadStart(lead, us, m + 1) == PayloadStart(lead, us, m) + |us[m].payload| + |StartCode(us[m + 1].long)|
  {
    StreamCut(us[..m + 1], m);
    assert us[..m + 1][..m] == us[..m];
    assert us[..m + 1][m..] == [us[m]];
    assert Stream([us[m]]) == StartCode(us[m].long) + us[m].payload + Stream([]);
  }

  /** The unit after `m`, going back to the first one after the last of `n`. */
  function NextUnit(m: nat, n: nat): (next: nat)
    requires m < n
    ensures next < n
  {
    if m + 1 < n then m + 1 else 0
  }

  /** The unit `i` turns after `m`. */
  function UnitAfter(m: nat, n: nat, i: nat): (u: nat)
    requires m < n
    ensures u < n
    decreases i
  {
    if i == 0 then m else UnitAfter(NextUnit(m, n), n, i - 1)
  }

  lemma {:induction false} UnitAfterIsModulo(m: nat, n: nat, i: nat)
    requires m < n
    ensures UnitAfter(m, n, i) == (m + i) % n
    decreases i
  {
    if i == 0 {
      ModUnique(m, n, 0, m);
    } else {
      UnitAfterIsModulo(NextUnit(m, n), n, i - 1);
      if m + 1 == n { ModShift(i - 1, n); }
    }
  }

  /** A turn that stands at a clean payload with the stream of `rest` behind it. */
  lemma TurnAtPayload(s: seq<byte>, d: nat, p: seq<byte>, rest: seq<Unit>)
    requires d <= |s| <= INT_MAX && FirstPrefixEnd(s).Some?
    requires Clean(p) && s[d..] == p + Stream(rest)
    ensures rest == [] ==> Turn(s, d) == (Frame(d, |p|), FirstPrefixEnd(s).value)
    ensures rest != [] ==> Turn(s, d) == (Frame(d, if rest[0].long then |p| else AsUnsigned(|p| - 1)),
                                          d + |p| + |StartCode(rest[0].long)|)
  {
    NextPrefix(p, rest);
  }

  /** A turn that starts at unit `m` claims that unit and moves on to the next. */
  lemma TurnAtUnit(lead: seq<byte>, us: seq<Unit>, m: nat)
    requires m < |us| && AllClean(us) && |Buffer(lead, us)| <= INT_MAX
    requires PayloadStart(lead, us, m) + |us[m].payload| <= |Buffer(lead, us)|
    requires FirstPrefixEnd(Buffer(lead, us)) == Some(PayloadStart(lead, us, 0))
    ensures Turn(Buffer(lead, us), PayloadStart(lead, us, m))
            == (Frame(PayloadStart(lead, us, m), ClaimedLength(us, m)), PayloadStart(lead, us, NextUnit(m, |us|)))
  {
    var rest := us[m + 1..];
    assert Buffer(lead, us)[PayloadStart(lead, us, m)..] == us[m].payload + Stream(rest) by { AtPayload(lead, us, m); }
    TurnAtPayload(Buffer(lead, us), PayloadStart(lead, us, m), us[m].payload, rest);
    if m + 1 < |us| {
      PayloadStartNext(lead, us, m);
    }
  }

  lemma {:induction false} FramesFromUnit(lead: seq<byte>, us: seq<Unit>, m: nat, steps: nat, i: nat)
    requires m < |us| && AllClean(us) && |Buffer(lead, us)| <= INT_MAX && i < steps
    requires FirstPrefixEnd(Buffer(lead, us)) == Some(PayloadStart(lead, us, 0))
    requires PayloadStart(lead, us, m) + |us[m].payload| <= |Buffer(lead, us)|
    ensures var u := UnitAfter(m, |us|, i);
            && |us[u].payload| <= INT_MAX
            && FramesFrom(Buffer(lead, us), PayloadStart(lead, us, m), steps)[i]
               == Frame(PayloadStart(lead, us, u), ClaimedLength(us, u))
    decreases steps
  {
    hide Buffer, PayloadStart, ClaimedLength, Turn, FirstPrefixEnd, AllClean, Clean;
    TurnAtUnit(lead, us, m);
    if i > 0 {
      var next := NextUnit(m, |us|);
      PayloadFits(lead, us, next);
      FramesFromUnit(lead, us, next, steps - 1, i - 1);
    }
  }

  /** The frame starts at unit `m`, and is that unit exactly when no byte of it is taken for a start code; otherwise it
      is one byte short, which for an empty unit wraps around. */
  ghost predicate Claims(lead: seq<byte>, us: seq<Unit>, m: nat, f: Frame)
    requires m < |us|
  {
    var s, p := Buffer(lead, us), us[m].payload;
    && f.start == PayloadStart(lead, us, m)
    && f.start + |p| <= |s|
    && s[f.start..f.start + |p|] == p
    && (f.len == |p| <==> m == |us| - 1 || us[m + 1].long)
    && (f.len != |p| ==> f.len == if p == [] then UINT_RANGE - 1 else |p| - 1)
  }

  lemma FrameOfUnit(lead: seq<byte>, us: seq<Unit>, m: nat)
    requires m < |us| && |us[m].payload| <= INT_MAX
    ensures Claims(lead, us, m, Frame(PayloadStart(lead, us, m), ClaimedLength(us, m)))
  {
    PayloadInBuffer(lead, us, m);
  }

  lemma FramesAtUnit(lead: seq<byte>, us: seq<Unit>, steps: nat, i: nat)
    requires us != [] && Clean(lead) && AllClean(us) && |Buffer(lead, us)| <= INT_MAX && i < steps
    ensures FirstPrefixEnd(Buffer(lead, us)).Some? && |us[i % |us|].payload| <= INT_MAX
    ensures Frames(Buffer(lead, us), steps)[i] == Frame(PayloadStart(lead, us, i % |us|), ClaimedLength(us, i % |us|))
  {
    hide Buffer, PayloadStart, ClaimedLength, FramesFrom, FirstPrefixEnd, AllClean, Clean;
    BufferStarts(lead, us);
    PayloadFits(lead, us, 0);
    FramesFromUnit(lead, us, 0, steps, i);
    UnitAfterIsModulo(0, |us|, i);
  }

  /** Split after join, for any mix of three- and four-byte start codes: turn i of the driver starts at
      unit i mod n, through any number of wrap-arounds. The bytes it claims are exactly that unit's if and only if the
      unit is the last one or the start code after it has four bytes. */
  lemma SplitAfterJoin(lead: seq<byte>, us: seq<Unit>, steps: nat, i: nat)
    requires us != [] && Clean(lead) && AllClean(us) && |Buffer(lead, us)| <= INT_MAX && i < steps
    ensures FirstPrefixEnd(Buffer(lead, us)).Some?
    ensures Claims(lead, us, i % |us|, Frames(Buffer(lead, us), steps)[i])
  {
    FramesAtUnit(lead, us, steps, i);
    FrameOfUnit(lead, us, i % |us|);
  }

  /** A unit that is cut: a unit of one byte before a three-byte start code is handed over as no bytes at all. */
  lemma ThreeByteCodeCutsUnit() returns (us: seq<Unit>)
    ensures us == [Unit(true, [9]), Unit(false, [9])] && AllClean(us)
    ensures Buffer([], us) == [0, 0, 0, 1, 9, 0, 0, 1, 9]
    ensures FirstPrefixEnd(Buffer([], us)).Some?
    ensures Frames(Buffer([], us), 1)[0] == Frame(4, 0) && |us[0].payload| == 1
  {
    us := [Unit(true, [9]), Unit(false, [9])];
    StreamCons(us);
    StreamCons(us[1..]);
    assert us[1..][1..] == [] && us[1..][0] == us[1] && us[..0] == [];
    assert Buffer([], us) == [0, 0, 0, 1, 9, 0, 0, 1, 9];
    FramesAtUnit([], us, 1, 0);
  }

  /** With four-byte start codes before every unit but possibly the first, the driver undoes the join. */
  lemma SplitUndoesJoin(lead: seq<byte>, us: seq<Unit>, steps: nat)
    requires us != [] && Clean(lead) && AllClean(us) && |Buffer(lead, us)| <= INT_MAX
    requires forall m :: 1 <= m < |us| ==> us[m].long
    ensures FirstPrefixEnd(Buffer(lead, us)).Some?
    ensures forall i :: 0 <= i < steps ==>
              var f := Frames(Buffer(lead, us), steps)[i];
              && f.start + f.len <= |Buffer(lead, us)|
              && Buffer(lead, us)[f.start..f.start + f.len] == us[i % |us|].payload
  {
    hide Buffer, PayloadStart, FramesFrom, AllClean, Clean, FirstPrefixEnd;
    BufferStarts(lead, us);
    forall i | 0 <= i < steps
      ensures var f := Frames(Buffer(lead, us), steps)[i];
              && f.start + f.len <= |Buffer(lead, us)|
              && Buffer(lead, us)[f.start..f.start + f.len] == us[i % |us|].payload
    {
      SplitAfterJoin(lead, us, steps, i);
    }
  }

  lemma AllCleanCons(u: Unit, us: seq<Unit>)
    requires Clean(u.payload) && AllClean(us)
    ensures AllClean([u] + us)
  {
    hide Clean;
  }

  lemma {:induction false} StreamAfterStartCode(long: bool, s: seq<byte>) returns (us: seq<Unit>)
    ensures us != [] && AllClean(us) && us[0].long == long
    ensures Stream(us) == StartCode(long) + s
    decreases |s|
  {
    match FirstPrefixEnd(s) {
      case None =>
        FirstPrefixEndIsLeast(s);
        us := [Unit(long, s)];
        assert Stream(us) == StartCode(long) + s + Stream([]);
      case Some(k) =>
        hide Clean, AllClean, StartCode, Stream, FirstPrefixEnd;
        var four, cut := CutAtPrefix(s, k);
        var later := StreamAfterStartCode(four, s[k..]);
        us := [Unit(long, s[..cut])] + later;
        AllCleanCons(us[0], later);
        assert us[1..] == later;
        StreamCons(us);
        CutInThree(s, cut, k);
        ConcatAssoc(StartCode(long), s[..cut], Stream(later));
    }
  }

  /** The bytes before the first prefix split into a clean unit and a start code of three or four bytes. */
  lemma CutAtPrefix(s: seq<byte>, k: nat) returns (four: bool, cut: nat)
    requires FirstPrefixEnd(s) == Some(k)
    ensures cut <= k <= |s| && s[cut..k] == StartCode(four) && Clean(s[..cut])
  {
    FirstPrefixEndIsLeast(s);
    four := k >= 4 && s[k - 4] == 0;
    cut := k - |StartCode(four)|;
    forall j ensures !PrefixEndsAt(s[..cut], j) {
      assert j < k ==> !PrefixEndsAt(s, j);
    }
  }

  /** Join after split: every buffer that holds a start code is the stream of some clean units after clean bytes. */
  lemma EveryBufferIsAStream(s: seq<byte>) returns (lead: seq<byte>, us: seq<Unit>)
    requires FirstPrefixEnd(s).Some?
    ensures us != [] && Clean(lead) && AllClean(us)
    ensures s == Buffer(lead, us)
  {
    var k := FirstPrefixEnd(s).value;
    var four, cut := CutAtPrefix(s, k);
    lead := s[..cut];
    us := StreamAfterStartCode(four, s[k..]);
    hide Clean, AllClean, StartCode, Stream, FirstPrefixEnd;
    CutInThree(s, cut, k);
  }
}
