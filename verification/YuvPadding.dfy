/** The padding of an expected I420 frame: side bars, and at rotation 270 the ramps between them. */
module YuvPadding {
  import opened Common
  import opened YuvLayout
  import opened YuvPatterns
  import opened YuvFill
  import opened YuvBuilders

  const LUMA_BLACK: byte := 0
  const CHROMA_NEUTRAL: byte := 0x80

  /** Column `x` of a row of `cols` samples lies in one of the two bars. */
  predicate InBar(x: nat, cols: nat, bar: nat) {
    x < bar || x >= cols - bar
  }

  /** What happens between the bars: the samples are kept, or the first `n` of them become a ramp that goes up or down
      from row to row. */
  datatype Middle = Keep | Up(first: int, n: nat) | Down(first: int, n: nat)

  function Level(m: Middle, i: nat): int
    requires !m.Keep?
  {
    if m.Up? then m.first + i else m.first - i
  }

  function MiddleWidth(m: Middle): nat {
    if m.Keep? then 0 else m.n
  }

  function PadSample(x: nat, cols: nat, i: nat, bar: nat, value: byte, m: Middle, sample: byte): byte {
    if InBar(x, cols, bar) then value
    else if x < bar + MiddleWidth(m) then AsByte(Level(m, i))
    else sample
  }

  function PadRow(row: seq<byte>, i: nat, bar: nat, value: byte, m: Middle): (r: seq<byte>)
    ensures |r| == |row|
    ensures forall x :: 0 <= x < |row| ==> r[x] == PadSample(x, |row|, i, bar, value, m, row[x])
  {
    seq(|row|, x requires 0 <= x < |row| => PadSample(x, |row|, i, bar, value, m, row[x]))
  }

  function PadPlane(p: Plane, bar: nat, value: byte, m: Middle): (r: Plane)
    ensures |r| == |p| && forall i :: 0 <= i < |p| ==> r[i] == PadRow(p[i], i, bar, value, m)
  {
    seq(|p|, i requires 0 <= i < |p| => PadRow(p[i], i, bar, value, m))
  }

  /** What is done to the three planes: the width of the bars, and the samples between them. */
  datatype Padding = Padding(bar: nat, barC: nat, y: Middle, u: Middle, v: Middle)

  predicate PaddingFits(p: Padding, w: nat) {
    && p.bar + MiddleWidth(p.y) <= w
    && p.barC + MiddleWidth(p.u) <= w / 2 && p.barC + MiddleWidth(p.v) <= w / 2
  }

  function PadImage(i: Image, p: Padding): Image {
    Image(PadPlane(i.y, p.bar, LUMA_BLACK, p.y),
          PadPlane(i.u, p.barC, CHROMA_NEUTRAL, p.u),
          PadPlane(i.v, p.barC, CHROMA_NEUTRAL, p.v))
  }

  lemma PaddedSize(i: Image, p: Padding, w: nat, h: nat)
    requires ImageHasSize(i, w, h)
    ensures ImageHasSize(PadImage(i, p), w, h)
  {
  }

  /** `n / 2` of the source, which rounds towards zero. */
  function Half(n: int): int {
    if n < 0 then -((-n) / 2) else n / 2
  }

  /** Bars only. */
  function SideBars(paddingLenW: nat): Padding {
    Padding(paddingLenW / 2, paddingLenW / 2 / 2, Keep, Keep, Keep)
  }

  /** Bars, and between them the rows of a picture that was turned by 270 degrees and is cropped or padded in height. */
  function TurnedPadding(w: nat, h: nat, paddingLenW: nat, paddingLenH: int): Padding
    requires paddingLenW <= w
  {
    var shift, shiftC := Half(paddingLenH), Half(Half(paddingLenH));
    var n, nC := w - paddingLenW, w / 2 - paddingLenW / 2;
    Padding(paddingLenW / 2, paddingLenW / 2 / 2,
            Down(h - 2 - shift, n), Up(1 - shiftC, nC), Down(h / 2 - 1 - shiftC, nC))
  }

  // ---------------------------------------------------------------- in place

  /** The memsets of one row: the left bar, the middle unless it is kept, and the right bar. */
  method PadRowInPlace(data: array<byte>, at: nat, cols: nat, i: nat, bar: nat, value: byte, m: Middle,
                       ghost row: seq<byte>)
    requires |row| == cols && at + cols <= data.Length && data[at..at + cols] == row
    requires bar + MiddleWidth(m) <= cols
    modifies data
    ensures data[..] == Overwrite(old(data[..]), at, PadRow(row, i, bar, value, m))
  {
    hide Overwrite, PadRow;
    ghost var before := data[..];
    Memset(data, at, value, bar);
    ghost var left := data[..];
    if !m.Keep? {
      Memset(data, at + bar, Level(m, i), m.n);
    }
    ghost var middle := data[..];
    Memset(data, at + cols - bar, value, bar);
    RowIsPadded(before, left, middle, data[..], at, row, i, bar, value, m);
  }

  lemma RowIsPadded(before: seq<byte>, left: seq<byte>, middle: seq<byte>, after: seq<byte>, at: nat,
                    row: seq<byte>, i: nat, bar: nat, value: byte, m: Middle)
    requires at + |row| <= |before| && before[at..at + |row|] == row && bar + MiddleWidth(m) <= |row|
    requires left == Overwrite(before, at, Filled(value as int, bar))
    requires middle == if m.Keep? then left else Overwrite(left, at + bar, Filled(Level(m, i), m.n))
    requires after == Overwrite(middle, at + |row| - bar, Filled(value as int, bar))
    ensures after == Overwrite(before, at, PadRow(row, i, bar, value, m))
  {
    hide Overwrite, PadRow;
    forall k | 0 <= k < |before|
      ensures after[k] == if at <= k < at + |row| then PadRow(row, i, bar, value, m)[k - at] else before[k]
    {
      OverwriteAt(before, at, Filled(value as int, bar), k);
      if !m.Keep? { OverwriteAt(left, at + bar, Filled(Level(m, i), m.n), k); }
      OverwriteAt(middle, at + |row| - bar, Filled(value as int, bar), k);
    }
    OverwriteIs(before, at, PadRow(row, i, bar, value, m), after);
  }

  /** The buffer holds the plane from `at` on. */
  ghost predicate Holds(s: seq<byte>, at: nat, p: Plane) {
    at + |Flat(p)| <= |s| && s[at..at + |Flat(p)|] == Flat(p)
  }

  lemma {:induction false} FlatSlice(p: Plane, n: nat, i: nat)
    requires i < n <= |p|
    ensures |FlatTo(p, i)| + |p[i]| <= |FlatTo(p, n)|
    ensures FlatTo(p, n)[|FlatTo(p, i)|..|FlatTo(p, i)| + |p[i]|] == p[i]
  {
    if i < n - 1 { FlatSlice(p, n - 1, i); }
  }

  lemma HeldRow(s: seq<byte>, at: nat, p: Plane, i: nat)
    requires Holds(s, at, p) && i < |p|
    ensures at + |FlatTo(p, i)| + |p[i]| <= at + |Flat(p)| <= |s|
    ensures s[at + |FlatTo(p, i)|..at + |FlatTo(p, i)| + |p[i]|] == p[i]
  {
    hide FlatTo;
    FlatSlice(p, |p|, i);
    SliceOfSlice(s, at, |Flat(p)|, |FlatTo(p, i)|, |FlatTo(p, i)| + |p[i]|);
  }

  lemma {:induction false} FlatToLength(p: Plane, q: Plane, rows: nat, cols: nat, i: nat)
    requires HasSize(p, rows, cols) && HasSize(q, rows, cols) && i <= rows
    ensures |FlatTo(p, i)| == |FlatTo(q, i)|
  {
    if i > 0 { FlatToLength(p, q, rows, cols, i - 1); }
  }

  /** Writing elsewhere leaves a slice alone. */
  lemma SliceApart(s: seq<byte>, at: nat, part: seq<byte>, from: nat, n: nat)
    requires at + |part| <= |s| && from + n <= |s| && (at + |part| <= from || from + n <= at)
    ensures Overwrite(s, at, part)[from..from + n] == s[from..from + n]
  {
    forall k | from <= k < from + n { OverwriteAt(s, at, part, k); }
  }

  /** While the rows of a plane are replaced one by one, row `i` is still there when its turn comes. */
  lemma RowIsHeld(s: seq<byte>, at: nat, p: Plane, q: Plane, rows: nat, cols: nat, i: nat)
    requires HasSize(p, rows, cols) && HasSize(q, rows, cols) && i < rows && Holds(s, at, p)
    ensures |FlatTo(p, i)| == |FlatTo(q, i)| && |Flat(p)| == |Flat(q)|
    ensures at + |FlatTo(p, i)| + cols <= |s|
    ensures var from := at + |FlatTo(p, i)|; Written(s, at, q, i)[from..from + cols] == p[i]
  {
    hide FlatTo, Holds, Overwrite;
    FlatToLength(p, q, rows, cols, i);
    FlatToLength(p, q, rows, cols, rows);
    HeldRow(s, at, p, i);
    SliceApart(s, at, FlatTo(q, i), at + |FlatTo(p, i)|, cols);
  }

  /** Writing elsewhere leaves a plane where it is. */
  lemma StillHolds(s: seq<byte>, at: nat, part: seq<byte>, at2: nat, p: Plane)
    requires at + |part| <= |s| && Holds(s, at2, p) && (at + |part| <= at2 || at2 + |Flat(p)| <= at)
    ensures Holds(Overwrite(s, at, part), at2, p)
  {
    forall k | 0 <= k < |s| { OverwriteAt(s, at, part, k); }
    var n := |Flat(p)|;
    assert Overwrite(s, at, part)[at2..at2 + n] == s[at2..at2 + n];
  }

  /** The loop over the rows of the luma plane. */
  method PadPlaneInPlace(data: array<byte>, at: nat, rows: nat, cols: nat, bar: nat, value: byte, m: Middle,
                         ghost p: Plane)
    requires HasSize(p, rows, cols) && Holds(data[..], at, p) && bar + MiddleWidth(m) <= cols
    modifies data
    ensures at + |Flat(PadPlane(p, bar, value, m))| <= data.Length
    ensures data[..] == Overwrite(old(data[..]), at, Flat(PadPlane(p, bar, value, m)))
  {
    hide Overwrite, PadRow, FlatTo, Flat, Holds, Written, Level, MiddleWidth;
    ghost var before, q := data[..], PadPlane(p, bar, value, m);
    PaddedPlaneFits(before, at, p, q, rows, cols);
    WrittenEnds(before, at, q);
    var pixel := at;
    for i := 0 to rows
      invariant pixel == at + |FlatTo(q, i)| && data[..] == Written(before, at, q, i)
    {
      RowIsHeld(before, at, p, q, rows, cols, i);
      WrittenRow(before, at, q, i);
      assert data[pixel..pixel + cols] == data[..][pixel..pixel + cols];
      PadRowInPlace(data, pixel, cols, i, bar, value, m, p[i]);
      pixel := pixel + cols;
    }
  }

  lemma PaddedPlaneFits(s: seq<byte>, at: nat, p: Plane, q: Plane, rows: nat, cols: nat)
    requires HasSize(p, rows, cols) && HasSize(q, rows, cols) && Holds(s, at, p)
    ensures |Flat(q)| == |Flat(p)| && at + |Flat(q)| <= |s|
  {
    FlatToLength(p, q, rows, cols, rows);
  }

  lemma RowFits(p: Plane, rows: nat, cols: nat, i: nat)
    requires HasSize(p, rows, cols) && i < rows
    ensures |p| == rows && |FlatTo(p, i)| + cols <= |Flat(p)|
  {
    FlatToFits(p, i + 1, |p|);
  }

  lemma WrittenIs(s: seq<byte>, at: nat, p: Plane, i: nat)
    requires i <= |p| && at + |Flat(p)| <= |s|
    ensures at + |FlatTo(p, i)| <= |s| && Written(s, at, p, i) == Overwrite(s, at, FlatTo(p, i))
  {
    FlatToFits(p, i, |p|);
  }

  /** The planes `p` and `pC` are in the buffer, one behind the other; they have the shape of `q` and `qC`. */
  ghost predicate HoldsPair(s: seq<byte>, at: nat, p: Plane, q: Plane, atC: nat, pC: Plane, qC: Plane,
                            rows: nat, cols: nat)
  {
    && HasSize(p, rows, cols) && HasSize(q, rows, cols) && HasSize(pC, rows, cols) && HasSize(qC, rows, cols)
    && Holds(s, at, p) && Holds(s, atC, pC) && at + |Flat(p)| <= atC
  }

  lemma PairFits(s: seq<byte>, at: nat, p: Plane, q: Plane, atC: nat, pC: Plane, qC: Plane, rows: nat, cols: nat)
    requires HoldsPair(s, at, p, q, atC, pC, qC, rows, cols)
    ensures |Flat(p)| == |Flat(q)| && |Flat(pC)| == |Flat(qC)| && at + |Flat(q)| <= atC && atC + |Flat(qC)| <= |s|
    ensures |p| == |q| == |pC| == |qC| == rows
  {
    PaddedPlaneFits(s, at, p, q, rows, cols);
    PaddedPlaneFits(s, atC, pC, qC, rows, cols);
  }

  lemma FirstRowIsHeld(s: seq<byte>, at: nat, p: Plane, q: Plane, atC: nat, pC: Plane, qC: Plane,
                       rows: nat, cols: nat, i: nat)
    requires HoldsPair(s, at, p, q, atC, pC, qC, rows, cols) && i < rows
    requires |p| == |q| == |qC| == rows && at + |Flat(q)| <= atC && atC + |Flat(qC)| <= |s|
    ensures |FlatTo(p, i)| == |FlatTo(q, i)| && at + |FlatTo(p, i)| + cols <= atC
    ensures var from := at + |FlatTo(p, i)|; WrittenPair(s, at, q, atC, qC, i)[from..from + cols] == p[i]
  {
    hide Overwrite, FlatTo, Flat, Holds, HasSize;
    RowFits(q, rows, cols, i);
    RowIsHeld(s, at, p, q, rows, cols, i);
    var one := Written(s, at, q, i);
    WrittenIs(one, atC, qC, i);
    SliceApart(one, atC, FlatTo(qC, i), at + |FlatTo(q, i)|, cols);
  }

  lemma SecondRowIsHeld(s: seq<byte>, at: nat, p: Plane, q: Plane, atC: nat, pC: Plane, qC: Plane,
                        rows: nat, cols: nat, i: nat)
    requires HoldsPair(s, at, p, q, atC, pC, qC, rows, cols) && i < rows
    requires |q| == |pC| == |qC| == rows && at + |Flat(q)| <= atC && atC + |Flat(qC)| <= |s|
    ensures |FlatTo(pC, i)| == |FlatTo(qC, i)| && atC + |FlatTo(pC, i)| + cols <= |s|
    ensures var from := atC + |FlatTo(pC, i)|; WrittenPair(s, at, q, atC, qC, i)[from..from + cols] == pC[i]
  {
    hide Overwrite, FlatTo, Flat, Holds, HasSize;
    WrittenIs(s, at, q, i);
    RowFits(q, rows, cols, i);
    StillHolds(s, at, FlatTo(q, i), atC, pC);
    RowIsHeld(Written(s, at, q, i), atC, pC, qC, rows, cols, i);
  }

  method PadRowPair(data: array<byte>, at: nat, atC: nat, cols: nat, i: nat, bar: nat, value: byte,
                    m: Middle, mC: Middle, ghost row: seq<byte>, ghost rowC: seq<byte>)
    requires |row| == |rowC| == cols && at + cols <= atC && atC + cols <= data.Length
    requires data[..][at..at + cols] == row && data[..][atC..atC + cols] == rowC
    requires bar + MiddleWidth(m) <= cols && bar + MiddleWidth(mC) <= cols
    modifies data
    ensures data[..] == Overwrite(Overwrite(old(data[..]), at, PadRow(row, i, bar, value, m)),
                                  atC, PadRow(rowC, i, bar, value, mC))
  {
    hide *;
    ghost var before := data[..];
    PadRowInPlace(data, at, cols, i, bar, value, m, row);
    SliceApart(before, at, PadRow(row, i, bar, value, m), atC, cols);
    PadRowInPlace(data, atC, cols, i, bar, value, mC, rowC);
  }

  /** The loop over the rows of the two chroma planes. */
  method PadPlanePair(data: array<byte>, at: nat, atC: nat, rows: nat, cols: nat, bar: nat, value: byte,
                      m: Middle, mC: Middle, ghost p: Plane, ghost pC: Plane)
    requires HasSize(p, rows, cols) && HasSize(pC, rows, cols)
    requires Holds(data[..], at, p) && Holds(data[..], atC, pC) && at + |Flat(p)| == atC
    requires bar + MiddleWidth(m) <= cols && bar + MiddleWidth(mC) <= cols
    modifies data
    ensures |Flat(PadPlane(p, bar, value, m))| == |Flat(p)|
    ensures |Flat(PadPlane(pC, bar, value, mC))| == |Flat(pC)| && atC + |Flat(pC)| <= data.Length
    ensures data[..] == Overwrite(Overwrite(old(data[..]), at, Flat(PadPlane(p, bar, value, m))),
                                  atC, Flat(PadPlane(pC, bar, value, mC)))
  {
    hide Overwrite, PadRow, FlatTo, Flat, Holds, Written, WrittenPair, Level, MiddleWidth;
    ghost var before, q, qC := data[..], PadPlane(p, bar, value, m), PadPlane(pC, bar, value, mC);
    PairFits(before, at, p, q, atC, pC, qC, rows, cols);
    WrittenPairEnds(before, at, q, atC, qC);
    var pixel, pixelC := at, atC;
    for i := 0 to rows
      invariant pixel == at + |FlatTo(q, i)| && pixelC == atC + |FlatTo(qC, i)|
      invariant data[..] == WrittenPair(before, at, q, atC, qC, i)
    {
      FirstRowIsHeld(before, at, p, q, atC, pC, qC, rows, cols, i);
      SecondRowIsHeld(before, at, p, q, atC, pC, qC, rows, cols, i);
      WrittenRows(before, at, q, atC, qC, i);
      PadRowPair(data, pixel, pixelC, cols, i, bar, value, m, mC, p[i], pC[i]);
      pixel := pixel + cols;
      pixelC := pixelC + cols;
    }
  }

  /** Where the three planes of an I420 frame are. */
  lemma FrameHolds(s: seq<byte>, i: Image, w: nat, h: nat, n: nat)
    requires EvenSize(w, h) && ImageHasSize(i, w, h) && n == w * h
    requires FrameSize(w, h) <= |s| && s[..FrameSize(w, h)] == Encode(I420, i)
    ensures |Flat(i.y)| == n && |Flat(i.u)| == |Flat(i.v)| == n / 4 && FrameSize(w, h) == n + n / 4 + n / 4
    ensures Holds(s, 0, i.y) && Holds(s, n, i.u) && Holds(s, n + n / 4, i.v)
  {
    hide FlatTo, Flat;
    FrameSizeIs(w, h);
    FlatLength(i.y, h, w);
    FlatLength(i.u, h / 2, w / 2);
    FlatLength(i.v, h / 2, w / 2);
    PartsHeld(s, Flat(i.y), Flat(i.u), Flat(i.v), FrameSize(w, h));
  }

  lemma PartsHeld(s: seq<byte>, y: seq<byte>, u: seq<byte>, v: seq<byte>, size: nat)
    requires size == |y| + |u| + |v| <= |s| && s[..size] == y + (u + v)
    ensures s[0..|y|] == y && s[|y|..|y| + |u|] == u && s[|y| + |u|..size] == v
  {
    var frame := s[..size];
    assert s[0..|y|] == frame[0..|y|] && s[|y|..|y| + |u|] == frame[|y|..|y| + |u|];
    assert s[|y| + |u|..size] == frame[|y| + |u|..];
  }

  /** The padded planes, written over the ones that were there, make the padded frame. */
  lemma PaddedFrame(s: seq<byte>, i: Image, w: nat, h: nat, n: nat)
    requires EvenSize(w, h) && ImageHasSize(i, w, h) && n == w * h && FrameSize(w, h) <= |s|
    ensures |Flat(i.y)| == n && |Flat(i.u)| == |Flat(i.v)| == n / 4 && FrameSize(w, h) == n + n / 4 + n / 4
    ensures Overwrite(Overwrite(Overwrite(s, 0, Flat(i.y)), n, Flat(i.u)), n + n / 4, Flat(i.v))
            == Encode(I420, i) + s[FrameSize(w, h)..]
  {
    hide Overwrite, FlatTo, Flat;
    FrameSizeIs(w, h);
    FlatLength(i.y, h, w);
    FlatLength(i.u, h / 2, w / 2);
    FlatLength(i.v, h / 2, w / 2);
    PlanesCompleteFrame(s, Flat(i.y), Flat(i.u), Flat(i.v), n, FrameSize(w, h));
    WrittenFrame(s, Encode(I420, i));
  }

  /** Both loops. */
  method PadFrame(data: array<byte>, width: nat, height: nat, p: Padding, ghost i: Image)
    requires EvenSize(width, height) && FrameSize(width, height) <= data.Length && PaddingFits(p, width)
    requires ImageHasSize(i, width, height) && data[..FrameSize(width, height)] == Encode(I420, i)
    modifies data
    ensures ImageHasSize(PadImage(i, p), width, height)
    ensures data[..] == Encode(I420, PadImage(i, p)) + old(data[..])[FrameSize(width, height)..]
  {
    hide Overwrite, FlatTo, Flat, PadPlane, Encode, FrameSize, Holds;
    var ySize := width * height;
    ghost var before, j := data[..], PadImage(i, p);
    assert before[..FrameSize(width, height)] == Encode(I420, i);
    FrameHolds(before, i, width, height, ySize);
    PaddedSize(i, p, width, height);
    PaddedFrame(before, j, width, height, ySize);
    PadPlaneInPlace(data, 0, height, width, p.bar, LUMA_BLACK, p.y, i.y);
    StillHolds(before, 0, Flat(j.y), ySize, i.u);
    StillHolds(before, 0, Flat(j.y), ySize + ySize / 4, i.v);
    PadPlanePair(data, ySize, ySize + ySize / 4, height / 2, width / 2, p.barC, CHROMA_NEUTRAL, p.u, p.v, i.u, i.v);
  }

  /** What the padding does to an image; rotations other than 0 and 270 do nothing. */
  function Padded(rotation: nat, i: Image, w: nat, h: nat, paddingLenW: nat, paddingLenH: int): Image
    requires rotation == 270 ==> paddingLenW <= w
  {
    if rotation == 0 then PadImage(i, SideBars(paddingLenW))
    else if rotation == 270 then PadImage(i, TurnedPadding(w, h, paddingLenW, paddingLenH))
    else i
  }

  /** `I420DstDataPadding`: whatever image the buffer holds, it holds the padded image afterwards, and nothing behind it
      has changed. */
  method ExpectedDataPadding(data: array<byte>, width: nat, height: nat, rotation: nat,
                             paddingLenW: nat, paddingLenH: int)
    requires EvenSize(width, height) && FrameSize(width, height) <= data.Length
    requires paddingLenW / 2 <= width && (rotation == 270 ==> paddingLenW <= width)
    modifies data
    ensures var n, s := FrameSize(width, height), old(data[..]);
            var i := Padded(rotation, Decode(I420, width, height, s[..n]), width, height, paddingLenW, paddingLenH);
            ImageHasSize(i, width, height) && data[..] == Encode(I420, i) + s[n..]
  {
    hide FrameSize, Decode, Encode, PadImage;
    ghost var s, n := data[..], FrameSize(width, height);
    ghost var i := Decode(I420, width, height, s[..n]);
    EncodeUndoesDecode(I420, width, height, s[..n]);
    if rotation == 0 {
      PadFrame(data, width, height, SideBars(paddingLenW), i);
    } else if rotation == 270 {
      PadFrame(data, width, height, TurnedPadding(width, height, paddingLenW, paddingLenH), i);
    } else {
      assert s == s[..n] + s[n..];
    }
  }

  // ---------------------------------------------------------------- what the bars mean

  /** Both columns of the block of luma samples that belongs to chroma column `x` lie in the bars. */
  predicate BlockInBars(x: nat, w: nat, bar: nat) {
    InBar(2 * x, w, bar) && InBar(2 * x + 1, w, bar)
  }

  /** At one chroma place of a padded image: the four luma samples of the block are black where they lie in the bars,
      both chroma samples are neutral if the whole block does, and every other sample is kept. */
  ghost predicate BlockIsConsistent(i: Image, j: Image, w: nat, h: nat, bar: nat, r: nat, x: nat)
    requires EvenSize(w, h) && ImageHasSize(i, w, h) && ImageHasSize(j, w, h) && r < h / 2 && x < w / 2
  {
    && (forall a, b :: 2 * r <= a <= 2 * r + 1 && 2 * x <= b <= 2 * x + 1 ==>
          j.y[a][b] == if InBar(b, w, bar) then LUMA_BLACK else i.y[a][b])
    && j.u[r][x] == (if BlockInBars(x, w, bar) then CHROMA_NEUTRAL else i.u[r][x])
    && j.v[r][x] == (if BlockInBars(x, w, bar) then CHROMA_NEUTRAL else i.v[r][x])
  }

  ghost predicate BarsAreConsistent(i: Image, w: nat, h: nat, paddingLenW: nat)
    requires EvenSize(w, h) && ImageHasSize(i, w, h)
  {
    PaddedSize(i, SideBars(paddingLenW), w, h);
    forall r, x :: 0 <= r < h / 2 && 0 <= x < w / 2 ==>
      BlockIsConsistent(i, PadImage(i, SideBars(paddingLenW)), w, h, paddingLenW / 2, r, x)
  }

  lemma PaddedBlockIs(i: Image, w: nat, h: nat, bar: nat, barC: nat, r: nat, x: nat)
    requires EvenSize(w, h) && ImageHasSize(i, w, h) && r < h / 2 && x < w / 2
    ensures var j := PadImage(i, Padding(bar, barC, Keep, Keep, Keep));
            && ImageHasSize(j, w, h)
            && (forall a, b :: 2 * r <= a <= 2 * r + 1 && 2 * x <= b <= 2 * x + 1 ==>
                  j.y[a][b] == if InBar(b, w, bar) then LUMA_BLACK else i.y[a][b])
            && j.u[r][x] == (if InBar(x, w / 2, barC) then CHROMA_NEUTRAL else i.u[r][x])
            && j.v[r][x] == (if InBar(x, w / 2, barC) then CHROMA_NEUTRAL else i.v[r][x])
  {
    PaddedSize(i, Padding(bar, barC, Keep, Keep, Keep), w, h);
  }

  lemma ChromaBarIsHalf(w: nat, bar: nat, x: nat)
    requires w % 2 == 0 && bar <= w && x < w / 2 && !(bar % 2 == 1 && w == 2 * bar)
    ensures InBar(x, w / 2, bar / 2) <==> BlockInBars(x, w, bar)
  {
    var c, b := w / 2, bar / 2;
    assert w == 2 * c && (bar == 2 * b || bar == 2 * b + 1);
  }

  /** In every padded image the chroma bars are exactly where whole blocks of luma are blacked out, whatever the
      padding, except for an odd bar of exactly half the width. There the bars meet inside a block, whose luma is all
      black while its chroma is kept. */
  lemma BarsAreConsistentIff(w: nat, h: nat, paddingLenW: nat)
    requires EvenSize(w, h) && paddingLenW / 2 <= w
    ensures (forall i: Image :: ImageHasSize(i, w, h) ==> BarsAreConsistent(i, w, h, paddingLenW))
            <==> !(paddingLenW / 2 % 2 == 1 && w == 2 * (paddingLenW / 2) && h > 0)
  {
    var bar := paddingLenW / 2;
    if bar % 2 == 1 && w == 2 * bar && h > 0 {
      var i := PatternImage(Constant(0), Constant(0), Constant(0), w, h);
      PaddedBlockIs(i, w, h, bar, bar / 2, 0, bar / 2);
      assert i.u[0][bar / 2] == 0;
      assert !BlockIsConsistent(i, PadImage(i, SideBars(paddingLenW)), w, h, bar, 0, bar / 2);
      assert !BarsAreConsistent(i, w, h, paddingLenW);
    } else {
      forall i: Image | ImageHasSize(i, w, h) ensures BarsAreConsistent(i, w, h, paddingLenW) {
        BlocksAreConsistent(i, w, h, paddingLenW);
      }
    }
  }

  lemma BlocksAreConsistent(i: Image, w: nat, h: nat, paddingLenW: nat)
    requires EvenSize(w, h) && ImageHasSize(i, w, h) && paddingLenW / 2 <= w
    requires h == 0 || !(paddingLenW / 2 % 2 == 1 && w == 2 * (paddingLenW / 2))
    ensures BarsAreConsistent(i, w, h, paddingLenW)
  {
    hide PadImage;
    var j := PadImage(i, SideBars(paddingLenW));
    PaddedSize(i, SideBars(paddingLenW), w, h);
    forall r, x | 0 <= r < h / 2 && 0 <= x < w / 2 ensures BlockIsConsistent(i, j, w, h, paddingLenW / 2, r, x) {
      PaddedBlockIs(i, w, h, paddingLenW / 2, paddingLenW / 2 / 2, r, x);
      ChromaBarIsHalf(w, paddingLenW / 2, x);
    }
  }
}
