/** 4:2:0 frames: images as planes of rows, and the byte layouts that store them. */
module YuvLayout {
  import opened Common

  /** The rows of a plane. */
  type Plane = seq<seq<byte>>

  datatype Image = Image(y: Plane, u: Plane, v: Plane)

  /** NV12 stands for what the pattern builders write under that name: V before U in each interleaved pair. YV12 has
      its V plane first, I420 its U plane. */
  datatype Layout = NV12 | YV12 | I420

  predicate EvenSize(w: nat, h: nat) {
    w % 2 == 0 && h % 2 == 0
  }

  ghost predicate HasSize(p: Plane, rows: nat, cols: nat) {
    |p| == rows && forall r :: 0 <= r < rows ==> |p[r]| == cols
  }

  ghost predicate ImageHasSize(i: Image, w: nat, h: nat) {
    HasSize(i.y, h, w) && HasSize(i.u, h / 2, w / 2) && HasSize(i.v, h / 2, w / 2)
  }

  // ---------------------------------------------------------------- planes as bytes

  /** The first `i` rows one after the other. */
  function FlatTo(p: Plane, i: nat): seq<byte>
    requires i <= |p|
  {
    if i == 0 then [] else FlatTo(p, i - 1) + p[i - 1]
  }

  function Flat(p: Plane): seq<byte> {
    FlatTo(p, |p|)
  }

  lemma {:induction false} FlatToOfPrefix(p: Plane, i: nat, n: nat)
    requires i <= n <= |p|
    ensures FlatTo(p[..n], i) == FlatTo(p, i)
  {
    if i > 0 { FlatToOfPrefix(p, i - 1, n); }
  }

  /** The last row stands behind the rows above it. */
  lemma FlatLast(p: Plane, n: nat)
    requires |p| == n + 1
    ensures Flat(p) == Flat(p[..n]) + p[n]
  {
    FlatToOfPrefix(p, n, n);
  }

  /** The plane of this many rows that the bytes hold. */
  function CutRows(s: seq<byte>, rows: nat, cols: nat): (p: Plane)
    requires |s| == rows * cols
    ensures |p| == rows
    decreases rows
  {
    if rows == 0 then []
    else
      MulStep(rows, cols);
      CutRows(s[..|s| - cols], rows - 1, cols) + [s[|s| - cols..]]
  }

  lemma {:induction false} FlatLength(p: Plane, rows: nat, cols: nat)
    requires HasSize(p, rows, cols)
    ensures |Flat(p)| == rows * cols
    decreases rows
  {
    if rows > 0 {
      MulStep(rows, cols);
      FlatLength(p[..rows - 1], rows - 1, cols);
      FlatLast(p, rows - 1);
    }
  }

  lemma {:induction false} CutRowsHasSize(s: seq<byte>, rows: nat, cols: nat)
    requires |s| == rows * cols
    ensures HasSize(CutRows(s, rows, cols), rows, cols)
    decreases rows
  {
    if rows > 0 {
      MulStep(rows, cols);
      CutRowsHasSize(s[..|s| - cols], rows - 1, cols);
    }
  }

  lemma {:induction false} FlatUndoesCutRows(s: seq<byte>, rows: nat, cols: nat)
    requires |s| == rows * cols
    ensures Flat(CutRows(s, rows, cols)) == s
    decreases rows
  {
    if rows > 0 {
      MulStep(rows, cols);
      FlatUndoesCutRows(s[..|s| - cols], rows - 1, cols);
      var p := CutRows(s, rows, cols);
      assert p[..rows - 1] == CutRows(s[..|s| - cols], rows - 1, cols);
      FlatLast(p, rows - 1);
    }
  }

  lemma {:induction false} CutRowsUndoesFlat(p: Plane, rows: nat, cols: nat)
    requires HasSize(p, rows, cols)
    ensures |Flat(p)| == rows * cols && CutRows(Flat(p), rows, cols) == p
    decreases rows
  {
    FlatLength(p, rows, cols);
    if rows > 0 {
      MulStep(rows, cols);
      CutRowsUndoesFlat(p[..rows - 1], rows - 1, cols);
      FlatLast(p, rows - 1);
      DropTake(Flat(p[..rows - 1]), p[rows - 1]);
      assert p == p[..rows - 1] + [p[rows - 1]];
    }
  }

  lemma {:induction false} CutRowsAt(s: seq<byte>, rows: nat, cols: nat, r: nat, c: nat, k: nat)
    requires |s| == rows * cols && r < rows && c < cols && k == r * cols + c
    ensures |CutRows(s, rows, cols)[r]| == cols
    ensures k < |s| && CutRows(s, rows, cols)[r][c] == s[k]
    decreases rows
  {
    MulStep(rows, cols);
    CutRowsHasSize(s, rows, cols);
    if r < rows - 1 { CutRowsAt(s[..|s| - cols], rows - 1, cols, r, c, k); }
  }

  // ---------------------------------------------------------------- interleaving

  /** `a[0], b[0], a[1], b[1]` and so on. */
  function ZipRow(a: seq<byte>, b: seq<byte>): (z: seq<byte>)
    requires |a| == |b|
    ensures |z| == 2 * |a|
  {
    var n := |a| - 1;
    if a == [] then [] else ZipRow(a[..n], b[..n]) + [a[n], b[n]]
  }

  function Evens(z: seq<byte>): (a: seq<byte>)
    ensures 2 * |a| <= |z| <= 2 * |a| + 1
  {
    var n := |z| - 2;
    if n < 0 then [] else Evens(z[..n]) + [z[n]]
  }

  function Odds(z: seq<byte>): (b: seq<byte>)
    ensures 2 * |b| <= |z| <= 2 * |b| + 1
  {
    var n := |z| - 2;
    if n < 0 then [] else Odds(z[..n]) + [z[n + 1]]
  }

  function Zip(a: Plane, b: Plane): (z: Plane)
    requires |a| == |b| && forall r :: 0 <= r < |a| ==> |a[r]| == |b[r]|
    ensures |z| == |a| && forall r :: 0 <= r < |a| ==> z[r] == ZipRow(a[r], b[r])
  {
    seq(|a|, r requires 0 <= r < |a| => ZipRow(a[r], b[r]))
  }

  function EvenSamples(z: Plane): (a: Plane)
    ensures |a| == |z| && forall r :: 0 <= r < |z| ==> a[r] == Evens(z[r])
  {
    seq(|z|, r requires 0 <= r < |z| => Evens(z[r]))
  }

  function OddSamples(z: Plane): (b: Plane)
    ensures |b| == |z| && forall r :: 0 <= r < |z| ==> b[r] == Odds(z[r])
  {
    seq(|z|, r requires 0 <= r < |z| => Odds(z[r]))
  }

  lemma ZipRowLast(a: seq<byte>, b: seq<byte>, x: byte, y: byte)
    requires |a| == |b|
    ensures ZipRow(a + [x], b + [y]) == ZipRow(a, b) + [x, y]
  {
    DropTake(a, [x]);
    DropTake(b, [y]);
  }

  lemma PartsLast(z: seq<byte>, x: byte, y: byte)
    ensures Evens(z + [x, y]) == Evens(z) + [x] && Odds(z + [x, y]) == Odds(z) + [y]
  {
    DropTake(z, [x, y]);
  }

  lemma {:induction false} ZipRowAt(a: seq<byte>, b: seq<byte>, m: nat)
    requires |a| == |b| && m < |a|
    ensures ZipRow(a, b)[2 * m] == a[m] && ZipRow(a, b)[2 * m + 1] == b[m]
  {
    var n := |a| - 1;
    if m < n { ZipRowAt(a[..n], b[..n], m); }
  }

  lemma NothingZips()
    ensures ZipRow([], []) == [] && Evens([]) == [] && Odds([]) == []
  {
  }

  lemma {:induction false} ZipRowOfParts(z: seq<byte>, n: nat)
    requires |z| == 2 * n
    ensures ZipRow(Evens(z), Odds(z)) == z
  {
    hide *;
    if n == 0 {
      NothingZips();
    } else {
      var t, x, y := z[..2 * n - 2], z[2 * n - 2], z[2 * n - 1];
      assert z == t + [x, y];
      ZipRowOfParts(t, n - 1);
      PartsLast(t, x, y);
      ZipRowLast(Evens(t), Odds(t), x, y);
    }
  }

  lemma {:induction false} PartsOfZipRow(a: seq<byte>, b: seq<byte>)
    requires |a| == |b|
    ensures Evens(ZipRow(a, b)) == a && Odds(ZipRow(a, b)) == b
  {
    hide *;
    if a == [] {
      NothingZips();
    } else {
      var n := |a| - 1;
      assert a == a[..n] + [a[n]] && b == b[..n] + [b[n]];
      PartsOfZipRow(a[..n], b[..n]);
      ZipRowLast(a[..n], b[..n], a[n], b[n]);
      PartsLast(ZipRow(a[..n], b[..n]), a[n], b[n]);
    }
  }

  lemma ZipOfParts(z: Plane, rows: nat, cols: nat)
    requires HasSize(z, rows, 2 * cols)
    ensures HasSize(EvenSamples(z), rows, cols) && HasSize(OddSamples(z), rows, cols)
    ensures Zip(EvenSamples(z), OddSamples(z)) == z
  {
    forall r | 0 <= r < rows { ZipRowOfParts(z[r], cols); }
  }

  lemma PartsOfZip(a: Plane, b: Plane, rows: nat, cols: nat)
    requires HasSize(a, rows, cols) && HasSize(b, rows, cols)
    ensures HasSize(Zip(a, b), rows, 2 * cols)
    ensures EvenSamples(Zip(a, b)) == a && OddSamples(Zip(a, b)) == b
  {
    forall r | 0 <= r < rows { PartsOfZipRow(a[r], b[r]); }
  }

  // ---------------------------------------------------------------- images as bytes

  function ChromaSize(w: nat, h: nat): nat {
    (h / 2) * (w / 2)
  }

  function FrameSize(w: nat, h: nat): nat {
    h * w + (h / 2) * (2 * (w / 2))
  }

  lemma FrameSizeIs(w: nat, h: nat)
    requires EvenSize(w, h)
    ensures (w * h) / 4 == ChromaSize(w, h) && (h / 2) * (2 * (w / 2)) == 2 * ChromaSize(w, h)
    ensures w * h == h * w == 4 * ChromaSize(w, h)
    ensures FrameSize(w, h) == w * h + w * h / 2
  {
    var a, b := w / 2, h / 2;
    assert w * h == (2 * a) * (2 * b) == 4 * (b * a);
    assert b * (2 * a) == 2 * (b * a);
  }

  /** The chroma planes of a planar frame in the order in which the layout stores them. */
  function FirstChroma(t: Layout, i: Image): Plane {
    if t == YV12 then i.v else i.u
  }

  function SecondChroma(t: Layout, i: Image): Plane {
    if t == YV12 then i.u else i.v
  }

  function Encode(t: Layout, i: Image): seq<byte>
    requires |i.u| == |i.v| && forall r :: 0 <= r < |i.u| ==> |i.u[r]| == |i.v[r]|
  {
    Flat(i.y) + match t
                case NV12 => Flat(Zip(i.v, i.u))
                case _ => Flat(FirstChroma(t, i)) + Flat(SecondChroma(t, i))
  }

  function Decode(t: Layout, w: nat, h: nat, s: seq<byte>): Image
    requires EvenSize(w, h) && |s| == FrameSize(w, h)
  {
    FrameSizeIs(w, h);
    var n := ChromaSize(w, h);
    var y, chroma := CutRows(s[..h * w], h, w), s[h * w..];
    match t
    case NV12 =>
      var z := CutRows(chroma, h / 2, 2 * (w / 2));
      Image(y, OddSamples(z), EvenSamples(z))
    case YV12 => Image(y, CutRows(chroma[n..], h / 2, w / 2), CutRows(chroma[..n], h / 2, w / 2))
    case I420 => Image(y, CutRows(chroma[..n], h / 2, w / 2), CutRows(chroma[n..], h / 2, w / 2))
  }

  lemma EncodeLength(t: Layout, i: Image, w: nat, h: nat)
    requires EvenSize(w, h) && ImageHasSize(i, w, h)
    ensures |Encode(t, i)| == FrameSize(w, h)
  {
    FrameSizeIs(w, h);
    FlatLength(i.y, h, w);
    FlatLength(i.u, h / 2, w / 2);
    FlatLength(i.v, h / 2, w / 2);
    PartsOfZip(i.v, i.u, h / 2, w / 2);
    FlatLength(Zip(i.v, i.u), h / 2, 2 * (w / 2));
  }

  /** In every layout the three planes are stored apart from one another: an image comes back from its bytes. */
  lemma DecodeUndoesEncode(t: Layout, i: Image, w: nat, h: nat)
    requires EvenSize(w, h) && ImageHasSize(i, w, h)
    ensures |Encode(t, i)| == FrameSize(w, h) && Decode(t, w, h, Encode(t, i)) == i
  {
    EncodeLength(t, i, w, h);
    FrameSizeIs(w, h);
    CutRowsUndoesFlat(i.y, h, w);
    DropTake(Flat(i.y), Encode(t, i)[h * w..]);
    CutRowsUndoesFlat(i.u, h / 2, w / 2);
    CutRowsUndoesFlat(i.v, h / 2, w / 2);
    match t
    case NV12 =>
      PartsOfZip(i.v, i.u, h / 2, w / 2);
      CutRowsUndoesFlat(Zip(i.v, i.u), h / 2, 2 * (w / 2));
      DropTake(Flat(i.y), Flat(Zip(i.v, i.u)));
    case YV12 =>
      DropTake(Flat(i.y), Flat(i.v) + Flat(i.u));
      DropTake(Flat(i.v), Flat(i.u));
    case I420 =>
      DropTake(Flat(i.y), Flat(i.u) + Flat(i.v));
      DropTake(Flat(i.u), Flat(i.v));
  }

  lemma EncodeIsInjective(a: Image, b: Image, w: nat, h: nat)
    requires EvenSize(w, h) && ImageHasSize(a, w, h) && ImageHasSize(b, w, h)
    ensures Encode(I420, a) == Encode(I420, b) <==> a == b
  {
    DecodeUndoesEncode(I420, a, w, h);
    DecodeUndoesEncode(I420, b, w, h);
  }

  lemma InterleavedRoundTrip(chroma: seq<byte>, rows: nat, cols: nat)
    requires |chroma| == rows * (2 * cols)
    ensures var z := CutRows(chroma, rows, 2 * cols);
            && HasSize(EvenSamples(z), rows, cols) && HasSize(OddSamples(z), rows, cols)
            && Flat(Zip(EvenSamples(z), OddSamples(z))) == chroma
  {
    CutRowsHasSize(chroma, rows, 2 * cols);
    FlatUndoesCutRows(chroma, rows, 2 * cols);
    ZipOfParts(CutRows(chroma, rows, 2 * cols), rows, cols);
  }

  lemma PlanarRoundTrip(chroma: seq<byte>, n: nat, rows: nat, cols: nat)
    requires n == rows * cols && |chroma| == 2 * n
    ensures var first, second := CutRows(chroma[..n], rows, cols), CutRows(chroma[n..], rows, cols);
            HasSize(first, rows, cols) && HasSize(second, rows, cols) && Flat(first) + Flat(second) == chroma
  {
    CutRowsHasSize(chroma[..n], rows, cols);
    CutRowsHasSize(chroma[n..], rows, cols);
    FlatUndoesCutRows(chroma[..n], rows, cols);
    FlatUndoesCutRows(chroma[n..], rows, cols);
  }

  /** Together the planes cover the frame: every frame-sized byte string is the layout of an image. */
  lemma EncodeUndoesDecode(t: Layout, w: nat, h: nat, s: seq<byte>)
    requires EvenSize(w, h) && |s| == FrameSize(w, h)
    ensures ImageHasSize(Decode(t, w, h, s), w, h) && Encode(t, Decode(t, w, h, s)) == s
  {
    FrameSizeIs(w, h);
    CutRowsHasSize(s[..h * w], h, w);
    FlatUndoesCutRows(s[..h * w], h, w);
    var chroma := s[h * w..];
    assert s == s[..h * w] + chroma;
    match t
    case NV12 => InterleavedRoundTrip(chroma, h / 2, w / 2);
    case YV12 => PlanarRoundTrip(chroma, ChromaSize(w, h), h / 2, w / 2);
    case I420 => PlanarRoundTrip(chroma, ChromaSize(w, h), h / 2, w / 2);
  }
}
