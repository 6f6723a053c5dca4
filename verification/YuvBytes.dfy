/** Where every sample is in a frame buffer, and what the patterns and the padding put there, in plain numbers. */
module YuvBytes {
  import opened Common
  import opened YuvLayout
  import opened YuvPatterns
  import opened YuvPadding

  // ---------------------------------------------------------------- places

  lemma FlatAt(p: Plane, rows: nat, cols: nat, r: nat, c: nat, k: nat)
    requires HasSize(p, rows, cols) && r < rows && c < cols && k == r * cols + c
    ensures k < |Flat(p)| && Flat(p)[k] == p[r][c]
  {
    hide Flat, CutRows;
    CutRowsUndoesFlat(p, rows, cols);
    CutRowsAt(Flat(p), rows, cols, r, c, k);
  }

  lemma SecondPart(a: seq<byte>, b: seq<byte>, k: nat)
    requires k < |b|
    ensures |a| + k < |a + b| && (a + b)[|a| + k] == b[k]
  {
  }

  /** Luma comes first in every layout, row by row. */
  lemma LumaByteAt(t: Layout, i: Image, w: nat, h: nat, r: nat, c: nat, k: nat)
    requires EvenSize(w, h) && ImageHasSize(i, w, h) && r < h && c < w && k == r * w + c
    ensures k < |Encode(t, i)| && Encode(t, i)[k] == i.y[r][c]
  {
    hide Flat, Zip;
    FlatAt(i.y, h, w, r, c, k);
  }

  lemma ZippedSample(a: Plane, b: Plane, rows: nat, cols: nat, r: nat, c: nat)
    requires HasSize(a, rows, cols) && HasSize(b, rows, cols) && r < rows && c < cols
    ensures HasSize(Zip(a, b), rows, 2 * cols)
    ensures Zip(a, b)[r][2 * c] == a[r][c] && Zip(a, b)[r][2 * c + 1] == b[r][c]
  {
    hide Evens, Odds;
    PartsOfZip(a, b, rows, cols);
    ZipRowAt(a[r], b[r], c);
  }

  lemma ZippedBytes(a: Plane, b: Plane, rows: nat, cols: nat, r: nat, c: nat, k: nat)
    requires HasSize(a, rows, cols) && HasSize(b, rows, cols) && r < rows && c < cols && k == r * (2 * cols) + 2 * c
    ensures k + 1 < |Flat(Zip(a, b))| && Flat(Zip(a, b))[k] == a[r][c] && Flat(Zip(a, b))[k + 1] == b[r][c]
  {
    hide Flat, Zip;
    ZippedSample(a, b, rows, cols, r, c);
    FlatAt(Zip(a, b), rows, 2 * cols, r, 2 * c, k);
    FlatAt(Zip(a, b), rows, 2 * cols, r, 2 * c + 1, k + 1);
  }

  /** Behind the luma, NV12 as it is written here has rows of pairs, V before U. */
  lemma PairBytesAt(i: Image, w: nat, h: nat, r: nat, c: nat, y: nat, k: nat)
    requires EvenSize(w, h) && ImageHasSize(i, w, h) && r < h / 2 && c < w / 2 && y == h * w && k == r * w + 2 * c
    ensures && y + k + 1 < |Encode(NV12, i)|
            && Encode(NV12, i)[y + k] == i.v[r][c] && Encode(NV12, i)[y + k + 1] == i.u[r][c]
  {
    assert 2 * (w / 2) == w;
    FlatLength(i.y, h, w);
    ZippedBytes(i.v, i.u, h / 2, w / 2, r, c, k);
    hide Flat, Zip;
    SecondPart(Flat(i.y), Flat(Zip(i.v, i.u)), k);
    SecondPart(Flat(i.y), Flat(Zip(i.v, i.u)), k + 1);
  }

  /** YV12 has the whole V plane and then the whole U plane, I420 the other way round. */
  lemma PlaneBytesAt(t: Layout, i: Image, w: nat, h: nat, r: nat, c: nat, y: nat, q: nat, k: nat)
    requires t != NV12 && EvenSize(w, h) && ImageHasSize(i, w, h)
    requires r < h / 2 && c < w / 2 && y == h * w && q == y / 4 && k == r * (w / 2) + c
    ensures && y + q + k < |Encode(t, i)|
            && Encode(t, i)[y + k] == (if t == YV12 then i.v[r][c] else i.u[r][c])
            && Encode(t, i)[y + q + k] == (if t == YV12 then i.u[r][c] else i.v[r][c])
  {
    FrameSizeIs(w, h);
    FlatLength(i.y, h, w);
    FlatLength(i.u, h / 2, w / 2);
    FlatLength(i.v, h / 2, w / 2);
    FlatAt(i.u, h / 2, w / 2, r, c, k);
    FlatAt(i.v, h / 2, w / 2, r, c, k);
    hide Flat;
    ThreePartsAt(Flat(i.y), Flat(FirstChroma(t, i)), Flat(SecondChroma(t, i)), k);
  }

  lemma ThreePartsAt(a: seq<byte>, b: seq<byte>, c: seq<byte>, k: nat)
    requires k < |b| && k < |c|
    ensures |a| + |b| + k < |a + (b + c)|
    ensures (a + (b + c))[|a| + k] == b[k] && (a + (b + c))[|a| + |b| + k] == c[k]
  {
  }

  // ---------------------------------------------------------------- values

  /** The source pattern: ones, twos and threes, or ramps along the rows. */
  lemma SourceSamples(rotation: nat, w: nat, h: nat, r: nat, c: nat)
    ensures var i := SourceImage(rotation, w, h);
            && ImageHasSize(i, w, h)
            && (r < h && c < w ==> i.y[r][c] == if rotation == 0 then 1 else c % 256)
            && (r < h / 2 && c < w / 2 ==>
                  && i.u[r][c] == (if rotation == 0 then 2 else (w / 2 - 1 - c) % 256)
                  && i.v[r][c] == (if rotation == 0 then 3 else c % 256))
  {
    SourceImageSize(rotation, w, h);
  }

  /** The expected pattern at each rotation. */
  lemma ExpectedSamples(w: nat, h: nat, r: nat, c: nat)
    requires r < h && c < w
    ensures ImageHasSize(ExpectedImage(0, w, h), w, h) && ImageHasSize(ExpectedImage(90, w, h), w, h)
    ensures ImageHasSize(ExpectedImage(180, w, h), w, h) && ImageHasSize(ExpectedImage(270, w, h), w, h)
    ensures ExpectedImage(0, w, h).y[r][c] == 1 && ExpectedImage(90, w, h).y[r][c] == r % 256
    ensures ExpectedImage(180, w, h).y[r][c] == (w - 1 - c) % 256
    ensures ExpectedImage(270, w, h).y[r][c] == (h - 1 - r) % 256
  {
    ExpectedSizes(w, h);
  }

  lemma ExpectedSizes(w: nat, h: nat)
    ensures ImageHasSize(ExpectedImage(0, w, h), w, h) && ImageHasSize(ExpectedImage(90, w, h), w, h)
    ensures ImageHasSize(ExpectedImage(180, w, h), w, h) && ImageHasSize(ExpectedImage(270, w, h), w, h)
  {
    ExpectedImageSize(0, w, h);
    ExpectedImageSize(90, w, h);
    ExpectedImageSize(180, w, h);
    ExpectedImageSize(270, w, h);
  }

  lemma ExpectedChromaSamples(w: nat, h: nat, r: nat, c: nat)
    requires r < h / 2 && c < w / 2
    ensures ImageHasSize(ExpectedImage(0, w, h), w, h) && ImageHasSize(ExpectedImage(90, w, h), w, h)
    ensures ImageHasSize(ExpectedImage(180, w, h), w, h) && ImageHasSize(ExpectedImage(270, w, h), w, h)
    ensures ExpectedImage(0, w, h).u[r][c] == 2 && ExpectedImage(0, w, h).v[r][c] == 3
    ensures ExpectedImage(90, w, h).u[r][c] == (h / 2 - 1 - r) % 256 && ExpectedImage(90, w, h).v[r][c] == r % 256
    ensures ExpectedImage(180, w, h).u[r][c] == c % 256 && ExpectedImage(180, w, h).v[r][c] == (w / 2 - 1 - c) % 256
    ensures ExpectedImage(270, w, h).u[r][c] == r % 256 && ExpectedImage(270, w, h).v[r][c] == (h / 2 - 1 - r) % 256
  {
    ExpectedSizes(w, h);
  }

  /** A number halved as C does: towards zero. */
  lemma HalfIs(n: nat)
    ensures Half(n) == n / 2 && Half(-(n as int)) == -(n / 2)
  {
  }

  /** Padded luma: black bars, and at 270 degrees a falling ramp between them. */
  lemma PaddedLuma(i: Image, w: nat, h: nat, paddingLenW: nat, paddingLenH: int, r: nat, c: nat)
    requires ImageHasSize(i, w, h) && paddingLenW <= w && r < h && c < w
    ensures var upright, turned := Padded(0, i, w, h, paddingLenW, paddingLenH),
                                   Padded(270, i, w, h, paddingLenW, paddingLenH);
            var bar := paddingLenW / 2;
            && ImageHasSize(upright, w, h) && ImageHasSize(turned, w, h)
            && upright.y[r][c] == (if c < bar || c >= w - bar then 0 else i.y[r][c])
            && turned.y[r][c] == if c < bar || c >= w - bar then 0
                                 else if c < bar + (w - paddingLenW) then (h - 1 - r - 1 - Half(paddingLenH)) % 256
                                 else i.y[r][c]
  {
    PaddedSize(i, SideBars(paddingLenW), w, h);
    PaddedSize(i, TurnedPadding(w, h, paddingLenW, paddingLenH), w, h);
  }

  /** Padded chroma: bars of 0x80, and at 270 degrees a rising ramp of U and a falling ramp of V between them. */
  lemma PaddedChroma(i: Image, w: nat, h: nat, paddingLenW: nat, paddingLenH: int, r: nat, c: nat)
    requires ImageHasSize(i, w, h) && paddingLenW <= w && r < h / 2 && c < w / 2
    ensures var upright, turned := Padded(0, i, w, h, paddingLenW, paddingLenH),
                                   Padded(270, i, w, h, paddingLenW, paddingLenH);
            var bar, end := paddingLenW / 2 / 2, paddingLenW / 2 / 2 + (w / 2 - paddingLenW / 2);
            var inBar, shift := c < bar || c >= w / 2 - bar, Half(Half(paddingLenH));
            && ImageHasSize(upright, w, h) && ImageHasSize(turned, w, h)
            && upright.u[r][c] == (if inBar then 0x80 else i.u[r][c])
            && upright.v[r][c] == (if inBar then 0x80 else i.v[r][c])
            && turned.u[r][c] == (if inBar then 0x80 else if c < end then (r + 1 - shift) % 256 else i.u[r][c])
            && turned.v[r][c] == (if inBar then 0x80 else if c < end then (h / 2 - 1 - r - shift) % 256 else i.v[r][c])
  {
    PaddedSize(i, SideBars(paddingLenW), w, h);
    PaddedSize(i, TurnedPadding(w, h, paddingLenW, paddingLenH), w, h);
  }
}
