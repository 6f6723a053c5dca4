/** The upright YV12 pattern: the source builder interleaves its chroma, so it is a YV12 pattern for almost no size. */
module YuvUprightYV12 {
  import opened Common
  import opened YuvLayout
  import opened YuvPatterns

  /** Threes at even places, twos at odd ones. */
  ghost predicate Alternates(s: seq<byte>) {
    forall k :: 0 <= k < |s| ==> s[k] == if k % 2 == 0 then 3 else 2
  }

  lemma ParityShift(k: nat, n: nat)
    ensures (k + 2 * n) % 2 == k % 2
  {
    ModUnique(k + 2 * n, 2, k / 2 + n, k % 2);
  }

  lemma AlternatesAppend(s: seq<byte>, t: seq<byte>, n: nat)
    requires |s| == 2 * n && Alternates(s) && Alternates(t)
    ensures Alternates(s + t)
  {
    forall k | 0 <= k < |s + t| ensures (s + t)[k] == if k % 2 == 0 then 3 else 2 {
      if k >= |s| { ParityShift(k - |s|, n); }
    }
  }

  lemma {:induction false} ZippedRowAlternates(a: seq<byte>, b: seq<byte>)
    requires |a| == |b|
    requires forall c :: 0 <= c < |a| ==> a[c] == 3 && b[c] == 2
    ensures Alternates(ZipRow(a, b))
  {
    if a != [] {
      var n := |a| - 1;
      ZippedRowAlternates(a[..n], b[..n]);
      AlternatesAppend(ZipRow(a[..n], b[..n]), [3, 2], n);
    }
  }

  lemma {:induction false} FlatAlternates(z: Plane, cols: nat) returns (n: nat)
    requires forall r :: 0 <= r < |z| ==> |z[r]| == 2 * cols && Alternates(z[r])
    ensures Alternates(Flat(z)) && |Flat(z)| == 2 * n
  {
    n := 0;
    if z != [] {
      n := FlatAlternates(z[..|z| - 1], cols);
      FlatLast(z, |z| - 1);
      AlternatesAppend(Flat(z[..|z| - 1]), z[|z| - 1], n);
      n := n + cols;
    }
  }

  predicate RowIs(row: seq<byte>, cols: nat, value: byte) {
    |row| == cols && forall c :: 0 <= c < cols ==> row[c] == value
  }

  /** The rows of a band of a plane are constant. */
  ghost predicate BandIs(p: Plane, top: nat, rows: nat, cols: nat, value: byte) {
    top + rows <= |p| && forall r :: top <= r < top + rows ==> RowIs(p[r], cols, value)
  }

  /** The sizes and bands, in chroma samples, for which interleaved chroma looks like two constant planes. */
  predicate LooksPlanar(cols: nat, height: nat, top: nat, rows: nat) {
    cols == 0 || rows == 0 || (cols == 1 && rows == 1 && height % 2 == 1 && top % 2 == 0)
  }

  /** The two samples that interleaved chroma gives at one place when it is read as two planes. */
  lemma SamplesAt(chroma: seq<byte>, n: nat, height: nat, cols: nat, r: nat, c: nat, k: nat)
    requires Alternates(chroma) && |chroma| == 2 * n && n == height * cols
    requires r < height && c < cols && k == r * cols + c
    ensures var v, u := CutRows(chroma[..n], height, cols), CutRows(chroma[n..], height, cols);
            && |v[r]| == |u[r]| == cols
            && v[r][c] == (if k % 2 == 0 then 3 else 2)
            && u[r][c] == (if (n + k) % 2 == 0 then 3 else 2)
  {
    CutRowsAt(chroma[..n], height, cols, r, c, k);
    CutRowsAt(chroma[n..], height, cols, r, c, k);
  }

  lemma BandsVary(chroma: seq<byte>, n: nat, height: nat, cols: nat, top: nat, rows: nat)
    requires Alternates(chroma) && |chroma| == 2 * n && n == height * cols && top + rows <= height
    requires rows > 0 && cols > 0 && (rows > 1 || cols > 1)
    ensures !BandIs(CutRows(chroma[..n], height, cols), top, rows, cols, 3)
  {
    var k := top * cols;
    SamplesAt(chroma, n, height, cols, top, 0, k);
    if cols > 1 {
      SamplesAt(chroma, n, height, cols, top, 1, k + 1);
    } else {
      SamplesAt(chroma, n, height, cols, top + 1, 0, k + 1);
    }
    var v := CutRows(chroma[..n], height, cols);
    assert !RowIs(v[top], cols, 3) || (cols == 1 && !RowIs(v[top + 1], cols, 3));
  }

  lemma OneSampleBands(chroma: seq<byte>, height: nat, top: nat)
    requires Alternates(chroma) && |chroma| == 2 * height && top < height && height == height * 1
    ensures BandIs(CutRows(chroma[..height], height, 1), top, 1, 1, 3) <==> top % 2 == 0
    ensures BandIs(CutRows(chroma[height..], height, 1), top, 1, 1, 2) <==> (height + top) % 2 == 1
  {
    SamplesAt(chroma, height, height, 1, top, 0, top);
    var v, u := CutRows(chroma[..height], height, 1)[top], CutRows(chroma[height..], height, 1)[top];
    assert RowIs(v, 1, 3) <==> v[0] == 3;
    assert RowIs(u, 1, 2) <==> u[0] == 2;
  }

  lemma EmptyBands(p: Plane, height: nat, cols: nat, top: nat, rows: nat, value: byte)
    requires HasSize(p, height, cols) && top + rows <= height && (cols == 0 || rows == 0)
    ensures BandIs(p, top, rows, cols, value)
  {
  }

  /** The two halves of interleaved chroma, read as planes of this height, have the constant bands. */
  ghost predicate BandsAreConstant(chroma: seq<byte>, n: nat, height: nat, cols: nat, top: nat, rows: nat)
    requires |chroma| == 2 * n && n == height * cols
  {
    && BandIs(CutRows(chroma[..n], height, cols), top, rows, cols, 3)
    && BandIs(CutRows(chroma[n..], height, cols), top, rows, cols, 2)
  }

  lemma EmptyBandsAreConstant(chroma: seq<byte>, n: nat, height: nat, cols: nat, top: nat, rows: nat)
    requires |chroma| == 2 * n && n == height * cols && top + rows <= height && (cols == 0 || rows == 0)
    ensures BandsAreConstant(chroma, n, height, cols, top, rows)
  {
    CutRowsHasSize(chroma[..n], height, cols);
    CutRowsHasSize(chroma[n..], height, cols);
    EmptyBands(CutRows(chroma[..n], height, cols), height, cols, top, rows, 3);
    EmptyBands(CutRows(chroma[n..], height, cols), height, cols, top, rows, 2);
  }

  lemma BandsOfOneSample(chroma: seq<byte>, n: nat, height: nat, top: nat)
    requires Alternates(chroma) && |chroma| == 2 * n && n == height * 1 && top < height
    ensures BandsAreConstant(chroma, n, height, 1, top, 1) <==> LooksPlanar(1, height, top, 1)
  {
    hide BandIs, CutRows, Alternates;
    OneSampleBands(chroma, height, top);
    assert (height + top) % 2 == 1 && top % 2 == 0 <==> height % 2 == 1 && top % 2 == 0;
  }

  lemma BandsAreConstantIff(chroma: seq<byte>, n: nat, height: nat, cols: nat, top: nat, rows: nat)
    requires Alternates(chroma) && |chroma| == 2 * n && n == height * cols && top + rows <= height
    ensures BandsAreConstant(chroma, n, height, cols, top, rows) <==> LooksPlanar(cols, height, top, rows)
  {
    if cols == 0 || rows == 0 {
      hide BandsAreConstant;
      EmptyBandsAreConstant(chroma, n, height, cols, top, rows);
    } else if cols > 1 || rows > 1 {
      hide BandIs, CutRows, Alternates;
      BandsVary(chroma, n, height, cols, top, rows);
    } else {
      hide BandsAreConstant;
      BandsOfOneSample(chroma, n, height, top);
    }
  }

  function UprightChroma(w: nat, h: nat): seq<byte> {
    Flat(Zip(SourceImage(0, w, h).v, SourceImage(0, w, h).u))
  }

  lemma UprightChromaAlternates(w: nat, h: nat)
    requires EvenSize(w, h)
    ensures |UprightChroma(w, h)| == 2 * ChromaSize(w, h) && Alternates(UprightChroma(w, h))
  {
    var image := SourceImage(0, w, h);
    var z := Zip(image.v, image.u);
    forall k | 0 <= k < |z| ensures |z[k]| == 2 * (w / 2) && Alternates(z[k]) {
      ZippedRowAlternates(image.v[k], image.u[k]);
    }
    var half := FlatAlternates(z, w / 2);
    FlatLength(z, h / 2, 2 * (w / 2));
    FrameSizeIs(w, h);
  }

  /** What reading the upright source pattern as YV12 gives. */
  lemma UprightReadAsYV12(w: nat, h: nat, s: seq<byte>, n: nat)
    requires EvenSize(w, h) && s == Encode(NV12, SourceImage(0, w, h)) && n == ChromaSize(w, h)
    ensures |s| == FrameSize(w, h) && |UprightChroma(w, h)| == 2 * n
    ensures Decode(YV12, w, h, s)
            == Image(PatternPlane(Constant(1), h, w),
                     CutRows(UprightChroma(w, h)[n..], h / 2, w / 2), CutRows(UprightChroma(w, h)[..n], h / 2, w / 2))
  {
    var image := SourceImage(0, w, h);
    EncodeLength(NV12, image, w, h);
    UprightChromaAlternates(w, h);
    CutRowsUndoesFlat(image.y, h, w);
    DropTake(Flat(image.y), UprightChroma(w, h));
  }

  /** A cropped image is the upright pattern when its three bands are constant. */
  lemma CroppedIsUprightIff(i: Image, w: nat, h: nat, top: nat, rows: nat)
    requires EvenSize(w, h) && IsBand(h, top, rows) && ImageHasSize(i, w, h) && i.y == PatternPlane(Constant(1), h, w)
    ensures CropImage(i, h, top, rows) == SourceImage(0, w, rows)
            <==> BandIs(i.v, top / 2, rows / 2, w / 2, 3) && BandIs(i.u, top / 2, rows / 2, w / 2, 2)
  {
    var cut, want := CropImage(i, h, top, rows), SourceImage(0, w, rows);
    PlanesAgree(cut.y, want.y, rows, w);
    BandIsCrop(i.u, top / 2, rows / 2, w / 2, 2);
    BandIsCrop(i.v, top / 2, rows / 2, w / 2, 3);
  }

  lemma BandIsCrop(p: Plane, top: nat, rows: nat, cols: nat, value: byte)
    requires top + rows <= |p|
    ensures p[top..top + rows] == PatternPlane(Constant(value), rows, cols) <==> BandIs(p, top, rows, cols, value)
  {
    var cut, want := p[top..top + rows], PatternPlane(Constant(value), rows, cols);
    forall r | 0 <= r < rows ensures cut[r] == want[r] <==> RowIs(p[top + r], cols, value) {
      assert cut[r] == p[top + r];
      assert RowIs(want[r], cols, value);
    }
    if cut == want {
      forall r | top <= r < top + rows ensures RowIs(p[r], cols, value) { assert cut[r - top] == p[r]; }
    }
  }

  /** At rotation 0 the YV12 source pattern does not convert to the expected pattern, except for an empty band or a
      single chroma sample that falls right: the source builder never looks at the type there. */
  lemma UprightYV12ConvertsIff(w: nat, h: nat, top: nat, rows: nat)
    requires EvenSize(w, h) && IsBand(h, top, rows)
    ensures var s := SourceFrame(WseYV12, 0, w, h);
            && |s| == FrameSize(w, h)
            && (Converted(YV12, w, h, top, rows, 0, s) == ExpectedFrame(0, w, rows)
                <==> LooksPlanar(w / 2, h / 2, top / 2, rows / 2))
  {
    var s, n := SourceFrame(WseYV12, 0, w, h), ChromaSize(w, h);
    UprightReadAsYV12(w, h, s, n);
    UprightChromaAlternates(w, h);
    EncodeUndoesDecode(YV12, w, h, s);
    BandsAreConstantIff(UprightChroma(w, h), n, h / 2, w / 2, top / 2, rows / 2);
    UprightConvertsIff(s, w, h, top, rows);
  }

  lemma UprightConverts(s: seq<byte>, w: nat, h: nat, top: nat, rows: nat)
    requires EvenSize(w, h) && IsBand(h, top, rows) && |s| == FrameSize(w, h)
    ensures ImageHasSize(Decode(YV12, w, h, s), w, h)
    ensures ImageHasSize(CropImage(Decode(YV12, w, h, s), h, top, rows), w, rows)
    ensures Converted(YV12, w, h, top, rows, 0, s) == Encode(I420, CropImage(Decode(YV12, w, h, s), h, top, rows))
  {
    hide Encode, Decode, FrameSize, CropImage;
    EncodeUndoesDecode(YV12, w, h, s);
    CroppedSize(Decode(YV12, w, h, s), w, h, top, rows);
  }

  lemma UprightConvertsIff(s: seq<byte>, w: nat, h: nat, top: nat, rows: nat)
    requires EvenSize(w, h) && IsBand(h, top, rows) && |s| == FrameSize(w, h)
    requires Decode(YV12, w, h, s).y == PatternPlane(Constant(1), h, w)
    ensures var i := Decode(YV12, w, h, s);
            Converted(YV12, w, h, top, rows, 0, s) == ExpectedFrame(0, w, rows)
            <==> BandIs(i.v, top / 2, rows / 2, w / 2, 3) && BandIs(i.u, top / 2, rows / 2, w / 2, 2)
  {
    hide Decode, Encode, CropImage, SourceImage, Converted, ExpectedFrame, BandIs, PatternPlane, FrameSize;
    UprightConverts(s, w, h, top, rows);
    ExpectedUpright(w, rows);
    var i := Decode(YV12, w, h, s);
    CroppedIsUprightIff(i, w, h, top, rows);
    EncodeIsInjective(CropImage(i, h, top, rows), SourceImage(0, w, rows), w, rows);
  }

  lemma ExpectedUpright(w: nat, rows: nat)
    ensures ImageHasSize(SourceImage(0, w, rows), w, rows)
    ensures ExpectedFrame(0, w, rows) == Encode(I420, SourceImage(0, w, rows))
  {
  }
}
