/** The video-processing test from end to end: fill a source frame, convert it, fill the expected frame, compare. */
module YuvConversion {
  import opened Common
  import opened YuvLayout
  import opened YuvPatterns
  import opened YuvBuilders
  import opened YuvUprightYV12
  import opened YuvPadding
  import opened YuvTurnedPadding
  import opened YuvCheck

  /** The type under which the source builder writes a layout. */
  function TypeOf(t: Layout): VideoType {
    match t
    case NV12 => WseNV12
    case YV12 => WseYV12
    case I420 => WseOther
  }

  method FrameOf(s: seq<byte>) returns (data: array<byte>)
    ensures fresh(data) && data[..] == s
  {
    data := new byte[|s|](i requires 0 <= i < |s| => s[i]);
  }

  method SourceOf(t: Layout, w: nat, h: nat, rotation: nat) returns (s: seq<byte>)
    requires t != I420 && EvenSize(w, h) && IsRotation(rotation)
    ensures |s| == FrameSize(w, h) && s == SourceFrame(TypeOf(t), rotation, w, h)
  {
    hide SourceFrame, FrameSize;
    var data := new byte[FrameSize(w, h)];
    SourceDataFill(data, w, h, rotation, TypeOf(t));
    SourceFrameLength(TypeOf(t), rotation, w, h);
    s := data[..];
  }

  method ExpectedOf(w: nat, h: nat, rotation: nat) returns (data: array<byte>)
    requires EvenSize(w, h) && IsRotation(rotation)
    ensures fresh(data) && data.Length == FrameSize(w, h) && data[..] == ExpectedFrame(rotation, w, h)
  {
    hide ExpectedFrame, FrameSize;
    data := new byte[FrameSize(w, h)];
    ExpectedDataFill(data, w, h, rotation);
    ExpectedFrameLength(rotation, w, h);
  }

  /** The checker on two whole frames. */
  method Compare(out: array<byte>, data: array<byte>, w: nat, h: nat) returns (failures: nat)
    requires EvenSize(w, h) && out.Length == data.Length == FrameSize(w, h)
    ensures failures == 0 <==> out[..] == data[..]
  {
    hide Differences, FrameSize;
    CheckSeesWholeFrame(out[..], data[..], w, h);
    failures := CheckPixelRight(out, data, w, h);
    assert out[..][..out.Length] == out[..] && data[..][..out.Length] == data[..];
  }

  /** A pipeline that reads the source frame in its layout, crops a band, turns it clockwise and stores it as I420
      passes every comparison of the test, for every size, band and rotation; but for YV12 at rotation 0, whose source
      frame is not a YV12 frame, only where the bands look planar. */
  method ConversionTest(t: Layout, w: nat, h: nat, top: nat, rows: nat, rotation: nat) returns (failures: nat)
    requires t != I420 && EvenSize(w, h) && IsBand(h, top, rows) && IsRotation(rotation)
    ensures failures == 0 <==> t == NV12 || rotation != 0 || LooksPlanar(w / 2, h / 2, top / 2, rows / 2)
  {
    hide Converted, SourceFrame, ExpectedFrame, FrameSize, LooksPlanar;
    var source := SourceOf(t, w, h, rotation);
    ConvertedLength(t, w, h, top, rows, rotation, source);
    var out := FrameOf(Converted(t, w, h, top, rows, rotation, source));
    var w', h' := TurnedWidth(rotation, w, rows), TurnedWidth(rotation, rows, w);
    var expected := ExpectedOf(w', h', rotation);
    failures := Compare(out, expected, w', h');
    if t == NV12 || rotation != 0 {
      SourceConvertsToExpected(t, rotation, w, h, top, rows);
    } else {
      UprightYV12ConvertsIff(w, h, top, rows);
    }
  }

  lemma ConvertedLength(t: Layout, w: nat, h: nat, top: nat, rows: nat, rotation: nat, s: seq<byte>)
    requires EvenSize(w, h) && |s| == FrameSize(w, h) && IsBand(h, top, rows)
    ensures var w', h' := TurnedWidth(rotation, w, rows), TurnedWidth(rotation, rows, w);
            EvenSize(w', h') && |Converted(t, w, h, top, rows, rotation, s)| == FrameSize(w', h')
  {
    hide Encode, Decode, FrameSize, CropImage, RotateImage;
    EncodeUndoesDecode(t, w, h, s);
    var i := Decode(t, w, h, s);
    CroppedSize(i, w, h, top, rows);
    ConvertedSize(rotation, CropImage(i, h, top, rows), w, rows);
    EncodeLength(I420, RotateImage(rotation, CropImage(i, h, top, rows), w, rows),
                 TurnedWidth(rotation, w, rows), TurnedWidth(rotation, rows, w));
  }

  /** The source frame turned by 270 degrees, cropped to a band of rows, and stored between two bars as I420. */
  function ConvertedBetweenBars(s: seq<byte>, w: nat, h: nat, top: nat, rows: nat, paddingLenW: nat): seq<byte>
    requires EvenSize(w, h) && |s| == FrameSize(w, h) && IsBand(w, top, rows) && paddingLenW % 4 == 0
  {
    EncodeUndoesDecode(NV12, w, h, s);
    CentredBandSize(Decode(NV12, w, h, s), w, h, top, rows, paddingLenW);
    Encode(I420, CentredBand(Decode(NV12, w, h, s), w, h, top, rows, paddingLenW))
  }

  lemma SourceReadBack(w: nat, h: nat, rotation: nat)
    requires EvenSize(w, h) && IsRotation(rotation)
    ensures |SourceFrame(WseNV12, rotation, w, h)| == FrameSize(w, h)
    ensures Decode(NV12, w, h, SourceFrame(WseNV12, rotation, w, h)) == SourceImage(rotation, w, h)
  {
    hide Encode, Decode, FrameSize, SourceImage;
    SourceImageSize(rotation, w, h);
    DecodeUndoesEncode(NV12, SourceImage(rotation, w, h), w, h);
  }

  lemma ExpectedReadBack(w: nat, h: nat, rotation: nat)
    requires EvenSize(w, h) && IsRotation(rotation)
    ensures |ExpectedFrame(rotation, w, h)| == FrameSize(w, h)
    ensures Decode(I420, w, h, ExpectedFrame(rotation, w, h)) == ExpectedImage(rotation, w, h)
  {
    hide Encode, Decode, FrameSize;
    DecodeUndoesEncode(I420, ExpectedImage(rotation, w, h), w, h);
  }

  lemma ConvertedIsCentredBand(source: Image, full: nat, n: nat, top: nat, h: nat, paddingLenW: nat)
    requires full % 2 == 0 && n % 2 == 0 && IsBand(full, top, h) && paddingLenW % 4 == 0
    requires source == SourceImage(270, full, n) && ImageHasSize(source, full, n)
    ensures var s, i := SourceFrame(WseNV12, 270, full, n), CentredBand(source, full, n, top, h, paddingLenW);
            && |s| == FrameSize(full, n) && ImageHasSize(i, n + paddingLenW, h)
            && ConvertedBetweenBars(s, full, n, top, h, paddingLenW) == Encode(I420, i)
  {
    hide Encode, Decode, FrameSize, SourceFrame, SourceImage, CentredBand;
    SourceReadBack(full, n, 270);
    CentredBandSize(source, full, n, top, h, paddingLenW);
  }

  /** The expected frame at rotation 270 with padding; it is the frame of another image exactly when the images
      agree. */
  method PaddedOf(w: nat, h: nat, paddingLenW: nat, paddingLenH: int, ghost j: Image) returns (data: array<byte>)
    requires EvenSize(w, h) && paddingLenW <= w && ImageHasSize(j, w, h)
    ensures fresh(data) && data.Length == FrameSize(w, h)
    ensures Encode(I420, j) == data[..] <==> Padded(270, ExpectedImage(270, w, h), w, h, paddingLenW, paddingLenH) == j
  {
    hide ExpectedFrame, FrameSize, ExpectedImage, Encode, Decode, PadImage;
    data := ExpectedOf(w, h, 270);
    ExpectedReadBack(w, h, 270);
    ExpectedImageSize(270, w, h);
    assert data[..][..FrameSize(w, h)] == data[..];
    ExpectedDataPadding(data, w, h, 270, paddingLenW, paddingLenH);
    PaddedSize(ExpectedImage(270, w, h), TurnedPadding(w, h, paddingLenW, paddingLenH), w, h);
    EncodeIsInjective(Padded(270, ExpectedImage(270, w, h), w, h, paddingLenW, paddingLenH), j, w, h);
  }

  /** The test at rotation 270 with padding: a picture `full` wide and `n` high is turned, cropped to `h` rows, and put
      between two bars. All comparisons succeed exactly when the rows start one below the middle of what is cropped away
      (up to the 256 levels of a byte) and half of what is cropped away is odd, or when nothing shows. */
  method PaddedConversionTest(n: nat, h: nat, paddingLenW: nat, full: nat, top: nat) returns (failures: nat)
    requires EvenSize(n, h) && paddingLenW % 4 == 0 && full % 2 == 0 && IsBand(full, top, h)
    ensures failures == 0
            <==> h == 0 || n == 0 || ((full - h) % 4 == 2 && (top - (full - h) / 2 - 1) % 512 == 0)
  {
    hide SourceFrame, ExpectedFrame, FrameSize, ConvertedBetweenBars, Padded, ExpectedImage, Encode, Decode,
         CentredBand, SourceImage;
    var w := n + paddingLenW;
    BarsAddUp(n, paddingLenW);
    var source := SourceOf(NV12, full, n, 270);
    ghost var picture := SourceImage(270, full, n);
    SourceImageSize(270, full, n);
    ConvertedIsCentredBand(picture, full, n, top, h, paddingLenW);
    var out := FrameOf(ConvertedBetweenBars(source, full, n, top, h, paddingLenW));
    ghost var j := CentredBand(picture, full, n, top, h, paddingLenW);
    EncodeLength(I420, j, w, h);
    var expected := PaddedOf(w, h, paddingLenW, h - full, j);
    ShowsBandIff(picture, n, h, paddingLenW, full, top);
    failures := Compare(out, expected, w, h);
  }
}
