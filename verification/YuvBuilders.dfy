/** The two pattern builders of the video-processing test, branch by branch. */
module YuvBuilders {
  import opened Common
  import opened YuvLayout
  import opened YuvPatterns
  import opened YuvFill

  /** A plane and the two planes behind it, written from the start of the buffer. */
  lemma OverwriteThree(s: seq<byte>, at: nat, a: seq<byte>, b: seq<byte>, c: seq<byte>)
    requires at + |a| + |b| + |c| <= |s|
    ensures Overwrite(Overwrite(Overwrite(s, at, a), at + |a|, b), at + |a| + |b|, c) == Overwrite(s, at, a + (b + c))
  {
    var t, bc := Overwrite(s, at, a), b + c;
    assert Overwrite(Overwrite(t, at + |a|, b), at + |a| + |b|, c) == Overwrite(t, at + |a|, bc) by {
      OverwriteOn(t, at + |a|, b, c);
    }
    OverwriteOn(s, at, a, bc);
  }

  lemma PlaneSizes(w: nat, h: nat, y: Pattern, u: Pattern, v: Pattern)
    requires EvenSize(w, h)
    ensures var i := PatternImage(y, u, v, w, h);
            && |Flat(i.y)| == w * h
            && |Flat(i.u)| == |Flat(i.v)| == (w * h) / 4
            && |Flat(Zip(i.v, i.u))| == (w * h) / 4 + (w * h) / 4
            && FrameSize(w, h) == w * h + (w * h) / 4 + (w * h) / 4
  {
    var i := PatternImage(y, u, v, w, h);
    FrameSizeIs(w, h);
    FlatLength(i.y, h, w);
    FlatLength(i.u, h / 2, w / 2);
    FlatLength(i.v, h / 2, w / 2);
    PartsOfZip(i.v, i.u, h / 2, w / 2);
    FlatLength(Zip(i.v, i.u), h / 2, 2 * (w / 2));
  }

  /** Interleaved chroma written where the builder starts it completes an NV12 frame. */
  lemma PairsCompleteFrame(s: seq<byte>, w: nat, h: nat, i: Image, n: nat, y: Pattern, u: Pattern, v: Pattern)
    requires EvenSize(w, h) && FrameSize(w, h) <= |s| && i == PatternImage(y, u, v, w, h) && n == w * h
    ensures IsInterleaved(Zip(i.v, i.u), h / 2, w / 2, v, u)
    ensures |Flat(i.y)| == n && n + |Flat(Zip(i.v, i.u))| == FrameSize(w, h) == |Encode(NV12, i)|
    ensures Overwrite(Overwrite(s, 0, Flat(i.y)), n, Flat(Zip(i.v, i.u))) == Overwrite(s, 0, Encode(NV12, i))
  {
    hide Overwrite, Flat, FlatTo, PatternPlane, PatternRow, FrameSize, ZipRow;
    PlaneSizes(w, h, y, u, v);
    OverwriteOn(s, 0, Flat(i.y), Flat(Zip(i.v, i.u)));
  }

  /** Two chroma planes written where the builders start them complete a planar frame. */
  lemma PlanesCompleteFrame(s: seq<byte>, y: seq<byte>, first: seq<byte>, second: seq<byte>, n: nat, size: nat)
    requires |y| == n && |first| == |second| == n / 4 && size == n + n / 4 + n / 4 <= |s|
    ensures |y + (first + second)| == size
    ensures Overwrite(Overwrite(Overwrite(s, 0, y), n, first), n + n / 4, second)
            == Overwrite(s, 0, y + (first + second))
  {
    hide *;
    OverwriteThree(s, 0, y, first, second);
  }

  lemma PlanarFrame(s: seq<byte>, t: Layout, w: nat, h: nat, i: Image, n: nat, y: Pattern, u: Pattern, v: Pattern)
    requires t != NV12 && EvenSize(w, h) && FrameSize(w, h) <= |s| && i == PatternImage(y, u, v, w, h) && n == w * h
    ensures |Flat(i.y)| == n && |Flat(i.u)| == |Flat(i.v)| == n / 4
    ensures n + n / 4 + n / 4 == FrameSize(w, h) == |Encode(t, i)|
    ensures Overwrite(Overwrite(Overwrite(s, 0, Flat(i.y)), n, Flat(FirstChroma(t, i))),
                      n + n / 4, Flat(SecondChroma(t, i)))
            == Overwrite(s, 0, Encode(t, i))
  {
    hide Overwrite, FlatTo, Flat, PatternPlane, FrameSize;
    PlaneSizes(w, h, y, u, v);
    PlanesCompleteFrame(s, Flat(i.y), Flat(FirstChroma(t, i)), Flat(SecondChroma(t, i)), n, FrameSize(w, h));
  }

  /** Chroma interleaved behind the luma plane. */
  method FillChromaPairs(data: array<byte>, width: nat, height: nat, y: Pattern, u: Pattern, v: Pattern,
                       ghost before: seq<byte>)
    requires EvenSize(width, height) && |before| == data.Length && FrameSize(width, height) <= data.Length
    requires |Flat(PatternPlane(y, height, width))| <= data.Length
    requires data[..] == Overwrite(before, 0, Flat(PatternPlane(y, height, width)))
    modifies data
    ensures |Encode(NV12, PatternImage(y, u, v, width, height))| == FrameSize(width, height)
    ensures data[..] == Overwrite(before, 0, Encode(NV12, PatternImage(y, u, v, width, height)))
  {
    var ySize := width * height;
    ghost var i := PatternImage(y, u, v, width, height);
    hide Overwrite, Flat, FlatTo, Encode, PatternPlane, FrameSize, Zip, IsInterleaved;
    PairsCompleteFrame(before, width, height, i, ySize, y, u, v);
    FillInterleaved(data, ySize, height / 2, width, width / 2, v, u, Zip(i.v, i.u));
  }

  /** Chroma in two planes behind the luma plane, V first. */
  method FillChromaVU(data: array<byte>, width: nat, height: nat, y: Pattern, u: Pattern, v: Pattern,
                       ghost before: seq<byte>)
    requires EvenSize(width, height) && |before| == data.Length && FrameSize(width, height) <= data.Length
    requires |Flat(PatternPlane(y, height, width))| <= data.Length
    requires data[..] == Overwrite(before, 0, Flat(PatternPlane(y, height, width)))
    modifies data
    ensures |Encode(YV12, PatternImage(y, u, v, width, height))| == FrameSize(width, height)
    ensures data[..] == Overwrite(before, 0, Encode(YV12, PatternImage(y, u, v, width, height)))
  {
    var ySize := width * height;
    ghost var i := PatternImage(y, u, v, width, height);
    hide Overwrite, Flat, FlatTo, Encode, PatternPlane, FrameSize;
    PlanarFrame(before, YV12, width, height, i, ySize, y, u, v);
    FillPlanePair(data, ySize, ySize + ySize / 4, height / 2, width / 2, v, u);
  }

  /** Chroma in two planes behind the luma plane, U first. */
  method FillChromaUV(data: array<byte>, width: nat, height: nat, y: Pattern, u: Pattern, v: Pattern,
                       ghost before: seq<byte>)
    requires EvenSize(width, height) && |before| == data.Length && FrameSize(width, height) <= data.Length
    requires |Flat(PatternPlane(y, height, width))| <= data.Length
    requires data[..] == Overwrite(before, 0, Flat(PatternPlane(y, height, width)))
    modifies data
    ensures |Encode(I420, PatternImage(y, u, v, width, height))| == FrameSize(width, height)
    ensures data[..] == Overwrite(before, 0, Encode(I420, PatternImage(y, u, v, width, height)))
  {
    var ySize := width * height;
    ghost var i := PatternImage(y, u, v, width, height);
    hide Overwrite, Flat, FlatTo, Encode, PatternPlane, FrameSize;
    PlanarFrame(before, I420, width, height, i, ySize, y, u, v);
    FillPlanePair(data, ySize, ySize + ySize / 4, height / 2, width / 2, u, v);
  }

  /** The same where the rows are constant, by memset. */
  method FillChromaRowsUV(data: array<byte>, width: nat, height: nat, y: Pattern, u: Pattern, v: Pattern,
                          ghost before: seq<byte>)
    requires EvenSize(width, height) && |before| == data.Length && FrameSize(width, height) <= data.Length
    requires |Flat(PatternPlane(y, height, width))| <= data.Length && IsRowConstant(u) && IsRowConstant(v)
    requires data[..] == Overwrite(before, 0, Flat(PatternPlane(y, height, width)))
    modifies data
    ensures |Encode(I420, PatternImage(y, u, v, width, height))| == FrameSize(width, height)
    ensures data[..] == Overwrite(before, 0, Encode(I420, PatternImage(y, u, v, width, height)))
  {
    var ySize := width * height;
    ghost var i := PatternImage(y, u, v, width, height);
    hide Overwrite, Flat, FlatTo, Encode, PatternPlane, FrameSize;
    PlanarFrame(before, I420, width, height, i, ySize, y, u, v);
    FillRowsPair(data, ySize, ySize + ySize / 4, height / 2, width / 2, u, v);
  }

  /** The frame is at the front of the buffer, and the rest of the buffer is as it was. */
  lemma WrittenFrame(before: seq<byte>, frame: seq<byte>)
    requires |frame| <= |before|
    ensures Overwrite(before, 0, frame) == frame + before[|frame|..]
  {
    OverwriteIs(before, 0, frame, frame + before[|frame|..]);
  }

  /** `NV12YV12SrcDataFill`: the buffer afterwards is the source frame, and nothing behind it has changed. */
  method SourceDataFill(data: array<byte>, width: nat, height: nat, rotation: nat, t: VideoType)
    requires EvenSize(width, height) && FrameSize(width, height) <= data.Length
    modifies data
    ensures |SourceFrame(t, rotation, width, height)| <= data.Length
    ensures data[..] == SourceFrame(t, rotation, width, height)
                        + old(data[..])[|SourceFrame(t, rotation, width, height)|..]
  {
    hide Overwrite, Flat, FlatTo, Encode, PatternPlane, FrameSize;
    ghost var before := data[..];
    FrameSizeIs(width, height);
    SourceFrameLength(t, rotation, width, height);
    WrittenFrame(before, SourceFrame(t, rotation, width, height));
    PlaneSizes(width, height, Constant(1), Constant(2), Constant(3));
    PlaneSizes(width, height, ByColumn, ByColumnReversed, ByColumn);
    if rotation == 0 {
      FillRows(data, 0, height, width, Constant(1));
      FillChromaPairs(data, width, height, Constant(1), Constant(2), Constant(3), before);
    } else if rotation == 90 {
      FillPlane(data, 0, height, width, ByColumn);
      if t == WseNV12 {
        FillChromaPairs(data, width, height, ByColumn, ByColumnReversed, ByColumn, before);
      } else if t == WseYV12 {
        FillChromaVU(data, width, height, ByColumn, ByColumnReversed, ByColumn, before);
      }
    } else if rotation == 180 {
      FillPlane(data, 0, height, width, ByColumn);
      if t == WseNV12 {
        FillChromaPairs(data, width, height, ByColumn, ByColumnReversed, ByColumn, before);
      } else if t == WseYV12 {
        FillChromaVU(data, width, height, ByColumn, ByColumnReversed, ByColumn, before);
      }
    } else if rotation == 270 {
      FillPlane(data, 0, height, width, ByColumn);
      if t == WseNV12 {
        FillChromaPairs(data, width, height, ByColumn, ByColumnReversed, ByColumn, before);
      } else if t == WseYV12 {
        FillChromaVU(data, width, height, ByColumn, ByColumnReversed, ByColumn, before);
      }
    }
  }

  /** `I420DstDataFill`: the buffer afterwards is the expected frame, and nothing behind it has changed. */
  method ExpectedDataFill(data: array<byte>, width: nat, height: nat, rotation: nat)
    requires EvenSize(width, height) && FrameSize(width, height) <= data.Length
    modifies data
    ensures |ExpectedFrame(rotation, width, height)| <= data.Length
    ensures data[..] == ExpectedFrame(rotation, width, height)
                        + old(data[..])[|ExpectedFrame(rotation, width, height)|..]
  {
    hide Overwrite, Flat, FlatTo, Encode, PatternPlane, FrameSize;
    ghost var before := data[..];
    ExpectedFrameLength(rotation, width, height);
    WrittenFrame(before, ExpectedFrame(rotation, width, height));
    if rotation == 0 {
      PlaneSizes(width, height, Constant(1), Constant(2), Constant(3));
      FillRows(data, 0, height, width, Constant(1));
      FillChromaRowsUV(data, width, height, Constant(1), Constant(2), Constant(3), before);
    } else if rotation == 90 {
      PlaneSizes(width, height, ByRow, ByRowReversed, ByRow);
      FillRows(data, 0, height, width, ByRow);
      FillChromaRowsUV(data, width, height, ByRow, ByRowReversed, ByRow, before);
    } else if rotation == 180 {
      PlaneSizes(width, height, ByColumnReversed, ByColumn, ByColumnReversed);
      FillPlane(data, 0, height, width, ByColumnReversed);
      FillChromaUV(data, width, height, ByColumnReversed, ByColumn, ByColumnReversed, before);
    } else if rotation == 270 {
      PlaneSizes(width, height, ByRowReversed, ByRow, ByRowReversed);
      FillRows(data, 0, height, width, ByRowReversed);
      FillChromaRowsUV(data, width, height, ByRowReversed, ByRow, ByRowReversed, before);
    }
  }
}
