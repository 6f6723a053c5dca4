/** The test patterns as images, and the reference conversion that relates them. */
module YuvPatterns {
  import opened Common
  import opened YuvLayout

  /** The video types that the source builder tests for; `WseOther` stands for all the others. */
  datatype VideoType = WseNV12 | WseYV12 | WseOther

  /** How a sample depends on its place in its plane. */
  datatype Pattern = Constant(v: int) | ByColumn | ByColumnReversed | ByRow | ByRowReversed

  function Value(p: Pattern, rows: nat, cols: nat, r: nat, c: nat): int {
    match p
    case Constant(v) => v
    case ByColumn => c
    case ByColumnReversed => cols - 1 - c
    case ByRow => r
    case ByRowReversed => rows - 1 - r
  }

  /** Conversion to unsigned char. */
  function AsByte(n: int): byte {
    n % 256
  }

  function PatternRow(p: Pattern, rows: nat, cols: nat, r: nat): (row: seq<byte>)
    ensures |row| == cols && forall c :: 0 <= c < cols ==> row[c] == AsByte(Value(p, rows, cols, r, c))
  {
    seq(cols, c requires 0 <= c < cols => AsByte(Value(p, rows, cols, r, c)))
  }

  function PatternPlane(p: Pattern, rows: nat, cols: nat): (plane: Plane)
    ensures |plane| == rows && forall r :: 0 <= r < rows ==> plane[r] == PatternRow(p, rows, cols, r)
  {
    seq(rows, r requires 0 <= r < rows => PatternRow(p, rows, cols, r))
  }

  function PatternImage(y: Pattern, u: Pattern, v: Pattern, w: nat, h: nat): Image {
    Image(PatternPlane(y, h, w), PatternPlane(u, h / 2, w / 2), PatternPlane(v, h / 2, w / 2))
  }

  predicate IsRotation(rotation: nat) {
    rotation == 0 || rotation == 90 || rotation == 180 || rotation == 270
  }

  /** The patterns of the three source planes, before rotation. */
  function SourcePatterns(rotation: nat): (Pattern, Pattern, Pattern) {
    if rotation == 0 then (Constant(1), Constant(2), Constant(3)) else (ByColumn, ByColumnReversed, ByColumn)
  }

  function SourceImage(rotation: nat, w: nat, h: nat): Image {
    var (y, u, v) := SourcePatterns(rotation);
    PatternImage(y, u, v, w, h)
  }

  lemma SourceImageSize(rotation: nat, w: nat, h: nat)
    ensures ImageHasSize(SourceImage(rotation, w, h), w, h)
  {
  }

  /** What the source builder writes: at rotation 0 it interleaves the chroma whatever the type, and at the other
      rotations it writes luma only for a type it does not test for. */
  function SourceFrame(t: VideoType, rotation: nat, w: nat, h: nat): seq<byte> {
    var i := SourceImage(rotation, w, h);
    if !IsRotation(rotation) then []
    else if rotation == 0 || t == WseNV12 then Encode(NV12, i)
    else if t == WseYV12 then Encode(YV12, i)
    else Flat(i.y)
  }

  /** The expected image, after rotation; `w` and `h` are its own width and height. */
  function ExpectedImage(rotation: nat, w: nat, h: nat): Image {
    if rotation == 0 then PatternImage(Constant(1), Constant(2), Constant(3), w, h)
    else if rotation == 90 then PatternImage(ByRow, ByRowReversed, ByRow, w, h)
    else if rotation == 180 then PatternImage(ByColumnReversed, ByColumn, ByColumnReversed, w, h)
    else PatternImage(ByRowReversed, ByRow, ByRowReversed, w, h)
  }

  lemma ExpectedImageSize(rotation: nat, w: nat, h: nat)
    ensures ImageHasSize(ExpectedImage(rotation, w, h), w, h)
  {
  }

  function ExpectedFrame(rotation: nat, w: nat, h: nat): seq<byte> {
    if IsRotation(rotation) then Encode(I420, ExpectedImage(rotation, w, h)) else []
  }

  lemma ExpectedFrameLength(rotation: nat, w: nat, h: nat)
    requires EvenSize(w, h)
    ensures |ExpectedFrame(rotation, w, h)| == if rotation in {0, 90, 180, 270} then FrameSize(w, h) else 0
  {
    EncodeLength(I420, ExpectedImage(rotation, w, h), w, h);
  }

  /** The source builder writes a whole frame and nothing else; an unknown rotation writes nothing, and an unknown type
      at 90, 180 or 270 degrees leaves the chroma third unwritten. */
  lemma SourceFrameLength(t: VideoType, rotation: nat, w: nat, h: nat)
    requires EvenSize(w, h)
    ensures |SourceFrame(t, rotation, w, h)|
            == if rotation !in {0, 90, 180, 270} then 0
               else if rotation == 0 || t != WseOther then FrameSize(w, h) else h * w
  {
    var i := SourceImage(rotation, w, h);
    assert ImageHasSize(i, w, h);
    if rotation == 0 || t == WseNV12 {
      EncodeLength(NV12, i, w, h);
    } else if t == WseYV12 {
      EncodeLength(YV12, i, w, h);
    } else {
      FlatLength(i.y, h, w);
    }
  }

  // ---------------------------------------------------------------- crop and rotate

  /** Rotation of a plane clockwise by the angle. */
  function RotatePlane(rotation: nat, p: Plane, rows: nat, cols: nat): Plane
    requires |p| == rows && forall r :: 0 <= r < rows ==> |p[r]| == cols
  {
    if rotation == 90 then
      seq(cols, r requires 0 <= r < cols => seq(rows, c requires 0 <= c < rows => p[rows - 1 - c][r]))
    else if rotation == 180 then
      seq(rows, r requires 0 <= r < rows => seq(cols, c requires 0 <= c < cols => p[rows - 1 - r][cols - 1 - c]))
    else if rotation == 270 then
      seq(cols, r requires 0 <= r < cols => seq(rows, c requires 0 <= c < rows => p[c][cols - 1 - r]))
    else p
  }

  lemma RotatedSize(rotation: nat, p: Plane, rows: nat, cols: nat)
    requires HasSize(p, rows, cols)
    ensures if rotation == 90 || rotation == 270 then HasSize(RotatePlane(rotation, p, rows, cols), cols, rows)
            else HasSize(RotatePlane(rotation, p, rows, cols), rows, cols)
  {
  }

  /** Quarter turns add up: two make a half turn, three a three-quarter turn, and four bring the plane back. */
  lemma QuarterTurnsCompose(p: Plane, rows: nat, cols: nat)
    requires HasSize(p, rows, cols)
    ensures HasSize(RotatePlane(90, p, rows, cols), cols, rows)
    ensures HasSize(RotatePlane(180, p, rows, cols), rows, cols)
    ensures HasSize(RotatePlane(270, p, rows, cols), cols, rows)
    ensures RotatePlane(90, RotatePlane(90, p, rows, cols), cols, rows) == RotatePlane(180, p, rows, cols)
    ensures RotatePlane(90, RotatePlane(180, p, rows, cols), rows, cols) == RotatePlane(270, p, rows, cols)
    ensures RotatePlane(90, RotatePlane(270, p, rows, cols), cols, rows) == p
  {
    var quarter, half := RotatePlane(90, p, rows, cols), RotatePlane(180, p, rows, cols);
    var three := RotatePlane(270, p, rows, cols);
    PlanesAgree(RotatePlane(90, quarter, cols, rows), half, rows, cols);
    PlanesAgree(RotatePlane(90, half, rows, cols), three, cols, rows);
    PlanesAgree(RotatePlane(90, three, cols, rows), p, rows, cols);
  }

  /** The top row of a plane becomes, left to right, the rightmost column read downwards: the turn is clockwise. */
  lemma QuarterTurnIsClockwise(p: Plane, rows: nat, cols: nat, c: nat)
    requires HasSize(p, rows, cols) && rows > 0 && c < cols
    ensures RotatePlane(90, p, rows, cols)[c][rows - 1] == p[0][c]
  {
  }

  function TurnedWidth(rotation: nat, w: nat, h: nat): nat {
    if rotation == 90 || rotation == 270 then h else w
  }

  function RotateImage(rotation: nat, i: Image, w: nat, h: nat): Image
    requires |i.y| == h && (forall r :: 0 <= r < h ==> |i.y[r]| == w)
    requires |i.u| == h / 2 && (forall r :: 0 <= r < h / 2 ==> |i.u[r]| == w / 2)
    requires |i.v| == h / 2 && (forall r :: 0 <= r < h / 2 ==> |i.v[r]| == w / 2)
  {
    Image(RotatePlane(rotation, i.y, h, w),
          RotatePlane(rotation, i.u, h / 2, w / 2),
          RotatePlane(rotation, i.v, h / 2, w / 2))
  }

  /** A band of full-width rows. */
  predicate IsBand(h: nat, top: nat, rows: nat) {
    top % 2 == 0 && rows % 2 == 0 && top + rows <= h
  }

  function CropImage(i: Image, h: nat, top: nat, rows: nat): Image
    requires IsBand(h, top, rows) && |i.y| == h && |i.u| == |i.v| == h / 2
  {
    Image(i.y[top..top + rows], i.u[top / 2..(top + rows) / 2], i.v[top / 2..(top + rows) / 2])
  }

  /** The reference conversion: read the frame in its layout, crop the band, turn it clockwise, and store it as I420. */
  function Converted(t: Layout, w: nat, h: nat, top: nat, rows: nat, rotation: nat, s: seq<byte>): seq<byte>
    requires EvenSize(w, h) && |s| == FrameSize(w, h) && IsBand(h, top, rows)
  {
    EncodeUndoesDecode(t, w, h, s);
    CroppedSize(Decode(t, w, h, s), w, h, top, rows);
    var i := CropImage(Decode(t, w, h, s), h, top, rows);
    ConvertedSize(rotation, i, w, rows);
    Encode(I420, RotateImage(rotation, i, w, rows))
  }

  lemma CroppedSize(i: Image, w: nat, h: nat, top: nat, rows: nat)
    requires EvenSize(w, h) && IsBand(h, top, rows) && ImageHasSize(i, w, h)
    ensures ImageHasSize(CropImage(i, h, top, rows), w, rows)
  {
  }

  lemma ConvertedSize(rotation: nat, i: Image, w: nat, rows: nat)
    requires ImageHasSize(i, w, rows) && w % 2 == 0 && rows % 2 == 0
    ensures ImageHasSize(RotateImage(rotation, i, w, rows),
                         TurnedWidth(rotation, w, rows), TurnedWidth(rotation, rows, w))
  {
    RotatedSize(rotation, i.y, rows, w);
    RotatedSize(rotation, i.u, rows / 2, w / 2);
    RotatedSize(rotation, i.v, rows / 2, w / 2);
  }

  // ---------------------------------------------------------------- the patterns convert into one another

  lemma PlanesAgree(a: Plane, b: Plane, rows: nat, cols: nat)
    requires HasSize(a, rows, cols) && HasSize(b, rows, cols)
    requires forall r, c :: 0 <= r < rows && 0 <= c < cols ==> a[r][c] == b[r][c]
    ensures a == b
  {
    forall r | 0 <= r < rows ensures a[r] == b[r] { }
  }

  lemma RotatedRamps(rows: nat, cols: nat)
    ensures RotatePlane(90, PatternPlane(ByColumn, rows, cols), rows, cols) == PatternPlane(ByRow, cols, rows)
    ensures RotatePlane(90, PatternPlane(ByColumnReversed, rows, cols), rows, cols)
            == PatternPlane(ByRowReversed, cols, rows)
    ensures RotatePlane(180, PatternPlane(ByColumn, rows, cols), rows, cols)
            == PatternPlane(ByColumnReversed, rows, cols)
    ensures RotatePlane(180, PatternPlane(ByColumnReversed, rows, cols), rows, cols)
            == PatternPlane(ByColumn, rows, cols)
    ensures RotatePlane(270, PatternPlane(ByColumn, rows, cols), rows, cols) == PatternPlane(ByRowReversed, cols, rows)
    ensures RotatePlane(270, PatternPlane(ByColumnReversed, rows, cols), rows, cols) == PatternPlane(ByRow, cols, rows)
  {
    var up, down := PatternPlane(ByColumn, rows, cols), PatternPlane(ByColumnReversed, rows, cols);
    PlanesAgree(RotatePlane(90, up, rows, cols), PatternPlane(ByRow, cols, rows), cols, rows);
    PlanesAgree(RotatePlane(90, down, rows, cols), PatternPlane(ByRowReversed, cols, rows), cols, rows);
    PlanesAgree(RotatePlane(180, up, rows, cols), PatternPlane(ByColumnReversed, rows, cols), rows, cols);
    PlanesAgree(RotatePlane(180, down, rows, cols), PatternPlane(ByColumn, rows, cols), rows, cols);
    PlanesAgree(RotatePlane(270, up, rows, cols), PatternPlane(ByRowReversed, cols, rows), cols, rows);
    PlanesAgree(RotatePlane(270, down, rows, cols), PatternPlane(ByRow, cols, rows), cols, rows);
  }

  lemma RotatedSourceImage(rotation: nat, w: nat, rows: nat)
    requires IsRotation(rotation) && w % 2 == 0 && rows % 2 == 0
    ensures RotateImage(rotation, SourceImage(rotation, w, rows), w, rows)
            == ExpectedImage(rotation, TurnedWidth(rotation, w, rows), TurnedWidth(rotation, rows, w))
  {
    RotatedRamps(rows, w);
    RotatedRamps(rows / 2, w / 2);
  }

  lemma BandOfPattern(p: Pattern, h: nat, w: nat, top: nat, rows: nat)
    requires top + rows <= h && (p.Constant? || p.ByColumn? || p.ByColumnReversed?)
    ensures PatternPlane(p, h, w)[top..top + rows] == PatternPlane(p, rows, w)
  {
    PlanesAgree(PatternPlane(p, h, w)[top..top + rows], PatternPlane(p, rows, w), rows, w);
  }

  /** A band of a source pattern is the source pattern of the band's size. */
  lemma CroppedSourceImage(rotation: nat, w: nat, h: nat, top: nat, rows: nat)
    requires EvenSize(w, h) && IsBand(h, top, rows)
    ensures CropImage(SourceImage(rotation, w, h), h, top, rows) == SourceImage(rotation, w, rows)
  {
    var half: nat := top / 2;
    assert (top + rows) / 2 == half + rows / 2;
    var (y, u, v) := SourcePatterns(rotation);
    hide PatternPlane;
    BandOfPattern(y, h, w, top, rows);
    BandOfPattern(u, h / 2, w / 2, half, rows / 2);
    BandOfPattern(v, h / 2, w / 2, half, rows / 2);
  }

  lemma PatternConverts(t: Layout, rotation: nat, w: nat, h: nat, top: nat, rows: nat)
    requires EvenSize(w, h) && IsBand(h, top, rows) && IsRotation(rotation)
    ensures |Encode(t, SourceImage(rotation, w, h))| == FrameSize(w, h)
    ensures Converted(t, w, h, top, rows, rotation, Encode(t, SourceImage(rotation, w, h)))
            == ExpectedFrame(rotation, TurnedWidth(rotation, w, rows), TurnedWidth(rotation, rows, w))
  {
    DecodeUndoesEncode(t, SourceImage(rotation, w, h), w, h);
    CroppedSourceImage(rotation, w, h, top, rows);
    RotatedSourceImage(rotation, w, rows);
  }

  /** The expected pattern is the source pattern cropped, turned and converted: for NV12 at every rotation, and for
      YV12 at every rotation but 0. */
  lemma SourceConvertsToExpected(t: Layout, rotation: nat, w: nat, h: nat, top: nat, rows: nat)
    requires EvenSize(w, h) && IsBand(h, top, rows) && IsRotation(rotation)
    requires t == NV12 || (t == YV12 && rotation != 0)
    ensures var s := SourceFrame(if t == NV12 then WseNV12 else WseYV12, rotation, w, h);
            && |s| == FrameSize(w, h)
            && Converted(t, w, h, top, rows, rotation, s)
               == ExpectedFrame(rotation, TurnedWidth(rotation, w, rows), TurnedWidth(rotation, rows, w))
  {
    hide Converted, Encode, ExpectedFrame, FrameSize, SourceImage;
    PatternConverts(t, rotation, w, h, top, rows);
  }
}
