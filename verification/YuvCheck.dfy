/** The frame checker of the video-processing test. */
module YuvCheck {
  import opened Common
  import opened YuvLayout

  /** In how many of the `n` places from `at` on two byte strings differ. */
  function Differences(a: seq<byte>, b: seq<byte>, at: nat, n: nat): (count: nat)
    requires |a| == |b| && at + n <= |a|
    decreases n
  {
    if n == 0 then 0
    else Differences(a, b, at, n - 1) + (if a[at + n - 1] != b[at + n - 1] then 1 else 0)
  }

  lemma {:induction false} DifferencesAdd(a: seq<byte>, b: seq<byte>, at: nat, n: nat, m: nat)
    requires |a| == |b| && at + n + m <= |a|
    ensures Differences(a, b, at, n + m) == Differences(a, b, at, n) + Differences(a, b, at + n, m)
    decreases m
  {
    if m > 0 { DifferencesAdd(a, b, at, n, m - 1); }
  }

  lemma {:induction false} NoDifferencesIffEqual(a: seq<byte>, b: seq<byte>, n: nat)
    requires n <= |a| == |b|
    ensures Differences(a, b, 0, n) == 0 <==> a[..n] == b[..n]
    decreases n
  {
    if n > 0 {
      NoDifferencesIffEqual(a, b, n - 1);
      assert a[..n] == a[..n - 1] + [a[n - 1]] && b[..n] == b[..n - 1] + [b[n - 1]];
    }
  }

  /** The inner loop over one row. */
  method CompareRow(src: array<byte>, dst: array<byte>, at: nat, cols: nat) returns (failures: nat)
    requires src.Length == dst.Length && at + cols <= src.Length
    ensures failures == Differences(src[..], dst[..], at, cols)
  {
    failures := 0;
    for j := 0 to cols
      invariant failures == Differences(src[..], dst[..], at, j)
    {
      if dst[at + j] != src[at + j] { failures := failures + 1; }
    }
  }

  /** The inner loop over one row of U and the same row of V. */
  method CompareRowPair(src: array<byte>, dst: array<byte>, u: nat, v: nat, cols: nat) returns (failures: nat)
    requires src.Length == dst.Length && u + cols <= src.Length && v + cols <= src.Length
    ensures failures == Differences(src[..], dst[..], u, cols) + Differences(src[..], dst[..], v, cols)
  {
    failures := 0;
    for j := 0 to cols
      invariant failures == Differences(src[..], dst[..], u, j) + Differences(src[..], dst[..], v, j)
    {
      if dst[u + j] != src[u + j] { failures := failures + 1; }
      if dst[v + j] != src[v + j] { failures := failures + 1; }
    }
  }

  lemma RowStep(i: nat, cols: nat, rows: nat)
    requires i < rows
    ensures (i + 1) * cols == i * cols + cols && i * cols + cols <= rows * cols
  {
    MulStep(i + 1, cols);
    MulMonotone(i + 1, rows, cols);
  }

  /** The loop over the luma plane. */
  method CompareLuma(src: array<byte>, dst: array<byte>, rows: nat, cols: nat) returns (failures: nat)
    requires src.Length == dst.Length && rows * cols <= src.Length
    ensures failures == Differences(src[..], dst[..], 0, rows * cols)
  {
    ghost var a, b := src[..], dst[..];
    failures := 0;
    for i := 0 to rows
      invariant i * cols <= rows * cols
      invariant failures == Differences(a, b, 0, i * cols)
    {
      RowStep(i, cols, rows);
      var at := i * cols;
      DifferencesAdd(a, b, 0, at, cols);
      var failed := CompareRow(src, dst, at, cols);
      failures := failures + failed;
    }
  }

  /** The loop over the two chroma planes. */
  method CompareChroma(src: array<byte>, dst: array<byte>, u: nat, v: nat, rows: nat, cols: nat) returns (failures: nat)
    requires src.Length == dst.Length && u + rows * cols <= src.Length && v + rows * cols <= src.Length
    ensures failures == Differences(src[..], dst[..], u, rows * cols) + Differences(src[..], dst[..], v, rows * cols)
  {
    ghost var a, b := src[..], dst[..];
    failures := 0;
    for i := 0 to rows
      invariant i * cols <= rows * cols
      invariant failures == Differences(a, b, u, i * cols) + Differences(a, b, v, i * cols)
    {
      RowStep(i, cols, rows);
      var at := i * cols;
      DifferencesAdd(a, b, u, at, cols);
      DifferencesAdd(a, b, v, at, cols);
      var failed := CompareRowPair(src, dst, u + at, v + at, cols);
      failures := failures + failed;
    }
  }

  /** `CheckPixelRight`: the number of failed comparisons. Luma is walked first, then U and V together; the V plane
      starts a quarter of the luma size behind the U plane. */
  method CheckPixelRight(src: array<byte>, dst: array<byte>, width: nat, height: nat) returns (failures: nat)
    requires height * width + (height * width) / 4 + (height / 2) * (width / 2) <= src.Length == dst.Length
    ensures var y, c := height * width, (height / 2) * (width / 2);
            failures == Differences(src[..], dst[..], 0, y)
                        + (Differences(src[..], dst[..], y, c) + Differences(src[..], dst[..], y + y / 4, c))
  {
    var ySize := height * width;
    var luma := CompareLuma(src, dst, height, width);
    var chroma := CompareChroma(src, dst, ySize, ySize + ySize / 4, height / 2, width / 2);
    failures := luma + chroma;
  }

  /** For even sizes the three parts are the whole frame, each byte once: the count is the number of differing bytes,
      and the check passes exactly when the two frames are equal. */
  lemma CheckSeesWholeFrame(a: seq<byte>, b: seq<byte>, width: nat, height: nat)
    requires EvenSize(width, height) && |a| == |b| && FrameSize(width, height) <= |a|
    ensures var y, c, n := height * width, (height / 2) * (width / 2), FrameSize(width, height);
            && y + y / 4 + c == n
            && var count := Differences(a, b, 0, y) + (Differences(a, b, y, c) + Differences(a, b, y + y / 4, c));
               count == Differences(a, b, 0, n) && (count == 0 <==> a[..n] == b[..n])
  {
    FrameSizeIs(width, height);
    ThreePartsAreAll(a, b, height * width, ChromaSize(width, height), FrameSize(width, height));
  }

  lemma ThreePartsAreAll(a: seq<byte>, b: seq<byte>, y: nat, c: nat, n: nat)
    requires y / 4 == c && n == y + c + c <= |a| == |b|
    ensures var count := Differences(a, b, 0, y) + (Differences(a, b, y, c) + Differences(a, b, y + y / 4, c));
            count == Differences(a, b, 0, n) && (count == 0 <==> a[..n] == b[..n])
  {
    hide *;
    DifferencesAdd(a, b, y, c, c);
    DifferencesAdd(a, b, 0, y, c + c);
    NoDifferencesIffEqual(a, b, n);
  }

  /** The count is the number of places that differ. */
  lemma {:induction false} DifferencesAreCounted(a: seq<byte>, b: seq<byte>, at: nat, n: nat)
    requires |a| == |b| && at + n <= |a|
    ensures Differences(a, b, at, n) == |set k | at <= k < at + n && a[k] != b[k]|
    decreases n
  {
    if n > 0 {
      DifferencesAreCounted(a, b, at, n - 1);
      var last := at + n - 1;
      var fewer := set k | at <= k < last && a[k] != b[k];
      assert (set k | at <= k < at + n && a[k] != b[k]) == if a[last] != b[last] then fewer + {last} else fewer;
    }
  }
}
