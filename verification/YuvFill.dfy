/** The pattern builders: nested loops and memset over a frame buffer, filled in place. */
module YuvFill {
  import opened Common
  import opened YuvLayout
  import opened YuvPatterns

  /** The buffer with `part` written from `at` on. */
  function Overwrite(s: seq<byte>, at: nat, part: seq<byte>): (r: seq<byte>)
    requires at + |part| <= |s|
    ensures |r| == |s|
    decreases part
  {
    if part == [] then s else Overwrite(s[at := part[0]], at + 1, part[1..])
  }

  lemma {:induction false} OverwriteAt(s: seq<byte>, at: nat, part: seq<byte>, k: nat)
    requires at + |part| <= |s| && k < |s|
    ensures Overwrite(s, at, part)[k] == if at <= k < at + |part| then part[k - at] else s[k]
    decreases part
  {
    if part != [] { OverwriteAt(s[at := part[0]], at + 1, part[1..], k); }
  }

  lemma OverwriteIs(s: seq<byte>, at: nat, part: seq<byte>, t: seq<byte>)
    requires at + |part| <= |s| == |t|
    requires forall k :: 0 <= k < |s| ==> t[k] == if at <= k < at + |part| then part[k - at] else s[k]
    ensures Overwrite(s, at, part) == t
  {
    forall k | 0 <= k < |s| ensures Overwrite(s, at, part)[k] == t[k] { OverwriteAt(s, at, part, k); }
  }

  lemma {:induction false} OverwriteOn(s: seq<byte>, at: nat, a: seq<byte>, b: seq<byte>)
    requires at + |a| + |b| <= |s|
    ensures Overwrite(Overwrite(s, at, a), at + |a|, b) == Overwrite(s, at, a + b)
    decreases a
  {
    if a == [] {
      assert a + b == b;
    } else {
      OverwriteOn(s[at := a[0]], at + 1, a[1..], b);
      assert (a + b)[1..] == a[1..] + b;
    }
  }

  /** Writing further in a first region, below a second one that is already written. */
  lemma OverwriteBelow(s: seq<byte>, at: nat, a: seq<byte>, b: seq<byte>, at2: nat, c: seq<byte>)
    requires at + |a| + |b| <= at2 && at2 + |c| <= |s|
    ensures Overwrite(Overwrite(Overwrite(s, at, a), at2, c), at + |a|, b) == Overwrite(Overwrite(s, at, a + b), at2, c)
  {
    var x := Overwrite(s, at, a);
    OverwriteOn(s, at, a, b);
    var one, two := Overwrite(Overwrite(x, at2, c), at + |a|, b), Overwrite(Overwrite(x, at + |a|, b), at2, c);
    forall k | 0 <= k < |s| ensures one[k] == two[k] {
      OverwriteAt(x, at2, c, k);
      OverwriteAt(Overwrite(x, at2, c), at + |a|, b, k);
      OverwriteAt(x, at + |a|, b, k);
      OverwriteAt(Overwrite(x, at + |a|, b), at2, c, k);
    }
  }

  /** One more row in each of two regions. */
  lemma OverwriteRowPair(s: seq<byte>, at: nat, a: seq<byte>, rowA: seq<byte>, at2: nat, c: seq<byte>, rowC: seq<byte>)
    requires at + |a| + |rowA| <= at2 && at2 + |c| + |rowC| <= |s|
    ensures var t := Overwrite(Overwrite(Overwrite(s, at, a), at2, c), at + |a|, rowA);
            Overwrite(t, at2 + |c|, rowC) == Overwrite(Overwrite(s, at, a + rowA), at2, c + rowC)
  {
    OverwriteBelow(s, at, a, rowA, at2, c);
    OverwriteOn(Overwrite(s, at, a + rowA), at2, c, rowC);
  }

  lemma {:induction false} FlatToFits(p: Plane, i: nat, n: nat)
    requires i <= n <= |p|
    ensures |FlatTo(p, i)| <= |FlatTo(p, n)|
  {
    if i < n { FlatToFits(p, i, n - 1); }
  }

  /** The buffer with the first `i` rows of a plane written from `at` on. */
  ghost function Written(s: seq<byte>, at: nat, p: Plane, i: nat): (r: seq<byte>)
    requires i <= |p| && at + |Flat(p)| <= |s|
    ensures |r| == |s|
  {
    FlatToFits(p, i, |p|);
    Overwrite(s, at, FlatTo(p, i))
  }

  /** The same with two planes, the second behind the first. */
  ghost function WrittenPair(s: seq<byte>, at: nat, p: Plane, at2: nat, q: Plane, i: nat): (r: seq<byte>)
    requires i <= |p| && i <= |q| && at + |Flat(p)| <= |s| && at2 + |Flat(q)| <= |s|
    ensures |r| == |s|
  {
    Written(Written(s, at, p, i), at2, q, i)
  }

  lemma WrittenEnds(s: seq<byte>, at: nat, p: Plane)
    requires at + |Flat(p)| <= |s|
    ensures |FlatTo(p, 0)| == 0 && Written(s, at, p, 0) == s && Written(s, at, p, |p|) == Overwrite(s, at, Flat(p))
  {
  }

  lemma WrittenPairEnds(s: seq<byte>, at: nat, p: Plane, at2: nat, q: Plane)
    requires |p| == |q| && at + |Flat(p)| <= |s| && at2 + |Flat(q)| <= |s|
    ensures |FlatTo(p, 0)| == |FlatTo(q, 0)| == 0 && WrittenPair(s, at, p, at2, q, 0) == s
    ensures WrittenPair(s, at, p, at2, q, |p|) == Overwrite(Overwrite(s, at, Flat(p)), at2, Flat(q))
  {
  }

  /** One more row of a plane. */
  lemma WrittenRow(s: seq<byte>, at: nat, p: Plane, i: nat)
    requires i < |p| && at + |Flat(p)| <= |s|
    ensures |FlatTo(p, i + 1)| == |FlatTo(p, i)| + |p[i]| && at + |FlatTo(p, i + 1)| <= |s|
    ensures Overwrite(Written(s, at, p, i), at + |FlatTo(p, i)|, p[i]) == Written(s, at, p, i + 1)
  {
    FlatToFits(p, i + 1, |p|);
    OverwriteOn(s, at, FlatTo(p, i), p[i]);
  }

  /** One more row in each of two planes. */
  lemma WrittenRows(s: seq<byte>, at: nat, p: Plane, at2: nat, q: Plane, i: nat)
    requires i < |p| && i < |q| && at + |Flat(p)| <= at2 && at2 + |Flat(q)| <= |s|
    ensures |FlatTo(p, i + 1)| == |FlatTo(p, i)| + |p[i]| && at + |FlatTo(p, i + 1)| <= at2
    ensures |FlatTo(q, i + 1)| == |FlatTo(q, i)| + |q[i]| && at2 + |FlatTo(q, i + 1)| <= |s|
    ensures Overwrite(Overwrite(WrittenPair(s, at, p, at2, q, i), at + |FlatTo(p, i)|, p[i]),
                      at2 + |FlatTo(q, i)|, q[i])
            == WrittenPair(s, at, p, at2, q, i + 1)
  {
    FlatToFits(p, i + 1, |p|);
    FlatToFits(q, i + 1, |q|);
    OverwriteRowPair(s, at, FlatTo(p, i), p[i], at2, FlatTo(q, i), q[i]);
  }

  function Filled(value: int, n: nat): (r: seq<byte>)
    ensures |r| == n && forall i :: 0 <= i < n ==> r[i] == AsByte(value)
  {
    seq(n, _ => AsByte(value))
  }

  /** The C function: `n` bytes set to the value's low eight bits. */
  method Memset(data: array<byte>, at: nat, value: int, n: nat)
    requires at + n <= data.Length
    modifies data
    ensures data[..] == Overwrite(old(data[..]), at, Filled(value, n))
  {
    hide *;
    ghost var before := data[..];
    for j := 0 to n
      invariant forall k :: 0 <= k < data.Length ==> data[k] == if at <= k < at + j then AsByte(value) else before[k]
    {
      data[at + j] := AsByte(value);
    }
    OverwriteIs(before, at, Filled(value, n), data[..]);
  }

  predicate IsRowConstant(p: Pattern) {
    p.Constant? || p.ByRow? || p.ByRowReversed?
  }

  lemma FilledIsRow(p: Pattern, rows: nat, cols: nat, i: nat)
    requires IsRowConstant(p)
    ensures Filled(Value(p, rows, cols, i, 0), cols) == PatternRow(p, rows, cols, i)
  {
  }

  /** Each row by one memset. */
  method FillRows(data: array<byte>, at: nat, rows: nat, cols: nat, p: Pattern)
    requires IsRowConstant(p) && at + |Flat(PatternPlane(p, rows, cols))| <= data.Length
    modifies data
    ensures data[..] == Overwrite(old(data[..]), at, Flat(PatternPlane(p, rows, cols)))
  {
    hide *;
    ghost var before, plane := data[..], PatternPlane(p, rows, cols);
    WrittenEnds(before, at, plane);
    var pixel := at;
    for i := 0 to rows
      invariant pixel == at + |FlatTo(plane, i)| && data[..] == Written(before, at, plane, i)
    {
      WrittenRow(before, at, plane, i);
      FilledIsRow(p, rows, cols, i);
      Memset(data, pixel, Value(p, rows, cols, i, 0), cols);
      pixel := pixel + cols;
    }
  }

  /** One row, sample by sample. */
  method FillRow(data: array<byte>, at: nat, rows: nat, cols: nat, p: Pattern, i: nat)
    requires i < rows && at + cols <= data.Length
    modifies data
    ensures data[..] == Overwrite(old(data[..]), at, PatternRow(p, rows, cols, i))
  {
    hide *;
    ghost var before, row := data[..], PatternRow(p, rows, cols, i);
    for j := 0 to cols
      invariant forall k :: 0 <= k < data.Length ==> data[k] == if at <= k < at + j then row[k - at] else before[k]
    {
      data[at + j] := AsByte(Value(p, rows, cols, i, j));
    }
    OverwriteIs(before, at, row, data[..]);
  }

  /** A plane, sample by sample. */
  method FillPlane(data: array<byte>, at: nat, rows: nat, cols: nat, p: Pattern)
    requires at + |Flat(PatternPlane(p, rows, cols))| <= data.Length
    modifies data
    ensures data[..] == Overwrite(old(data[..]), at, Flat(PatternPlane(p, rows, cols)))
  {
    hide *;
    ghost var before, plane := data[..], PatternPlane(p, rows, cols);
    WrittenEnds(before, at, plane);
    var pixel := at;
    for i := 0 to rows
      invariant pixel == at + |FlatTo(plane, i)| && data[..] == Written(before, at, plane, i)
    {
      WrittenRow(before, at, plane, i);
      FillRow(data, pixel, rows, cols, p, i);
      pixel := pixel + cols;
    }
  }

  method FillRowPair(data: array<byte>, at: nat, atC: nat, rows: nat, cols: nat, p: Pattern, pC: Pattern, i: nat)
    requires i < rows && at + cols <= atC && atC + cols <= data.Length
    modifies data
    ensures data[..] == Overwrite(Overwrite(old(data[..]), at, PatternRow(p, rows, cols, i)),
                                  atC, PatternRow(pC, rows, cols, i))
  {
    hide *;
    FillRow(data, at, rows, cols, p, i);
    FillRow(data, atC, rows, cols, pC, i);
  }

  /** Two planes side by side in one loop: `pixel` walks the first, `pixelC` the second. */
  method FillPlanePair(data: array<byte>, at: nat, atC: nat, rows: nat, cols: nat, p: Pattern, pC: Pattern)
    requires at + |Flat(PatternPlane(p, rows, cols))| == atC
    requires atC + |Flat(PatternPlane(pC, rows, cols))| <= data.Length
    modifies data
    ensures data[..] == Overwrite(Overwrite(old(data[..]), at, Flat(PatternPlane(p, rows, cols))),
                                  atC, Flat(PatternPlane(pC, rows, cols)))
  {
    hide *;
    ghost var before, a, c := data[..], PatternPlane(p, rows, cols), PatternPlane(pC, rows, cols);
    WrittenPairEnds(before, at, a, atC, c);
    var pixel, pixelC := at, atC;
    for i := 0 to rows
      invariant pixel == at + |FlatTo(a, i)| && pixelC == atC + |FlatTo(c, i)|
      invariant data[..] == WrittenPair(before, at, a, atC, c, i)
    {
      WrittenRows(before, at, a, atC, c, i);
      FillRowPair(data, pixel, pixelC, rows, cols, p, pC, i);
      pixel := pixel + cols;
      pixelC := pixelC + cols;
    }
  }

  /** The same with rows that take one memset each. */
  method FillRowsPair(data: array<byte>, at: nat, atC: nat, rows: nat, cols: nat, p: Pattern, pC: Pattern)
    requires IsRowConstant(p) && IsRowConstant(pC)
    requires at + |Flat(PatternPlane(p, rows, cols))| == atC
    requires atC + |Flat(PatternPlane(pC, rows, cols))| <= data.Length
    modifies data
    ensures data[..] == Overwrite(Overwrite(old(data[..]), at, Flat(PatternPlane(p, rows, cols))),
                                  atC, Flat(PatternPlane(pC, rows, cols)))
  {
    hide *;
    ghost var before, a, c := data[..], PatternPlane(p, rows, cols), PatternPlane(pC, rows, cols);
    WrittenPairEnds(before, at, a, atC, c);
    var pixel, pixelC := at, atC;
    for i := 0 to rows
      invariant pixel == at + |FlatTo(a, i)| && pixelC == atC + |FlatTo(c, i)|
      invariant data[..] == WrittenPair(before, at, a, atC, c, i)
    {
      WrittenRows(before, at, a, atC, c, i);
      MemsetPair(data, pixel, pixelC, rows, cols, p, pC, i);
      pixel := pixel + cols;
      pixelC := pixelC + cols;
    }
  }

  method MemsetPair(data: array<byte>, at: nat, atC: nat, rows: nat, cols: nat, p: Pattern, pC: Pattern, i: nat)
    requires IsRowConstant(p) && IsRowConstant(pC)
    requires i < rows && at + cols <= atC && atC + cols <= data.Length
    modifies data
    ensures data[..] == Overwrite(Overwrite(old(data[..]), at, PatternRow(p, rows, cols, i)),
                                  atC, PatternRow(pC, rows, cols, i))
  {
    hide *;
    FilledIsRow(p, rows, cols, i);
    FilledIsRow(pC, rows, cols, i);
    Memset(data, at, Value(p, rows, cols, i, 0), cols);
    Memset(data, atC, Value(pC, rows, cols, i, 0), cols);
  }

  /** One row of interleaved chroma, two bytes at a time. */
  method FillInterleavedRow(data: array<byte>, at: nat, rows: nat, width: nat, widthC: nat,
                            pV: Pattern, pU: Pattern, i: nat, ghost row: seq<byte>)
    requires width == 2 * widthC && i < rows && at + width <= data.Length
    requires row == ZipRow(PatternRow(pV, rows, widthC, i), PatternRow(pU, rows, widthC, i))
    modifies data
    ensures data[..] == Overwrite(old(data[..]), at, row)
  {
    hide *;
    ghost var before := data[..];
    ghost var m: nat := 0;
    var j := 0;
    while j < width
      invariant j == 2 * m <= width
      invariant forall k :: 0 <= k < data.Length ==> data[k] == if at <= k < at + j then row[k - at] else before[k]
    {
      InterleavedSamples(pV, pU, rows, widthC, i, row, m, j);
      data[at + j] := AsByte(Value(pV, rows, widthC, i, j / 2));
      data[at + j + 1] := AsByte(Value(pU, rows, widthC, i, j / 2));
      j, m := j + 2, m + 1;
    }
    OverwriteIs(before, at, row, data[..]);
  }

  lemma InterleavedSamples(pV: Pattern, pU: Pattern, rows: nat, widthC: nat, i: nat, row: seq<byte>, m: nat, j: nat)
    requires row == ZipRow(PatternRow(pV, rows, widthC, i), PatternRow(pU, rows, widthC, i)) && m < widthC && j == 2 * m
    ensures row[j] == AsByte(Value(pV, rows, widthC, i, j / 2))
    ensures row[j + 1] == AsByte(Value(pU, rows, widthC, i, j / 2))
  {
    ZipRowAt(PatternRow(pV, rows, widthC, i), PatternRow(pU, rows, widthC, i), m);
  }

  /** The interleaved rows of two patterns. */
  ghost predicate IsInterleaved(z: Plane, rows: nat, widthC: nat, pV: Pattern, pU: Pattern) {
    |z| == rows
    && forall i :: 0 <= i < rows ==> z[i] == ZipRow(PatternRow(pV, rows, widthC, i), PatternRow(pU, rows, widthC, i))
  }

  lemma InterleavedRowIs(z: Plane, rows: nat, widthC: nat, pV: Pattern, pU: Pattern, i: nat)
    requires IsInterleaved(z, rows, widthC, pV, pU) && i < rows
    ensures z[i] == ZipRow(PatternRow(pV, rows, widthC, i), PatternRow(pU, rows, widthC, i))
  {
  }

  method FillInterleaved(data: array<byte>, at: nat, rows: nat, width: nat, widthC: nat, pV: Pattern, pU: Pattern,
                         ghost z: Plane)
    requires width == 2 * widthC && |z| == rows && IsInterleaved(z, rows, widthC, pV, pU)
    requires at + |Flat(z)| <= data.Length
    modifies data
    ensures data[..] == Overwrite(old(data[..]), at, Flat(z))
  {
    hide *;
    ghost var before := data[..];
    WrittenEnds(before, at, z);
    var pixel := at;
    for i := 0 to rows
      invariant pixel == at + |FlatTo(z, i)| && data[..] == Written(before, at, z, i)
    {
      WrittenRow(before, at, z, i);
      InterleavedRowIs(z, rows, widthC, pV, pU, i);
      FillInterleavedRow(data, pixel, rows, width, widthC, pV, pU, i, z[i]);
      pixel := pixel + width;
    }
  }
}
