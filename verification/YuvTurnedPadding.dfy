/** Which picture a padded frame shows: the bars of an upright frame, and the ramps of a frame turned by 270 degrees. */
module YuvTurnedPadding {
  import opened Common
  import opened YuvLayout
  import opened YuvPatterns
  import opened YuvFill
  import opened YuvPadding

  function CentreRow(row: seq<byte>, bar: nat, value: byte): seq<byte> {
    Filled(value, bar) + row + Filled(value, bar)
  }

  function CentrePlane(p: Plane, bar: nat, value: byte): (r: Plane)
    ensures |r| == |p| && forall i :: 0 <= i < |p| ==> r[i] == CentreRow(p[i], bar, value)
  {
    seq(|p|, i requires 0 <= i < |p| => CentreRow(p[i], bar, value))
  }

  /** A smaller picture between two bars. */
  function Centred(i: Image, paddingLenW: nat): Image {
    Image(CentrePlane(i.y, paddingLenW / 2, LUMA_BLACK),
          CentrePlane(i.u, paddingLenW / 4, CHROMA_NEUTRAL),
          CentrePlane(i.v, paddingLenW / 4, CHROMA_NEUTRAL))
  }

  lemma AsByteAgree(a: int, b: int)
    ensures AsByte(a) == AsByte(b) <==> (a - b) % 256 == 0
  {
  }

  lemma FilledAgree(a: int, b: int, n: nat)
    ensures Filled(a, n) == Filled(b, n) <==> n == 0 || (a - b) % 256 == 0
  {
    AsByteAgree(a, b);
    if n > 0 { assert Filled(a, n)[0] == AsByte(a) && Filled(b, n)[0] == AsByte(b); }
  }

  lemma CentreRowAgree(a: seq<byte>, b: seq<byte>, bar: nat, value: byte)
    requires |a| == |b|
    ensures CentreRow(a, bar, value) == CentreRow(b, bar, value) <==> a == b
  {
    assert CentreRow(a, bar, value)[bar..bar + |a|] == a;
    assert CentreRow(b, bar, value)[bar..bar + |b|] == b;
  }

  lemma PadRowIsCentred(row: seq<byte>, i: nat, bar: nat, value: byte, m: Middle)
    requires !m.Keep? && |row| == bar + m.n + bar
    ensures PadRow(row, i, bar, value, m) == CentreRow(Filled(Level(m, i), m.n), bar, value)
  {
  }

  /** By how much row `i` of the ramp and the row of the pattern that should be there differ. */
  function Drift(m: Middle, pattern: Pattern, full: nat, n: nat, top: nat, i: nat): int
    requires !m.Keep?
  {
    Level(m, i) - Value(pattern, full, n, top + i, 0)
  }

  /** A padded plane shows a band of rows of a pattern exactly when no row drifts. */
  lemma PlaneShowsBandIff(p: Plane, rows: nat, bar: nat, value: byte, m: Middle, pattern: Pattern,
                          full: nat, n: nat, top: nat)
    requires HasSize(p, rows, bar + n + bar) && !m.Keep? && m.n == n && IsRowConstant(pattern) && top + rows <= full
    ensures PadPlane(p, bar, value, m) == CentrePlane(PatternPlane(pattern, full, n)[top..top + rows], bar, value)
            <==> n == 0 || forall i :: 0 <= i < rows ==> Drift(m, pattern, full, n, top, i) % 256 == 0
  {
    var a, band := PadPlane(p, bar, value, m), PatternPlane(pattern, full, n)[top..top + rows];
    var b := CentrePlane(band, bar, value);
    forall i | 0 <= i < rows
      ensures a[i] == b[i] <==> n == 0 || Drift(m, pattern, full, n, top, i) % 256 == 0
    {
      RowShowsBandIff(p[i], i, bar, value, m, pattern, full, n, top);
      assert band[i] == PatternPlane(pattern, full, n)[top + i];
    }
  }

  lemma RowShowsBandIff(row: seq<byte>, i: nat, bar: nat, value: byte, m: Middle, pattern: Pattern,
                        full: nat, n: nat, top: nat)
    requires |row| == bar + n + bar && !m.Keep? && m.n == n && IsRowConstant(pattern)
    ensures PadRow(row, i, bar, value, m) == CentreRow(PatternRow(pattern, full, n, top + i), bar, value)
            <==> n == 0 || Drift(m, pattern, full, n, top, i) % 256 == 0
  {
    hide PadRow, CentreRow, Filled, PatternRow;
    PadRowIsCentred(row, i, bar, value, m);
    FilledIsRow(pattern, full, n, top + i);
    CentreRowAgree(Filled(Level(m, i), n), PatternRow(pattern, full, n, top + i), bar, value);
    FilledAgree(Level(m, i), Value(pattern, full, n, top + i, 0), n);
  }

  /** A picture turned by 270 degrees, cropped to a band of rows, between two bars. */
  function CentredBand(i: Image, w: nat, h: nat, top: nat, rows: nat, paddingLenW: nat): Image
    requires EvenSize(w, h) && ImageHasSize(i, w, h) && IsBand(w, top, rows)
  {
    ConvertedSize(270, i, w, h);
    Centred(CropImage(RotateImage(270, i, w, h), w, top, rows), paddingLenW)
  }

  lemma CentredBandSize(i: Image, w: nat, h: nat, top: nat, rows: nat, paddingLenW: nat)
    requires EvenSize(w, h) && ImageHasSize(i, w, h) && IsBand(w, top, rows) && paddingLenW % 4 == 0
    ensures ImageHasSize(CentredBand(i, w, h, top, rows, paddingLenW), h + paddingLenW, rows)
  {
    hide RotateImage, CropImage, Centred;
    ConvertedSize(270, i, w, h);
    CroppedSize(RotateImage(270, i, w, h), h, w, top, rows);
    CentredSize(CropImage(RotateImage(270, i, w, h), w, top, rows), h, rows, paddingLenW);
  }

  lemma CentredSize(i: Image, w: nat, h: nat, paddingLenW: nat)
    requires ImageHasSize(i, w, h) && w % 2 == 0 && paddingLenW % 4 == 0
    ensures ImageHasSize(Centred(i, paddingLenW), w + paddingLenW, h)
  {
    hide CentrePlane, HasSize;
    BarsAddUp(w, paddingLenW);
    CentrePlaneSize(i.y, h, w, paddingLenW / 2, LUMA_BLACK);
    CentrePlaneSize(i.u, h / 2, w / 2, paddingLenW / 4, CHROMA_NEUTRAL);
    CentrePlaneSize(i.v, h / 2, w / 2, paddingLenW / 4, CHROMA_NEUTRAL);
  }

  lemma CentrePlaneSize(p: Plane, rows: nat, cols: nat, bar: nat, value: byte)
    requires HasSize(p, rows, cols)
    ensures HasSize(CentrePlane(p, bar, value), rows, bar + cols + bar)
  {
  }

  /** The expected frame, padded for a picture that is `full` wide and `n` high, shows rows `top` and on of the turned
      picture. */
  ghost predicate ShowsBand(source: Image, n: nat, h: nat, paddingLenW: nat, full: nat, top: nat)
    requires EvenSize(n, h) && full % 2 == 0 && IsBand(full, top, h) && ImageHasSize(source, full, n)
  {
    var w := n + paddingLenW;
    Padded(270, ExpectedImage(270, w, h), w, h, paddingLenW, h - full)
    == CentredBand(source, full, n, top, h, paddingLenW)
  }

  /** All rows of a plane drift alike. */
  lemma EvenDrift(m: Middle, pattern: Pattern, full: nat, n: nat, top: nat, rows: nat)
    requires (m.Up? && pattern.ByRow?) || (m.Down? && pattern.ByRowReversed?)
    ensures (forall i :: 0 <= i < rows ==> Drift(m, pattern, full, n, top, i) % 256 == 0)
            <==> rows == 0 || Drift(m, pattern, full, n, top, 0) % 256 == 0
  {
    forall i | 0 <= i < rows ensures Drift(m, pattern, full, n, top, i) == Drift(m, pattern, full, n, top, 0) { }
  }

  /** The padded plane of a pattern is the centred band of another. */
  ghost predicate PlaneShowsBand(p: Pattern, rows: nat, w: nat, bar: nat, value: byte, m: Middle,
                                 pattern: Pattern, full: nat, n: nat, top: nat)
    requires top + rows <= full
  {
    PadPlane(PatternPlane(p, rows, w), bar, value, m)
    == CentrePlane(PatternPlane(pattern, full, n)[top..top + rows], bar, value)
  }

  lemma PlaneShowsTurnedBandIff(p: Pattern, rows: nat, w: nat, bar: nat, value: byte, m: Middle,
                                pattern: Pattern, full: nat, n: nat, top: nat)
    requires w == bar + n + bar && !m.Keep? && m.n == n && top + rows <= full
    requires (m.Up? && pattern.ByRow?) || (m.Down? && pattern.ByRowReversed?)
    ensures PlaneShowsBand(p, rows, w, bar, value, m, pattern, full, n, top)
            <==> n == 0 || rows == 0 || Drift(m, pattern, full, n, top, 0) % 256 == 0
  {
    PlaneShowsBandIff(PatternPlane(p, rows, w), rows, bar, value, m, pattern, full, n, top);
    EvenDrift(m, pattern, full, n, top, rows);
  }

  lemma ShowsBandByPlane(source: Image, n: nat, h: nat, paddingLenW: nat, full: nat, top: nat)
    requires EvenSize(n, h) && paddingLenW % 4 == 0 && full % 2 == 0 && IsBand(full, top, h)
    requires source == SourceImage(270, full, n) && ImageHasSize(source, full, n)
    ensures var w, c := n + paddingLenW, paddingLenW / 4;
            var p := TurnedPadding(w, h, paddingLenW, h - full);
            ShowsBand(source, n, h, paddingLenW, full, top)
            <==> && PlaneShowsBand(ByRowReversed, h, w, p.bar, LUMA_BLACK, p.y, ByRowReversed, full, n, top)
                 && PlaneShowsBand(ByRow, h / 2, w / 2, c, CHROMA_NEUTRAL, p.u, ByRow, full / 2, n / 2, top / 2)
                 && PlaneShowsBand(ByRowReversed, h / 2, w / 2, c, CHROMA_NEUTRAL, p.v,
                                   ByRowReversed, full / 2, n / 2, top / 2)
  {
    hide PadPlane, CentrePlane, PatternPlane, Padded, CentredBand;
    PaddedExpected(n + paddingLenW, h, paddingLenW, full);
    CentredBandIs(source, n, h, paddingLenW, full, top);
  }

  lemma PaddedExpected(w: nat, h: nat, paddingLenW: nat, full: nat)
    requires paddingLenW % 4 == 0 && paddingLenW <= w
    ensures var p, c := TurnedPadding(w, h, paddingLenW, h - full), paddingLenW / 4;
            Padded(270, ExpectedImage(270, w, h), w, h, paddingLenW, h - full)
            == Image(PadPlane(PatternPlane(ByRowReversed, h, w), p.bar, LUMA_BLACK, p.y),
                     PadPlane(PatternPlane(ByRow, h / 2, w / 2), c, CHROMA_NEUTRAL, p.u),
                     PadPlane(PatternPlane(ByRowReversed, h / 2, w / 2), c, CHROMA_NEUTRAL, p.v))
  {
    hide PadPlane, PatternPlane;
  }

  lemma CentredBandIs(source: Image, n: nat, h: nat, paddingLenW: nat, full: nat, top: nat)
    requires EvenSize(n, h) && paddingLenW % 4 == 0 && full % 2 == 0 && IsBand(full, top, h)
    requires source == SourceImage(270, full, n) && ImageHasSize(source, full, n)
    ensures var t, r := top / 2, h / 2;
            && t + r <= full / 2
            && CentredBand(source, full, n, top, h, paddingLenW)
               == Image(CentrePlane(PatternPlane(ByRowReversed, full, n)[top..top + h], paddingLenW / 2, LUMA_BLACK),
                        CentrePlane(PatternPlane(ByRow, full / 2, n / 2)[t..t + r], paddingLenW / 4, CHROMA_NEUTRAL),
                        CentrePlane(PatternPlane(ByRowReversed, full / 2, n / 2)[t..t + r],
                                    paddingLenW / 4, CHROMA_NEUTRAL))
  {
    hide CentrePlane, PatternPlane, SourceImage, RotateImage;
    RotatedSourceImage(270, full, n);
    assert (top + h) / 2 == top / 2 + h / 2;
  }

  /** The three planes of the padded frame show one band of the turned picture exactly when it starts one row below the
      middle of what is cropped away, up to the 256 levels of a byte; and only where half of what is cropped is odd. */
  lemma ShowsBandIff(source: Image, n: nat, h: nat, paddingLenW: nat, full: nat, top: nat)
    requires EvenSize(n, h) && paddingLenW % 4 == 0 && full % 2 == 0 && IsBand(full, top, h)
    requires source == SourceImage(270, full, n) && ImageHasSize(source, full, n)
    ensures ShowsBand(source, n, h, paddingLenW, full, top)
            <==> h == 0 || n == 0 || ((full - h) % 4 == 2 && (top - (full - h) / 2 - 1) % 512 == 0)
  {
    hide ShowsBand, PlaneShowsBand, Drift, TurnedPadding, SourceImage, ImageHasSize;
    var w, bar, c := n + paddingLenW, paddingLenW / 2, paddingLenW / 4;
    var p := TurnedPadding(w, h, paddingLenW, h - full);
    var e: nat, t: nat := (full - h) / 2, top / 2;
    BandHalves(full, top, h, e, t);
    BarsAddUp(n, paddingLenW);
    TurnedPaddingIs(n, h, paddingLenW, h - full, e);
    ShowsBandByPlane(source, n, h, paddingLenW, full, top);
    PlaneShowsTurnedBandIff(ByRowReversed, h, w, bar, LUMA_BLACK, p.y, ByRowReversed, full, n, top);
    PlaneShowsTurnedBandIff(ByRow, h / 2, w / 2, c, CHROMA_NEUTRAL, p.u, ByRow, full / 2, n / 2, t);
    PlaneShowsTurnedBandIff(ByRowReversed, h / 2, w / 2, c, CHROMA_NEUTRAL, p.v, ByRowReversed, full / 2, n / 2, t);
    DriftsAre(h, full, top, n, e, t);
    OffsetsVanishIff(e, t);
  }

  lemma BarsAddUp(n: nat, paddingLenW: nat)
    requires n % 2 == 0 && paddingLenW % 4 == 0
    ensures var w, bar, c := n + paddingLenW, paddingLenW / 2, paddingLenW / 4;
            w == bar + n + bar && bar / 2 == c && w / 2 - bar == n / 2 && w / 2 == c + n / 2 + c
    ensures (n + paddingLenW) % 2 == 0 && (n / 2 == 0 <==> n == 0)
  {
  }

  lemma TurnedPaddingIs(n: nat, h: nat, paddingLenW: nat, paddingLenH: int, e: nat)
    requires n % 2 == 0 && paddingLenW % 4 == 0 && paddingLenH + 2 * e == 0
    ensures TurnedPadding(n + paddingLenW, h, paddingLenW, paddingLenH)
            == Padding(paddingLenW / 2, paddingLenW / 4,
                       Down(h - 2 + e, n), Up(1 + e / 2, n / 2), Down(h / 2 - 1 + e / 2, n / 2))
  {
    BarsAddUp(n, paddingLenW);
    assert Half(paddingLenH) + e == 0;
    assert Half(Half(paddingLenH)) + e / 2 == 0;
  }

  lemma BandHalves(full: nat, top: nat, h: nat, e: nat, t: nat)
    requires h % 2 == 0 && full % 2 == 0 && IsBand(full, top, h) && e == (full - h) / 2 && t == top / 2
    ensures full == h + 2 * e && top == 2 * t && full / 2 == h / 2 + e
    ensures t + h / 2 <= full / 2 && (h / 2 == 0 <==> h == 0)
    ensures (full - h) % 4 == 2 <==> e % 2 == 1
  {
  }

  lemma DriftsAre(h: nat, full: nat, top: nat, n: nat, e: nat, t: nat)
    requires full == h + 2 * e && top == 2 * t && full / 2 == h / 2 + e
    ensures Drift(Down(h - 2 + e, n), ByRowReversed, full, n, top, 0) == 2 * t - 1 - e
    ensures Drift(Up(1 + e / 2, n / 2), ByRow, full / 2, n / 2, t, 0) == 1 + e / 2 - t
    ensures Drift(Down(h / 2 - 1 + e / 2, n / 2), ByRowReversed, full / 2, n / 2, t, 0) == e / 2 - e + t
  {
  }

  lemma OffsetsVanishIff(e: nat, t: nat)
    ensures (2 * t - 1 - e) % 256 == 0 && (1 + e / 2 - t) % 256 == 0 && (e / 2 - e + t) % 256 == 0
            <==> e % 2 == 1 && (2 * t - e - 1) % 512 == 0
  {
    var d := t - e / 2 - 1;
    if e % 2 == 1 {
      assert 2 * t - 1 - e == 2 * d && 1 + e / 2 - t == -d && e / 2 - e + t == d;
      Multiples(d);
    } else {
      assert 1 + e / 2 - t == -d && e / 2 - e + t == d + 1;
      Multiples(d);
    }
  }

  lemma Multiples(d: int)
    ensures (2 * d) % 512 == 0 <==> d % 256 == 0
    ensures (-d) % 256 == 0 <==> d % 256 == 0
    ensures d % 256 == 0 ==> (2 * d) % 256 == 0 && (d + 1) % 256 == 1
  {
    var q, r := d / 256, d % 256;
    ModUnique(2 * d, 512, q, 2 * r);
    if r == 0 {
      ModUnique(-d, 256, -q, 0);
      ModUnique(2 * d, 256, 2 * q, 0);
      ModUnique(d + 1, 256, q, 1);
    } else {
      ModUnique(-d, 256, -q - 1, 256 - r);
    }
  }

  /** Which picture the padding for 270 degrees expects: there is a band of the turned picture for it if and only if
      half of what is cropped away is odd (or nothing shows at all); otherwise the planes belong to different bands. */
  lemma TurnedPaddingShowsABandIff(source: Image, n: nat, h: nat, paddingLenW: nat, full: nat)
    requires EvenSize(n, h) && paddingLenW % 4 == 0 && full % 2 == 0 && source == SourceImage(270, full, n)
    ensures ImageHasSize(source, full, n)
    ensures (exists top: nat :: IsBand(full, top, h) && ShowsBand(source, n, h, paddingLenW, full, top))
            <==> h <= full && (h == 0 || n == 0 || (full - h) % 4 == 2)
  {
    hide ShowsBand, SourceImage;
    SourceImageSize(270, full, n);
    if h <= full {
      var top := if (full - h) % 4 == 2 then (full - h) / 2 + 1 else 0;
      ShowsBandIff(source, n, h, paddingLenW, full, top);
    }
    forall top: nat | IsBand(full, top, h) { ShowsBandIff(source, n, h, paddingLenW, full, top); }
  }

  /** With padding that is a multiple of four, the bars of an upright frame stand beside the smaller upright picture. */
  lemma UprightPaddingCentres(n: nat, h: nat, paddingLenW: nat, paddingLenH: int)
    requires EvenSize(n, h) && paddingLenW % 4 == 0
    ensures var w := n + paddingLenW;
            Padded(0, ExpectedImage(0, w, h), w, h, paddingLenW, paddingLenH)
            == Centred(SourceImage(0, n, h), paddingLenW)
  {
    var w := n + paddingLenW;
    BarsAddUp(n, paddingLenW);
    ConstantPlaneCentres(1, h, w, paddingLenW / 2, LUMA_BLACK);
    ConstantPlaneCentres(2, h / 2, w / 2, paddingLenW / 4, CHROMA_NEUTRAL);
    ConstantPlaneCentres(3, h / 2, w / 2, paddingLenW / 4, CHROMA_NEUTRAL);
  }

  lemma ConstantPlaneCentres(v: int, rows: nat, w: nat, bar: nat, value: byte)
    requires 2 * bar <= w
    ensures PadPlane(PatternPlane(Constant(v), rows, w), bar, value, Keep)
            == CentrePlane(PatternPlane(Constant(v), rows, w - 2 * bar), bar, value)
  {
    var a := PadPlane(PatternPlane(Constant(v), rows, w), bar, value, Keep);
    var b := CentrePlane(PatternPlane(Constant(v), rows, w - 2 * bar), bar, value);
    forall r | 0 <= r < rows ensures a[r] == b[r] {
      assert forall x :: 0 <= x < w ==> a[r][x] == b[r][x];
    }
  }
}
