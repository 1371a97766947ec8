/** The appearance side of re-identification: the crop window of a box
    (`crop_bbox_from_frame`), the shape of the histogram
    `extract_color_histogram` produces, its centre-region margins, and the
    exponential moving average `update_histogram_ema`. The OpenCV numerics
    (colour conversion, `calcHist`, `normalize`, `compareHist`) are inputs. */
module ColorHistogram {
  import opened Numeric
  import opened Geometry

  // ---------------------------------------------------------------------
  // crop_bbox_from_frame

  /** The integer slice bounds `x1_p, y1_p, x2_p, y2_p` before slicing: the
      box, grown by `padding` times its size on each side when `padding` is
      positive, clipped by `max(0, .)` / `min(w, .)` and truncated. */
  datatype Window = Window(x1: int, y1: int, x2: int, y2: int)

  function CropWindow(frameWidth: nat, frameHeight: nat, b: Box, padding: real): (r: Window)
    ensures 0 <= r.x1 && 0 <= r.y1
    ensures r.x2 <= frameWidth && r.y2 <= frameHeight
  {
    var growX, growY := Growth(Width(b), padding), Growth(Height(b), padding);
    Window(LowerBound(b.x1, growX), LowerBound(b.y1, growY),
           UpperBound(frameWidth, b.x2, growX), UpperBound(frameHeight, b.y2, growY))
  }

  /** How far the window grows on each side along an axis of the given
      extent: `extent * padding` when `padding > 0`, and 0 otherwise. */
  function Growth(extent: real, padding: real): (g: real)
    ensures padding <= 0.0 ==> g == 0.0
    ensures padding > 0.0 && extent >= 0.0 ==> g >= 0.0
  {
    if padding > 0.0 then extent * padding else 0.0
  }

  /** `int(max(0, lo - grow))`. */
  function LowerBound(lo: real, grow: real): (k: int)
    ensures 0 <= k
  {
    Trunc(MaxR(0.0, lo - grow))
  }

  /** `int(min(limit, hi + grow))`. */
  function UpperBound(limit: nat, hi: real, grow: real): (k: int)
    ensures k <= limit
  {
    Trunc(MinR(limit as real, hi + grow))
  }

  /** Rows and columns of `frame[y1_p:y2_p, x1_p:x2_p]` under Python's
      slicing rules. */
  datatype Crop = Crop(rowLo: nat, rowHi: nat, colLo: nat, colHi: nat)

  function CropRegion(frameWidth: nat, frameHeight: nat, b: Box, padding: real): (c: Crop)
    ensures c.rowLo <= c.rowHi <= frameHeight && c.colLo <= c.colHi <= frameWidth
  {
    var win := CropWindow(frameWidth, frameHeight, b, padding);
    var rows := SliceBounds(win.y1, win.y2, frameHeight);
    var cols := SliceBounds(win.x1, win.x2, frameWidth);
    Crop(rows.0, rows.1, cols.0, cols.1)
  }

  function CropHeight(c: Crop): nat requires c.rowLo <= c.rowHi { c.rowHi - c.rowLo }
  function CropWidth(c: Crop): nat requires c.colLo <= c.colHi { c.colHi - c.colLo }

  /** Without padding, a box whose far corner is inside the frame (or past
      it) is cropped to exactly its part inside `[0, w] x [0, h]`. */
  lemma {:induction false} CropClampsToFrame(frameWidth: nat, frameHeight: nat, b: Box)
    requires IsIntegral(b.x1) && IsIntegral(b.y1) && IsIntegral(b.x2) && IsIntegral(b.y2)
    requires 0.0 <= b.x2 && 0.0 <= b.y2
    ensures var c := CropRegion(frameWidth, frameHeight, b, 0.0);
      && c.colLo == MinI(MaxI(0, b.x1.Floor), frameWidth)
      && c.colHi == MaxI(c.colLo, MinI(b.x2.Floor, frameWidth))
      && c.rowLo == MinI(MaxI(0, b.y1.Floor), frameHeight)
      && c.rowHi == MaxI(c.rowLo, MinI(b.y2.Floor, frameHeight))
  {
    TruncIntegral(MaxR(0.0, b.x1));
    TruncIntegral(MaxR(0.0, b.y1));
    TruncIntegral(MinR(frameWidth as real, b.x2));
    TruncIntegral(MinR(frameHeight as real, b.y2));
  }

  lemma TruncIntegral(x: real)
    requires IsIntegral(x)
    ensures Trunc(x) == x.Floor
  {
  }

  /** The in-frame box `30..70 x 20..80` of a 100 x 100 frame gives a
      60 x 40 crop, and `(-10, -10, 50, 50)` is clipped to 50 x 50. */
  lemma CropFixtures()
    ensures var c := CropRegion(100, 100, Box(30.0, 20.0, 70.0, 80.0), 0.0);
      CropHeight(c) == 60 && CropWidth(c) == 40
    ensures var c := CropRegion(100, 100, Box(-10.0, -10.0, 50.0, 50.0), 0.0);
      CropHeight(c) == 50 && CropWidth(c) == 50
  {
    assert CropWindow(100, 100, Box(30.0, 20.0, 70.0, 80.0), 0.0) == Window(30, 20, 70, 80);
    assert CropRegion(100, 100, Box(30.0, 20.0, 70.0, 80.0), 0.0) == Crop(20, 80, 30, 70);
    assert CropWindow(100, 100, Box(-10.0, -10.0, 50.0, 50.0), 0.0) == Window(0, 0, 50, 50);
    assert CropRegion(100, 100, Box(-10.0, -10.0, 50.0, 50.0), 0.0) == Crop(0, 50, 0, 50);
  }

  /** The `min(w, x2)` clip does not guard the lower side: a box lying
      wholly left of the frame has a negative slice stop, which Python
      counts from the right edge, so `(-40, 0, -10, 50)` in a 100-wide frame
      crops columns `0..90`. */
  lemma CropOfBoxLeftOfFrame()
    ensures var c := CropRegion(100, 100, Box(-40.0, 0.0, -10.0, 50.0), 0.0);
      c.colLo == 0 && c.colHi == 90 && CropHeight(c) == 50
  {
  }

  /** Positive padding only widens the window: it contains the window of
      the same box without padding. */
  lemma PaddingWidensWindow(frameWidth: nat, frameHeight: nat, b: Box, padding: real)
    requires padding > 0.0 && WellFormed(b)
    ensures var p, q := CropWindow(frameWidth, frameHeight, b, padding), CropWindow(frameWidth, frameHeight, b, 0.0);
      p.x1 <= q.x1 && p.y1 <= q.y1 && q.x2 <= p.x2 && q.y2 <= p.y2
  {
    var gx, gy := Growth(Width(b), padding), Growth(Height(b), padding);
    GrowLowerBound(b.x1, gx);
    GrowLowerBound(b.y1, gy);
    GrowUpperBound(frameWidth, b.x2, gx);
    GrowUpperBound(frameHeight, b.y2, gy);
  }

  lemma GrowLowerBound(lo: real, grow: real)
    requires grow >= 0.0
    ensures LowerBound(lo, grow) <= LowerBound(lo, 0.0)
  {
    TruncMonotone(MaxR(0.0, lo - grow), MaxR(0.0, lo));
  }

  lemma GrowUpperBound(limit: nat, hi: real, grow: real)
    requires grow >= 0.0
    ensures UpperBound(limit, hi, 0.0) <= UpperBound(limit, hi, grow)
  {
    TruncMonotone(MinR(limit as real, hi), MinR(limit as real, hi + grow));
  }

  // ---------------------------------------------------------------------
  // extract_color_histogram

  function Clip01(x: real): (r: real)
    ensures 0.0 <= r <= 1.0
    ensures 0.0 <= x <= 1.0 ==> r == x
  {
    if x < 0.0 then 0.0 else if x > 1.0 then 1.0 else x
  }

  function ClipAll(s: seq<real>): (r: seq<real>)
    ensures |r| == |s|
    ensures forall i :: 0 <= i < |s| ==> r[i] == Clip01(s[i])
  {
    seq(|s|, i requires 0 <= i < |s| => Clip01(s[i]))
  }

  /** The histogram of a crop of `rows x cols` pixels, given the
      min-max-normalised hue and saturation histograms OpenCV computes for
      it: zeros of length `bins_h + bins_s` for an empty crop, otherwise the
      clipped hue bins followed by the clipped saturation bins. */
  function ExtractColorHistogram(rows: nat, cols: nat, hue: seq<real>, sat: seq<real>,
                                 binsH: nat, binsS: nat): (r: seq<real>)
    ensures rows * cols == 0 ==> |r| == binsH + binsS && forall i :: 0 <= i < |r| ==> r[i] == 0.0
    ensures rows * cols != 0 ==> (
              && |r| == |hue| + |sat|
              && (forall i :: 0 <= i < |hue| ==> r[i] == Clip01(hue[i]))
              && (forall i :: 0 <= i < |sat| ==> r[|hue| + i] == Clip01(sat[i])))
    ensures forall i :: 0 <= i < |r| ==> 0.0 <= r[i] <= 1.0
  {
    if rows * cols == 0 then seq(binsH + binsS, _ => 0.0)
    else ClipAll(hue) + ClipAll(sat)
  }

  /** When OpenCV produces one value per bin, the histogram always has
      `bins_h + bins_s` entries, whatever the crop. */
  lemma HistogramLength(rows: nat, cols: nat, hue: seq<real>, sat: seq<real>, binsH: nat, binsS: nat)
    requires |hue| == binsH && |sat| == binsS
    ensures |ExtractColorHistogram(rows, cols, hue, sat, binsH, binsS)| == binsH + binsS
  {
  }

  /** The centre region `hsv[y1:y2, x1:x2]` of a `ch x cw` crop. */
  datatype Region = Region(y1: int, y2: int, x1: int, x2: int)

  function CentreRegion(ch: nat, cw: nat): (r: Region)
    ensures r.x1 == cw / 5 && r.y1 == ch / 10
  {
    var marginX := Trunc(cw as real * 0.2);
    var marginY := Trunc(ch as real * 0.1);
    assert marginX == cw / 5 by { MarginIsQuotient(cw, 5, 0.2); }
    assert marginY == ch / 10 by { MarginIsQuotient(ch, 10, 0.1); }
    Region(marginY, MaxI(marginY + 1, ch - marginY), marginX, MaxI(marginX + 1, cw - marginX))
  }

  /** `int(n * (1/d))` is the integer quotient `n // d`. */
  lemma MarginIsQuotient(n: nat, d: nat, f: real)
    requires d > 0 && f * d as real == 1.0
    ensures Trunc(n as real * f) == n / d
  {
    var q := n / d;
    assert n as real * f == n as real / d as real;
    assert q as real * d as real <= n as real < (q + 1) as real * d as real;
  }

  /** For a non-empty crop the centre region is a non-empty window inside
      it (so the histogram is never taken over zero pixels). */
  lemma {:induction false} CentreRegionInsideCrop(ch: nat, cw: nat)
    requires ch >= 1 && cw >= 1
    ensures var r := CentreRegion(ch, cw);
      0 <= r.x1 < r.x2 <= cw && 0 <= r.y1 < r.y2 <= ch
  {
    var r := CentreRegion(ch, cw);
    assert r.x1 == cw / 5 && r.y1 == ch / 10;
  }

  // ---------------------------------------------------------------------
  // update_histogram_ema

  /** `(1 - alpha) * reference + alpha * new`, element by element. */
  function Ema(reference: seq<real>, latest: seq<real>, alpha: real): (r: seq<real>)
    requires |reference| == |latest|
    ensures |r| == |reference|
  {
    seq(|reference|, i requires 0 <= i < |reference| => (1.0 - alpha) * reference[i] + alpha * latest[i])
  }

  lemma EmaWithZeroAlpha(reference: seq<real>, latest: seq<real>)
    requires |reference| == |latest|
    ensures Ema(reference, latest, 0.0) == reference
  {
  }

  lemma EmaWithUnitAlpha(reference: seq<real>, latest: seq<real>)
    requires |reference| == |latest|
    ensures Ema(reference, latest, 1.0) == latest
  {
  }

  predicate InUnitRange(s: seq<real>)
  {
    forall i :: 0 <= i < |s| ==> 0.0 <= s[i] <= 1.0
  }

  /** A convex combination of two histograms in `[0, 1]` stays in `[0, 1]`. */
  lemma EmaStaysInUnitRange(reference: seq<real>, latest: seq<real>, alpha: real)
    requires |reference| == |latest| && 0.0 <= alpha <= 1.0
    requires InUnitRange(reference) && InUnitRange(latest)
    ensures InUnitRange(Ema(reference, latest, alpha))
  {
    var r := Ema(reference, latest, alpha);
    forall i | 0 <= i < |r|
      ensures 0.0 <= r[i] <= 1.0
    {
      ConvexInUnit(reference[i], latest[i], alpha);
    }
  }

  lemma ConvexInUnit(a: real, b: real, alpha: real)
    requires 0.0 <= a <= 1.0 && 0.0 <= b <= 1.0 && 0.0 <= alpha <= 1.0
    ensures 0.0 <= (1.0 - alpha) * a + alpha * b <= 1.0
  {
    MulAtMost(1.0 - alpha, a);
    MulAtMost(alpha, b);
    SumAtMostOne((1.0 - alpha) * a, alpha * b, 1.0 - alpha, alpha);
  }

  lemma SumAtMostOne(p: real, q: real, k: real, l: real)
    requires p <= k && q <= l && k + l == 1.0
    ensures p + q <= 1.0
  {
  }

  lemma MulAtMost(k: real, x: real)
    requires 0.0 <= k && 0.0 <= x <= 1.0
    ensures 0.0 <= k * x <= k
  {
    assert k * (1.0 - x) >= 0.0;
    assert k * x == k - k * (1.0 - x);
  }

  /** The unit test's update: `[1, 0]` towards `[0, 1]` with alpha 0.2. */
  lemma EmaFixture()
    ensures Ema([1.0, 0.0], [0.0, 1.0], 0.2) == [0.8, 0.2]
  {
  }
}
