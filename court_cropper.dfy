/** The crop box of `crop_video_to_court`: the bounding box of the court
    corners and net points, grown by the padding, clipped to the frame and
    cut down to even dimensions; every frame is then sliced to it. The video
    reader and writer stay outside. */
module CourtCropper {
  import opened Wrappers
  import opened Numeric
  import opened CourtCoordinates

  /** The parts of the coordinate file the cropper reads; a missing key is
      `None`, and a present one holds its values in file order. */
  datatype CoordinatesFile = CoordinatesFile(courtCorners: Option<seq<Point>>, net: Option<seq<Point>>)

  /** The points the crop box is built from: the corner values, then the
      net values. */
  function CropPoints(f: CoordinatesFile): (ps: seq<Point>)
    ensures |ps| == (if f.courtCorners.Some? then |f.courtCorners.value| else 0)
                  + (if f.net.Some? then |f.net.value| else 0)
  {
    (if f.courtCorners.Some? then f.courtCorners.value else [])
    + (if f.net.Some? then f.net.value else [])
  }

  /** How the picker's saved layout reads back: corners in top-left,
      top-right, bottom-right, bottom-left order, then net left and right. */
  function FileOf(c: Coordinates): CoordinatesFile
  {
    CoordinatesFile(
      Some([c.courtCorners.topLeft, c.courtCorners.topRight, c.courtCorners.bottomRight, c.courtCorners.bottomLeft]),
      Some([c.net.left, c.net.right]))
  }

  /** A file the picker saved crops to its first six points: the court
      corners and the net. */
  lemma SavedFileCropPoints(points: seq<Point>)
    requires MinSavedPoints <= |points| <= |PointLabels|
    ensures CropPoints(FileOf(SaveCoordinates(points).value)) == points[..6]
  {
  }

  function MinOf(xs: seq<int>): (m: int)
    requires xs != []
    ensures forall i :: 0 <= i < |xs| ==> m <= xs[i]
    ensures exists i :: 0 <= i < |xs| && m == xs[i]
  {
    if |xs| == 1 then xs[0]
    else
      var rest := MinOf(xs[1..]);
      assert forall i :: 1 <= i < |xs| ==> xs[i] == xs[1..][i - 1];
      MinI(xs[0], rest)
  }

  function MaxOf(xs: seq<int>): (m: int)
    requires xs != []
    ensures forall i :: 0 <= i < |xs| ==> xs[i] <= m
    ensures exists i :: 0 <= i < |xs| && m == xs[i]
  {
    if |xs| == 1 then xs[0]
    else
      var rest := MaxOf(xs[1..]);
      assert forall i :: 1 <= i < |xs| ==> xs[i] == xs[1..][i - 1];
      MaxI(xs[0], rest)
  }

  function Xs(ps: seq<Point>): (xs: seq<int>)
    ensures |xs| == |ps| && forall i :: 0 <= i < |ps| ==> xs[i] == ps[i].x
  {
    seq(|ps|, i requires 0 <= i < |ps| => ps[i].x)
  }

  function Ys(ps: seq<Point>): (ys: seq<int>)
    ensures |ys| == |ps| && forall i :: 0 <= i < |ps| ==> ys[i] == ps[i].y
  {
    seq(|ps|, i requires 0 <= i < |ps| => ps[i].y)
  }

  /** The crop box and the even output size. */
  datatype CropBox = CropBox(xMin: int, yMin: int, xMax: int, yMax: int, outWidth: int, outHeight: int)

  /** `(d // 2) * 2`: `d` rounded down to even. */
  function EvenFloor(d: int): (e: int)
    ensures e % 2 == 0
    ensures d - 1 <= e <= d
  {
    d / 2 * 2
  }

  /** The crop box for a `frameWidth x frameHeight` video, or `None` (the
      early return) when the file yields no points. */
  function CourtCropBox(points: seq<Point>, padding: int, frameWidth: nat, frameHeight: nat): (r: Option<CropBox>)
    ensures r.None? <==> points == []
    ensures r.Some? ==> 0 <= r.value.xMin && 0 <= r.value.yMin
    ensures r.Some? ==> r.value.xMax <= frameWidth && r.value.yMax <= frameHeight
    ensures r.Some? ==> r.value.outWidth % 2 == 0 && r.value.outHeight % 2 == 0
    ensures r.Some? ==> r.value.xMax - r.value.xMin - 1 <= r.value.outWidth <= r.value.xMax - r.value.xMin
    ensures r.Some? ==> r.value.yMax - r.value.yMin - 1 <= r.value.outHeight <= r.value.yMax - r.value.yMin
  {
    if points == [] then None
    else
      var xMin := MaxI(0, MinOf(Xs(points)) - padding);
      var yMin := MaxI(0, MinOf(Ys(points)) - padding);
      var xMax := MinI(frameWidth, MaxOf(Xs(points)) + padding);
      var yMax := MinI(frameHeight, MaxOf(Ys(points)) + padding);
      Some(CropBox(xMin, yMin, xMax, yMax, EvenFloor(xMax - xMin), EvenFloor(yMax - yMin)))
  }

  /** The unpadded bounds are the tightest box around the points: every
      point lies in it and each edge touches a point. */
  lemma BoundsContainPoints(points: seq<Point>)
    requires points != []
    ensures forall p :: p in points ==>
      && MinOf(Xs(points)) <= p.x <= MaxOf(Xs(points))
      && MinOf(Ys(points)) <= p.y <= MaxOf(Ys(points))
    ensures exists p :: p in points && p.x == MinOf(Xs(points))
    ensures exists p :: p in points && p.x == MaxOf(Xs(points))
    ensures exists p :: p in points && p.y == MinOf(Ys(points))
    ensures exists p :: p in points && p.y == MaxOf(Ys(points))
  {
    var xs, ys := Xs(points), Ys(points);
    forall p | p in points
      ensures MinOf(xs) <= p.x <= MaxOf(xs) && MinOf(ys) <= p.y <= MaxOf(ys)
    {
      var i :| 0 <= i < |points| && points[i] == p;
      assert xs[i] == p.x && ys[i] == p.y;
    }
    var a :| 0 <= a < |xs| && MinOf(xs) == xs[a];
    assert points[a] in points;
    var b :| 0 <= b < |xs| && MaxOf(xs) == xs[b];
    assert points[b] in points;
    var c :| 0 <= c < |ys| && MinOf(ys) == ys[c];
    assert points[c] in points;
    var d :| 0 <= d < |ys| && MaxOf(ys) == ys[d];
    assert points[d] in points;
  }

  /** With a non-negative padding, points inside the frame stay inside the
      padded, clipped box. */
  lemma PaddedBoxContainsPoints(points: seq<Point>, padding: int, frameWidth: nat, frameHeight: nat)
    requires points != [] && 0 <= padding
    requires forall p :: p in points ==> 0 <= p.x <= frameWidth && 0 <= p.y <= frameHeight
    ensures var box := CourtCropBox(points, padding, frameWidth, frameHeight).value;
      forall p :: p in points ==> box.xMin <= p.x <= box.xMax && box.yMin <= p.y <= box.yMax
  {
    BoundsContainPoints(points);
  }

  /** The rows and columns `frame[y_min:y_min+out_height, x_min:x_min+out_width]`
      selects from a `frameWidth x frameHeight` frame. */
  function CropRegion(box: CropBox, frameWidth: nat, frameHeight: nat): (r: ((nat, nat), (nat, nat)))
    ensures r.0.1 <= frameHeight && r.1.1 <= frameWidth
  {
    (SliceBounds(box.yMin, box.yMin + box.outHeight, frameHeight),
     SliceBounds(box.xMin, box.xMin + box.outWidth, frameWidth))
  }

  /** When the box is not inverted, the slice lies inside the frame and is
      exactly `out_width x out_height`, the size the writer is opened
      with. */
  lemma CropFitsFrame(points: seq<Point>, padding: int, frameWidth: nat, frameHeight: nat)
    requires points != []
    requires var box := CourtCropBox(points, padding, frameWidth, frameHeight).value;
      box.xMin <= box.xMax && box.yMin <= box.yMax
    ensures var box := CourtCropBox(points, padding, frameWidth, frameHeight).value;
      && 0 <= box.xMin && box.xMin + box.outWidth <= frameWidth
      && 0 <= box.yMin && box.yMin + box.outHeight <= frameHeight
      && CropRegion(box, frameWidth, frameHeight)
         == ((box.yMin, box.yMin + box.outHeight), (box.xMin, box.xMin + box.outWidth))
  {
  }

  /** A point left of the frame (possible only in a hand-edited file)
      inverts the box, and the negative slice end then counts from the
      right edge: the crop is 590 columns wide for a writer opened with
      width -50. */
  lemma InvertedBoxWraps()
    ensures var box := CourtCropBox([Point(-100, 10)], 50, 640, 480).value;
      && box.xMin == 0 && box.xMax == -50 && box.outWidth == -50
      && CropRegion(box, 640, 480).1 == (0, 590)
  {
    assert Xs([Point(-100, 10)]) == [-100];
    assert Ys([Point(-100, 10)]) == [10];
  }
}
