/** The court coordinate picker: clicks collect up to ten labelled points
    (four court corners, two net ends, and optionally the near and far
    kitchen lines), `Z` undoes the last point, `R` clears them, `+`/`-` move
    the shown frame in steps of 30, and `S` turns the points into the saved
    coordinate layout. The window, the video and the JSON file stay
    outside. */
module CourtCoordinates {
  import opened Wrappers
  import opened Numeric

  /** A clicked pixel position. */
  datatype Point = Point(x: int, y: int)

  /** The label of each point, in the order they are clicked. */
  const PointLabels: seq<string> := [
    "Court Top-Left",
    "Court Top-Right",
    "Court Bottom-Right",
    "Court Bottom-Left",
    "Net Left",
    "Net Right",
    "Kitchen Line Near-Left",
    "Kitchen Line Near-Right",
    "Kitchen Line Far-Left",
    "Kitchen Line Far-Right"
  ]

  /** Fewer points than this cannot be saved: four corners and the net. */
  const MinSavedPoints: nat := 6

  /** The frame step of `+` and `-`. */
  const FrameStep: int := 30

  /** No two points share a label. */
  lemma LabelsDistinct()
    ensures |PointLabels| == 10
    ensures DistinctLabels(PointLabels)
  {
  }

  /** A left click adds the point while fewer than ten are collected. */
  function AddPoint(points: seq<Point>, p: Point): (r: seq<Point>)
    ensures |points| < |PointLabels| ==> r == points + [p]
    ensures |points| >= |PointLabels| ==> r == points
    ensures |points| <= |PointLabels| ==> |r| <= |PointLabels|
  {
    if |points| < |PointLabels| then points + [p] else points
  }

  /** `Z` drops the last point, if there is one. */
  function UndoPoint(points: seq<Point>): (r: seq<Point>)
    ensures points == [] ==> r == []
    ensures points != [] ==> r + [points[|points| - 1]] == points
  {
    if points == [] then [] else points[..|points| - 1]
  }

  /** Undo takes back exactly the point a click added. */
  lemma UndoAfterAdd(points: seq<Point>, p: Point)
    requires |points| < |PointLabels|
    ensures UndoPoint(AddPoint(points, p)) == points
  {
  }

  /** A click once all ten points are in changes nothing, so the list never
      grows past ten. */
  lemma {:induction false} ClicksStayBounded(points: seq<Point>, clicks: seq<Point>)
    requires |points| <= |PointLabels|
    ensures |AddAll(points, clicks)| <= |PointLabels|
    ensures |AddAll(points, clicks)| == MinI(|PointLabels|, |points| + |clicks|)
    decreases |clicks|
  {
    if clicks != [] {
      ClicksStayBounded(AddPoint(points, clicks[0]), clicks[1..]);
    }
  }

  /** A run of left clicks. */
  function AddAll(points: seq<Point>, clicks: seq<Point>): seq<Point>
    decreases |clicks|
  {
    if clicks == [] then points else AddAll(AddPoint(points, clicks[0]), clicks[1..])
  }

  /** A pair of points saved as `left` and `right`. */
  datatype Line = Line(left: Point, right: Point)

  /** The court corners as saved. */
  datatype Corners = Corners(topLeft: Point, topRight: Point, bottomRight: Point, bottomLeft: Point)

  /** The saved coordinate layout; an absent kitchen line is a missing key. */
  datatype Coordinates = Coordinates(
    courtCorners: Corners,
    net: Line,
    kitchenLineNear: Option<Line>,
    kitchenLineFar: Option<Line>,
    allPoints: map<string, Point>)

  /** No two entries of `labels` are equal. */
  predicate DistinctLabels<K(==)>(labels: seq<K>)
  {
    forall i, j :: 0 <= i < j < |labels| ==> labels[i] != labels[j]
  }

  /** `all_points`: each of the points keyed by its label. */
  function LabelledPoints<K(==,!new)>(labels: seq<K>, points: seq<Point>): (m: map<K, Point>)
    requires |points| <= |labels| && DistinctLabels(labels)
    ensures forall key :: key in m <==> exists i :: 0 <= i < |points| && labels[i] == key
  {
    map i | 0 <= i < |points| :: labels[i] := points[i]
  }

  /** The first `k` of distinct labels are `k` different keys. */
  lemma {:induction false} LabelCount<K>(labels: seq<K>, k: nat)
    requires k <= |labels|
    requires DistinctLabels(labels)
    ensures |set i | 0 <= i < k :: labels[i]| == k
  {
    if k > 0 {
      LabelCount(labels, k - 1);
      var before := set i | 0 <= i < k - 1 :: labels[i];
      assert (set i | 0 <= i < k :: labels[i]) == before + {labels[k - 1]};
      assert labels[k - 1] !in before;
    }
  }

  /** `save_coordinates`: `None` (nothing written) with fewer than six
      points; otherwise corners from points 0-3, the net from points 4-5,
      the near kitchen line from points 6-7 when there are eight, the far
      one from points 8-9 when there are ten, and every point under its
      label. */
  function SaveCoordinates(points: seq<Point>): (r: Option<Coordinates>)
    requires |points| <= |PointLabels|
    ensures r.None? <==> |points| < MinSavedPoints
    ensures r.Some? ==>
      && r.value.courtCorners == Corners(points[0], points[1], points[2], points[3])
      && r.value.net == Line(points[4], points[5])
    ensures r.Some? ==> (r.value.kitchenLineNear.Some? <==> |points| >= 8)
    ensures r.Some? ==> (r.value.kitchenLineFar.Some? <==> |points| >= 10)
    ensures r.Some? && |points| >= 8 ==> r.value.kitchenLineNear == Some(Line(points[6], points[7]))
    ensures r.Some? && |points| >= 10 ==> r.value.kitchenLineFar == Some(Line(points[8], points[9]))
  {
    if |points| < MinSavedPoints then None
    else
      Some(Coordinates(
        Corners(points[0], points[1], points[2], points[3]),
        Line(points[4], points[5]),
        if |points| >= 8 then Some(Line(points[6], points[7])) else None,
        if |points| >= 10 then Some(Line(points[8], points[9])) else None,
        LabelsDistinct(); LabelledPoints(PointLabels, points)))
  }

  /** With distinct labels the map holds one entry per point, and reading
      it back in label order gives the points in order. */
  lemma LabelledPointsRoundTrip<K(!new)>(labels: seq<K>, points: seq<Point>)
    requires |points| <= |labels| && DistinctLabels(labels)
    ensures var m := LabelledPoints(labels, points);
      && |m| == |points|
      && (forall i :: 0 <= i < |points| ==> labels[i] in m && m[labels[i]] == points[i])
  {
    var m := LabelledPoints(labels, points);
    LabelCount(labels, |points|);
    assert m.Keys == set i | 0 <= i < |points| :: labels[i];
  }

  /** `all_points` holds one entry per collected point, and reading it back
      in label order gives the points in the order they were clicked. */
  lemma AllPointsRoundTrip(points: seq<Point>)
    requires MinSavedPoints <= |points| <= |PointLabels|
    ensures var all := SaveCoordinates(points).value.allPoints;
      && |all| == |points|
      && (forall i :: 0 <= i < |points| ==> PointLabels[i] in all && all[PointLabels[i]] == points[i])
      && (forall key :: key in all ==> exists i :: 0 <= i < |points| && PointLabels[i] == key)
  {
    LabelsDistinct();
    LabelledPointsRoundTrip(PointLabels, points);
  }

  /** `+`: 30 frames on, but not past the last frame of the video. */
  function OffsetForward(startFrame: int, totalFrames: int, offset: int): int
  {
    MinI(offset + FrameStep, totalFrames - startFrame - 1)
  }

  /** `-`: 30 frames back, but not before the first frame of the video. */
  function OffsetBack(startFrame: int, offset: int): int
  {
    MaxI(offset - FrameStep, -startFrame)
  }

  /** From a frame of the video, both steps land on a frame of the video. */
  lemma OffsetsStayInVideo(startFrame: int, totalFrames: int, offset: int)
    requires 0 <= startFrame + offset <= totalFrames - 1
    ensures 0 <= startFrame + OffsetForward(startFrame, totalFrames, offset) <= totalFrames - 1
    ensures 0 <= startFrame + OffsetBack(startFrame, offset) <= totalFrames - 1
    ensures offset <= OffsetForward(startFrame, totalFrames, offset) <= offset + FrameStep
    ensures offset - FrameStep <= OffsetBack(startFrame, offset) <= offset
  {
  }

  /** The picker's state: the collected points and the frame offset. */
  class CoordinateExtractor {
    var points: seq<Point>
    var frameOffset: int
    const startFrame: int
    const totalFrames: int

    ghost predicate Valid()
      reads this
    {
      |points| <= |PointLabels|
    }

    constructor(startFrame: int, totalFrames: int)
      ensures Valid()
      ensures points == [] && frameOffset == 0
      ensures this.startFrame == startFrame && this.totalFrames == totalFrames
    {
      points := [];
      frameOffset := 0;
      this.startFrame := startFrame;
      this.totalFrames := totalFrames;
    }

    /** `mouse_callback`: only a left click adds a point. */
    method MouseCallback(leftButtonDown: bool, x: int, y: int)
      requires Valid()
      modifies this
      ensures Valid()
      ensures points == if leftButtonDown then AddPoint(old(points), Point(x, y)) else old(points)
      ensures frameOffset == old(frameOffset)
    {
      if leftButtonDown {
        if |points| < |PointLabels| {
          points := points + [Point(x, y)];
        }
      }
    }

    /** `Z`. */
    method Undo()
      requires Valid()
      modifies this
      ensures Valid()
      ensures points == UndoPoint(old(points)) && frameOffset == old(frameOffset)
    {
      if points != [] {
        points := points[..|points| - 1];
      }
    }

    /** `R`. */
    method Reset()
      modifies this
      ensures Valid()
      ensures points == [] && frameOffset == old(frameOffset)
    {
      points := [];
    }

    /** `+`. */
    method StepForward()
      modifies this
      ensures frameOffset == OffsetForward(startFrame, totalFrames, old(frameOffset))
      ensures points == old(points)
    {
      frameOffset := MinI(frameOffset + FrameStep, totalFrames - startFrame - 1);
    }

    /** `-`. */
    method StepBack()
      modifies this
      ensures frameOffset == OffsetBack(startFrame, old(frameOffset))
      ensures points == old(points)
    {
      frameOffset := MaxI(frameOffset - FrameStep, -startFrame);
    }
  }
}
