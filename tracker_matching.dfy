/** The three selection rules of the selective tracker: rectangle overlap
    (`calculate_iou`), IOU bootstrap matching (`match_bbox_to_detections`)
    and the hybrid distance-plus-appearance re-match (`hybrid_rematch`). */
module TrackerMatching {
  import opened Wrappers
  import opened Numeric
  import opened Geometry

  /** One detector output: a box and an optional detector track id. */
  datatype Detection = Detection(bbox: Box, trackId: Option<int>)

  // ---------------------------------------------------------------------
  // calculate_iou

  function InterWidth(a: Box, b: Box): real { MaxR(0.0, MinR(a.x2, b.x2) - MaxR(a.x1, b.x1)) }
  function InterHeight(a: Box, b: Box): real { MaxR(0.0, MinR(a.y2, b.y2) - MaxR(a.y1, b.y1)) }
  function Intersection(a: Box, b: Box): real { InterWidth(a, b) * InterHeight(a, b) }
  function Area(b: Box): real { Width(b) * Height(b) }
  function Union(a: Box, b: Box): real { Area(a) + Area(b) - Intersection(a, b) }

  /** Intersection over union; 0 when the union is not positive. */
  function Iou(a: Box, b: Box): (r: real)
  {
    var u := Union(a, b);
    if u > 0.0 then Intersection(a, b) / u else 0.0
  }

  lemma MulMonotone(p: real, q: real, pp: real, qq: real)
    requires 0.0 <= p <= pp && 0.0 <= q <= qq
    ensures 0.0 <= p * q <= pp * qq
  {
    assert p * q <= pp * q;
    assert pp * q <= pp * qq;
  }

  /** A degenerate union gives 0; otherwise the IOU times the union is the
      overlap area. */
  lemma IouDefinition(a: Box, b: Box)
    ensures Union(a, b) <= 0.0 ==> Iou(a, b) == 0.0
    ensures Union(a, b) > 0.0 ==> Iou(a, b) * Union(a, b) == Intersection(a, b)
  {
  }

  /** For two well-formed boxes the union is positive and the IOU lies in
      `[0, 1]`. */
  lemma IouInUnitRange(a: Box, b: Box)
    requires WellFormed(a) && WellFormed(b)
    ensures Union(a, b) > 0.0
    ensures 0.0 <= Iou(a, b) <= 1.0
  {
    MulMonotone(InterWidth(a, b), InterHeight(a, b), Width(a), Height(a));
    MulMonotone(InterWidth(a, b), InterHeight(a, b), Width(b), Height(b));
    MulMonotone(0.0, 0.0, Width(a), Height(a));
    assert Area(a) > 0.0 by { MulPositive(Width(a), Height(a)); }
    var i, u := Intersection(a, b), Union(a, b);
    assert 0.0 <= i <= u;
    DivAtMostOne(i, u);
  }

  lemma MulPositive(x: real, y: real)
    requires x > 0.0 && y > 0.0
    ensures x * y > 0.0
  {
  }

  lemma DivAtMostOne(i: real, u: real)
    requires 0.0 <= i <= u && u > 0.0
    ensures 0.0 <= i / u <= 1.0
  {
  }

  /** A box overlaps itself completely. */
  lemma IouSelf(a: Box)
    requires WellFormed(a)
    ensures Iou(a, a) == 1.0
  {
    assert InterWidth(a, a) == Width(a) && InterHeight(a, a) == Height(a);
    MulPositive(Width(a), Height(a));
    assert Union(a, a) == Area(a);
  }

  /** Boxes separated along either axis do not overlap. */
  lemma IouDisjoint(a: Box, b: Box)
    requires a.x2 <= b.x1 || b.x2 <= a.x1 || a.y2 <= b.y1 || b.y2 <= a.y1
    ensures Iou(a, b) == 0.0
  {
    assert InterWidth(a, b) == 0.0 || InterHeight(a, b) == 0.0;
  }

  /** `[0,0,100,100]` against `[50,50,150,150]`: 2500 / 17500. */
  lemma IouHalfOffsetSquares()
    ensures Iou(Box(0.0, 0.0, 100.0, 100.0), Box(50.0, 50.0, 150.0, 150.0)) == 2500.0 / 17500.0
  {
    var a, b := Box(0.0, 0.0, 100.0, 100.0), Box(50.0, 50.0, 150.0, 150.0);
    assert InterWidth(a, b) == 50.0 && InterHeight(a, b) == 50.0;
    assert Union(a, b) == 17500.0;
  }

  // ---------------------------------------------------------------------
  // match_bbox_to_detections

  function IouAt(target: Box, dets: seq<Detection>, j: nat): real
    requires j < |dets|
  {
    Iou(target, dets[j].bbox)
  }

  /** The running best IOU for a chosen index (0 when nothing is chosen). */
  function IouOf(target: Box, dets: seq<Detection>, r: Option<nat>): real
    requires r.Some? ==> r.value < |dets|
  {
    match r
    case None => 0.0
    case Some(i) => IouAt(target, dets, i)
  }

  /** The detection chosen after scanning the first `n` detections: a later
      detection replaces the current choice only with a strictly larger IOU
      that also reaches the threshold. */
  function BestIouUpTo(target: Box, dets: seq<Detection>, threshold: real, n: nat): (r: Option<nat>)
    requires n <= |dets|
    ensures r.Some? ==> r.value < n
  {
    if n == 0 then None
    else
      var prev := BestIouUpTo(target, dets, threshold, n - 1);
      var iou := IouAt(target, dets, n - 1);
      if iou > IouOf(target, dets, prev) && iou >= threshold then Some(n - 1) else prev
  }

  function BestIou(target: Box, dets: seq<Detection>, threshold: real): Option<nat>
  {
    BestIouUpTo(target, dets, threshold, |dets|)
  }

  /** What a bootstrap match means among the first `n` detections: `None`
      when no IOU is both positive and at the threshold; otherwise an index
      whose IOU is at the threshold, positive, at least every other IOU and
      strictly above every earlier one (ties go to the earliest index). */
  ghost predicate IsBestIouMatchUpTo(target: Box, dets: seq<Detection>, threshold: real, n: nat, r: Option<nat>)
    requires n <= |dets|
  {
    match r
    case None =>
      forall j :: 0 <= j < n ==> !(IouAt(target, dets, j) >= threshold && IouAt(target, dets, j) > 0.0)
    case Some(i) =>
      && i < n
      && IouAt(target, dets, i) >= threshold && IouAt(target, dets, i) > 0.0
      && (forall j :: 0 <= j < n ==> IouAt(target, dets, j) <= IouAt(target, dets, i))
      && (forall j :: 0 <= j < i ==> IouAt(target, dets, j) < IouAt(target, dets, i))
  }

  ghost predicate IsBestIouMatch(target: Box, dets: seq<Detection>, threshold: real, r: Option<nat>)
  {
    IsBestIouMatchUpTo(target, dets, threshold, |dets|, r)
  }

  lemma {:induction false} BestIouUpToIsBest(target: Box, dets: seq<Detection>, threshold: real, n: nat)
    requires n <= |dets|
    ensures IsBestIouMatchUpTo(target, dets, threshold, n, BestIouUpTo(target, dets, threshold, n))
  {
    if n > 0 {
      BestIouUpToIsBest(target, dets, threshold, n - 1);
    }
  }

  /** At most one answer satisfies the selection rule. */
  lemma BestIouMatchUnique(target: Box, dets: seq<Detection>, threshold: real, r1: Option<nat>, r2: Option<nat>)
    requires IsBestIouMatch(target, dets, threshold, r1)
    requires IsBestIouMatch(target, dets, threshold, r2)
    ensures r1 == r2
  {
  }

  /** `match_bbox_to_detections`: the index of the best-overlapping
      detection, or `None`. */
  method MatchBboxToDetections(target: Box, dets: seq<Detection>, threshold: real) returns (r: Option<nat>)
    ensures r == BestIou(target, dets, threshold)
    ensures IsBestIouMatch(target, dets, threshold, r)
  {
    var bestIou := 0.0;
    r := None;
    var i := 0;
    while i < |dets|
      invariant 0 <= i <= |dets|
      invariant r == BestIouUpTo(target, dets, threshold, i)
      invariant bestIou == IouOf(target, dets, r)
    {
      var iou := Iou(target, dets[i].bbox);
      if iou > bestIou && iou >= threshold {
        bestIou := iou;
        r := Some(i);
      }
      i := i + 1;
    }
    BestIouUpToIsBest(target, dets, threshold, |dets|);
  }

  /** The fixture of the bootstrap test: against `[100,100,200,200]` the
      second detection wins at threshold 0.3 and nothing is chosen at 0.8. */
  lemma MatchFixture()
    ensures var target := Box(100.0, 100.0, 200.0, 200.0);
      var dets := [Detection(Box(0.0, 0.0, 50.0, 50.0), None),
                   Detection(Box(90.0, 90.0, 190.0, 190.0), None),
                   Detection(Box(150.0, 150.0, 250.0, 250.0), None)];
      BestIou(target, dets, 0.3) == Some(1) && BestIou(target, dets, 0.8) == None
  {
    var target := Box(100.0, 100.0, 200.0, 200.0);
    var dets := [Detection(Box(0.0, 0.0, 50.0, 50.0), None),
                 Detection(Box(90.0, 90.0, 190.0, 190.0), None),
                 Detection(Box(150.0, 150.0, 250.0, 250.0), None)];
    IouDisjoint(target, dets[0].bbox);
    assert Union(target, dets[1].bbox) == 11900.0;
    assert IouAt(target, dets, 1) == 8100.0 / 11900.0;
    assert Union(target, dets[2].bbox) == 17500.0;
    assert IouAt(target, dets, 2) == 2500.0 / 17500.0;
    assert BestIouUpTo(target, dets, 0.3, 1) == None;
    assert BestIouUpTo(target, dets, 0.3, 2) == Some(1);
    assert BestIouUpTo(target, dets, 0.3, 3) == Some(1);
    assert BestIouUpTo(target, dets, 0.8, 1) == None;
    assert BestIouUpTo(target, dets, 0.8, 2) == None;
    assert BestIouUpTo(target, dets, 0.8, 3) == None;
  }

  // ---------------------------------------------------------------------
  // hybrid_rematch

  datatype HybridParams = HybridParams(
    baseSpeed: real,
    maxDistanceCap: real,
    similarityThreshold: real,
    distanceWeight: real,
    histogramWeight: real)

  /** The numeric services the re-match consumes: histogram correlation
      (OpenCV's CORREL comparison) and Euclidean distance of an offset. */
  datatype Oracles = Oracles(
    correl: (seq<real>, seq<real>) -> real,
    dist: (real, real) -> real)

  /** Correlation lies in `[-1, 1]`; `dist` is the non-negative square root
      of `dx*dx + dy*dy`. */
  ghost predicate ValidOracles(o: Oracles)
  {
    && (forall a, b :: -1.0 <= o.correl(a, b) <= 1.0)
    && (forall dx, dy :: o.dist(dx, dy) >= 0.0 && o.dist(dx, dy) * o.dist(dx, dy) == dx * dx + dy * dy)
  }

  /** `min(base_speed * frames_lost, max_distance_cap)`. */
  function SearchRadius(p: HybridParams, framesLost: int): real
  {
    MinR(p.baseSpeed * framesLost as real, p.maxDistanceCap)
  }

  /** Centre-to-centre distance from the last known box. */
  function CentreDistance(o: Oracles, last: Box, b: Box): real
  {
    o.dist(CentreX(b) - CentreX(last), CentreY(b) - CentreY(last))
  }

  /** `1 - d/R`, or 1 when the radius is not positive. */
  function DistanceScore(d: real, radius: real): real
  {
    if radius > 0.0 then 1.0 - d / radius else 1.0
  }

  /** Correlation remapped from `[-1, 1]` to `[0, 1]`. */
  function HistogramScore(correlation: real): real
  {
    (correlation + 1.0) / 2.0
  }

  /** The weighted sum of the distance score and the histogram score. */
  function CombinedScore(p: HybridParams, d: real, radius: real, correlation: real): real
  {
    p.distanceWeight * DistanceScore(d, radius) + p.histogramWeight * HistogramScore(correlation)
  }

  /** The combined score of one detection, or `None` when the detection is
      not a candidate: it has no track id, its id is already claimed this
      frame, or its centre lies beyond the search radius. */
  function CandidateScore(last: Box, reference: seq<real>, framesLost: int, det: Detection,
                          assignedIds: set<Option<int>>, p: HybridParams, o: Oracles,
                          extract: Box -> seq<real>): Option<real>
  {
    if det.trackId.None? || det.trackId in assignedIds then None
    else
      var radius := SearchRadius(p, framesLost);
      var d := CentreDistance(o, last, det.bbox);
      if d > radius then None
      else
        Some(CombinedScore(p, d, radius, o.correl(reference, extract(det.bbox))))
  }

  /** The running best combined score for a chosen index (0 when nothing is
      chosen, the source's initial `best_score`). */
  function ScoreOf(last: Box, reference: seq<real>, framesLost: int, dets: seq<Detection>,
                   assignedIds: set<Option<int>>, p: HybridParams, o: Oracles,
                   extract: Box -> seq<real>, r: Option<nat>): real
    requires r.Some? ==> r.value < |dets|
  {
    match r
    case None => 0.0
    case Some(i) =>
      var s := CandidateScore(last, reference, framesLost, dets[i], assignedIds, p, o, extract);
      if s.Some? then s.value else 0.0
  }

  /** The candidate chosen after scanning the first `n` detections. */
  function BestHybridUpTo(last: Box, reference: seq<real>, framesLost: int, dets: seq<Detection>,
                          assignedIds: set<Option<int>>, p: HybridParams, o: Oracles,
                          extract: Box -> seq<real>, n: nat): (r: Option<nat>)
    requires n <= |dets|
    ensures r.Some? ==>
      r.value < n && CandidateScore(last, reference, framesLost, dets[r.value], assignedIds, p, o, extract).Some?
  {
    if n == 0 then None
    else
      var prev := BestHybridUpTo(last, reference, framesLost, dets, assignedIds, p, o, extract, n - 1);
      var s := CandidateScore(last, reference, framesLost, dets[n - 1], assignedIds, p, o, extract);
      if s.Some? && s.value > ScoreOf(last, reference, framesLost, dets, assignedIds, p, o, extract, prev)
         && s.value >= p.similarityThreshold
      then Some(n - 1)
      else prev
  }

  function BestHybrid(last: Box, reference: seq<real>, framesLost: int, dets: seq<Detection>,
                      assignedIds: set<Option<int>>, p: HybridParams, o: Oracles,
                      extract: Box -> seq<real>): Option<nat>
  {
    BestHybridUpTo(last, reference, framesLost, dets, assignedIds, p, o, extract, |dets|)
  }

  /** What a hybrid re-match means among the first `n` detections: `None`
      when no candidate's score is both positive and at the threshold;
      otherwise a candidate whose score is at the threshold, positive, at
      least every other candidate's and strictly above every earlier
      candidate's. */
  ghost predicate IsBestHybridMatchUpTo(last: Box, reference: seq<real>, framesLost: int, dets: seq<Detection>,
                                        assignedIds: set<Option<int>>, p: HybridParams, o: Oracles,
                                        extract: Box -> seq<real>, n: nat, r: Option<nat>)
    requires n <= |dets|
  {
    match r
    case None =>
      forall j :: 0 <= j < n ==>
        var s := CandidateScore(last, reference, framesLost, dets[j], assignedIds, p, o, extract);
        s.Some? ==> !(s.value >= p.similarityThreshold && s.value > 0.0)
    case Some(i) =>
      && i < n
      && var best := CandidateScore(last, reference, framesLost, dets[i], assignedIds, p, o, extract);
      && best.Some? && best.value >= p.similarityThreshold && best.value > 0.0
      && (forall j :: 0 <= j < n ==>
            var s := CandidateScore(last, reference, framesLost, dets[j], assignedIds, p, o, extract);
            s.Some? ==> s.value <= best.value)
      && (forall j :: 0 <= j < i ==>
            var s := CandidateScore(last, reference, framesLost, dets[j], assignedIds, p, o, extract);
            s.Some? ==> s.value < best.value)
  }

  lemma {:induction false} BestHybridUpToIsBest(last: Box, reference: seq<real>, framesLost: int, dets: seq<Detection>,
                                                assignedIds: set<Option<int>>, p: HybridParams, o: Oracles,
                                                extract: Box -> seq<real>, n: nat)
    requires n <= |dets|
    ensures IsBestHybridMatchUpTo(last, reference, framesLost, dets, assignedIds, p, o, extract, n,
                                  BestHybridUpTo(last, reference, framesLost, dets, assignedIds, p, o, extract, n))
  {
    if n > 0 {
      BestHybridUpToIsBest(last, reference, framesLost, dets, assignedIds, p, o, extract, n - 1);
    }
  }

  /** The result of `hybrid_rematch`: `(None, None, None)` or the claimed
      track id, its (untruncated) box and its histogram. */
  datatype Rematch = NoMatch | Match(trackId: int, bbox: Box, hist: seq<real>)

  function RematchOf(dets: seq<Detection>, extract: Box -> seq<real>, r: Option<nat>): (m: Rematch)
    requires r.Some? ==> r.value < |dets| && dets[r.value].trackId.Some?
    ensures m.NoMatch? <==> r.None?
    ensures m.Match? ==> Some(m.trackId) == dets[r.value].trackId && m.bbox == dets[r.value].bbox
    ensures m.Match? ==> m.hist == extract(m.bbox)
  {
    match r
    case None => NoMatch
    case Some(i) => Match(dets[i].trackId.value, dets[i].bbox, extract(dets[i].bbox))
  }

  /** The body of the re-match loop for one detection: skip it when it has
      no id or a claimed id, skip it beyond the radius, otherwise score it. */
  method ScoreDetection(last: Box, reference: seq<real>, framesLost: int, det: Detection,
                        assignedIds: set<Option<int>>, p: HybridParams, o: Oracles,
                        extract: Box -> seq<real>) returns (s: Option<real>)
    ensures s == CandidateScore(last, reference, framesLost, det, assignedIds, p, o, extract)
  {
    if det.trackId.None? || det.trackId in assignedIds {
      s := None;
    } else {
      var radius := SearchRadius(p, framesLost);
      var distance := CentreDistance(o, last, det.bbox);
      if distance > radius {
        s := None;
      } else {
        s := Some(CombinedScore(p, distance, radius, o.correl(reference, extract(det.bbox))));
      }
    }
  }

  /** `hybrid_rematch`: the best unclaimed detection within the search
      radius whose combined score reaches the threshold. */
  method HybridRematch(last: Box, reference: seq<real>, framesLost: int, dets: seq<Detection>,
                       assignedIds: set<Option<int>>, p: HybridParams, o: Oracles,
                       extract: Box -> seq<real>) returns (m: Rematch)
    ensures var best := BestHybrid(last, reference, framesLost, dets, assignedIds, p, o, extract);
      best.Some? ==> dets[best.value].trackId.Some?
    ensures m == RematchOf(dets, extract, BestHybrid(last, reference, framesLost, dets, assignedIds, p, o, extract))
    ensures m.Match? ==> Some(m.trackId) !in assignedIds
    ensures m.Match? ==> CentreDistance(o, last, m.bbox) <= SearchRadius(p, framesLost)
  {
    var bestScore := 0.0;
    var best: Option<nat> := None;
    var i := 0;
    while i < |dets|
      invariant 0 <= i <= |dets|
      invariant best == BestHybridUpTo(last, reference, framesLost, dets, assignedIds, p, o, extract, i)
      invariant bestScore == ScoreOf(last, reference, framesLost, dets, assignedIds, p, o, extract, best)
    {
      var combined := ScoreDetection(last, reference, framesLost, dets[i], assignedIds, p, o, extract);
      if combined.Some? && combined.value > bestScore && combined.value >= p.similarityThreshold {
        bestScore := combined.value;
        best := Some(i);
      }
      i := i + 1;
    }
    m := RematchOf(dets, extract, best);
  }

  /** Every candidate lies within the Euclidean search radius: the squared
      centre offset is at most the squared radius, and the radius is not
      negative. */
  lemma CandidateWithinRadius(last: Box, reference: seq<real>, framesLost: int, det: Detection,
                              assignedIds: set<Option<int>>, p: HybridParams, o: Oracles,
                              extract: Box -> seq<real>)
    requires ValidOracles(o)
    requires CandidateScore(last, reference, framesLost, det, assignedIds, p, o, extract).Some?
    ensures det.trackId.Some? && det.trackId !in assignedIds
    ensures var dx, dy, radius := CentreX(det.bbox) - CentreX(last), CentreY(det.bbox) - CentreY(last),
                                  SearchRadius(p, framesLost);
      0.0 <= radius && dx * dx + dy * dy <= radius * radius
  {
    var dx, dy := CentreX(det.bbox) - CentreX(last), CentreY(det.bbox) - CentreY(last);
    var d, radius := o.dist(dx, dy), SearchRadius(p, framesLost);
    assert 0.0 <= d <= radius;
    MulMonotone(d, d, radius, radius);
  }

  /** With non-negative weights every candidate's score lies in
      `[0, distance_weight + histogram_weight]`: both partial scores lie in
      `[0, 1]`. */
  lemma CandidateScoreBounds(last: Box, reference: seq<real>, framesLost: int, det: Detection,
                             assignedIds: set<Option<int>>, p: HybridParams, o: Oracles,
                             extract: Box -> seq<real>)
    requires ValidOracles(o)
    requires p.distanceWeight >= 0.0 && p.histogramWeight >= 0.0
    requires CandidateScore(last, reference, framesLost, det, assignedIds, p, o, extract).Some?
    ensures var s := CandidateScore(last, reference, framesLost, det, assignedIds, p, o, extract).value;
      0.0 <= s <= p.distanceWeight + p.histogramWeight
  {
    var d, radius := CentreDistance(o, last, det.bbox), SearchRadius(p, framesLost);
    var ds := DistanceScore(d, radius);
    var hs := HistogramScore(o.correl(reference, extract(det.bbox)));
    assert 0.0 <= d <= radius;
    if radius > 0.0 {
      DivAtMostOne(d, radius);
    }
    assert 0.0 <= ds <= 1.0;
    assert 0.0 <= hs <= 1.0;
    MulMonotone(p.distanceWeight, ds, p.distanceWeight, 1.0);
    MulMonotone(p.histogramWeight, hs, p.histogramWeight, 1.0);
  }
}
