/** The frame loop of `run_selective_tracking`: per-player tracking records,
    the continuity pass (keep a player on its detector track id), the
    re-acquisition pass (IOU bootstrap for a player without an appearance
    histogram, hybrid re-match otherwise), and the final per-player report.

    A video frame reaches the model as its detections and as the histogram
    extraction over that frame (`hist`); the detector and OpenCV stay
    outside. */
module SelectiveTracker {
  import opened Wrappers
  import opened Numeric
  import opened Geometry
  import opened ColorHistogram
  import opened TrackerMatching

  /** `bins_h + bins_s` with the extractor's default 50 + 50 bins. */
  const DefaultHistogramLength: nat := 100

  /** A histogram as `extract_color_histogram` returns it with default bins. */
  type Histogram = h: seq<real> | |h| == DefaultHistogramLength witness seq(100, _ => 0.0)

  /** The bootstrap IOU threshold, fixed in the call rather than taken from
      the `iou_threshold` argument. */
  const BootstrapIou: real := 0.3

  /** The weights `hybrid_rematch` runs with here: its defaults. */
  const DistanceWeight: real := 0.3
  const HistogramWeight: real := 0.7

  /** One entry of the selection file. */
  datatype Selection = Selection(name: string, selectionId: int, initialBbox: Box)

  /** The per-player tracking record. Frame keys are the frame indices the
      source stores as strings. */
  datatype PlayerState = PlayerState(
    name: string,
    selectionId: int,
    currentTrackId: Option<int>,
    lastBbox: Box,
    referenceHistogram: Option<Histogram>,
    framesLost: int,
    frames: map<nat, Box>,
    maxBbox: Size,
    missingFrames: seq<nat>)

  /** The tracking parameters the frame loop reads. */
  datatype Config = Config(
    baseSpeed: real,
    maxDistanceCap: real,
    similarityThreshold: real,
    histogramEmaAlpha: real,
    selectionFrame: int)

  function HybridOf(c: Config): HybridParams
  {
    HybridParams(c.baseSpeed, c.maxDistanceCap, c.similarityThreshold, DistanceWeight, HistogramWeight)
  }

  /** The record built for a selected player before the first frame. */
  function InitialState(sel: Selection): (s: PlayerState)
    ensures s.name == sel.name && s.selectionId == sel.selectionId && s.lastBbox == sel.initialBbox
    ensures s.currentTrackId.None? && s.referenceHistogram.None? && s.framesLost == 0
    ensures s.frames == map[] && s.missingFrames == [] && s.maxBbox == Size(0.0, 0.0)
  {
    PlayerState(sel.name, sel.selectionId, None, sel.initialBbox, None, 0, map[], Size(0.0, 0.0), [])
  }

  function InitialStates(sels: seq<Selection>): (r: seq<PlayerState>)
    ensures |r| == |sels|
    ensures forall j :: 0 <= j < |sels| ==> r[j] == InitialState(sels[j])
  {
    seq(|sels|, j requires 0 <= j < |sels| => InitialState(sels[j]))
  }

  // ---------------------------------------------------------------------
  // Pass 1: continuity

  /** The first detection carrying track id `id` among the first `n`. */
  function FirstWithTrackIdUpTo(dets: seq<Detection>, id: int, n: nat): (r: Option<nat>)
    requires n <= |dets|
    ensures r.Some? ==> r.value < n && dets[r.value].trackId == Some(id)
    ensures r.Some? ==> forall j :: 0 <= j < r.value ==> dets[j].trackId != Some(id)
    ensures r.None? ==> forall j :: 0 <= j < n ==> dets[j].trackId != Some(id)
  {
    if n == 0 then None
    else
      var prev := FirstWithTrackIdUpTo(dets, id, n - 1);
      if prev.Some? then prev
      else if dets[n - 1].trackId == Some(id) then Some(n - 1)
      else None
  }

  function FirstWithTrackId(dets: seq<Detection>, id: int): Option<nat>
  {
    FirstWithTrackIdUpTo(dets, id, |dets|)
  }

  /** The scan for the player's track id, stopping at the first hit. */
  method FindTrack(dets: seq<Detection>, id: int) returns (r: Option<nat>)
    ensures r == FirstWithTrackId(dets, id)
  {
    var i := 0;
    while i < |dets|
      invariant 0 <= i <= |dets|
      invariant forall j :: 0 <= j < i ==> dets[j].trackId != Some(id)
    {
      if dets[i].trackId == Some(id) {
        r := Some(i);
        return;
      }
      i := i + 1;
    }
    r := None;
  }

  /** A player's new record and the track ids it claims this frame. */
  datatype Step = Step(state: PlayerState, claim: set<Option<int>>)

  /** Records a box for frame `f`: the box becomes `last_bbox` and the
      frame's entry, the lost counter resets, and `max_bbox` grows. */
  function Place(s: PlayerState, f: nat, b: Box): (t: PlayerState)
  {
    s.(lastBbox := b, frames := s.frames[f := b], framesLost := 0, maxBbox := GrowSize(s.maxBbox, b))
  }

  /** Pass 1 for one player. A player holding a track id finds the first
      detection with that id: on a hit the truncated box is placed and the
      histogram, when there is one, moves towards the new crop's with
      weight `alpha`; on a miss the id is dropped and `frames_lost` rises by
      one. A player without an id is left alone. */
  function ContinuityStep(s: PlayerState, f: nat, dets: seq<Detection>, hist: Box -> Histogram, alpha: real): Step
  {
    if s.currentTrackId.None? then Step(s, {})
    else
      match FirstWithTrackId(dets, s.currentTrackId.value)
      case Some(i) =>
        var b := TruncBox(dets[i].bbox);
        var reference: Option<Histogram> :=
          if s.referenceHistogram.Some? then Some(Ema(s.referenceHistogram.value, hist(b), alpha)) else None;
        Step(Place(s, f, b).(referenceHistogram := reference), {s.currentTrackId})
      case None =>
        Step(s.(currentTrackId := None, framesLost := s.framesLost + 1), {})
  }

  /** On a hit the player keeps its id and records the first detection with
      that id, truncated: the box is stored for the frame and as the last
      box, the lost counter resets, the maximum size grows by the box, and a
      histogram, when there is one, moves towards the box's with weight
      `alpha`; name, selection id and missing frames are kept. On a miss it
      loses the id and gains exactly one lost frame, with everything else
      unchanged. */
  lemma ContinuityOutcome(s: PlayerState, f: nat, dets: seq<Detection>, hist: Box -> Histogram, alpha: real)
    requires s.currentTrackId.Some?
    ensures var t := ContinuityStep(s, f, dets, hist, alpha);
      var i := FirstWithTrackId(dets, s.currentTrackId.value);
      && (i.Some? ==>
            var b := TruncBox(dets[i.value].bbox);
            && t.state.name == s.name && t.state.selectionId == s.selectionId
            && t.state.currentTrackId == s.currentTrackId
            && t.state.frames == s.frames[f := b]
            && t.state.lastBbox == b
            && t.state.framesLost == 0
            && t.state.maxBbox == GrowSize(s.maxBbox, b)
            && t.state.missingFrames == s.missingFrames
            && t.state.referenceHistogram
               == (if s.referenceHistogram.Some? then Some(Ema(s.referenceHistogram.value, hist(b), alpha)) else None)
            && t.claim == {s.currentTrackId})
      && (i.None? ==>
            && (forall j :: 0 <= j < |dets| ==> dets[j].trackId != s.currentTrackId)
            && t.state == s.(currentTrackId := None, framesLost := s.framesLost + 1)
            && t.claim == {})
  {
  }

  /** The per-player body of pass 1. */
  method ContinuityPlayer(s: PlayerState, f: nat, dets: seq<Detection>, hist: Box -> Histogram, alpha: real)
    returns (t: PlayerState, claim: set<Option<int>>)
    ensures Step(t, claim) == ContinuityStep(s, f, dets, hist, alpha)
  {
    t, claim := s, {};
    if s.currentTrackId.Some? {
      var found := FindTrack(dets, s.currentTrackId.value);
      if found.Some? {
        var b := TruncBox(dets[found.value].bbox);
        t := Place(s, f, b);
        if s.referenceHistogram.Some? {
          t := t.(referenceHistogram := Some(Ema(s.referenceHistogram.value, hist(b), alpha)));
        }
        claim := {s.currentTrackId};
      } else {
        t := s.(currentTrackId := None, framesLost := s.framesLost + 1);
      }
    }
  }

  /** The players and the claimed track ids once pass 1 (or pass 2) has run
      over the first `n` players. */
  datatype Pass = Pass(states: seq<PlayerState>, claimed: set<Option<int>>)

  function ContinuityPass(states: seq<PlayerState>, f: nat, dets: seq<Detection>, hist: Box -> Histogram,
                          alpha: real, n: nat): (r: Pass)
    requires n <= |states|
    ensures |r.states| == |states|
    ensures forall j :: n <= j < |states| ==> r.states[j] == states[j]
  {
    if n == 0 then Pass(states, {})
    else
      var prev := ContinuityPass(states, f, dets, hist, alpha, n - 1);
      var st := ContinuityStep(prev.states[n - 1], f, dets, hist, alpha);
      Pass(prev.states[n - 1 := st.state], prev.claimed + st.claim)
  }

  // ---------------------------------------------------------------------
  // Pass 2: re-acquisition

  /** Pass 2 for one player, given the ids claimed so far this frame.
      - A player holding an id is left alone.
      - Without a histogram (bootstrap): the best IOU match at 0.3 against
        `last_bbox`, whatever its id (none, or already claimed), is adopted
        with its truncated box and a fresh histogram; with no match nothing
        changes.
      - Otherwise (hybrid): the re-matched detection's id and untruncated box
        are adopted and the histogram moves towards the match's with weight
        `min(1, 1.5 alpha)`; with no match, from the selection frame on, the
        lost counter rises and the frame is logged as missing. */
  function ReacquireStep(s: PlayerState, claimed: set<Option<int>>, f: nat, dets: seq<Detection>,
                         hist: Box -> Histogram, c: Config, o: Oracles): Step
  {
    if s.currentTrackId.Some? then Step(s, {})
    else if s.referenceHistogram.None? then BootstrapStep(s, f, dets, hist)
    else HybridStep(s, claimed, f, dets, hist, c, o)
  }

  /** The bootstrap branch of pass 2. */
  function BootstrapStep(s: PlayerState, f: nat, dets: seq<Detection>, hist: Box -> Histogram): Step
  {
    match BestIou(s.lastBbox, dets, BootstrapIou)
    case None => Step(s, {})
    case Some(i) =>
      var b := TruncBox(dets[i].bbox);
      Step(Place(s, f, b).(currentTrackId := dets[i].trackId, referenceHistogram := Some(hist(b))),
           {dets[i].trackId})
  }

  /** The hybrid branch of pass 2. */
  function HybridStep(s: PlayerState, claimed: set<Option<int>>, f: nat, dets: seq<Detection>,
                      hist: Box -> Histogram, c: Config, o: Oracles): Step
    requires s.referenceHistogram.Some?
  {
    var reference := s.referenceHistogram.value;
    var m := RematchOf(dets, hist, BestHybrid(s.lastBbox, reference, s.framesLost, dets, claimed, HybridOf(c), o, hist));
    match m
    case Match(id, b, _) =>
      Step(Place(s, f, b).(currentTrackId := Some(id),
                           referenceHistogram := Some(Ema(reference, hist(b), MinR(1.0, c.histogramEmaAlpha * 1.5)))),
           {Some(id)})
    case NoMatch =>
      if f >= c.selectionFrame then
        Step(s.(framesLost := s.framesLost + 1, missingFrames := s.missingFrames + [f]), {})
      else Step(s, {})
  }

  /** The per-player body of pass 2. */
  method ReacquirePlayer(s: PlayerState, claimed: set<Option<int>>, f: nat, dets: seq<Detection>,
                         hist: Box -> Histogram, c: Config, o: Oracles)
    returns (t: PlayerState, claim: set<Option<int>>)
    ensures Step(t, claim) == ReacquireStep(s, claimed, f, dets, hist, c, o)
  {
    t, claim := s, {};
    if s.currentTrackId.None? {
      if s.referenceHistogram.None? {
        var i := MatchBboxToDetections(s.lastBbox, dets, BootstrapIou);
        if i.Some? {
          var b := TruncBox(dets[i.value].bbox);
          t := Place(s, f, b).(currentTrackId := dets[i.value].trackId, referenceHistogram := Some(hist(b)));
          claim := {dets[i.value].trackId};
        }
      } else {
        var reference := s.referenceHistogram.value;
        var m := HybridRematch(s.lastBbox, reference, s.framesLost, dets, claimed, HybridOf(c), o, hist);
        if m.Match? {
          // `m.hist` is the extraction over `m.bbox` in this frame.
          var latest: Histogram := hist(m.bbox);
          t := Place(s, f, m.bbox).(currentTrackId := Some(m.trackId),
                                    referenceHistogram := Some(Ema(reference, latest, MinR(1.0, c.histogramEmaAlpha * 1.5))));
          claim := {Some(m.trackId)};
        } else if f >= c.selectionFrame {
          t := s.(framesLost := s.framesLost + 1, missingFrames := s.missingFrames + [f]);
        }
      }
    }
  }

  function ReacquirePass(start: Pass, f: nat, dets: seq<Detection>, hist: Box -> Histogram,
                         c: Config, o: Oracles, n: nat): (r: Pass)
    requires n <= |start.states|
    ensures |r.states| == |start.states|
    ensures forall j :: n <= j < |start.states| ==> r.states[j] == start.states[j]
  {
    if n == 0 then start
    else
      var prev := ReacquirePass(start, f, dets, hist, c, o, n - 1);
      var st := ReacquireStep(prev.states[n - 1], prev.claimed, f, dets, hist, c, o);
      Pass(prev.states[n - 1 := st.state], prev.claimed + st.claim)
  }

  /** One frame: pass 1 over every player from an empty claim set, then
      pass 2 over every player, in order, with the claims so far. */
  function FrameStep(states: seq<PlayerState>, f: nat, dets: seq<Detection>, hist: Box -> Histogram,
                     c: Config, o: Oracles): (r: seq<PlayerState>)
    ensures |r| == |states|
  {
    var p1 := ContinuityPass(states, f, dets, hist, c.histogramEmaAlpha, |states|);
    ReacquirePass(p1, f, dets, hist, c, o, |states|).states
  }

  /** Pass 1 as a loop over the players. */
  method RunContinuityPass(states: seq<PlayerState>, f: nat, dets: seq<Detection>, hist: Box -> Histogram, alpha: real)
    returns (r: Pass)
    ensures r == ContinuityPass(states, f, dets, hist, alpha, |states|)
  {
    r := Pass(states, {});
    var k := 0;
    while k < |states|
      invariant 0 <= k <= |states|
      invariant r == ContinuityPass(states, f, dets, hist, alpha, k)
    {
      var t, claim := ContinuityPlayer(r.states[k], f, dets, hist, alpha);
      r := Pass(r.states[k := t], r.claimed + claim);
      k := k + 1;
    }
  }

  /** Pass 2 as a loop over the players, carrying the claimed ids. */
  method RunReacquirePass(start: Pass, f: nat, dets: seq<Detection>, hist: Box -> Histogram, c: Config, o: Oracles)
    returns (r: Pass)
    ensures r == ReacquirePass(start, f, dets, hist, c, o, |start.states|)
  {
    r := start;
    var k := 0;
    while k < |start.states|
      invariant 0 <= k <= |start.states|
      invariant r == ReacquirePass(start, f, dets, hist, c, o, k)
    {
      var t, claim := ReacquirePlayer(r.states[k], r.claimed, f, dets, hist, c, o);
      r := Pass(r.states[k := t], r.claimed + claim);
      k := k + 1;
    }
  }

  // ---------------------------------------------------------------------
  // Per-player view of a frame

  /** Pass 1 touches each player once, with its own record only. */
  lemma {:induction false} ContinuityPassAt(states: seq<PlayerState>, f: nat, dets: seq<Detection>,
                                            hist: Box -> Histogram, alpha: real, n: nat, j: nat)
    requires j < n <= |states|
    ensures ContinuityPass(states, f, dets, hist, alpha, n).states[j] == ContinuityStep(states[j], f, dets, hist, alpha).state
  {
    if j < n - 1 {
      ContinuityPassAt(states, f, dets, hist, alpha, n - 1, j);
    }
  }

  /** Pass 2 touches each player once, with the claims made before it. */
  lemma {:induction false} ReacquirePassAt(start: Pass, f: nat, dets: seq<Detection>, hist: Box -> Histogram,
                                           c: Config, o: Oracles, n: nat, j: nat)
    requires j < n <= |start.states|
    ensures ReacquirePass(start, f, dets, hist, c, o, n).states[j]
      == ReacquireStep(start.states[j], ReacquirePass(start, f, dets, hist, c, o, j).claimed, f, dets, hist, c, o).state
  {
    if j < n - 1 {
      ReacquirePassAt(start, f, dets, hist, c, o, n - 1, j);
    }
  }

  /** Each player's record after a frame is its own pass-1 step followed by
      its own pass-2 step, given the ids claimed before it in pass 2. */
  lemma FrameStepPerPlayer(states: seq<PlayerState>, f: nat, dets: seq<Detection>, hist: Box -> Histogram,
                           c: Config, o: Oracles, j: nat)
    requires j < |states|
    ensures var p1 := ContinuityPass(states, f, dets, hist, c.histogramEmaAlpha, |states|);
      FrameStep(states, f, dets, hist, c, o)[j]
        == ReacquireStep(ContinuityStep(states[j], f, dets, hist, c.histogramEmaAlpha).state,
                         ReacquirePass(p1, f, dets, hist, c, o, j).claimed, f, dets, hist, c, o).state
  {
    var p1 := ContinuityPass(states, f, dets, hist, c.histogramEmaAlpha, |states|);
    ContinuityPassAt(states, f, dets, hist, c.histogramEmaAlpha, |states|, j);
    ReacquirePassAt(p1, f, dets, hist, c, o, |states|, j);
  }

  // ---------------------------------------------------------------------
  // Bookkeeping across frames

  /** What a record satisfies before frame `next`: the lost counter is not
      negative; every stored frame is earlier; the missing frames are
      strictly increasing, from the selection frame on, earlier, and never
      stored frames; and `max_bbox` is non-negative and covers every stored
      box. */
  ghost predicate Bookkeeping(s: PlayerState, next: nat, selectionFrame: int)
  {
    && s.framesLost >= 0
    && (forall k :: k in s.frames ==> k < next)
    && (forall i, j :: 0 <= i < j < |s.missingFrames| ==> s.missingFrames[i] < s.missingFrames[j])
    && (forall i :: 0 <= i < |s.missingFrames| ==> selectionFrame <= s.missingFrames[i] < next)
    && (forall i :: 0 <= i < |s.missingFrames| ==> s.missingFrames[i] !in s.frames)
    && 0.0 <= s.maxBbox.width && 0.0 <= s.maxBbox.height
    && (forall k :: k in s.frames ==> Width(s.frames[k]) <= s.maxBbox.width && Height(s.frames[k]) <= s.maxBbox.height)
  }

  /** How one frame may change a record apart from its lost counter: name
      and selection id are kept; stored frames are kept and at most the
      entry for `f` is added; the missing list is kept or gains `f`; and
      `max_bbox` never shrinks. */
  ghost predicate RecordChange(s: PlayerState, t: PlayerState, f: nat)
  {
    && t.name == s.name && t.selectionId == s.selectionId
    && (forall k :: k in s.frames ==> k in t.frames && t.frames[k] == s.frames[k])
    && (forall k :: k in t.frames ==> k in s.frames || k == f)
    && (t.missingFrames == s.missingFrames || t.missingFrames == s.missingFrames + [f])
    && s.maxBbox.width <= t.maxBbox.width && s.maxBbox.height <= t.maxBbox.height
  }

  /** A whole frame's change: as `RecordChange`, and the lost counter resets
      to 0 or rises by at most 2. */
  ghost predicate FrameChange(s: PlayerState, t: PlayerState, f: nat)
  {
    && RecordChange(s, t, f)
    && (t.framesLost == 0 || s.framesLost <= t.framesLost <= s.framesLost + 2)
  }

  lemma InitialBookkeeping(sel: Selection, selectionFrame: int)
    ensures Bookkeeping(InitialState(sel), 0, selectionFrame)
  {
  }

  lemma PlaceKeeps(s: PlayerState, f: nat, b: Box, selectionFrame: int)
    requires Bookkeeping(s, f, selectionFrame)
    ensures Bookkeeping(Place(s, f, b), f + 1, selectionFrame)
    ensures RecordChange(s, Place(s, f, b), f)
  {
    var t := Place(s, f, b);
    forall k | k in t.frames
      ensures Width(t.frames[k]) <= t.maxBbox.width && Height(t.frames[k]) <= t.maxBbox.height
    {
      if k != f {
        assert t.frames[k] == s.frames[k];
      }
    }
  }

  /** Logging frame `f` as missing keeps the bookkeeping. */
  lemma MissKeeps(s: PlayerState, f: nat, selectionFrame: int)
    requires Bookkeeping(s, f, selectionFrame) && f >= selectionFrame
    ensures var t := s.(framesLost := s.framesLost + 1, missingFrames := s.missingFrames + [f]);
      Bookkeeping(t, f + 1, selectionFrame) && RecordChange(s, t, f)
  {
  }

  /** Pass 1 keeps the bookkeeping: a player that found its track has its
      frame placed; otherwise the record only loses its id and gains at
      most one lost frame. */
  lemma ContinuityKeeps(s: PlayerState, f: nat, dets: seq<Detection>, hist: Box -> Histogram, alpha: real, selectionFrame: int)
    requires Bookkeeping(s, f, selectionFrame)
    ensures var m := ContinuityStep(s, f, dets, hist, alpha).state;
      && RecordChange(s, m, f)
      && (m.currentTrackId.Some? ==> Bookkeeping(m, f + 1, selectionFrame) && m.framesLost == 0)
      && (m.currentTrackId.None? ==>
            && Bookkeeping(m, f, selectionFrame)
            && m.frames == s.frames && m.missingFrames == s.missingFrames && m.maxBbox == s.maxBbox
            && s.framesLost <= m.framesLost <= s.framesLost + 1)
  {
    if s.currentTrackId.Some? {
      var i := FirstWithTrackId(dets, s.currentTrackId.value);
      if i.Some? {
        PlaceKeeps(s, f, TruncBox(dets[i.value].bbox), selectionFrame);
      }
    }
  }

  /** Pass 2 keeps the bookkeeping of a player without a track id, and its
      lost counter resets or rises by at most one. */
  lemma ReacquireKeeps(m: PlayerState, claimed: set<Option<int>>, f: nat, dets: seq<Detection>,
                       hist: Box -> Histogram, c: Config, o: Oracles)
    requires m.currentTrackId.None? && Bookkeeping(m, f, c.selectionFrame)
    ensures var t := ReacquireStep(m, claimed, f, dets, hist, c, o).state;
      && Bookkeeping(t, f + 1, c.selectionFrame) && RecordChange(m, t, f)
      && (t.framesLost == 0 || m.framesLost <= t.framesLost <= m.framesLost + 1)
  {
    if m.referenceHistogram.None? {
      var i := BestIou(m.lastBbox, dets, BootstrapIou);
      if i.Some? {
        PlaceKeeps(m, f, TruncBox(dets[i.value].bbox), c.selectionFrame);
      }
    } else {
      HybridKeeps(m, claimed, f, dets, hist, c, o);
    }
  }

  lemma HybridKeeps(m: PlayerState, claimed: set<Option<int>>, f: nat, dets: seq<Detection>,
                    hist: Box -> Histogram, c: Config, o: Oracles)
    requires m.referenceHistogram.Some? && Bookkeeping(m, f, c.selectionFrame)
    ensures var t := HybridStep(m, claimed, f, dets, hist, c, o).state;
      && Bookkeeping(t, f + 1, c.selectionFrame) && RecordChange(m, t, f)
      && (t.framesLost == 0 || m.framesLost <= t.framesLost <= m.framesLost + 1)
  {
    var reference := m.referenceHistogram.value;
    var r := RematchOf(dets, hist, BestHybrid(m.lastBbox, reference, m.framesLost, dets, claimed, HybridOf(c), o, hist));
    if r.Match? {
      PlaceKeeps(m, f, r.bbox, c.selectionFrame);
    } else if f >= c.selectionFrame {
      MissKeeps(m, f, c.selectionFrame);
    }
  }

  /** Pass 1 then pass 2 keeps a player's bookkeeping, whatever ids were
      claimed before it, and changes the record only as `FrameChange`
      allows. */
  lemma PlayerFrameKeeps(s: PlayerState, claimed: set<Option<int>>, f: nat, dets: seq<Detection>,
                         hist: Box -> Histogram, c: Config, o: Oracles)
    requires Bookkeeping(s, f, c.selectionFrame)
    ensures var t := ReacquireStep(ContinuityStep(s, f, dets, hist, c.histogramEmaAlpha).state,
                                   claimed, f, dets, hist, c, o).state;
      Bookkeeping(t, f + 1, c.selectionFrame) && FrameChange(s, t, f)
  {
    var m := ContinuityStep(s, f, dets, hist, c.histogramEmaAlpha).state;
    ContinuityKeeps(s, f, dets, hist, c.histogramEmaAlpha, c.selectionFrame);
    if m.currentTrackId.None? {
      ReacquireKeeps(m, claimed, f, dets, hist, c, o);
    }
  }

  /** Every player's bookkeeping survives a frame, and each record changes
      only as `FrameChange` allows. */
  lemma FrameStepKeeps(states: seq<PlayerState>, f: nat, dets: seq<Detection>, hist: Box -> Histogram,
                       c: Config, o: Oracles)
    requires forall j :: 0 <= j < |states| ==> Bookkeeping(states[j], f, c.selectionFrame)
    ensures var r := FrameStep(states, f, dets, hist, c, o);
      forall j :: 0 <= j < |states| ==> Bookkeeping(r[j], f + 1, c.selectionFrame) && FrameChange(states[j], r[j], f)
  {
    var p1 := ContinuityPass(states, f, dets, hist, c.histogramEmaAlpha, |states|);
    forall j | 0 <= j < |states|
      ensures Bookkeeping(FrameStep(states, f, dets, hist, c, o)[j], f + 1, c.selectionFrame)
      ensures FrameChange(states[j], FrameStep(states, f, dets, hist, c, o)[j], f)
    {
      FrameStepPerPlayer(states, f, dets, hist, c, o, j);
      PlayerFrameKeeps(states[j], ReacquirePass(p1, f, dets, hist, c, o, j).claimed, f, dets, hist, c, o);
    }
  }

  /** Every record keeps its bookkeeping before frame `next`. */
  ghost predicate AllKept(states: seq<PlayerState>, next: nat, selectionFrame: int)
  {
    forall j :: 0 <= j < |states| ==> Bookkeeping(states[j], next, selectionFrame)
  }

  /** The bookkeeping half of `FrameStepKeeps`, for induction over frames. */
  lemma FrameStepBookkeeping(states: seq<PlayerState>, f: nat, dets: seq<Detection>, hist: Box -> Histogram,
                             c: Config, o: Oracles)
    requires AllKept(states, f, c.selectionFrame)
    ensures AllKept(FrameStep(states, f, dets, hist, c, o), f + 1, c.selectionFrame)
  {
    FrameStepKeeps(states, f, dets, hist, c, o);
  }

  // ---------------------------------------------------------------------
  // Behaviour of single steps

  /** A bootstrap that finds no overlapping detection changes nothing: in
      particular neither `frames_lost` nor `missing_frames`. */
  lemma FailedBootstrapChangesNothing(s: PlayerState, claimed: set<Option<int>>, f: nat, dets: seq<Detection>,
                                      hist: Box -> Histogram, c: Config, o: Oracles)
    requires s.currentTrackId.None? && s.referenceHistogram.None?
    requires BestIou(s.lastBbox, dets, BootstrapIou).None?
    ensures ReacquireStep(s, claimed, f, dets, hist, c, o) == Step(s, {})
  {
  }

  /** Bootstrap adopts the id of the best-overlapping detection even when
      that detection has no id, so the player stays without one. */
  lemma BootstrapMayAdoptNoId(hist: Box -> Histogram, c: Config, o: Oracles)
    ensures var s := InitialState(Selection("A", 1, Box(0.0, 0.0, 10.0, 10.0)));
      var t := ReacquireStep(s, {}, 0, [Detection(Box(0.0, 0.0, 10.0, 10.0), None)], hist, c, o);
      t.state.currentTrackId.None? && t.state.referenceHistogram.Some? && 0 in t.state.frames && t.claim == {None}
  {
    var b := Box(0.0, 0.0, 10.0, 10.0);
    var dets := [Detection(b, None)];
    IouSelf(b);
    assert BestIouUpTo(b, dets, BootstrapIou, 1) == Some(0);
  }

  /** Bootstrap ignores the ids claimed this frame: a claimed id is
      adopted again. */
  lemma BootstrapIgnoresClaims(hist: Box -> Histogram, c: Config, o: Oracles)
    ensures var s := InitialState(Selection("A", 1, Box(0.0, 0.0, 10.0, 10.0)));
      var t := ReacquireStep(s, {Some(4)}, 0, [Detection(Box(0.0, 0.0, 10.0, 10.0), Some(4))], hist, c, o);
      t.state.currentTrackId == Some(4)
  {
    var b := Box(0.0, 0.0, 10.0, 10.0);
    var dets := [Detection(b, Some(4))];
    IouSelf(b);
    assert BestIouUpTo(b, dets, BootstrapIou, 1) == Some(0);
  }

  /** A hybrid re-match never takes an id claimed earlier in the frame; it
      resets the lost counter, stores the frame and moves the histogram
      with weight `min(1, 1.5 alpha)`. */
  lemma HybridSuccess(s: PlayerState, claimed: set<Option<int>>, f: nat, dets: seq<Detection>,
                      hist: Box -> Histogram, c: Config, o: Oracles)
    requires s.currentTrackId.None? && s.referenceHistogram.Some?
    ensures var t := ReacquireStep(s, claimed, f, dets, hist, c, o).state;
      t.currentTrackId.Some? ==>
        && t.currentTrackId !in claimed
        && t.framesLost == 0
        && f in t.frames && t.frames[f] == t.lastBbox
        && t.referenceHistogram
             == Some(Ema(s.referenceHistogram.value, hist(t.lastBbox), MinR(1.0, c.histogramEmaAlpha * 1.5)))
  {
    var reference := s.referenceHistogram.value;
    var best := BestHybrid(s.lastBbox, reference, s.framesLost, dets, claimed, HybridOf(c), o, hist);
    if best.Some? {
      var d := dets[best.value];
      assert CandidateScore(s.lastBbox, reference, s.framesLost, d, claimed, HybridOf(c), o, hist).Some?;
      assert d.trackId !in claimed;
    }
  }

  /** A failed hybrid re-match from the selection frame on counts one more
      lost frame and logs the frame as missing; before it, nothing changes. */
  lemma HybridFailure(s: PlayerState, claimed: set<Option<int>>, f: nat, dets: seq<Detection>,
                      hist: Box -> Histogram, c: Config, o: Oracles)
    requires s.currentTrackId.None? && s.referenceHistogram.Some?
    requires BestHybrid(s.lastBbox, s.referenceHistogram.value, s.framesLost, dets, claimed, HybridOf(c), o, hist).None?
    ensures var t := ReacquireStep(s, claimed, f, dets, hist, c, o).state;
      && (f >= c.selectionFrame ==> t == s.(framesLost := s.framesLost + 1, missingFrames := s.missingFrames + [f]))
      && (f < c.selectionFrame ==> t == s)
  {
  }

  /** A player that loses its track in pass 1 and then fails the hybrid
      re-match gains two lost frames in one frame. */
  lemma LostTwiceInOneFrame(h: Histogram, hist: Box -> Histogram, c: Config, o: Oracles)
    requires c.selectionFrame <= 5
    ensures var s := PlayerState("A", 1, Some(7), Box(0.0, 0.0, 10.0, 10.0), Some(h), 3, map[], Size(0.0, 0.0), []);
      var t := FrameStep([s], 5, [], hist, c, o)[0];
      t.framesLost == 5 && t.missingFrames == [5] && t.currentTrackId.None?
  {
    var s := PlayerState("A", 1, Some(7), Box(0.0, 0.0, 10.0, 10.0), Some(h), 3, map[], Size(0.0, 0.0), []);
    FrameStepPerPlayer([s], 5, [], hist, c, o, 0);
    var m := ContinuityStep(s, 5, [], hist, c.histogramEmaAlpha).state;
    assert m == s.(currentTrackId := None, framesLost := 4);
  }

  // ---------------------------------------------------------------------
  // The tracker object

  class Tracker {
    var states: seq<PlayerState>
    var frameIdx: nat
    const config: Config
    const oracles: Oracles

    ghost predicate Valid()
      reads this
    {
      AllKept(states, frameIdx, config.selectionFrame)
    }

    /** One record per selected player, in selection order, before frame 0. */
    constructor(selections: seq<Selection>, config: Config, oracles: Oracles)
      ensures states == InitialStates(selections) && frameIdx == 0
      ensures this.config == config && this.oracles == oracles
      ensures Valid()
    {
      states := InitialStates(selections);
      frameIdx := 0;
      this.config := config;
      this.oracles := oracles;
    }

    /** The body of the frame loop for one frame. */
    method ProcessFrame(dets: seq<Detection>, hist: Box -> Histogram)
      requires Valid()
      modifies this
      ensures states == FrameStep(old(states), old(frameIdx), dets, hist, config, oracles)
      ensures frameIdx == old(frameIdx) + 1
      ensures Valid()
    {
      var afterContinuity := RunContinuityPass(states, frameIdx, dets, hist, config.histogramEmaAlpha);
      var afterReacquire := RunReacquirePass(afterContinuity, frameIdx, dets, hist, config, oracles);
      FrameStepBookkeeping(states, frameIdx, dets, hist, config, oracles);
      states := afterReacquire.states;
      frameIdx := frameIdx + 1;
    }
  }

  // ---------------------------------------------------------------------
  // The whole video and the report

  /** What the loop reads for one frame: the detections and the histogram
      extraction over the frame's pixels. */
  datatype FrameInput = FrameInput(dets: seq<Detection>, hist: Box -> Histogram)

  /** The records after the first `n` frames. */
  function RunUpTo(states: seq<PlayerState>, inputs: seq<FrameInput>, c: Config, o: Oracles, n: nat): (r: seq<PlayerState>)
    requires n <= |inputs|
    ensures |r| == |states|
  {
    if n == 0 then states
    else FrameStep(RunUpTo(states, inputs, c, o, n - 1), n - 1, inputs[n - 1].dets, inputs[n - 1].hist, c, o)
  }

  /** How many frames the loop reads: all of them, or up to `max_frames`
      when one is given (none when it is not positive). */
  function FramesToProcess(available: nat, maxFrames: Option<int>): (n: nat)
    ensures n <= available
    ensures maxFrames.None? ==> n == available
    ensures maxFrames.Some? ==> n == MinI(available, MaxI(0, maxFrames.value))
  {
    if maxFrames.Some? then MinI(available, MaxI(0, maxFrames.value)) else available
  }

  /** One entry of `selected_players` in the result. */
  datatype PlayerReport = PlayerReport(
    name: string,
    selectionId: int,
    frames: map<nat, Box>,
    maxWidth: int,
    maxHeight: int,
    outputWidth: int,
    outputHeight: int,
    frameCount: nat,
    missingFrames: seq<nat>)

  /** `int(m * 1.2)`. */
  function PaddedDimension(m: real): int
  {
    Trunc(m * 1.2)
  }

  /** The report of one record: the fixed output size when one is given,
      otherwise `max_bbox` grown by 20% and truncated. */
  function Finalise(s: PlayerState, fixedSize: Option<(int, int)>): (r: PlayerReport)
    ensures r.name == s.name && r.selectionId == s.selectionId
    ensures r.frames == s.frames && r.frameCount == |s.frames| && r.missingFrames == s.missingFrames
    ensures fixedSize.Some? ==> (r.outputWidth, r.outputHeight) == fixedSize.value
    ensures fixedSize.None? ==>
      r.outputWidth == PaddedDimension(s.maxBbox.width) && r.outputHeight == PaddedDimension(s.maxBbox.height)
    ensures r.maxWidth == Trunc(s.maxBbox.width) && r.maxHeight == Trunc(s.maxBbox.height)
  {
    var size := if fixedSize.Some? then fixedSize.value
                else (PaddedDimension(s.maxBbox.width), PaddedDimension(s.maxBbox.height));
    PlayerReport(s.name, s.selectionId, s.frames, Trunc(s.maxBbox.width), Trunc(s.maxBbox.height),
                 size.0, size.1, |s.frames|, s.missingFrames)
  }

  /** Without a fixed size the output dimension is `6m/5` rounded down, and
      never smaller than the truncated maximum. */
  lemma PaddedDimensionBounds(m: real)
    requires m >= 0.0
    ensures var v := PaddedDimension(m);
      5 * v <= 6 * m.Floor + 5 && 5.0 * v as real <= 6.0 * m < 5.0 * (v + 1) as real && Trunc(m) <= v
  {
    var v := PaddedDimension(m);
    assert v as real <= m * 1.2 < v as real + 1.0;
    assert m.Floor as real <= m;
  }

  /** Without a fixed size a report's output size is its player's maximum
      box grown by 20% and rounded down, so it is never smaller than the
      reported maximum box. */
  lemma FinaliseOutputSize(s: PlayerState)
    requires 0.0 <= s.maxBbox.width && 0.0 <= s.maxBbox.height
    ensures var r := Finalise(s, None);
      && 5.0 * r.outputWidth as real <= 6.0 * s.maxBbox.width < 5.0 * (r.outputWidth + 1) as real
      && 5.0 * r.outputHeight as real <= 6.0 * s.maxBbox.height < 5.0 * (r.outputHeight + 1) as real
      && r.maxWidth <= r.outputWidth && r.maxHeight <= r.outputHeight
  {
    PaddedDimensionBounds(s.maxBbox.width);
    PaddedDimensionBounds(s.maxBbox.height);
  }

  /** A report drawn from a record that kept its bookkeeping for `n` frames:
      stored frames are earlier than `n`; the missing frames are strictly
      increasing, in `[selection_frame, n)` and never stored; the maximum
      box covers every stored box. */
  lemma ReportFacts(s: PlayerState, n: nat, selectionFrame: int, fixedSize: Option<(int, int)>)
    requires Bookkeeping(s, n, selectionFrame)
    ensures var r := Finalise(s, fixedSize);
      && (forall k :: k in r.frames ==> k < n)
      && (forall i, j :: 0 <= i < j < |r.missingFrames| ==> r.missingFrames[i] < r.missingFrames[j])
      && (forall i :: 0 <= i < |r.missingFrames| ==> selectionFrame <= r.missingFrames[i] < n && r.missingFrames[i] !in r.frames)
      && (forall k :: k in r.frames ==> Trunc(Width(r.frames[k])) <= r.maxWidth && Trunc(Height(r.frames[k])) <= r.maxHeight)
      && 0 <= r.maxWidth && 0 <= r.maxHeight
  {
    forall k | k in s.frames
      ensures Trunc(Width(s.frames[k])) <= Trunc(s.maxBbox.width)
      ensures Trunc(Height(s.frames[k])) <= Trunc(s.maxBbox.height)
    {
      TruncMonotone(Width(s.frames[k]), s.maxBbox.width);
      TruncMonotone(Height(s.frames[k]), s.maxBbox.height);
    }
  }

  function Reports(states: seq<PlayerState>, fixedSize: Option<(int, int)>): (r: seq<PlayerReport>)
    ensures |r| == |states|
    ensures forall j :: 0 <= j < |states| ==> r[j] == Finalise(states[j], fixedSize)
  {
    seq(|states|, j requires 0 <= j < |states| => Finalise(states[j], fixedSize))
  }

  /** The post-processing loop: one report per record, in order. */
  method BuildReports(states: seq<PlayerState>, fixedSize: Option<(int, int)>) returns (reports: seq<PlayerReport>)
    ensures reports == Reports(states, fixedSize)
  {
    reports := [];
    var j := 0;
    while j < |states|
      invariant 0 <= j <= |states|
      invariant reports == Reports(states[..j], fixedSize)
    {
      assert states[..j + 1] == states[..j] + [states[j]];
      reports := reports + [Finalise(states[j], fixedSize)];
      j := j + 1;
    }
    assert states[..|states|] == states;
  }

  /** One pass of the frame loop: the next frame's input is processed. */
  method AdvanceFrame(tracker: Tracker, inputs: seq<FrameInput>, ghost initial: seq<PlayerState>)
    requires tracker.Valid() && tracker.frameIdx < |inputs|
    requires tracker.states == RunUpTo(initial, inputs, tracker.config, tracker.oracles, tracker.frameIdx)
    modifies tracker
    ensures tracker.Valid() && tracker.frameIdx == old(tracker.frameIdx) + 1
    ensures tracker.states == RunUpTo(initial, inputs, tracker.config, tracker.oracles, tracker.frameIdx)
  {
    var k := tracker.frameIdx;
    tracker.ProcessFrame(inputs[k].dets, inputs[k].hist);
  }

  /** The frame loop: read frames until the input ends or `max_frames` is
      reached. */
  method RunFrames(tracker: Tracker, inputs: seq<FrameInput>, maxFrames: Option<int>)
    requires tracker.Valid() && tracker.frameIdx == 0
    modifies tracker
    ensures tracker.states == RunUpTo(old(tracker.states), inputs, tracker.config, tracker.oracles,
                                      FramesToProcess(|inputs|, maxFrames))
    ensures tracker.frameIdx == FramesToProcess(|inputs|, maxFrames)
    ensures tracker.Valid()
  {
    ghost var initial := tracker.states;
    ghost var n := FramesToProcess(|inputs|, maxFrames);
    while tracker.frameIdx < |inputs|
      invariant tracker.frameIdx <= n
      invariant tracker.states == RunUpTo(initial, inputs, tracker.config, tracker.oracles, tracker.frameIdx)
      invariant tracker.Valid()
      decreases |inputs| - tracker.frameIdx
    {
      if maxFrames.Some? && tracker.frameIdx >= maxFrames.value {
        assert tracker.frameIdx == n;
        break;
      }
      AdvanceFrame(tracker, inputs, initial);
    }
    assert tracker.frameIdx == n;
  }

  /** `run_selective_tracking` past its I/O: one record per selection, the
      frame loop, then one report per player in selection order. */
  method RunSelectiveTracking(selections: seq<Selection>, inputs: seq<FrameInput>, c: Config, o: Oracles,
                              maxFrames: Option<int>, fixedSize: Option<(int, int)>)
    returns (reports: seq<PlayerReport>)
    ensures var n := FramesToProcess(|inputs|, maxFrames);
      reports == Reports(RunUpTo(InitialStates(selections), inputs, c, o, n), fixedSize)
  {
    var tracker := new Tracker(selections, c, o);
    RunFrames(tracker, inputs, maxFrames);
    reports := BuildReports(tracker.states, fixedSize);
  }
}
