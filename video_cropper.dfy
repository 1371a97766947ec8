/** The per-person video cropper: a fixed-size window centred on a box is cut
    out of a frame into a black buffer (`crop_and_pad_frame`), black frames
    stand in for missing detections (`create_black_frame`), and the tracks
    to crop are selected by their frame count (`crop_person_videos`). */
module VideoCropper {
  import opened Wrappers
  import opened Numeric
  import opened Geometry

  /** One BGR pixel. */
  datatype Pixel = Pixel(b: int, g: int, r: int)

  const Black := Pixel(0, 0, 0)

  /** A half-open integer rectangle `[x1, x2) x [y1, y2)`. */
  datatype Rect = Rect(x1: int, y1: int, x2: int, y2: int)

  predicate Contains(r: Rect, x: int, y: int)
  {
    r.x1 <= x < r.x2 && r.y1 <= y < r.y2
  }

  predicate IsEmpty(r: Rect)
  {
    r.x2 <= r.x1 || r.y2 <= r.y1
  }

  /** The `out_w x out_h` crop window: its top-left corner is the centre of
      the truncated box minus half the output size, both by floor division. */
  function OutputWindow(b: Box, outW: nat, outH: nat): (w: Rect)
    ensures w.x2 - w.x1 == outW && w.y2 - w.y1 == outH
    ensures (w.x1 + w.x2) / 2 == (Trunc(b.x1) + Trunc(b.x2)) / 2
    ensures (w.y1 + w.y2) / 2 == (Trunc(b.y1) + Trunc(b.y2)) / 2
  {
    var centreX := (Trunc(b.x1) + Trunc(b.x2)) / 2;
    var centreY := (Trunc(b.y1) + Trunc(b.y2)) / 2;
    var x1 := centreX - outW / 2;
    var y1 := centreY - outH / 2;
    Rect(x1, y1, x1 + outW, y1 + outH)
  }

  /** The part of the window that lies inside a `frameW x frameH` frame. */
  function SourceRect(frameW: nat, frameH: nat, w: Rect): (s: Rect)
    ensures 0 <= s.x1 && 0 <= s.y1 && s.x2 <= frameW && s.y2 <= frameH
    ensures w.x1 <= s.x1 && w.y1 <= s.y1 && s.x2 <= w.x2 && s.y2 <= w.y2
  {
    Rect(MaxI(0, w.x1), MaxI(0, w.y1), MinI(frameW, w.x2), MinI(frameH, w.y2))
  }

  /** Where the source rectangle lands in the output buffer. */
  function DestRect(w: Rect, s: Rect): Rect
  {
    Rect(s.x1 - w.x1, s.y1 - w.y1, s.x1 - w.x1 + (s.x2 - s.x1), s.y1 - w.y1 + (s.y2 - s.y1))
  }

  /** A pixel of the window is copied exactly when it lies in the frame. */
  lemma SourceRectIsOverlap(frameW: nat, frameH: nat, w: Rect, x: int, y: int)
    ensures Contains(SourceRect(frameW, frameH, w), x, y)
        <==> (Contains(w, x, y) && 0 <= x < frameW && 0 <= y < frameH)
  {
  }

  /** When something is copied, the destination lies inside the output
      buffer and has the same size as the source. */
  lemma CopyRectsAgree(frameW: nat, frameH: nat, b: Box, outW: nat, outH: nat)
    ensures var w := OutputWindow(b, outW, outH);
      var s := SourceRect(frameW, frameH, w);
      var d := DestRect(w, s);
      !IsEmpty(s) ==>
        && 0 <= d.x1 < d.x2 <= outW && 0 <= d.y1 < d.y2 <= outH
        && d.x2 - d.x1 == s.x2 - s.x1 && d.y2 - d.y1 == s.y2 - s.y1
  {
  }

  /** The pixel at row `y`, column `x` of `frame`, black outside it. */
  function PixelAt(frame: array2<Pixel>, y: int, x: int): Pixel
    reads frame
  {
    if 0 <= y < frame.Length0 && 0 <= x < frame.Length1 then frame[y, x] else Black
  }

  /** `create_black_frame`: a fresh all-black `outH x outW` buffer. */
  method CreateBlackFrame(outW: nat, outH: nat) returns (out: array2<Pixel>)
    ensures fresh(out)
    ensures out.Length0 == outH && out.Length1 == outW
    ensures forall i, j :: 0 <= i < outH && 0 <= j < outW ==> out[i, j] == Black
  {
    out := new Pixel[outH, outW]((i, j) => Black);
  }

  /** `crop_and_pad_frame`: output pixel `(i, j)` is the frame pixel at
      `(window.y1 + i, window.x1 + j)` when that lies in the frame, and black
      otherwise. The frame is left unchanged. */
  method CropAndPadFrame(frame: array2<Pixel>, b: Box, outW: nat, outH: nat) returns (out: array2<Pixel>)
    ensures fresh(out)
    ensures out.Length0 == outH && out.Length1 == outW
    ensures var w := OutputWindow(b, outW, outH);
      forall i, j :: 0 <= i < outH && 0 <= j < outW ==> out[i, j] == PixelAt(frame, w.y1 + i, w.x1 + j)
  {
    var w := OutputWindow(b, outW, outH);
    out := CreateBlackFrame(outW, outH);
    var s := SourceRect(frame.Length1, frame.Length0, w);
    var d := DestRect(w, s);
    if !IsEmpty(s) {
      var i := d.y1;
      while i < d.y2
        invariant d.y1 <= i <= d.y2
        invariant forall r, c :: 0 <= r < outH && 0 <= c < outW ==>
          out[r, c] == (if d.y1 <= r < i && d.x1 <= c < d.x2 then PixelAt(frame, w.y1 + r, w.x1 + c) else Black)
      {
        var j := d.x1;
        while j < d.x2
          invariant d.x1 <= j <= d.x2
          invariant forall r, c :: 0 <= r < outH && 0 <= c < outW ==>
            out[r, c] == (if (d.y1 <= r < i && d.x1 <= c < d.x2) || (r == i && d.x1 <= c < j)
                          then PixelAt(frame, w.y1 + r, w.x1 + c) else Black)
        {
          out[i, j] := frame[w.y1 + i, w.x1 + j];
          j := j + 1;
        }
        i := i + 1;
      }
    }
    forall r, c | 0 <= r < outH && 0 <= c < outW
      ensures out[r, c] == PixelAt(frame, w.y1 + r, w.x1 + c)
    {
      SourceRectIsOverlap(frame.Length1, frame.Length0, w, w.x1 + c, w.y1 + r);
    }
  }

  /** A track of the tracking data: its boxes keyed by the decimal frame
      index, as the JSON file stores them. */
  datatype TrackRecord = TrackRecord(frames: map<string, Box>)

  datatype FilterError =
    | EmptyTrackingData
    | NoTrackPassesFilter(minFrames: int)

  /** The tracks with at least `minFrames` frames. */
  function LongTracks(all: map<string, TrackRecord>, minFrames: int): (kept: map<string, TrackRecord>)
    ensures forall tid :: tid in kept <==> tid in all && |all[tid].frames| >= minFrames
    ensures forall tid :: tid in kept ==> kept[tid] == all[tid]
  {
    map tid | tid in all && |all[tid].frames| >= minFrames :: all[tid]
  }

  /** The track selection of `crop_person_videos`: missing or empty tracks
      are an error; a positive `min_frames` keeps exactly the tracks with at
      least that many frames, otherwise every track is kept; an empty
      selection is an error. */
  function FilterTracks(tracks: Option<map<string, TrackRecord>>, minFrames: int): (r: Result<map<string, TrackRecord>, FilterError>)
    ensures (tracks.None? || tracks.value == map[]) <==> r == Err(EmptyTrackingData)
    ensures r.Ok? ==> r.value != map[]
    ensures r.Ok? ==> forall tid :: tid in r.value ==> tid in tracks.value && r.value[tid] == tracks.value[tid]
    ensures r.Ok? && minFrames <= 0 ==> r.value == tracks.value
    ensures tracks.Some? && minFrames > 0 ==>
      forall tid :: tid in tracks.value ==>
        (|tracks.value[tid].frames| >= minFrames <==> (r.Ok? && tid in r.value))
  {
    if tracks.None? || tracks.value == map[] then Err(EmptyTrackingData)
    else
      var all := tracks.value;
      var kept := if minFrames > 0 then LongTracks(all, minFrames) else all;
      if kept.Keys == {} then Err(NoTrackPassesFilter(minFrames)) else Ok(kept)
  }

  /** With a positive threshold that no track reaches the filter fails
      with its own error, not the empty-data one. */
  lemma FilterTracksFixture()
    ensures var t := map["1" := TrackRecord(map["0" := Box(0.0, 0.0, 1.0, 1.0)]),
                         "2" := TrackRecord(map["0" := Box(0.0, 0.0, 1.0, 1.0), "1" := Box(0.0, 0.0, 1.0, 1.0)])];
      && FilterTracks(Some(t), 2) == Ok(map["2" := t["2"]])
      && FilterTracks(Some(t), 3) == Err(NoTrackPassesFilter(3))
      && FilterTracks(Some(t), 0) == Ok(t)
  {
    var t := map["1" := TrackRecord(map["0" := Box(0.0, 0.0, 1.0, 1.0)]),
                 "2" := TrackRecord(map["0" := Box(0.0, 0.0, 1.0, 1.0), "1" := Box(0.0, 0.0, 1.0, 1.0)])];
    assert |t["1"].frames| == 1;
    assert |t["2"].frames| == 2;
    var k := FilterTracks(Some(t), 2);
    assert k.Ok? && "2" in k.value;
    assert k.value.Keys == {"2"};
    assert k.value == map["2" := t["2"]];
  }
}
