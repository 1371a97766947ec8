# Pickleball player tracking — a verified model

This project models the service layer of a pickleball video tool in Dafny. The tool follows chosen players through a match video, crops a video per player and crops the video to the court. The model covers the following parts:

- **Colour histograms** (`ColorHistogram`). The tracker crops each player's box, grown by a padding and clipped to the frame. It keeps the centre region of the crop and blends reference histograms with an exponential moving average.
- **Matching detections to players** (`TrackerMatching`). This covers intersection over union and the best-overlap match used to adopt a track id. It also covers the hybrid re-acquisition score, which combines histogram correlation and distance inside a search radius.
- **The selective tracker** (`SelectiveTracker`). One record is kept per selected player. Each frame runs a continuity pass, which follows the current track id, then a re-acquisition pass for lost players. The records are then turned into the tracking report. The per-frame work is a function `FrameStep`, and the class `Tracker` processes frames by reassigning its records.
- **Person tracker sizes** (`PersonTracker`). This is the largest box of a track and the padded, even output size.
- **Per-player video cropping** (`VideoCropper`, `NamedVideoCropper`). A frame is cut and padded to a fixed window, black frames fill gaps, and short tracks are filtered out. Player names are sanitised into file names, and duplicate names get numeric suffixes.
- **Player selection** (`PlayerSelectorTerminal`, `PlayerSelectorGui`). The terminal path parses typed ids and builds the selection record. The GUI toggles a selection on click, navigates frames and builds the result.
- **Court tools** (`CourtCoordinates`, `CourtCropper`). The coordinate picker collects, undoes and saves labelled court points. The cropper computes the court crop box and slices every frame to it.

Shared modules: `Wrappers` (Option/Result), `Numeric` (Python's `int()`, `math.ceil` and slice arithmetic), `Geometry` (boxes) and `Text` (decimal rendering and whitespace stripping).

Video decoding, the detector and OpenCV's numerics are outside the model. Where the code depends on their results, they are parameters:

- the detections of a frame;
- the histogram of a box;
- histogram correlation;
- Euclidean distance;
- character classes and Unicode folding for file names.

Floating-point values are exact rationals (`real`). Python's truncating `int()`, floor division and negative slice bounds are written out explicitly.

Where the design description and the code disagree, the model follows the code:

- **Lost-frame counter.** A player lost in the continuity pass and not recovered by the hybrid search in the same frame has `frames_lost` raised twice in that frame (`SelectiveTracker.LostTwiceInOneFrame`).
- **Re-acquisition loop.** The re-acquisition pass is one interleaved loop over players, in the code's order. Bootstrap uses a fixed 0.3 overlap threshold, ignores ids already claimed this frame, and may adopt a detection without a track id.
- **Computed output size.** When no `fixed_output_size` is given, the tracker computes each output dimension as `int(1.2 * max)`, with no ceiling and no rounding to even (`SelectiveTracker.Finalise`, `SelectiveTracker.FinaliseOutputSize`). Only the person tracker rounds up to even.
- **Negative boxes.** A box left of the frame wraps through Python's negative slicing (`ColorHistogram.CropOfBoxLeftOfFrame`, `CourtCropper.InvertedBoxWraps`).
- **Frame count.** When the reported frame count is not positive, the named cropper still processes one frame if the video yields any (`NamedVideoCropper.FramesProcessed`).
- **Stale GUI selection.** The GUI keeps its selection when the frame changes, so an index chosen on another frame can make the result lookup fail (`PlayerSelectorGui.StaleSelectionFails`).

## Model

| member | source | states |
|---|---|---|
| ColorHistogram.CropWindow | app/service/color_histogram.py:25-40 | the integer slice bounds of a box's crop window never start before 0 and never end past the frame width or height, with or without padding |
| ColorHistogram.Growth | app/service/color_histogram.py:28-35 | the window grows by nothing unless padding is positive, and never shrinks for a box of non-negative extent |
| ColorHistogram.CropRegion | app/service/color_histogram.py:42 | after Python slicing the cropped rows and columns form a (possibly empty) range inside the frame |
| ColorHistogram.CropClampsToFrame | app/service/color_histogram.py:36-42 | without padding, an integral box whose far corner is not negative crops exactly its part inside [0, w] x [0, h] |
| ColorHistogram.CropFixtures | tests/test_color_histogram.py:69-90 | box 30..70 x 20..80 in a 100 x 100 frame crops 60 rows by 40 columns; box (-10, -10, 50, 50) crops 50 x 50 |
| ColorHistogram.CropOfBoxLeftOfFrame | app/service/color_histogram.py:39-42 | a box wholly left of the frame gets a negative slice stop that wraps from the right edge, so its crop is not empty |
| ColorHistogram.PaddingWidensWindow | app/service/color_histogram.py:31-40 | positive padding gives a window that contains the unpadded window of the same box |
| ColorHistogram.ExtractColorHistogram | app/service/color_histogram.py:63-96 | an empty crop gives bins_h + bins_s zeros; otherwise the hue bins then the saturation bins, each clipped to [0, 1]; every entry lies in [0, 1] |
| ColorHistogram.HistogramLength | app/service/color_histogram.py:61-95 | when OpenCV yields one value per bin the histogram has bins_h + bins_s entries for every crop |
| ColorHistogram.CentreRegion | app/service/color_histogram.py:72-78 | the margins int(cw * 0.2) and int(ch * 0.1) are the integer quotients cw // 5 and ch // 10 |
| ColorHistogram.CentreRegionInsideCrop | app/service/color_histogram.py:72-80 | for a non-empty crop the centre region is a non-empty window inside it: 0 <= x1 < x2 <= cw and 0 <= y1 < y2 <= ch |
| ColorHistogram.Ema | app/service/color_histogram.py:138 | the moving average keeps the histogram length |
| ColorHistogram.EmaWithZeroAlpha | app/service/color_histogram.py:138 | alpha 0 returns the reference histogram unchanged |
| ColorHistogram.EmaWithUnitAlpha | app/service/color_histogram.py:138 | alpha 1 returns the new histogram |
| ColorHistogram.EmaStaysInUnitRange | app/service/color_histogram.py:138 | for alpha in [0, 1] and both histograms in [0, 1], every entry of the average stays in [0, 1] |
| ColorHistogram.EmaFixture | tests/test_color_histogram.py:57-66 | [1, 0] moved towards [0, 1] with alpha 0.2 gives [0.8, 0.2] |
| TrackerMatching.IouDefinition | app/service/selective_tracker.py:31-41 | a union that is not positive gives IOU 0; otherwise the IOU times the union is the overlap area |
| TrackerMatching.IouInUnitRange | app/service/selective_tracker.py:29-41 | for two boxes of positive extent the union is positive and the IOU lies in [0, 1] |
| TrackerMatching.IouSelf | tests/test_selective_tracker.py:5-8 | a well-formed box has IOU 1 with itself |
| TrackerMatching.IouDisjoint | tests/test_selective_tracker.py:10-12 | boxes separated along either axis have IOU 0 |
| TrackerMatching.IouHalfOffsetSquares | tests/test_selective_tracker.py:14-20 | [0,0,100,100] against [50,50,150,150] has IOU exactly 2500/17500 |
| TrackerMatching.BestIouUpTo | app/service/selective_tracker.py:60-73 | the running choice after n detections is either none or one of those n detections |
| TrackerMatching.BestIouUpToIsBest | app/service/selective_tracker.py:60-75 | the scan's choice is none exactly when no IOU is both positive and at the threshold, and otherwise an index whose IOU reaches the threshold, is positive, is at least every IOU and beats every earlier one strictly |
| TrackerMatching.BestIouMatchUnique | app/service/selective_tracker.py:60-75 | at most one answer satisfies that selection rule, so the rule fixes the result |
| TrackerMatching.MatchBboxToDetections | app/service/selective_tracker.py:44-75 | the loop returns the index the selection rule chooses (earliest among maximal IOUs at the threshold), or none |
| TrackerMatching.MatchFixture | tests/test_selective_tracker.py:23-37 | against [100,100,200,200] the second detection is chosen at threshold 0.3 and none at 0.8 |
| TrackerMatching.BestHybridUpTo | app/service/selective_tracker.py:130-172 | the running choice after n detections is none or one of them that is a candidate (has an unclaimed id and lies within the radius) |
| TrackerMatching.BestHybridUpToIsBest | app/service/selective_tracker.py:127-181 | the re-match chooses nothing exactly when no candidate's score is positive and at the similarity threshold, and otherwise the earliest candidate of maximal score, which reaches the threshold and is positive |
| TrackerMatching.RematchOf | app/service/selective_tracker.py:172-181 | a match carries the chosen detection's own track id, its untruncated box and the histogram of that box; no choice gives (None, None, None) |
| TrackerMatching.ScoreDetection | app/service/selective_tracker.py:131-168 | one loop step skips a detection without id or with a claimed id or beyond min(base_speed * frames_lost, max_distance_cap), and otherwise scores it as distance_weight * (1 - d/R, or 1 when R <= 0) + histogram_weight * (corr + 1)/2 |
| TrackerMatching.HybridRematch | app/service/selective_tracker.py:78-181 | the loop returns the best-candidate choice; a match never carries a missing or already claimed track id and never lies farther from the last centre than the search radius |
| TrackerMatching.CandidateWithinRadius | app/service/selective_tracker.py:121-149 | with a true Euclidean distance, every candidate's squared centre offset is at most the squared search radius, and its id is present and unclaimed |
| TrackerMatching.CandidateScoreBounds | app/service/selective_tracker.py:156-168 | with correlation in [-1, 1] and non-negative weights, a candidate's score lies in [0, distance_weight + histogram_weight] |
| SelectiveTracker.InitialState | app/service/selective_tracker.py:249-259 | a new record keeps the selection's name, id and initial box, holds no track id and no histogram, and starts with no lost frames, no stored frames, no missing frames and a 0 x 0 maximum box |
| SelectiveTracker.InitialStates | app/service/selective_tracker.py:247-259 | one record per selected player, in selection order |
| SelectiveTracker.FirstWithTrackIdUpTo | app/service/selective_tracker.py:291-321 | the pass-1 scan finds the first detection carrying the player's id, and finds none only when no detection carries it |
| SelectiveTracker.FindTrack | app/service/selective_tracker.py:291-321 | the loop that breaks at the first detection with the player's id returns that first one |
| SelectiveTracker.ContinuityOutcome | app/service/selective_tracker.py:289-325 | on a hit the player keeps its id, name and selection id, stores the truncated box for this frame as frame entry and last box, resets the lost counter, grows max_bbox by the box, moves an existing histogram to the EMA with weight alpha towards the box's histogram (no histogram stays none), keeps its missing list and claims its id; on a miss no detection has the id, and only the id (dropped) and the lost counter (plus exactly one) change |
| SelectiveTracker.ContinuityPlayer | app/service/selective_tracker.py:289-325 | the per-player body of pass 1 produces the record and claims the continuity step prescribes, including the EMA update with alpha only when a histogram exists |
| SelectiveTracker.ContinuityPass | app/service/selective_tracker.py:289 | pass 1 keeps the number of players and touches none beyond the ones it has reached |
| SelectiveTracker.ReacquirePlayer | app/service/selective_tracker.py:328-397 | the per-player body of pass 2 produces the record and claims of the re-acquisition step: bootstrap at IOU 0.3 without a histogram, hybrid re-match with it |
| SelectiveTracker.ReacquirePass | app/service/selective_tracker.py:328 | pass 2 keeps the number of players and touches none beyond the ones it has reached |
| SelectiveTracker.FrameStep | app/service/selective_tracker.py:286-397 | a frame keeps the number of player records |
| SelectiveTracker.RunContinuityPass | app/service/selective_tracker.py:286-325 | the pass-1 loop yields the records and claimed ids of the pass-1 fold, starting from an empty claim set |
| SelectiveTracker.RunReacquirePass | app/service/selective_tracker.py:327-397 | the pass-2 loop yields the records and claimed ids of the pass-2 fold, each player seeing the ids claimed before it |
| SelectiveTracker.ContinuityPassAt | app/service/selective_tracker.py:289-325 | pass 1 changes each player only through its own step, independently of the other players |
| SelectiveTracker.ReacquirePassAt | app/service/selective_tracker.py:328-397 | in pass 2 each player's outcome depends only on its own record and the ids claimed by the players before it |
| SelectiveTracker.FrameStepPerPlayer | app/service/selective_tracker.py:286-397 | a player's record after a frame is its pass-1 step followed by its pass-2 step: bootstrap and hybrid run interleaved in one loop |
| SelectiveTracker.InitialBookkeeping | app/service/selective_tracker.py:249-259 | a fresh record satisfies the bookkeeping invariant before frame 0 |
| SelectiveTracker.PlaceKeeps | app/service/selective_tracker.py:300-319 | storing a box for frame f keeps the bookkeeping for frame f + 1, keeps every earlier entry and never shrinks the maximum box |
| SelectiveTracker.MissKeeps | app/service/selective_tracker.py:395-397 | logging frame f as missing from the selection frame on keeps missing frames strictly increasing, at or after the selection frame and never stored |
| SelectiveTracker.ContinuityKeeps | app/service/selective_tracker.py:289-325 | pass 1 keeps the bookkeeping; a player that lost its id keeps frames, missing list and maximum box and gains at most one lost frame |
| SelectiveTracker.ReacquireKeeps | app/service/selective_tracker.py:329-397 | pass 2 keeps the bookkeeping of a player without an id, and its lost counter resets or rises by at most one |
| SelectiveTracker.HybridKeeps | app/service/selective_tracker.py:362-397 | the hybrid branch keeps the bookkeeping, whether it re-matches or logs a missing frame |
| SelectiveTracker.PlayerFrameKeeps | app/service/selective_tracker.py:288-397 | both passes together keep a player's bookkeeping; name and selection id are kept, at most the entry for this frame is added, the missing list gains at most this frame, the maximum box never shrinks, and the lost counter resets or rises by at most 2 |
| SelectiveTracker.FrameStepKeeps | app/service/selective_tracker.py:286-397 | every player's bookkeeping survives a frame and every record changes only in the ways just listed |
| SelectiveTracker.FrameStepBookkeeping | app/service/selective_tracker.py:286-399 | the invariant over all records carries from frame f to frame f + 1 |
| SelectiveTracker.FailedBootstrapChangesNothing | app/service/selective_tracker.py:331-338 | a bootstrap without an IOU match leaves the record, including frames_lost and missing_frames, unchanged and claims nothing |
| SelectiveTracker.BootstrapMayAdoptNoId | app/service/selective_tracker.py:346-350 | bootstrap adopts the best-overlapping detection even when it has no track id, so the player gains a histogram and a frame but still holds no id |
| SelectiveTracker.BootstrapIgnoresClaims | app/service/selective_tracker.py:333-346 | bootstrap adopts a track id that another player already claimed this frame |
| SelectiveTracker.HybridSuccess | app/service/selective_tracker.py:376-388 | a hybrid re-match takes only an id not claimed before it, resets frames_lost, stores this frame's box and moves the histogram with weight min(1, 1.5 alpha) |
| SelectiveTracker.HybridFailure | app/service/selective_tracker.py:395-397 | a failed hybrid re-match from the selection frame on adds one lost frame and appends the frame to missing_frames; before the selection frame nothing changes |
| SelectiveTracker.LostTwiceInOneFrame | app/service/selective_tracker.py:323-397 | a player that misses its track in pass 1 and then fails the hybrid re-match gains two lost frames in one frame |
| SelectiveTracker.Tracker.constructor | app/service/selective_tracker.py:247-261 | the tracker starts at frame 0 with one fresh record per selection, and the bookkeeping invariant holds |
| SelectiveTracker.Tracker.ProcessFrame | app/service/selective_tracker.py:286-399 | processing a frame replaces the records by the frame step of the old records at the old frame index, advances the index by one and keeps the bookkeeping invariant |
| SelectiveTracker.FramesToProcess | app/service/selective_tracker.py:264-270 | the loop reads every available frame, or at most max_frames of them when it is given (none when it is not positive) |
| SelectiveTracker.AdvanceFrame | app/service/selective_tracker.py:268-399 | one loop iteration extends the run by exactly the next frame's input and keeps the invariant |
| SelectiveTracker.RunFrames | app/service/selective_tracker.py:261-399 | the frame loop stops after exactly the number of frames FramesToProcess allows, leaves the records of the frame step folded over those frames, and the bookkeeping invariant holds for that frame index |
| SelectiveTracker.Finalise | app/service/selective_tracker.py:406-430 | a report keeps the record's name, selection id, frames and missing frames, counts its frames, reports max_bbox truncated by int(), and uses the fixed output size when one is given and int(1.2 * max_bbox) in each dimension otherwise |
| SelectiveTracker.PaddedDimensionBounds | app/service/selective_tracker.py:414-417 | without a fixed size an output dimension is int(1.2 m), that is 6m/5 rounded down, with no ceiling or even-rounding, and never below int(m) |
| SelectiveTracker.FinaliseOutputSize | app/service/selective_tracker.py:413-426 | without a fixed size each output dimension is 6/5 of the maximum box rounded down, and never smaller than the reported maximum box |
| SelectiveTracker.ReportFacts | app/service/selective_tracker.py:419-430 | a report from a record kept for n frames stores only earlier frames, lists strictly increasing missing frames in [selection_frame, n) that are never stored, and has a non-negative maximum box covering every stored box |
| SelectiveTracker.Reports | app/service/selective_tracker.py:406-430 | one report per record, in order |
| SelectiveTracker.BuildReports | app/service/selective_tracker.py:406-430 | the post-processing loop produces exactly those reports |
| SelectiveTracker.RunSelectiveTracking | app/service/selective_tracker.py:247-436 | the result is the reports of the fresh records run through the frames the loop reads |
| PersonTracker.CalculateMaxBbox | app/service/person_tracker.py:24-44 | the result is non-negative, at least every frame's width and height, and each component is 0 or attained by some frame (so 0 x 0 for no frames) |
| PersonTracker.RoundUpToEven | app/service/person_tracker.py:61-65 | an odd size becomes the next even number; an even one is kept |
| PersonTracker.OutputDimension | app/service/person_tracker.py:58-65 | an output dimension is even and lies between ceil(1.2 m) and ceil(1.2 m) + 1 |
| PersonTracker.CalculateOutputSize | app/service/person_tracker.py:47-67 | both output dimensions are even and each lies between ceil(1.2 m) and ceil(1.2 m) + 1 for its max_bbox dimension m |
| PersonTracker.OutputDimensionIsLeastEven | app/service/person_tracker.py:57-65 | each output dimension is the least even number that is at least 6m/5 |
| PersonTracker.OutputSizeExamples | app/service/person_tracker.py:57-67 | 0 x 0 gives 0 x 0, 100 x 50 gives 120 x 60, and 12 x 3 gives 16 x 4 (the odd 15 bumped to 16) |
| VideoCropper.OutputWindow | app/service/video_cropper.py:117-130 | the crop window is exactly out_w x out_h and shares the floor-division centre ((x1 + x2) // 2, (y1 + y2) // 2) of the truncated box |
| VideoCropper.SourceRect | app/service/video_cropper.py:136-139 | the source rectangle lies inside the frame and inside the crop window |
| VideoCropper.SourceRectIsOverlap | app/service/video_cropper.py:136-139 | a window pixel belongs to the source rectangle exactly when it lies inside the frame |
| VideoCropper.CopyRectsAgree | app/service/video_cropper.py:136-153 | when the source rectangle is not empty, the destination rectangle lies inside the output buffer and has the same width and height as the source |
| VideoCropper.CreateBlackFrame | app/service/video_cropper.py:158-168 | a fresh out_h x out_w buffer in which every pixel is black |
| VideoCropper.CropAndPadFrame | app/service/video_cropper.py:94-155 | a fresh out_h x out_w buffer whose pixel (i, j) is the frame pixel at (crop_y1 + i, crop_x1 + j) when that lies in the frame and black otherwise; nothing is copied when the source rectangle is empty |
| VideoCropper.LongTracks | app/service/video_cropper.py:213-217 | a track is kept exactly when it has at least min_frames frames, and kept tracks are unchanged |
| VideoCropper.FilterTracks | app/service/video_cropper.py:207-228 | missing or empty tracks fail with the empty-data error and only then; a positive min_frames keeps exactly the tracks with that many frames, otherwise every track is kept; a success is never empty, and a selection left empty fails |
| VideoCropper.FilterTracksFixture | app/service/video_cropper.py:207-228 | with tracks of 1 and 2 frames, threshold 2 keeps the second, threshold 3 fails with the filter error, and threshold 0 keeps both |
| NamedVideoCropper.Lower | app/service/named_video_cropper.py:58 | lower-casing keeps the length and maps each character to its lower-case form |
| NamedVideoCropper.CollapseShape | app/service/named_video_cropper.py:61 | the substitution of each run outside [a-z0-9] by one underscore leaves only [a-z0-9_], never two underscores in a row, is empty only for empty input, and starts with an underscore exactly when the input starts outside [a-z0-9] |
| NamedVideoCropper.StripCollapsed | app/service/named_video_cropper.py:61-64 | stripping underscores from a collapsed string leaves an empty string or a safe name with no underscore at either end |
| NamedVideoCropper.SanitizeFilename | app/service/named_video_cropper.py:47-69 | the result is never empty, holds only [a-z0-9_], has no underscore at either end and no doubled underscore; a name without an alphanumeric character gives "player_unknown"; otherwise the result is the decomposed, lower-cased, collapsed and stripped name, or "player_unknown" when that is empty |
| NamedVideoCropper.SanitizeErasedByFold | app/service/named_video_cropper.py:51-67 | a name with an alphanumeric character that the ASCII decomposition erases entirely still becomes "player_unknown" |
| NamedVideoCropper.CollapseOfSafe | app/service/named_video_cropper.py:61 | a string of [a-z0-9_] without doubled underscores is left unchanged by the substitution |
| NamedVideoCropper.SanitizeIdempotent | app/service/named_video_cropper.py:47-69 | sanitizing an already sanitized name returns it unchanged |
| NamedVideoCropper.CollapseSplit | app/service/named_video_cropper.py:61 | the substitution works piece by piece when the cut follows a character of [a-z0-9] |
| NamedVideoCropper.SanitizePlayerNumber | tests/test_named_video_cropper.py:13 | "Player #1" becomes "player_1" |
| NamedVideoCropper.SanitizeSurroundingSpaces | tests/test_named_video_cropper.py:16 | "  Space Test  " becomes "space_test" |
| NamedVideoCropper.SanitizeMixedSymbols | tests/test_named_video_cropper.py:17 | "Mixed-Case_Symbols!" becomes "mixed_case_symbols" |
| NamedVideoCropper.SanitizeNoAlnum | tests/test_named_video_cropper.py:15 | "!!!" becomes "player_unknown" |
| NamedVideoCropper.SuffixedNamesAt | app/service/named_video_cropper.py:141-151 | the names written for the first n positions are n names, the k-th being the suffixed form of the k-th sanitized name |
| NamedVideoCropper.SuffixDuplicates | app/service/named_video_cropper.py:141-151 | the loop writes one name per input name: a name occurring more than once gets _k on its k-th occurrence, any other name is kept |
| NamedVideoCropper.CountsStep | app/service/named_video_cropper.py:142-147 | the counter holds, for every repeated name, how often it has occurred so far, and one step writes the next suffix |
| NamedVideoCropper.UniqueNameKept | app/service/named_video_cropper.py:148-149 | a name occurring once keeps its spelling |
| NamedVideoCropper.RepeatedNamesDiffer | app/service/named_video_cropper.py:145-147 | two occurrences of the same repeated name get different file names |
| NamedVideoCropper.SuffixCollision | app/service/named_video_cropper.py:141-151 | suffixing does not make all names distinct: in ["a", "a", "a_1"] the first and the third both become "a_1" |
| NamedVideoCropper.KeyedByPosition | app/service/named_video_cropper.py:131-133 | selected players are keyed by their decimal position, in order |
| NamedVideoCropper.TracksToCrop | app/service/named_video_cropper.py:101-136 | the input fails exactly when neither tracks nor selected_players holds entries; otherwise tracks is used whenever the key exists, and selected_players, keyed by position, otherwise |
| NamedVideoCropper.MissingKeyUnreachable | app/service/named_video_cropper.py:101-136 | the final missing-key error cannot be raised: the emptiness check fails first |
| NamedVideoCropper.RawName | app/service/named_video_cropper.py:128-134 | an entry's raw name is its name, or player_ followed by its key |
| NamedVideoCropper.FramesProcessed | app/service/named_video_cropper.py:178-208 | the loop reads min(available, total_frames) frames when total_frames is positive, and otherwise min(available, 1): one frame if the video yields any, none if it yields nothing |
| NamedVideoCropper.WriteFrames | app/service/named_video_cropper.py:174-208 | every writer receives, for each processed frame in order, the crop when its track has a box for that frame, a black frame when black frames are on, and nothing otherwise |
| NamedVideoCropper.BlackFramesKeepTiming | app/service/named_video_cropper.py:190-201 | with black frames on a writer receives exactly one frame per processed frame: the crop of its box, or black |
| NamedVideoCropper.CropsOnlyWithoutBlackFrames | app/service/named_video_cropper.py:190-194 | with black frames off a writer receives at most one frame per processed frame, only crops, each of a frame its track has a box for |
| Text.NatToString | app/service/named_video_cropper.py:184 | str(n) is a non-empty run of decimal digits without a leading zero (except for 0) |
| Text.DigitsValueOfNatToString | app/service/named_video_cropper.py:184 | reading str(n) back as a decimal gives n |
| Text.NatToStringInjective | app/service/named_video_cropper.py:147 | distinct counters give distinct suffixes |
| Text.StripIsMiddle | app/service/player_selector_terminal.py:313 | str.strip() removes only whitespace, from both ends, keeps the middle intact, and leaves no whitespace at either end |
| PlayerSelectorTerminal.DigitPrefix | app/service/player_selector_terminal.py:198 | the digit run at the front of the input is maximal: every character in it is a digit and the next one is not |
| PlayerSelectorTerminal.DigitRuns | app/service/player_selector_terminal.py:198 | the runs found are non-empty strings of decimal digits |
| PlayerSelectorTerminal.DigitRunsOfDigits | app/service/player_selector_terminal.py:198 | a whole run of digits is found as one number |
| PlayerSelectorTerminal.DigitRunsSplit | app/service/player_selector_terminal.py:198 | a non-digit splits the input: the runs are those found on its left followed by those on its right, and none crosses it; with the previous row this is findall's maximal runs, left to right |
| PlayerSelectorTerminal.RunValues | app/service/player_selector_terminal.py:198 | one integer per run, the decimal value of that run |
| PlayerSelectorTerminal.NoDigitsNoIds | app/service/player_selector_terminal.py:198 | an input without digits mentions no number |
| PlayerSelectorTerminal.ValidIdsUpTo | app/service/player_selector_terminal.py:201-205 | every id kept so far lies in [1, max_id] |
| PlayerSelectorTerminal.FirstIndex | app/service/player_selector_terminal.py:204 | the position found holds the value, and the value does not occur before it |
| PlayerSelectorTerminal.ValidIdsUpToMembers | app/service/player_selector_terminal.py:201-205 | the kept ids are distinct and are exactly the in-range numbers among those scanned so far |
| PlayerSelectorTerminal.ValidIdsUpToOrder | app/service/player_selector_terminal.py:201-205 | the kept ids occur among the numbers scanned so far, in the order of their first occurrence |
| PlayerSelectorTerminal.ValidIdsFacts | app/service/player_selector_terminal.py:180-209 | parsing returns ids in [1, max_id], without repetitions, containing every in-range number mentioned and nothing else, in order of first mention |
| PlayerSelectorTerminal.ParsePlayerInput | app/service/player_selector_terminal.py:198-209 | the filtering loop returns exactly the valid ids of the numbers the input mentions |
| PlayerSelectorTerminal.RunsOfThree | tests/test_player_selector_terminal.py:14-20 | three one-digit numbers separated by ", " are three runs |
| PlayerSelectorTerminal.ParseDuplicate | tests/test_player_selector_terminal.py:20 | "1, 1, 2" mentions 1, 1 and 2 |
| PlayerSelectorTerminal.ValidDuplicate | tests/test_player_selector_terminal.py:20 | the repeated 1 is kept once: [1, 2] |
| PlayerSelectorTerminal.ParseOutOfRange | tests/test_player_selector_terminal.py:14 | "1, 6, 2" mentions 1, 6 and 2 |
| PlayerSelectorTerminal.ValidOutOfRange | tests/test_player_selector_terminal.py:14 | with five detections 6 is dropped: [1, 2] |
| PlayerSelectorTerminal.ParseNoNumbers | tests/test_player_selector_terminal.py:18-23 | "" and "abc" mention no number |
| PlayerSelectorTerminal.ClampFrameIndex | app/service/player_selector_terminal.py:243-245 | a frame index at or past the end of the video becomes 0; any other index is kept |
| PlayerSelectorTerminal.ClampedFrameInVideo | app/service/player_selector_terminal.py:242-248 | for a non-empty video and a non-negative index the frame read lies inside the video |
| PlayerSelectorTerminal.TruncateSelection | app/service/player_selector_terminal.py:307-309 | a selection longer than max_players is cut to its first max_players ids (Python's slice for a negative bound); a shorter one is kept; the result is always a prefix |
| PlayerSelectorTerminal.PlayerName | app/service/player_selector_terminal.py:313-315 | the typed name, stripped, is used when it is not blank; otherwise Player_ followed by the id |
| PlayerSelectorTerminal.BuildRecords | app/service/player_selector_terminal.py:311-320 | one record per selected id, in order, holding the id, its name and the box of detection id - 1 |
| PlayerSelectorTerminal.ChosenIds | app/service/player_selector_terminal.py:300-309 | every chosen id names one of the detections |
| PlayerSelectorTerminal.ChosenIdsFacts | app/service/player_selector_terminal.py:300-309 | the chosen ids are distinct ids the user typed, at most max_players of them, and at least one whenever any typed id was valid |
| PlayerSelectorTerminal.SelectPlayers | app/service/player_selector_terminal.py:242-346 | no selection exactly when there is no detection, no valid id or the confirmation is declined; otherwise the selection frame is the clamped index and the players are the records of the chosen ids |
| PlayerSelectorTerminal.SelectionFacts | app/service/player_selector_terminal.py:298-326 | a selection holds between one and max_players players with distinct ids, each a detection the user typed, carrying that detection's box |
| PlayerSelectorTerminal.RecordsOf | app/service/player_selector_terminal.py:316-320 | each record carries its id and the box of that detection |
| PlayerSelectorGui.PointInBboxExamples | tests/test_player_selector_gui.py:16-23 | the point-in-box test is inclusive on every edge: (100, 100) and (200, 200) lie in [100, 200] x [100, 200] and (201, 200) does not |
| PlayerSelectorGui.FirstHitFrom | app/service/player_selector_gui.py:168-172 | the click hits nothing exactly when no detection contains the point; otherwise it hits the first detection containing it |
| PlayerSelectorGui.RemoveFirst | app/service/player_selector_gui.py:181 | list.remove drops exactly one element when the value is present and changes nothing otherwise |
| PlayerSelectorGui.RemoveFirstSplice | app/service/player_selector_gui.py:181 | list.remove cuts out exactly the first occurrence of the value |
| PlayerSelectorGui.RemoveFirstDistinct | app/service/player_selector_gui.py:180-182 | removing an index from a list without repetitions leaves a list without repetitions holding every other index |
| PlayerSelectorGui.SpliceDistinct | app/service/player_selector_gui.py:181 | cutting one position out of a list without repetitions keeps every other element and no repetition |
| PlayerSelectorGui.Toggle | app/service/player_selector_gui.py:178-194 | toggling a selected index removes it and its name; a new index is ignored once max_players are selected; otherwise it is appended and named with the stripped typed name or Player_{index+1} |
| PlayerSelectorGui.ToggleConsistent | app/service/player_selector_gui.py:178-194 | toggling keeps the selection without repetitions, within max_players, and named for exactly the selected indices |
| PlayerSelectorGui.ToggleTwice | app/service/player_selector_gui.py:178-194 | selecting a new index and toggling it again gives the selection and the names back |
| PlayerSelectorGui.RemoveAddedKey | app/service/player_selector_gui.py:178-194 | popping a name just added for an unnamed index gives the names back |
| PlayerSelectorGui.RemoveAppended | app/service/player_selector_gui.py:181-188 | removing an index just appended to a list that lacked it gives the list back |
| PlayerSelectorGui.NavigationStaysInVideo | app/service/player_selector_gui.py:251-258 | N and P keep a frame index of the video within [0, total_frames - 1] and move it by at most one |
| PlayerSelectorGui.ResultPlayersUpTo | app/service/player_selector_gui.py:266-272 | the result lists the players in selection order with selection_id = index + 1, the index's name and its detection's box, and fails exactly when an index has no detection or no name |
| PlayerSelectorGui.ResultOfConsistent | app/service/player_selector_gui.py:264-272 | a consistent selection whose indices address current detections always yields one player per selected index, with distinct selection ids |
| PlayerSelectorGui.StaleSelectionFails | app/service/player_selector_gui.py:251-271 | the selection survives a change of frame, so an index picked on a frame with more detections fails the box lookup on a frame with fewer |
| PlayerSelectorGui.PlayerSelector.constructor | app/service/player_selector_gui.py:100-129 | a selector starts on the given frame with that frame's detections and nothing selected |
| PlayerSelectorGui.PlayerSelector.ToggleSelection | app/service/player_selector_gui.py:178-194 | the selection becomes the toggle of the old one and stays consistent; frame and detections are unchanged |
| PlayerSelectorGui.PlayerSelector.OnMouseClick | app/service/player_selector_gui.py:165-172 | a left click toggles only the first detection containing the point; any other event, or a click hitting nothing, changes nothing |
| PlayerSelectorGui.PlayerSelector.Reset | app/service/player_selector_gui.py:248-250 | R empties both the selected indices and the names, which keeps the selection consistent |
| PlayerSelectorGui.PlayerSelector.NextFrame | app/service/player_selector_gui.py:251-254 | N moves one frame on unless on the last frame, takes the new frame's detections when it can be read, and keeps the selection |
| PlayerSelectorGui.PlayerSelector.PrevFrame | app/service/player_selector_gui.py:255-258 | P moves one frame back unless on the first frame, takes the new frame's detections when it can be read, and keeps the selection |
| PlayerSelectorGui.PlayerSelector.GetResult | app/service/player_selector_gui.py:264-289 | the result is the current frame with the players in selection order, or a failure exactly when a selected index addresses no current detection or has no name; nothing changes |
| CourtCoordinates.LabelsDistinct | app/service/extract_court_coordinates.py:21-33 | there are ten point labels and no two are equal, so every clicked point gets its own key |
| CourtCoordinates.AddPoint | app/service/extract_court_coordinates.py:39-49 | a left click appends the point while fewer than ten are collected and is ignored once all ten are in |
| CourtCoordinates.UndoPoint | app/service/extract_court_coordinates.py:233-237 | `Z` takes off the last point and does nothing on an empty list |
| CourtCoordinates.UndoAfterAdd | app/service/extract_court_coordinates.py:233-237 | undo is the inverse of a click that added a point |
| CourtCoordinates.ClicksStayBounded | app/service/extract_court_coordinates.py:43-49 | any run of clicks leaves at most ten points: exactly min(10, points + clicks) |
| CourtCoordinates.LabelledPoints | app/service/extract_court_coordinates.py:144-146 | the `all_points` keys are exactly the labels of the collected points |
| CourtCoordinates.LabelCount | app/service/extract_court_coordinates.py:144-146 | the first k of distinct labels are k different keys |
| CourtCoordinates.SaveCoordinates | app/service/extract_court_coordinates.py:110-146 | nothing is saved with fewer than six points; otherwise corners are points 0-3 and the net points 4-5, and the near and far kitchen lines are present exactly when eight and ten points are collected, holding points 6-7 and 8-9 |
| CourtCoordinates.LabelledPointsRoundTrip | app/service/extract_court_coordinates.py:144-146 | a map built from distinct labels has one entry per point and reading it back in label order returns the points |
| CourtCoordinates.AllPointsRoundTrip | app/service/extract_court_coordinates.py:144-146 | the saved `all_points` has one entry per collected point, no other key, and gives back every point under its label |
| CourtCoordinates.OffsetsStayInVideo | app/service/extract_court_coordinates.py:238-251 | from a frame of the video, `+` and `-` land on a frame of the video and move the offset by at most 30 in their own direction |
| CourtCoordinates.CoordinateExtractor.constructor | app/service/extract_court_coordinates.py:218 | the picker starts with no points at offset 0 |
| CourtCoordinates.CoordinateExtractor.MouseCallback | app/service/extract_court_coordinates.py:39-49 | a left click adds the point as AddPoint does and keeps at most ten points; other events change nothing |
| CourtCoordinates.CoordinateExtractor.Undo | app/service/extract_court_coordinates.py:233-237 | `Z` replaces the points by their undo and leaves the offset alone |
| CourtCoordinates.CoordinateExtractor.Reset | app/service/extract_court_coordinates.py:229-232 | `R` clears every point and leaves the offset alone |
| CourtCoordinates.CoordinateExtractor.StepForward | app/service/extract_court_coordinates.py:238-239 | `+` sets the offset 30 on, capped at the last frame, and keeps the points |
| CourtCoordinates.CoordinateExtractor.StepBack | app/service/extract_court_coordinates.py:245-246 | `-` sets the offset 30 back, capped at the first frame, and keeps the points |
| CourtCropper.CropPoints | app/service/court_cropper.py:20-24 | the points are the court-corner values followed by the net values, each present only when its key is |
| CourtCropper.SavedFileCropPoints | app/service/court_cropper.py:20-24 | a file the picker saved yields exactly its first six points, the corners and the net, and never the kitchen lines |
| CourtCropper.MinOf | app/service/court_cropper.py:31 | the minimum is one of the values and no value is smaller |
| CourtCropper.MaxOf | app/service/court_cropper.py:32 | the maximum is one of the values and no value is larger |
| CourtCropper.EvenFloor | app/service/court_cropper.py:53-54 | `(d // 2) * 2` is even and at most one below `d` |
| CourtCropper.CourtCropBox | app/service/court_cropper.py:26-54 | there is no box exactly when there are no points; otherwise the box starts at or right of 0, ends within the frame, and its output size is even and at most one below its extent in each direction |
| CourtCropper.BoundsContainPoints | app/service/court_cropper.py:30-32 | the unpadded bounds contain every point and each edge passes through a point |
| CourtCropper.PaddedBoxContainsPoints | app/service/court_cropper.py:30-50 | with non-negative padding every point inside the frame stays inside the padded, clipped box |
| CourtCropper.CropRegion | app/service/court_cropper.py:71 | the rows and columns the slice selects never run past the frame |
| CourtCropper.CropFitsFrame | app/service/court_cropper.py:49-71 | when the box is not inverted the slice lies inside the frame and is exactly out_width x out_height, the size the writer is opened with |
| CourtCropper.InvertedBoxWraps | app/service/court_cropper.py:35-71 | a point left of the frame inverts the box, the writer gets a negative width and the negative slice end counts from the right edge |
| Numeric.Trunc | app/service/selective_tracker.py:295-298 | `int()` of a float truncates toward zero: the result is within one of the value, never past it away from zero, and non-negative for a non-negative value |
| Numeric.TruncMonotone | app/service/selective_tracker.py:415-416 | truncation never reverses the order of two values |
| Numeric.CeilDiv | app/service/person_tracker.py:58-59 | `math.ceil(a / b)` for a positive divisor is the least integer c with a <= b * c |
| Numeric.SliceIndex | app/service/court_cropper.py:71 | a slice bound counts from the end when negative and is clipped to [0, len] |
| Numeric.SliceBounds | app/service/court_cropper.py:71 | a slice selects an ordered range lying inside the sequence, empty when the stop falls before the start |
| Numeric.Take | app/service/player_selector_terminal.py:309 | `s[:stop]` is the first min(stop, len) elements, or all but the last -stop for a negative stop |
| Numeric.SliceOfNonNegative | app/service/court_cropper.py:71 | with non-negative bounds a slice selects max(0, min(stop, len) - min(start, len)) elements |
| Geometry.TruncBox | app/service/selective_tracker.py:294-299 | the stored box has every coordinate of the detection truncated toward zero, so all four are whole numbers |
| Geometry.GrowSize | app/service/selective_tracker.py:318-319 | the running maximum size never shrinks, covers the new box and takes each component from either the old maximum or the box |

## Left out

- Video input and output, model loading, windows, drawing, key polling and screenshots are I/O. The model takes their results (frame detections, pixel histograms, key events, whether a frame could be read) as parameters.
- YOLO detection and tracking are external. Detections are inputs; the person-class filter and confidence values of the selectors are not modelled.
- OpenCV's `calcHist`, `compareHist` and `normalize` are external. The histogram of a box is a parameter, and `compare_histograms` is a parameter whose results lie in [-1, 1]. The centre distance `(dx**2 + dy**2)**0.5` is a parameter returning a non-negative `d` with `d * d == dx * dx + dy * dy`.
- Floating point is modelled with exact rationals. Rounding error is not modelled.
- `str.isalnum`, Unicode NFKD folding, `\d` and `str.isspace` are covered only for ASCII. The sanitising lemmas take the character classes as parameters constrained on ASCII.
- `app/service/court_transform.py` (a floating-point perspective homography), `pickleball_advice/main.py` (a remote API call) and the orchestration in `app/service/track_player.py`, `main.py` and the argparse entry points are not part of this model.
- `convert_to_h264` in `video_cropper.py` runs ffmpeg as a subprocess and is left out as I/O. Logging and progress bars are left out too.
- The GUI's window loop (`run`, `_draw`) is modelled only through its key actions: `R`, `N`, `P` and the result on `S`. The terminal selector's frame display is not modelled.
- Failed frame reads are modelled as a missing value. Video seeking is not modelled.
- SelectiveTracker.RunSelectiveTracking: the bookkeeping invariant is stated per frame (`FrameStepKeeps`) and kept as the class invariant `Tracker.Valid`, not re-proved over the whole run as a separate lemma.
- TrackerMatching.HybridRematch: the stored histogram after a hybrid match is the histogram of the matched box, which is the value the code computes for the candidate.
- ColorHistogram.ExtractColorHistogram: the histogram has the default 100 bins (a subset type of length 100); other bin counts are not modelled.
