/** The terminal player selector: the typed list of player numbers is parsed
    (`parse_player_input`), cut to `max_players`, and turned into player
    records; an out-of-range start frame falls back to frame 0. */
module PlayerSelectorTerminal {
  import opened Wrappers
  import opened Numeric
  import opened Text
  import opened PersonTracker

  // ---------------------------------------------------------------------
  // parse_player_input
  // ---------------------------------------------------------------------

  /** The length of the run of digits `s` starts with. */
  function DigitPrefix(s: string): (n: nat)
    ensures n <= |s|
    ensures forall i :: 0 <= i < n ==> IsDigit(s[i])
    ensures n < |s| ==> !IsDigit(s[n])
  {
    if s != [] && IsDigit(s[0]) then 1 + DigitPrefix(s[1..]) else 0
  }

  /** `re.findall(r"\d+", s)`: the maximal runs of digits, left to right. */
  function DigitRuns(s: string): (runs: seq<string>)
    ensures forall k :: 0 <= k < |runs| ==> runs[k] != [] && AllDigits(runs[k])
    decreases |s|
  {
    if s == [] then []
    else if IsDigit(s[0]) then
      var n := DigitPrefix(s);
      [s[..n]] + DigitRuns(s[n..])
    else DigitRuns(s[1..])
  }

  /** `[int(x) for x in runs]`. */
  function RunValues(runs: seq<string>): (ids: seq<int>)
    requires forall k :: 0 <= k < |runs| ==> AllDigits(runs[k])
    ensures |ids| == |runs|
    ensures forall k :: 0 <= k < |runs| ==> ids[k] == DigitsValue(runs[k])
  {
    if runs == [] then [] else [DigitsValue(runs[0])] + RunValues(runs[1..])
  }

  /** The numbers the input mentions, in order, repetitions included. */
  function ParsedIds(s: string): seq<int>
  {
    RunValues(DigitRuns(s))
  }

  /** Input without any digit mentions no number. */
  lemma {:induction false} NoDigitsNoIds(s: string)
    requires forall i :: 0 <= i < |s| ==> !IsDigit(s[i])
    ensures ParsedIds(s) == []
    decreases |s|
  {
    if s != [] {
      NoDigitsNoIds(s[1..]);
    }
  }

  /** The ids kept from the first `k` parsed numbers: those in `[1, maxId]`,
      each at its first occurrence. */
  function ValidIdsUpTo(ids: seq<int>, maxId: int, k: nat): (v: seq<int>)
    requires k <= |ids|
    ensures forall a :: 0 <= a < |v| ==> 1 <= v[a] <= maxId
  {
    if k == 0 then []
    else
      var kept := ValidIdsUpTo(ids, maxId, k - 1);
      var pid := ids[k - 1];
      if 1 <= pid <= maxId && pid !in kept then kept + [pid] else kept
  }

  function ValidIds(ids: seq<int>, maxId: int): (v: seq<int>)
    ensures forall a :: 0 <= a < |v| ==> 1 <= v[a] <= maxId
  {
    ValidIdsUpTo(ids, maxId, |ids|)
  }

  /** The position where `x` first occurs in `ids`. */
  function FirstIndex(ids: seq<int>, x: int): (i: nat)
    requires x in ids
    ensures i < |ids| && ids[i] == x && x !in ids[..i]
  {
    if ids[0] == x then 0
    else
      assert x in ids[1..];
      var j := FirstIndex(ids[1..], x);
      assert ids[..j + 1] == [ids[0]] + ids[1..][..j];
      j + 1
  }

  /** `x` missing from the first `n` elements differs from each of them. */
  lemma NotInPrefix(s: seq<int>, x: int, n: nat)
    requires n <= |s| && x !in s[..n]
    ensures forall j :: 0 <= j < n ==> s[j] != x
  {
    forall j | 0 <= j < n
      ensures s[j] != x
    {
      assert s[..n][j] == s[j];
    }
  }

  /** Every element of `v` occurs in `ids`. */
  ghost predicate AllIn(ids: seq<int>, v: seq<int>)
  {
    forall a :: 0 <= a < |v| ==> v[a] in ids
  }

  /** The elements of `v` appear in the order of their first occurrence in
      `ids`. */
  ghost predicate OrderedByFirst(ids: seq<int>, v: seq<int>)
    requires AllIn(ids, v)
  {
    forall a, b :: 0 <= a < b < |v| ==> FirstIndex(ids, v[a]) < FirstIndex(ids, v[b])
  }

  /** The kept ids are distinct and are exactly the in-range numbers among
      the first `k`. */
  lemma {:induction false} ValidIdsUpToMembers(ids: seq<int>, maxId: int, k: nat)
    requires k <= |ids|
    ensures var v := ValidIdsUpTo(ids, maxId, k);
      && (forall a, b :: 0 <= a < b < |v| ==> v[a] != v[b])
      && (forall x :: x in v <==> 1 <= x <= maxId && x in ids[..k])
  {
    if k > 0 {
      ValidIdsUpToMembers(ids, maxId, k - 1);
      var kept := ValidIdsUpTo(ids, maxId, k - 1);
      var pid := ids[k - 1];
      assert ids[..k] == ids[..k - 1] + [pid];
      assert forall x :: x in ids[..k] <==> x in ids[..k - 1] || x == pid;
      if 1 <= pid <= maxId && pid !in kept {
        var v := kept + [pid];
        assert forall a :: 0 <= a < |kept| ==> v[a] == kept[a] && v[a] != pid;
      }
    }
  }

  /** The kept ids occur among the first `k` numbers, in the order of their
      first occurrence. */
  lemma {:induction false} ValidIdsUpToOrder(ids: seq<int>, maxId: int, k: nat)
    requires k <= |ids|
    ensures var v := ValidIdsUpTo(ids, maxId, k);
      && AllIn(ids, v)
      && (forall a :: 0 <= a < |v| ==> FirstIndex(ids, v[a]) < k)
      && OrderedByFirst(ids, v)
  {
    if k > 0 {
      ValidIdsUpToOrder(ids, maxId, k - 1);
      var kept := ValidIdsUpTo(ids, maxId, k - 1);
      var pid := ids[k - 1];
      if 1 <= pid <= maxId && pid !in kept {
        ValidIdsUpToMembers(ids, maxId, k - 1);
        var v := kept + [pid];
        assert forall a :: 0 <= a < |kept| ==> v[a] == kept[a];
        NotInPrefix(ids, pid, k - 1);
        var f := FirstIndex(ids, pid);
        NotInPrefix(ids, pid, f);
        assert f == k - 1;
        assert AllIn(ids, v);
      }
    }
  }

  /** `parse_player_input(s, max_id)`: the in-range ids the input
      mentions, without repetitions, in order of first mention. */
  lemma ValidIdsFacts(ids: seq<int>, maxId: int)
    ensures var v := ValidIds(ids, maxId);
      && (forall a :: 0 <= a < |v| ==> 1 <= v[a] <= maxId)
      && (forall a, b :: 0 <= a < b < |v| ==> v[a] != v[b])
      && (forall x :: x in v <==> 1 <= x <= maxId && x in ids)
      && AllIn(ids, v)
      && OrderedByFirst(ids, v)
  {
    ValidIdsUpToMembers(ids, maxId, |ids|);
    ValidIdsUpToOrder(ids, maxId, |ids|);
    assert ids[..|ids|] == ids;
  }

  /** The filtering loop of `parse_player_input`. */
  method ParsePlayerInput(input: string, maxId: int) returns (valid: seq<int>)
    ensures valid == ValidIds(ParsedIds(input), maxId)
  {
    var ids := ParsedIds(input);
    valid := [];
    for k := 0 to |ids|
      invariant valid == ValidIdsUpTo(ids, maxId, k)
    {
      var pid := ids[k];
      if 1 <= pid <= maxId {
        if pid !in valid {
          valid := valid + [pid];
        }
      }
    }
  }

  /** A one-digit run followed by a non-digit is one number. */
  lemma DigitRunsDigit(c: char, rest: string)
    requires IsDigit(c) && (rest == [] || !IsDigit(rest[0]))
    ensures DigitRuns([c] + rest) == [[c]] + DigitRuns(rest)
  {
    assert ([c] + rest)[1..] == rest;
    assert DigitPrefix([c] + rest) == 1;
    assert ([c] + rest)[..1] == [c];
  }

  /** A non-digit separates and is otherwise skipped. */
  lemma DigitRunsSkip(c: char, rest: string)
    requires !IsDigit(c)
    ensures DigitRuns([c] + rest) == DigitRuns(rest)
  {
    assert ([c] + rest)[1..] == rest;
  }

  /** A whole run of digits is one number. */
  lemma DigitRunsOfDigits(d: string)
    requires d != [] && AllDigits(d)
    ensures DigitRuns(d) == [d]
  {
    var n := DigitPrefix(d);
    assert n == |d|;
    assert d[..n] == d && d[n..] == [];
  }

  /** The digit run a string starts with ends before a following
      non-digit. */
  lemma {:induction false} DigitPrefixBeforeSeparator(a: string, c: char, b: string)
    requires !IsDigit(c)
    ensures DigitPrefix(a + [c] + b) == DigitPrefix(a)
    decreases |a|
  {
    var s := a + [c] + b;
    if a == [] {
      assert s[0] == c;
    } else {
      assert s[0] == a[0];
      if IsDigit(a[0]) {
        assert s[1..] == a[1..] + [c] + b;
        DigitPrefixBeforeSeparator(a[1..], c, b);
      }
    }
  }

  /** A non-digit splits the input: the runs on either side are found
      independently and no run crosses it. Together with
      `DigitRunsOfDigits` and `DigitRuns([]) == []` this determines the
      runs of every string. */
  lemma {:induction false} DigitRunsSplit(a: string, c: char, b: string)
    requires !IsDigit(c)
    ensures DigitRuns(a + [c] + b) == DigitRuns(a) + DigitRuns(b)
    decreases |a|
  {
    var s := a + [c] + b;
    if a == [] {
      assert s == [c] + b;
      DigitRunsSkip(c, b);
    } else if !IsDigit(a[0]) {
      assert s[0] == a[0] && s[1..] == a[1..] + [c] + b;
      DigitRunsSplit(a[1..], c, b);
    } else {
      assert s[0] == a[0];
      var n := DigitPrefix(a);
      DigitPrefixBeforeSeparator(a, c, b);
      assert s[..n] == a[..n];
      assert s[n..] == a[n..] + [c] + b;
      DigitRunsSplit(a[n..], c, b);
    }
  }

  /** Three one-digit numbers separated by `", "`. */
  lemma {:induction false} RunsOfThree(a: char, b: char, c: char, s: string)
    requires IsDigit(a) && IsDigit(b) && IsDigit(c)
    requires s == [a, ',', ' ', b, ',', ' ', c]
    ensures DigitRuns(s) == [[a], [b], [c]]
  {
    var t0: string := [];
    var t1 := [c] + t0;
    DigitRunsDigit(c, t0);
    var t2 := [' '] + t1;
    DigitRunsSkip(' ', t1);
    var t3 := [','] + t2;
    DigitRunsSkip(',', t2);
    var t4 := [b] + t3;
    DigitRunsDigit(b, t3);
    var t5 := [' '] + t4;
    DigitRunsSkip(' ', t4);
    var t6 := [','] + t5;
    DigitRunsSkip(',', t5);
    DigitRunsDigit(a, t6);
    assert s == [a] + t6;
  }

  /** The values of three one-digit runs. */
  lemma ValuesOfThree(a: char, b: char, c: char)
    requires IsDigit(a) && IsDigit(b) && IsDigit(c)
    ensures RunValues([[a], [b], [c]]) == [DigitValue(a), DigitValue(b), DigitValue(c)]
  {
    assert DigitsValue([a]) == DigitValue(a);
    assert DigitsValue([b]) == DigitValue(b);
    assert DigitsValue([c]) == DigitValue(c);
  }

  /** `"1, 1, 2"` mentions 1, 1 and 2 ... */
  lemma ParseDuplicate(s: string)
    requires s == "1, 1, 2"
    ensures ParsedIds(s) == [1, 1, 2]
  {
    assert s == ['1', ',', ' ', '1', ',', ' ', '2'];
    RunsOfThree('1', '1', '2', s);
    ValuesOfThree('1', '1', '2');
  }

  /** ... and the repeated 1 is kept once. */
  lemma ValidDuplicate()
    ensures ValidIds([1, 1, 2], 5) == [1, 2]
  {
    assert ValidIdsUpTo([1, 1, 2], 5, 1) == [1];
    assert ValidIdsUpTo([1, 1, 2], 5, 2) == [1];
  }

  /** `"1, 6, 2"` mentions 1, 6 and 2 ... */
  lemma ParseOutOfRange(s: string)
    requires s == "1, 6, 2"
    ensures ParsedIds(s) == [1, 6, 2]
  {
    assert s == ['1', ',', ' ', '6', ',', ' ', '2'];
    RunsOfThree('1', '6', '2', s);
    ValuesOfThree('1', '6', '2');
  }

  /** ... and 6 is out of range with five detections. */
  lemma ValidOutOfRange()
    ensures ValidIds([1, 6, 2], 5) == [1, 2]
  {
    assert ValidIdsUpTo([1, 6, 2], 5, 1) == [1];
    assert ValidIdsUpTo([1, 6, 2], 5, 2) == [1];
  }

  lemma ParseNoNumbers()
    ensures ParsedIds("") == []
    ensures ParsedIds("abc") == []
  {
    NoDigitsNoIds("abc");
  }

  // ---------------------------------------------------------------------
  // select_players_terminal
  // ---------------------------------------------------------------------

  /** A detection on the selection frame, with integer pixel coordinates. */
  datatype Detection = Detection(bbox: IntBox)

  /** One selected player as written to the selection file. */
  datatype PlayerRecord = PlayerRecord(selectionId: int, name: string, initialBbox: IntBox)

  datatype Selection = Selection(selectionFrame: int, players: seq<PlayerRecord>)

  /** An out-of-range frame index falls back to 0 (a negative index is
      left as it is). */
  function ClampFrameIndex(frameIndex: int, totalFrames: int): (r: int)
    ensures frameIndex >= totalFrames ==> r == 0
    ensures frameIndex < totalFrames ==> r == frameIndex
  {
    if frameIndex >= totalFrames then 0 else frameIndex
  }

  /** For a non-empty video and a non-negative index the frame read is
      inside the video. */
  lemma ClampedFrameInVideo(frameIndex: int, totalFrames: int)
    requires 0 <= frameIndex && 0 < totalFrames
    ensures 0 <= ClampFrameIndex(frameIndex, totalFrames) < totalFrames
  {
  }

  /** `selected_ids[:max_players]` when there are more than `max_players`. */
  function TruncateSelection(ids: seq<int>, maxPlayers: int): (r: seq<int>)
    ensures |ids| <= maxPlayers ==> r == ids
    ensures 0 <= maxPlayers < |ids| ==> r == ids[..maxPlayers]
    ensures maxPlayers < 0 ==> r == ids[..MaxI(0, |ids| + maxPlayers)]
    ensures |r| <= |ids| && forall k :: 0 <= k < |r| ==> r[k] == ids[k]
  {
    if |ids| > maxPlayers then Take(ids, maxPlayers) else ids
  }

  /** The typed name, stripped, or `Player_<pid>` when blank. */
  function PlayerName(pid: int, typed: string): (name: string)
    ensures Strip(typed) != [] ==> name == Strip(typed)
    ensures Strip(typed) == [] && pid >= 0 ==> name == "Player_" + NatToString(pid)
  {
    var stripped := Strip(typed);
    if stripped != [] then stripped
    else if pid >= 0 then "Player_" + NatToString(pid)
    else "Player_-" + NatToString(-pid)
  }

  /** The record of selected detection `pid`, named from the typed answer. */
  function RecordFor(pid: int, typed: string, detections: seq<Detection>): PlayerRecord
    requires 1 <= pid <= |detections|
  {
    PlayerRecord(pid, PlayerName(pid, typed), detections[pid - 1].bbox)
  }

  /** The player records: the k-th selected id `pid` gets the name typed for
      it and the box of detection `pid - 1`. */
  function BuildRecords(ids: seq<int>, nameFor: int -> string, detections: seq<Detection>): (r: seq<PlayerRecord>)
    requires forall k :: 0 <= k < |ids| ==> 1 <= ids[k] <= |detections|
    ensures |r| == |ids|
    ensures forall k :: 0 <= k < |ids| ==> r[k] == RecordFor(ids[k], nameFor(ids[k]), detections)
  {
    seq(|ids|, k requires 0 <= k < |ids| => RecordFor(ids[k], nameFor(ids[k]), detections))
  }

  /** The confirmation is declined exactly by an answer that is `n` or `N`
      once surrounding whitespace is stripped. */
  predicate Declined(answer: string)
  {
    Strip(answer) == "n" || Strip(answer) == "N"
  }

  /** The ids that become players: the valid ids, cut to `max_players`. */
  function ChosenIds(input: string, detections: seq<Detection>, maxPlayers: int): (ids: seq<int>)
    ensures forall k :: 0 <= k < |ids| ==> 1 <= ids[k] <= |detections|
  {
    TruncateSelection(ValidIds(ParsedIds(input), |detections|), maxPlayers)
  }

  /** The chosen ids are distinct ids the user typed, and there are between
      one and `max_players` of them when any id was valid. */
  lemma ChosenIdsFacts(input: string, detections: seq<Detection>, maxPlayers: int)
    ensures var ids := ChosenIds(input, detections, maxPlayers);
      && (maxPlayers > 0 && ValidIds(ParsedIds(input), |detections|) != [] ==> 0 < |ids|)
      && (maxPlayers >= 0 ==> |ids| <= maxPlayers)
      && (forall a, b :: 0 <= a < b < |ids| ==> ids[a] != ids[b])
      && (forall a :: 0 <= a < |ids| ==> ids[a] in ParsedIds(input))
  {
    var valid := ValidIds(ParsedIds(input), |detections|);
    ValidIdsFacts(ParsedIds(input), |detections|);
    var ids := ChosenIds(input, detections, maxPlayers);
    assert forall a :: 0 <= a < |ids| ==> ids[a] == valid[a] && valid[a] in valid;
  }

  /** The selection dialogue once the frame is read: no detection, no valid
      id or a declined confirmation give no selection; otherwise the chosen
      ids become records, in the order first typed. `nameFor(pid)` is the
      answer typed for player `pid`. */
  function SelectPlayers(frameIndex: int, totalFrames: int, detections: seq<Detection>, input: string,
                         maxPlayers: int, nameFor: int -> string, answer: string): (r: Option<Selection>)
    ensures r.None? <==> (detections == [] || ValidIds(ParsedIds(input), |detections|) == [] || Declined(answer))
    ensures r.Some? ==> r.value.selectionFrame == ClampFrameIndex(frameIndex, totalFrames)
    ensures r.Some? ==>
      r.value.players == BuildRecords(ChosenIds(input, detections, maxPlayers), nameFor, detections)
  {
    if detections == [] || ValidIds(ParsedIds(input), |detections|) == [] || Declined(answer) then None
    else
      Some(Selection(ClampFrameIndex(frameIndex, totalFrames),
                     BuildRecords(ChosenIds(input, detections, maxPlayers), nameFor, detections)))
  }

  /** A selection holds between one and `max_players` distinct players, each
      a detection the user typed, carrying that detection's box. */
  lemma SelectionFacts(frameIndex: int, totalFrames: int, detections: seq<Detection>, input: string,
                       maxPlayers: int, nameFor: int -> string, answer: string, sel: Selection)
    requires SelectPlayers(frameIndex, totalFrames, detections, input, maxPlayers, nameFor, answer) == Some(sel)
    ensures maxPlayers > 0 ==> 0 < |sel.players|
    ensures maxPlayers >= 0 ==> |sel.players| <= maxPlayers
    ensures forall a, b :: 0 <= a < b < |sel.players| ==> sel.players[a].selectionId != sel.players[b].selectionId
    ensures forall a :: 0 <= a < |sel.players| ==>
      && 1 <= sel.players[a].selectionId <= |detections|
      && sel.players[a].selectionId in ParsedIds(input)
      && sel.players[a].initialBbox == detections[sel.players[a].selectionId - 1].bbox
  {
    var ids := ChosenIds(input, detections, maxPlayers);
    var parsed := ParsedIds(input);
    ChosenIdsFacts(input, detections, maxPlayers);
    RecordsOf(ids, nameFor, detections, sel.players);
    forall a | 0 <= a < |sel.players|
      ensures 1 <= sel.players[a].selectionId <= |detections|
      ensures sel.players[a].selectionId in parsed
      ensures sel.players[a].initialBbox == detections[sel.players[a].selectionId - 1].bbox
    {
      assert sel.players[a].selectionId == ids[a];
    }
  }

  /** Each record carries its id and the box of that detection. */
  lemma RecordsOf(ids: seq<int>, nameFor: int -> string, detections: seq<Detection>, players: seq<PlayerRecord>)
    requires forall k :: 0 <= k < |ids| ==> 1 <= ids[k] <= |detections|
    requires players == BuildRecords(ids, nameFor, detections)
    ensures |players| == |ids|
    ensures forall a :: 0 <= a < |ids| ==>
      players[a].selectionId == ids[a] && players[a].initialBbox == detections[ids[a] - 1].bbox
  {
  }
}
