/** The click-to-select player selector: clicks on the frame toggle the first
    detection under the pointer, a toggle either drops a selected player or
    adds a new one (up to `max_players`) with the name typed for it, `R`
    clears the selection, `N`/`P` step through the video, and the result
    lists the selected players in the order they were picked.

    The detector, the window and the keyboard stay outside: a frame reaches
    the model as its detection boxes, and the name typed at the prompt is a
    parameter of the toggle. */
module PlayerSelectorGui {
  import opened Wrappers
  import opened Numeric
  import opened PersonTracker
  import opened PlayerSelectorTerminal

  /** `_is_point_in_bbox`: inclusive on all four edges. */
  predicate PointInBbox(x: int, y: int, b: IntBox)
  {
    b.x1 <= x <= b.x2 && b.y1 <= y <= b.y2
  }

  /** Both corners of a box are inside it, and one pixel to the right of the
      bottom-right corner is not. */
  lemma PointInBboxExamples()
    ensures PointInBbox(100, 100, IntBox(100, 100, 200, 200))
    ensures PointInBbox(200, 200, IntBox(100, 100, 200, 200))
    ensures !PointInBbox(201, 200, IntBox(100, 100, 200, 200))
  {
  }

  /** The first detection at or after `start` that contains the point. */
  function FirstHitFrom(dets: seq<IntBox>, x: int, y: int, start: nat): (r: Option<nat>)
    requires start <= |dets|
    ensures r.None? <==> forall i :: start <= i < |dets| ==> !PointInBbox(x, y, dets[i])
    ensures r.Some? ==>
      && start <= r.value < |dets|
      && PointInBbox(x, y, dets[r.value])
      && forall i :: start <= i < r.value ==> !PointInBbox(x, y, dets[i])
    decreases |dets| - start
  {
    if start == |dets| then None
    else if PointInBbox(x, y, dets[start]) then Some(start)
    else FirstHitFrom(dets, x, y, start + 1)
  }

  /** The detection a left click at `(x, y)` hits: the first one containing
      the point, if any. */
  function FirstHit(dets: seq<IntBox>, x: int, y: int): Option<nat>
  {
    FirstHitFrom(dets, x, y, 0)
  }

  /** `seq.remove(x)`: drop the first occurrence of `x`, if any. */
  function RemoveFirst(s: seq<int>, x: int): (r: seq<int>)
    ensures x !in s ==> r == s
    ensures x in s ==> |r| == |s| - 1
  {
    if s == [] then []
    else if s[0] == x then s[1..]
    else [s[0]] + RemoveFirst(s[1..], x)
  }

  /** The removal cuts out exactly the first occurrence. */
  lemma {:induction false} RemoveFirstSplice(s: seq<int>, x: int)
    requires x in s
    ensures RemoveFirst(s, x) == s[..FirstIndex(s, x)] + s[FirstIndex(s, x) + 1..]
  {
    if s[0] != x {
      assert x in s[1..];
      RemoveFirstSplice(s[1..], x);
      var k := FirstIndex(s[1..], x);
      assert s[..k + 1] == [s[0]] + s[1..][..k];
      assert s[k + 2..] == s[1..][k + 1..];
    }
  }

  predicate Distinct(s: seq<int>)
  {
    forall a, b :: 0 <= a < b < |s| ==> s[a] != s[b]
  }

  /** Removing an element from a list without repetitions keeps the other
      elements, without repetitions. */
  lemma RemoveFirstDistinct(s: seq<int>, x: int)
    requires Distinct(s)
    ensures Distinct(RemoveFirst(s, x))
    ensures forall y :: y in RemoveFirst(s, x) <==> y in s && y != x
  {
    if x in s {
      RemoveFirstSplice(s, x);
      SpliceDistinct(s, FirstIndex(s, x));
    }
  }

  /** Cutting position `f` out of a list without repetitions leaves a list
      without repetitions holding every other element. */
  lemma SpliceDistinct(s: seq<int>, f: nat)
    requires f < |s| && Distinct(s)
    ensures var r := s[..f] + s[f + 1..];
      && Distinct(r)
      && (forall y :: y in r <==> y in s && y != s[f])
  {
    var r := s[..f] + s[f + 1..];
    assert forall a :: 0 <= a < |r| ==> r[a] == s[if a < f then a else a + 1];
    forall j | 0 <= j < |s| && j != f
      ensures s[j] in r
    {
      if j < f {
        assert r[j] == s[j];
      } else {
        assert r[j - 1] == s[j];
      }
    }
  }


  /** The selection part of the selector's state. */
  datatype SelectionState = SelectionState(selected: seq<int>, names: map<int, string>)

  const NoSelection := SelectionState([], map[])

  /** The selected indices are distinct detection positions, there are at
      most `max_players` of them, and exactly the selected ones are named. */
  ghost predicate Consistent(st: SelectionState, maxPlayers: int)
  {
    && Distinct(st.selected)
    && (forall i :: i in st.selected ==> 0 <= i)
    && (forall i :: i in st.names <==> i in st.selected)
    && |st.selected| <= MaxI(0, maxPlayers)
  }

  /** `_toggle_selection(index)` with `typed` as the answer to the name
      prompt. */
  function Toggle(st: SelectionState, index: nat, maxPlayers: int, typed: string): (r: SelectionState)
    ensures index in st.selected ==> r == SelectionState(RemoveFirst(st.selected, index), st.names - {index})
    ensures index !in st.selected && |st.selected| >= maxPlayers ==> r == st
    ensures index !in st.selected && |st.selected| < maxPlayers ==>
      && r.selected == st.selected + [index]
      && r.names == st.names[index := PlayerName(index + 1, typed)]
  {
    if index in st.selected then SelectionState(RemoveFirst(st.selected, index), st.names - {index})
    else if |st.selected| >= maxPlayers then st
    else SelectionState(st.selected + [index], st.names[index := PlayerName(index + 1, typed)])
  }

  /** Toggling keeps the selection consistent: no index twice, never more
      than `max_players`, and a name for exactly the selected indices. */
  lemma {:induction false} ToggleConsistent(st: SelectionState, index: nat, maxPlayers: int, typed: string)
    requires Consistent(st, maxPlayers)
    ensures Consistent(Toggle(st, index, maxPlayers, typed), maxPlayers)
  {
    var r := Toggle(st, index, maxPlayers, typed);
    if index in st.selected {
      RemoveFirstDistinct(st.selected, index);
    } else if |st.selected| < maxPlayers {
      assert forall a :: 0 <= a < |st.selected| ==> r.selected[a] == st.selected[a];
    }
  }

  /** Toggling twice from an unselected index with room to spare gives the
      selection back. */
  lemma ToggleTwice(st: SelectionState, index: nat, maxPlayers: int, typed: string)
    requires Consistent(st, maxPlayers)
    requires index !in st.selected && |st.selected| < maxPlayers
    ensures var r := Toggle(Toggle(st, index, maxPlayers, typed), index, maxPlayers, typed);
      r.selected == st.selected && r.names == st.names
  {
    RemoveAppended(st.selected, index);
    RemoveAddedKey(st.names, index, PlayerName(index + 1, typed));
  }

  /** Dropping a key just added to a map that lacked it gives the map back. */
  lemma RemoveAddedKey(m: map<int, string>, k: int, v: string)
    requires k !in m
    ensures m[k := v] - {k} == m
  {
  }

  /** Removing an element just appended to a list that lacked it gives the
      list back. */
  lemma RemoveAppended(s: seq<int>, x: int)
    requires x !in s
    ensures RemoveFirst(s + [x], x) == s
  {
    var t := s + [x];
    RemoveFirstSplice(t, x);
    assert forall a :: 0 <= a < |s| ==> t[a] == s[a] && s[a] != x;
    assert FirstIndex(t, x) == |s|;
    assert t[..|s|] == s;
  }


  /** `N`: one frame on, unless already at the last frame. */
  function NextIndex(frameIndex: int, totalFrames: int): int
  {
    if frameIndex < totalFrames - 1 then frameIndex + 1 else frameIndex
  }

  /** `P`: one frame back, unless already at the first frame. */
  function PrevIndex(frameIndex: int): int
  {
    if frameIndex > 0 then frameIndex - 1 else frameIndex
  }

  /** Navigation from a frame of the video stays in the video, and moves by
      at most one frame. */
  lemma NavigationStaysInVideo(frameIndex: int, totalFrames: int)
    requires 0 <= frameIndex <= totalFrames - 1
    ensures 0 <= NextIndex(frameIndex, totalFrames) <= totalFrames - 1
    ensures 0 <= PrevIndex(frameIndex) <= totalFrames - 1
    ensures NextIndex(frameIndex, totalFrames) - frameIndex in {0, 1}
    ensures frameIndex - PrevIndex(frameIndex) in {0, 1}
  {
  }

  /** The players of `_get_result` for the first `k` selected indices, in
      selection order; `None` where the source would fail to look up a box
      or a name. */
  function ResultPlayersUpTo(st: SelectionState, dets: seq<IntBox>, k: nat): (r: Option<seq<PlayerRecord>>)
    requires k <= |st.selected|
    ensures r.Some? <==> forall a :: 0 <= a < k ==> 0 <= st.selected[a] < |dets| && st.selected[a] in st.names
    ensures r.Some? ==> |r.value| == k
    ensures r.Some? ==> forall a :: 0 <= a < k ==>
      r.value[a] == PlayerRecord(st.selected[a] + 1, st.names[st.selected[a]], dets[st.selected[a]])
  {
    if k == 0 then Some([])
    else
      var prev := ResultPlayersUpTo(st, dets, k - 1);
      var i := st.selected[k - 1];
      if prev.None? || !(0 <= i < |dets|) || i !in st.names then None
      else Some(prev.value + [PlayerRecord(i + 1, st.names[i], dets[i])])
  }

  function ResultPlayers(st: SelectionState, dets: seq<IntBox>): Option<seq<PlayerRecord>>
  {
    ResultPlayersUpTo(st, dets, |st.selected|)
  }

  /** A consistent selection whose indices all address the current frame's
      detections always yields a result, with one player per selected index
      and distinct selection ids. */
  lemma ResultOfConsistent(st: SelectionState, maxPlayers: int, dets: seq<IntBox>)
    requires Consistent(st, maxPlayers)
    requires forall a :: 0 <= a < |st.selected| ==> st.selected[a] < |dets|
    ensures ResultPlayers(st, dets).Some?
    ensures var players := ResultPlayers(st, dets).value;
      && |players| == |st.selected|
      && forall a, b :: 0 <= a < b < |players| ==> players[a].selectionId != players[b].selectionId
  {
  }

  /** The selection survives a change of frame, so an index picked on a
      frame with two detections no longer addresses a box once the new frame
      has only one: the result lookup fails. */
  lemma StaleSelectionFails()
    ensures ResultPlayers(SelectionState([1], map[1 := "A"]), [IntBox(0, 0, 10, 10)]).None?
  {
  }

  class PlayerSelector {
    var frameIndex: int
    const maxPlayers: int
    const totalFrames: int
    var detections: seq<IntBox>
    var selected: seq<int>
    var playerNames: map<int, string>

    function State(): SelectionState
      reads this
    {
      SelectionState(selected, playerNames)
    }

    ghost predicate Valid()
      reads this
    {
      Consistent(State(), maxPlayers)
    }

    /** A selector on `frameIndex` with that frame's detections and nothing
        selected. */
    constructor(frameIndex: int, maxPlayers: int, totalFrames: int, detections: seq<IntBox>)
      ensures Valid()
      ensures this.frameIndex == frameIndex && this.maxPlayers == maxPlayers
      ensures this.totalFrames == totalFrames && this.detections == detections
      ensures State() == NoSelection
    {
      this.frameIndex := frameIndex;
      this.maxPlayers := maxPlayers;
      this.totalFrames := totalFrames;
      this.detections := detections;
      selected := [];
      playerNames := map[];
    }

    /** `_toggle_selection(index)`, with `typed` the answer to the name
        prompt. */
    method ToggleSelection(index: nat, typed: string)
      requires Valid()
      modifies this
      ensures Valid()
      ensures State() == Toggle(old(State()), index, maxPlayers, typed)
      ensures frameIndex == old(frameIndex) && detections == old(detections)
    {
      ToggleConsistent(State(), index, maxPlayers, typed);
      if index in selected {
        selected := RemoveFirst(selected, index);
        playerNames := playerNames - {index};
      } else {
        if |selected| >= maxPlayers {
          return;
        }
        selected := selected + [index];
        playerNames := playerNames[index := PlayerName(index + 1, typed)];
      }
    }

    /** `_on_mouse_click`: a left click toggles the first detection
        containing the point; any other event, or a click that hits
        nothing, changes nothing. */
    method OnMouseClick(leftButtonDown: bool, x: int, y: int, typed: string)
      requires Valid()
      modifies this
      ensures Valid()
      ensures frameIndex == old(frameIndex) && detections == old(detections)
      ensures leftButtonDown && FirstHit(detections, x, y).Some? ==>
        State() == Toggle(old(State()), FirstHit(detections, x, y).value, maxPlayers, typed)
      ensures !leftButtonDown || FirstHit(detections, x, y).None? ==> State() == old(State())
    {
      if leftButtonDown {
        var i := 0;
        while i < |detections|
          invariant 0 <= i <= |detections|
          invariant FirstHit(detections, x, y) == FirstHitFrom(detections, x, y, i)
          invariant State() == old(State())
        {
          if PointInBbox(x, y, detections[i]) {
            ToggleSelection(i, typed);
            return;
          }
          i := i + 1;
        }
      }
    }

    /** `R`: clear the selection and the names. */
    method Reset()
      modifies this
      ensures Valid()
      ensures State() == NoSelection
      ensures frameIndex == old(frameIndex) && detections == old(detections)
    {
      selected := [];
      playerNames := map[];
    }

    /** `N`: step to the next frame unless on the last one. `loaded` is what
        reading the new frame gives: its detections, or nothing when the
        read fails and the old detections stay. The selection is kept. */
    method NextFrame(loaded: Option<seq<IntBox>>)
      modifies this
      ensures frameIndex == NextIndex(old(frameIndex), totalFrames)
      ensures detections == if frameIndex != old(frameIndex) && loaded.Some? then loaded.value else old(detections)
      ensures State() == old(State())
    {
      if frameIndex < totalFrames - 1 {
        frameIndex := frameIndex + 1;
        if loaded.Some? {
          detections := loaded.value;
        }
      }
    }

    /** `P`: step to the previous frame unless on the first one. */
    method PrevFrame(loaded: Option<seq<IntBox>>)
      modifies this
      ensures frameIndex == PrevIndex(old(frameIndex))
      ensures detections == if frameIndex != old(frameIndex) && loaded.Some? then loaded.value else old(detections)
      ensures State() == old(State())
    {
      if frameIndex > 0 {
        frameIndex := frameIndex - 1;
        if loaded.Some? {
          detections := loaded.value;
        }
      }
    }

    /** `_get_result` without the screenshot: the players in selection
        order, each with `selection_id = index + 1`, its name and the box of
        its detection on the current frame; `None` where a selected index
        addresses no detection of the current frame. */
    method GetResult() returns (r: Option<Selection>)
      ensures r.None? <==> ResultPlayers(State(), detections).None?
      ensures r.Some? ==> r.value == Selection(frameIndex, ResultPlayers(State(), detections).value)
    {
      var players: seq<PlayerRecord> := [];
      for k := 0 to |selected|
        invariant ResultPlayersUpTo(State(), detections, k) == Some(players)
      {
        var i := selected[k];
        if !(0 <= i < |detections|) || i !in playerNames {
          return None;
        }
        players := players + [PlayerRecord(i + 1, playerNames[i], detections[i])];
      }
      r := Some(Selection(frameIndex, players));
    }
  }
}
