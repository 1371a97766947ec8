/** The named-player cropper: player names become safe file names
    (`sanitize_filename`), repeated names get numbered suffixes, and every
    player's writer receives one frame per processed source frame. */
module NamedVideoCropper {
  import opened Wrappers
  import opened Numeric
  import opened Geometry
  import opened Text

  // ---------------------------------------------------------------------
  // sanitize_filename
  // ---------------------------------------------------------------------

  const UnknownName := "player_unknown"

  /** The characters the pattern `[a-z0-9]` accepts. */
  predicate IsWordChar(c: char) { 'a' <= c <= 'z' || '0' <= c <= '9' }

  predicate IsSafeChar(c: char) { IsWordChar(c) || c == '_' }

  predicate IsAscii(s: string) { forall i :: 0 <= i < |s| ==> s[i] as int < 128 }

  predicate HasAlnum(s: string, isAlnum: char -> bool)
  {
    exists i :: 0 <= i < |s| && isAlnum(s[i])
  }

  predicate NoDoubleUnderscore(s: string)
  {
    forall i :: 0 <= i < |s| - 1 ==> !(s[i] == '_' && s[i + 1] == '_')
  }

  /** What a sanitized name looks like: non-empty, only `[a-z0-9_]`, no
      underscore at either end and never two in a row. */
  predicate IsSafeName(s: string)
  {
    && s != []
    && (forall i :: 0 <= i < |s| ==> IsSafeChar(s[i]))
    && s[0] != '_' && s[|s| - 1] != '_'
    && NoDoubleUnderscore(s)
  }

  function LowerChar(c: char): char
  {
    if 'A' <= c <= 'Z' then (c as int + 32) as char else c
  }

  /** `str.lower()` on an ASCII string. */
  function Lower(s: string): (r: string)
    ensures |r| == |s| && forall i :: 0 <= i < |s| ==> r[i] == LowerChar(s[i])
  {
    seq(|s|, i requires 0 <= i < |s| => LowerChar(s[i]))
  }

  /** Drops the leading run of characters outside `[a-z0-9]`. */
  function DropRun(s: string): (r: string)
    ensures |r| <= |s|
    ensures r == [] || IsWordChar(r[0])
  {
    if s != [] && !IsWordChar(s[0]) then DropRun(s[1..]) else s
  }

  /** `re.sub(r"[^a-z0-9]+", "_", s)`: every maximal run of characters
      outside `[a-z0-9]` becomes one underscore. */
  function Collapse(s: string): string
    decreases |s|
  {
    if s == [] then []
    else if IsWordChar(s[0]) then [s[0]] + Collapse(s[1..])
    else "_" + Collapse(DropRun(s[1..]))
  }

  /** The collapsed string holds only `[a-z0-9_]`, never two underscores
      in a row, and starts with an underscore exactly when `s` starts
      outside `[a-z0-9]`. */
  lemma {:induction false} CollapseShape(s: string)
    ensures var r := Collapse(s);
      && (r == [] <==> s == [])
      && (s != [] && IsWordChar(s[0]) ==> r[0] == s[0])
      && (s != [] && !IsWordChar(s[0]) ==> r[0] == '_')
      && (forall i :: 0 <= i < |r| ==> IsSafeChar(r[i]))
      && NoDoubleUnderscore(r)
    decreases |s|
  {
    if s != [] {
      if IsWordChar(s[0]) {
        CollapseShape(s[1..]);
      } else {
        CollapseShape(DropRun(s[1..]));
      }
    }
  }

  /** How many underscores `s` starts with. */
  function LeadingUnderscores(s: string): (n: nat)
    ensures n <= |s|
    ensures forall i :: 0 <= i < n ==> s[i] == '_'
    ensures n == |s| || s[n] != '_'
  {
    if s != [] && s[0] == '_' then 1 + LeadingUnderscores(s[1..]) else 0
  }

  /** How much of `s` is left once its trailing underscores are cut. */
  function BeforeTrailingUnderscores(s: string): (n: nat)
    ensures n <= |s|
    ensures forall i :: n <= i < |s| ==> s[i] == '_'
    ensures n == 0 || s[n - 1] != '_'
  {
    if s != [] && s[|s| - 1] == '_' then BeforeTrailingUnderscores(s[..|s| - 1]) else |s|
  }

  function DropLeadingUnderscores(s: string): (r: string)
    ensures r == [] || r[0] != '_'
  {
    s[LeadingUnderscores(s)..]
  }

  function DropTrailingUnderscores(s: string): (r: string)
    ensures r == [] || r[|r| - 1] != '_'
  {
    s[..BeforeTrailingUnderscores(s)]
  }

  /** `s.strip("_")`. */
  function StripUnderscores(s: string): string
  {
    DropTrailingUnderscores(DropLeadingUnderscores(s))
  }

  /** Stripping a collapsed string keeps it free of unsafe characters and
      doubled underscores, and removes the underscores at its ends. */
  lemma {:induction false} StripCollapsed(s: string)
    requires forall i :: 0 <= i < |s| ==> IsSafeChar(s[i])
    requires NoDoubleUnderscore(s)
    ensures var r := StripUnderscores(s);
      r == [] || IsSafeName(r)
  {
    var t := DropLeadingUnderscores(s);
    var r := DropTrailingUnderscores(t);
    var k := |s| - |t|;
    if r != [] {
      forall i | 0 <= i < |r|
        ensures r[i] == s[k + i]
      {
        assert r[i] == t[i];
      }
      SafeWindow(s, r, k);
      assert r[0] == t[0];
    }
  }

  /** A window of a string of safe characters without doubled underscores
      has the same two properties. */
  lemma SafeWindow(s: string, r: string, k: nat)
    requires k + |r| <= |s|
    requires forall i :: 0 <= i < |r| ==> r[i] == s[k + i]
    requires forall i :: 0 <= i < |s| ==> IsSafeChar(s[i])
    requires NoDoubleUnderscore(s)
    ensures forall i :: 0 <= i < |r| ==> IsSafeChar(r[i])
    ensures NoDoubleUnderscore(r)
  {
    forall i | 0 <= i < |r| - 1
      ensures !(r[i] == '_' && r[i + 1] == '_')
    {
      assert r[i] == s[k + i] && r[i + 1] == s[k + i + 1];
    }
  }

  /** `sanitize_filename`. The Unicode decomposition to ASCII (`fold`) and
      `str.isalnum` (`isAlnum`) are parameters. */
  function SanitizeFilename(name: string, isAlnum: char -> bool, fold: string -> string): (r: string)
    ensures IsSafeName(r)
    ensures !HasAlnum(name, isAlnum) ==> r == UnknownName
    ensures HasAlnum(name, isAlnum) ==>
      var stripped := StripUnderscores(Collapse(Lower(fold(name))));
      r == if stripped == [] then UnknownName else stripped
  {
    if name == [] || !HasAlnum(name, isAlnum) then UnknownName
    else
      var collapsed := Collapse(Lower(fold(name)));
      CollapseShape(Lower(fold(name)));
      StripCollapsed(collapsed);
      var stripped := StripUnderscores(collapsed);
      if stripped == [] then UnknownName else stripped
  }

  /** A name with an alphanumeric character that the ASCII decomposition
      erases entirely (a letter without an ASCII base, such as `Đ` under a
      fold that drops it) still falls back to `player_unknown`. */
  lemma SanitizeErasedByFold(name: string, isAlnum: char -> bool, fold: string -> string)
    requires HasAlnum(name, isAlnum) && fold(name) == []
    ensures SanitizeFilename(name, isAlnum, fold) == UnknownName
  {
    assert Lower(fold(name)) == [];
  }

  /** A safe name is a fixed point of collapsing. */
  lemma {:induction false} CollapseOfSafe(s: string)
    requires forall i :: 0 <= i < |s| ==> IsSafeChar(s[i])
    requires NoDoubleUnderscore(s)
    ensures Collapse(s) == s
    decreases |s|
  {
    if s != [] {
      assert forall i :: 0 <= i < |s[1..]| ==> IsSafeChar(s[1..][i]);
      assert NoDoubleUnderscore(s[1..]);
      CollapseOfSafe(s[1..]);
      if !IsWordChar(s[0]) {
        assert DropRun(s[1..]) == s[1..];
      }
    }
  }

  /** Sanitizing a sanitized name changes nothing, given a decomposition
      that leaves ASCII text alone and an `isalnum` that accepts
      `[a-z0-9]`. */
  lemma SanitizeIdempotent(name: string, isAlnum: char -> bool, fold: string -> string)
    requires forall s :: IsAscii(s) ==> fold(s) == s
    requires forall c :: IsWordChar(c) ==> isAlnum(c)
    ensures var r := SanitizeFilename(name, isAlnum, fold);
      SanitizeFilename(r, isAlnum, fold) == r
  {
    var r := SanitizeFilename(name, isAlnum, fold);
    assert isAlnum(r[0]);
    assert IsAscii(r);
    assert fold(r) == r;
    assert Lower(r) == r;
    CollapseOfSafe(r);
    assert DropLeadingUnderscores(r) == r;
    assert DropTrailingUnderscores(r) == r;
  }

  /** What a run drop leaves is a suffix of its input. */
  lemma {:induction false} DropRunIsSuffix(x: string)
    ensures DropRun(x) == x[|x| - |DropRun(x)|..]
    decreases |x|
  {
    if x != [] && !IsWordChar(x[0]) {
      DropRunIsSuffix(x[1..]);
    }
  }

  /** A run that ends before the end of `x` is unaffected by what follows. */
  lemma {:induction false} DropRunAppend(x: string, b: string)
    requires x != [] && IsWordChar(x[|x| - 1])
    ensures DropRun(x + b) == DropRun(x) + b
    decreases |x|
  {
    if !IsWordChar(x[0]) {
      assert (x + b)[1..] == x[1..] + b;
      DropRunAppend(x[1..], b);
    }
  }

  /** Collapsing works piece by piece when the cut follows a word
      character: no run of other characters spans the cut. */
  lemma {:induction false} CollapseSplit(a: string, b: string)
    requires a == [] || IsWordChar(a[|a| - 1])
    ensures Collapse(a + b) == Collapse(a) + Collapse(b)
    decreases |a|
  {
    if a == [] {
      assert a + b == b;
    } else if IsWordChar(a[0]) {
      assert (a + b)[1..] == a[1..] + b;
      CollapseSplit(a[1..], b);
    } else {
      assert (a + b)[1..] == a[1..] + b;
      DropRunAppend(a[1..], b);
      var d := DropRun(a[1..]);
      DropRunIsSuffix(a[1..]);
      CollapseSplit(d, b);
    }
  }

  predicate AsciiAlnum(c: char) { 'a' <= c <= 'z' || 'A' <= c <= 'Z' || '0' <= c <= '9' }

  /** The two library pieces on ASCII text: decomposition changes nothing
      and `isalnum` accepts exactly the ASCII letters and digits. */
  ghost predicate AsciiOracles(isAlnum: char -> bool, fold: string -> string)
  {
    && (forall c :: c as int < 128 ==> (isAlnum(c) <==> AsciiAlnum(c)))
    && (forall s :: IsAscii(s) ==> fold(s) == s)
  }

  // Fixtures. The solver evaluates functions on string literals eagerly,
  // so each example is cut into short pieces, each piece is collapsed in a
  // lemma of its own, and the pieces are joined with CollapseSplit.

  lemma LowerPlayerNumber(name: string, a: string, b: string)
    requires name == "Player #1" && a == "player" && b == " #1"
    ensures Lower(name) == a + b
  {
  }

  lemma CollapsePlayer() ensures Collapse("player") == "player" {}
  lemma CollapseNumber() ensures Collapse(" #1") == "_1" {}

  lemma CollapsePlayerNumber(a: string, b: string)
    requires a == "player" && b == " #1"
    ensures Collapse(a + b) == "player_1"
  {
    CollapseSplit(a, b);
    CollapsePlayer();
    CollapseNumber();
  }

  lemma SanitizePlayerNumber(isAlnum: char -> bool, fold: string -> string)
    requires AsciiOracles(isAlnum, fold)
    ensures SanitizeFilename("Player #1", isAlnum, fold) == "player_1"
  {
    var name := "Player #1";
    assert isAlnum(name[0]);
    assert IsAscii(name);
    var a, b := "player", " #1";
    LowerPlayerNumber(name, a, b);
    CollapsePlayerNumber(a, b);
    var r := "player_1";
    StripNone(r);
    SanitizeByParts(name, isAlnum, fold, a + b, r, r);
  }


  /** A name with a letter or digit is sanitized in its three steps: lower
      case, collapse, strip. */
  lemma SanitizeByParts(name: string, isAlnum: char -> bool, fold: string -> string,
                        lowered: string, collapsed: string, r: string)
    requires AsciiOracles(isAlnum, fold)
    requires HasAlnum(name, isAlnum) && IsAscii(name)
    requires Lower(name) == lowered && Collapse(lowered) == collapsed
    requires StripUnderscores(collapsed) == r && r != []
    ensures SanitizeFilename(name, isAlnum, fold) == r
  {
    assert fold(name) == name;
  }

  lemma LowerSpaceTest(name: string, a: string, b: string, c: string)
    requires name == "  Space Test  " && a == "  space" && b == " test" && c == "  "
    ensures Lower(name) == a + (b + c)
  {
  }

  lemma CollapseSpace() ensures Collapse("  space") == "_space" {}
  lemma CollapseTest() ensures Collapse(" test") == "_test" {}
  lemma CollapseSpaces() ensures Collapse("  ") == "_" {}

  lemma CollapseTestSpaces(b: string, c: string)
    requires b == " test" && c == "  "
    ensures Collapse(b + c) == "_test_"
  {
    CollapseSplit(b, c);
    CollapseTest();
    CollapseSpaces();
  }

  lemma CollapseSpaceTest(a: string, bc: string)
    requires a == "  space" && Collapse(bc) == "_test_"
    ensures Collapse(a + bc) == "_space_test_"
  {
    CollapseSplit(a, bc);
    CollapseSpace();
  }

  /** A leading underscore before a non-underscore is dropped alone. */
  lemma DropOneLeading(u: string)
    requires u != [] && u[0] != '_'
    ensures DropLeadingUnderscores(['_'] + u) == u
  {
    assert (['_'] + u)[1..] == u;
  }

  /** A trailing underscore after a non-underscore is dropped alone. */
  lemma DropOneTrailing(t: string)
    requires t != [] && t[|t| - 1] != '_'
    ensures DropTrailingUnderscores(t + ['_']) == t
  {
    assert (t + ['_'])[..|t|] == t;
  }

  /** One underscore on each side of a word is stripped, and nothing more. */
  lemma StripOneEach(t: string)
    requires t != [] && t[0] != '_' && t[|t| - 1] != '_'
    ensures StripUnderscores(['_'] + t + ['_']) == t
  {
    assert ['_'] + t + ['_'] == ['_'] + (t + ['_']);
    DropOneLeading(t + ['_']);
    DropOneTrailing(t);
  }

  /** A word with no underscore at either end is left as it is. */
  lemma StripNone(t: string)
    requires t != [] && t[0] != '_' && t[|t| - 1] != '_'
    ensures StripUnderscores(t) == t
  {
    assert DropLeadingUnderscores(t) == t;
  }

  /** One underscore after a word is stripped, and nothing more. */
  lemma StripTrailingOne(t: string)
    requires t != [] && t[0] != '_' && t[|t| - 1] != '_'
    ensures StripUnderscores(t + ['_']) == t
  {
    assert DropLeadingUnderscores(t + ['_']) == t + ['_'];
    DropOneTrailing(t);
  }

  lemma StripSpaceTest() ensures StripUnderscores("_space_test_") == "space_test"
  {
    StripOneEach("space_test");
    assert ['_'] + "space_test" + ['_'] == "_space_test_";
  }

  lemma SanitizeSurroundingSpaces(isAlnum: char -> bool, fold: string -> string)
    requires AsciiOracles(isAlnum, fold)
    ensures SanitizeFilename("  Space Test  ", isAlnum, fold) == "space_test"
  {
    var name := "  Space Test  ";
    assert isAlnum(name[2]);
    assert IsAscii(name);
    var a, b, c := "  space", " test", "  ";
    LowerSpaceTest(name, a, b, c);
    CollapseTestSpaces(b, c);
    CollapseSpaceTest(a, b + c);
    StripSpaceTest();
    SanitizeByParts(name, isAlnum, fold, a + (b + c), "_space_test_", "space_test");
  }

  lemma LowerMixedSymbols(name: string, a: string, b: string, c: string, d: string)
    requires name == "Mixed-Case_Symbols!" && a == "mixed" && b == "-case" && c == "_symbols" && d == "!"
    ensures Lower(name) == a + (b + (c + d))
  {
  }

  lemma CollapseMixed() ensures Collapse("mixed") == "mixed" {}
  lemma CollapseCase() ensures Collapse("-case") == "_case" {}
  lemma CollapseSymbols() ensures Collapse("_symbols") == "_symbols" {}
  lemma CollapseBang() ensures Collapse("!") == "_" {}

  lemma CollapseSymbolsBang(c: string, d: string)
    requires c == "_symbols" && d == "!"
    ensures Collapse(c + d) == "_symbols_"
  {
    CollapseSplit(c, d);
    CollapseSymbols();
    CollapseBang();
  }

  lemma CollapseCaseSymbols(b: string, cd: string)
    requires b == "-case" && Collapse(cd) == "_symbols_"
    ensures Collapse(b + cd) == "_case_symbols_"
  {
    CollapseSplit(b, cd);
    CollapseCase();
  }

  lemma CollapseMixedCaseSymbols(a: string, bcd: string)
    requires a == "mixed" && Collapse(bcd) == "_case_symbols_"
    ensures Collapse(a + bcd) == "mixed_case_symbols_"
  {
    assert IsWordChar(a[|a| - 1]);
    CollapseSplit(a, bcd);
    assert Collapse(a) == "mixed" by {
      CollapseMixed();
    }
    assert "mixed" + "_case_symbols_" == "mixed_case_symbols_";
  }

  lemma StripMixedSymbols() ensures StripUnderscores("mixed_case_symbols_") == "mixed_case_symbols"
  {
    StripTrailingOne("mixed_case_symbols");
    assert "mixed_case_symbols" + ['_'] == "mixed_case_symbols_";
  }

  lemma SanitizeMixedSymbols(isAlnum: char -> bool, fold: string -> string)
    requires AsciiOracles(isAlnum, fold)
    ensures SanitizeFilename("Mixed-Case_Symbols!", isAlnum, fold) == "mixed_case_symbols"
  {
    var name := "Mixed-Case_Symbols!";
    assert isAlnum(name[0]);
    assert IsAscii(name);
    var a, b, c, d := "mixed", "-case", "_symbols", "!";
    LowerMixedSymbols(name, a, b, c, d);
    CollapseSymbolsBang(c, d);
    CollapseCaseSymbols(b, c + d);
    CollapseMixedCaseSymbols(a, b + (c + d));
    StripMixedSymbols();
    SanitizeByParts(name, isAlnum, fold, a + (b + (c + d)), "mixed_case_symbols_", "mixed_case_symbols");
  }

  lemma SanitizeNoAlnum(isAlnum: char -> bool, fold: string -> string)
    requires AsciiOracles(isAlnum, fold)
    ensures SanitizeFilename("!!!", isAlnum, fold) == UnknownName
  {
    var name := "!!!";
    assert !isAlnum(name[0]) && !isAlnum(name[1]) && !isAlnum(name[2]);
    assert !HasAlnum(name, isAlnum);
  }

  // ---------------------------------------------------------------------
  // Duplicate names
  // ---------------------------------------------------------------------

  /** The name written for position `i`: a name that occurs more than once
      gets `_k` for its k-th occurrence, any other name is kept. */
  function SuffixedName(names: seq<string>, i: nat): string
    requires i < |names|
  {
    if multiset(names)[names[i]] > 1
    then names[i] + "_" + NatToString(multiset(names[..i + 1])[names[i]])
    else names[i]
  }

  function CounterGet(counts: map<string, nat>, name: string): nat
  {
    if name in counts then counts[name] else 0
  }

  /** The names written for the first `n` positions. */
  function SuffixedNames(names: seq<string>, n: nat): (r: seq<string>)
    requires n <= |names|
  {
    if n == 0 then [] else SuffixedNames(names, n - 1) + [SuffixedName(names, n - 1)]
  }

  lemma {:induction false} SuffixedNamesAt(names: seq<string>, n: nat)
    requires n <= |names|
    ensures |SuffixedNames(names, n)| == n
    ensures forall k :: 0 <= k < n ==> SuffixedNames(names, n)[k] == SuffixedName(names, k)
  {
    if n > 0 {
      SuffixedNamesAt(names, n - 1);
    }
  }

  /** The suffixing loop of `crop_named_player_videos` (the test
      `name in sanitized_names` always holds and is not repeated here). */
  method SuffixDuplicates(names: seq<string>) returns (finals: seq<string>)
    ensures |finals| == |names|
    ensures forall i :: 0 <= i < |names| ==> finals[i] == SuffixedName(names, i)
  {
    finals := [];
    var counts: map<string, nat> := map[];
    for i := 0 to |names|
      invariant finals == SuffixedNames(names, i)
      invariant CountsSoFar(names, i, counts)
    {
      var name := names[i];
      CountsStep(names, i, counts);
      var next;
      if multiset(names)[name] > 1 {
        var c := CounterGet(counts, name) + 1;
        counts := counts[name := c];
        next := name + "_" + NatToString(c);
      } else {
        next := name;
      }
      finals := finals + [next];
    }
    SuffixedNamesAt(names, |names|);
  }

  /** The counter holds, for every repeated name, its occurrences among
      the first `i` names. */
  ghost predicate CountsSoFar(names: seq<string>, i: nat, counts: map<string, nat>)
    requires i <= |names|
  {
    forall n :: multiset(names)[n] > 1 ==> CounterGet(counts, n) == multiset(names[..i])[n]
  }

  lemma CountsStep(names: seq<string>, i: nat, counts: map<string, nat>)
    requires i < |names| && CountsSoFar(names, i, counts)
    ensures var name := names[i];
      && SuffixedName(names, i) == (if multiset(names)[name] > 1
                                    then name + "_" + NatToString(CounterGet(counts, name) + 1)
                                    else name)
      && (multiset(names)[name] > 1 ==>
            && CounterGet(counts, name) + 1 == multiset(names[..i + 1])[name]
            && CountsSoFar(names, i + 1, counts[name := CounterGet(counts, name) + 1]))
      && (multiset(names)[name] <= 1 ==> CountsSoFar(names, i + 1, counts))
  {
    assert names[..i + 1] == names[..i] + [names[i]];
  }

  /** A name that occurs once keeps its spelling. */
  lemma UniqueNameKept(names: seq<string>, i: nat)
    requires i < |names| && multiset(names)[names[i]] == 1
    ensures SuffixedName(names, i) == names[i]
  {
  }

  /** Two occurrences of the same repeated name get different suffixes. */
  lemma {:induction false} RepeatedNamesDiffer(names: seq<string>, i: nat, j: nat)
    requires i < j < |names| && names[i] == names[j]
    ensures SuffixedName(names, i) != SuffixedName(names, j)
  {
    var n := names[i];
    assert multiset(names)[n] > 1 by {
      assert names == names[..i] + [n] + names[i + 1..j] + [n] + names[j + 1..];
    }
    assert names[..j + 1] == names[..i + 1] + names[i + 1..j] + [n];
    var ci := multiset(names[..i + 1])[n];
    var cj := multiset(names[..j + 1])[n];
    assert ci < cj;
    if SuffixedName(names, i) == SuffixedName(names, j) {
      var p := n + "_";
      assert p + NatToString(ci) == p + NatToString(cj);
      assert NatToString(ci) == (p + NatToString(ci))[|p|..];
      assert NatToString(cj) == (p + NatToString(cj))[|p|..];
      NatToStringInjective(ci, cj);
      assert false;
    }
  }

  /** Suffixing does not make all names distinct: a name that already ends
      in `_1` collides with the first suffixed copy of its stem. */
  lemma SuffixCollision()
    ensures var names := ["a", "a", "a_1"];
      SuffixedName(names, 0) == "a_1" == SuffixedName(names, 2)
  {
    var names := ["a", "a", "a_1"];
    assert multiset(names)["a"] == 2;
    assert multiset(names)["a_1"] == 1;
    assert names[..1] == ["a"];
  }

  // ---------------------------------------------------------------------
  // Tracking data and names
  // ---------------------------------------------------------------------

  /** One entry of `tracks` or `selected_players`. */
  datatype NamedTrack = NamedTrack(name: Option<string>, frames: map<string, Box>, outputWidth: int, outputHeight: int)

  /** The two keys the cropper reads; a present key holds its entries in
      file order. */
  datatype TrackingData = TrackingData(
    tracks: Option<seq<(string, NamedTrack)>>,
    selectedPlayers: Option<seq<NamedTrack>>)

  datatype InputError = EmptyTrackingData | MissingTracksKey

  /** Python's truthiness of an optional list or dictionary. */
  predicate Present<T>(s: Option<seq<T>>) { s.Some? && s.value != [] }

  /** `{str(i): p for i, p in enumerate(players)}`, from position `start`. */
  function KeyedByPosition(players: seq<NamedTrack>, start: nat): (r: seq<(string, NamedTrack)>)
    ensures |r| == |players|
    ensures forall i :: 0 <= i < |r| ==> r[i] == (NatToString(start + i), players[i])
    decreases |players|
  {
    if players == [] then [] else [(NatToString(start), players[0])] + KeyedByPosition(players[1..], start + 1)
  }

  /** The tracks to crop: `tracks` when the key exists (even if empty),
      otherwise `selected_players` keyed by their position; neither key
      holding entries is an error. */
  function TracksToCrop(d: TrackingData): (r: Result<seq<(string, NamedTrack)>, InputError>)
    ensures r.Err? <==> !Present(d.tracks) && !Present(d.selectedPlayers)
    ensures r.Ok? && d.tracks.Some? ==> r.value == d.tracks.value
    ensures r.Ok? && d.tracks.None? ==>
      && |r.value| == |d.selectedPlayers.value|
      && forall i :: 0 <= i < |r.value| ==> r.value[i] == (NatToString(i), d.selectedPlayers.value[i])
  {
    if !Present(d.tracks) && !Present(d.selectedPlayers) then Err(EmptyTrackingData)
    else if d.tracks.Some? then Ok(d.tracks.value)
    else if d.selectedPlayers.Some? then
      Ok(KeyedByPosition(d.selectedPlayers.value, 0))
    else Err(MissingTracksKey)
  }

  /** The final "must contain 'tracks' or 'selected_players'" error cannot
      happen: the emptiness check before it already fails on such data. */
  lemma MissingKeyUnreachable(d: TrackingData)
    ensures TracksToCrop(d) != Err(MissingTracksKey)
  {
  }

  /** The raw name of an entry: its `name`, or `player_<key>`. */
  function RawName(entry: (string, NamedTrack)): (r: string)
    ensures entry.1.name.Some? ==> r == entry.1.name.value
    ensures entry.1.name.None? ==> r == "player_" + entry.0
  {
    match entry.1.name
    case Some(n) => n
    case None => "player_" + entry.0
  }

  // ---------------------------------------------------------------------
  // Writing frames
  // ---------------------------------------------------------------------

  /** What a writer receives: the crop of a frame around a box, or a black
      frame. */
  datatype Written = Cropped(frameIdx: nat, bbox: Box) | BlackFrame

  /** The number of frames the loop reads: it stops when the video ends or
      once `total_frames` frames are done, checked after each frame. */
  function FramesProcessed(available: nat, totalFrames: int): (n: nat)
    ensures n <= available
    ensures 0 < totalFrames ==> n == MinI(available, totalFrames)
    ensures totalFrames <= 0 ==> n == MinI(available, 1)
  {
    if available == 0 then 0 else MinI(available, MaxI(1, totalFrames))
  }

  /** What one writer receives for frame `f`. */
  function FrameOutput(t: NamedTrack, f: nat, includeBlackFrames: bool): seq<Written>
  {
    var key := NatToString(f);
    if key in t.frames then [Cropped(f, t.frames[key])]
    else if includeBlackFrames then [BlackFrame]
    else []
  }

  /** Everything one writer receives over the first `n` frames. */
  function WrittenUpTo(t: NamedTrack, n: nat, includeBlackFrames: bool): seq<Written>
  {
    if n == 0 then [] else WrittenUpTo(t, n - 1, includeBlackFrames) + FrameOutput(t, n - 1, includeBlackFrames)
  }

  /** The frame loop: every source frame is offered to every writer in
      track order. `available` is the number of frames the video yields. */
  method WriteFrames(tracks: seq<NamedTrack>, available: nat, totalFrames: int, includeBlackFrames: bool)
    returns (outputs: seq<seq<Written>>, processed: nat)
    ensures processed == FramesProcessed(available, totalFrames)
    ensures |outputs| == |tracks|
    ensures forall t :: 0 <= t < |tracks| ==> outputs[t] == WrittenUpTo(tracks[t], processed, includeBlackFrames)
  {
    outputs := seq(|tracks|, _ => []);
    processed := 0;
    while processed < available
      invariant processed <= available
      invariant processed == 0 || processed < totalFrames
      invariant |outputs| == |tracks|
      invariant forall t :: 0 <= t < |tracks| ==> outputs[t] == WrittenUpTo(tracks[t], processed, includeBlackFrames)
      decreases available - processed
    {
      var key := NatToString(processed);
      for t := 0 to |tracks|
        invariant |outputs| == |tracks|
        invariant forall k :: 0 <= k < t ==> outputs[k] == WrittenUpTo(tracks[k], processed + 1, includeBlackFrames)
        invariant forall k :: t <= k < |tracks| ==> outputs[k] == WrittenUpTo(tracks[k], processed, includeBlackFrames)
      {
        if key in tracks[t].frames {
          outputs := outputs[t := outputs[t] + [Cropped(processed, tracks[t].frames[key])]];
        } else if includeBlackFrames {
          outputs := outputs[t := outputs[t] + [BlackFrame]];
        }
      }
      processed := processed + 1;
      if processed >= totalFrames {
        break;
      }
    }
  }

  /** With black frames on, a writer gets exactly one frame per processed
      frame: the crop when the track has a box for it, black otherwise. */
  lemma {:induction false} BlackFramesKeepTiming(t: NamedTrack, n: nat)
    ensures var w := WrittenUpTo(t, n, true);
      && |w| == n
      && forall f :: 0 <= f < n ==>
           w[f] == (if NatToString(f) in t.frames then Cropped(f, t.frames[NatToString(f)]) else BlackFrame)
  {
    if n > 0 {
      BlackFramesKeepTiming(t, n - 1);
    }
  }

  /** Without black frames, a writer gets only crops, at most one per
      processed frame, each from a frame the track has a box for. */
  lemma {:induction false} CropsOnlyWithoutBlackFrames(t: NamedTrack, n: nat)
    ensures var w := WrittenUpTo(t, n, false);
      && |w| <= n
      && forall k :: 0 <= k < |w| ==>
           && w[k].Cropped? && w[k].frameIdx < n
           && NatToString(w[k].frameIdx) in t.frames
           && w[k].bbox == t.frames[NatToString(w[k].frameIdx)]
  {
    if n > 0 {
      CropsOnlyWithoutBlackFrames(t, n - 1);
    }
  }
}
