/** The ordered file decision over authored and collected patterns. */
module FileIgnore {
  import opened Globs
  import opened IgnorePatterns
  import opened GitIgnore

  // ---- The ordered file decision ------------------------------------------

  // The length of the leading run of Git rules.
  function GitRun(patterns: seq<IgnorePattern>): (n: nat)
    ensures n <= |patterns|
    ensures forall i :: 0 <= i < n ==> patterns[i].gitPattern
    ensures n < |patterns| ==> !patterns[n].gitPattern
  {
    if |patterns| == 0 || !patterns[0].gitPattern then 0 else 1 + GitRun(patterns[1..])
  }

  /** Patterns apply in order, later ones overriding. A run of Git rules counts
      as one layer: it speaks when one of its rules names the path or a directory
      above it, and then says what Git decides. */
  ghost function FileDecision(d: Dialect, patterns: seq<IgnorePattern>, path: Path, ignored: bool): bool
    decreases |patterns|
  {
    if |patterns| == 0 then ignored
    else if patterns[0].gitPattern then
      var n := GitRun(patterns);
      var now := if GitMatched(d, patterns[..n], path) then GitIgnored(d, patterns[..n], path) else ignored;
      FileDecision(d, patterns[n..], path, now)
    else
      var now := if PatternMatches(d, patterns[0], path) then !patterns[0].negated else ignored;
      FileDecision(d, patterns[1..], path, now)
  }

  // ---- The last word --------------------------------------------------------

  /** Patterns `i` to `j` form one layer: an authored pattern, or a whole run of
      Git rules. */
  ghost predicate IsLayer(patterns: seq<IgnorePattern>, i: int, j: int) {
    && 0 <= i < j <= |patterns|
    && if !patterns[i].gitPattern then j == i + 1
       else && (forall k :: i <= k < j ==> patterns[k].gitPattern)
            && (i > 0 ==> !patterns[i - 1].gitPattern)
            && (j < |patterns| ==> !patterns[j].gitPattern)
  }

  /** An authored pattern speaks about a path it matches, a run of Git rules about
      a path that one of them names, or a directory above it. */
  ghost predicate Speaks(d: Dialect, patterns: seq<IgnorePattern>, path: Path, i: int, j: int) {
    && IsLayer(patterns, i, j)
    && if patterns[i].gitPattern then GitMatched(d, patterns[i..j], path) else PatternMatches(d, patterns[i], path)
  }

  ghost predicate Says(d: Dialect, patterns: seq<IgnorePattern>, path: Path, i: int, j: int)
    requires IsLayer(patterns, i, j)
  {
    if patterns[i].gitPattern then GitIgnored(d, patterns[i..j], path) else !patterns[i].negated
  }

  ghost predicate IsLastWord(d: Dialect, patterns: seq<IgnorePattern>, path: Path, i: int, j: int) {
    Speaks(d, patterns, path, i, j) && forall k, l :: j <= k < l && IsLayer(patterns, k, l) ==> !Speaks(d, patterns, path, k, l)
  }

  ghost predicate Silent(d: Dialect, patterns: seq<IgnorePattern>, path: Path) {
    forall i, j :: IsLayer(patterns, i, j) ==> !Speaks(d, patterns, path, i, j)
  }

  // The first layer of a list.
  function FirstLayer(patterns: seq<IgnorePattern>): (n: nat)
    requires |patterns| > 0
    ensures 0 < n <= |patterns|
  {
    if patterns[0].gitPattern then GitRun(patterns) else 1
  }

  lemma FirstLayerIsLayer(patterns: seq<IgnorePattern>)
    requires |patterns| > 0
    ensures IsLayer(patterns, 0, FirstLayer(patterns))
    ensures forall j :: IsLayer(patterns, 0, j) ==> j == FirstLayer(patterns)
    ensures forall i, j :: IsLayer(patterns, i, j) && i > 0 ==> i >= FirstLayer(patterns)
  {
  }

  // The layers behind the first one are the layers of what is left.
  lemma LayersShift(patterns: seq<IgnorePattern>, i: int, j: int)
    requires |patterns| > 0 && FirstLayer(patterns) <= i
    ensures var n := FirstLayer(patterns);
      IsLayer(patterns, i, j) <==> IsLayer(patterns[n..], i - n, j - n)
  {
    var n := FirstLayer(patterns);
    var rest := patterns[n..];
    assert forall k :: 0 <= k < |rest| ==> rest[k] == patterns[n + k];
    assert forall k :: n <= k < |patterns| ==> patterns[k] == rest[k - n];
  }

  lemma SpeechShifts(d: Dialect, patterns: seq<IgnorePattern>, path: Path, i: int, j: int)
    requires |patterns| > 0 && FirstLayer(patterns) <= i && IsLayer(patterns, i, j)
    ensures var n := FirstLayer(patterns);
      && IsLayer(patterns[n..], i - n, j - n)
      && (Speaks(d, patterns, path, i, j) <==> Speaks(d, patterns[n..], path, i - n, j - n))
      && (Says(d, patterns, path, i, j) <==> Says(d, patterns[n..], path, i - n, j - n))
  {
    hide GitMatched, GitIgnored, PatternMatches;
    var n := FirstLayer(patterns);
    LayersShift(patterns, i, j);
    assert patterns[n..][i - n..j - n] == patterns[i..j];
    assert patterns[n..][i - n] == patterns[i];
  }

  lemma OneLayerFirst(d: Dialect, patterns: seq<IgnorePattern>, path: Path, ignored: bool)
    requires |patterns| > 0
    ensures var n := FirstLayer(patterns);
      && IsLayer(patterns, 0, n)
      && FileDecision(d, patterns, path, ignored)
         == FileDecision(d, patterns[n..], path, if Speaks(d, patterns, path, 0, n) then Says(d, patterns, path, 0, n) else ignored)
  {
    FirstLayerIsLayer(patterns);
    hide GitMatched, GitIgnored, PatternMatches;
    assert patterns[0..FirstLayer(patterns)] == patterns[..FirstLayer(patterns)];
  }

  // What is left of a list behind a layer that had the last word says nothing.
  lemma RestIsSilent(d: Dialect, patterns: seq<IgnorePattern>, path: Path)
    requires |patterns| > 0
    requires forall i, j :: FirstLayer(patterns) <= i && IsLayer(patterns, i, j) ==> !Speaks(d, patterns, path, i, j)
    ensures Silent(d, patterns[FirstLayer(patterns)..], path)
  {
    var rest := patterns[FirstLayer(patterns)..];
    forall i, j | IsLayer(rest, i, j) ensures !Speaks(d, rest, path, i, j) {
      RestLayerIsSilent(d, patterns, path, i, j);
    }
  }

  lemma RestLayerIsSilent(d: Dialect, patterns: seq<IgnorePattern>, path: Path, i: int, j: int)
    requires |patterns| > 0
    requires forall k, l :: FirstLayer(patterns) <= k && IsLayer(patterns, k, l) ==> !Speaks(d, patterns, path, k, l)
    requires IsLayer(patterns[FirstLayer(patterns)..], i, j)
    ensures !Speaks(d, patterns[FirstLayer(patterns)..], path, i, j)
  {
    var n := FirstLayer(patterns);
    LayersShift(patterns, i + n, j + n);
    SpeechShifts(d, patterns, path, i + n, j + n);
    hide Speaks;
    assert IsLayer(patterns, i + n, j + n);
    assert i + n - n == i && j + n - n == j;
  }

  /** When nothing speaks about a path, the decision is the one it came with. */
  lemma {:induction false} SilenceChangesNothing(d: Dialect, patterns: seq<IgnorePattern>, path: Path, ignored: bool)
    requires Silent(d, patterns, path)
    ensures FileDecision(d, patterns, path, ignored) == ignored
    decreases |patterns|
  {
    if |patterns| > 0 {
      OneLayerFirst(d, patterns, path, ignored);
      RestIsSilent(d, patterns, path);
      hide FileDecision;
      SilenceChangesNothing(d, patterns[FirstLayer(patterns)..], path, ignored);
    }
  }

  /** The last authored pattern or Git run that speaks about a path decides it:
      an authored one by being positive, a run by what Git says. */
  lemma {:induction false} LastWordDecides(d: Dialect, patterns: seq<IgnorePattern>, path: Path, ignored: bool, i: nat, j: nat)
    requires IsLastWord(d, patterns, path, i, j)
    ensures FileDecision(d, patterns, path, ignored) == Says(d, patterns, path, i, j)
    decreases |patterns|
  {
    hide FileDecision, Says, Speaks, IsLayer, FirstLayer, Silent;
    LayerOfSpeech(d, patterns, path, i, j);
    var n := FirstLayer(patterns);
    OneLayerFirst(d, patterns, path, ignored);
    FirstLayerIsLayer(patterns);
    var now := if Speaks(d, patterns, path, 0, n) then Says(d, patterns, path, 0, n) else ignored;
    if i == 0 {
      FirstHadLastWord(d, patterns, path, j);
      RestIsSilent(d, patterns, path);
      SilenceChangesNothing(d, patterns[n..], path, now);
    } else {
      LastWordShifts(d, patterns, path, i, j);
      LastWordDecides(d, patterns[n..], path, now, i - n, j - n);
      SpeechShifts(d, patterns, path, i, j);
    }
  }

  lemma FirstHadLastWord(d: Dialect, patterns: seq<IgnorePattern>, path: Path, n: int)
    requires IsLastWord(d, patterns, path, 0, n)
    ensures forall i, j :: n <= i && IsLayer(patterns, i, j) ==> !Speaks(d, patterns, path, i, j)
  {
    hide Speaks;
  }

  lemma LayerOfSpeech(d: Dialect, patterns: seq<IgnorePattern>, path: Path, i: int, j: int)
    requires Speaks(d, patterns, path, i, j)
    ensures IsLayer(patterns, i, j) && 0 <= i < j <= |patterns|
  {}

  lemma LastWordShifts(d: Dialect, patterns: seq<IgnorePattern>, path: Path, i: int, j: int)
    requires |patterns| > 0 && IsLastWord(d, patterns, path, i, j) && i >= FirstLayer(patterns)
    ensures var n := FirstLayer(patterns);
      IsLastWord(d, patterns[n..], path, i - n, j - n)
  {
    var n := FirstLayer(patterns);
    var rest := patterns[n..];
    hide Speaks, IsLayer;
    LayerOfSpeech(d, patterns, path, i, j);
    SpeechShifts(d, patterns, path, i, j);
    forall k, l | j - n <= k < l && IsLayer(rest, k, l) ensures !Speaks(d, rest, path, k, l) {
      LayersShift(patterns, k + n, l + n);
      SpeechShifts(d, patterns, path, k + n, l + n);
    }
  }

  predicate Clean(path: Path) {
    forall i :: 0 <= i < |path| ==> path[i] != "" && path[i] != "."
  }

  lemma {:induction false} CleanedKeeps(path: Path)
    requires Clean(path)
    ensures Cleaned(path) == path
  {
    if |path| > 0 {
      CleanedKeeps(path[..|path| - 1]);
    }
  }

  // What parsing guarantees about every pattern.
  predicate WellFormed(d: Dialect, p: IgnorePattern) {
    if p.gitPattern then Collected(d, p) else p.kind == DirFileLevelCover ==> CoversSubtree(p.glob)
  }

  ghost predicate AllWellFormed(d: Dialect, patterns: seq<IgnorePattern>) {
    forall p :: p in patterns ==> WellFormed(d, p)
  }

  method ApplyFileIgnorePatterns(d: Dialect, patterns: seq<IgnorePattern>, path: Path, ignored: bool)
    returns (r: bool)
    requires Clean(path) && AllWellFormed(d, patterns)
    ensures r == FileDecision(d, patterns, path, ignored)
    ensures forall i: nat, j: nat :: IsLastWord(d, patterns, path, i, j) ==> r == Says(d, patterns, path, i, j)
    ensures Silent(d, patterns, path) ==> r == ignored
  {
    AllWords(d, patterns, path, ignored);
    hide Says, Speaks, IsLastWord, Silent, FileDecision;
    hide MatchesNode, NodeVerdict, Matches, GitIgnored, GitMatched, WellFormed;
    CleanedKeeps(path);
    assert patterns[0..] == patterns;
    r := ignored;
    var index := 0;
    while index < |patterns|
      invariant index <= |patterns|
      invariant FileDecision(d, patterns, path, ignored) == FileDecision(d, patterns[index..], path, r)
    {
      var p := patterns[index];
      if p.gitPattern {
        var end := index + 1;
        while end < |patterns| && patterns[end].gitPattern
          invariant index < end <= |patterns|
          invariant forall i :: index <= i < end ==> patterns[i].gitPattern
        {
          end := end + 1;
        }
        RunLength(patterns, index, end);
        var state := new PathState(d, path);
        GroupCollected(d, patterns, index, end);
        var groupIgnored := state.Evaluate(patterns[index..end]);
        RunDecides(d, patterns, index, end, path, r);
        if state.matched {
          r := groupIgnored;
        }
        index := end;
      } else {
        AuthoredDecides(d, patterns, index, path, r);
        if PatternMatches(d, p, path) {
          r := !p.negated;
        }
        index := index + 1;
      }
    }
    NothingDecides(d, path, r);
    assert patterns[|patterns|..] == [];
  }

  lemma NothingDecides(d: Dialect, path: Path, ignored: bool)
    ensures FileDecision(d, [], path, ignored) == ignored
  {}

  lemma RunDecides(d: Dialect, patterns: seq<IgnorePattern>, index: nat, end: nat, path: Path, ignored: bool)
    requires index < end <= |patterns| && patterns[index].gitPattern && GitRun(patterns[index..]) == end - index
    ensures FileDecision(d, patterns[index..], path, ignored)
         == FileDecision(d, patterns[end..], path,
                         if GitMatched(d, patterns[index..end], path) then GitIgnored(d, patterns[index..end], path) else ignored)
  {
    hide GitMatched, GitIgnored, PatternMatches;
    assert patterns[index..][..end - index] == patterns[index..end];
    assert patterns[index..][end - index..] == patterns[end..];
  }

  lemma AuthoredDecides(d: Dialect, patterns: seq<IgnorePattern>, index: nat, path: Path, ignored: bool)
    requires index < |patterns| && !patterns[index].gitPattern
    ensures FileDecision(d, patterns[index..], path, ignored)
         == FileDecision(d, patterns[index + 1..], path, if PatternMatches(d, patterns[index], path) then !patterns[index].negated else ignored)
  {
    hide GitMatched, GitIgnored, PatternMatches;
    assert patterns[index..][1..] == patterns[index + 1..];
  }

  lemma AllWords(d: Dialect, patterns: seq<IgnorePattern>, path: Path, ignored: bool)
    ensures forall i: nat, j: nat :: IsLastWord(d, patterns, path, i, j) ==>
      FileDecision(d, patterns, path, ignored) == Says(d, patterns, path, i, j)
    ensures Silent(d, patterns, path) ==> FileDecision(d, patterns, path, ignored) == ignored
  {
    hide FileDecision, Says, Silent;
    forall i: nat, j: nat | IsLastWord(d, patterns, path, i, j)
      ensures FileDecision(d, patterns, path, ignored) == Says(d, patterns, path, i, j)
    {
      LastWordDecides(d, patterns, path, ignored, i, j);
    }
    if Silent(d, patterns, path) {
      SilenceChangesNothing(d, patterns, path, ignored);
    }
  }

  lemma RunLength(patterns: seq<IgnorePattern>, index: nat, end: nat)
    requires index < end <= |patterns|
    requires forall i :: index <= i < end ==> patterns[i].gitPattern
    requires end < |patterns| ==> !patterns[end].gitPattern
    ensures GitRun(patterns[index..]) == end - index
  {
    var rest := patterns[index..];
    assert forall i :: 0 <= i < |rest| ==> rest[i] == patterns[index + i];
  }

  lemma GroupCollected(d: Dialect, patterns: seq<IgnorePattern>, index: nat, end: nat)
    requires index <= end <= |patterns| && AllWellFormed(d, patterns)
    requires forall i :: index <= i < end ==> patterns[i].gitPattern
    ensures AllCollected(d, patterns[index..end])
  {
    forall i | 0 <= i < end - index ensures Collected(d, patterns[index..end][i]) {
      assert patterns[index + i] in patterns;
    }
  }

  /** A pattern bears on a path: an authored one matches it, a Git rule names a node of it. */
  ghost predicate Touches(d: Dialect, p: IgnorePattern, path: Path) {
    if p.gitPattern then exists depth: nat :: depth < |path| && MatchesNode(d, p, path, depth)
    else PatternMatches(d, p, path)
  }

  lemma GroupWithoutNegation(d: Dialect, rules: seq<IgnorePattern>, path: Path)
    requires forall p :: p in rules ==> p.gitPattern && (p.negated ==> !Touches(d, p, path))
    ensures GitMatched(d, rules, path) <==> exists p :: p in rules && Touches(d, p, path)
    ensures GitIgnored(d, rules, path) <==> GitMatched(d, rules, path)
  {
    hide Matches, NodeMatches;
    forall depth: nat | depth < |path|
      ensures NodeVerdict(d, rules, path, depth) != Included
      ensures NodeVerdict(d, rules, path, depth) == Undecided
         <==> forall i :: 0 <= i < |rules| ==> !MatchesNode(d, rules[i], path, depth)
    {
      UndecidedMeansUnnamed(d, rules, path, depth);
      NeverIncluded(d, rules, path, depth);
    }
    if p :| p in rules && Touches(d, p, path) {
      var i :| 0 <= i < |rules| && rules[i] == p;
      var depth: nat :| depth < |path| && MatchesNode(d, p, path, depth);
      assert NodeVerdict(d, rules, path, depth) != Undecided;
    }
    if GitMatched(d, rules, path) {
      var depth: nat :| depth < |path| && NodeVerdict(d, rules, path, depth) != Undecided;
      var i :| 0 <= i < |rules| && MatchesNode(d, rules[i], path, depth);
      assert rules[i] in rules && Touches(d, rules[i], path);
    }
  }

  lemma {:induction false} NeverIncluded(d: Dialect, rules: seq<IgnorePattern>, path: Path, depth: nat)
    requires depth < |path|
    requires forall p :: p in rules ==> p.gitPattern && (p.negated ==> !Touches(d, p, path))
    ensures NodeVerdict(d, rules, path, depth) != Included
  {
    if |rules| > 0 {
      NeverIncluded(d, rules[..|rules| - 1], path, depth);
      assert rules[|rules| - 1] in rules;
    }
  }

  /** When no negation bears on a path, the ordered decision is just whether
      anything at all bears on it. */
  lemma {:induction false} DecisionWithoutNegation(
    d: Dialect, patterns: seq<IgnorePattern>, path: Path, ignored: bool)
    requires forall p :: p in patterns && p.negated ==> !Touches(d, p, path)
    ensures FileDecision(d, patterns, path, ignored)
       <==> ignored || exists p :: p in patterns && Touches(d, p, path)
    decreases |patterns|
  {
    hide Matches, NodeMatches, GitMatched, GitIgnored;
    if |patterns| > 0 {
      var n := if patterns[0].gitPattern then GitRun(patterns) else 1;
      assert patterns == patterns[..n] + patterns[n..];
      if patterns[0].gitPattern {
        GroupWithoutNegation(d, patterns[..n], path);
        var now := if GitMatched(d, patterns[..n], path) then GitIgnored(d, patterns[..n], path) else ignored;
        DecisionWithoutNegation(d, patterns[n..], path, now);
      } else {
        assert patterns[0] in patterns;
        var now := if PatternMatches(d, patterns[0], path) then !patterns[0].negated else ignored;
        DecisionWithoutNegation(d, patterns[1..], path, now);
        assert patterns[..1] == [patterns[0]];
      }
    }
  }
}
