/** Directory pruning: which directories a walk may skip, and why skipping them
    never loses a file the ordered decision would keep. */
module IgnorePruning {
  import opened Wrappers
  import opened Globs
  import opened IgnorePatterns
  import opened GitIgnore
  import opened FileIgnore

  const PROBE: string := "x"

  // ---- Absolute blocks ----------------------------------------------------

  // A positive directory-level pattern, matched at `dir` or just below it.
  predicate BlocksAt(d: Dialect, p: IgnorePattern, dir: Path) {
    PatternMatches(d, p, dir) || PatternMatches(d, p, dir + [PROBE])
  }

  predicate AbsoluteBlock(p: IgnorePattern) {
    !p.negated && p.kind == DirAbsoluteBlock
  }

  ghost predicate PatternBlocks(d: Dialect, p: IgnorePattern, dir: Path) {
    exists n :: 0 < n <= |dir| && BlocksAt(d, p, dir[..n])
  }

  /** `dir` lies in a directory some absolute pattern blocks; no negation reopens it. */
  ghost predicate Blocked(d: Dialect, dir: Path, patterns: seq<IgnorePattern>) {
    exists p :: p in patterns && AbsoluteBlock(p) && PatternBlocks(d, p, dir)
  }

  method DirectoryPatternBlocks(d: Dialect, p: IgnorePattern, dir: Path) returns (r: bool)
    requires |dir| > 0
    ensures r <==> PatternBlocks(d, p, dir)
  {
    hide PatternMatches;
    assert dir[..|dir|] == dir;
    if PatternMatches(d, p, dir) || PatternMatches(d, p, dir + [PROBE]) {
      assert BlocksAt(d, p, dir[..|dir|]);
      return true;
    }
    for n := 1 to |dir|
      invariant forall k :: 0 < k < n ==> !BlocksAt(d, p, dir[..k])
    {
      var partial := dir[..n];
      if PatternMatches(d, p, partial) || PatternMatches(d, p, partial + [PROBE]) {
        assert BlocksAt(d, p, dir[..n]);
        return true;
      }
    }
    return false;
  }

  // Every path a block is matched against, built once for several patterns.
  method BlockCandidates(dir: Path) returns (candidates: seq<Path>)
    requires |dir| > 0
    ensures forall c :: c in candidates <==> exists n :: 0 < n <= |dir| && (c == dir[..n] || c == dir[..n] + [PROBE])
  {
    candidates := [dir, dir + [PROBE]];
    assert dir[..|dir|] == dir;
    for k := 1 to |dir|
      invariant forall c :: c in candidates <==>
        c == dir || c == dir + [PROBE] || exists n :: 0 < n < k && (c == dir[..n] || c == dir[..n] + [PROBE])
    {
      candidates := candidates + [dir[..k], dir[..k] + [PROBE]];
    }
    forall c | c in candidates
      ensures exists n :: 0 < n <= |dir| && (c == dir[..n] || c == dir[..n] + [PROBE])
    {
      if c == dir || c == dir + [PROBE] {
        assert c == dir[..|dir|] || c == dir[..|dir|] + [PROBE];
      }
    }
  }

  lemma CandidatesDecide(d: Dialect, p: IgnorePattern, dir: Path, candidates: seq<Path>)
    requires forall c :: c in candidates <==> exists n :: 0 < n <= |dir| && (c == dir[..n] || c == dir[..n] + [PROBE])
    ensures PatternBlocks(d, p, dir) <==> exists c :: c in candidates && PatternMatches(d, p, c)
  {
    hide PatternMatches;
    if PatternBlocks(d, p, dir) {
      var n :| 0 < n <= |dir| && BlocksAt(d, p, dir[..n]);
      var c := if PatternMatches(d, p, dir[..n]) then dir[..n] else dir[..n] + [PROBE];
      assert c in candidates && PatternMatches(d, p, c);
    }
    if c :| c in candidates && PatternMatches(d, p, c) {
      var n :| 0 < n <= |dir| && (c == dir[..n] || c == dir[..n] + [PROBE]);
      assert BlocksAt(d, p, dir[..n]);
    }
  }

  method IsDirAbsolutelyBlocked(d: Dialect, dir: Path, patterns: seq<IgnorePattern>) returns (r: bool)
    requires |dir| > 0
    ensures r <==> Blocked(d, dir, patterns)
  {
    hide PatternMatches, BlocksAt;
    var candidates: seq<Path> := [];
    var firstPattern := true;
    for i := 0 to |patterns|
      invariant forall k :: 0 <= k < i && AbsoluteBlock(patterns[k]) ==> !PatternBlocks(d, patterns[k], dir)
      invariant candidates != [] ==>
        forall c :: c in candidates <==> exists n :: 0 < n <= |dir| && (c == dir[..n] || c == dir[..n] + [PROBE])
    {
      var p := patterns[i];
      if !AbsoluteBlock(p) {
        continue;
      }
      if firstPattern {
        firstPattern := false;
        var blocks := DirectoryPatternBlocks(d, p, dir);
        if blocks {
          return true;
        }
        continue;
      }
      if candidates == [] {
        candidates := BlockCandidates(dir);
      }
      CandidatesDecide(d, p, dir, candidates);
      for j := 0 to |candidates|
        invariant forall k :: 0 <= k < j ==> !PatternMatches(d, p, candidates[k])
      {
        if PatternMatches(d, p, candidates[j]) {
          return true;
        }
      }
    }
    return false;
  }

  /** Blocking is inherited by everything below. */
  lemma BlockedBelow(d: Dialect, dir: Path, rest: Path, patterns: seq<IgnorePattern>)
    requires Blocked(d, dir, patterns)
    ensures Blocked(d, dir + rest, patterns)
  {
    hide BlocksAt;
    var p :| p in patterns && AbsoluteBlock(p) && PatternBlocks(d, p, dir);
    var n :| 0 < n <= |dir| && BlocksAt(d, p, dir[..n]);
    assert (dir + rest)[..n] == dir[..n];
  }

  // ---- How far negations reach --------------------------------------------

  /** One negation's reach: the leading wildcard-free directories it is anchored
      to, or everywhere when it has none. */
  datatype NegPrefix = NegPrefix(unrooted: bool, literal: Path, caseInsensitive: bool)

  function LiteralSegmentPrefix(glob: Glob): (r: Path)
    ensures |r| <= |glob|
    ensures forall i :: 0 <= i < |r| ==> glob[i] == Literal(r[i])
  {
    if |glob| == 0 || !glob[0].Literal? then []
    else [glob[0].text] + LiteralSegmentPrefix(glob[1..])
  }

  function Reach(p: IgnorePattern): NegPrefix {
    var literal := LiteralSegmentPrefix(p.glob);
    if literal == [] || literal == [""] then NegPrefix(true, [], false)
    else NegPrefix(false, literal, p.caseInsensitive)
  }

  method BuildNegReach(patterns: seq<IgnorePattern>) returns (reach: seq<NegPrefix>)
    ensures forall np :: np in reach <==> exists p :: p in patterns && p.negated && np == Reach(p)
  {
    reach := [];
    for i := 0 to |patterns|
      invariant forall np :: np in reach <==> exists p :: p in patterns[..i] && p.negated && np == Reach(p)
    {
      assert patterns[..i + 1] == patterns[..i] + [patterns[i]];
      if !patterns[i].negated {
        continue;
      }
      reach := reach + [Reach(patterns[i])];
    }
    assert patterns[..|patterns|] == patterns;
  }

  predicate Comparable(a: Path, b: Path) {
    a <= b || b <= a
  }

  predicate Overlaps(d: Dialect, np: NegPrefix, dir: Path) {
    || np.unrooted
    || (if np.caseInsensitive then Comparable(FoldPath(d, np.literal), FoldPath(d, dir)) else Comparable(np.literal, dir))
  }

  ghost predicate NegationReaches(d: Dialect, dir: Path, patterns: seq<IgnorePattern>) {
    exists p :: p in patterns && p.negated && Overlaps(d, Reach(p), dir)
  }

  lemma PrefixesComparable(a: Path, b: Path, whole: Path)
    requires a <= whole && b <= whole
    ensures Comparable(a, b)
  {
    if |a| <= |b| {
      assert a == whole[..|a|] == b[..|a|];
    } else {
      assert b == whole[..|b|] == a[..|b|];
    }
  }

  /** A pattern that bears on something below `dir` has a reach overlapping
      `dir`: when no reach overlaps, no negation can reopen anything there. */
  lemma ReachIsSound(d: Dialect, p: IgnorePattern, dir: Path, path: Path)
    requires WellFormed(d, p) && dir <= path && Touches(d, p, path)
    ensures Overlaps(d, Reach(p), dir)
  {
    var literal := LiteralSegmentPrefix(p.glob);
    var seen, seenDir := Seen(d, p, path), Seen(d, p, dir);
    assert seenDir == seen[..|dir|];
    if p.gitPattern {
      var depth: nat :| depth < |path| && MatchesNode(d, p, path, depth);
      var node := seen[..depth + 1];
      LiteralsLieInNode(d, p, node);
      assert literal <= seen;
      PrefixesComparable(literal, seenDir, seen);
      if p.caseInsensitive {
        FoldedLiteral(d, p);
      }
    } else if p.caseInsensitive {
      LiteralPrefixMatches(d, FoldGlob(d, p.glob), seen, |literal|);
      assert FoldPath(d, literal) <= seen;
      PrefixesComparable(FoldPath(d, literal), seenDir, seen);
    } else {
      LiteralPrefixMatches(d, p.glob, seen, |literal|);
      assert literal <= seen;
      PrefixesComparable(literal, seenDir, seen);
    }
  }

  lemma {:induction false} LiteralPrefixIsMaximal(glob: Glob)
    ensures var n := |LiteralSegmentPrefix(glob)|;
      n < |glob| ==> !glob[n].Literal?
  {
    if |glob| > 0 && glob[0].Literal? {
      LiteralPrefixIsMaximal(glob[1..]);
    }
  }

  // A name as a pattern compares it.
  function SeenName(d: Dialect, p: IgnorePattern, name: string): string {
    if p.caseInsensitive then d.fold(name) else name
  }

  // Down to level `k` the pattern is plain names, and there it differs from `dir`.
  ghost predicate PartsAt(d: Dialect, p: IgnorePattern, dir: Path, k: int) {
    && 0 <= k < |dir| && k < |p.glob| && (forall i :: 0 <= i <= k ==> p.glob[i].Literal?)
    && SeenName(d, p, p.glob[k].text) != SeenName(d, p, dir[k])
  }

  /** A pattern leads elsewhere: it starts with plain directory names, not just an
      empty one, and one of them differs from the directory's own name at that level. */
  ghost predicate LeadsElsewhere(d: Dialect, p: IgnorePattern, dir: Path) {
    LiteralSegmentPrefix(p.glob) != [""] && exists k :: PartsAt(d, p, dir, k)
  }

  lemma ComparableByNames(a: Path, b: Path)
    ensures Comparable(a, b) <==> forall k :: 0 <= k < |a| && k < |b| ==> a[k] == b[k]
  {}

  /** Negations keep exactly the directories open that they do not lead away from. */
  lemma ReachIsExact(d: Dialect, p: IgnorePattern, dir: Path)
    ensures Overlaps(d, Reach(p), dir) <==> !LeadsElsewhere(d, p, dir)
  {
    var literal := LiteralSegmentPrefix(p.glob);
    LiteralPrefixIsMaximal(p.glob);
    var a, b := if p.caseInsensitive then FoldPath(d, literal) else literal, if p.caseInsensitive then FoldPath(d, dir) else dir;
    ComparableByNames(a, b);
    hide Comparable;
    if LeadsElsewhere(d, p, dir) {
      var k :| PartsAt(d, p, dir, k);
      assert k < |literal| && a[k] != b[k];
    } else if literal != [""] {
      forall k | 0 <= k < |a| && k < |b| ensures a[k] == b[k] {
        assert p.glob[k] == Literal(literal[k]);
        assert !PartsAt(d, p, dir, k);
      }
    }
  }

  // The literal prefix of a projection comes from the node matcher alone.
  lemma LiteralsLieInNode(d: Dialect, p: IgnorePattern, node: Path)
    requires Collected(d, p) && NodeMatches(d, p, node)
    ensures LiteralSegmentPrefix(p.glob) <= node
  {
    var literal := LiteralSegmentPrefix(p.glob);
    var glob := if p.contentsOnly then p.glob else NodeGlob(p);
    assert !p.glob[|p.glob| - 2].Literal?;
    assert |literal| <= |p.glob| - 2;
    LiteralPrefixMatches(d, glob, node, |literal|);
  }

  lemma FoldedLiteral(d: Dialect, p: IgnorePattern)
    requires Collected(d, p) && p.caseInsensitive
    ensures FoldPath(d, LiteralSegmentPrefix(p.glob)) == LiteralSegmentPrefix(p.glob)
  {
    var literal := LiteralSegmentPrefix(p.glob);
    forall i | 0 <= i < |literal| ensures d.fold(literal[i]) == literal[i] {
      assert p.glob[i] == FoldGlob(d, p.glob)[i];
    }
  }

  // ---- Pruning ------------------------------------------------------------

  // A positive cover of everything just below `dir`.
  predicate Covers(d: Dialect, p: IgnorePattern, dir: Path) {
    !p.negated && p.kind == DirFileLevelCover && PatternMatches(d, p, dir + [PROBE])
  }

  /** What the walk tests before it skips `dir`. */
  ghost predicate Prunable(d: Dialect, dir: Path, patterns: seq<IgnorePattern>) {
    || Blocked(d, dir, patterns)
    || (!NegationReaches(d, dir, patterns) && exists p :: p in patterns && Covers(d, p, dir))
  }

  method ReachOverlaps(d: Dialect, dir: Path, patterns: seq<IgnorePattern>, neg: seq<NegPrefix>) returns (r: bool)
    requires forall np :: np in neg <==> exists p :: p in patterns && p.negated && np == Reach(p)
    ensures r <==> NegationReaches(d, dir, patterns)
  {
    hide Reach, Overlaps;
    for i := 0 to |neg|
      invariant forall k :: 0 <= k < i ==> !Overlaps(d, neg[k], dir)
    {
      if Overlaps(d, neg[i], dir) {
        assert neg[i] in neg;
        return true;
      }
    }
    assert forall p :: p in patterns && p.negated ==> Reach(p) in neg;
    assert forall np :: np in neg ==> !Overlaps(d, np, dir);
    return false;
  }

  method HasCover(d: Dialect, dir: Path, patterns: seq<IgnorePattern>) returns (r: bool)
    ensures r <==> exists p :: p in patterns && Covers(d, p, dir)
  {
    hide Covers;
    for i := 0 to |patterns|
      invariant forall k :: 0 <= k < i ==> !Covers(d, patterns[k], dir)
    {
      if Covers(d, patterns[i], dir) {
        return true;
      }
    }
    return false;
  }

  method CanPruneDir(d: Dialect, dir: Path, patterns: seq<IgnorePattern>, neg: seq<NegPrefix>) returns (r: bool)
    requires |dir| > 0
    requires forall np :: np in neg <==> exists p :: p in patterns && p.negated && np == Reach(p)
    ensures r <==> Prunable(d, dir, patterns)
  {
    hide PatternMatches, PatternBlocks, Reach;
    var blocked := IsDirAbsolutelyBlocked(d, dir, patterns);
    if blocked {
      return true;
    }
    var reached := ReachOverlaps(d, dir, patterns, neg);
    if reached {
      return false;
    }
    r := HasCover(d, dir, patterns);
  }

  /** Pruning happens: a directory whose content some pattern covers is skipped
      exactly when every negation leads elsewhere, unless it is blocked anyway. */
  lemma CoveredIsPrunedIff(d: Dialect, dir: Path, patterns: seq<IgnorePattern>)
    requires exists p :: p in patterns && Covers(d, p, dir)
    ensures Prunable(d, dir, patterns) <==>
      Blocked(d, dir, patterns) || forall p :: p in patterns && p.negated ==> LeadsElsewhere(d, p, dir)
  {
    hide PatternMatches, Reach, Overlaps, LeadsElsewhere, Blocked, Covers;
    forall p | p in patterns && p.negated ensures Overlaps(d, Reach(p), dir) <==> !LeadsElsewhere(d, p, dir) {
      ReachIsExact(d, p, dir);
    }
  }

  function Flatten(groups: seq<seq<IgnorePattern>>): seq<IgnorePattern> {
    if |groups| == 0 then [] else groups[0] + Flatten(groups[1..])
  }

  lemma {:induction false} InFlatten(groups: seq<seq<IgnorePattern>>, p: IgnorePattern)
    ensures p in Flatten(groups) <==> exists i :: 0 <= i < |groups| && p in groups[i]
  {
    if |groups| > 0 {
      InFlatten(groups[1..], p);
      assert forall i :: 0 < i < |groups| ==> groups[i] == groups[1..][i - 1];
    }
  }

  // ---- The resolver's form ------------------------------------------------

  /** How a directory lies to the scope of an entry. */
  datatype Relation = Outside | DescendantsOnly | Inside

  /** A group of patterns, the directory as that group's path space sees it, and
      the depth down to which its own ancestors are not its business. */
  datatype GroupView = GroupView(patterns: seq<IgnorePattern>, relative: Option<Path>, floor: nat)

  datatype ScopedEntry = ScopedEntry(relation: Relation, groups: seq<GroupView>)

  predicate Seeing(g: GroupView) {
    g.relative.Some? ==> |g.relative.value| > 0
  }

  ghost predicate PatternBlocksAbove(d: Dialect, p: IgnorePattern, dir: Path, floor: nat) {
    exists n :: floor < n <= |dir| && BlocksAt(d, p, dir[..n])
  }

  ghost predicate BlockedAbove(d: Dialect, dir: Path, patterns: seq<IgnorePattern>, floor: nat) {
    exists p :: p in patterns && AbsoluteBlock(p) && PatternBlocksAbove(d, p, dir, floor)
  }

  method PatternBlocksAboveFloor(d: Dialect, p: IgnorePattern, dir: Path, floor: nat) returns (r: bool)
    requires |dir| > 0
    ensures r <==> PatternBlocksAbove(d, p, dir, floor)
  {
    hide BlocksAt;
    assert dir[..|dir|] == dir;
    if |dir| > floor && BlocksAt(d, p, dir) {
      assert BlocksAt(d, p, dir[..|dir|]);
      return true;
    }
    for depth := 1 to |dir|
      invariant forall k :: floor < k < depth ==> !BlocksAt(d, p, dir[..k])
    {
      if depth > floor && BlocksAt(d, p, dir[..depth]) {
        return true;
      }
    }
    return false;
  }

  /** Blocked by an ancestor deeper than the floor, or by itself. */
  method IsDirAbsolutelyBlockedAboveFloor(d: Dialect, dir: Path, patterns: seq<IgnorePattern>, floor: nat) returns (r: bool)
    requires |dir| > 0
    ensures r <==> BlockedAbove(d, dir, patterns, floor)
  {
    hide PatternBlocksAbove;
    for i := 0 to |patterns|
      invariant forall k :: 0 <= k < i && AbsoluteBlock(patterns[k]) ==> !PatternBlocksAbove(d, patterns[k], dir, floor)
    {
      if AbsoluteBlock(patterns[i]) {
        var blocks := PatternBlocksAboveFloor(d, patterns[i], dir, floor);
        if blocks {
          return true;
        }
      }
    }
    return false;
  }

  lemma NoFloor(d: Dialect, dir: Path, patterns: seq<IgnorePattern>)
    ensures BlockedAbove(d, dir, patterns, 0) <==> Blocked(d, dir, patterns)
  {
    hide BlocksAt;
    forall p ensures PatternBlocksAbove(d, p, dir, 0) <==> PatternBlocks(d, p, dir) {}
  }

  ghost predicate GroupBlocks(d: Dialect, g: GroupView) {
    g.relative.Some? && BlockedAbove(d, g.relative.value, g.patterns, g.floor)
  }

  ghost predicate GroupReaches(d: Dialect, g: GroupView) {
    g.relative.Some? && NegationReaches(d, g.relative.value, g.patterns)
  }

  ghost predicate GroupCovers(d: Dialect, g: GroupView) {
    g.relative.Some? && exists p :: p in g.patterns && Covers(d, p, g.relative.value)
  }

  ghost predicate HasNegation(g: GroupView) {
    exists p :: p in g.patterns && p.negated
  }

  ghost predicate EntryBlocks(d: Dialect, e: ScopedEntry) {
    e.relation.Inside? && exists k :: 0 <= k < |e.groups| && GroupBlocks(d, e.groups[k])
  }

  /** An entry whose scope lies below the directory keeps it open by any negation. */
  ghost predicate EntryReaches(d: Dialect, e: ScopedEntry) {
    || (e.relation.Inside? && exists k :: 0 <= k < |e.groups| && GroupReaches(d, e.groups[k]))
    || (e.relation.DescendantsOnly? && exists k :: 0 <= k < |e.groups| && HasNegation(e.groups[k]))
  }

  ghost predicate EntryCovers(d: Dialect, e: ScopedEntry) {
    e.relation.Inside? && exists k :: 0 <= k < |e.groups| && GroupCovers(d, e.groups[k])
  }

  /** Blocked in some scope, or covered in some with no negation reachable in any. */
  ghost predicate ScopedPrunable(d: Dialect, entries: seq<ScopedEntry>) {
    || (exists i :: 0 <= i < |entries| && EntryBlocks(d, entries[i]))
    || ((exists i :: 0 <= i < |entries| && EntryCovers(d, entries[i]))
        && !exists i :: 0 <= i < |entries| && EntryReaches(d, entries[i]))
  }

  /** One entry that contains the directory: its groups, in order. */
  method VisitGroups(d: Dialect, groups: seq<GroupView>) returns (blocked: bool, reaches: bool, covers: bool)
    requires forall k :: 0 <= k < |groups| ==> Seeing(groups[k])
    ensures blocked <==> exists k :: 0 <= k < |groups| && GroupBlocks(d, groups[k])
    ensures !blocked ==> (reaches <==> exists k :: 0 <= k < |groups| && GroupReaches(d, groups[k]))
    ensures !blocked ==> (covers <==> exists k :: 0 <= k < |groups| && GroupCovers(d, groups[k]))
  {
    hide Blocked, BlockedAbove, NegationReaches, Covers;
    blocked, reaches, covers := false, false, false;
    for g := 0 to |groups|
      invariant !blocked && forall k :: 0 <= k < g ==> !GroupBlocks(d, groups[k])
      invariant reaches <==> exists k :: 0 <= k < g && GroupReaches(d, groups[k])
      invariant covers <==> exists k :: 0 <= k < g && GroupCovers(d, groups[k])
    {
      var view := groups[g];
      assert Seeing(view);
      if view.relative.None? {
        continue;
      }
      var relative := view.relative.value;
      if view.floor == 0 {
        NoFloor(d, relative, view.patterns);
        blocked := IsDirAbsolutelyBlocked(d, relative, view.patterns);
      } else {
        blocked := IsDirAbsolutelyBlockedAboveFloor(d, relative, view.patterns, view.floor);
      }
      if blocked {
        assert GroupBlocks(d, groups[g]);
        return;
      }
      var neg := BuildNegReach(view.patterns);
      var overlaps := ReachOverlaps(d, relative, view.patterns, neg);
      reaches := reaches || overlaps;
      var covered := HasCover(d, relative, view.patterns);
      covers := covers || covered;
    }
  }

  method AnyNegation(groups: seq<GroupView>) returns (r: bool)
    ensures r <==> exists k :: 0 <= k < |groups| && HasNegation(groups[k])
  {
    hide Reach;
    for g := 0 to |groups|
      invariant forall k :: 0 <= k < g ==> !HasNegation(groups[k])
    {
      var neg := BuildNegReach(groups[g].patterns);
      if |neg| > 0 {
        assert neg[0] in neg;
        assert HasNegation(groups[g]);
        return true;
      }
      assert forall p :: p in groups[g].patterns && p.negated ==> Reach(p) in neg;
    }
    return false;
  }

  /** The walk's test over all entries, each in its own path space and scope. */
  method CanPruneDirectory(d: Dialect, entries: seq<ScopedEntry>) returns (r: bool)
    requires forall i, k :: 0 <= i < |entries| && 0 <= k < |entries[i].groups| ==> Seeing(entries[i].groups[k])
    ensures r <==> ScopedPrunable(d, entries)
  {
    hide GroupBlocks, GroupReaches, GroupCovers, HasNegation;
    var negationCanReach, fileLevelCovered := false, false;
    for i := 0 to |entries|
      invariant forall k :: 0 <= k < i ==> !EntryBlocks(d, entries[k])
      invariant negationCanReach <==> exists k :: 0 <= k < i && EntryReaches(d, entries[k])
      invariant fileLevelCovered <==> exists k :: 0 <= k < i && EntryCovers(d, entries[k])
    {
      var entry := entries[i];
      if entry.relation.Outside? {
        continue;
      }
      if entry.relation.DescendantsOnly? {
        var negated := AnyNegation(entry.groups);
        negationCanReach := negationCanReach || negated;
        continue;
      }
      var blocked, reaches, covers := VisitGroups(d, entry.groups);
      if blocked {
        assert EntryBlocks(d, entries[i]);
        return true;
      }
      negationCanReach := negationCanReach || reaches;
      fileLevelCovered := fileLevelCovered || covers;
    }
    return fileLevelCovered && !negationCanReach;
  }

  function AsEntries(dir: Path, groups: seq<seq<IgnorePattern>>): (entries: seq<ScopedEntry>)
    ensures |entries| == |groups|
  {
    seq(|groups|, i requires 0 <= i < |groups| => ScopedEntry(Inside, [GroupView(groups[i], Some(dir), 0)]))
  }

  /** In one path space the entries decide as one concatenated list, for which
      `PruningIsSound` is stated. */
  lemma OnePathSpaceIsOneList(d: Dialect, dir: Path, groups: seq<seq<IgnorePattern>>)
    ensures ScopedPrunable(d, AsEntries(dir, groups)) <==> Prunable(d, dir, Flatten(groups))
  {
    hide PatternMatches, PatternBlocks, Reach, Flatten, AbsoluteBlock, Covers, Overlaps, BlockedAbove;
    var entries := AsEntries(dir, groups);
    forall p ensures p in Flatten(groups) <==> exists i :: 0 <= i < |groups| && p in groups[i] {
      InFlatten(groups, p);
    }
    forall i | 0 <= i < |groups|
      ensures EntryBlocks(d, entries[i]) <==> Blocked(d, dir, groups[i])
      ensures EntryReaches(d, entries[i]) <==> NegationReaches(d, dir, groups[i])
      ensures EntryCovers(d, entries[i]) <==> exists p :: p in groups[i] && Covers(d, p, dir)
    {
      OneGroup(d, dir, groups[i]);
    }
    hide EntryBlocks, EntryReaches, EntryCovers;
  }

  lemma OneGroup(d: Dialect, dir: Path, patterns: seq<IgnorePattern>)
    ensures var e := ScopedEntry(Inside, [GroupView(patterns, Some(dir), 0)]);
      && (EntryBlocks(d, e) <==> Blocked(d, dir, patterns))
      && (EntryReaches(d, e) <==> NegationReaches(d, dir, patterns))
      && (EntryCovers(d, e) <==> exists p :: p in patterns && Covers(d, p, dir))
  {
    hide PatternMatches, PatternBlocks, Reach, AbsoluteBlock, Covers, Overlaps, BlockedAbove, NegationReaches;
    NoFloor(d, dir, patterns);
    hide Blocked;
    var g := GroupView(patterns, Some(dir), 0);
    assert [g][0] == g;
  }

  /** The shape of rule whose cover is not enough: it names directories only,
      while its projection is its own matcher, so the probe below `dir` can match
      although no directory on the way to a file there does. Such a rule is still
      safe when its matcher already matches `dir`. */
  predicate SafeCover(d: Dialect, p: IgnorePattern, dir: Path) {
    p.gitPattern && p.directoryOnly && (p.contentsOnly || p.nodeEnd == |p.glob|) ==>
      Matches(d, p.glob, Seen(d, p, dir))
  }

  // A cover of `dir/x` is a cover of everything below `dir`.
  lemma CoverReachesBelow(d: Dialect, p: IgnorePattern, dir: Path, rest: Path)
    requires WellFormed(d, p) && Covers(d, p, dir) && |rest| > 0
    ensures PatternMatches(d, p, dir + rest)
  {
    hide Matches;
    var glob := if p.caseInsensitive then FoldGlob(d, p.glob) else p.glob;
    var probe, path := Seen(d, p, dir + [PROBE]), Seen(d, p, dir + rest);
    assert CoversSubtree(glob);
    var k := CoverMatches(d, glob, probe);
    assert probe[..k] == path[..k];
    CoverExtends(d, glob, path[..k], path[k..]);
    assert path[..k] + path[k..] == path;
  }

  /** A safe cover bears on every file below `dir`. */
  lemma SafeCoverTouches(d: Dialect, p: IgnorePattern, dir: Path, rest: Path)
    requires WellFormed(d, p) && Covers(d, p, dir) && SafeCover(d, p, dir) && |dir| > 0 && |rest| > 0
    ensures Touches(d, p, dir + rest)
  {
    hide Matches;
    var path := dir + rest;
    CoverReachesBelow(d, p, dir, rest);
    if p.gitPattern {
      var seen, seenDir := Seen(d, p, path), Seen(d, p, dir);
      assert seenDir == seen[..|dir|];
      if p.contentsOnly || p.nodeEnd == |p.glob| {
        assert p.glob[..|p.glob|] == p.glob;
        if p.directoryOnly {
          assert seen[..|dir| - 1 + 1] == seenDir;
          assert MatchesNode(d, p, path, |dir| - 1);
        } else {
          assert seen[..|path| - 1 + 1] == seen;
          assert MatchesNode(d, p, path, |path| - 1);
        }
      } else {
        var depth := NodeAboveProbe(d, p, dir);
        assert seenDir[..depth + 1] == seen[..depth + 1];
        assert MatchesNode(d, p, path, depth);
      }
    }
  }

  // The ordinary case: the node matcher itself matches `dir` or a directory above it.
  lemma NodeAboveProbe(d: Dialect, p: IgnorePattern, dir: Path) returns (depth: nat)
    requires Collected(d, p) && Covers(d, p, dir) && !p.contentsOnly && p.nodeEnd < |p.glob| && |dir| > 0
    ensures depth < |dir| && Matches(d, NodeGlob(p), Seen(d, p, dir)[..depth + 1])
  {
    hide Matches;
    var seen, probe := Seen(d, p, dir), Seen(d, p, dir + [PROBE]);
    var k := CoverMatches(d, p.glob, probe);
    assert k <= |dir| && probe[..k] == seen[..k];
    var m := |p.glob| - 2;
    if p.nodeEnd == m {
      if k > 0 {
        depth := k - 1;
      } else {
        depth := 0;
        assert seen[..0] == [];
        EmptyMatchMeansAll(d, NodeGlob(p), seen[..1]);
      }
    } else {
      depth := |dir| - 1;
      DoubleStarMatchesAll(d, seen[k..]);
      MatchesJoin(d, p.glob[..m], [DoubleStar], seen[..k], seen[k..]);
      assert seen[..k] + seen[k..] == seen[..|dir|];
      assert NodeGlob(p) == p.glob[..m] + [DoubleStar];
    }
  }

  // Only `**` matches no segment at all, and then it matches every path.
  lemma {:induction false} EmptyMatchMeansAll(d: Dialect, glob: Glob, path: Path)
    requires |glob| > 0 && Matches(d, glob, [])
    ensures Matches(d, glob, path)
  {
    if |glob| == 1 {
      assert glob == [DoubleStar];
      DoubleStarMatchesAll(d, path);
    } else {
      EmptyMatchMeansAll(d, glob[1..], path);
    }
  }

  /** Pruning is sound: below a pruned directory every file is under an absolute
      block or ignored by the ordered decision, provided one of the covers that
      justified the pruning is safe. */
  lemma PruningIsSound(d: Dialect, dir: Path, rest: Path, patterns: seq<IgnorePattern>)
    requires AllWellFormed(d, patterns) && |dir| > 0 && |rest| > 0
    requires Prunable(d, dir, patterns)
    requires Blocked(d, dir, patterns) || exists p :: p in patterns && Covers(d, p, dir) && SafeCover(d, p, dir)
    ensures
      var file := dir + rest;
      Blocked(d, file[..|file| - 1], patterns) || FileDecision(d, patterns, file, false)
  {
    hide Matches, NodeMatches, PatternMatches, Covers, SafeCover, PatternBlocks, Overlaps, Reach, WellFormed;
    var file := dir + rest;
    if Blocked(d, dir, patterns) {
      BlockedBelow(d, dir, rest[..|rest| - 1], patterns);
      assert file[..|file| - 1] == dir + rest[..|rest| - 1];
    } else {
      forall p | p in patterns && p.negated ensures !Touches(d, p, file) {
        if Touches(d, p, file) {
          ReachIsSound(d, p, dir, file);
        }
      }
      var p :| p in patterns && Covers(d, p, dir) && SafeCover(d, p, dir);
      SafeCoverTouches(d, p, dir, rest);
      DecisionWithoutNegation(d, patterns, file, false);
    }
  }

  lemma NamedDirectoryCoversDir(d: Dialect, p: IgnorePattern, dir: Path, depth: nat)
    requires Collected(d, p) && p.directoryOnly && (p.contentsOnly || p.nodeEnd == |p.glob|)
    requires depth <= |dir| && MatchesNode(d, p, dir + [PROBE], depth)
    ensures Matches(d, p.glob, Seen(d, p, dir))
  {
    hide Matches;
    var seen, seenDir := Seen(d, p, dir + [PROBE]), Seen(d, p, dir);
    var node := seen[..depth + 1];
    assert node == seenDir[..depth + 1] && p.glob[..|p.glob|] == p.glob;
    CoverClosedDownwards(d, p.glob, node, seenDir[depth + 1..]);
    assert node + seenDir[depth + 1..] == seenDir;
  }

  /** Without the condition it fails: for every unsafe cover there is a pruned
      directory with a file below it that is neither blocked nor ignored. */
  lemma UnsafeCoverLosesFiles(d: Dialect, p: IgnorePattern, dir: Path)
    requires Collected(d, p) && Covers(d, p, dir) && !SafeCover(d, p, dir) && |dir| > 0
    ensures Prunable(d, dir, [p])
    ensures !Blocked(d, dir, [p]) && !FileDecision(d, [p], dir + [PROBE], false)
  {
    hide Matches, MatchesNode;
    var file := dir + [PROBE];
    assert p in [p];
    forall depth: nat | depth < |file| ensures !MatchesNode(d, p, file, depth) {
      if MatchesNode(d, p, file, depth) {
        NamedDirectoryCoversDir(d, p, dir, depth);
      }
    }
    DecisionWithoutNegation(d, [p], file, false);
  }

  /** A cover may be relied on in every pattern list exactly when it is safe. */
  lemma CoverIsReliableIffSafe(d: Dialect, p: IgnorePattern, dir: Path)
    requires Collected(d, p) && Covers(d, p, dir) && |dir| > 0
    ensures SafeCover(d, p, dir) <==>
      forall patterns: seq<IgnorePattern>, rest: Path ::
        AllWellFormed(d, patterns) && p in patterns && Prunable(d, dir, patterns) && |rest| > 0 ==>
          Blocked(d, (dir + rest)[..|dir + rest| - 1], patterns) || FileDecision(d, patterns, dir + rest, false)
  {
    hide Matches, NodeMatches, PatternMatches, Covers, PatternBlocks, Overlaps, Reach, SafeCover;
    if SafeCover(d, p, dir) {
      forall patterns: seq<IgnorePattern>, rest: Path
        | AllWellFormed(d, patterns) && p in patterns && Prunable(d, dir, patterns) && |rest| > 0
        ensures Blocked(d, (dir + rest)[..|dir + rest| - 1], patterns) || FileDecision(d, patterns, dir + rest, false)
      {
        PruningIsSound(d, dir, rest, patterns);
      }
    } else {
      UnsafeCoverLosesFiles(d, p, dir);
      var patterns, rest := [p], [PROBE];
      assert (dir + rest)[..|dir + rest| - 1] == dir;
      assert AllWellFormed(d, patterns) && p in patterns;
    }
  }

  /** The failing family is real: the .gitignore line `a/**/` (a trailing
      recursive wildcard, directories only) lets the walk skip `a` although
      nothing ignores the file `a/x`. */
  lemma ContentsOnlyDirectoryRuleLosesFiles(d: Dialect)
    ensures
      var line := GitLine(false, false, true, [Literal("a"), DoubleStar]);
      var rule := CollectRule(d, ParseGitLine(line, []).value, false);
      && Prunable(d, ["a"], [rule])
      && !Blocked(d, ["a"], [rule]) && !FileDecision(d, [rule], ["a", PROBE], false)
  {
    var line := GitLine(false, false, true, [Literal("a"), DoubleStar]);
    var parsed := ParseGitLine(line, []).value;
    assert parsed.nodeGlob == line.body;
    assert parsed.glob == [Literal("a"), DoubleStar, AnySegment];
    var rule := CollectRule(d, parsed, false);
    var glob := rule.glob;
    assert glob == [Literal("a"), DoubleStar, AnySegment];
    assert glob == [Literal("a")] + [DoubleStar, AnySegment];
    assert [Literal("a")][1..] == [] && ["a"][1..] == [];
    SubtreeSuffix(d, [PROBE]);
    MatchesJoin(d, [Literal("a")], [DoubleStar, AnySegment], ["a"], [PROBE]);
    assert ["a"] + [PROBE] == ["a", PROBE];
    SubtreeSuffix(d, []);
    assert glob[1..] == [DoubleStar, AnySegment];
    assert !Matches(d, glob, ["a"]);
    UnsafeCoverLosesFiles(d, rule, ["a"]);
  }
}
