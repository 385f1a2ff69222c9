/** Parsed ignore patterns, authored ones and the ones collected from
    .gitignore files, and the decision each one makes about one path node. */
module IgnorePatterns {
  import opened Wrappers
  import opened Globs

  // How a pattern bears on whole directories.
  datatype DirKind = DirNone | DirAbsoluteBlock | DirFileLevelCover

  /** `glob` is the matcher. For a rule collected from Git its first `nodeEnd`
      segments are the rule's own matcher and the whole is the projection of
      that matcher onto the subtree below the matched node. */
  datatype IgnorePattern = IgnorePattern(
    glob: Glob,
    nodeEnd: nat,
    negated: bool,
    kind: DirKind,
    caseInsensitive: bool,
    gitPattern: bool,
    directoryOnly: bool,
    contentsOnly: bool)

  function NodeGlob(p: IgnorePattern): Glob {
    if p.nodeEnd == 0 || p.nodeEnd > |p.glob| then [] else p.glob[..p.nodeEnd]
  }

  // The path as a pattern sees it.
  function Seen(d: Dialect, p: IgnorePattern, path: Path): (r: Path)
    ensures |r| == |path|
  {
    if p.caseInsensitive then FoldPath(d, path) else path
  }

  /** Whether an authored pattern matches a path; both sides are folded. */
  predicate PatternMatches(d: Dialect, p: IgnorePattern, path: Path) {
    if p.caseInsensitive then Matches(d, FoldGlob(d, p.glob), FoldPath(d, path))
    else Matches(d, p.glob, path)
  }

  // A Git rule's test of one already folded node.
  predicate NodeMatches(d: Dialect, p: IgnorePattern, node: Path) {
    Matches(d, if p.contentsOnly then p.glob else NodeGlob(p), node)
  }

  /** Whether a Git rule names the node at `depth` of `path`. Every node but the
      last is a directory; a directory-only rule never names the last one. */
  predicate MatchesNode(d: Dialect, p: IgnorePattern, path: Path, depth: nat)
    requires depth < |path|
  {
    && (p.directoryOnly ==> depth < |path| - 1)
    && NodeMatches(d, p, Seen(d, p, path)[..depth + 1])
  }

  /** What collection guarantees about every Git rule: the projection ends in
      a recursive required component, and it adds nothing but that to the node
      matcher. */
  predicate Collected(d: Dialect, p: IgnorePattern) {
    && p.gitPattern
    && p.kind == DirFileLevelCover
    && 0 < p.nodeEnd <= |p.glob| <= p.nodeEnd + 2
    && CoversSubtree(p.glob)
    && (p.contentsOnly ==> p.glob[p.nodeEnd - 1].DoubleStar?)
    && (p.caseInsensitive ==> FoldGlob(d, p.glob) == p.glob)
  }

  /** If a Git rule names a directory on the way to `path`, its projection
      matches `path`: the gate in front of the ancestor scan loses nothing. */
  lemma ProjectionCoversNode(d: Dialect, p: IgnorePattern, path: Path, n: nat)
    requires Collected(d, p) && n < |path|
    requires NodeMatches(d, p, path[..n])
    ensures Matches(d, p.glob, path)
  {
    assert path[..n] + path[n..] == path;
    if p.contentsOnly || p.nodeEnd == |p.glob| {
      assert NodeGlob(p) == p.glob || p.contentsOnly;
      CoverClosedDownwards(d, p.glob, path[..n], path[n..]);
    } else if p.nodeEnd == |p.glob| - 2 {
      CoverExtends(d, p.glob, path[..n], path[n..]);
    } else {
      var m := |p.glob| - 2;
      assert NodeGlob(p) == p.glob[..m] + [DoubleStar];
      var k := MatchesSplit(d, p.glob[..m], [DoubleStar], path[..n]);
      assert path[..n][..k] == path[..k] && path[..k] + path[k..] == path;
      CoverExtends(d, p.glob, path[..k], path[k..]);
    }
  }

  // ---- From a .gitignore line to a collected rule -------------------------

  /** One .gitignore line: its markers and the segments between its slashes. */
  datatype GitLine = GitLine(negated: bool, leadingSlash: bool, trailingSlash: bool, body: Glob)

  datatype GitRule = GitRule(
    glob: Glob, nodeGlob: Glob, negated: bool, directoryOnly: bool, contentsOnly: bool)

  predicate EndsRecursive(glob: Glob) {
    |glob| >= 2 && glob[|glob| - 1].DoubleStar?
  }

  predicate EndsCovering(glob: Glob) {
    |glob| >= 3 && CoversSubtree(glob)
  }

  function BaseGlob(base: seq<string>): Glob {
    seq(|base|, i requires 0 <= i < |base| => Literal(base[i]))
  }

  function ParseGitLine(line: GitLine, base: seq<string>): Option<GitRule> {
    if |line.body| == 0 || Literal("..") in line.body then None
    else
      var rooted := line.leadingSlash || |line.body| > 1;
      var node := BaseGlob(base) + (if rooted then line.body else [DoubleStar] + line.body);
      var contentsOnly := EndsRecursive(line.body);
      var glob :=
        if line.trailingSlash && !EndsCovering(node) then
          node + (if contentsOnly then [AnySegment] else [DoubleStar, AnySegment])
        else node;
      Some(GitRule(glob, node, line.negated, line.trailingSlash, contentsOnly))
  }

  function Projection(glob: Glob): Glob {
    if EndsRecursive(glob) && !EndsCovering(glob) then glob + [AnySegment]
    else if !EndsCovering(glob) then glob + [DoubleStar, AnySegment]
    else glob
  }

  // The record kept for a collected rule.
  function CollectRule(d: Dialect, rule: GitRule, caseInsensitive: bool): IgnorePattern {
    var projected := Projection(rule.glob);
    IgnorePattern(
      if caseInsensitive then FoldGlob(d, projected) else projected,
      |rule.nodeGlob|, rule.negated, DirFileLevelCover, caseInsensitive,
      true, rule.directoryOnly, rule.contentsOnly)
  }

  predicate Collectable(d: Dialect, rule: GitRule, caseInsensitive: bool) {
    && |rule.glob| > 0 && |rule.nodeGlob| > 0
    && (if caseInsensitive then FoldGlob(d, rule.nodeGlob) else rule.nodeGlob)
       <= CollectRule(d, rule, caseInsensitive).glob
  }

  method CollectRules(d: Dialect, rules: seq<GitRule>, caseInsensitive: bool) returns (patterns: seq<IgnorePattern>)
    ensures patterns == CollectedRules(d, rules, caseInsensitive)
  {
    patterns := [];
    for i := 0 to |rules|
      invariant patterns == CollectedRules(d, rules[..i], caseInsensitive)
    {
      assert rules[..i + 1][..i] == rules[..i];
      var rule := rules[i];
      if |rule.glob| == 0 || |rule.nodeGlob| == 0 {
        continue;
      }
      var projection := rule.glob;
      if EndsRecursive(projection) && !EndsCovering(projection) {
        projection := projection + [AnySegment];
      } else if !EndsCovering(projection) {
        projection := projection + [DoubleStar, AnySegment];
      }
      var nodeGlob := rule.nodeGlob;
      if caseInsensitive {
        projection := FoldGlob(d, projection);
        nodeGlob := FoldGlob(d, nodeGlob);
      }
      if !(nodeGlob <= projection) {
        continue;
      }
      patterns := patterns + [IgnorePattern(projection, |nodeGlob|, rule.negated, DirFileLevelCover,
                                            caseInsensitive, true, rule.directoryOnly, rule.contentsOnly)];
    }
    assert rules[..|rules|] == rules;
  }

  ghost function CollectedRules(d: Dialect, rules: seq<GitRule>, caseInsensitive: bool): seq<IgnorePattern> {
    if |rules| == 0 then []
    else
      var last := rules[|rules| - 1];
      CollectedRules(d, rules[..|rules| - 1], caseInsensitive)
      + (if Collectable(d, last, caseInsensitive) then [CollectRule(d, last, caseInsensitive)] else [])
  }

  /** Every rule parsed from a .gitignore line is kept, and kept with the
      projection invariant the evaluator and the pruner rely on. */
  lemma ParsedLineIsCollected(d: Dialect, line: GitLine, base: seq<string>, caseInsensitive: bool)
    requires ParseGitLine(line, base).Some?
    requires FoldsOnce(d)
    ensures
      var rule := ParseGitLine(line, base).value;
      && Collectable(d, rule, caseInsensitive)
      && Collected(d, CollectRule(d, rule, caseInsensitive))
  {
    ParsedLineProjects(line, base);
    hide ParseGitLine, Projection;
    var rule := ParseGitLine(line, base).value;
    if caseInsensitive {
      FoldedProjection(d, rule.nodeGlob, Projection(rule.glob));
    }
  }

  // The projection extends the node glob and covers what lies below it.
  lemma ParsedLineProjects(line: GitLine, base: seq<string>)
    requires ParseGitLine(line, base).Some?
    ensures
      var rule := ParseGitLine(line, base).value;
      var projected := Projection(rule.glob);
      && |rule.glob| > 0 && 0 < |rule.nodeGlob| <= |projected| <= |rule.nodeGlob| + 2
      && rule.nodeGlob <= projected && CoversSubtree(projected)
      && (rule.contentsOnly ==> projected[|rule.nodeGlob| - 1] == DoubleStar)
  {
    var rule := ParseGitLine(line, base).value;
    var projected := Projection(rule.glob);
    assert rule.nodeGlob <= rule.glob <= projected;
    if rule.contentsOnly {
      var node := rule.nodeGlob;
      assert node[|node| - 1] == line.body[|line.body| - 1];
    }
  }

  lemma FoldedProjection(d: Dialect, node: Glob, projected: Glob)
    requires FoldsOnce(d) && node <= projected
    ensures FoldGlob(d, FoldGlob(d, projected)) == FoldGlob(d, projected)
    ensures FoldGlob(d, node) <= FoldGlob(d, projected)
    ensures CoversSubtree(projected) ==> CoversSubtree(FoldGlob(d, projected))
  {
    var folded := FoldGlob(d, projected);
    assert forall i :: 0 <= i < |projected| ==> FoldSegment(d, folded[i]) == folded[i];
  }
}
