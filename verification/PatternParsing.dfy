/** What a written pattern means: which nodes a .gitignore line names, and how an
    authored ignore string bears on directories. */
module PatternParsing {
  import opened Wrappers
  import opened Globs
  import opened IgnorePatterns
  import opened GitIgnore
  import opened FileIgnore

  // ---- .gitignore lines -----------------------------------------------------

  /** The part of a line that is matched below the directory of its file: a line
      with a slash at its front or inside is anchored there, any other line
      matches at every depth, and a trailing `**` asks for something below. */
  function LineGlob(line: GitLine): Glob {
    if |line.body| >= 2 && line.body[|line.body| - 1].DoubleStar? then line.body + [AnySegment]
    else if line.leadingSlash || |line.body| >= 2 then line.body
    else [DoubleStar] + line.body
  }

  function Folded(d: Dialect, glob: Glob, caseInsensitive: bool): Glob {
    if caseInsensitive then FoldGlob(d, glob) else glob
  }

  function FoldedPath(d: Dialect, path: Path, caseInsensitive: bool): Path {
    if caseInsensitive then FoldPath(d, path) else path
  }

  lemma FoldJoins(d: Dialect, a: Glob, b: Glob)
    ensures FoldGlob(d, a + b) == FoldGlob(d, a) + FoldGlob(d, b)
  {}

  lemma {:induction false} BelowBase(d: Dialect, base: Path, glob: Glob, node: Path)
    ensures Matches(d, BaseGlob(base) + glob, node) <==> base <= node && Matches(d, glob, node[|base|..])
    decreases |base|
  {
    if |base| == 0 {
      assert BaseGlob(base) + glob == glob && node[0..] == node;
    } else {
      var whole := BaseGlob(base) + glob;
      assert whole[0] == Literal(base[0]) && whole[1..] == BaseGlob(base[1..]) + glob;
      if |node| > 0 {
        BelowBase(d, base[1..], glob, node[1..]);
        if base <= node {
          assert node[1..][..|base| - 1] == node[..|base|][1..];
          assert node[|base|..] == node[1..][|base| - 1..];
        }
        if node[0] == base[0] && base[1..] <= node[1..] {
          assert node[..|base|] == [node[0]] + node[1..][..|base| - 1];
          assert base == [base[0]] + base[1..];
          assert node[|base|..] == node[1..][|base| - 1..];
        }
      }
    }
  }

  lemma FoldedBase(d: Dialect, base: Path)
    ensures FoldGlob(d, BaseGlob(base)) == BaseGlob(FoldPath(d, base))
  {}

  // The glob a collected rule tests nodes with.
  lemma NodeTest(d: Dialect, line: GitLine, base: Path, caseInsensitive: bool)
    requires ParseGitLine(line, base).Some?
    ensures var p := CollectRule(d, ParseGitLine(line, base).value, caseInsensitive);
      (if p.contentsOnly then p.glob else NodeGlob(p)) == Folded(d, BaseGlob(base) + LineGlob(line), caseInsensitive)
  {
    RuleGlobs(line, base);
    hide ParseGitLine, Projection, LineGlob, BaseGlob;
    var rule := ParseGitLine(line, base).value;
    var p := CollectRule(d, rule, caseInsensitive);
    var projected := Projection(rule.glob);
    if !rule.contentsOnly {
      assert FoldGlob(d, projected)[..|rule.nodeGlob|] == FoldGlob(d, rule.nodeGlob);
    }
  }

  // The same before collection.
  lemma RuleGlobs(line: GitLine, base: Path)
    requires ParseGitLine(line, base).Some?
    ensures var rule := ParseGitLine(line, base).value;
      if rule.contentsOnly then Projection(rule.glob) == BaseGlob(base) + LineGlob(line)
      else rule.nodeGlob == BaseGlob(base) + LineGlob(line) && rule.nodeGlob <= Projection(rule.glob)
  {
    ParsedLineProjects(line, base);
    var rule := ParseGitLine(line, base).value;
    var projected := Projection(rule.glob);
    if rule.contentsOnly {
      assert rule.nodeGlob == BaseGlob(base) + line.body;
      assert projected == rule.nodeGlob + [AnySegment];
      assert projected == BaseGlob(base) + (line.body + [AnySegment]);
    } else {
      assert rule.nodeGlob == BaseGlob(base) + LineGlob(line);
    }
  }

  /** A line names a node exactly when the node lies below the directory of its
      file and the line matches the path from there; a line with a trailing slash
      names directories only. It re-includes exactly when it starts with `!`. */
  lemma ParsedLineNames(d: Dialect, line: GitLine, base: Path, caseInsensitive: bool, path: Path, depth: nat)
    requires ParseGitLine(line, base).Some? && depth < |path|
    ensures var p := CollectRule(d, ParseGitLine(line, base).value, caseInsensitive);
      var top, node := FoldedPath(d, base, caseInsensitive), FoldedPath(d, path, caseInsensitive)[..depth + 1];
      && p.gitPattern && p.negated == line.negated
      && (MatchesNode(d, p, path, depth) <==>
            && (line.trailingSlash ==> depth < |path| - 1)
            && top <= node && Matches(d, Folded(d, LineGlob(line), caseInsensitive), node[|base|..]))
  {
    NodeTest(d, line, base, caseInsensitive);
    var p := CollectRule(d, ParseGitLine(line, base).value, caseInsensitive);
    var node := FoldedPath(d, path, caseInsensitive)[..depth + 1];
    FoldJoins(d, BaseGlob(base), LineGlob(line));
    FoldedBase(d, base);
    hide Matches, ParseGitLine, FoldGlob;
    BelowBase(d, FoldedPath(d, base, caseInsensitive), Folded(d, LineGlob(line), caseInsensitive), node);
  }

  /** A line of one plain component names the nodes below its directory whose last
      component it accepts, at every depth. */
  lemma PlainLineNames(d: Dialect, line: GitLine, base: Path, path: Path, depth: nat)
    requires ParseGitLine(line, base).Some? && depth < |path|
    requires |line.body| == 1 && !line.body[0].DoubleStar? && !line.leadingSlash
    ensures var p := CollectRule(d, ParseGitLine(line, base).value, false);
      MatchesNode(d, p, path, depth) <==>
        && (line.trailingSlash ==> depth < |path| - 1)
        && base <= path[..depth + 1] && |base| <= depth && Accepts(d, line.body[0], path[depth])
  {
    hide MatchesNode, ParseGitLine, Matches, CollectRule, Accepts;
    ParsedLineNames(d, line, base, false, path, depth);
    var node := path[..depth + 1];
    if base <= node {
      assert LineGlob(line) == [DoubleStar, line.body[0]];
      BasenameMatches(d, line.body[0], node[|base|..]);
      assert |base| <= depth ==> node[|base|..][depth - |base|] == path[depth];
    }
  }

  /** A line is dropped exactly when nothing is left of it or it climbs out. */
  lemma ParsedExactly(line: GitLine, base: Path)
    ensures ParseGitLine(line, base).None? <==> |line.body| == 0 || exists i :: 0 <= i < |line.body| && line.body[i] == Literal("..")
  {}

  // ---- Authored strings -----------------------------------------------------

  /** An authored ignore string, normalised: `!` and the segments of its body. */
  datatype Authored = Authored(negated: bool, body: Glob)

  function ParseIgnorePattern(raw: Authored): IgnorePattern {
    var kind :=
      if |raw.body| == 0 then DirNone
      else if EndsCovering(raw.body) then DirFileLevelCover
      else if |raw.body| >= 2 && raw.body[|raw.body| - 1].AnySegment? then DirNone
      else DirAbsoluteBlock;
    IgnorePattern(raw.body, 0, raw.negated, kind, false, false, false, false)
  }

  /** The suffix decides the role: `**` and `*` behind something cover a subtree
      file by file, a mere `*` and the empty string have no say about directories,
      everything else blocks them. */
  lemma AuthoredRole(d: Dialect, raw: Authored)
    ensures var p := ParseIgnorePattern(raw);
      var n := |raw.body|;
      && !p.gitPattern && p.negated == raw.negated && WellFormed(d, p)
      && (forall path :: PatternMatches(d, p, path) <==> Matches(d, raw.body, path))
      && (p.kind == DirFileLevelCover <==> n >= 3 && raw.body[n - 2] == DoubleStar && raw.body[n - 1] == AnySegment)
      && (p.kind == DirNone <==>
            n == 0 || (n >= 2 && raw.body[n - 1] == AnySegment && !(n >= 3 && raw.body[n - 2] == DoubleStar)))
  {}
}
