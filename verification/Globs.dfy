/** Path-segment globs, the matching dialect every ignore decision is made in.
    A path is the sequence of its segments. A glob is a sequence of segment
    patterns in which `**` stands for any number of segments; what one segment
    pattern with wildcards accepts, and how letter case is folded, is left open:
    every result is stated for an arbitrary `Dialect`. */
module Globs {
  type Path = seq<string>

  datatype GlobSegment =
    | DoubleStar
    | AnySegment
    | Literal(text: string)
    | Wild(source: string)

  type Glob = seq<GlobSegment>

  datatype Dialect = Dialect(accepts: (string, string) -> bool, fold: string -> string)

  predicate Accepts(d: Dialect, pattern: GlobSegment, segment: string)
    requires !pattern.DoubleStar?
  {
    match pattern
    case AnySegment => true
    case Literal(text) => text == segment
    case Wild(source) => d.accepts(source, segment)
  }

  predicate Matches(d: Dialect, glob: Glob, path: Path)
    decreases |glob| + |path|
  {
    if |glob| == 0 then |path| == 0
    else if glob[0].DoubleStar? then
      Matches(d, glob[1..], path) || (|path| > 0 && Matches(d, glob, path[1..]))
    else
      |path| > 0 && Accepts(d, glob[0], path[0]) && Matches(d, glob[1..], path[1..])
  }

  /** The case fold applied to a path before a case-insensitive rule sees it. */
  function FoldPath(d: Dialect, path: Path): (r: Path)
    ensures |r| == |path|
    ensures forall i :: 0 <= i < |path| ==> r[i] == d.fold(path[i])
  {
    seq(|path|, i requires 0 <= i < |path| => d.fold(path[i]))
  }

  function FoldSegment(d: Dialect, pattern: GlobSegment): GlobSegment {
    match pattern
    case DoubleStar => DoubleStar
    case AnySegment => AnySegment
    case Literal(text) => Literal(d.fold(text))
    case Wild(source) => Wild(d.fold(source))
  }

  function FoldGlob(d: Dialect, glob: Glob): (r: Glob)
    ensures |r| == |glob|
    ensures forall i :: 0 <= i < |glob| ==> r[i] == FoldSegment(d, glob[i])
  {
    seq(|glob|, i requires 0 <= i < |glob| => FoldSegment(d, glob[i]))
  }

  ghost predicate FoldsOnce(d: Dialect) {
    forall s: string :: d.fold(d.fold(s)) == d.fold(s)
  }

  // A glob that covers a subtree: `X/**/*`.
  predicate CoversSubtree(glob: Glob) {
    |glob| >= 2 && glob[|glob| - 2].DoubleStar? && glob[|glob| - 1].AnySegment?
  }

  lemma {:induction false} MatchesSplit(d: Dialect, left: Glob, right: Glob, path: Path) returns (k: nat)
    requires Matches(d, left + right, path)
    ensures k <= |path| && Matches(d, left, path[..k]) && Matches(d, right, path[k..])
    decreases |left| + |path|
  {
    if |left| == 0 {
      k := 0;
      assert left + right == right && path[0..] == path;
    } else {
      var tail := left[1..];
      assert (left + right)[1..] == tail + right;
      if left[0].DoubleStar? {
        if Matches(d, tail + right, path) {
          k := MatchesSplit(d, tail, right, path);
        } else {
          k := MatchesSplit(d, left, right, path[1..]);
          k := k + 1;
          assert path[1..][..k - 1] == path[..k][1..];
          assert path[1..][k - 1..] == path[k..];
        }
      } else {
        k := MatchesSplit(d, tail, right, path[1..]);
        k := k + 1;
        assert path[1..][..k - 1] == path[..k][1..];
        assert path[1..][k - 1..] == path[k..];
      }
    }
  }

  lemma {:induction false} MatchesJoin(d: Dialect, left: Glob, right: Glob, head: Path, rest: Path)
    requires Matches(d, left, head) && Matches(d, right, rest)
    ensures Matches(d, left + right, head + rest)
    decreases |left| + |head|
  {
    if |left| == 0 {
      assert left + right == right && head + rest == rest;
    } else {
      assert (left + right)[1..] == left[1..] + right;
      if |head| > 0 {
        assert (head + rest)[1..] == head[1..] + rest;
      }
      if left[0].DoubleStar? {
        if Matches(d, left[1..], head) {
          MatchesJoin(d, left[1..], right, head, rest);
        } else {
          MatchesJoin(d, left, right, head[1..], rest);
        }
      } else {
        MatchesJoin(d, left[1..], right, head[1..], rest);
      }
    }
  }

  lemma {:induction false} DoubleStarMatchesAll(d: Dialect, path: Path)
    ensures Matches(d, [DoubleStar], path)
  {
    assert [DoubleStar][1..] == [];
    if |path| > 0 {
      DoubleStarMatchesAll(d, path[1..]);
    }
  }

  lemma AnyMatchesOne(d: Dialect, path: Path)
    ensures Matches(d, [AnySegment], path) <==> |path| == 1
  {
    assert [AnySegment][1..] == [];
  }

  /** `**` followed by one required segment is exactly "at least one segment". */
  lemma SubtreeSuffix(d: Dialect, path: Path)
    ensures Matches(d, [DoubleStar, AnySegment], path) <==> |path| > 0
  {
    var suffix := [DoubleStar, AnySegment];
    assert suffix == [DoubleStar] + [AnySegment];
    if Matches(d, suffix, path) {
      var k := MatchesSplit(d, [DoubleStar], [AnySegment], path);
      AnyMatchesOne(d, path[k..]);
    }
    if |path| > 0 {
      var last := |path| - 1;
      DoubleStarMatchesAll(d, path[..last]);
      AnyMatchesOne(d, path[last..]);
      MatchesJoin(d, [DoubleStar], [AnySegment], path[..last], path[last..]);
      assert path[..last] + path[last..] == path;
    }
  }

  /** A glob `X/**/*` matches a path exactly when `X` matches one of its proper prefixes. */
  lemma CoverMatches(d: Dialect, glob: Glob, path: Path) returns (k: nat)
    requires CoversSubtree(glob) && Matches(d, glob, path)
    ensures k < |path| && Matches(d, glob[..|glob| - 2], path[..k])
  {
    var n := |glob| - 2;
    assert glob == glob[..n] + [DoubleStar, AnySegment];
    k := MatchesSplit(d, glob[..n], [DoubleStar, AnySegment], path);
    SubtreeSuffix(d, path[k..]);
  }

  /** What a subtree cover matches, it matches with anything appended below the prefix it uses. */
  lemma CoverExtends(d: Dialect, glob: Glob, head: Path, rest: Path)
    requires CoversSubtree(glob) && Matches(d, glob[..|glob| - 2], head) && |rest| > 0
    ensures Matches(d, glob, head + rest)
  {
    var n := |glob| - 2;
    assert glob == glob[..n] + [DoubleStar, AnySegment];
    SubtreeSuffix(d, rest);
    MatchesJoin(d, glob[..n], [DoubleStar, AnySegment], head, rest);
  }

  /** Subtree covers are closed downwards: below a matched path everything matches. */
  lemma CoverClosedDownwards(d: Dialect, glob: Glob, path: Path, rest: Path)
    requires CoversSubtree(glob) && Matches(d, glob, path)
    ensures Matches(d, glob, path + rest)
  {
    var k := CoverMatches(d, glob, path);
    CoverExtends(d, glob, path[..k], path[k..] + rest);
    assert path[..k] + (path[k..] + rest) == path + rest;
  }

  /** The literal prefix of a glob is a prefix of every path the glob matches. */
  lemma {:induction false} LiteralPrefixMatches(d: Dialect, glob: Glob, path: Path, n: nat)
    requires n <= |glob| && Matches(d, glob, path)
    requires forall i :: 0 <= i < n ==> glob[i].Literal?
    ensures n <= |path| && forall i :: 0 <= i < n ==> glob[i].text == path[i]
  {
    if n > 0 {
      assert forall i :: 0 <= i < n - 1 ==> glob[1..][i] == glob[i + 1];
      LiteralPrefixMatches(d, glob[1..], path[1..], n - 1);
      forall i | 0 <= i < n ensures glob[i].text == path[i] {
        if i > 0 {
          assert glob[1..][i - 1].text == path[1..][i - 1];
        }
      }
    }
  }

  /** Without `**` a glob matches segment by segment. */
  lemma {:induction false} PlainGlobMatches(d: Dialect, glob: Glob, path: Path)
    requires forall i :: 0 <= i < |glob| ==> !glob[i].DoubleStar?
    ensures Matches(d, glob, path) <==> |glob| == |path| && forall i :: 0 <= i < |glob| ==> Accepts(d, glob[i], path[i])
    decreases |glob|
  {
    hide Accepts;
    if |glob| > 0 && |path| > 0 {
      PlainGlobMatches(d, glob[1..], path[1..]);
      assert forall i :: 1 <= i < |glob| ==> glob[i] == glob[1..][i - 1];
      assert forall i :: 1 <= i < |path| ==> path[i] == path[1..][i - 1];
    }
  }

  /** `**` stands for any number of leading segments, none included. */
  lemma {:induction false} DoubleStarSkips(d: Dialect, glob: Glob, path: Path)
    requires |glob| > 0 && glob[0].DoubleStar?
    ensures Matches(d, glob, path) <==> exists k :: 0 <= k <= |path| && Matches(d, glob[1..], path[k..])
    decreases |path|
  {
    assert path[0..] == path;
    if |path| > 0 {
      DoubleStarSkips(d, glob, path[1..]);
      assert forall k :: 1 <= k <= |path| ==> path[k..] == path[1..][k - 1..];
      if k :| 0 <= k <= |path[1..]| && Matches(d, glob[1..], path[1..][k..]) {
        assert path[k + 1..] == path[1..][k..];
      }
    }
  }
}
