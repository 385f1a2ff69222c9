/** Directories, and the root set that covers a list of requested ones. */
module DirectoryRoots {
  import opened Bytes
  import opened Sorting

  /** A normalised absolute directory: the root, then one name per level. */
  type Directory = seq<Text>

  predicate Inside(child: Directory, parent: Directory) {
    |parent| <= |child| && child[..|parent|] == parent
  }

  // ---- Requested roots -------------------------------------------------------

  /** A directory as spelled and as the filesystem resolves it. */
  datatype DirectoryIdentity = DirectoryIdentity(lexical: Directory, canonical: Directory)

  /** Containment in both spellings, by the same path below the parent. */
  predicate Contains(parent: DirectoryIdentity, child: DirectoryIdentity) {
    && Inside(child.lexical, parent.lexical)
    && Inside(child.canonical, parent.canonical)
    && child.lexical[|parent.lexical|..] == child.canonical[|parent.canonical|..]
  }

  /** One root contains another exactly when one relative path leads from it to
      the other, both as spelled and as resolved. */
  lemma ContainsMeans(parent: DirectoryIdentity, child: DirectoryIdentity)
    ensures Contains(parent, child) <==>
      exists rest :: child.lexical == parent.lexical + rest && child.canonical == parent.canonical + rest
  {
    if Contains(parent, child) {
      var rest := child.lexical[|parent.lexical|..];
      assert child.lexical == child.lexical[..|parent.lexical|] + rest;
      assert child.canonical == child.canonical[..|parent.canonical|] + rest;
    }
  }

  lemma ContainsIsAnOrder(a: DirectoryIdentity, b: DirectoryIdentity, c: DirectoryIdentity)
    ensures Contains(a, a)
    ensures Contains(a, b) && Contains(b, a) ==> a == b
    ensures Contains(a, b) && Contains(b, c) ==> Contains(a, c)
  {
    if Contains(a, b) && Contains(b, c) {
      assert c.lexical[..|a.lexical|] == b.lexical[..|a.lexical|];
      assert c.canonical[..|a.canonical|] == b.canonical[..|a.canonical|];
      assert c.lexical[|a.lexical|..] == b.lexical[|a.lexical|..] + c.lexical[|b.lexical|..];
      assert c.canonical[|a.canonical|..] == b.canonical[|a.canonical|..] + c.canonical[|b.canonical|..];
    }
    if Contains(a, b) && Contains(b, a) {
      assert b.lexical[..|a.lexical|] == b.lexical;
      assert b.canonical[..|a.canonical|] == b.canonical;
    }
  }

  /** Nothing else in the list contains it. */
  ghost predicate Outermost(all: seq<DirectoryIdentity>, d: DirectoryIdentity) {
    d in all && forall e :: e in all && Contains(e, d) ==> e == d
  }

  ghost predicate Distinct<T>(items: seq<T>) {
    forall i, j :: 0 <= i < j < |items| ==> items[i] != items[j]
  }

  ghost predicate AreRoots(roots: seq<DirectoryIdentity>, all: seq<DirectoryIdentity>) {
    && Distinct(roots)
    && (forall d :: d in roots <==> Outermost(all, d))
  }

  lemma {:induction false} EveryOneIsCovered(all: seq<DirectoryIdentity>, d: DirectoryIdentity)
    requires d in all
    ensures exists r :: Outermost(all, r) && Contains(r, d)
    decreases |d.lexical| + |d.canonical|
  {
    ContainsIsAnOrder(d, d, d);
    if !Outermost(all, d) {
      var e :| e in all && Contains(e, d) && e != d;
      ContainsIsAnOrder(d, e, d);
      assert d.lexical[..|d.lexical|] == d.lexical && d.canonical[..|d.canonical|] == d.canonical;
      EveryOneIsCovered(all, e);
      var r :| Outermost(all, r) && Contains(r, e);
      ContainsIsAnOrder(r, e, d);
    }
  }

  // An extra root changes the outermost ones in one of two ways.
  lemma CoveredAddsNothing(all: seq<DirectoryIdentity>, last: DirectoryIdentity, d: DirectoryIdentity)
    requires exists r :: Outermost(all, r) && Contains(r, last)
    ensures Outermost(all + [last], d) <==> Outermost(all, d)
  {
    var r :| Outermost(all, r) && Contains(r, last);
    if Outermost(all + [last], d) {
      assert r in all + [last];
      if d == last {
        assert r == d;
      }
      forall e | e in all && Contains(e, d) ensures e == d { assert e in all + [last]; }
    }
    if Outermost(all, d) {
      assert d in all + [last];
      ContainsIsAnOrder(r, last, d);
      ContainsIsAnOrder(last, d, last);
    }
  }

  lemma UncoveredReplaces(all: seq<DirectoryIdentity>, last: DirectoryIdentity, d: DirectoryIdentity)
    requires forall r :: Outermost(all, r) ==> !Contains(r, last)
    ensures Outermost(all + [last], d) <==> d == last || (Outermost(all, d) && !Contains(last, d))
    ensures last !in all
  {
    forall e | e in all ensures !Contains(e, last) {
      EveryOneIsCovered(all, e);
      var r :| Outermost(all, r) && Contains(r, e);
      ContainsIsAnOrder(r, e, last);
    }
    ContainsIsAnOrder(last, last, last);
    assert last in all + [last];
    forall e | e in all ensures e in all + [last] {}
  }

  /** The outermost requested roots, each once. */
  method CoalesceDirectoryIdentities(resolved: seq<DirectoryIdentity>) returns (roots: seq<DirectoryIdentity>)
    ensures AreRoots(roots, resolved)
    ensures forall d :: d in resolved ==> exists r :: r in roots && Contains(r, d)
  {
    roots := [];
    for i := 0 to |resolved|
      invariant AreRoots(roots, resolved[..i])
    {
      var candidate := resolved[i];
      assert resolved[..i + 1] == resolved[..i] + [candidate];
      var covered := Covered(roots, candidate);
      if covered {
        forall d ensures Outermost(resolved[..i + 1], d) <==> Outermost(resolved[..i], d) {
          CoveredAddsNothing(resolved[..i], candidate, d);
        }
      } else {
        forall d ensures Outermost(resolved[..i + 1], d)
            <==> d == candidate || (Outermost(resolved[..i], d) && !Contains(candidate, d)) {
          UncoveredReplaces(resolved[..i], candidate, d);
        }
        var kept := NotWithin(roots, candidate);
        UncoveredReplaces(resolved[..i], candidate, candidate);
        assert candidate !in kept;
        roots := kept + [candidate];
      }
    }
    assert resolved[..|resolved|] == resolved;
    forall d | d in resolved ensures exists r :: r in roots && Contains(r, d) {
      EveryOneIsCovered(resolved, d);
    }
  }

  method Covered(roots: seq<DirectoryIdentity>, candidate: DirectoryIdentity) returns (covered: bool)
    ensures covered <==> exists r :: r in roots && Contains(r, candidate)
  {
    for i := 0 to |roots|
      invariant forall k :: 0 <= k < i ==> !Contains(roots[k], candidate)
    {
      if Contains(roots[i], candidate) {
        assert roots[i] in roots;
        return true;
      }
    }
    return false;
  }

  method NotWithin(roots: seq<DirectoryIdentity>, candidate: DirectoryIdentity) returns (kept: seq<DirectoryIdentity>)
    requires Distinct(roots)
    ensures Distinct(kept)
    ensures forall d :: d in kept <==> d in roots && !Contains(candidate, d)
  {
    kept := [];
    for i := 0 to |roots|
      invariant Distinct(kept)
      invariant forall d :: d in kept <==> d in roots[..i] && !Contains(candidate, d)
    {
      assert roots[..i + 1] == roots[..i] + [roots[i]];
      if !Contains(candidate, roots[i]) {
        assert roots[i] !in roots[..i];
        kept := kept + [roots[i]];
      }
    }
    assert roots[..|roots|] == roots;
  }

  /** The result is the smallest cover: every other choice of requested roots
      that covers all of them includes each of these. */
  lemma RootsAreTheSmallestCover(roots: seq<DirectoryIdentity>, all: seq<DirectoryIdentity>, cover: set<DirectoryIdentity>)
    requires AreRoots(roots, all)
    requires forall c :: c in cover ==> c in all
    requires forall d :: d in all ==> exists c :: c in cover && Contains(c, d)
    ensures forall r :: r in roots ==> r in cover
    ensures |roots| <= |cover|
  {
    forall r | r in roots ensures r in cover {
      var c :| c in cover && Contains(c, r);
    }
    DistinctFit(roots, cover);
  }

  lemma {:induction false} DistinctFit<T>(items: seq<T>, pool: set<T>)
    requires Distinct(items) && forall t :: t in items ==> t in pool
    ensures |items| <= |pool|
  {
    if |items| > 0 {
      var last := items[|items| - 1];
      forall t | t in items[..|items| - 1] ensures t in pool - {last} {}
      DistinctFit(items[..|items| - 1], pool - {last});
    }
  }
}
