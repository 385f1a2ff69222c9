/** The unavailable boundaries an editor config snapshot keeps for configs that
    failed to load: the outermost failed directories without a usable ancestor. */
module ConfigBoundaries {
  import opened Bytes
  import opened Sorting
  import opened DirectoryRoots

  /** How a filesystem folds the case of one name; the identity when it is case
      sensitive. */
  type Folding = Text -> Text

  function Identity(d: Directory, fold: Folding): (id: Directory)
    ensures |id| == |d|
  {
    seq(|d|, i requires 0 <= i < |d| => fold(d[i]))
  }

  predicate Same(a: Directory, b: Directory, fold: Folding) {
    Identity(a, fold) == Identity(b, fold)
  }

  predicate Owns(parent: Directory, child: Directory, fold: Folding) {
    parent != [] && Inside(Identity(child, fold), Identity(parent, fold))
  }

  /** A directory owns another when it leads towards it, name by name up to the
      folding of case. */
  lemma OwnsByNames(parent: Directory, child: Directory, fold: Folding)
    ensures Owns(parent, child, fold) <==>
      0 < |parent| <= |child| && forall i :: 0 <= i < |parent| ==> fold(parent[i]) == fold(child[i])
    ensures Same(parent, child, fold) <==>
      |parent| == |child| && forall i :: 0 <= i < |parent| ==> fold(parent[i]) == fold(child[i])
  {
    var p, c := Identity(parent, fold), Identity(child, fold);
    if Owns(parent, child, fold) {
      assert forall i :: 0 <= i < |parent| ==> c[..|p|][i] == c[i] && p[i] == fold(parent[i]);
    }
    if Same(parent, child, fold) {
      assert forall i :: 0 <= i < |parent| ==> c[i] == fold(child[i]) && p[i] == fold(parent[i]);
    }
  }

  lemma OwnersAreComparable(a: Directory, b: Directory, d: Directory, fold: Folding)
    requires Owns(a, d, fold) && Owns(b, d, fold)
    ensures Owns(a, b, fold) || Owns(b, a, fold)
    ensures Owns(a, b, fold) && Owns(b, a, fold) ==> Same(a, b, fold)
  {
    var x, y, z := Identity(a, fold), Identity(b, fold), Identity(d, fold);
    if |x| <= |y| {
      assert y[..|x|] == z[..|x|];
    } else {
      assert x[..|y|] == z[..|y|];
    }
    assert y[..|y|] == y && x[..|x|] == x;
  }

  lemma OwnedIsNamed(parent: Directory, child: Directory, fold: Folding)
    requires Owns(parent, child, fold)
    ensures child != []
  {}

  lemma OwnsIsTransitive(a: Directory, b: Directory, c: Directory, fold: Folding)
    requires Owns(a, b, fold) && Owns(b, c, fold)
    ensures Owns(a, c, fold)
    ensures Owns(c, a, fold) ==> Same(a, b, fold)
  {
    var x, y, z := Identity(a, fold), Identity(b, fold), Identity(c, fold);
    assert z[..|x|] == y[..|x|];
    assert y[..|y|] == y && x[..|x|] == x && z[..|z|] == z;
  }

  // ---- Candidates ------------------------------------------------------------

  /** A failed directory blocks the workspace fallback when no successfully
      loaded config owns it. */
  predicate Blocks(directory: Directory, usable: set<Directory>, fold: Folding) {
    directory != [] && forall u :: u in usable ==> !Owns(u, directory, fold)
  }

  ghost predicate Unlike(ds: seq<Directory>, fold: Folding) {
    forall i, j :: 0 <= i < j < |ds| ==> !Same(ds[i], ds[j], fold)
  }

  /** `d` is failure `i`, and no earlier failure is the same directory. */
  ghost predicate FirstAt(failures: seq<Directory>, fold: Folding, d: Directory, i: int) {
    0 <= i < |failures| && failures[i] == d && forall j :: 0 <= j < i ==> !Same(failures[j], d, fold)
  }

  /** A blocking failure in the spelling in which it came first. */
  ghost predicate FirstSpelled(failures: seq<Directory>, usable: set<Directory>, fold: Folding, d: Directory) {
    Blocks(d, usable, fold) && exists i :: FirstAt(failures, fold, d, i)
  }

  /** The first spelling of every blocking failure. */
  ghost predicate AreCandidates(ds: seq<Directory>, failures: seq<Directory>, usable: set<Directory>, fold: Folding) {
    && Unlike(ds, fold)
    && (forall d :: d in ds <==> FirstSpelled(failures, usable, fold, d))
  }

  lemma BlocksAlike(a: Directory, b: Directory, usable: set<Directory>, fold: Folding)
    requires Same(a, b, fold)
    ensures Blocks(a, usable, fold) <==> Blocks(b, usable, fold)
  {
    assert |Identity(a, fold)| == |Identity(b, fold)|;
  }

  lemma {:induction false} FirstExists(failures: seq<Directory>, fold: Folding, i: nat)
    requires i < |failures|
    ensures exists c, k :: FirstAt(failures, fold, c, k) && Same(c, failures[i], fold)
    decreases i
  {
    hide Identity;
    if FirstAt(failures, fold, failures[i], i) {
      assert Same(failures[i], failures[i], fold);
    } else {
      var j :| 0 <= j < i && Same(failures[j], failures[i], fold);
      FirstExists(failures, fold, j);
    }
  }

  /** Every blocking failure has its first spelling. */
  lemma FirstSpellingOf(failures: seq<Directory>, usable: set<Directory>, fold: Folding, f: Directory)
    requires f in failures && Blocks(f, usable, fold)
    ensures exists c :: FirstSpelled(failures, usable, fold, c) && Same(c, f, fold)
  {
    hide Identity, Blocks;
    var i :| 0 <= i < |failures| && failures[i] == f;
    FirstExists(failures, fold, i);
    var c, k :| FirstAt(failures, fold, c, k) && Same(c, f, fold);
    BlocksAlike(c, f, usable, fold);
    assert FirstSpelled(failures, usable, fold, c);
  }

  lemma FirstStaysFirst(failures: seq<Directory>, last: Directory, fold: Folding, d: Directory, i: nat)
    requires i < |failures|
    ensures FirstAt(failures + [last], fold, d, i) <==> FirstAt(failures, fold, d, i)
  {
    hide Same;
    assert forall j :: 0 <= j <= i ==> (failures + [last])[j] == failures[j];
  }

  // A directory with a candidate is not first.
  lemma LaterIsNotFirst(ds: seq<Directory>, failures: seq<Directory>, d: Directory, c: Directory, usable: set<Directory>, fold: Folding)
    requires AreCandidates(ds, failures, usable, fold) && c in ds && Same(c, d, fold)
    ensures !FirstAt(failures + [d], fold, d, |failures|)
  {
    hide Blocks, Same;
    var k :| FirstAt(failures, fold, c, k);
    assert (failures + [d])[k] == c;
  }

  lemma SkippedFailure(ds: seq<Directory>, failures: seq<Directory>, d: Directory, usable: set<Directory>, fold: Folding)
    requires AreCandidates(ds, failures, usable, fold)
    requires Blocks(d, usable, fold) ==> exists c :: c in ds && Same(c, d, fold)
    ensures AreCandidates(ds, failures + [d], usable, fold)
  {
    hide Blocks, Same;
    if Blocks(d, usable, fold) {
      var c :| c in ds && Same(c, d, fold);
      LaterIsNotFirst(ds, failures, d, c, usable, fold);
    }
    forall e ensures FirstSpelled(failures + [d], usable, fold, e) <==> FirstSpelled(failures, usable, fold, e) {
      if i :| FirstAt(failures, fold, e, i) {
        FirstStaysFirst(failures, d, fold, e, i);
      }
      if i :| FirstAt(failures + [d], fold, e, i) {
        if i < |failures| {
          FirstStaysFirst(failures, d, fold, e, i);
        }
      }
    }
  }

  lemma AddedCandidate(ds: seq<Directory>, failures: seq<Directory>, d: Directory, usable: set<Directory>, fold: Folding)
    requires AreCandidates(ds, failures, usable, fold)
    requires Blocks(d, usable, fold) && forall c :: c in ds ==> !Same(c, d, fold)
    ensures AreCandidates(ds + [d], failures + [d], usable, fold)
  {
    NewIsFirst(ds, failures, d, usable, fold);
    hide Blocks, Same;
    forall e ensures FirstSpelled(failures + [d], usable, fold, e) <==> FirstSpelled(failures, usable, fold, e) || e == d {
      if i :| FirstAt(failures, fold, e, i) {
        FirstStaysFirst(failures, d, fold, e, i);
      }
      if i :| FirstAt(failures + [d], fold, e, i) {
        if i < |failures| {
          FirstStaysFirst(failures, d, fold, e, i);
        }
      }
    }
    assert forall c :: c in ds + [d] <==> c in ds || c == d;
  }

  lemma EarlierHasCandidate(ds: seq<Directory>, failures: seq<Directory>, d: Directory, j: nat, usable: set<Directory>, fold: Folding)
    requires AreCandidates(ds, failures, usable, fold) && j < |failures|
    requires Blocks(d, usable, fold) && Same(failures[j], d, fold)
    ensures exists c :: c in ds && Same(c, d, fold)
  {
    hide Blocks, Identity;
    BlocksAlike(failures[j], d, usable, fold);
    FirstSpellingOf(failures, usable, fold, failures[j]);
    var c :| FirstSpelled(failures, usable, fold, c) && Same(c, failures[j], fold);
    assert c in ds;
  }

  lemma NewIsFirst(ds: seq<Directory>, failures: seq<Directory>, d: Directory, usable: set<Directory>, fold: Folding)
    requires AreCandidates(ds, failures, usable, fold)
    requires Blocks(d, usable, fold) && forall c :: c in ds ==> !Same(c, d, fold)
    ensures FirstAt(failures + [d], fold, d, |failures|)
  {
    hide Blocks, Same;
    forall j | 0 <= j < |failures| ensures !Same((failures + [d])[j], d, fold) {
      assert (failures + [d])[j] == failures[j];
      if Same(failures[j], d, fold) {
        EarlierHasCandidate(ds, failures, d, j, usable, fold);
      }
    }
  }

  lemma SameAsItself(d: Directory, fold: Folding)
    ensures Same(d, d, fold)
  {}

  ghost predicate Indexed(byIdentity: map<Directory, Directory>, ds: seq<Directory>, fold: Folding) {
    && (forall d :: d in ds ==> Identity(d, fold) in byIdentity)
    && (forall id :: id in byIdentity ==> byIdentity[id] in ds && Identity(byIdentity[id], fold) == id)
  }

  lemma EmptyIndex(fold: Folding)
    ensures Indexed(map[], [], fold)
  {}

  lemma IndexTells(byIdentity: map<Directory, Directory>, ds: seq<Directory>, d: Directory, fold: Folding)
    requires Indexed(byIdentity, ds, fold)
    ensures Identity(d, fold) in byIdentity <==> exists c :: c in ds && Same(c, d, fold)
  {}

  lemma IndexGrows(byIdentity: map<Directory, Directory>, ds: seq<Directory>, d: Directory, fold: Folding)
    requires Indexed(byIdentity, ds, fold)
    ensures Indexed(byIdentity[Identity(d, fold) := d], ds + [d], fold)
  {
    hide Identity;
  }

  method CollectCandidates(failures: seq<Directory>, usable: set<Directory>, fold: Folding)
    returns (candidates: seq<Directory>)
    ensures AreCandidates(candidates, failures, usable, fold)
  {
    hide AreCandidates, Blocks, Indexed, Same, Identity;
    candidates := [];
    var byIdentity: map<Directory, Directory> := map[];
    assert AreCandidates([], failures[..0], usable, fold) by { NoCandidates(usable, fold); }
    assert Indexed(byIdentity, [], fold) by { EmptyIndex(fold); }
    for i := 0 to |failures|
      invariant AreCandidates(candidates, failures[..i], usable, fold)
      invariant Indexed(byIdentity, candidates, fold)
    {
      var directory := failures[i];
      assert failures[..i + 1] == failures[..i] + [directory];
      var id := Identity(directory, fold);
      if Blocks(directory, usable, fold) && id !in byIdentity {
        IndexTells(byIdentity, candidates, directory, fold);
        AddedCandidate(candidates, failures[..i], directory, usable, fold);
        IndexGrows(byIdentity, candidates, directory, fold);
        byIdentity := byIdentity[id := directory];
        candidates := candidates + [directory];
      } else {
        IndexTells(byIdentity, candidates, directory, fold);
        SkippedFailure(candidates, failures[..i], directory, usable, fold);
      }
    }
    assert failures[..|failures|] == failures;
  }

  lemma NoCandidates(usable: set<Directory>, fold: Folding)
    ensures AreCandidates([], [], usable, fold)
  {}

  // ---- Order of visit --------------------------------------------------------

  const SLASH: Byte := 47

  /** The path as text: the root and a slash, then the names between slashes. */
  function Spelling(d: Directory): Text {
    if |d| == 0 then []
    else if |d| == 1 then d[0] + [SLASH]
    else if |d| == 2 then Spelling(d[..1]) + d[1]
    else Spelling(d[..|d| - 1]) + [SLASH] + d[|d| - 1]
  }

  /** Shorter paths first, equal lengths in byte order. */
  predicate Before(a: Directory, b: Directory) {
    var x, y := Spelling(a), Spelling(b);
    |x| < |y| || (|x| == |y| && AtMostInOrder(x, y))
  }

  /** The order of visit, byte by byte. */
  lemma BeforeMeans(a: Directory, b: Directory)
    ensures var x, y := Spelling(a), Spelling(b);
      Before(a, b) <==> |x| < |y| || (|x| == |y| && (x == y || exists i :: FirstSmallerAt(x, y, i)))
  {
    LessMeans(Spelling(a), Spelling(b));
    hide Spelling, Less;
  }

  lemma BeforeIsTotal()
    ensures TotalPreorder(Before)
  {
    hide Spelling, AtMostInOrder;
    forall a, b ensures Before(a, b) || Before(b, a) {
      ByteOrderIsTotal(Spelling(a), Spelling(b), Spelling(a));
    }
    forall a, b, c | Before(a, b) && Before(b, c) ensures Before(a, c) {
      ByteOrderIsTotal(Spelling(a), Spelling(b), Spelling(c));
    }
  }

  // ---- The greedy pass -------------------------------------------------------

  ghost predicate CoveredBy(boundaries: seq<Directory>, d: Directory, fold: Folding) {
    exists b :: b in boundaries && Owns(b, d, fold)
  }

  /** Keep a candidate unless one kept before it owns it. */
  ghost function Kept(ds: seq<Directory>, fold: Folding): (kept: seq<Directory>)
    ensures forall d :: d in kept ==> d in ds
    decreases |ds|
  {
    if |ds| == 0 then []
    else
      var before := Kept(ds[..|ds| - 1], fold);
      if CoveredBy(before, ds[|ds| - 1], fold) then before else before + [ds[|ds| - 1]]
  }

  /** Only candidates of the same identity own it. */
  ghost predicate Outer(ds: seq<Directory>, d: Directory, fold: Folding) {
    forall e :: e in ds && Owns(e, d, fold) ==> Same(e, d, fold)
  }

  lemma {:induction false} KeptGrows(ds: seq<Directory>, n: nat, fold: Folding)
    requires n <= |ds|
    ensures forall d :: d in Kept(ds[..n], fold) ==> d in Kept(ds, fold)
    decreases |ds|
  {
    if n < |ds| {
      KeptGrows(ds[..|ds| - 1], n, fold);
      assert ds[..|ds| - 1][..n] == ds[..n];
    } else {
      assert ds[..n] == ds;
    }
  }

  /** A candidate is kept exactly when nothing kept before it owns it. */
  lemma {:induction false} KeptAt(ds: seq<Directory>, n: nat, fold: Folding)
    requires n < |ds| && Unlike(ds, fold)
    ensures ds[n] in Kept(ds, fold) <==> !CoveredBy(Kept(ds[..n], fold), ds[n], fold)
    decreases |ds|
  {
    if n == |ds| - 1 {
      forall d | d in Kept(ds[..n], fold) ensures d != ds[n] {}
    } else {
      KeptAt(ds[..|ds| - 1], n, fold);
      assert ds[..|ds| - 1][..n] == ds[..n];
    }
  }

  lemma {:induction false} KeptCovers(ds: seq<Directory>, n: nat, fold: Folding)
    requires n < |ds| && Unlike(ds, fold) && ds[n] != []
    ensures CoveredBy(Kept(ds[..n + 1], fold), ds[n], fold)
    ensures CoveredBy(Kept(ds, fold), ds[n], fold)
  {
    assert ds[..n + 1][..n] == ds[..n];
    var last := Kept(ds[..n + 1], fold);
    if CoveredBy(Kept(ds[..n], fold), ds[n], fold) {
      KeptGrows(ds[..n + 1], n, fold);
    } else {
      assert ds[n] in last && Identity(ds[n], fold)[..|ds[n]|] == Identity(ds[n], fold);
    }
    KeptGrows(ds, n + 1, fold);
  }

  lemma OuterIsKept(ds: seq<Directory>, n: nat, fold: Folding)
    requires n < |ds| && Unlike(ds, fold) && Outer(ds, ds[n], fold)
    ensures ds[n] in Kept(ds, fold)
  {
    KeptAt(ds, n, fold);
    forall b | b in Kept(ds[..n], fold) ensures !Owns(b, ds[n], fold) {
      var k :| 0 <= k < n && ds[k] == b;
    }
  }

  lemma {:induction false} OuterAbove(ds: seq<Directory>, d: Directory, fold: Folding)
    requires d in ds && d != []
    ensures exists m :: m in ds && Outer(ds, m, fold) && Owns(m, d, fold)
    decreases |d|
  {
    var id := Identity(d, fold);
    assert id[..|id|] == id;
    if !Outer(ds, d, fold) {
      var e :| e in ds && Owns(e, d, fold) && !Same(e, d, fold);
      assert |e| < |d|;
      OuterAbove(ds, e, fold);
      var m :| m in ds && Outer(ds, m, fold) && Owns(m, e, fold);
      OwnsIsTransitive(m, e, d, fold);
    }
  }

  /** No outermost candidate is visited after one it owns. */
  ghost predicate OutermostFirst(ds: seq<Directory>, fold: Folding) {
    forall i, j :: 0 <= i < j < |ds| && Outer(ds, ds[j], fold) ==> !Owns(ds[j], ds[i], fold)
  }

  // A late outermost candidate leaves the nested one that came first.
  lemma LateOutermostLeavesNested(ds: seq<Directory>, i: nat, j: nat, fold: Folding)
    requires Unlike(ds, fold) && i < j < |ds| && Outer(ds, ds[j], fold) && Owns(ds[j], ds[i], fold)
    ensures exists d :: d in Kept(ds, fold) && !Outer(ds, d, fold)
  {
    hide Kept, Owns, Same;
    OwnedIsNamed(ds[j], ds[i], fold);
    KeptCovers(ds, i, fold);
    var b :| b in Kept(ds[..i + 1], fold) && Owns(b, ds[i], fold);
    KeptGrows(ds, i + 1, fold);
    assert b in ds[..i + 1];
    var k :| 0 <= k <= i && ds[k] == b;
    OwnersAreComparable(b, ds[j], ds[i], fold);
    assert !Same(ds[k], ds[j], fold) && ds[k] in ds && ds[j] in ds;
    SameIsSymmetric(b, ds[j], fold);
    assert Owns(ds[j], b, fold);
    assert !Outer(ds, b, fold);
  }

  lemma OutermostFirstKeepsOuter(ds: seq<Directory>, n: nat, fold: Folding)
    requires Unlike(ds, fold) && OutermostFirst(ds, fold) && n < |ds| && ds[n] != [] && ds[n] in Kept(ds, fold)
    ensures Outer(ds, ds[n], fold)
  {
    OuterAbove(ds, ds[n], fold);
    var m :| m in ds && Outer(ds, m, fold) && Owns(m, ds[n], fold);
    var k :| 0 <= k < |ds| && ds[k] == m;
    KeptAt(ds, n, fold);
    if k < n {
      OuterIsKept(ds[..n], k, fold);
    }
  }

  /** The pass keeps exactly the outermost candidates if and only if each of them
      is visited before everything it owns. */
  lemma KeptIsOutermostIff(ds: seq<Directory>, fold: Folding)
    requires Unlike(ds, fold) && forall d :: d in ds ==> d != []
    ensures (forall d :: d in Kept(ds, fold) <==> d in ds && Outer(ds, d, fold)) <==> OutermostFirst(ds, fold)
  {
    hide Kept, Outer, Owns;
    forall n | 0 <= n < |ds| && Outer(ds, ds[n], fold) ensures ds[n] in Kept(ds, fold) {
      OuterIsKept(ds, n, fold);
    }
    if OutermostFirst(ds, fold) {
      forall d | d in Kept(ds, fold) ensures Outer(ds, d, fold) {
        var n :| 0 <= n < |ds| && ds[n] == d;
        OutermostFirstKeepsOuter(ds, n, fold);
      }
    } else {
      var i, j :| 0 <= i < j < |ds| && Outer(ds, ds[j], fold) && Owns(ds[j], ds[i], fold);
      LateOutermostLeavesNested(ds, i, j, fold);
    }
  }

  // ---- When the visit order is right -----------------------------------------

  predicate SlashFree(name: Text) {
    forall i :: 0 <= i < |name| ==> name[i] != SLASH
  }

  predicate LastIsNamed(d: Directory) {
    |d| >= 2 ==> d[|d| - 1] != []
  }

  /** A normalised path: the text before the first slash, then one name for each
      slash, the last one not empty. */
  ghost predicate Normal(d: Directory) {
    LastIsNamed(d) && forall i :: 0 <= i < |d| ==> SlashFree(d[i])
  }

  ghost predicate KeepsLengths(fold: Folding) {
    forall name :: |fold(name)| == |name|
  }

  lemma {:induction false} FoldedSpelling(d: Directory, fold: Folding)
    requires KeepsLengths(fold)
    ensures |Spelling(Identity(d, fold))| == |Spelling(d)|
    decreases |d|
  {
    if |d| > 0 {
      var front := d[..|d| - 1];
      assert Identity(front, fold) == Identity(d, fold)[..|d| - 1];
      FoldedSpelling(front, fold);
    }
  }

  lemma {:induction false} PrefixIsNoLonger(parent: Directory, child: Directory)
    requires parent != [] && Inside(child, parent)
    ensures |Spelling(parent)| <= |Spelling(child)|
    decreases |child|
  {
    if |parent| < |child| {
      assert child[..|child| - 1][..|parent|] == child[..|parent|];
      PrefixIsNoLonger(parent, child[..|child| - 1]);
    } else {
      assert child[..|parent|] == child;
    }
  }

  lemma DeeperIsLonger(parent: Directory, child: Directory)
    requires parent != [] && LastIsNamed(child) && Inside(child, parent) && parent != child
    ensures |Spelling(parent)| < |Spelling(child)|
  {
    assert child[..|child|] == child;
    var front := child[..|child| - 1];
    assert front[..|parent|] == child[..|parent|];
    PrefixIsNoLonger(parent, front);
  }

  lemma OwnersAreShorter(a: Directory, b: Directory, fold: Folding)
    requires KeepsLengths(fold) && LastIsNamed(b) && Owns(a, b, fold) && !Same(a, b, fold)
    ensures |Spelling(a)| < |Spelling(b)|
  {
    FoldedSpelling(a, fold);
    FoldedSpelling(b, fold);
    assert |b| >= 2 ==> |fold(b[|b| - 1])| == |b[|b| - 1]|;
    DeeperIsLonger(Identity(a, fold), Identity(b, fold));
  }

  // ---- Spellings tell directories apart --------------------------------------

  lemma SlashNoLater(p: Text, x: Text, q: Text, y: Text)
    requires p + [SLASH] + x == q + [SLASH] + y && SlashFree(x)
    ensures |q| <= |p|
  {
    var s := p + [SLASH] + x;
    assert s == q + [SLASH] + y;
    assert s[|q|] == SLASH;
    assert forall k :: |p| < k < |s| ==> s[k] == x[k - |p| - 1];
  }

  lemma LastSlash(p: Text, x: Text, q: Text, y: Text)
    requires p + [SLASH] + x == q + [SLASH] + y && SlashFree(x) && SlashFree(y)
    ensures p == q && x == y
  {
    SlashNoLater(p, x, q, y);
    SlashNoLater(q, y, p, x);
    var s := p + [SLASH] + x;
    assert s[..|p|] == p && s[|p| + 1..] == x;
    assert s == q + [SLASH] + y && s[..|q|] == q && s[|q| + 1..] == y;
  }

  function Stem(d: Directory): Text
    requires |d| >= 2
  {
    if |d| == 2 then d[0] else Spelling(d[..|d| - 1])
  }

  lemma StemAndName(d: Directory)
    requires |d| >= 2
    ensures Spelling(d) == Stem(d) + [SLASH] + d[|d| - 1]
  {
    if |d| == 2 {
      assert d[..1] == [d[0]];
    }
  }

  lemma {:induction false} LongerSpellingsTell(a: Directory, b: Directory)
    requires |a| >= 2 && |b| >= 2 && Spelling(a) == Spelling(b)
    requires (forall i :: 0 <= i < |a| ==> SlashFree(a[i])) && (forall i :: 0 <= i < |b| ==> SlashFree(b[i]))
    ensures a == b
    decreases |a|
  {
    hide Spelling, SlashFree;
    StemAndName(a);
    StemAndName(b);
    LastSlash(Stem(a), a[|a| - 1], Stem(b), b[|b| - 1]);
    var f, g := a[..|a| - 1], b[..|b| - 1];
    if |a| > 2 {
      StemHasSlash(a);
    }
    if |b| > 2 {
      StemHasSlash(b);
    }
    if |a| > 2 && |b| > 2 {
      LongerSpellingsTell(f, g);
    }
    assert a == f + [a[|a| - 1]] && b == g + [b[|b| - 1]];
  }

  lemma StemHasSlash(d: Directory)
    requires |d| > 2
    ensures !SlashFree(Stem(d))
  {
    var front := d[..|d| - 1];
    StemAndName(front);
    assert Spelling(front)[|Stem(front)|] == SLASH;
  }

  lemma LongerIsNoRoot(root: Text, d: Directory)
    requires |d| >= 2 && Normal(d)
    ensures Spelling(d) != root + [SLASH]
  {
    StemAndName(d);
    var s, name := Spelling(d), d[|d| - 1];
    assert s[|s| - 1] == name[|name| - 1];
    assert (root + [SLASH])[|root|] == SLASH;
  }

  lemma SpellingsTell(a: Directory, b: Directory)
    requires a != [] && b != [] && Normal(a) && Normal(b) && Spelling(a) == Spelling(b)
    ensures a == b
  {
    if |a| >= 2 && |b| >= 2 {
      LongerSpellingsTell(a, b);
    } else if |a| == |b| {
      LastSlash(a[0], [], b[0], []);
    } else if |a| == 1 {
      LongerIsNoRoot(a[0], b);
    } else {
      LongerIsNoRoot(b[0], a);
    }
  }

  /** Two paths that are not later than each other are the same path. */
  lemma BeforeIsStrict(a: Directory, b: Directory)
    requires a != [] && b != [] && Normal(a) && Normal(b) && Before(a, b) && Before(b, a)
    ensures a == b
  {
    hide Spelling, Less;
    LessIsTotal(Spelling(a), Spelling(b));
    SpellingsTell(a, b);
  }

  // ---- The exact condition, on the failures ----------------------------------

  /** Only failures of the same identity own it. */
  ghost predicate OutermostFailure(failures: seq<Directory>, usable: set<Directory>, fold: Folding, d: Directory) {
    forall f :: f in failures && Blocks(f, usable, fold) && Owns(f, d, fold) ==> Same(f, d, fold)
  }

  /** What the boundaries are meant to be: the outermost blocking failures, each
      in its first spelling. */
  ghost predicate Meant(failures: seq<Directory>, usable: set<Directory>, fold: Folding, d: Directory) {
    FirstSpelled(failures, usable, fold, d) && OutermostFailure(failures, usable, fold, d)
  }

  /** Every outermost failure is spelled before the others it owns: no longer, and
      in byte order when as long. */
  ghost predicate OwnersAreSpelledFirst(failures: seq<Directory>, usable: set<Directory>, fold: Folding) {
    forall a, b ::
      (Meant(failures, usable, fold, a) && FirstSpelled(failures, usable, fold, b) && Owns(a, b, fold) && !Same(a, b, fold))
      ==> Before(a, b)
  }

  lemma OwnsAlike(a: Directory, b: Directory, d: Directory, fold: Folding)
    requires Same(a, b, fold)
    ensures Owns(a, d, fold) <==> Owns(b, d, fold)
  {
    assert |Identity(a, fold)| == |Identity(b, fold)|;
  }

  lemma OuterIsOutermost(ds: seq<Directory>, failures: seq<Directory>, usable: set<Directory>, fold: Folding, d: Directory)
    requires AreCandidates(ds, failures, usable, fold)
    ensures Outer(ds, d, fold) <==> OutermostFailure(failures, usable, fold, d)
  {
    CandidatesAreNamed(ds, failures, usable, fold);
    if Outer(ds, d, fold) {
      forall f | f in failures && Blocks(f, usable, fold) && Owns(f, d, fold) ensures Same(f, d, fold) {
        OwnerIsLike(ds, failures, usable, fold, d, f);
      }
    }
    hide Owns, Same, Blocks, Kept;
  }

  lemma OwnerIsLike(ds: seq<Directory>, failures: seq<Directory>, usable: set<Directory>, fold: Folding, d: Directory, f: Directory)
    requires AreCandidates(ds, failures, usable, fold) && Outer(ds, d, fold)
    requires f in failures && Blocks(f, usable, fold) && Owns(f, d, fold)
    ensures Same(f, d, fold)
  {
    hide Owns, Blocks, Identity, FirstSpelled;
    FirstSpellingOf(failures, usable, fold, f);
    var c :| FirstSpelled(failures, usable, fold, c) && Same(c, f, fold);
    assert c in ds;
    OwnsAlike(c, f, d, fold);
  }

  // Sorted by `Before`, the visit order is right exactly when owners are spelled first.
  lemma VisitOrderIsSpelling(ds: seq<Directory>, failures: seq<Directory>, usable: set<Directory>, fold: Folding)
    requires AreCandidates(ds, failures, usable, fold) && Ordered(ds, Before) && forall f :: f in failures ==> Normal(f)
    ensures OutermostFirst(ds, fold) <==> OwnersAreSpelledFirst(failures, usable, fold)
  {
    CandidatesAreNamed(ds, failures, usable, fold);
    hide Owns, Same, Blocks, Before, Normal, FirstSpelled, OutermostFailure, Outer, Kept;
    if OutermostFirst(ds, fold) {
      forall a, b | Meant(failures, usable, fold, a) && FirstSpelled(failures, usable, fold, b) && Owns(a, b, fold) && !Same(a, b, fold)
        ensures Before(a, b)
      {
        OuterIsOutermost(ds, failures, usable, fold, a);
        VisitedInOrder(ds, a, b, fold);
      }
    }
    if OwnersAreSpelledFirst(failures, usable, fold) {
      forall i, j | 0 <= i < j < |ds| && Outer(ds, ds[j], fold) ensures !Owns(ds[j], ds[i], fold) {
        OuterIsOutermost(ds, failures, usable, fold, ds[j]);
        assert ds[i] in ds && ds[j] in ds;
        SameIsSymmetric(ds[j], ds[i], fold);
        NotBothWays(ds, i, j, fold);
      }
    }
  }

  lemma VisitedInOrder(ds: seq<Directory>, a: Directory, b: Directory, fold: Folding)
    requires OutermostFirst(ds, fold) && Ordered(ds, Before) && a in ds && b in ds
    requires Outer(ds, a, fold) && Owns(a, b, fold) && !Same(a, b, fold)
    ensures Before(a, b)
  {
    hide Owns, Before, Outer;
    var j :| 0 <= j < |ds| && ds[j] == a;
    var i :| 0 <= i < |ds| && ds[i] == b;
    assert i != j;
  }

  lemma NotBothWays(ds: seq<Directory>, i: nat, j: nat, fold: Folding)
    requires i < j < |ds| && Unlike(ds, fold) && Ordered(ds, Before) && ds[i] != [] && ds[j] != [] && Normal(ds[i]) && Normal(ds[j])
    ensures !Before(ds[j], ds[i])
  {
    hide Before, Normal, Same;
    assert Before(ds[i], ds[j]) && !Same(ds[i], ds[j], fold);
    SameAsItself(ds[i], fold);
    if Before(ds[j], ds[i]) {
      BeforeIsStrict(ds[i], ds[j]);
    }
  }

  /** Shorter first is right wherever folding case does not change the length of a
      name; on a case-sensitive filesystem, always. */
  lemma ShorterFirstIsEnough(failures: seq<Directory>, usable: set<Directory>, fold: Folding)
    requires KeepsLengths(fold) && forall f :: f in failures ==> Normal(f)
    ensures OwnersAreSpelledFirst(failures, usable, fold)
  {
    hide Owns, Same, Blocks, Spelling, KeepsLengths, OutermostFailure;
    forall a, b | Meant(failures, usable, fold, a) && FirstSpelled(failures, usable, fold, b) && Owns(a, b, fold) && !Same(a, b, fold)
      ensures Before(a, b)
    {
      assert b in failures;
      OwnersAreShorter(a, b, fold);
    }
  }

  lemma SameIsSymmetric(a: Directory, b: Directory, fold: Folding)
    ensures Same(a, b, fold) <==> Same(b, a, fold)
  {}

  // ---- The operation ---------------------------------------------------------

  /** What holds of the boundaries in any case: each is a blocking failure in its
      first spelling, every blocking failure is owned by one, every outermost one
      is among them, none is owned by an earlier one, and they are in order. */
  ghost predicate BoundariesOf(bs: seq<Directory>, failures: seq<Directory>, usable: set<Directory>, fold: Folding) {
    && (forall b :: b in bs ==> FirstSpelled(failures, usable, fold, b))
    && (forall f :: f in failures && Blocks(f, usable, fold) ==> CoveredBy(bs, f, fold))
    && (forall d :: Meant(failures, usable, fold, d) ==> d in bs)
    && (forall i, j :: 0 <= i < j < |bs| ==> !Owns(bs[i], bs[j], fold))
    && Ordered(bs, Before)
  }

  lemma BoundariesBlock(bs: seq<Directory>, failures: seq<Directory>, usable: set<Directory>, fold: Folding)
    requires BoundariesOf(bs, failures, usable, fold)
    ensures forall b :: b in bs ==> b in failures && Blocks(b, usable, fold)
    ensures forall f :: f in failures && Blocks(f, usable, fold) ==> CoveredBy(bs, f, fold)
  {
    hide Owns, Same, Blocks, Before, OutermostFailure;
  }

  /** The boundaries are exactly the outermost blocking failures. */
  ghost predicate BoundariesAreExact(bs: seq<Directory>, failures: seq<Directory>, usable: set<Directory>, fold: Folding) {
    forall d :: d in bs <==> Meant(failures, usable, fold, d)
  }

  /** For normalised paths the boundaries are exactly the outermost failures if and
      only if every outermost failure is spelled before the others it owns. */
  method UnavailableConfigBoundaryDirectories(failures: seq<Directory>, usable: set<Directory>, fold: Folding)
    returns (boundaries: seq<Directory>)
    ensures BoundariesOf(boundaries, failures, usable, fold)
    ensures (forall f :: f in failures ==> Normal(f)) ==>
      (BoundariesAreExact(boundaries, failures, usable, fold) <==> OwnersAreSpelledFirst(failures, usable, fold))
    ensures (forall f :: f in failures ==> Normal(f)) && KeepsLengths(fold) ==>
      BoundariesAreExact(boundaries, failures, usable, fold)
  {
    hide *;
    var candidates := CollectCandidates(failures, usable, fold);
    BeforeIsTotal();
    var sorted := Sort(candidates, Before);
    SortedCandidates(candidates, sorted, failures, usable, fold);
    boundaries := GreedyPass(sorted, fold);
    BoundaryFacts(sorted, failures, usable, fold);
    if forall f :: f in failures ==> Normal(f) {
      ExactIffSpelledFirst(sorted, failures, usable, fold);
      if KeepsLengths(fold) {
        ShorterFirstIsEnough(failures, usable, fold);
      }
    }
  }

  lemma SortedCandidates(ds: seq<Directory>, sorted: seq<Directory>, failures: seq<Directory>, usable: set<Directory>, fold: Folding)
    requires AreCandidates(ds, failures, usable, fold) && multiset(sorted) == multiset(ds)
    ensures AreCandidates(sorted, failures, usable, fold)
  {
    hide Same, FirstSpelled;
    forall d ensures d in sorted <==> d in ds {
      assert d in multiset(sorted) <==> d in multiset(ds);
    }
    SortedIsUnlike(ds, sorted, fold);
  }

  lemma SortedIsUnlike(ds: seq<Directory>, sorted: seq<Directory>, fold: Folding)
    requires Unlike(ds, fold) && multiset(sorted) == multiset(ds)
    ensures Unlike(sorted, fold)
  {
    hide Same;
    forall i, j | 0 <= i < j < |sorted| ensures !Same(sorted[i], sorted[j], fold) {
      var a, b := sorted[i], sorted[j];
      assert a in multiset(ds) && b in multiset(ds);
      var k :| 0 <= k < |ds| && ds[k] == a;
      var l :| 0 <= l < |ds| && ds[l] == b;
      SameIsSymmetric(ds[k], ds[l], fold);
      if k == l {
        TwiceInSequence(sorted, i, j);
        OnceInUnlike(ds, k, fold);
        assert false;
      }
    }
  }

  lemma TwiceInSequence(s: seq<Directory>, i: nat, j: nat)
    requires i < j < |s| && s[i] == s[j]
    ensures multiset(s)[s[i]] >= 2
  {
    assert s == s[..i] + [s[i]] + s[i + 1..j] + [s[j]] + s[j + 1..];
  }

  lemma OnceInUnlike(ds: seq<Directory>, k: nat, fold: Folding)
    requires k < |ds| && Unlike(ds, fold)
    ensures multiset(ds)[ds[k]] == 1
  {
    hide Same;
    assert ds == ds[..k] + [ds[k]] + ds[k + 1..];
    forall i | 0 <= i < |ds| && i != k ensures ds[i] != ds[k] {
      SameAsItself(ds[k], fold);
    }
  }

  method GreedyPass(sorted: seq<Directory>, fold: Folding) returns (boundaries: seq<Directory>)
    ensures boundaries == Kept(sorted, fold)
  {
    hide Owns;
    boundaries := [];
    for i := 0 to |sorted|
      invariant boundaries == Kept(sorted[..i], fold)
    {
      assert sorted[..i + 1][..i] == sorted[..i];
      var covered := exists b :: b in boundaries && Owns(b, sorted[i], fold);
      if !covered {
        boundaries := boundaries + [sorted[i]];
      }
    }
    assert sorted[..|sorted|] == sorted;
  }

  lemma BoundaryFacts(visited: seq<Directory>, failures: seq<Directory>, usable: set<Directory>, fold: Folding)
    requires AreCandidates(visited, failures, usable, fold) && Ordered(visited, Before)
    ensures BoundariesOf(Kept(visited, fold), failures, usable, fold)
  {
    CandidatesAreNamed(visited, failures, usable, fold);
    hide Owns, Same, Blocks, Before, FirstSpelled, OutermostFailure, Outer, Kept, AreCandidates, CoveredBy, Unlike, Ordered, OutermostFirst;
    forall f | f in failures && Blocks(f, usable, fold) ensures CoveredBy(Kept(visited, fold), f, fold) {
      FailureIsCovered(visited, failures, f, usable, fold);
    }
    forall d | Meant(failures, usable, fold, d) ensures d in Kept(visited, fold) {
      OuterIsOutermost(visited, failures, usable, fold, d);
      var n :| 0 <= n < |visited| && visited[n] == d;
      OuterIsKept(visited, n, fold);
    }
    KeptInOrder(visited, fold);
  }

  // What is kept keeps its order, and none of it is owned by an earlier one.
  lemma {:induction false} KeptInOrder(ds: seq<Directory>, fold: Folding)
    requires Ordered(ds, Before)
    ensures Ordered(Kept(ds, fold), Before)
    ensures forall i, j :: 0 <= i < j < |Kept(ds, fold)| ==> !Owns(Kept(ds, fold)[i], Kept(ds, fold)[j], fold)
    decreases |ds|
  {
    hide Owns, Before;
    if |ds| > 0 {
      var front, last := ds[..|ds| - 1], ds[|ds| - 1];
      KeptInOrder(front, fold);
      var before := Kept(front, fold);
      if !CoveredBy(before, last, fold) {
        assert Kept(ds, fold) == before + [last];
        hide Kept, CoveredBy;
        forall i | 0 <= i < |before| ensures Before(before[i], last) {
          assert before[i] in front;
          var k :| 0 <= k < |front| && front[k] == before[i];
          assert ds[k] == before[i];
        }
        UncoveredIsNotOwned(before, last, fold);
      }
    }
  }

  lemma UncoveredIsNotOwned(boundaries: seq<Directory>, d: Directory, fold: Folding)
    requires !CoveredBy(boundaries, d, fold)
    ensures forall i :: 0 <= i < |boundaries| ==> !Owns(boundaries[i], d, fold)
  {
    hide Owns;
    assert forall i :: 0 <= i < |boundaries| ==> boundaries[i] in boundaries;
  }

  lemma ExactIffSpelledFirst(visited: seq<Directory>, failures: seq<Directory>, usable: set<Directory>, fold: Folding)
    requires AreCandidates(visited, failures, usable, fold) && Ordered(visited, Before) && forall f :: f in failures ==> Normal(f)
    ensures BoundariesAreExact(Kept(visited, fold), failures, usable, fold) <==> OwnersAreSpelledFirst(failures, usable, fold)
  {
    CandidatesAreNamed(visited, failures, usable, fold);
    hide Owns, Same, Blocks, Before, FirstSpelled, OutermostFailure, Outer, Kept, AreCandidates, Unlike, Ordered, OutermostFirst, Normal;
    VisitOrderIsSpelling(visited, failures, usable, fold);
    KeptIsOutermostIff(visited, fold);
    forall d ensures Meant(failures, usable, fold, d) <==> d in visited && Outer(visited, d, fold) {
      OuterIsOutermost(visited, failures, usable, fold, d);
    }
    hide OwnersAreSpelledFirst;
  }

  lemma CandidatesAreNamed(ds: seq<Directory>, failures: seq<Directory>, usable: set<Directory>, fold: Folding)
    requires AreCandidates(ds, failures, usable, fold)
    ensures Unlike(ds, fold)
    ensures forall d :: d in ds ==> d != [] && d in failures && Blocks(d, usable, fold)
    ensures forall d :: d in ds <==> FirstSpelled(failures, usable, fold, d)
    ensures forall d :: d in Kept(ds, fold) ==> d in ds
  {
    hide Owns, Same;
  }

  lemma FailureIsCovered(ds: seq<Directory>, failures: seq<Directory>, f: Directory, usable: set<Directory>, fold: Folding)
    requires AreCandidates(ds, failures, usable, fold) && f in failures && Blocks(f, usable, fold)
    ensures CoveredBy(Kept(ds, fold), f, fold)
  {
    CandidatesAreNamed(ds, failures, usable, fold);
    hide *;
    CandidateOf(ds, failures, f, usable, fold);
    var n :| 0 <= n < |ds| && Same(ds[n], f, fold);
    KeptCovers(ds, n, fold);
    CoveredLikewise(Kept(ds, fold), ds[n], f, fold);
  }

  lemma CoveredLikewise(boundaries: seq<Directory>, d: Directory, f: Directory, fold: Folding)
    requires CoveredBy(boundaries, d, fold) && Same(d, f, fold)
    ensures CoveredBy(boundaries, f, fold)
  {
    var b :| b in boundaries && Owns(b, d, fold);
    assert Owns(b, f, fold);
  }

  lemma CandidateOf(ds: seq<Directory>, failures: seq<Directory>, f: Directory, usable: set<Directory>, fold: Folding)
    requires AreCandidates(ds, failures, usable, fold) && f in failures && Blocks(f, usable, fold)
    ensures exists n :: 0 <= n < |ds| && Same(ds[n], f, fold)
  {
    hide Same, Blocks, FirstSpelled;
    FirstSpellingOf(failures, usable, fold, f);
    var d :| FirstSpelled(failures, usable, fold, d) && Same(d, f, fold);
    assert d in ds;
    var n :| 0 <= n < |ds| && ds[n] == d;
  }

  // ---- A folding that shortens names -----------------------------------------

  // The Kelvin sign is three bytes and its lower-case form is one.
  const KELVIN: Text := [226, 132, 170]
  const LOWER_K: Text := [107]
  const OUTER: Directory := [[], KELVIN]
  const NESTED: Directory := [[], LOWER_K, LOWER_K]

  function LowerKelvin(name: Text): Text {
    if name == KELVIN then LOWER_K else name
  }

  lemma KelvinFolds()
    ensures LowerKelvin(KELVIN) == LOWER_K && LowerKelvin(LOWER_K) == LOWER_K && LowerKelvin([]) == []
  {
    assert |LOWER_K| == 1 && |KELVIN| == 3;
  }

  lemma KelvinOwns()
    ensures Owns(OUTER, NESTED, LowerKelvin) && !Owns(NESTED, OUTER, LowerKelvin)
    ensures !Same(OUTER, NESTED, LowerKelvin) && !Same(NESTED, OUTER, LowerKelvin)
    ensures Normal(OUTER) && Normal(NESTED)
  {
    KelvinFolds();
    hide LowerKelvin;
    assert Identity(NESTED, LowerKelvin) == NESTED by {
      assert NESTED[0] == [] && NESTED[1] == LOWER_K && NESTED[2] == LOWER_K;
    }
    assert Identity(OUTER, LowerKelvin) == [[], LOWER_K];
    assert NESTED[..2] == [[], LOWER_K];
  }

  lemma KelvinOrder()
    ensures Before(NESTED, OUTER) && !Before(OUTER, NESTED)
  {
    assert OUTER[..1] == [[]] && NESTED[..2] == [[], LOWER_K] && [[], LOWER_K][..1] == [[]];
    assert Spelling([[]]) == [SLASH];
    assert Spelling(OUTER) == [SLASH] + KELVIN;
    assert Spelling([[], LOWER_K]) == [SLASH] + LOWER_K;
    assert Spelling(NESTED) == [SLASH] + LOWER_K + [SLASH] + LOWER_K;
    var x, y := Spelling(NESTED), Spelling(OUTER);
    assert Less(x[1..], y[1..]) && Less(x, y);
    LessIsTotal(x, y);
  }

  /** There the outermost failure is not spelled first. */
  lemma KelvinIsNotSpelledFirst()
    ensures !OwnersAreSpelledFirst([OUTER, NESTED], {}, LowerKelvin)
    ensures FirstSpelled([OUTER, NESTED], {}, LowerKelvin, OUTER) && FirstSpelled([OUTER, NESTED], {}, LowerKelvin, NESTED)
    ensures Meant([OUTER, NESTED], {}, LowerKelvin, OUTER) && !Meant([OUTER, NESTED], {}, LowerKelvin, NESTED)
  {
    KelvinOwns();
    KelvinOrder();
    hide Owns, Same, Before, Normal;
    var failures := [OUTER, NESTED];
    SameAsItself(OUTER, LowerKelvin);
    assert failures[0] == OUTER && failures[1] == NESTED;
    assert FirstAt(failures, LowerKelvin, OUTER, 0) && FirstAt(failures, LowerKelvin, NESTED, 1);
    assert Meant(failures, {}, LowerKelvin, OUTER);
    assert OUTER in failures;
  }

  /** So both the failed directory and the one it owns become boundaries. */
  method ShorteningFoldKeepsNestedBoundary() returns (boundaries: seq<Directory>)
    ensures boundaries == [NESTED, OUTER]
    ensures Owns(OUTER, NESTED, LowerKelvin) && !Same(OUTER, NESTED, LowerKelvin)
    ensures !BoundariesAreExact(boundaries, [OUTER, NESTED], {}, LowerKelvin)
  {
    KelvinOwns();
    KelvinIsNotSpelledFirst();
    boundaries := UnavailableConfigBoundaryDirectories([OUTER, NESTED], {}, LowerKelvin);
    KelvinBoundaries(boundaries);
  }

  lemma KelvinBoundaries(bs: seq<Directory>)
    requires BoundariesOf(bs, [OUTER, NESTED], {}, LowerKelvin)
    requires !BoundariesAreExact(bs, [OUTER, NESTED], {}, LowerKelvin)
    ensures bs == [NESTED, OUTER]
  {
    KelvinOwns();
    KelvinOrder();
    KelvinIsNotSpelledFirst();
    hide Same, Before, Normal, OwnersAreSpelledFirst, OutermostFailure;
    var failures := [OUTER, NESTED];
    assert failures[0] == OUTER;
    assert forall b :: b in bs ==> b == OUTER || b == NESTED;
    assert OUTER in bs by {
      assert CoveredBy(bs, OUTER, LowerKelvin);
    }
    assert NESTED in bs;
    OwnsItself(OUTER, LowerKelvin);
    OwnsItself(NESTED, LowerKelvin);
    assert |NESTED| == 3 && |OUTER| == 2;
    hide *;
    OneOfEach(bs, NESTED, OUTER, LowerKelvin);
  }

  // Each owns itself and `b` owns `a`, so `a` comes first and each comes once.
  lemma OneOfEach(bs: seq<Directory>, a: Directory, b: Directory, fold: Folding)
    requires a in bs && b in bs && a != b && forall d :: d in bs ==> d == a || d == b
    requires Owns(a, a, fold) && Owns(b, b, fold) && Owns(b, a, fold)
    requires forall i, j :: 0 <= i < j < |bs| ==> !Owns(bs[i], bs[j], fold)
    ensures bs == [a, b]
  {
    hide Owns;
    forall i, j | 0 <= i < j < |bs| ensures bs[i] == a && bs[j] == b {
      assert bs[i] in bs && bs[j] in bs;
    }
    var n :| 0 <= n < |bs| && bs[n] == a;
    var o :| 0 <= o < |bs| && bs[o] == b;
    assert bs[0] == a && bs[1] == b;
  }

  lemma OwnsItself(d: Directory, fold: Folding)
    requires d != []
    ensures Owns(d, d, fold)
  {
    var id := Identity(d, fold);
    assert id[..|id|] == id;
  }
}
