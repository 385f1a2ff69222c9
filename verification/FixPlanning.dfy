/** Planning one round of file changes from diagnostics, and checking what the
    terminal committer says it wrote. */
module FixPlanning {
  import opened Bytes
  import opened SourceCodeFixer
  import opened AutofixState

  datatype FileDiagnostic = FileDiagnostic(path: Path, diagnostic: Diagnostic)

  // The diagnostics of one file that carry fixes, in report order.
  function Group(diagnostics: seq<FileDiagnostic>, path: Path): seq<Diagnostic> {
    if |diagnostics| == 0 then []
    else
      var last := diagnostics[|diagnostics| - 1];
      Group(diagnostics[..|diagnostics| - 1], path)
      + (if last.path == path && |last.diagnostic.fixes| > 0 then [last.diagnostic] else [])
  }

  /** Reports are grouped one after the other: each that carries fixes goes to the
      group of its file, behind the earlier ones. */
  lemma {:induction false} GroupKeepsOrder(a: seq<FileDiagnostic>, b: seq<FileDiagnostic>, path: Path)
    ensures Group(a + b, path) == Group(a, path) + Group(b, path)
    ensures |b| == 1 ==> Group(b, path) == if b[0].path == path && |b[0].diagnostic.fixes| > 0 then [b[0].diagnostic] else []
    decreases |b|
  {
    if |b| > 0 {
      GroupKeepsOrder(a, b[..|b| - 1], path);
      assert (a + b)[..|a + b| - 1] == a + b[..|b| - 1];
    } else {
      assert a + b == a;
    }
  }

  predicate Plannable(diagnostics: seq<FileDiagnostic>, texts: Sources) {
    forall i :: 0 <= i < |diagnostics| && |diagnostics[i].diagnostic.fixes| > 0 ==>
      diagnostics[i].path != [] && diagnostics[i].path in texts
  }

  ghost predicate AllWellFormed(diagnostics: seq<FileDiagnostic>, texts: Sources) {
    forall i :: 0 <= i < |diagnostics| && diagnostics[i].path in texts ==>
      WellFormed(diagnostics[i].diagnostic, |Body(texts[diagnostics[i].path])|)
  }

  /** A planned change is the simultaneous application of some conflict-free
      whole diagnostics of its file to that file's frozen text; whatever usable
      diagnostic it leaves out conflicts with an earlier one that it applies. */
  ghost predicate AppliesGroup(group: seq<Diagnostic>, change: FileChange, applied: seq<Diagnostic>) {
    && |applied| == change.appliedDiagnostics > 0
    && NoConflicts(applied)
    && Chain(AllFixes(applied), |Body(change.before)|)
    && change.after == Fixed(change.before, AllFixes(applied))
    && exists sorted, unapplied :: Splits(group, sorted, applied, unapplied)
  }

  // The diagnostics of the group, each with its fixes in order, are applied or left for a reason.
  ghost predicate Splits(group: seq<Diagnostic>, sorted: seq<Diagnostic>, applied: seq<Diagnostic>, unapplied: seq<Diagnostic>) {
    && |sorted| == |group| && (forall i :: 0 <= i < |group| ==> SortedForm(sorted[i], group[i]))
    && multiset(applied) + multiset(unapplied) == multiset(sorted)
    && (forall u :: u in unapplied ==> HasReason(u, applied))
  }

  ghost predicate PlannedFrom(diagnostics: seq<FileDiagnostic>, texts: Sources, change: FileChange) {
    && change.path != [] && change.path in texts && change.before == texts[change.path]
    && exists applied :: AppliesGroup(Group(diagnostics, change.path), change, applied)
  }

  // Every fix of the file is unusable.
  predicate NothingToFix(group: seq<Diagnostic>) {
    forall i :: 0 <= i < |group| ==> |group[i].fixes| == 0 || IsInverted(group[i])
  }

  /** Which changes a plan must hold: one for every file with a usable fix, in path order. */
  ghost predicate IsPlan(diagnostics: seq<FileDiagnostic>, texts: Sources, changes: seq<FileChange>) {
    && (forall i, j :: 0 <= i < j < |changes| ==> Less(changes[i].path, changes[j].path))
    && (forall i :: 0 <= i < |changes| ==> PlannedFrom(diagnostics, texts, changes[i]))
    && (forall path :: !NothingToFix(Group(diagnostics, path)) ==> exists i :: 0 <= i < |changes| && changes[i].path == path)
  }

  // What the diagnostics say about one file's group.
  lemma {:induction false} GroupMembers(diagnostics: seq<FileDiagnostic>, texts: Sources, path: Path)
    ensures forall g :: g in Group(diagnostics, path) ==>
      |g.fixes| > 0 && exists i :: 0 <= i < |diagnostics| && diagnostics[i] == FileDiagnostic(path, g)
    ensures path in texts && AllWellFormed(diagnostics, texts) ==>
      forall i :: 0 <= i < |Group(diagnostics, path)| ==> WellFormed(Group(diagnostics, path)[i], |Body(texts[path])|)
  {
    hide WellFormed;
    if |diagnostics| > 0 {
      var before := diagnostics[..|diagnostics| - 1];
      assert forall i :: 0 <= i < |before| ==> before[i] == diagnostics[i];
      GroupMembers(before, texts, path);
    }
  }

  lemma {:induction false} GroupIsNonempty(diagnostics: seq<FileDiagnostic>, path: Path)
    ensures Group(diagnostics, path) != [] <==>
      exists i :: 0 <= i < |diagnostics| && |diagnostics[i].diagnostic.fixes| > 0 && diagnostics[i].path == path
  {
    if |diagnostics| > 0 {
      var before := diagnostics[..|diagnostics| - 1];
      GroupIsNonempty(before, path);
      assert forall i :: 0 <= i < |before| ==> before[i] == diagnostics[i];
    }
  }

  ghost predicate Grouped(diagnostics: seq<FileDiagnostic>, byPath: map<Path, seq<Diagnostic>>) {
    && (forall path :: path in byPath <==> Group(diagnostics, path) != [])
    && (forall path :: path in byPath ==> byPath[path] == Group(diagnostics, path))
  }

  lemma GroupOneMore(diagnostics: seq<FileDiagnostic>, byPath: map<Path, seq<Diagnostic>>, n: nat)
    requires n < |diagnostics| && Grouped(diagnostics[..n], byPath)
    ensures var entry := diagnostics[n];
      var group := if entry.path in byPath then byPath[entry.path] else [];
      Grouped(diagnostics[..n + 1],
              if |entry.diagnostic.fixes| == 0 then byPath else byPath[entry.path := group + [entry.diagnostic]])
  {
    assert diagnostics[..n + 1][..n] == diagnostics[..n];
  }

  ghost predicate NamedPaths(diagnostics: seq<FileDiagnostic>) {
    forall i :: 0 <= i < |diagnostics| && |diagnostics[i].diagnostic.fixes| > 0 ==> diagnostics[i].path != []
  }

  method GroupByPath(diagnostics: seq<FileDiagnostic>) returns (ok: bool, byPath: map<Path, seq<Diagnostic>>)
    ensures ok <==> NamedPaths(diagnostics)
    ensures ok ==> Grouped(diagnostics, byPath)
  {
    hide Grouped;
    byPath := map[];
    assert Grouped(diagnostics[..0], byPath) by { NoGroups(); }
    for n := 0 to |diagnostics|
      invariant forall i :: 0 <= i < n && |diagnostics[i].diagnostic.fixes| > 0 ==> diagnostics[i].path != []
      invariant Grouped(diagnostics[..n], byPath)
    {
      GroupOneMore(diagnostics, byPath, n);
      var entry := diagnostics[n];
      if |entry.diagnostic.fixes| == 0 {
        continue;
      }
      if entry.path == [] {
        return false, map[];
      }
      var group := if entry.path in byPath then byPath[entry.path] else [];
      byPath := byPath[entry.path := group + [entry.diagnostic]];
    }
    assert diagnostics[..|diagnostics|] == diagnostics;
    return true, byPath;
  }

  lemma NoGroups()
    ensures Grouped([], map[])
  {
  }

  // A plan exists exactly when every grouped file has a frozen text.
  lemma GroupsDecidePlannable(diagnostics: seq<FileDiagnostic>, texts: Sources, byPath: map<Path, seq<Diagnostic>>)
    requires Grouped(diagnostics, byPath) && NamedPaths(diagnostics)
    ensures Plannable(diagnostics, texts) <==> forall path :: path in byPath ==> path in texts
    ensures [] !in byPath
  {
    forall path
      ensures path in byPath <==>
        exists i :: 0 <= i < |diagnostics| && |diagnostics[i].diagnostic.fixes| > 0 && diagnostics[i].path == path
    {
      GroupIsNonempty(diagnostics, path);
    }
  }

  /** Plans the change of one file; none when no fix of it can be applied. */
  method PlanFile(path: Path, text: Text, group: seq<Diagnostic>) returns (changed: bool, change: FileChange)
    requires forall i :: 0 <= i < |group| ==> WellFormed(group[i], |Body(text)|)
    ensures change.path == path && change.before == text
    ensures changed ==> exists applied :: AppliesGroup(group, change, applied)
    ensures !changed ==> NothingToFix(group)
  {
    hide WellFormed, NoConflicts, Chain, Fixed, HasReason;
    ghost var sorted, applied;
    var after, unapplied;
    after, unapplied, changed, sorted, applied := ApplyRuleFixes(text, group);
    assert |multiset(applied)| + |multiset(unapplied)| == |multiset(sorted)|;
    change := FileChange(path, text, after, |group| - |unapplied|);
    if changed {
      assert Splits(group, sorted, applied, unapplied);
      assert AppliesGroup(group, change, applied);
    } else {
      forall i | 0 <= i < |group| ensures |group[i].fixes| == 0 || IsInverted(group[i]) {
        UnappliedIsUnusable(group, sorted, applied, unapplied, i);
      }
    }
  }

  lemma UnappliedIsUnusable(
    group: seq<Diagnostic>, sorted: seq<Diagnostic>, applied: seq<Diagnostic>, unapplied: seq<Diagnostic>, i: nat)
    requires |sorted| == |group| && i < |group| && SortedForm(sorted[i], group[i])
    requires multiset(applied) + multiset(unapplied) == multiset(sorted) && |applied| == 0
    requires forall u :: u in unapplied ==> HasReason(u, applied)
    ensures |group[i].fixes| == 0 || IsInverted(group[i])
  {
    assert sorted[i] in multiset(sorted) && sorted[i] in multiset(unapplied);
    assert HasReason(sorted[i], applied);
    assert |multiset(sorted[i].fixes)| == |multiset(group[i].fixes)|;
    if IsInverted(sorted[i]) {
      var k :| 0 <= k < |sorted[i].fixes| && sorted[i].fixes[k].pos > sorted[i].fixes[k].end;
      assert sorted[i].fixes[k] in multiset(group[i].fixes);
    }
  }

  // The changes planned for the first `n` files.
  ghost predicate PlannedUpTo(
    diagnostics: seq<FileDiagnostic>, texts: Sources, paths: seq<Path>, n: nat, changes: seq<FileChange>)
    requires n <= |paths|
  {
    && (forall i, j :: 0 <= i < j < |changes| ==> Less(changes[i].path, changes[j].path))
    && (forall i :: 0 <= i < |changes| ==> PlannedFrom(diagnostics, texts, changes[i]))
    && (forall i :: 0 <= i < |changes| ==> exists k :: 0 <= k < n && paths[k] == changes[i].path)
    && (forall k :: 0 <= k < n ==>
          NothingToFix(Group(diagnostics, paths[k])) || exists i :: 0 <= i < |changes| && changes[i].path == paths[k])
  }

  lemma PlanOneMore(
    diagnostics: seq<FileDiagnostic>, texts: Sources, paths: seq<Path>, n: nat, changes: seq<FileChange>, change: FileChange)
    requires n < |paths| && PlannedUpTo(diagnostics, texts, paths, n, changes)
    requires forall i, j :: 0 <= i < j < |paths| ==> Less(paths[i], paths[j])
    requires change.path == paths[n] && PlannedFrom(diagnostics, texts, change)
    ensures PlannedUpTo(diagnostics, texts, paths, n + 1, changes + [change])
  {
    hide PlannedFrom, NothingToFix, Group, Less;
    var all := changes + [change];
    assert all[|changes|] == change;
    assert forall i :: 0 <= i < |changes| ==> all[i] == changes[i];
    forall k | 0 <= k < n + 1 && !NothingToFix(Group(diagnostics, paths[k]))
      ensures exists i :: 0 <= i < |all| && all[i].path == paths[k]
    {
      if k < n {
        var i :| 0 <= i < |changes| && changes[i].path == paths[k];
        assert all[i].path == paths[k];
      }
    }
  }

  lemma PlanSkip(diagnostics: seq<FileDiagnostic>, texts: Sources, paths: seq<Path>, n: nat, changes: seq<FileChange>)
    requires n < |paths| && PlannedUpTo(diagnostics, texts, paths, n, changes)
    requires NothingToFix(Group(diagnostics, paths[n]))
    ensures PlannedUpTo(diagnostics, texts, paths, n + 1, changes)
  {
    hide PlannedFrom, NothingToFix, Group, Less;
  }

  method PlanFixes(diagnostics: seq<FileDiagnostic>, texts: Sources) returns (ok: bool, changes: seq<FileChange>)
    requires AllWellFormed(diagnostics, texts)
    ensures ok <==> Plannable(diagnostics, texts)
    ensures ok ==> IsPlan(diagnostics, texts, changes)
  {
    hide WellFormed, AppliesGroup, NothingToFix, Group, PlannedFrom, Plannable, PlannedUpTo, AllWellFormed, IsPlan;
    changes := [];
    var byPath;
    ok, byPath := GroupByPath(diagnostics);
    if !ok {
      UnnamedIsUnplannable(diagnostics, texts);
      return;
    }
    GroupsDecidePlannable(diagnostics, texts, byPath);
    var paths := SortedPaths(byPath.Keys);
    PlanNothing(diagnostics, texts, paths);
    for n := 0 to |paths|
      invariant forall i :: 0 <= i < n ==> paths[i] in texts
      invariant PlannedUpTo(diagnostics, texts, paths, n, changes)
    {
      var path := paths[n];
      assert path in paths && path in byPath;
      if path !in texts {
        return false, changes;
      }
      GroupMembers(diagnostics, texts, path);
      var changed, change := PlanFile(path, texts[path], byPath[path]);
      if !changed {
        PlanSkip(diagnostics, texts, paths, n, changes);
        continue;
      }
      PlannedOne(diagnostics, texts, change);
      PlanOneMore(diagnostics, texts, paths, n, changes, change);
      changes := changes + [change];
    }
    EveryGroupVisited(diagnostics, texts, byPath, paths, changes);
  }

  lemma UnnamedIsUnplannable(diagnostics: seq<FileDiagnostic>, texts: Sources)
    requires !NamedPaths(diagnostics)
    ensures !Plannable(diagnostics, texts)
  {
  }

  lemma PlanNothing(diagnostics: seq<FileDiagnostic>, texts: Sources, paths: seq<Path>)
    ensures PlannedUpTo(diagnostics, texts, paths, 0, [])
  {
  }

  lemma PlannedOne(diagnostics: seq<FileDiagnostic>, texts: Sources, change: FileChange)
    requires change.path in texts && change.before == texts[change.path]
    requires exists applied :: AppliesGroup(Group(diagnostics, change.path), change, applied)
    requires change.path != []
    ensures PlannedFrom(diagnostics, texts, change)
  {
  }

  lemma EveryGroupVisited(
    diagnostics: seq<FileDiagnostic>, texts: Sources, byPath: map<Path, seq<Diagnostic>>, paths: seq<Path>,
    changes: seq<FileChange>)
    requires Grouped(diagnostics, byPath) && forall path :: path in byPath <==> path in paths
    requires PlannedUpTo(diagnostics, texts, paths, |paths|, changes)
    ensures IsPlan(diagnostics, texts, changes)
  {
    hide Group, PlannedFrom, Less;
    forall path | !NothingToFix(Group(diagnostics, path))
      ensures exists i :: 0 <= i < |changes| && changes[i].path == path
    {
      assert path in paths;
    }
  }

  // ---- What a plan holds, over the diagnostics ----------------------------------

  /** The diagnostic has fixes and none of their ranges is inverted. */
  predicate HasUsableFix(d: Diagnostic) {
    |d.fixes| > 0 && forall k :: 0 <= k < |d.fixes| ==> d.fixes[k].pos <= d.fixes[k].end
  }

  lemma {:induction false} FixIsAmongAll(applied: seq<Diagnostic>, i: nat, k: nat) returns (at: nat)
    requires i < |applied| && k < |applied[i].fixes|
    ensures at < |AllFixes(applied)| && AllFixes(applied)[at] == applied[i].fixes[k]
  {
    var n := |applied| - 1;
    if i == n {
      at := |AllFixes(applied[..n])| + k;
    } else {
      at := FixIsAmongAll(applied[..n], i, k);
    }
  }

  // Applied diagnostics are usable, and so are those they came from.
  lemma AppliedIsUsable(group: seq<Diagnostic>, change: FileChange, applied: seq<Diagnostic>) returns (i: nat)
    requires AppliesGroup(group, change, applied)
    ensures i < |group| && HasUsableFix(group[i])
  {
    hide Fixed, HasReason, Conflict;
    var a := applied[0];
    forall k | 0 <= k < |a.fixes| ensures a.fixes[k].pos <= a.fixes[k].end {
      var at := FixIsAmongAll(applied, 0, k);
      ChainAt(AllFixes(applied), |Body(change.before)|, at);
    }
    var sorted, unapplied :| Splits(group, sorted, applied, unapplied);
    assert a in multiset(applied) && a in multiset(sorted);
    i :| 0 <= i < |sorted| && sorted[i] == a;
    var g := group[i];
    assert SortedForm(a, g);
    assert |multiset(g.fixes)| == |multiset(a.fixes)|;
    forall k | 0 <= k < |g.fixes| ensures g.fixes[k].pos <= g.fixes[k].end {
      assert g.fixes[k] in multiset(a.fixes);
    }
  }

  lemma {:induction false} UsableIsGrouped(diagnostics: seq<FileDiagnostic>, i: nat)
    requires i < |diagnostics| && HasUsableFix(diagnostics[i].diagnostic)
    ensures diagnostics[i].diagnostic in Group(diagnostics, diagnostics[i].path)
    ensures !NothingToFix(Group(diagnostics, diagnostics[i].path))
  {
    var n := |diagnostics| - 1;
    var group := Group(diagnostics, diagnostics[i].path);
    if i < n {
      UsableIsGrouped(diagnostics[..n], i);
      assert diagnostics[..n][i] == diagnostics[i];
    } else {
      assert group[|group| - 1] == diagnostics[i].diagnostic;
    }
    assert diagnostics[i].diagnostic in group;
    var k :| 0 <= k < |group| && group[k] == diagnostics[i].diagnostic;
  }

  /** A plan changes exactly the files for which some diagnostic has a usable fix. */
  lemma PlanChangesUsableFiles(diagnostics: seq<FileDiagnostic>, texts: Sources, changes: seq<FileChange>, path: Path)
    requires IsPlan(diagnostics, texts, changes)
    ensures path in Paths(changes) <==>
      exists i :: 0 <= i < |diagnostics| && diagnostics[i].path == path && HasUsableFix(diagnostics[i].diagnostic)
  {
    hide AppliesGroup, NothingToFix, Group, Less;
    if path in Paths(changes) {
      var c :| 0 <= c < |changes| && Paths(changes)[c] == path;
      assert PlannedFrom(diagnostics, texts, changes[c]);
      var group := Group(diagnostics, path);
      var applied :| AppliesGroup(group, changes[c], applied);
      var g := AppliedIsUsable(group, changes[c], applied);
      GroupMembers(diagnostics, texts, path);
      assert group[g] in group;
      var i :| 0 <= i < |diagnostics| && diagnostics[i] == FileDiagnostic(path, group[g]);
    }
    if i :| 0 <= i < |diagnostics| && diagnostics[i].path == path && HasUsableFix(diagnostics[i].diagnostic) {
      UsableIsGrouped(diagnostics, i);
      var c :| 0 <= c < |changes| && changes[c].path == path;
      assert Paths(changes)[c] == path;
    }
  }

  /** It is empty exactly when no diagnostic has one. */
  lemma PlanIsEmptyIff(diagnostics: seq<FileDiagnostic>, texts: Sources, changes: seq<FileChange>)
    requires IsPlan(diagnostics, texts, changes)
    ensures |changes| == 0 <==> forall i :: 0 <= i < |diagnostics| ==> !HasUsableFix(diagnostics[i].diagnostic)
  {
    hide IsPlan, HasUsableFix;
    if |changes| > 0 {
      assert changes[0].path == Paths(changes)[0];
      PlanChangesUsableFiles(diagnostics, texts, changes, changes[0].path);
    } else {
      forall i | 0 <= i < |diagnostics| ensures !HasUsableFix(diagnostics[i].diagnostic) {
        PlanChangesUsableFiles(diagnostics, texts, changes, diagnostics[i].path);
      }
    }
  }

  // ---- The terminal commit ---------------------------------------------------

  ghost predicate DistinctPaths(planned: seq<FileChange>) {
    && (forall i :: 0 <= i < |planned| ==> planned[i].path != [])
    && (forall i, j :: 0 <= i < j < |planned| ==> planned[i].path != planned[j].path)
  }

  // Some reported path is not acceptable: empty, repeated or never planned.
  ghost predicate Misreported(planned: seq<FileChange>, reported: seq<Path>) {
    exists i :: 0 <= i < |reported| &&
      (reported[i] == [] || reported[i] !in Paths(planned) || exists k :: 0 <= k < i && reported[k] == reported[i])
  }

  /** Checks the committer's report. The commit counts as complete exactly when
      the committer reported no error and named every planned path, each once and
      nothing else; in any case only planned and reported paths are confirmed. */
  method ValidateCommitResult(planned: seq<FileChange>, reported: seq<Path>, commitFailed: bool)
    returns (confirmedPaths: seq<Path>, ok: bool)
    ensures !DistinctPaths(planned) ==> !ok && confirmedPaths == []
    ensures DistinctPaths(planned) ==>
      (ok <==> !commitFailed && !Misreported(planned, reported) && forall path :: path in Paths(planned) ==> path in reported)
    ensures DistinctPaths(planned) ==> forall path :: path in confirmedPaths <==> path in Paths(planned) && path in reported
    ensures ok ==> confirmedPaths == Paths(planned)
  {
    confirmedPaths, ok := [], false;
    var plannedPaths, distinct := PlannedPaths(planned);
    if !distinct {
      return;
    }
    hide DistinctPaths, Misreported;
    var confirmed, misreported := ConfirmReported(planned, plannedPaths, reported);
    SameSizeSubset(confirmed, plannedPaths);
    ok := !misreported && !commitFailed && |confirmed| == |plannedPaths|;
    confirmedPaths := InPlannedOrder(planned, plannedPaths, confirmed);
  }

  method PlannedPaths(planned: seq<FileChange>) returns (plannedPaths: set<Path>, distinct: bool)
    ensures distinct <==> DistinctPaths(planned)
    ensures distinct ==> [] !in plannedPaths && forall path :: path in plannedPaths <==> path in Paths(planned)
  {
    plannedPaths := {};
    for i := 0 to |planned|
      invariant forall path :: path in plannedPaths <==> exists k :: 0 <= k < i && planned[k].path == path
      invariant forall k :: 0 <= k < i ==> planned[k].path != []
      invariant forall k, l :: 0 <= k < l < i ==> planned[k].path != planned[l].path
    {
      if planned[i].path == [] || planned[i].path in plannedPaths {
        distinct := false;
        return;
      }
      plannedPaths := plannedPaths + {planned[i].path};
    }
    PlannedSet(planned, plannedPaths);
    distinct := true;
  }

  method InPlannedOrder(planned: seq<FileChange>, plannedPaths: set<Path>, confirmed: set<Path>) returns (confirmedPaths: seq<Path>)
    requires confirmed <= plannedPaths && forall path :: path in plannedPaths <==> path in Paths(planned)
    ensures forall path :: path in confirmedPaths <==> path in confirmed
    ensures confirmed == plannedPaths ==> confirmedPaths == Paths(planned)
  {
    confirmedPaths := [];
    for i := 0 to |planned|
      invariant forall path :: path in confirmedPaths <==> path in confirmed && exists k :: 0 <= k < i && planned[k].path == path
      invariant confirmed == plannedPaths ==> confirmedPaths == Paths(planned)[..i]
    {
      assert Paths(planned)[i] == planned[i].path;
      if planned[i].path in confirmed {
        confirmedPaths := confirmedPaths + [planned[i].path];
      }
    }
    assert Paths(planned)[..|planned|] == Paths(planned);
  }

  lemma SameSizeSubset(a: set<Path>, b: set<Path>)
    requires a <= b
    ensures |a| == |b| <==> a == b
  {
    assert b == a + (b - a);
  }

  lemma PlannedSet(planned: seq<FileChange>, plannedPaths: set<Path>)
    requires forall path :: path in plannedPaths <==> exists k :: 0 <= k < |planned| && planned[k].path == path
    ensures forall path :: path in plannedPaths <==> path in Paths(planned)
  {
    forall path | path in plannedPaths ensures path in Paths(planned) {
      var k :| 0 <= k < |planned| && planned[k].path == path;
      assert Paths(planned)[k] == path;
    }
  }

  method ConfirmReported(planned: seq<FileChange>, plannedPaths: set<Path>, reported: seq<Path>)
    returns (confirmed: set<Path>, misreported: bool)
    requires forall path :: path in plannedPaths <==> path in Paths(planned)
    requires [] !in plannedPaths
    ensures misreported <==> Misreported(planned, reported)
    ensures forall path :: path in confirmed <==> path in plannedPaths && path in reported
  {
    confirmed, misreported := {}, false;
    for i := 0 to |reported|
      invariant misreported <==> Misreported(planned, reported[..i])
      invariant forall path :: path in confirmed <==> path in plannedPaths && path in reported[..i]
    {
      var path := reported[i];
      ReportOneMore(planned, reported, i);
      assert reported[..i + 1] == reported[..i] + [path];
      if path == [] {
        misreported := true;
        continue;
      }
      if path in confirmed {
        misreported := true;
        continue;
      }
      if path !in plannedPaths {
        misreported := true;
        continue;
      }
      confirmed := confirmed + {path};
    }
    assert reported[..|reported|] == reported;
  }

  lemma ReportOneMore(planned: seq<FileChange>, reported: seq<Path>, i: nat)
    requires i < |reported|
    ensures Misreported(planned, reported[..i + 1]) <==>
      Misreported(planned, reported[..i]) || reported[i] == [] || reported[i] !in Paths(planned) || reported[i] in reported[..i]
  {
    var before, now := reported[..i], reported[..i + 1];
    assert forall k :: 0 <= k < i ==> before[k] == now[k] == reported[k];
    assert now[i] == reported[i];
  }
}
