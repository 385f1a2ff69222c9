/** The pipeline's in-memory autofix state: what every file was at first, what
    it is now, and the net change between the two. */
module AutofixState {
  import opened Wrappers
  import opened Bytes
  import opened Sorting

  type Path = Text

  type Sources = map<Path, Text>

  datatype FileChange = FileChange(path: Path, before: Text, after: Text, appliedDiagnostics: nat)

  datatype FixRound = FixRound(changedPaths: seq<Path>, appliedDiagnostics: nat, restoredInitial: bool)

  datatype Memory = Memory(initial: Sources, current: Sources, appliedDiagnostics: map<Path, nat>)

  const EMPTY: Memory := Memory(map[], map[], map[])

  function TextOf(m: Memory, path: Path): Option<Text> {
    if path in m.current then Some(m.current[path])
    else if path in m.initial then Some(m.initial[path])
    else None
  }

  function Get(m: map<Path, nat>, path: Path): nat {
    if path in m then m[path] else 0
  }

  // ---- One round, as a relation between states ------------------------------

  predicate Current(m: Memory, change: FileChange) {
    TextOf(m, change.path) == None || TextOf(m, change.path) == Some(change.before)
  }

  /** A round is accepted when it changes something, names each file once, and
      was planned from the texts the state holds. */
  predicate Acceptable(m: Memory, changes: seq<FileChange>) {
    && |changes| > 0
    && (forall i :: 0 <= i < |changes| ==> changes[i].path != [] && Current(m, changes[i]))
    && (forall i, j :: 0 <= i < j < |changes| ==> changes[i].path != changes[j].path)
  }

  function ApplyChange(m: Memory, change: FileChange): Memory {
    var initial := if change.path in m.initial then m.initial else m.initial[change.path := change.before];
    Memory(
      initial,
      if change.after == initial[change.path] then m.current - {change.path} else m.current[change.path := change.after],
      m.appliedDiagnostics[change.path := Get(m.appliedDiagnostics, change.path) + change.appliedDiagnostics])
  }

  function ApplyRound(m: Memory, changes: seq<FileChange>): Memory {
    if |changes| == 0 then m
    else ApplyChange(ApplyRound(m, changes[..|changes| - 1]), changes[|changes| - 1])
  }

  function Paths(changes: seq<FileChange>): (r: seq<Path>)
    ensures |r| == |changes|
  {
    seq(|changes|, i requires 0 <= i < |changes| => changes[i].path)
  }

  function Applied(changes: seq<FileChange>): nat {
    if |changes| == 0 then 0 else Applied(changes[..|changes| - 1]) + changes[|changes| - 1].appliedDiagnostics
  }

  // ---- What rounds mean for the sources ------------------------------------

  // Writing the changes of one round over a set of sources.
  function Write(sources: Sources, changes: seq<FileChange>): Sources {
    if |changes| == 0 then sources
    else Write(sources, changes[..|changes| - 1])[changes[|changes| - 1].path := changes[|changes| - 1].after]
  }

  // Replaying whole rounds in order.
  function Replay(sources: Sources, rounds: seq<seq<FileChange>>): Sources {
    if |rounds| == 0 then sources
    else Write(Replay(sources, rounds[..|rounds| - 1]), rounds[|rounds| - 1])
  }

  // Every round was accepted by the state the earlier rounds left.
  ghost predicate AllAccepted(rounds: seq<seq<FileChange>>) {
    |rounds| == 0 ||
    (AllAccepted(rounds[..|rounds| - 1]) && Acceptable(Run(rounds[..|rounds| - 1]), rounds[|rounds| - 1]))
  }

  function Run(rounds: seq<seq<FileChange>>): Memory {
    if |rounds| == 0 then EMPTY else ApplyRound(Run(rounds[..|rounds| - 1]), rounds[|rounds| - 1])
  }

  /** What every round keeps: a file differs from its initial text exactly while
      it is in `current`, and only files with a known initial text do. */
  ghost predicate Consistent(m: Memory) {
    && m.current.Keys <= m.initial.Keys
    && (forall path :: path in m.current ==> m.current[path] != m.initial[path])
    && m.initial.Keys == m.appliedDiagnostics.Keys
  }

  // `base` is a set of sources the state was started from.
  ghost predicate StartedFrom(m: Memory, base: Sources) {
    m.initial.Keys <= base.Keys && forall path :: path in m.initial ==> m.initial[path] == base[path]
  }

  lemma ChangeKeepsConsistent(m: Memory, change: FileChange)
    requires Consistent(m)
    ensures Consistent(ApplyChange(m, change))
  {
  }

  lemma {:induction false} RoundKeepsConsistent(m: Memory, changes: seq<FileChange>)
    requires Consistent(m)
    ensures Consistent(ApplyRound(m, changes))
  {
    if |changes| > 0 {
      RoundKeepsConsistent(m, changes[..|changes| - 1]);
      ChangeKeepsConsistent(ApplyRound(m, changes[..|changes| - 1]), changes[|changes| - 1]);
    }
  }

  lemma {:induction false} RunIsConsistent(rounds: seq<seq<FileChange>>)
    ensures Consistent(Run(rounds))
  {
    if |rounds| > 0 {
      RunIsConsistent(rounds[..|rounds| - 1]);
      RoundKeepsConsistent(Run(rounds[..|rounds| - 1]), rounds[|rounds| - 1]);
    }
  }

  // One change moves the state and the sources in step.
  lemma ChangeInStep(m: Memory, change: FileChange, base: Sources)
    requires Consistent(m) && StartedFrom(ApplyChange(m, change), base)
    ensures StartedFrom(m, base)
    ensures (base + m.current)[change.path := change.after] == base + ApplyChange(m, change).current
  {
    assert change.path in ApplyChange(m, change).initial;
  }

  lemma {:induction false} RoundInStep(m: Memory, changes: seq<FileChange>, base: Sources)
    requires Consistent(m) && StartedFrom(ApplyRound(m, changes), base)
    ensures StartedFrom(m, base)
    ensures Write(base + m.current, changes) == base + ApplyRound(m, changes).current
  {
    hide ApplyChange, Consistent, StartedFrom;
    if |changes| > 0 {
      var before, last := changes[..|changes| - 1], changes[|changes| - 1];
      var mid := ApplyRound(m, before);
      RoundKeepsConsistent(m, before);
      ChangeInStep(mid, last, base);
      RoundInStep(m, before, base);
    }
  }

  /** The sources held in memory are the ones replaying every round gives. */
  lemma {:induction false} CurrentIsReplay(rounds: seq<seq<FileChange>>, base: Sources)
    requires StartedFrom(Run(rounds), base)
    ensures base + Run(rounds).current == Replay(base, rounds)
  {
    if |rounds| == 0 {
      assert base + EMPTY.current == base;
    } else {
      var before := rounds[..|rounds| - 1];
      RunIsConsistent(before);
      RoundInStep(Run(before), rounds[|rounds| - 1], base);
      CurrentIsReplay(before, base);
    }
  }

  // ---- The net delta -------------------------------------------------------

  /** The final changes of a state: one for every file that differs from its
      initial text, in path order. */
  ghost predicate IsFinalDelta(m: Memory, changes: seq<FileChange>) {
    && (forall i, j :: 0 <= i < j < |changes| ==> Less(changes[i].path, changes[j].path))
    && (forall path :: path in m.current <==> exists i :: 0 <= i < |changes| && changes[i].path == path)
    && (forall i :: 0 <= i < |changes| && changes[i].path in m.current && changes[i].path in m.initial ==>
          && changes[i].before == m.initial[changes[i].path]
          && changes[i].after == m.current[changes[i].path]
          && changes[i].appliedDiagnostics == Get(m.appliedDiagnostics, changes[i].path))
  }

  // Writing one change for each key of `texts` is writing `texts`.
  lemma WriteAll(sources: Sources, changes: seq<FileChange>, texts: Sources)
    requires forall i :: 0 <= i < |changes| ==> changes[i].path in texts && changes[i].after == texts[changes[i].path]
    requires forall path :: path in texts ==> exists i :: 0 <= i < |changes| && changes[i].path == path
    ensures Write(sources, changes) == sources + texts
  {
    hide Write;
    forall path
      ensures path in Write(sources, changes) <==> path in sources || path in texts
      ensures path in texts ==> Write(sources, changes)[path] == texts[path]
      ensures path in sources && path !in texts ==> Write(sources, changes)[path] == sources[path]
    {
      WriteAt(sources, changes, texts, path);
    }
  }

  lemma {:induction false} WriteAt(sources: Sources, changes: seq<FileChange>, texts: Sources, path: Path)
    requires forall i :: 0 <= i < |changes| ==> changes[i].path in texts && changes[i].after == texts[changes[i].path]
    ensures path in Write(sources, changes) <==> path in sources || exists i :: 0 <= i < |changes| && changes[i].path == path
    ensures path in Write(sources, changes) ==>
      Write(sources, changes)[path] ==
        if exists i :: 0 <= i < |changes| && changes[i].path == path then texts[path] else sources[path]
  {
    if |changes| > 0 {
      WriteAt(sources, changes[..|changes| - 1], texts, path);
      assert forall i :: 0 <= i < |changes| - 1 ==> changes[..|changes| - 1][i] == changes[i];
    }
  }

  /** Applying the net delta to the initial sources gives what replaying all
      rounds in order gives. */
  lemma NetDeltaIsReplay(rounds: seq<seq<FileChange>>, base: Sources, delta: seq<FileChange>)
    requires StartedFrom(Run(rounds), base) && IsFinalDelta(Run(rounds), delta)
    ensures Write(base, delta) == Replay(base, rounds)
    ensures forall i :: 0 <= i < |delta| ==> delta[i].path in base && delta[i].before == base[delta[i].path]
  {
    var m := Run(rounds);
    RunIsConsistent(rounds);
    forall i | 0 <= i < |delta| ensures delta[i].path in m.current {
      assert delta[i].path == delta[i].path;
    }
    WriteAll(base, delta, m.current);
    CurrentIsReplay(rounds, base);
  }

  /** A state holds no changes exactly when every text is back to its initial value. */
  lemma RestoredMeansInitial(rounds: seq<seq<FileChange>>, base: Sources)
    requires StartedFrom(Run(rounds), base)
    ensures Run(rounds).current == map[] <==> Replay(base, rounds) == base
  {
    var m := Run(rounds);
    RunIsConsistent(rounds);
    CurrentIsReplay(rounds, base);
    if m.current != map[] {
      var path :| path in m.current;
      assert (base + m.current)[path] != base[path];
    } else {
      assert base + m.current == base;
    }
  }

  /** Rounds planned from what is in memory over an immutable base are never
      stale: whatever their plans leave out, they are accepted. */
  lemma PlannedRoundIsAccepted(rounds: seq<seq<FileChange>>, base: Sources, next: seq<FileChange>)
    requires StartedFrom(Run(rounds), base) && |next| > 0
    requires forall i :: 0 <= i < |next| ==>
      && next[i].path != [] && next[i].path in base && next[i].path in Replay(base, rounds)
      && next[i].before == Replay(base, rounds)[next[i].path]
    requires forall i, j :: 0 <= i < j < |next| ==> next[i].path != next[j].path
    ensures Acceptable(Run(rounds), next)
    ensures StartedFrom(Run(rounds + [next]), base)
  {
    var m := Run(rounds);
    RunIsConsistent(rounds);
    CurrentIsReplay(rounds, base);
    assert (rounds + [next])[..|rounds|] == rounds;
    assert Run(rounds + [next]) == ApplyRound(m, next);
    AcceptedStaysStarted(m, next, base);
  }

  // The first text recorded for a file is the text the round was planned from.
  lemma {:induction false} AcceptedStaysStarted(m: Memory, changes: seq<FileChange>, base: Sources)
    requires StartedFrom(m, base)
    requires forall i :: 0 <= i < |changes| ==>
      changes[i].path in base && (changes[i].path !in m.initial ==> changes[i].before == base[changes[i].path])
    ensures StartedFrom(ApplyRound(m, changes), base)
  {
    if |changes| > 0 {
      var before, last := changes[..|changes| - 1], changes[|changes| - 1];
      AcceptedStaysStarted(m, before, base);
      InitialOnlyGrows(m, before);
    }
  }

  lemma {:induction false} InitialOnlyGrows(m: Memory, changes: seq<FileChange>)
    ensures m.initial.Keys <= ApplyRound(m, changes).initial.Keys
  {
    if |changes| > 0 {
      InitialOnlyGrows(m, changes[..|changes| - 1]);
    }
  }

  // ---- Single files -----------------------------------------------------------

  predicate NamesOnce(changes: seq<FileChange>) {
    forall i, j :: 0 <= i < j < |changes| ==> changes[i].path != changes[j].path
  }

  /** A round gives every file it names the text planned for it, counts its
      diagnostics on top, remembers the text it had at first, and leaves all other
      files alone. */
  lemma {:induction false} RoundOnFile(m: Memory, changes: seq<FileChange>, path: Path)
    requires Consistent(m) && NamesOnce(changes)
    ensures var n := ApplyRound(m, changes);
      && (forall i :: 0 <= i < |changes| && changes[i].path == path ==>
            && TextOf(n, path) == Some(changes[i].after)
            && Get(n.appliedDiagnostics, path) == Get(m.appliedDiagnostics, path) + changes[i].appliedDiagnostics
            && path in n.initial && n.initial[path] == (if path in m.initial then m.initial[path] else changes[i].before))
      && ((forall i :: 0 <= i < |changes| ==> changes[i].path != path) ==>
            && TextOf(n, path) == TextOf(m, path)
            && Get(n.appliedDiagnostics, path) == Get(m.appliedDiagnostics, path)
            && (path in n.initial <==> path in m.initial) && (path in m.initial ==> n.initial[path] == m.initial[path]))
  {
    if |changes| > 0 {
      var before, last := changes[..|changes| - 1], changes[|changes| - 1];
      assert forall i :: 0 <= i < |before| ==> before[i] == changes[i];
      RoundOnFile(m, before, path);
      RoundKeepsConsistent(m, before);
    }
  }

  /** The diagnostics a round applies are those of its changes, one after the other. */
  lemma {:induction false} AppliedAddsUp(a: seq<FileChange>, b: seq<FileChange>)
    ensures Applied(a + b) == Applied(a) + Applied(b)
    ensures |b| == 1 ==> Applied(b) == b[0].appliedDiagnostics
    decreases |b|
  {
    if |b| > 0 {
      AppliedAddsUp(a, b[..|b| - 1]);
      assert (a + b)[..|a + b| - 1] == a + b[..|b| - 1];
    } else {
      assert a + b == a;
    }
  }

  /** Writing a round gives every file it names its new text and no other one. */
  lemma {:induction false} WriteOnFile(sources: Sources, changes: seq<FileChange>, path: Path)
    requires NamesOnce(changes)
    ensures forall i :: 0 <= i < |changes| && changes[i].path == path ==>
      path in Write(sources, changes) && Write(sources, changes)[path] == changes[i].after
    ensures (forall i :: 0 <= i < |changes| ==> changes[i].path != path) ==>
      (path in Write(sources, changes) <==> path in sources)
      && (path in sources ==> Write(sources, changes)[path] == sources[path])
  {
    if |changes| > 0 {
      var before := changes[..|changes| - 1];
      assert forall i :: 0 <= i < |before| ==> before[i] == changes[i];
      WriteOnFile(sources, before, path);
    }
  }

  // ---- The state object -----------------------------------------------------

  // The keys of a map in path order.
  method SortedPaths(keys: set<Path>) returns (paths: seq<Path>)
    ensures forall i, j :: 0 <= i < j < |paths| ==> Less(paths[i], paths[j])
    ensures forall path :: path in keys <==> path in paths
  {
    var rest, listed := keys, [];
    while rest != {}
      invariant rest <= keys
      invariant forall path :: path in keys <==> path in rest || path in listed
      invariant forall path :: path in listed ==> path !in rest
      invariant forall i, j :: 0 <= i < j < |listed| ==> listed[i] != listed[j]
      decreases |rest|
    {
      var path :| path in rest;
      listed := listed + [path];
      rest := rest - {path};
    }
    PathOrder();
    paths := Sort(listed, AtMostInOrder);
    forall path ensures path in keys <==> path in paths {
      assert path in listed <==> path in multiset(listed);
    }
    DistinctStaysDistinct(listed, paths);
  }

  lemma PathOrder()
    ensures TotalPreorder(AtMostInOrder)
  {
    forall a, b, c
      ensures AtMostInOrder(a, b) || AtMostInOrder(b, a)
      ensures AtMostInOrder(a, b) && AtMostInOrder(b, c) ==> AtMostInOrder(a, c)
    {
      ByteOrderIsTotal(a, b, c);
    }
  }

  lemma {:induction false} CountInDistinct(items: seq<Path>, x: Path)
    requires forall i, j :: 0 <= i < j < |items| ==> items[i] != items[j]
    ensures multiset(items)[x] <= 1
  {
    if |items| > 0 {
      var n := |items| - 1;
      assert items == items[..n] + [items[n]];
      CountInDistinct(items[..n], x);
    }
  }

  lemma DistinctStaysDistinct(listed: seq<Path>, paths: seq<Path>)
    requires forall i, j :: 0 <= i < j < |listed| ==> listed[i] != listed[j]
    requires multiset(paths) == multiset(listed) && Ordered(paths, AtMostInOrder)
    ensures forall i, j :: 0 <= i < j < |paths| ==> Less(paths[i], paths[j])
  {
    forall i, j | 0 <= i < j < |paths| ensures Less(paths[i], paths[j]) {
      assert AtMostInOrder(paths[i], paths[j]);
      if paths[i] == paths[j] {
        TwoOccurrences(paths, i, j);
        CountInDistinct(listed, paths[i]);
      }
    }
  }

  lemma TwoOccurrences(items: seq<Path>, i: nat, j: nat)
    requires i < j < |items| && items[i] == items[j]
    ensures multiset(items)[items[i]] >= 2
  {
    assert items == items[..i] + [items[i]] + items[i + 1..j] + [items[j]] + items[j + 1..];
  }

  class State {
    var initial: Sources
    var current: Sources
    var appliedDiagnostics: map<Path, nat>

    constructor ()
      ensures Value() == EMPTY
    {
      initial, current, appliedDiagnostics := map[], map[], map[];
    }

    ghost function Value(): Memory
      reads this
    {
      Memory(initial, current, appliedDiagnostics)
    }

    function TextAt(path: Path): (r: Option<Text>)
      reads this
      ensures r == TextOf(Value(), path)
    {
      if path in current then Some(current[path]) else if path in initial then Some(initial[path]) else None
    }

    method Validate(changes: seq<FileChange>) returns (accepted: bool)
      ensures accepted <==> Acceptable(Value(), changes)
    {
      hide TextOf;
      if |changes| == 0 {
        return false;
      }
      var seen: set<Path> := {};
      for i := 0 to |changes|
        invariant forall path :: path in seen <==> exists k :: 0 <= k < i && changes[k].path == path
        invariant forall k :: 0 <= k < i ==> changes[k].path != [] && Current(Value(), changes[k])
        invariant forall k, l :: 0 <= k < l < i ==> changes[k].path != changes[l].path
      {
        var change := changes[i];
        if change.path == [] || change.path in seen {
          return false;
        }
        seen := seen + {change.path};
        var known := TextAt(change.path);
        if known.Some? && known.value != change.before {
          return false;
        }
      }
      return true;
    }

    method ApplyOne(change: FileChange)
      modifies this
      ensures Value() == ApplyChange(old(Value()), change)
    {
      if change.path !in initial {
        initial := initial[change.path := change.before];
      }
      if change.after == initial[change.path] {
        current := current - {change.path};
      } else {
        current := current[change.path := change.after];
      }
      appliedDiagnostics := appliedDiagnostics[
        change.path := Get(appliedDiagnostics, change.path) + change.appliedDiagnostics];
    }

    /** Applies one round atomically, or rejects it and changes nothing. */
    method Apply(changes: seq<FileChange>) returns (accepted: bool, round: FixRound)
      modifies this
      ensures accepted <==> Acceptable(old(Value()), changes)
      ensures Value() == if accepted then ApplyRound(old(Value()), changes) else old(Value())
      ensures accepted ==>
        round == FixRound(Paths(changes), Applied(changes), Value().current == map[])
    {
      hide Acceptable, ApplyChange;
      round := FixRound([], 0, false);
      accepted := Validate(changes);
      if !accepted {
        return;
      }
      var applied := 0;
      for i := 0 to |changes|
        invariant Value() == ApplyRound(old(Value()), changes[..i])
        invariant applied == Applied(changes[..i])
      {
        assert changes[..i + 1][..i] == changes[..i];
        ApplyOne(changes[i]);
        applied := applied + changes[i].appliedDiagnostics;
      }
      assert changes[..|changes|] == changes;
      round := FixRound(Paths(changes), applied, |current| == 0);
    }

    /** The net delta between the initial and the current texts. */
    method FinalChanges() returns (changes: seq<FileChange>)
      requires Consistent(Value())
      ensures IsFinalDelta(Value(), changes)
    {
      hide Less;
      var paths := SortedPaths(current.Keys);
      changes := [];
      for i := 0 to |paths|
        invariant |changes| == i
        invariant forall k :: 0 <= k < i ==>
          changes[k] == FileChange(paths[k], initial[paths[k]], current[paths[k]], appliedDiagnostics[paths[k]])
      {
        assert paths[i] in paths;
        changes := changes + [FileChange(paths[i], initial[paths[i]], current[paths[i]], appliedDiagnostics[paths[i]])];
      }
      forall path ensures path in current <==> exists i :: 0 <= i < |changes| && changes[i].path == path {
        assert path in current.Keys <==> path in paths;
      }
    }

    /** The final text of every file some round touched, restored ones included. */
    method FinalSources() returns (files: seq<(Path, Text)>)
      requires Consistent(Value())
      ensures forall i, j :: 0 <= i < j < |files| ==> Less(files[i].0, files[j].0)
      ensures forall path :: path in initial <==> exists i :: 0 <= i < |files| && files[i].0 == path
      ensures forall i :: 0 <= i < |files| ==> TextOf(Value(), files[i].0) == Some(files[i].1)
    {
      var paths := SortedPaths(appliedDiagnostics.Keys);
      files := [];
      for i := 0 to |paths|
        invariant |files| == i
        invariant forall k :: 0 <= k < i ==> files[k].0 == paths[k] && TextOf(Value(), paths[k]) == Some(files[k].1)
      {
        assert paths[i] in paths && paths[i] in appliedDiagnostics.Keys;
        var known := TextAt(paths[i]);
        files := files + [(paths[i], known.value)];
      }
      forall path ensures path in initial <==> exists i :: 0 <= i < |files| && files[i].0 == path {
        assert path in initial.Keys <==> path in paths;
      }
    }
  }
}
