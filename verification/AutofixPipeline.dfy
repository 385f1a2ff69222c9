/** The bounded apply-and-observe loop: every round changes memory only, and at
    most one external commit happens, after the final state has been decided. */
module AutofixPipeline {
  import opened Wrappers
  import opened Bytes
  import opened AutofixState
  import opened FixPlanning

  /** What observing one source generation yields. */
  datatype Findings = Findings(
    complete: bool, syntaxErrors: bool, diagnostics: seq<FileDiagnostic>, texts: Sources)

  /** An observation, tagged with the in-memory snapshot it was made on. */
  datatype Observation = Observation(snapshot: Sources, findings: Findings)

  datatype CommitReport = CommitReport(reported: seq<Path>, failed: bool)

  /** The outside world: observing may fail, the run may be cancelled at any of
      its checks, and the committer reports what it likes. */
  datatype World = World(
    observe: (Sources, nat) -> Option<Findings>,
    cancelled: nat -> bool,
    committer: Option<seq<FileChange> -> CommitReport>)

  datatype Request = Request(maxRounds: nat, stopOnTargetSyntaxErrors: bool, verifyAfterLastRound: bool)

  datatype Reason = Cancelled | Incomplete | PlanFailed | RoundRejected | ObservationFailed

  datatype Exit = Aborted(reason: Reason) | Finished(failed: bool)

  datatype Result = Result(
    observation: Observation, verified: bool, rounds: seq<FixRound>, finalChanges: seq<FileChange>,
    committed: bool, committedPaths: seq<Path>)

  /** An immutable base: fix texts are read from the snapshot where it has the
      file and from the base everywhere else, and rules report legal fixes. */
  ghost predicate Frozen(base: Sources, snapshot: Sources, findings: Findings) {
    && (forall path :: path in findings.texts ==> path in base && findings.texts[path] == (base + snapshot)[path])
    && AllWellFormed(findings.diagnostics, findings.texts)
  }

  ghost predicate ReadsBase(world: World, base: Sources) {
    forall snapshot, index ::
      world.observe(snapshot, index).Some? ==> Frozen(base, snapshot, world.observe(snapshot, index).value)
  }

  /** What every exit of the pipeline owes: at most the allowed rounds were
      applied, the final changes are the net delta of exactly those rounds, and a
      verified observation was made on the final in-memory sources. */
  ghost predicate Accounts(base: Sources, request: Request, result: Result, rounds: seq<seq<FileChange>>) {
    && |result.rounds| == |rounds| <= request.maxRounds
    && AllAccepted(rounds)
    && IsFinalDelta(Run(rounds), result.finalChanges)
    && Write(base, result.finalChanges) == Replay(base, rounds)
    && (result.verified ==> result.observation.snapshot == Run(rounds).current)
  }

  /** What it owes about the outside: the committer runs at most once, only on a
      run that was not cut short, and only on the final changes; a commit counts
      when it confirmed exactly the final changed paths, or had nothing to do. */
  ghost predicate CommitsOnce(world: World, result: Result, exit: Exit, commits: seq<seq<FileChange>>) {
    && (commits == [] || (commits == [result.finalChanges] && exit.Finished?))
    && (result.committed ==>
          && world.committer.Some? && exit.Finished?
          && if result.finalChanges == [] then commits == []
             else && commits == [result.finalChanges] && result.committedPaths == Paths(result.finalChanges)
                  && !world.committer.value(result.finalChanges).failed)
    && (exit == Finished(false) && world.committer.Some? ==> result.committed)
    && (exit.Finished? && world.committer.Some? && result.finalChanges != [] ==> commits == [result.finalChanges])
    && (world.committer.None? ==> commits == [])
    && (exit == Finished(true) ==> WasCancelled(world) || (commits != [] && CommitFell(world, result.finalChanges)))
  }

  ghost predicate WasCancelled(world: World) {
    exists clock :: world.cancelled(clock)
  }

  // The committer failed, misreported its paths or missed one.
  ghost predicate CommitFell(world: World, changes: seq<FileChange>) {
    && world.committer.Some?
    && var report := world.committer.value(changes);
       report.failed || Misreported(changes, report.reported) || exists path :: path in Paths(changes) && path !in report.reported
  }

  // ---- What was seen and done ----------------------------------------------------

  ghost predicate StopsOnSyntax(request: Request, findings: Findings) {
    request.stopOnTargetSyntaxErrors && findings.syntaxErrors
  }

  /** Round `k` is a nonempty plan of the complete observation made on what the
      first `k` rounds left in memory, which differs from the initial texts. */
  ghost predicate RoundFollows(request: Request, rounds: seq<seq<FileChange>>, seen: seq<Observation>, k: nat)
    requires k < |rounds| && k < |seen|
  {
    var findings := seen[k].findings;
    && findings.complete && !StopsOnSyntax(request, findings)
    && IsPlan(findings.diagnostics, findings.texts, rounds[k]) && |rounds[k]| > 0
    && (k > 0 ==> Run(rounds[..k]).current != map[])
  }

  // Observation `k` saw what the first `k` rounds left.
  ghost predicate Sees(world: World, initial: Findings, rounds: seq<seq<FileChange>>, seen: seq<Observation>, k: nat)
    requires k < |seen| && k <= |rounds|
  {
    && seen[k].snapshot == Run(rounds[..k]).current
    && (if k == 0 then seen[k].findings == initial else world.observe(seen[k].snapshot, k) == Some(seen[k].findings))
  }

  ghost predicate Followed(world: World, request: Request, initial: Findings, rounds: seq<seq<FileChange>>, seen: seq<Observation>) {
    && 1 <= |seen| && |rounds| <= |seen| <= |rounds| + 1
    && (forall k :: 0 <= k < |seen| ==> Sees(world, initial, rounds, seen, k))
    && (forall k :: 0 <= k < |rounds| ==> RoundFollows(request, rounds, seen, k))
  }

  // The record of each round names its files, its diagnostics and whether everything is back.
  ghost predicate Recorded(rounds: seq<seq<FileChange>>, records: seq<FixRound>) {
    && |records| == |rounds|
    && forall k :: 0 <= k < |rounds| ==>
         records[k] == FixRound(Paths(rounds[k]), Applied(rounds[k]), Run(rounds[..k + 1]).current == map[])
  }

  ghost predicate Restored(rounds: seq<seq<FileChange>>) {
    |rounds| > 0 && Run(rounds).current == map[]
  }

  ghost predicate NothingUsable(findings: Findings) {
    forall i :: 0 <= i < |findings.diagnostics| ==> !HasUsableFix(findings.diagnostics[i].diagnostic)
  }

  /** Why a run that was not cut short stopped, and what it reports: all rounds are
      used up, the last one restored the initial texts, the last observation has
      syntax errors and the request stops on them, or it has no usable fix left. */
  ghost predicate StopsRightly(request: Request, result: Result, rounds: seq<seq<FileChange>>, seen: seq<Observation>) {
    && |seen| > 0
    && (|| |rounds| == request.maxRounds
        || Restored(rounds)
        || (|seen| == |rounds| + 1 && StopsOnSyntax(request, seen[|rounds|].findings))
        || (|seen| == |rounds| + 1 && seen[|rounds|].findings.complete && NothingUsable(seen[|rounds|].findings)))
    && result.observation == (if Restored(rounds) then seen[0] else seen[|seen| - 1])
    && (result.verified <==> Restored(rounds) || |seen| == |rounds| + 1)
    && (|rounds| == request.maxRounds > 0 && !Restored(rounds) ==> result.verified == request.verifyAfterLastRound)
  }

  /** Why a run ended the way it did. */
  ghost predicate Explained(
    world: World, request: Request, result: Result, exit: Exit, rounds: seq<seq<FileChange>>, seen: seq<Observation>)
  {
    match exit
    case Finished(_) => StopsRightly(request, result, rounds, seen)
    case Aborted(Cancelled) => WasCancelled(world)
    case Aborted(Incomplete) => |seen| == |rounds| + 1 && !seen[|rounds|].findings.complete
    case Aborted(PlanFailed) =>
      |seen| == |rounds| + 1 && !Plannable(seen[|rounds|].findings.diagnostics, seen[|rounds|].findings.texts)
    case Aborted(RoundRejected) => false
    case Aborted(ObservationFailed) => |seen| == |rounds| && world.observe(Run(rounds).current, |rounds|).None?
  }

  lemma RoundIsFollowed(
    world: World, request: Request, initial: Findings, rounds: seq<seq<FileChange>>, seen: seq<Observation>, changes: seq<FileChange>)
    requires Followed(world, request, initial, rounds, seen) && |seen| == |rounds| + 1
    requires var findings := seen[|rounds|].findings;
      findings.complete && !StopsOnSyntax(request, findings) && IsPlan(findings.diagnostics, findings.texts, changes) && |changes| > 0
    requires !Restored(rounds)
    ensures Followed(world, request, initial, rounds + [changes], seen)
  {
    hide IsPlan, Run;
    var all := rounds + [changes];
    assert forall k :: 0 <= k <= |rounds| ==> all[..k] == rounds[..k];
    assert rounds[..|rounds|] == rounds;
    forall k | 0 <= k < |seen| ensures Sees(world, initial, all, seen, k) {
      assert Sees(world, initial, rounds, seen, k);
    }
    forall k | 0 <= k < |all| ensures RoundFollows(request, all, seen, k) {
      if k < |rounds| {
        assert RoundFollows(request, rounds, seen, k);
      }
    }
  }

  lemma LookIsFollowed(
    world: World, request: Request, initial: Findings, rounds: seq<seq<FileChange>>, seen: seq<Observation>, look: Observation)
    requires Followed(world, request, initial, rounds, seen) && |seen| == |rounds| > 0
    requires look.snapshot == Run(rounds).current && world.observe(look.snapshot, |rounds|) == Some(look.findings)
    ensures Followed(world, request, initial, rounds, seen + [look])
  {
    hide IsPlan, Run;
    var all := seen + [look];
    assert rounds[..|rounds|] == rounds;
    forall k | 0 <= k < |all| ensures Sees(world, initial, rounds, all, k) {
      if k < |seen| {
        assert Sees(world, initial, rounds, seen, k);
      }
    }
    forall k | 0 <= k < |rounds| ensures RoundFollows(request, rounds, all, k) {
      assert RoundFollows(request, rounds, seen, k);
    }
  }

  lemma FirstLook(world: World, request: Request, initial: Findings)
    ensures Followed(world, request, initial, [], [Observation(map[], initial)]) && Recorded([], []) && !Restored([])
  {
  }

  lemma RoundIsRecorded(rounds: seq<seq<FileChange>>, records: seq<FixRound>, changes: seq<FileChange>, round: FixRound)
    requires Recorded(rounds, records)
    requires round == FixRound(Paths(changes), Applied(changes), Run(rounds + [changes]).current == map[])
    ensures Recorded(rounds + [changes], records + [round])
  {
    hide Run, Applied;
    var all := rounds + [changes];
    assert forall n :: 0 <= n <= |rounds| ==> all[..n] == rounds[..n];
    assert all[..|all|] == all;
  }

  /** A usable fix in a complete first observation is acted on: unless the run may
      not change anything or stops on syntax errors, it applies at least one round
      that changes the file of that fix. */
  lemma UsableFixIsActedOn(
    world: World, request: Request, initial: Findings, result: Result, exit: Exit,
    rounds: seq<seq<FileChange>>, seen: seq<Observation>, i: nat)
    requires Followed(world, request, initial, rounds, seen) && Explained(world, request, result, exit, rounds, seen) && exit.Finished?
    requires request.maxRounds > 0 && !StopsOnSyntax(request, initial)
    requires i < |initial.diagnostics| && HasUsableFix(initial.diagnostics[i].diagnostic)
    ensures |rounds| > 0 && initial.diagnostics[i].path in Paths(rounds[0])
  {
    hide IsPlan, HasUsableFix, Run;
    assert Sees(world, initial, rounds, seen, 0);
    if |rounds| > 0 {
      assert RoundFollows(request, rounds, seen, 0);
      PlanChangesUsableFiles(initial.diagnostics, initial.texts, rounds[0], initial.diagnostics[i].path);
    }
  }

  lemma DeltaPathsAreDistinct(m: Memory, changes: seq<FileChange>)
    requires IsFinalDelta(m, changes) && [] !in m.current
    ensures DistinctPaths(changes)
  {
    forall i, j | 0 <= i < j < |changes| ensures changes[i].path != changes[j].path {
      LessIsTotal(changes[i].path, changes[j].path);
    }
    forall i | 0 <= i < |changes| ensures changes[i].path != [] {
      assert changes[i].path == changes[i].path;
    }
  }

  method CommitFinalChanges(world: World, start: Result, clock: nat, ghost m: Memory)
    returns (result: Result, exit: Exit, commits: seq<seq<FileChange>>)
    requires IsFinalDelta(m, start.finalChanges) && [] !in m.current && !start.committed
    ensures result == start.(committed := result.committed, committedPaths := result.committedPaths)
    ensures exit.Finished? || (exit == Aborted(Cancelled) && WasCancelled(world))
    ensures CommitsOnce(world, result, exit, commits)
  {
    result, commits := start, [];
    if world.committer.None? {
      return result, Finished(world.cancelled(clock)), commits;
    }
    if world.cancelled(clock) {
      return result, Aborted(Cancelled), commits;
    }
    if |result.finalChanges| == 0 {
      return result.(committed := true), Finished(false), commits;
    }
    DeltaPathsAreDistinct(m, result.finalChanges);
    var report := world.committer.value(result.finalChanges);
    commits := [result.finalChanges];
    var confirmed, ok := ValidateCommitResult(result.finalChanges, report.reported, report.failed);
    result := result.(committed := ok, committedPaths := confirmed);
    exit := Finished(!ok || world.cancelled(clock + 1));
  }

  // Memory, sources and rounds in agreement.
  ghost predicate InStep(base: Sources, m: Memory, rounds: seq<seq<FileChange>>) {
    && m == Run(rounds) && Consistent(m) && StartedFrom(m, base) && AllAccepted(rounds) && [] !in m.initial
  }

  lemma PlanIsAccepted(
    base: Sources, m: Memory, rounds: seq<seq<FileChange>>, findings: Findings, changes: seq<FileChange>)
    requires InStep(base, m, rounds) && Frozen(base, m.current, findings)
    requires IsPlan(findings.diagnostics, findings.texts, changes) && |changes| > 0
    ensures Acceptable(m, changes)
    ensures InStep(base, ApplyRound(m, changes), rounds + [changes])
  {
    hide Acceptable, AppliesGroup, Group, NothingToFix, Less;
    CurrentIsReplay(rounds, base);
    forall i | 0 <= i < |changes|
      ensures changes[i].path != [] && changes[i].path in base && changes[i].path in Replay(base, rounds)
      ensures changes[i].before == Replay(base, rounds)[changes[i].path]
    {
      assert PlannedFrom(findings.diagnostics, findings.texts, changes[i]);
    }
    forall i, j | 0 <= i < j < |changes| ensures changes[i].path != changes[j].path {
      LessIsTotal(changes[i].path, changes[j].path);
    }
    PlannedRoundIsAccepted(rounds, base, changes);
    assert (rounds + [changes])[..|rounds|] == rounds;
    RunIsConsistent(rounds + [changes]);
    RoundKeepsNamed(m, changes);
  }

  lemma {:induction false} RoundKeepsNamed(m: Memory, changes: seq<FileChange>)
    requires [] !in m.initial && forall i :: 0 <= i < |changes| ==> changes[i].path != []
    ensures [] !in ApplyRound(m, changes).initial
  {
    if |changes| > 0 {
      RoundKeepsNamed(m, changes[..|changes| - 1]);
    }
  }

  lemma InStepAccounts(
    base: Sources, request: Request, m: Memory, result: Result, rounds: seq<seq<FileChange>>)
    requires InStep(base, m, rounds) && IsFinalDelta(m, result.finalChanges)
    requires |result.rounds| == |rounds| <= request.maxRounds
    requires result.verified ==> result.observation.snapshot == m.current
    ensures Accounts(base, request, result, rounds)
  {
    NetDeltaIsReplay(rounds, base, result.finalChanges);
  }

  lemma NothingDone(base: Sources)
    ensures InStep(base, EMPTY, []) && IsFinalDelta(EMPTY, [])
  {
  }

  /** Runs the whole machine from the first observation, which saw the base. */
  method RunAutofixPipeline(world: World, request: Request, base: Sources, initial: Findings)
    returns (result: Result, exit: Exit, commits: seq<seq<FileChange>>, ghost rounds: seq<seq<FileChange>>, ghost seen: seq<Observation>)
    requires ReadsBase(world, base) && Frozen(base, map[], initial)
    ensures Accounts(base, request, result, rounds)
    ensures CommitsOnce(world, result, exit, commits)
    ensures Followed(world, request, initial, rounds, seen) && Recorded(rounds, result.rounds)
    ensures Explained(world, request, result, exit, rounds, seen)
  {
    hide Frozen, InStep, Accounts, CommitsOnce, Acceptable, ApplyRound, IsFinalDelta, IsPlan, AllWellFormed, Followed, Recorded,
      Plannable, NothingUsable, Applied, Run, StopsRightly;
    var state := new State();
    var first := Observation(map[], initial);
    var current := first;
    var clock, index := 0, 0;
    result := Result(first, true, [], [], false, []);
    commits, rounds, seen := [], [], [first];
    NothingDone(base);
    FirstLook(world, request, initial);
    while index < request.maxRounds && !(request.stopOnTargetSyntaxErrors && current.findings.syntaxErrors)
      invariant index == |rounds| == |result.rounds| <= request.maxRounds
      invariant InStep(base, state.Value(), rounds) && IsFinalDelta(state.Value(), result.finalChanges)
      invariant current.snapshot == state.current && Frozen(base, state.current, current.findings)
      invariant result.observation == current && result.verified
      invariant commits == [] && !result.committed
      invariant Followed(world, request, initial, rounds, seen) && Recorded(rounds, result.rounds) && !Restored(rounds)
      invariant |seen| == |rounds| + 1 && seen[|rounds|] == current
      invariant |rounds| == request.maxRounds > 0 ==> request.verifyAfterLastRound
    {
      InStepAccounts(base, request, state.Value(), result, rounds);
      AbortOwesNothing(world, result);
      if world.cancelled(clock) {
        exit := Aborted(Cancelled);
        return;
      }
      if !current.findings.complete {
        exit := Aborted(Incomplete);
        return;
      }
      FrozenIsWellFormed(base, state.current, current.findings);
      var planned, changes := PlanFixes(current.findings.diagnostics, current.findings.texts);
      if !planned || world.cancelled(clock + 1) {
        exit := Aborted(if planned then Cancelled else PlanFailed);
        return;
      }
      if |changes| == 0 {
        EmptyPlanStops(request, result, rounds, seen, changes);
        break;
      }
      PlanIsAccepted(base, state.Value(), rounds, current.findings, changes);
      RoundIsFollowed(world, request, initial, rounds, seen, changes);
      var accepted, round := state.Apply(changes);
      InStepIsRun(base, state.Value(), rounds + [changes]);
      RoundIsRecorded(rounds, result.rounds, changes, round);
      rounds := rounds + [changes];
      InStepIsConsistent(base, state.Value(), rounds);
      var finalChanges := state.FinalChanges();
      result := result.(verified := false, rounds := result.rounds + [round], finalChanges := finalChanges);
      index := index + 1;
      if round.restoredInitial {
        result := result.(observation := first, verified := true);
        InStepAccounts(base, request, state.Value(), result, rounds);
        AbortOwesNothing(world, result);
        if world.cancelled(clock + 2) {
          exit := Aborted(Cancelled);
          return;
        }
        RestoredStops(world, request, initial, result, rounds, seen);
        break;
      }
      InStepAccounts(base, request, state.Value(), result, rounds);
      AbortOwesNothing(world, result);
      if world.cancelled(clock + 2) {
        exit := Aborted(Cancelled);
        return;
      }
      if index == request.maxRounds && !request.verifyAfterLastRound {
        LimitStops(request, result, rounds, seen);
        break;
      }
      var next := world.observe(state.current, index);
      if next.None? {
        exit := Aborted(ObservationFailed);
        return;
      }
      current := Observation(state.current, next.value);
      LookIsFollowed(world, request, initial, rounds, seen, current);
      seen := seen + [current];
      result := result.(observation := current, verified := true);
      clock := clock + 3;
    }
    LoopStops(request, result, rounds, seen);
    InStepAccounts(base, request, state.Value(), result, rounds);
    ghost var settled := result;
    InStepIsConsistent(base, state.Value(), rounds);
    result, exit, commits := CommitFinalChanges(world, result, clock + 3, state.Value());
    CommitKeepsAccounts(base, request, settled, result, rounds);
    CommitKeepsStop(request, settled, result, rounds, seen);
  }

  lemma EmptyPlanStops(
    request: Request, result: Result, rounds: seq<seq<FileChange>>, seen: seq<Observation>, changes: seq<FileChange>)
    requires |seen| == |rounds| + 1 && result.observation == seen[|rounds|] && result.verified && !Restored(rounds)
    requires var findings := seen[|rounds|].findings;
      findings.complete && IsPlan(findings.diagnostics, findings.texts, changes) && |changes| == 0
    requires |rounds| < request.maxRounds
    ensures StopsRightly(request, result, rounds, seen)
  {
    hide IsPlan, Run, HasUsableFix;
    var findings := seen[|rounds|].findings;
    PlanIsEmptyIff(findings.diagnostics, findings.texts, changes);
  }

  lemma RestoredStops(
    world: World, request: Request, initial: Findings, result: Result, rounds: seq<seq<FileChange>>, seen: seq<Observation>)
    requires Followed(world, request, initial, rounds, seen) && |seen| == |rounds| && Restored(rounds)
    requires result.observation == Observation(map[], initial) && result.verified
    ensures StopsRightly(request, result, rounds, seen)
  {
    assert Sees(world, initial, rounds, seen, 0);
    assert Run(rounds[..0]).current == map[];
    hide RoundFollows, NothingUsable;
  }

  lemma LimitStops(request: Request, result: Result, rounds: seq<seq<FileChange>>, seen: seq<Observation>)
    requires |seen| == |rounds| == request.maxRounds > 0 && !Restored(rounds) && !request.verifyAfterLastRound
    requires result.observation == seen[|seen| - 1] && !result.verified
    ensures StopsRightly(request, result, rounds, seen)
  {
    hide Run, NothingUsable;
  }

  // The loop left in the middle, or through its condition.
  lemma LoopStops(request: Request, result: Result, rounds: seq<seq<FileChange>>, seen: seq<Observation>)
    requires
      || StopsRightly(request, result, rounds, seen)
      || (&& |seen| == |rounds| + 1 && !Restored(rounds) && result.observation == seen[|rounds|] && result.verified
          && (|rounds| == request.maxRounds || StopsOnSyntax(request, seen[|rounds|].findings))
          && (|rounds| == request.maxRounds > 0 ==> request.verifyAfterLastRound))
    ensures StopsRightly(request, result, rounds, seen)
  {
    hide Run, NothingUsable;
  }

  lemma CommitKeepsStop(request: Request, before: Result, after: Result, rounds: seq<seq<FileChange>>, seen: seq<Observation>)
    requires StopsRightly(request, before, rounds, seen)
    requires after == before.(committed := after.committed, committedPaths := after.committedPaths)
    ensures StopsRightly(request, after, rounds, seen)
  {
    hide Run, NothingUsable;
  }

  lemma InStepIsRun(base: Sources, m: Memory, rounds: seq<seq<FileChange>>)
    requires InStep(base, m, rounds)
    ensures m == Run(rounds)
  {
  }

  lemma AbortOwesNothing(world: World, result: Result)
    requires !result.committed
    ensures forall reason :: CommitsOnce(world, result, Aborted(reason), [])
  {
  }

  lemma FrozenIsWellFormed(base: Sources, snapshot: Sources, findings: Findings)
    requires Frozen(base, snapshot, findings)
    ensures AllWellFormed(findings.diagnostics, findings.texts)
  {
  }

  lemma InStepIsConsistent(base: Sources, m: Memory, rounds: seq<seq<FileChange>>)
    requires InStep(base, m, rounds)
    ensures Consistent(m) && [] !in m.current
  {
  }

  lemma CommitKeepsAccounts(
    base: Sources, request: Request, before: Result, after: Result, rounds: seq<seq<FileChange>>)
    requires Accounts(base, request, before, rounds)
    requires after == before.(committed := after.committed, committedPaths := after.committedPaths)
    ensures Accounts(base, request, after, rounds)
  {
  }
}
