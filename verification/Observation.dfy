/** One observation of a source generation: acquire, lint, dispatch plugin work,
    release. The journal records what happened and in which order. */
module Observation {
  import opened Wrappers
  import opened PluginTasks

  datatype Event = Acquired | Used | PluginStarts | PluginEnds | Released

  /** Whether plugin work runs beside the native lint, on the leased generation,
      or after it, detached from it. */
  datatype Mode = ConcurrentJoined | AfterNativeJoined | ProgressiveAfterNative

  // ---- What a journal must look like -----------------------------------------

  datatype Life = Unborn | Held(worker: bool) | Gone(worker: bool) | Wrong

  /** A generation is used only while it is held; it is released once, and not
      under a running worker. Detached work starts only after the release, other
      work only before. */
  function Next(life: Life, e: Event, detached: bool): Life {
    match e
    case Acquired => if life == Unborn then Held(false) else Wrong
    case Used => if life.Held? then life else Wrong
    case PluginStarts =>
      if detached then (if life == Gone(false) then Gone(true) else Wrong)
      else (if life == Held(false) then Held(true) else Wrong)
    case PluginEnds =>
      if life == Held(true) then Held(false) else if life == Gone(true) then Gone(false) else Wrong
    case Released => if life == Held(false) then Gone(false) else Wrong
  }

  function Lived(journal: seq<Event>, detached: bool): Life {
    if |journal| == 0 then Unborn
    else Next(Lived(journal[..|journal| - 1], detached), journal[|journal| - 1], detached)
  }

  function Count(journal: seq<Event>, e: Event): nat {
    if |journal| == 0 then 0
    else Count(journal[..|journal| - 1], e) + (if journal[|journal| - 1] == e then 1 else 0)
  }

  lemma {:induction false} LifeCounts(journal: seq<Event>, detached: bool)
    requires Lived(journal, detached) != Wrong
    ensures var life := Lived(journal, detached);
      && Count(journal, Acquired) == (if life == Unborn then 0 else 1)
      && Count(journal, Released) == (if life.Gone? then 1 else 0)
      && Count(journal, PluginStarts) == Count(journal, PluginEnds) + (if life == Held(true) || life == Gone(true) then 1 else 0)
  {
    if |journal| > 0 {
      LifeCounts(journal[..|journal| - 1], detached);
    }
  }

  // A journal that is fine was fine all along.
  lemma {:induction false} FineBefore(journal: seq<Event>, n: nat, detached: bool)
    requires Lived(journal, detached) != Wrong && n <= |journal|
    ensures Lived(journal[..n], detached) != Wrong
    decreases |journal|
  {
    if n < |journal| {
      assert journal[..|journal| - 1][..n] == journal[..n];
      FineBefore(journal[..|journal| - 1], n, detached);
    } else {
      assert journal[..n] == journal;
    }
  }

  lemma LifeAt(journal: seq<Event>, i: nat, detached: bool)
    requires Lived(journal, detached) != Wrong && i < |journal|
    ensures Lived(journal[..i], detached) != Wrong
    ensures Lived(journal[..i + 1], detached) == Next(Lived(journal[..i], detached), journal[i], detached) != Wrong
  {
    FineBefore(journal, i, detached);
    FineBefore(journal, i + 1, detached);
    assert journal[..i + 1][..i] == journal[..i];
  }

  lemma {:induction false} GoneStaysGone(journal: seq<Event>, i: nat, detached: bool)
    requires Lived(journal, detached) != Wrong && i <= |journal| && Lived(journal[..i], detached).Gone?
    ensures Lived(journal, detached).Gone?
    decreases |journal|
  {
    if i < |journal| {
      FineBefore(journal, |journal| - 1, detached);
      assert journal[..|journal| - 1][..i] == journal[..i];
      GoneStaysGone(journal[..|journal| - 1], i, detached);
    } else {
      assert journal[..i] == journal;
    }
  }

  /** What a finished journal means: one acquisition and one release; nothing uses
      the generation after it; detached work starts after it and joined work has
      ended before it. */
  lemma FinishedJournal(journal: seq<Event>, r: nat, detached: bool)
    requires Lived(journal, detached) == Gone(false) && r < |journal| && journal[r] == Released
    ensures Count(journal, Acquired) == 1 && Count(journal, Released) == 1
    ensures forall i :: 0 <= i < |journal| && (journal[i] == Used || journal[i] == Acquired) ==> i < r
    ensures detached ==> forall i :: 0 <= i < |journal| && journal[i] == PluginStarts ==> i > r
    ensures !detached ==> forall i :: 0 <= i < |journal| && journal[i] == PluginStarts ==> i < r
    ensures Count(journal[..r], PluginStarts) == Count(journal[..r], PluginEnds)
  {
    hide Count;
    LifeCounts(journal, detached);
    LifeAt(journal, r, detached);
    LifeCounts(journal[..r], detached);
    forall i | 0 <= i < |journal|
      ensures journal[i] == Used || journal[i] == Acquired ==> i < r
      ensures journal[i] == PluginStarts ==> if detached then i > r else i < r
    {
      LifeAt(journal, i, detached);
      if i > r {
        assert journal[..i][..r + 1] == journal[..r + 1];
        GoneStaysGone(journal[..i], r + 1, detached);
      } else if i < r {
        assert journal[..r][..i] == journal[..i];
        if Lived(journal[..i], detached).Gone? {
          GoneStaysGone(journal[..r], i, detached);
        }
      }
    }
  }

  // ---- The execution ---------------------------------------------------------

  /** How a step into foreign code ends. */
  datatype Stage = Fine | Fails | Panics

  datatype Surroundings = Surroundings(
    acquired: bool,
    cancelledEarly: bool,
    hasRules: bool,
    plan: Stage,
    project: Stage,
    syntaxErrors: bool,
    materialize: Stage,
    generation: Generation,
    memory: Snapshot,
    hasDispatcher: bool,
    native: Stage,
    freeze: Stage,
    cancelledLate: bool,
    cancelledAtEnd: bool,
    dispatch: Stage,
    retain: Stage,
    nativeUses: nat,
    workerEndsAfter: nat)

  datatype PluginKind = NotRun | Joined | Progressive

  datatype Exit = Returned(ok: bool, kind: PluginKind, deferredTask: Option<Task>) | Panicked

  const FAILED: Exit := Returned(false, NotRun, None)

  // ---- When an observation succeeds ------------------------------------------

  predicate SyntaxStops(w: Surroundings, stopOnSyntax: bool) {
    stopOnSyntax && w.hasRules && w.syntaxErrors
  }

  /** There is plugin work: the generation has plugin files and no syntax error
      stops the observation. */
  predicate HasPluginWork(w: Surroundings, stopOnSyntax: bool) {
    !SyntaxStops(w, stopOnSyntax) && w.generation.hasPlugin && |w.generation.files| > 0
  }

  ghost predicate CanFreeze(w: Surroundings, mode: Mode) {
    w.generation.hasPlugin ==>
      WiresAreGood(w.generation, |w.generation.files|) && AllFreeze(w.generation, w.memory, mode != ConcurrentJoined)
  }

  // Everything up to the plugin task goes well.
  ghost predicate PreparesWell(w: Surroundings, mode: Mode, stopOnSyntax: bool) {
    && (w.hasRules ==> w.plan == Fine) && w.project == Fine
    && (!SyntaxStops(w, stopOnSyntax) ==> w.materialize != Panics && CanFreeze(w, mode))
    && (HasPluginWork(w, stopOnSyntax) && mode != ProgressiveAfterNative ==> w.hasDispatcher)
  }

  // So do the native lint, the freezing of fix texts and the dispatch.
  predicate RunsWell(w: Surroundings, mode: Mode, planChanges: bool, stopOnSyntax: bool) {
    && w.native == Fine && !w.cancelledLate
    && match mode
       case ConcurrentJoined => planChanges && !SyntaxStops(w, stopOnSyntax) ==> w.freeze == Fine
       case AfterNativeJoined =>
         || SyntaxStops(w, stopOnSyntax)
         || (&& (planChanges ==> w.freeze == Fine)
             && (HasPluginWork(w, stopOnSyntax) ==> w.dispatch != Panics && !w.cancelledAtEnd && (planChanges ==> w.retain == Fine)))
       case ProgressiveAfterNative => true
  }

  // How a successful observation treats its plugin work.
  function KindOf(mode: Mode, work: bool): PluginKind {
    if !work then NotRun else if mode == ProgressiveAfterNative then Progressive else Joined
  }

  predicate Succeeds(exit: Exit) {
    exit.Returned? && exit.ok
  }

  class Journal {
    var events: seq<Event>
    ghost const detached: bool

    constructor (ghost detached: bool)
      ensures events == [] && this.detached == detached
    {
      events := [];
      this.detached := detached;
    }

    ghost function Life(): Life
      reads this
    {
      Lived(events, detached)
    }

    method Add(e: Event)
      modifies this`events
      ensures Life() == Next(old(Life()), e, detached)
      ensures events == old(events) + [e]
    {
      events := events + [e];
      assert events[..|events| - 1] == old(events);
    }
  }

  /** Releases on the first call only, whoever makes it. */
  class Lease {
    const journal: Journal
    var closed: bool

    ghost predicate Valid()
      reads this, journal
    {
      if closed then journal.Life() == Gone(false) else journal.Life() == Held(false)
    }

    constructor (journal: Journal)
      requires journal.Life() == Held(false)
      ensures Valid() && !closed && this.journal == journal && fresh(this)
    {
      this.journal, closed := journal, false;
    }

    method Close()
      requires Valid()
      modifies this`closed, journal`events
      ensures Valid() && closed
      ensures old(closed) ==> journal.events == old(journal.events)
      ensures !old(closed) ==> journal.events == old(journal.events) + [Released]
    {
      if !closed {
        closed := true;
        journal.Add(Released);
      }
    }
  }

  /** Native lint with the plugin worker beside it. Whatever the native half does,
      the worker has ended when this returns. */
  method ExecuteConcurrent(journal: Journal, task: Task, w: Surroundings) returns (native: Stage, kind: PluginKind)
    requires journal.Life() == Held(false) && !journal.detached
    modifies journal`events
    ensures journal.Life() == Held(false) && native == w.native
    ensures kind == if |task.inputs| > 0 && native != Panics then Joined else NotRun
    ensures Count(journal.events, PluginStarts) == Count(old(journal.events), PluginStarts) + (if |task.inputs| > 0 then 1 else 0)
  {
    hide Count;
    ghost var starts := Count(journal.events, PluginStarts);
    var started, ended := |task.inputs| > 0, false;
    if started {
      CountAdds(journal.events, PluginStarts, PluginStarts);
      journal.Add(PluginStarts);
    }
    // The worker may end before, between or after any of the native uses.
    for used := 0 to w.nativeUses
      invariant journal.Life() == Held(started && !ended) && (ended ==> started)
      invariant Count(journal.events, PluginStarts) == starts + (if started then 1 else 0)
    {
      if started && !ended && used >= w.workerEndsAfter {
        CountAdds(journal.events, PluginEnds, PluginStarts);
        journal.Add(PluginEnds);
        ended := true;
      }
      CountAdds(journal.events, Used, PluginStarts);
      journal.Add(Used);
    }
    native := w.native;
    // Reached on return and on panic alike: cancel, then wait for the worker.
    if started && !ended {
      CountAdds(journal.events, PluginEnds, PluginStarts);
      journal.Add(PluginEnds);
    }
    kind := if started && native != Panics then Joined else NotRun;
  }

  lemma CountAdds(journal: seq<Event>, e: Event, f: Event)
    ensures Count(journal + [e], f) == Count(journal, f) + (if e == f then 1 else 0)
  {
    assert (journal + [e])[..|journal|] == journal;
  }

  /** The plugin half the exit reports is what the journal shows. */
  ghost predicate Reports(exit: Exit, journal: seq<Event>) {
    && Count(journal, PluginStarts) <= 1
    && (exit.Returned? && exit.kind == Joined ==> Count(journal, PluginStarts) == 1)
    && (exit.Returned? && exit.deferredTask.Some? ==> Count(journal, PluginStarts) == 0 && exit.kind == Progressive)
  }

  method ObserveConcurrent(lease: Lease, task: Task, w: Surroundings, planChanges: bool) returns (exit: Exit)
    requires lease.Valid() && !lease.closed && !lease.journal.detached
    requires Count(lease.journal.events, PluginStarts) == 0
    modifies lease`closed, lease.journal`events
    ensures lease.Valid() && Reports(exit, lease.journal.events) && (exit.Returned? ==> exit.deferredTask.None?)
    ensures Succeeds(exit) <==> w.native == Fine && !w.cancelledLate && (planChanges ==> w.freeze == Fine)
    ensures Succeeds(exit) ==> exit.kind == KindOf(ConcurrentJoined, |task.inputs| > 0)
    ensures Count(lease.journal.events, PluginStarts) == if |task.inputs| > 0 then 1 else 0
  {
    hide Count;
    var journal := lease.journal;
    var native, kind := ExecuteConcurrent(journal, task, w);
    if native == Panics {
      return Panicked;
    }
    var ok := native == Fine;
    if ok && planChanges {
      CountAdds(journal.events, Used, PluginStarts);
      journal.Add(Used);
      if w.freeze == Panics {
        return Panicked;
      }
      ok := w.freeze == Fine;
    }
    CountAdds(journal.events, Released, PluginStarts);
    lease.Close();
    return Returned(ok && !w.cancelledLate, kind, None);
  }

  method ObserveAfterNative(lease: Lease, task: Task, w: Surroundings, planChanges: bool, stopOnSyntax: bool) returns (exit: Exit)
    requires lease.Valid() && !lease.closed && lease.journal.detached
    requires Count(lease.journal.events, PluginStarts) == 0
    modifies lease`closed, lease.journal`events
    ensures lease.Valid() && Reports(exit, lease.journal.events) && (exit.Returned? ==> exit.deferredTask.None?)
    ensures Succeeds(exit) <==>
      && w.native == Fine && !w.cancelledLate
      && (SyntaxStops(w, stopOnSyntax)
          || (&& (planChanges ==> w.freeze == Fine)
              && (|task.inputs| > 0 ==> w.dispatch != Panics && !w.cancelledAtEnd && (planChanges ==> w.retain == Fine))))
    ensures Succeeds(exit) ==> exit.kind == KindOf(AfterNativeJoined, |task.inputs| > 0 && !SyntaxStops(w, stopOnSyntax))
    ensures Succeeds(exit) && exit.kind == NotRun ==> Count(lease.journal.events, PluginStarts) == 0
  {
    hide Count;
    var journal := lease.journal;
    CountAdds(journal.events, Used, PluginStarts);
    journal.Add(Used);
    if w.native == Panics {
      return Panicked;
    }
    if w.native == Fails || (stopOnSyntax && w.hasRules && w.syntaxErrors) {
      CountAdds(journal.events, Released, PluginStarts);
      lease.Close();
      return Returned(w.native == Fine && !w.cancelledLate, NotRun, None);
    }
    if planChanges {
      CountAdds(journal.events, Used, PluginStarts);
      journal.Add(Used);
      if w.freeze != Fine {
        return if w.freeze == Panics then Panicked else FAILED;
      }
    }
    CountAdds(journal.events, Released, PluginStarts);
    lease.Close();
    if w.cancelledLate {
      return FAILED;
    }
    if |task.inputs| == 0 {
      return Returned(true, NotRun, None);
    }
    CountAdds(journal.events, PluginStarts, PluginStarts);
    journal.Add(PluginStarts);
    CountAdds(journal.events, PluginEnds, PluginStarts);
    journal.Add(PluginEnds);
    if w.dispatch == Panics {
      return Panicked;
    }
    return Returned(!w.cancelledAtEnd && (!planChanges || w.retain == Fine), Joined, None);
  }

  method ObserveProgressive(lease: Lease, task: Task, w: Surroundings, stopOnSyntax: bool) returns (exit: Exit)
    requires lease.Valid() && !lease.closed && lease.journal.detached
    requires Count(lease.journal.events, PluginStarts) == 0
    requires HoldsNoSource(task.(fixCandidates := []))
    modifies lease`closed, lease.journal`events
    ensures lease.Valid() && Reports(exit, lease.journal.events) && Count(lease.journal.events, PluginStarts) == 0
    ensures exit.Returned? && exit.deferredTask.Some? ==>
      exit.ok && exit.deferredTask == Some(task.(fixCandidates := [])) && lease.closed
    ensures Succeeds(exit) <==> w.native == Fine && !w.cancelledLate
    ensures Succeeds(exit) ==> exit.kind == KindOf(ProgressiveAfterNative, |task.inputs| > 0 && !SyntaxStops(w, stopOnSyntax))
    ensures exit.Returned? ==> (exit.kind == Progressive <==> exit.deferredTask.Some?)
  {
    hide Count;
    var journal := lease.journal;
    CountAdds(journal.events, Used, PluginStarts);
    journal.Add(Used);
    if w.native == Panics {
      return Panicked;
    }
    CountAdds(journal.events, Released, PluginStarts);
    lease.Close();
    if w.native == Fails || w.cancelledLate {
      return FAILED;
    }
    if (stopOnSyntax && w.hasRules && w.syntaxErrors) || |task.inputs| == 0 {
      return Returned(true, NotRun, None);
    }
    return Returned(true, Progressive, Some(task.(fixCandidates := [])));
  }

  // Up to the plugin task: plan, targets, and then the plugin task itself.
  method PrepareTask(journal: Journal, w: Surroundings, mode: Mode, stopOnSyntax: bool)
    returns (exit: Option<Exit>, task: Task)
    requires journal.Life() == Held(false) && Count(journal.events, PluginStarts) == 0
    modifies journal`events
    ensures journal.Life() == Held(false) && Count(journal.events, PluginStarts) == 0
    ensures exit == None || exit == Some(FAILED) || exit == Some(Panicked)
    ensures exit.None? && mode != ConcurrentJoined ==> HoldsNoSource(task.(fixCandidates := []))
    ensures exit.None? && w.generation.hasPlugin && !(stopOnSyntax && w.hasRules && w.syntaxErrors) ==>
      TaskOf(task, w.generation, w.memory, mode != ConcurrentJoined)
    ensures exit.None? <==> PreparesWell(w, mode, stopOnSyntax)
    ensures exit.None? ==> (|task.inputs| > 0 <==> HasPluginWork(w, stopOnSyntax))
  {
    hide Count, TaskOf, WiresAreGood, ProjectsPaths, AllFreeze;
    task := NO_TASK;
    if w.hasRules {
      CountAdds(journal.events, Used, PluginStarts);
      journal.Add(Used);
      if w.plan != Fine {
        exit := Some(if w.plan == Panics then Panicked else FAILED);
        return;
      }
    }
    CountAdds(journal.events, Used, PluginStarts);
    journal.Add(Used);
    if w.project != Fine {
      exit := Some(if w.project == Panics then Panicked else FAILED);
      return;
    }
    if !(stopOnSyntax && w.hasRules && w.syntaxErrors) {
      CountAdds(journal.events, Used, PluginStarts);
      journal.Add(Used);
      if w.materialize == Panics {
        exit := Some(Panicked);
        return;
      }
      var made, _ := MaterializePluginTask(w.generation, w.memory, mode != ConcurrentJoined);
      if made.None? {
        exit := Some(FAILED);
        return;
      }
      task := made.value;
      if mode != ConcurrentJoined && w.generation.hasPlugin {
        DetachedTaskHoldsNoSource(task, w.generation, w.memory);
      }
    }
    if |task.inputs| > 0 && mode != ProgressiveAfterNative && !w.hasDispatcher {
      exit := Some(FAILED);
      return;
    }
    exit := None;
  }

  // What outlives the observation is the frozen plugin task, without its fix candidates.
  ghost predicate DefersTask(task: Task, w: Surroundings) {
    exists frozen :: TaskOf(frozen, w.generation, w.memory, true) && task == frozen.(fixCandidates := [])
  }

  /** Every exit, error and panic included, leaves the journal finished: acquired
      once and released once, in the order `FinishedJournal` spells out. A task
      that outlives the observation points at nothing of the generation. */
  method ExecuteObservation(w: Surroundings, mode: Mode, planChanges: bool, stopOnSyntax: bool)
    returns (exit: Exit, journal: Journal)
    ensures journal.detached == (mode != ConcurrentJoined)
    ensures if w.acquired then Lived(journal.events, mode != ConcurrentJoined) == Gone(false) && Released in journal.events
            else journal.events == [] && exit == FAILED
    ensures Reports(exit, journal.events)
    ensures exit.Returned? && exit.deferredTask.Some? ==> exit.ok && mode == ProgressiveAfterNative && HoldsNoSource(exit.deferredTask.value)
    ensures Succeeds(exit) <==>
      w.acquired && !w.cancelledEarly && PreparesWell(w, mode, stopOnSyntax) && RunsWell(w, mode, planChanges, stopOnSyntax)
    ensures Succeeds(exit) ==>
      && exit.kind == KindOf(mode, HasPluginWork(w, stopOnSyntax))
      && Count(journal.events, PluginStarts) == (if exit.kind == Joined then 1 else 0)
      && (exit.kind == Progressive <==> exit.deferredTask.Some?)
    ensures Succeeds(exit) && exit.deferredTask.Some? ==> DefersTask(exit.deferredTask.value, w)
    ensures mode == ProgressiveAfterNative ==> Count(journal.events, PluginStarts) == 0
  {
    hide TaskOf, PreparesWell, RunsWell, HasPluginWork, DefersTask;
    journal := new Journal(mode != ConcurrentJoined);
    if !w.acquired {
      return FAILED, journal;
    }
    hide Count, Lived, Next;
    exit := ObserveLeased(journal, w, mode, planChanges, stopOnSyntax);
  }

  // The acquired part; its last step is the deferred release.
  method ObserveLeased(journal: Journal, w: Surroundings, mode: Mode, planChanges: bool, stopOnSyntax: bool)
    returns (exit: Exit)
    requires journal.events == [] && journal.detached == (mode != ConcurrentJoined)
    modifies journal`events
    ensures Lived(journal.events, mode != ConcurrentJoined) == Gone(false) && Released in journal.events
    ensures Reports(exit, journal.events)
    ensures exit.Returned? && exit.deferredTask.Some? ==> exit.ok && mode == ProgressiveAfterNative && HoldsNoSource(exit.deferredTask.value)
    ensures Succeeds(exit) <==>
      !w.cancelledEarly && PreparesWell(w, mode, stopOnSyntax) && RunsWell(w, mode, planChanges, stopOnSyntax)
    ensures Succeeds(exit) ==>
      && exit.kind == KindOf(mode, HasPluginWork(w, stopOnSyntax))
      && Count(journal.events, PluginStarts) == (if exit.kind == Joined then 1 else 0)
      && (exit.kind == Progressive <==> exit.deferredTask.Some?)
    ensures Succeeds(exit) && exit.deferredTask.Some? ==> DefersTask(exit.deferredTask.value, w)
    ensures mode == ProgressiveAfterNative ==> Count(journal.events, PluginStarts) == 0
  {
    hide PreparesWell;
    journal.Add(Acquired);
    var lease := new Lease(journal);
    hide TaskOf, HoldsNoSource, Count;
    exit := FAILED;
    if !w.cancelledEarly {
      var early, task := PrepareTask(journal, w, mode, stopOnSyntax);
      if early.Some? {
        exit := early.value;
      } else {
        match mode {
          case ConcurrentJoined =>
            exit := ObserveConcurrent(lease, task, w, planChanges && !(stopOnSyntax && w.hasRules && w.syntaxErrors));
          case AfterNativeJoined => exit := ObserveAfterNative(lease, task, w, planChanges, stopOnSyntax);
          case ProgressiveAfterNative => exit := ObserveProgressive(lease, task, w, stopOnSyntax);
        }
      }
    }
    CountAdds(journal.events, Released, PluginStarts);
    lease.Close();
    GoneHasRelease(journal.events, journal.detached);
  }

  /** Presenting a progressive observation: its task is never refused, the
      baseline always comes first, and cancellation only drops the enrichment. */
  method PresentProgressiveLint(deferredTask: Option<Task>, cancelled: bool)
    returns (published: bool, submitted: Option<DeferredRun>)
    requires deferredTask.Some? ==> HoldsNoSource(deferredTask.value)
    ensures published && (submitted.Some? <==> deferredTask.Some? && !cancelled)
    ensures submitted.Some? ==> submitted.value.Valid() && submitted.value.task == deferredTask.value && !submitted.value.ran
  {
    published, submitted := false, None;
    var enrichment: Option<DeferredRun> := None;
    if deferredTask.Some? {
      enrichment := NewDeferredPluginRun(deferredTask.value);
      if enrichment.None? {
        return;
      }
    }
    published := true;
    if !cancelled {
      submitted := enrichment;
    }
  }

  lemma {:induction false} GoneHasRelease(journal: seq<Event>, detached: bool)
    requires Lived(journal, detached).Gone?
    ensures Released in journal
  {
    if journal[|journal| - 1] != Released {
      GoneHasRelease(journal[..|journal| - 1], detached);
    }
  }
}
