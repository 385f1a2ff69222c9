/** Plugin work taken out of a source generation, and the single-use run that
    may outlive it. */
module PluginTasks {
  import opened Wrappers

  type Path = string
  type Text = string

  /** A source file of the generation, whose memory dies with it. */
  datatype Frame = Frame(address: nat)

  datatype PlannedFile = PlannedFile(path: Path, frame: Frame)

  datatype Input = Input(path: Path, text: Option<Text>, frame: Option<Frame>)

  datatype Candidate = Candidate(path: Path, frame: Frame)

  datatype Task = Task(
    inputs: seq<Input>,
    targetPathByWire: map<Path, Path>,
    fixCandidates: seq<Candidate>,
    timing: bool)

  const NO_TASK: Task := Task([], map[], [], false)

  /** What a generation says about its plugin files. */
  datatype Generation = Generation(
    hasPlugin: bool,
    files: seq<PlannedFile>,
    wirePath: Path -> Path,
    targetPath: Path -> Path,
    readText: Path -> Option<Text>,
    clones: Path -> bool,
    hostReadsInitialText: bool,
    timing: bool)

  type Snapshot = map<Path, Text>

  /** readGenerationText: changed files come from memory, others from the reader. */
  function GenerationText(g: Generation, memory: Snapshot, target: Path): Option<Text> {
    if target in memory then Some(memory[target]) else g.readText(target)
  }

  function Wire(g: Generation, i: nat): Path requires i < |g.files| { g.wirePath(g.files[i].path) }

  function Target(g: Generation, i: nat): Path requires i < |g.files| { g.targetPath(g.files[i].path) }

  ghost predicate WiresAreGood(g: Generation, n: nat)
    requires n <= |g.files|
  {
    && (forall i :: 0 <= i < n ==> Wire(g, i) != "")
    && (forall i, j :: 0 <= i < j < n ==> Wire(g, i) != Wire(g, j))
  }

  predicate Inline(g: Generation, memory: Snapshot, detached: bool) {
    detached || !g.hostReadsInitialText || memory != map[]
  }

  predicate Freezes(g: Generation, memory: Snapshot, detached: bool, i: nat)
    requires i < |g.files|
  {
    && (Inline(g, memory, detached) ==> GenerationText(g, memory, Target(g, i)).Some?)
    && (detached ==> g.clones(g.files[i].path))
  }

  ghost predicate AllFreeze(g: Generation, memory: Snapshot, detached: bool) {
    forall i :: 0 <= i < |g.files| ==> Freezes(g, memory, detached, i)
  }

  /** The input made from file `i`: its wire path, its frozen text where texts are
      inline, and its frame only while it stays with the generation. */
  function FrozenInput(g: Generation, memory: Snapshot, detached: bool, i: nat): Input
    requires i < |g.files|
  {
    Input(Wire(g, i),
          if Inline(g, memory, detached) then GenerationText(g, memory, Target(g, i)) else None,
          if detached then None else Some(g.files[i].frame))
  }

  ghost predicate ProjectsPaths(g: Generation, byWire: map<Path, Path>, candidates: seq<Candidate>, n: nat)
    requires n <= |g.files|
  {
    && |candidates| == n
    && (forall i :: 0 <= i < n ==> candidates[i] == Candidate(Target(g, i), g.files[i].frame))
    && (forall i :: 0 <= i < n ==> Wire(g, i) in byWire && byWire[Wire(g, i)] == Target(g, i))
    && (forall w :: w in byWire ==> exists i :: 0 <= i < n && Wire(g, i) == w)
  }

  /** The complete path projection is checked before any text is read. */
  method ProjectPaths(g: Generation) returns (byWire: map<Path, Path>, candidates: seq<Candidate>, ok: bool)
    ensures ok <==> WiresAreGood(g, |g.files|)
    ensures ok ==> ProjectsPaths(g, byWire, candidates, |g.files|)
  {
    byWire, candidates := map[], [];
    for i := 0 to |g.files|
      invariant WiresAreGood(g, i) && ProjectsPaths(g, byWire, candidates, i)
    {
      var wirePath := g.wirePath(g.files[i].path);
      assert wirePath == Wire(g, i);
      if wirePath == "" || wirePath in byWire {
        ok := false;
        return;
      }
      var target := g.targetPath(g.files[i].path);
      byWire := byWire[wirePath := target];
      candidates := candidates + [Candidate(target, g.files[i].frame)];
    }
    ok := true;
  }

  /** Everything a plugin task may need is in it: a detached one holds the text of every
      file and no frame among its inputs. */
  ghost predicate TaskOf(task: Task, g: Generation, memory: Snapshot, detached: bool) {
    && |task.inputs| == |g.files|
    && (forall i :: 0 <= i < |g.files| ==> task.inputs[i] == FrozenInput(g, memory, detached, i))
    && ProjectsPaths(g, task.targetPathByWire, task.fixCandidates, |g.files|)
    && task.timing == (!detached && g.timing)
  }

  // Only planned files are read.
  ghost predicate ReadsTargets(g: Generation, textsRead: seq<Path>) {
    forall i :: 0 <= i < |textsRead| ==> exists j :: 0 <= j < |g.files| && textsRead[i] == Target(g, j)
  }

  lemma ReadOneMore(g: Generation, textsRead: seq<Path>, k: nat)
    requires ReadsTargets(g, textsRead) && k < |g.files|
    ensures ReadsTargets(g, textsRead + [Target(g, k)])
  {
    hide Target;
  }

  method MaterializePluginTask(g: Generation, memory: Snapshot, detached: bool)
    returns (task: Option<Task>, textsRead: seq<Path>)
    ensures !g.hasPlugin ==> task == Some(NO_TASK) && textsRead == []
    ensures g.hasPlugin ==> (task.Some? <==>
      WiresAreGood(g, |g.files|) && AllFreeze(g, memory, detached))
    ensures g.hasPlugin && task.Some? ==> TaskOf(task.value, g, memory, detached) && |task.value.inputs| == |g.files|
    ensures g.hasPlugin && !WiresAreGood(g, |g.files|) ==> textsRead == []
    ensures ReadsTargets(g, textsRead)
  {
    textsRead := [];
    if !g.hasPlugin {
      return Some(NO_TASK), [];
    }
    var byWire, candidates, ok := ProjectPaths(g);
    if !ok {
      return None, [];
    }
    assert ReadsTargets(g, textsRead);
    hide WiresAreGood, ProjectsPaths, ReadsTargets;
    var inputs: seq<Input> := [];
    for k := 0 to |g.files|
      invariant |inputs| == k
      invariant forall i :: 0 <= i < k ==> Freezes(g, memory, detached, i) && inputs[i] == FrozenInput(g, memory, detached, i)
      invariant ReadsTargets(g, textsRead)
    {
      var input := Input(g.wirePath(g.files[k].path), None, Some(g.files[k].frame));
      if Inline(g, memory, detached) {
        var target := g.targetPath(g.files[k].path);
        assert target == Target(g, k);
        ReadOneMore(g, textsRead, k);
        textsRead := textsRead + [target];
        var text := GenerationText(g, memory, target);
        if text.None? {
          assert !Freezes(g, memory, detached, k) && !AllFreeze(g, memory, detached);
          task := None;
          return;
        }
        input := input.(text := text);
      }
      if detached {
        if !g.clones(g.files[k].path) {
          assert !Freezes(g, memory, detached, k) && !AllFreeze(g, memory, detached);
          task := None;
          return;
        }
        input := input.(frame := None);
      }
      inputs := inputs + [input];
    }
    assert AllFreeze(g, memory, detached);
    task := Some(Task(inputs, byWire, candidates, !detached && g.timing));
  }

  /** What the plugin host gets for each planned file: its wire path; the text in
      memory, or on disk when memory has none, unless the host reads the unchanged
      files of this very generation itself; and the frame unless detached. */
  lemma InputsAreFrozen(task: Task, g: Generation, memory: Snapshot, detached: bool, i: nat)
    requires TaskOf(task, g, memory, detached) && i < |g.files|
    ensures |task.inputs| == |g.files|
    ensures var file, target := g.files[i], g.targetPath(g.files[i].path);
      && task.inputs[i].path == g.wirePath(file.path)
      && task.inputs[i].frame == (if detached then None else Some(file.frame))
      && task.inputs[i].text ==
           (if !detached && g.hostReadsInitialText && memory == map[] then None
            else if target in memory then Some(memory[target]) else g.readText(target))
  {
    hide ProjectsPaths;
    assert task.inputs[i] == FrozenInput(g, memory, detached, i);
  }

  // ---- Runs that outlive the generation --------------------------------------

  ghost predicate Portable(task: Task) {
    && task.fixCandidates == []
    && (forall i :: 0 <= i < |task.inputs| ==> task.inputs[i].frame.None? && task.inputs[i].text.Some?)
  }

  /** Nothing in the plugin task points into the generation. */
  ghost predicate HoldsNoSource(task: Task) {
    Portable(task) && !task.timing
  }

  lemma DetachedTaskHoldsNoSource(task: Task, g: Generation, memory: Snapshot)
    requires TaskOf(task, g, memory, true)
    requires AllFreeze(g, memory, true)
    ensures HoldsNoSource(task.(fixCandidates := []))
  {
    forall i | 0 <= i < |task.inputs| ensures task.inputs[i].frame.None? && task.inputs[i].text.Some? {
      assert Freezes(g, memory, true, i) && task.inputs[i] == FrozenInput(g, memory, true, i);
    }
  }

  datatype Invocation = Refused | AlreadyInvoked | Ran

  class DeferredRun {
    const task: Task
    var ran: bool
    ghost var dispatches: nat

    /** At most one dispatch, whoever calls and however often. */
    ghost predicate Valid()
      reads this
    {
      dispatches == (if ran then 1 else 0) && Portable(task)
    }

    constructor (task: Task)
      requires Portable(task)
      ensures Valid() && this.task == task && !ran
    {
      this.task, ran, dispatches := task, false, 0;
    }

    method Invoke(hasContext: bool, hasDispatcher: bool) returns (r: Invocation)
      requires Valid()
      modifies this
      ensures Valid() && dispatches <= 1
      ensures r == if !hasContext || !hasDispatcher then Refused else if old(ran) then AlreadyInvoked else Ran
      ensures dispatches == old(dispatches) + (if r == Ran then 1 else 0)
    {
      if !hasContext || !hasDispatcher {
        return Refused;
      }
      if ran {
        return AlreadyInvoked;
      }
      ran := true;
      dispatches := dispatches + 1;
      return Ran;
    }
  }

  /** Refuses a task that still points at a generation, and only that. */
  method NewDeferredPluginRun(task: Task) returns (run: Option<DeferredRun>)
    ensures run.Some? <==> Portable(task)
    ensures run.Some? ==> fresh(run.value) && run.value.Valid() && run.value.task == task && !run.value.ran
  {
    if task.fixCandidates != [] {
      return None;
    }
    for k := 0 to |task.inputs|
      invariant forall i :: 0 <= i < k ==> task.inputs[i].frame.None? && task.inputs[i].text.Some?
    {
      if task.inputs[k].frame.Some? || task.inputs[k].text.None? {
        return None;
      }
    }
    var deferred := new DeferredRun(task);
    return Some(deferred);
  }
}
