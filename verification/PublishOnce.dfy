/** The publish-once cache under concurrent callers: load, load-or-store, then the
    stored once-value, which runs its initialiser at most once. */
module PublishOnce {
  import opened Wrappers

  type Key = string
  type Value = string
  type Thread = nat
  type Slot = nat

  datatype Once = Untouched | Running(thread: Thread) | Done(value: Value)

  datatype Pc =
    | Idle
    | Looking(key: Key)
    | Storing(key: Key, slot: Slot)
    | Calling(key: Key, slot: Slot)
    | Initialising(key: Key, slot: Slot)
    | Returned(key: Key, value: Value)

  /** `runs` is the history: every value an initialiser produced, by key. */
  datatype State = State(
    entries: map<Key, Slot>,
    slots: seq<Once>,
    threads: map<Thread, Pc>,
    runs: seq<(Key, Value)>)

  const INITIAL: State := State(map[], [], map[], [])

  function At(s: State, t: Thread): Pc {
    if t in s.threads then s.threads[t] else Idle
  }

  function Goto(s: State, t: Thread, pc: Pc): State {
    s.(threads := s.threads[t := pc])
  }

  datatype Step =
    | Call(t: Thread, key: Key)
    | Load(t: Thread)
    | LoadOrStore(t: Thread)
    | Enter(t: Thread)
    | Initialised(t: Thread, value: Value)
    | Leave(t: Thread)

  predicate Enabled(s: State, step: Step) {
    var pc := At(s, step.t);
    match step
    case Call(_, _) => pc.Idle?
    case Load(_) => pc.Looking?
    case LoadOrStore(_) => pc.Storing?
    case Enter(_) => pc.Calling? && pc.slot < |s.slots| && !s.slots[pc.slot].Running?
    case Initialised(_, _) => pc.Initialising? && pc.slot < |s.slots|
    case Leave(_) => pc.Returned?
  }

  function Exec(s: State, step: Step): State
    requires Enabled(s, step)
  {
    var pc := At(s, step.t);
    match step
    case Call(t, key) => Goto(s, t, Looking(key))
    case Load(t) =>
      if pc.key in s.entries then Goto(s, t, Calling(pc.key, s.entries[pc.key]))
      else Goto(s.(slots := s.slots + [Untouched]), t, Storing(pc.key, |s.slots|))
    case LoadOrStore(t) =>
      if pc.key in s.entries then Goto(s, t, Calling(pc.key, s.entries[pc.key]))
      else Goto(s.(entries := s.entries[pc.key := pc.slot]), t, Calling(pc.key, pc.slot))
    case Enter(t) =>
      if s.slots[pc.slot].Done? then Goto(s, t, Returned(pc.key, s.slots[pc.slot].value))
      else Goto(s.(slots := s.slots[pc.slot := Running(t)]), t, Initialising(pc.key, pc.slot))
    case Initialised(t, value) =>
      Goto(s.(slots := s.slots[pc.slot := Done(value)], runs := s.runs + [(pc.key, value)]), t, Returned(pc.key, value))
    case Leave(t) => Goto(s, t, Idle)
  }

  // ---- The invariant ---------------------------------------------------------

  ghost predicate ThreadIsSound(s: State, t: Thread) {
    var pc := At(s, t);
    match pc
    case Idle => true
    case Looking(_) => true
    case Storing(key, slot) => slot < |s.slots| && s.slots[slot] == Untouched && forall k :: k in s.entries ==> s.entries[k] != slot
    case Calling(key, slot) => key in s.entries && s.entries[key] == slot
    case Initialising(key, slot) => key in s.entries && s.entries[key] == slot && slot < |s.slots| && s.slots[slot] == Running(t)
    case Returned(key, value) => key in s.entries && s.entries[key] < |s.slots| && s.slots[s.entries[key]] == Done(value)
  }

  /** A key has been initialised exactly as its slot says: never, or once. */
  ghost predicate RunsAreSound(s: State) {
    && (forall i :: 0 <= i < |s.runs| ==>
          s.runs[i].0 in s.entries && s.entries[s.runs[i].0] < |s.slots| && s.slots[s.entries[s.runs[i].0]] == Done(s.runs[i].1))
    && (forall i, j :: 0 <= i < j < |s.runs| ==> s.runs[i].0 != s.runs[j].0)
    && (forall k :: k in s.entries && s.entries[k] < |s.slots| && s.slots[s.entries[k]].Done? ==>
          exists i :: 0 <= i < |s.runs| && s.runs[i] == (k, s.slots[s.entries[k]].value))
  }

  ghost predicate EntriesAreSound(s: State) {
    && (forall k :: k in s.entries ==> s.entries[k] < |s.slots|)
    && (forall k, l :: k in s.entries && l in s.entries && k != l ==> s.entries[k] != s.entries[l])
    && (forall t, u :: t != u && At(s, t).Storing? && At(s, u).Storing? ==> At(s, t).slot != At(s, u).slot)
  }

  ghost predicate Inv(s: State) {
    EntriesAreSound(s) && RunsAreSound(s) && forall t :: ThreadIsSound(s, t)
  }

  lemma StepKeepsEntries(s: State, step: Step)
    requires Inv(s) && Enabled(s, step)
    ensures EntriesAreSound(Exec(s, step))
  {
    hide RunsAreSound;
    var r := Exec(s, step);
    assert ThreadIsSound(s, step.t);
    forall t, u | t != u && At(r, t).Storing? && At(r, u).Storing? ensures At(r, t).slot != At(r, u).slot {
      assert ThreadIsSound(s, t) && ThreadIsSound(s, u);
    }
  }

  lemma StepKeepsRuns(s: State, step: Step)
    requires Inv(s) && Enabled(s, step)
    ensures RunsAreSound(Exec(s, step))
  {
    assert ThreadIsSound(s, step.t);
    if step.Initialised? {
      InitialisedKeepsRuns(s, step);
    } else if step.Load? {
      var r := Exec(s, step);
      assert r.runs == s.runs && r.entries == s.entries && s.slots <= r.slots;
    } else if step.LoadOrStore? {
      var r := Exec(s, step);
      assert r.runs == s.runs && r.slots == s.slots;
    }
  }

  lemma InitialisedKeepsRuns(s: State, step: Step)
    requires Inv(s) && Enabled(s, step) && step.Initialised?
    ensures RunsAreSound(Exec(s, step))
  {
    var r := Exec(s, step);
    assert ThreadIsSound(s, step.t);
    var pc := At(s, step.t);
    hide ThreadIsSound;
    assert r.runs[|s.runs|] == (pc.key, step.value);
    forall k | k in r.entries && r.slots[r.entries[k]].Done?
      ensures exists i :: 0 <= i < |r.runs| && r.runs[i] == (k, r.slots[r.entries[k]].value)
    {
      if k != pc.key {
        var i :| 0 <= i < |s.runs| && s.runs[i] == (k, s.slots[s.entries[k]].value);
        assert r.runs[i] == s.runs[i];
      }
    }
  }

  lemma StepKeepsThreads(s: State, step: Step, t: Thread)
    requires Inv(s) && Enabled(s, step)
    ensures ThreadIsSound(Exec(s, step), t)
  {
    hide RunsAreSound;
    assert ThreadIsSound(s, t) && ThreadIsSound(s, step.t);
  }

  lemma StepKeepsInv(s: State, step: Step)
    requires Inv(s) && Enabled(s, step)
    ensures Inv(Exec(s, step))
  {
    hide *;
    StepKeepsEntries(s, step);
    StepKeepsRuns(s, step);
    forall t ensures ThreadIsSound(Exec(s, step), t) {
      StepKeepsThreads(s, step, t);
    }
    Assemble(Exec(s, step));
  }

  lemma Assemble(s: State)
    requires EntriesAreSound(s) && RunsAreSound(s) && forall t :: ThreadIsSound(s, t)
    ensures Inv(s)
  {
    hide EntriesAreSound, RunsAreSound, ThreadIsSound;
  }

  // ---- Whole runs ------------------------------------------------------------

  function After(steps: seq<Step>): Option<State> {
    if |steps| == 0 then Some(INITIAL)
    else
      var before := After(steps[..|steps| - 1]);
      if before.Some? && Enabled(before.value, steps[|steps| - 1])
      then Some(Exec(before.value, steps[|steps| - 1])) else None
  }

  lemma {:induction false} RunKeepsInv(steps: seq<Step>)
    requires After(steps).Some?
    ensures Inv(After(steps).value)
  {
    if |steps| > 0 {
      hide Inv, Exec;
      RunKeepsInv(steps[..|steps| - 1]);
      StepKeepsInv(After(steps[..|steps| - 1]).value, steps[|steps| - 1]);
    }
  }

  /** However callers interleave, a key is initialised at most once, and every
      caller that returns has the value of that one initialisation. */
  lemma EveryCallerSeesTheOneValue(steps: seq<Step>, t: Thread)
    requires After(steps).Some? && At(After(steps).value, t).Returned?
    ensures var s := After(steps).value;
      var pc := At(s, t);
      && (exists i :: 0 <= i < |s.runs| && s.runs[i] == (pc.key, pc.value))
      && (forall i, j :: 0 <= i < |s.runs| && 0 <= j < |s.runs| && s.runs[i].0 == s.runs[j].0 ==> i == j)
  {
    hide After, Enabled;
    RunKeepsInv(steps);
    assert ThreadIsSound(After(steps).value, t);
  }

  /** A caller never waits on a slot nobody is initialising. */
  lemma WaitingMeansSomeoneWorks(steps: seq<Step>, t: Thread)
    requires After(steps).Some? && At(After(steps).value, t).Calling? && !Enabled(After(steps).value, Enter(t))
    ensures var s := After(steps).value;
      exists u :: At(s, u).Initialising? && At(s, u).key == At(s, t).key
  {
    RunKeepsWorkers(steps);
    RunKeepsInv(steps);
    var s := After(steps).value;
    hide After;
    assert ThreadIsSound(s, t);
    var slot := At(s, t).slot;
    var u := s.slots[slot].thread;
    assert ThreadIsSound(s, u);
  }

  // A running slot is being run by the thread it names.
  ghost predicate WorkersAreSound(s: State) {
    forall i :: 0 <= i < |s.slots| && s.slots[i].Running? ==> At(s, s.slots[i].thread).Initialising? && At(s, s.slots[i].thread).slot == i
  }

  lemma StepKeepsWorkers(s: State, step: Step)
    requires Inv(s) && WorkersAreSound(s) && Enabled(s, step)
    ensures WorkersAreSound(Exec(s, step))
  {
    hide RunsAreSound;
    assert ThreadIsSound(s, step.t);
  }

  lemma {:induction false} RunKeepsWorkers(steps: seq<Step>)
    requires After(steps).Some?
    ensures WorkersAreSound(After(steps).value)
  {
    if |steps| > 0 {
      hide Inv, Exec, WorkersAreSound;
      RunKeepsWorkers(steps[..|steps| - 1]);
      RunKeepsInv(steps[..|steps| - 1]);
      StepKeepsWorkers(After(steps[..|steps| - 1]).value, steps[|steps| - 1]);
    }
  }

  /** Nobody is stuck: a caller that has not returned can take its next step, or
      another one is initialising its key and can finish with whatever it finds. */
  lemma SomeoneCanMove(steps: seq<Step>, t: Thread, value: Value)
    requires After(steps).Some? && !At(After(steps).value, t).Idle?
    ensures var s := After(steps).value;
      || (exists step: Step :: step.t == t && Enabled(s, step))
      || (exists u :: At(s, u).Initialising? && At(s, u).key == At(s, t).key && Enabled(s, Initialised(u, value)))
  {
    RunKeepsInv(steps);
    var s := After(steps).value;
    assert ThreadIsSound(s, t);
    var pc := At(s, t);
    match pc
    case Looking(_) => assert Enabled(s, Load(t));
    case Storing(_, _) => assert Enabled(s, LoadOrStore(t));
    case Calling(_, _) =>
      if !Enabled(s, Enter(t)) {
        WaitingMeansSomeoneWorks(steps, t);
        var u :| At(s, u).Initialising? && At(s, u).key == pc.key;
        assert ThreadIsSound(s, u);
      }
    case Initialising(_, _) => assert Enabled(s, Initialised(t, value));
    case Returned(_, _) => assert Enabled(s, Leave(t));
  }

  // How far a call has got.
  function Stage(pc: Pc): nat {
    match pc
    case Idle => 5
    case Looking(_) => 4
    case Storing(_, _) => 3
    case Calling(_, _) => 2
    case Initialising(_, _) => 1
    case Returned(_, _) => 0
  }

  /** Each step brings a call closer to its return, with its key, and touches no
      other caller; only an initialiser adds to the history. */
  lemma StepAdvances(s: State, step: Step)
    requires Enabled(s, step)
    ensures !step.Leave? ==> Stage(At(Exec(s, step), step.t)) < Stage(At(s, step.t))
    ensures step.Call? ==> At(Exec(s, step), step.t) == Looking(step.key)
    ensures !step.Leave? && !step.Call? ==> At(Exec(s, step), step.t).key == At(s, step.t).key
    ensures forall u :: u != step.t ==> At(Exec(s, step), u) == At(s, u)
    ensures Exec(s, step).runs == if step.Initialised? then s.runs + [(At(s, step.t).key, step.value)] else s.runs
  {}

  /** A key that has been initialised is served from its slot. */
  lemma InitialisedKeysAreServed(steps: seq<Step>, t: Thread, i: nat)
    requires After(steps).Some? && i < |After(steps).value.runs|
    requires At(After(steps).value, t) == Looking(After(steps).value.runs[i].0)
    ensures var s := After(steps).value;
      && Enabled(s, Load(t)) && Enabled(Exec(s, Load(t)), Enter(t))
      && At(Exec(Exec(s, Load(t)), Enter(t)), t) == Returned(s.runs[i].0, s.runs[i].1)
      && Exec(Exec(s, Load(t)), Enter(t)).runs == s.runs
  {
    RunKeepsInv(steps);
    hide After;
  }
}
