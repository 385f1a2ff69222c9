/** What becomes of a tracked response: it can always be brought to its end, and
    a receipt that reports success stands for the very bytes the handler returned. */
module ChannelReceipts {
  import opened Wrappers
  import opened Bytes
  import opened Frames
  import opened Channel
  import opened ChannelSafety
  import opened ChannelRuns

  // ---- Progress --------------------------------------------------------------

  /** A bound on the steps a thread has left. */
  function Rank(pc: Pc): nat {
    match pc
    case Requesting(_) => 14
    case Handling => 14
    case WantLock(_, _) => 13
    case Admission(_, _) => 12
    case WritingHeader(_, _) => 11
    case WritingBody(_, _) => 10
    case Sealing(_, _) => 9
    case Publishing(_) => 8
    case Unlocking(_, _) => 7
    case Closing(_) => 6
    case ClosingDone(_) => 5
    case FailingReceipt(_) => 4
    case Returned(_, _) => 3
    case Awaiting(_) => 2
    case Forgetting(_) => 1
    case Closer => 2
    case CloserDone => 1
    case Done => 0
  }

  // The thread still has this body to write.
  predicate HasBody(pc: Pc) {
    pc.WantLock? || pc.Admission? || pc.WritingHeader? || pc.WritingBody?
  }

  // How one step moves a thread: forwards, and with the body it had.
  predicate Follows(pc: Pc, pc': Pc) {
    && Rank(pc') < Rank(pc)
    && !pc'.Handling? && !pc'.Requesting?
    && (HasBody(pc') && !pc.Handling? && !pc.Requesting? ==> HasBody(pc) && pc'.body == pc.body)
  }

  lemma BytesFollow(s: State, step: Step)
    requires Enabled(s, step) && PutsBytes(step)
    ensures step.t in s.threads && step.t in Exec(s, step).threads
    ensures Follows(s.threads[step.t], Exec(s, step).threads[step.t])
  {
    hide Header, Writable, HeaderBytes, BodyBytes, FrameComplete, ExecRead, RequestWritten, ExecCall;
  }

  lemma CloseFollows(s: State, step: Step)
    requires Enabled(s, step) && (step.CloseChannel? || step.CloseDone? || step.FailReceipt?)
    ensures step.t in s.threads && step.t in Exec(s, step).threads
    ensures Follows(s.threads[step.t], Exec(s, step).threads[step.t])
  {
    hide Header, Writable, HeaderBytes, BodyBytes, FrameComplete, ExecRead, RequestWritten, ExecCall;
  }

  lemma LockFollows(s: State, step: Step)
    requires Enabled(s, step) && (step.Acquire? || step.Admit? || step.Seal? || step.Publish? || step.Release?)
    ensures step.t in s.threads && step.t in Exec(s, step).threads
    ensures Follows(s.threads[step.t], Exec(s, step).threads[step.t])
  {
    hide Header, Writable, HeaderBytes, BodyBytes, FrameComplete, ExecRead, RequestWritten, ExecCall;
  }

  lemma ReturnFollows(s: State, step: Step)
    requires Enabled(s, step) && step.Return?
    ensures step.t in s.threads && step.t in Exec(s, step).threads
    ensures Follows(s.threads[step.t], Exec(s, step).threads[step.t])
  {
    hide Header, Writable, HeaderBytes, BodyBytes, FrameComplete, ExecRead, RequestWritten, ExecWrite;
  }

  lemma CallFollows(s: State, step: Step)
    requires Enabled(s, step) && !IsWrite(step) && !IsRead(step) && !step.Return? && step.t in s.threads
    ensures step.t in s.threads && step.t in Exec(s, step).threads
    ensures Follows(s.threads[step.t], Exec(s, step).threads[step.t])
  {
    hide Header, Writable, HeaderBytes, BodyBytes, FrameComplete, ExecRead, RequestWritten, ExecWrite;
  }

  lemma OwnStepFollows(s: State, step: Step)
    requires Enabled(s, step) && !IsRead(step) && step.t in s.threads
    ensures step.t in Exec(s, step).threads && Follows(s.threads[step.t], Exec(s, step).threads[step.t])
  {
    hide Exec, Enabled, Follows;
    if PutsBytes(step) {
      BytesFollow(s, step);
    } else if step.CloseChannel? || step.CloseDone? || step.FailReceipt? {
      CloseFollows(s, step);
    } else if IsWrite(step) {
      LockFollows(s, step);
    } else if step.Return? {
      ReturnFollows(s, step);
    } else {
      CallFollows(s, step);
    }
  }

  /** No call goes on for ever: each step of a thread lowers its rank. */
  lemma OwnStepAdvances(s: State, step: Step)
    requires Enabled(s, step) && !IsRead(step) && step.t in s.threads
    ensures step.t in Exec(s, step).threads && Rank(Exec(s, step).threads[step.t]) < Rank(s.threads[step.t])
  {
    hide Exec, Enabled;
    OwnStepFollows(s, step);
  }

  /** The next step of a thread that has a frame to write. */
  function NextStep(pc: Pc, t: Thread): Step {
    match pc
    case WantLock(_, _) => Acquire(t)
    case Admission(_, _) => Admit(t)
    case WritingHeader(_, body) => if Writable(body) then WriteHeader(t, 4, false) else WriteHeader(t, 0, true)
    case WritingBody(_, body) => WriteBody(t, |body|, false)
    case Sealing(_, _) => Seal(t)
    case Publishing(_) => Publish(t)
    case Unlocking(_, _) => Release(t)
    case Closing(_) => CloseChannel(t)
    case ClosingDone(_) => CloseDone(t)
    case FailingReceipt(_) => FailReceipt(t)
    case _ => Return(t)
  }

  // The thread whose turn brings the receipt of `t` closer: the one it waits for.
  function Driver(s: State, t: Thread): Thread
    requires t in s.threads
  {
    if s.threads[t].WantLock? && s.writeLock.Some? then s.writeLock.value else t
  }

  /** In every reachable state an open receipt has somebody who can move: its own
      thread, or the holder of the write lock it waits for. */
  lemma OpenReceiptCanMove(s: State, t: Thread)
    requires Reachable(s) && t in s.receipts && s.receipts[t].None?
    ensures t in s.threads && Driver(s, t) in s.threads
    ensures var u := Driver(s, t);
      Enabled(s, NextStep(s.threads[u], u)) && NextStep(s.threads[u], u).t == u && !IsRead(NextStep(s.threads[u], u))
  {
    hide Reachable;
    ReachableHasInv(s);
    InvCanMove(s, t);
  }

  lemma InvCanMove(s: State, t: Thread)
    requires Inv(s) && t in s.receipts && s.receipts[t].None?
    ensures t in s.threads && Driver(s, t) in s.threads
    ensures var u := Driver(s, t);
      Enabled(s, NextStep(s.threads[u], u)) && NextStep(s.threads[u], u).t == u && !IsRead(NextStep(s.threads[u], u))
  {
    hide WireInv, BreakInv, DeliveryInv, AnswerInv, Writable, FrameInv, Ended;
    assert t in s.threads;
    assert ThreadInv(s, t);
    assert JobOf(s.threads[t]).Some?;
    hide ThreadInv, ReceiptInv;
    var u := Driver(s, t);
    if u != t {
      assert Holds(s.threads[u]);
    }
  }

  ghost predicate MovedBy(steps: seq<Step>, t: Thread, holder: Option<Thread>) {
    forall i :: 0 <= i < |steps| ==> !IsRead(steps[i]) && (steps[i].t == t || Some(steps[i].t) == holder)
  }

  // What is left to do for the receipt of `t`.
  function Left(s: State, t: Thread): nat
    requires t in s.threads
  {
    Rank(s.threads[t])
    + if s.writeLock.Some? && s.writeLock.value != t && s.writeLock.value in s.threads then Rank(s.threads[s.writeLock.value]) else 0
  }

  lemma {:induction false} AfterFirst(s: State, step: Step, rest: seq<Step>)
    requires Enabled(s, step)
    ensures StateAfter(s, [step] + rest) == StateAfter(Exec(s, step), rest)
    decreases |rest|
  {
    hide Exec, Enabled;
    var steps := [step] + rest;
    if |rest| == 0 {
      assert steps == [step] && steps[..0] == [];
      assert StateAfter(s, steps[..0]) == Some(s);
    } else {
      assert steps[..|steps| - 1] == [step] + rest[..|rest| - 1];
      AfterFirst(s, step, rest[..|rest| - 1]);
    }
  }

  // One turn of the driver: it stays the driver's lock or becomes free or ours.
  lemma DriverTurn(s: State, t: Thread)
    requires Inv(s) && t in s.receipts && s.receipts[t].None? && t in s.threads && Driver(s, t) in s.threads
    requires Enabled(s, NextStep(s.threads[Driver(s, t)], Driver(s, t)))
    ensures var s' := Exec(s, NextStep(s.threads[Driver(s, t)], Driver(s, t)));
      && t in s'.threads && Left(s', t) < Left(s, t)
      && (s'.writeLock == s.writeLock || s'.writeLock == None || s'.writeLock == Some(t))
  {
    var u := Driver(s, t);
    var step := NextStep(s.threads[u], u);
    InvCanMove(s, t);
    OwnStepAdvances(s, step);
    LockTurn(s, step);
    OthersStay(s, step);
    hide *;
    var s' := Exec(s, step);
    LeftFalls(s, s', t, u);
  }

  lemma LockTurn(s: State, step: Step)
    requires Enabled(s, step) && !IsRead(step)
    ensures var lock := Exec(s, step).writeLock;
      || lock == s.writeLock || (lock == None && s.threads[step.t].Unlocking?)
      || (lock == Some(step.t) && s.threads[step.t].WantLock? && s.writeLock == None)
  {
    hide Header, Writable, HeaderBytes, BodyBytes, FrameComplete, ExecRead, RequestWritten;
    if IsWrite(step) {
      hide ExecCall;
    } else {
      hide ExecWrite;
    }
  }

  lemma OthersStay(s: State, step: Step)
    requires Enabled(s, step) && !IsRead(step)
    ensures step.t in Exec(s, step).threads
    ensures Exec(s, step).threads == s.threads[step.t := Exec(s, step).threads[step.t]]
  {
    hide Exec, Enabled;
    MoverStepIsLocal(s, step);
  }

  lemma LeftFalls(s: State, s': State, t: Thread, u: Thread)
    requires t in s.threads && u in s.threads && t in s'.threads && u in s'.threads
    requires u == t || (s.writeLock == Some(u) && s.threads[t].WantLock?)
    requires s'.threads == s.threads[u := s'.threads[u]] && Rank(s'.threads[u]) < Rank(s.threads[u])
    requires s'.writeLock == s.writeLock || s'.writeLock == None || (s'.writeLock == Some(u) && s.writeLock == None && s.threads[u].WantLock?)
    ensures Left(s', t) < Left(s, t)
    ensures s'.writeLock == s.writeLock || s'.writeLock == None || s'.writeLock == Some(t)
  {
    hide Rank;
  }

  /** Every receipt the handler handed out can be completed: from any reachable
      state its own thread and the present lock holder get it there alone. */
  lemma ReceiptCanComplete(s: State, t: Thread)
    requires Reachable(s) && t in s.receipts
    ensures exists steps :: Completes(s, steps, t)
  {
    hide Reachable, StateAfter, Inv;
    ReachableHasInv(s);
    var steps := Completion(s, t);
  }

  ghost predicate Completes(s: State, steps: seq<Step>, t: Thread) {
    && StateAfter(s, steps).Some? && MovedBy(steps, t, s.writeLock)
    && t in StateAfter(s, steps).value.receipts && StateAfter(s, steps).value.receipts[t].Some?
  }

  lemma {:induction false} Completion(s: State, t: Thread) returns (steps: seq<Step>)
    requires Inv(s) && t in s.receipts
    ensures Completes(s, steps, t)
    decreases if t in s.threads then Left(s, t) + 1 else 0
  {
    if s.receipts[t].Some? {
      steps := [];
      return;
    }
    hide Inv, Exec, Enabled, Left, StateAfter, NextStep, Completes;
    InvCanMove(s, t);
    var u := Driver(s, t);
    var step := NextStep(s.threads[u], u);
    DriverTurn(s, t);
    InvStep(s, step);
    ReceiptStays(s, step, t);
    var rest := Completion(Exec(s, step), t);
    steps := [step] + rest;
    StartWith(s, step, rest, t);
  }

  lemma StartWith(s: State, step: Step, rest: seq<Step>, t: Thread)
    requires Enabled(s, step) && !IsRead(step) && (step.t == t || Some(step.t) == s.writeLock)
    requires var lock := Exec(s, step).writeLock; lock == s.writeLock || lock == None || lock == Some(t)
    requires Completes(Exec(s, step), rest, t)
    ensures Completes(s, [step] + rest, t)
  {
    hide Exec, Enabled, StateAfter;
    AfterFirst(s, step, rest);
  }

  lemma ReceiptStays(s: State, step: Step, t: Thread)
    requires Enabled(s, step) && !IsRead(step) && t in s.receipts
    ensures t in Exec(s, step).receipts
  {
    hide Exec, Enabled;
    MoverStepIsLocal(s, step);
  }

  // ---- The bytes of a response -----------------------------------------------

  // What the handler of thread `t` returned in a run.
  function Answer(steps: seq<Step>, t: Thread): Option<Text> {
    if |steps| == 0 then None
    else
      var last := steps[|steps| - 1];
      if last.HandlerReturns? && last.t == t then Some(last.body) else Answer(steps[..|steps| - 1], t)
  }

  /** Thread `t` writes `body` and nothing else. */
  ghost predicate Carries(s: State, t: Thread, body: Text) {
    && t in s.threads && !s.threads[t].Handling? && !s.threads[t].Requesting?
    && (HasBody(s.threads[t]) ==> s.threads[t].body == body)
    && (forall i :: 0 <= i < |s.out.whole| && s.out.whole[i].thread == t ==> s.out.whole[i].body == body)
  }

  lemma CarriesOn(s: State, step: Step, t: Thread, body: Text)
    requires Enabled(s, step) && Carries(s, t, body)
    ensures Carries(Exec(s, step), t, body)
  {
    hide Exec, Enabled;
    if IsRead(step) {
      ReadIsLocal(s, step);
      OnlyWritesTouchWire(s, step);
      SpawnedIsFresh(s, step);
    } else if step.t != t {
      MoverStepIsLocal(s, step);
      OthersWrite(s, step);
    } else {
      OwnBytes(s, step, body);
    }
  }

  // A step adds at most one whole frame, of the thread that takes it.
  lemma OthersWrite(s: State, step: Step)
    requires Enabled(s, step) && !IsRead(step)
    ensures var whole := Exec(s, step).out.whole;
      whole == s.out.whole
      || (step.t in s.threads && s.threads[step.t].WritingBody?
          && whole == s.out.whole + [Sent(step.t, s.threads[step.t].job, s.threads[step.t].body)])
  {
    if !PutsBytes(step) {
      hide Exec;
      OnlyWritesTouchWire(s, step);
    } else {
      hide Header, Writable, ExecRead, ExecCall;
    }
  }

  lemma OwnBytes(s: State, step: Step, body: Text)
    requires Enabled(s, step) && !IsRead(step) && Carries(s, step.t, body)
    ensures Carries(Exec(s, step), step.t, body)
  {
    hide Exec, Enabled;
    OthersWrite(s, step);
    OwnStepFollows(s, step);
  }

  lemma AnswerStarts(s: State, step: Step)
    requires Inv(s) && Enabled(s, step) && step.HandlerReturns?
    ensures Carries(Exec(s, step), step.t, step.body)
  {
    hide LockInv, BreakInv, DeliveryInv, AnswerInv, ReceiptInv, EncodeAll;
    assert ThreadInv(s, step.t);
    assert forall i :: 0 <= i < |s.out.whole| ==> s.out.whole[i].thread != step.t;
    hide WireInv;
  }

  lemma {:induction false} AnswersAreCarried(steps: seq<Step>, t: Thread)
    requires StateAfter(INITIAL, steps).Some? && Answer(steps, t).Some?
    ensures Carries(StateAfter(INITIAL, steps).value, t, Answer(steps, t).value)
    decreases |steps|
  {
    hide Inv, Enabled, Exec, Carries;
    var before := steps[..|steps| - 1];
    var last := steps[|steps| - 1];
    InitialInv();
    InvAlong(INITIAL, before);
    if last.HandlerReturns? && last.t == t {
      AnswerStarts(StateAfter(INITIAL, before).value, last);
    } else {
      AnswersAreCarried(before, t);
      CarriesOn(StateAfter(INITIAL, before).value, last, t, Answer(steps, t).value);
    }
  }

  // A receipt exists only for what a handler returned.
  lemma {:induction false} ReceiptsAreAnswers(steps: seq<Step>, t: Thread)
    requires StateAfter(INITIAL, steps).Some? && t in StateAfter(INITIAL, steps).value.receipts
    ensures Answer(steps, t).Some?
    decreases |steps|
  {
    hide Exec, Enabled;
    if |steps| > 0 {
      var before, last := steps[..|steps| - 1], steps[|steps| - 1];
      var s := StateAfter(INITIAL, before).value;
      if !(last.HandlerReturns? && last.t == t) {
        NewReceipt(s, last, t);
        ReceiptsAreAnswers(before, t);
      }
    }
  }

  lemma NewReceipt(s: State, step: Step, t: Thread)
    requires Enabled(s, step) && t in Exec(s, step).receipts && !(step.HandlerReturns? && step.t == t)
    ensures t in s.receipts
  {
    if IsRead(step) {
      hide Exec, Enabled;
      ReadIsLocal(s, step);
      SpawnHasNoReceipt(s, step);
    } else {
      hide Header, Writable, HeaderBytes, BodyBytes, FrameComplete, ExecRead, RequestWritten;
      if IsWrite(step) {
        hide ExecCall;
      } else {
        hide ExecWrite;
      }
    }
  }

  lemma SpawnHasNoReceipt(s: State, step: Step)
    requires Enabled(s, step) && IsRead(step)
    ensures Exec(s, step).receipts == s.receipts
  {
    hide Header, Writable, ExecCall, ExecWrite, RequestWritten;
    match step
    case ReceiveResponse(_) =>
    case Dispatch =>
    case ReaderCloses =>
    case _ =>
  }

  /** In every run, a receipt whose thread is done reports success exactly when a
      response frame of that thread is on the wire, and the body of that frame is
      the one its handler returned. */
  lemma SuccessMeansTheAnswerWasSent(steps: seq<Step>, t: Thread)
    requires StateAfter(INITIAL, steps).Some?
    requires var s := StateAfter(INITIAL, steps).value; t in s.receipts && t in s.threads && s.threads[t].Done?
    ensures Answer(steps, t).Some?
    ensures var s := StateAfter(INITIAL, steps).value;
      && s.receipts[t].Some?
      && (s.receipts[t] == Some(true) <==>
            exists i :: 0 <= i < |s.out.whole| && s.out.whole[i].thread == t && s.out.whole[i].job.Response?
                        && s.out.whole[i].body == Answer(steps, t).value)
  {
    var s := StateAfter(INITIAL, steps).value;
    assert Reachable(s);
    ReceiptsAreAnswers(steps, t);
    AnswersAreCarried(steps, t);
    hide StateAfter, Reachable;
    ReceiptsTellTheTruth(s, t);
  }
}
