/** What holds in every run of the channel, whatever the interleaving. */
module ChannelRuns {
  import opened Wrappers
  import opened Bytes
  import opened Frames
  import opened Channel
  import opened ChannelSafety

  /** The state a sequence of steps leads to, if every one of them was enabled. */
  ghost function StateAfter(start: State, steps: seq<Step>): Option<State> {
    if |steps| == 0 then Some(start)
    else
      var before := StateAfter(start, steps[..|steps| - 1]);
      var last := steps[|steps| - 1];
      if before.Some? && Enabled(before.value, last) then Some(Exec(before.value, last)) else None
  }

  ghost predicate Reachable(s: State) {
    exists steps :: StateAfter(INITIAL, steps) == Some(s)
  }

  lemma {:induction false} InvAlong(start: State, steps: seq<Step>)
    requires Inv(start) && StateAfter(start, steps).Some?
    ensures Inv(StateAfter(start, steps).value)
  {
    hide Inv, Exec, Enabled;
    if |steps| > 0 {
      InvAlong(start, steps[..|steps| - 1]);
      InvStep(StateAfter(start, steps[..|steps| - 1]).value, steps[|steps| - 1]);
    }
  }

  lemma ReachableHasInv(s: State)
    requires Reachable(s)
    ensures Inv(s)
  {
    hide Inv, StateAfter;
    var steps :| StateAfter(INITIAL, steps) == Some(s);
    InitialInv();
    InvAlong(INITIAL, steps);
  }

  /** In every reachable state the outbound bytes are whole frames followed by at
      most the beginning of one more. */
  lemma WireIsFrames(s: State)
    requires Reachable(s)
    ensures AllWritable(Bodies(s.out.whole)) && s.out.wire == EncodeAll(Bodies(s.out.whole)) + s.out.tail
    ensures exists body :: PartialFrame(s.out.tail, body)
  {
    hide EncodeAll, Reachable;
    ReachableHasInv(s);
    var body := if s.out.broken.Some? then s.out.broken.value.body
                else if s.writeLock.Some? && s.threads[s.writeLock.value].WritingBody? then s.threads[s.writeLock.value].body
                else [];
    assert PartialFrame(s.out.tail, body);
  }

  /** Nothing ever follows a failed write or an accepted terminal response. */
  lemma {:induction false} NothingFollowsTheEnd(s: State, steps: seq<Step>)
    requires Reachable(s) && Ended(s.out) && StateAfter(s, steps).Some?
    ensures StateAfter(s, steps).value.out == s.out
  {
    hide Inv, Exec, Enabled, Reachable, Ended;
    ReachableHasInv(s);
    if |steps| > 0 {
      var before := steps[..|steps| - 1];
      NothingFollowsTheEnd(s, before);
      InvAlong(s, before);
      EndedStaysSilent(StateAfter(s, before).value, steps[|steps| - 1]);
    }
  }

  /** When the thread of a tracked response is done, its receipt is completed,
      and positively exactly when the intended frame was written completely. */
  lemma ReceiptsTellTheTruth(s: State, t: Thread)
    requires Reachable(s) && t in s.receipts && t in s.threads && s.threads[t].Done?
    ensures s.receipts[t].Some?
    ensures s.receipts[t] == Some(true) <==>
      exists i :: 0 <= i < |s.out.whole| && s.out.whole[i].thread == t && s.out.whole[i].job.Response?
  {
    hide Reachable, LockInv, DeliveryInv, AnswerInv, EncodeAll, ThreadsKnown;
    ReachableHasInv(s);
    assert ThreadInv(s, t);
    if t in s.out.sent && s.out.sent[t].Response? {
      var i :| 0 <= i < |s.out.whole| && s.out.whole[i].thread == t;
      assert s.out.whole[i].job == s.out.sent[t];
    }
  }

  /** A completed receipt never changes again. */
  lemma ReceiptsCompleteOnce(s: State, step: Step, t: Thread)
    requires Reachable(s) && Enabled(s, step) && t in s.receipts && s.receipts[t].Some?
    ensures t in Exec(s, step).receipts && Exec(s, step).receipts[t] == s.receipts[t]
  {
    hide Reachable, Inv, Exec, Enabled;
    ReachableHasInv(s);
    if IsRead(step) {
      ReadIsLocal(s, step);
      SpawnedIsNew(s, step, t);
    } else if step.t != t {
      MoverStepIsLocal(s, step);
    } else {
      HandlerHasNoReceipt(s, step);
      OnlyCompletes(s, step, t);
    }
  }

  lemma HandlerHasNoReceipt(s: State, step: Step)
    requires Inv(s) && Enabled(s, step)
    ensures step.HandlerReturns? ==> step.t !in s.receipts
  {
    hide WireInv, LockInv, DeliveryInv, AnswerInv, ThreadsKnown;
    if step.HandlerReturns? {
      assert ThreadInv(s, step.t);
    }
  }

  lemma SpawnedIsNew(s: State, step: Step, t: Thread)
    requires Inv(s) && Enabled(s, step) && IsRead(step) && t in s.receipts
    ensures step.ReceiveRequest? || step.ReceiveUnhandled? ==> step.t != t
  {
    hide WireInv, LockInv, DeliveryInv, AnswerInv, ThreadInv;
  }

  lemma MoverStepIsLocal(s: State, step: Step)
    requires Enabled(s, step) && !IsRead(step)
    ensures Local(s, Exec(s, step), step.t)
  {
    hide Exec, Enabled, Local;
    if IsWrite(step) {
      WriteIsLocal(s, step);
    } else {
      CallIsLocal(s, step);
    }
  }

  lemma OnlyCompletes(s: State, step: Step, t: Thread)
    requires Enabled(s, step) && !IsRead(step) && !step.HandlerReturns? && step.t == t
    requires t in s.receipts && s.receipts[t].Some?
    ensures Exec(s, step).receipts == s.receipts
  {
    hide Header, Writable, HeaderBytes, BodyBytes, FrameComplete, ExecRead, RequestWritten;
    if IsWrite(step) {
      hide ExecCall;
    } else {
      hide ExecWrite;
    }
  }

  /** Request ids are never reused. */
  lemma IdsAreFresh(s: State, t: Thread)
    requires Reachable(s) && Enabled(s, Register(t)) && !s.closed
    ensures s.table.nextID !in s.table.issued
    ensures Exec(s, Register(t)).table.issued == s.table.issued[s.table.nextID := t]
  {
    hide Reachable, WireInv, LockInv, AnswerInv, ThreadInv, ThreadsKnown;
    ReachableHasInv(s);
  }

  /** A response reaches only the request that carries its id, no two requests
      ever receive the same one, and the hand-over never blocks: the buffer of a
      request is empty whenever the reader is about to fill it, and was never
      filled before. */
  lemma ResponsesReachTheirRequest(s: State)
    requires Reachable(s)
    ensures forall t :: t in s.table.results ==>
      s.table.results[t].id in s.table.issued && s.table.issued[s.table.results[t].id] == t
    ensures forall t, u :: t in s.table.results && u in s.table.results && s.table.results[t].id == s.table.results[u].id ==> t == u
    ensures s.table.reader.Delivering? ==>
      s.table.reader.msg.id !in s.table.inbox
      && forall t :: t in s.table.results ==> s.table.results[t].id != s.table.reader.msg.id
  {
    hide Reachable, WireInv, LockInv, AnswerInv, ThreadInv, ThreadsKnown;
    ReachableHasInv(s);
  }

  /** While the peer answers each request it received exactly once, no answer is
      an orphan unless that request was cancelled or the channel closed. */
  lemma HonestAnswersAreNotOrphans(s: State, id: nat)
    requires Reachable(s) && s.table.honest && id in s.table.orphans
    ensures id in s.table.cancelled || s.closed
  {
    hide Reachable, WireInv, LockInv, DeliveryInv, ThreadInv, ThreadsKnown;
    ReachableHasInv(s);
  }
}
