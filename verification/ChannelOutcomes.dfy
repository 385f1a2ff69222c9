/** Why a call ends: a channel refuses or gives up only for a reason, forgets the
    calls that are over, and lets go of those that wait when it closes. */
module ChannelOutcomes {
  import opened Wrappers
  import opened Bytes
  import opened Frames
  import opened Channel
  import opened ChannelSafety
  import opened ChannelRuns
  import opened ChannelReceipts

  // ---- The seal --------------------------------------------------------------

  // The write of the thread did not succeed.
  predicate Failed(pc: Pc) {
    || (pc.Unlocking? && !pc.outcome.Accepted?) || pc.Closing? || pc.ClosingDone? || pc.FailingReceipt?
    || (pc.Returned? && !pc.ok)
  }

  // Somebody is about to wake the waiting callers.
  ghost predicate Waking(s: State) {
    s.table.reader.ClosingReader? || exists t :: t in s.threads && (s.threads[t].ClosingDone? || s.threads[t].CloserDone?)
  }

  /** Writes are refused only after the end of the stream or the close, and a
      closed channel has woken its callers or is about to. */
  ghost predicate SealInv(s: State) {
    && (s.sealed ==> Ended(s.out) || s.closed)
    && (s.closed ==> s.sealed)
    && (s.doneClosed ==> s.closed)
    && (s.closed && !s.doneClosed ==> Waking(s))
    && (s.table.reader.ClosingReader? ==> s.closed)
  }

  /** What the end of a thread tells: it wrote its frame or writes were refused,
      and a request that was written got its answer, was cancelled or saw the close. */
  ghost predicate Told(s: State, t: Thread)
    requires t in s.threads
  {
    var pc := s.threads[t];
    && (Failed(pc) ==> s.sealed)
    && (BreakingOff(pc) ==> s.out.broken.Some?)
    && (pc.ClosingDone? || pc.CloserDone? ==> s.closed)
    && (pc.Done? ==> t in s.out.sent || s.sealed)
    && (pc.Done? && t in s.out.sent && s.out.sent[t].Request? ==>
          t in s.table.results || s.out.sent[t].id in s.table.cancelled || s.closed)
  }

  // What no step takes back.
  ghost predicate Grows(s: State, s': State) {
    && (s.sealed ==> s'.sealed) && (s.closed ==> s'.closed) && (s.doneClosed ==> s'.doneClosed)
    && (s.out.broken.Some? ==> s'.out.broken.Some?)
    && s.out.sent.Keys <= s'.out.sent.Keys
    && s.table.results.Keys <= s'.table.results.Keys && s.table.cancelled <= s'.table.cancelled
  }

  lemma CallGrows(s: State, step: Step)
    requires Enabled(s, step) && !IsRead(step) && !IsWrite(step)
    ensures Grows(s, Exec(s, step)) && Exec(s, step).out == s.out
    ensures Exec(s, step).sealed == s.sealed && Exec(s, step).closed == s.closed && Exec(s, step).doneClosed == s.doneClosed
  {
    hide ExecRead, ExecWrite, Header, Writable, RequestWritten;
  }

  lemma ReadGrows(s: State, step: Step)
    requires Enabled(s, step) && IsRead(step)
    ensures Grows(s, Exec(s, step)) && Exec(s, step).out == s.out
    ensures step.ReaderCloses? || step.ReaderDone?
      || (Exec(s, step).sealed == s.sealed && Exec(s, step).closed == s.closed && Exec(s, step).doneClosed == s.doneClosed)
  {
    hide ExecCall, ExecWrite, Header, Writable, RequestWritten;
    if step.ReceiveResponse? {
      assert Grows(s, Exec(s, step));
    } else if step.Dispatch? {
      assert Grows(s, Exec(s, step));
    } else if step.Deliver? {
      assert Grows(s, Exec(s, step));
    }
  }

  lemma BytesGrow(s: State, step: Step)
    requires Enabled(s, step) && PutsBytes(step)
    ensures Grows(s, Exec(s, step))
    ensures Exec(s, step).sealed == s.sealed && Exec(s, step).closed == s.closed && Exec(s, step).doneClosed == s.doneClosed
  {
    hide ExecCall, ExecRead, Header, Writable, RequestWritten;
    if step.WriteHeader? {
      hide BodyBytes, FrameComplete;
    } else {
      hide HeaderBytes;
    }
  }

  lemma LockGrows(s: State, step: Step)
    requires Enabled(s, step) && (step.Acquire? || step.Admit? || step.Seal? || step.Publish? || step.Release?)
    ensures Grows(s, Exec(s, step)) && Exec(s, step).out == s.out
    ensures Exec(s, step).closed == s.closed && Exec(s, step).doneClosed == s.doneClosed
    ensures Exec(s, step).sealed == s.sealed
      || (step.Seal? && (s.threads[step.t].outcome.Broke? || IsTerminal(s.threads[step.t].job)))
  {
    hide ExecCall, ExecRead, HeaderBytes, BodyBytes, FrameComplete;
  }

  lemma CloseGrows(s: State, step: Step)
    requires Enabled(s, step) && (step.CloseChannel? || step.CloseDone? || step.FailReceipt?)
    ensures Grows(s, Exec(s, step)) && Exec(s, step).out == s.out
  {
    hide ExecCall, ExecRead, HeaderBytes, BodyBytes, FrameComplete;
  }

  lemma StepGrows(s: State, step: Step)
    requires Enabled(s, step)
    ensures Grows(s, Exec(s, step))
  {
    hide Exec, Enabled, Grows;
    if IsRead(step) {
      ReadGrows(s, step);
    } else if !IsWrite(step) {
      CallGrows(s, step);
    } else if PutsBytes(step) {
      BytesGrow(s, step);
    } else if step.CloseChannel? || step.CloseDone? || step.FailReceipt? {
      CloseGrows(s, step);
    } else {
      LockGrows(s, step);
    }
  }

  // ---- The seal is kept -------------------------------------------------------

  // A step that leaves the flags alone and does not end a wake-up.
  lemma PlainKeepsSeal(s: State, s': State)
    requires SealInv(s) && s'.sealed == s.sealed && s'.closed == s.closed && s'.doneClosed == s.doneClosed
    requires Ended(s.out) ==> Ended(s'.out)
    requires s.table.reader.ClosingReader? <==> s'.table.reader.ClosingReader?
    requires forall t :: t in s.threads && (s.threads[t].ClosingDone? || s.threads[t].CloserDone?) ==>
      t in s'.threads && s'.threads[t] == s.threads[t]
    ensures SealInv(s')
  {
    hide Ended;
  }

  // Nobody but the one that closed steps out of a wake-up.
  lemma WakingStays(s: State, step: Step)
    requires Enabled(s, step) && !step.CloseDone? && !step.ReaderDone? && !step.ReaderCloses?
    ensures s.table.reader.ClosingReader? <==> Exec(s, step).table.reader.ClosingReader?
    ensures forall t :: t in s.threads && (s.threads[t].ClosingDone? || s.threads[t].CloserDone?) ==>
      t in Exec(s, step).threads && Exec(s, step).threads[t] == s.threads[t]
  {
    MoverIsNotWaking(s, step);
    hide Enabled, Exec;
    if IsRead(step) {
      ReadIsLocal(s, step);
      ReaderStaysClosing(s, step);
    } else {
      MoverStepIsLocal(s, step);
      ReaderStaysPut(s, step);
    }
  }

  lemma MoverIsNotWaking(s: State, step: Step)
    requires Enabled(s, step) && !step.CloseDone?
    ensures !IsRead(step) || step.ReceiveRequest? || step.ReceiveUnhandled? ==>
      step.t in s.threads ==> !s.threads[step.t].ClosingDone? && !s.threads[step.t].CloserDone?
  {}

  lemma ReaderStaysClosing(s: State, step: Step)
    requires Enabled(s, step) && IsRead(step) && !step.ReaderDone? && !step.ReaderCloses?
    ensures s.table.reader.ClosingReader? <==> Exec(s, step).table.reader.ClosingReader?
  {
    hide ExecCall, ExecWrite, Header, Writable, RequestWritten;
    if step.ReceiveResponse? {
      assert Exec(s, step).table.reader == Dispatching(step.msg);
    } else if step.Dispatch? {
      assert Exec(s, step).table.reader.Reading? || Exec(s, step).table.reader.Delivering?;
    } else if step.Deliver? {
      assert Exec(s, step).table.reader == Reading;
    } else if step.ReaderFaults? {
      assert Exec(s, step).table.reader == Faulted;
    } else {
      assert Exec(s, step).table.reader == s.table.reader;
    }
  }

  lemma ReaderStaysPut(s: State, step: Step)
    requires Enabled(s, step) && !IsRead(step)
    ensures Exec(s, step).table.reader == s.table.reader
  {
    hide ExecRead, Header, Writable, RequestWritten;
    if IsWrite(step) {
      hide Exec, Enabled, Local;
      if PutsBytes(step) {
        ByteStepIsLocal(s, step);
      } else if step.CloseChannel? || step.CloseDone? || step.FailReceipt? {
        CloseStepIsLocal(s, step);
      } else {
        LockStepIsLocal(s, step);
      }
    } else {
      hide ExecWrite;
    }
  }

  lemma SealsForAReason(s: State, t: Thread)
    requires Inv(s) && Enabled(s, Seal(t)) && Told(s, t)
    ensures s.threads[t].outcome.Broke? || IsTerminal(s.threads[t].job) ==> Ended(s.out)
  {
    hide WireInv, BreakInv, DeliveryInv, AnswerInv, ThreadsKnown, ReceiptInv;
    assert ThreadInv(s, t);
    var pc := s.threads[t];
    assert HolderInv(s.out, pc);
    if !pc.outcome.Broke? && IsTerminal(pc.job) {
      assert PastWrite(pc);
      assert Lookup(s.out.sent, t) == Some(pc.job);
      assert t in s.out.sent && IsTerminal(s.out.sent[t]);
    }
  }

  lemma ClosingKeepsSeal(s: State, step: Step)
    requires SealInv(s) && Enabled(s, step) && (step.CloseChannel? || step.CloseDone? || step.FailReceipt?)
    requires step.CloseDone? ==> s.closed
    ensures SealInv(Exec(s, step))
  {
    hide ExecCall, ExecRead, HeaderBytes, BodyBytes, FrameComplete, Ended, Waking;
    if step.CloseDone? {
    } else if step.FailReceipt? || s.closed {
      WakingStays(s, step);
      PlainKeepsSeal(s, Exec(s, step));
    } else {
      WakingNow(Exec(s, step), step.t);
    }
  }

  lemma WakingNow(s: State, t: Thread)
    requires t in s.threads && (s.threads[t].ClosingDone? || s.threads[t].CloserDone?)
    ensures Waking(s)
  {}

  lemma ReadKeepsSeal(s: State, step: Step)
    requires SealInv(s) && Enabled(s, step) && IsRead(step)
    ensures SealInv(Exec(s, step))
  {
    if step.ReaderCloses? || step.ReaderDone? {
      hide ExecCall, ExecWrite, Ended;
    } else {
      ReadGrows(s, step);
      WakingStays(s, step);
      hide Exec, Enabled, SealInv;
      PlainKeepsSeal(s, Exec(s, step));
    }
  }

  lemma MoveKeepsSeal(s: State, step: Step)
    requires Inv(s) && SealInv(s) && Enabled(s, step) && !IsRead(step) && (step.CloseDone? ==> s.closed)
    requires step.t in s.threads ==> Told(s, step.t)
    ensures SealInv(Exec(s, step))
  {
    hide Exec, SealInv, Inv, Ended, Told;
    if step.CloseChannel? || step.CloseDone? || step.FailReceipt? {
      ClosingKeepsSeal(s, step);
    } else {
      WakingStays(s, step);
      if !IsWrite(step) {
        CallGrows(s, step);
        PlainKeepsSeal(s, Exec(s, step));
      } else if PutsBytes(step) {
        BytesGrow(s, step);
        if Ended(s.out) {
          EndedStaysSilent(s, step);
        }
        PlainKeepsSeal(s, Exec(s, step));
      } else {
        LockGrows(s, step);
        if step.Seal? {
          SealsForAReason(s, step.t);
        }
        LockKeepsSeal(s, Exec(s, step));
      }
    }
  }

  lemma LockKeepsSeal(s: State, s': State)
    requires SealInv(s) && s'.out == s.out && s'.closed == s.closed && s'.doneClosed == s.doneClosed
    requires s'.sealed == s.sealed || (Ended(s.out) && s'.sealed)
    requires s.table.reader.ClosingReader? <==> s'.table.reader.ClosingReader?
    requires forall t :: t in s.threads && (s.threads[t].ClosingDone? || s.threads[t].CloserDone?) ==>
      t in s'.threads && s'.threads[t] == s.threads[t]
    ensures SealInv(s')
  {
    hide Ended;
  }

  // ---- What threads are told ----------------------------------------------------

  lemma OthersAreTold(s: State, s': State, u: Thread)
    requires u in s.threads && Told(s, u) && Grows(s, s')
    requires u in s'.threads && s'.threads[u] == s.threads[u] && Lookup(s'.out.sent, u) == Lookup(s.out.sent, u)
    ensures Told(s', u)
  {}

  lemma WriterIsTold(s: State, step: Step)
    requires Enabled(s, step) && (step.Acquire? || step.Admit? || step.Seal? || step.Publish? || step.Release?) && (s.closed ==> s.sealed)
    requires step.t in s.threads && Told(s, step.t)
    requires s.threads[step.t].Sealing? ==> !s.threads[step.t].outcome.Refused?
    ensures step.t in Exec(s, step).threads && Told(Exec(s, step), step.t)
  {
    hide ExecCall, ExecRead, HeaderBytes, BodyBytes, FrameComplete;
  }

  lemma HeaderWriterIsTold(s: State, step: Step)
    requires Enabled(s, step) && step.WriteHeader? && step.t in s.threads && Told(s, step.t)
    ensures step.t in Exec(s, step).threads && Told(Exec(s, step), step.t)
  {
    hide ExecCall, ExecRead, Header, Writable, BodyBytes, FrameComplete;
  }

  lemma BodyWriterIsTold(s: State, step: Step)
    requires Enabled(s, step) && step.WriteBody? && step.t in s.threads && Told(s, step.t)
    ensures step.t in Exec(s, step).threads && Told(Exec(s, step), step.t)
  {
    hide ExecCall, ExecRead, Header, Writable, HeaderBytes;
  }

  lemma CloserIsTold(s: State, step: Step)
    requires Enabled(s, step) && (step.CloseChannel? || step.CloseDone? || step.FailReceipt?) && (s.closed ==> s.sealed)
    requires step.t in s.threads && Told(s, step.t)
    requires step.t in s.out.sent ==> !s.threads[step.t].Closer? && !s.threads[step.t].CloserDone?
    ensures step.t in Exec(s, step).threads && Told(Exec(s, step), step.t)
  {
    hide ExecCall, ExecRead, HeaderBytes, BodyBytes, FrameComplete;
  }

  // Starting a call: nothing is on the wire yet.
  lemma StarterIsTold(s: State, step: Step)
    requires Enabled(s, step) && (s.closed ==> s.sealed)
    requires step.StartRequest? || step.Register? || step.StartNotification? || step.StartClose? || step.HandlerReturns?
    requires step.t !in s.out.sent
    ensures step.t in Exec(s, step).threads && Told(Exec(s, step), step.t)
  {
    hide ExecRead, ExecWrite;
  }

  // Leaving it.
  lemma LeaverIsTold(s: State, step: Step)
    requires Enabled(s, step) && (step.TakeResponse? || step.Cancel? || step.Forget? || step.SeeClosed?) && (s.doneClosed ==> s.closed)
    requires step.t in s.threads && Told(s, step.t)
    requires var pc := s.threads[step.t];
      step.t in s.out.sent && s.out.sent[step.t] == Request(pc.id) && (pc.Forgetting? ==> pc.id in s.table.cancelled)
    ensures step.t in Exec(s, step).threads && Told(Exec(s, step), step.t)
  {
    hide ExecRead, ExecWrite;
  }

  lemma ReturnerIsTold(s: State, step: Step)
    requires Enabled(s, step) && step.Return? && step.t in s.threads && Told(s, step.t)
    requires if s.threads[step.t].ok then Lookup(s.out.sent, step.t) == Some(s.threads[step.t].job) else step.t !in s.out.sent
    ensures step.t in Exec(s, step).threads && Told(Exec(s, step), step.t)
  {
    hide ExecRead, ExecWrite, Complete;
  }

  lemma MoverIsTold(s: State, step: Step)
    requires Inv(s) && SealInv(s) && Enabled(s, step) && !IsRead(step)
    requires step.t in s.threads ==> Told(s, step.t)
    ensures step.t in Exec(s, step).threads && Told(Exec(s, step), step.t)
  {
    hide WireInv, LockInv, BreakInv, DeliveryInv, ReceiptInv, Exec, Told, Ended, Waking;
    var t := step.t;
    if t in s.threads {
      assert ThreadInv(s, t);
      StepNeedsCounter(s, step);
      hide AnswerInv, ThreadsKnown, ThreadInv, Enabled;
      if step.WriteHeader? {
        HeaderWriterIsTold(s, step);
      } else if step.WriteBody? {
        BodyWriterIsTold(s, step);
      } else if step.CloseChannel? || step.CloseDone? || step.FailReceipt? {
        CloserIsTold(s, step);
      } else if IsWrite(step) {
        WriterIsTold(s, step);
      } else if step.Return? {
        ReturnerIsTold(s, step);
      } else if step.TakeResponse? || step.Cancel? || step.Forget? || step.SeeClosed? {
        LeaverIsTold(s, step);
      } else {
        StarterIsTold(s, step);
      }
    } else {
      hide AnswerInv;
      StarterIsTold(s, step);
    }
  }

  // What the invariant says of the thread that is about to move.
  lemma StepNeedsCounter(s: State, step: Step)
    requires Inv(s) && Enabled(s, step) && !IsRead(step) && step.t in s.threads
    ensures var t, pc := step.t, s.threads[step.t];
      && (step.CloseChannel? || step.CloseDone? || step.FailReceipt? ==> t !in s.out.sent)
      && (step.Return? ==> pc.Returned? && if pc.ok then Lookup(s.out.sent, t) == Some(pc.job) else t !in s.out.sent)
      && (step.TakeResponse? || step.Cancel? || step.Forget? || step.SeeClosed? ==>
            (pc.Awaiting? || pc.Forgetting?) && t in s.out.sent && s.out.sent[t] == Request(pc.id)
            && (pc.Forgetting? ==> pc.id in s.table.cancelled))
      && (step.Register? || step.HandlerReturns? ==> t !in s.out.sent)
      && !step.StartRequest? && !step.StartNotification? && !step.StartClose?
      && (pc.Sealing? ==> !pc.outcome.Refused?)
  {
    hide WireInv, BreakInv, DeliveryInv, ReceiptInv, Ended;
    assert Holds(s.threads[step.t]) ==> HolderInv(s.out, s.threads[step.t]);
    hide LockInv, HolderInv;
    assert ThreadInv(s, step.t);
    hide ThreadsKnown;
  }

  ghost predicate OutcomeInv(s: State) {
    SealInv(s) && forall t :: t in s.threads ==> Told(s, t)
  }

  lemma ReadKeepsOutcome(s: State, step: Step)
    requires OutcomeInv(s) && Enabled(s, step) && IsRead(step)
    ensures OutcomeInv(Exec(s, step))
  {
    hide Exec, Enabled, Told, SealInv, Grows;
    var s' := Exec(s, step);
    StepGrows(s, step);
    ReadKeepsSeal(s, step);
    ReadIsLocal(s, step);
    OnlyWritesTouchWire(s, step);
    SpawnedIsFresh(s, step);
    if step.ReceiveRequest? || step.ReceiveUnhandled? {
      SpawnedIsTold(s, step);
    }
    forall u | u in s'.threads && u in s.threads ensures Told(s', u) {
      OthersAreTold(s, s', u);
    }
  }

  lemma StepKeepsOutcome(s: State, step: Step)
    requires Inv(s) && OutcomeInv(s) && Enabled(s, step)
    ensures OutcomeInv(Exec(s, step))
  {
    hide Inv, Exec, Enabled, Told, SealInv, Grows;
    if IsRead(step) {
      ReadKeepsOutcome(s, step);
    } else {
      var s' := Exec(s, step);
      StepGrows(s, step);
      if step.CloseDone? {
        CloseDoneIsClosed(s, step);
      }
      MoveKeepsSeal(s, step);
      MoverIsTold(s, step);
      MoverStepIsLocal(s, step);
      forall u | u in s'.threads && u != step.t ensures Told(s', u) {
        OthersAreTold(s, s', u);
      }
    }
  }

  lemma SpawnedIsTold(s: State, step: Step)
    requires Enabled(s, step) && (step.ReceiveRequest? || step.ReceiveUnhandled?)
    ensures step.t in Exec(s, step).threads && Told(Exec(s, step), step.t)
  {
    hide ExecCall, ExecWrite;
  }

  lemma CloseDoneIsClosed(s: State, step: Step)
    requires OutcomeInv(s) && Enabled(s, step) && step.CloseDone?
    ensures s.closed
  {
    assert Told(s, step.t);
  }

  lemma {:induction false} OutcomeAlong(steps: seq<Step>)
    requires StateAfter(INITIAL, steps).Some?
    ensures Inv(StateAfter(INITIAL, steps).value) && OutcomeInv(StateAfter(INITIAL, steps).value)
    decreases |steps|
  {
    hide Inv, Exec, Enabled, Told, SealInv;
    InitialInv();
    InvAlong(INITIAL, steps);
    if |steps| > 0 {
      OutcomeAlong(steps[..|steps| - 1]);
      StepKeepsOutcome(StateAfter(INITIAL, steps[..|steps| - 1]).value, steps[|steps| - 1]);
    } else {
      InitialSeal();
    }
  }

  lemma InitialSeal()
    ensures SealInv(INITIAL)
  {}

  /** A call that ended says why: it wrote its frame, or writes were refused; and
      a request that was written has its answer, was cancelled, or saw the close.
      Writes are refused only once the channel closed, a write broke off or a
      terminal response went out. */
  lemma EndedCallsHaveAReason(s: State, t: Thread)
    requires Reachable(s) && t in s.threads && s.threads[t].Done?
    ensures t in s.out.sent || s.sealed
    ensures t in s.out.sent && s.out.sent[t].Request? ==>
      t in s.table.results || s.out.sent[t].id in s.table.cancelled || s.closed
    ensures s.closed ==> s.sealed
    ensures s.sealed ==> s.closed || s.out.broken.Some? || TerminalSent(s.out)
  {
    hide Inv, StateAfter, Waking;
    var steps :| StateAfter(INITIAL, steps) == Some(s);
    OutcomeAlong(steps);
    assert Told(s, t);
  }

  /** When the channel is closed, every caller that waits can leave at once, or
      somebody can take the step that lets them. */
  lemma WaitersAreReleased(s: State, t: Thread)
    requires Reachable(s) && s.closed && t in s.threads && s.threads[t].Awaiting?
    ensures Enabled(s, SeeClosed(t)) || Enabled(s, ReaderDone) || exists u :: Enabled(s, CloseDone(u))
    ensures forall u :: Enabled(s, CloseDone(u)) ==> Exec(s, CloseDone(u)).doneClosed
    ensures Enabled(s, ReaderDone) ==> Exec(s, ReaderDone).doneClosed
  {
    hide Inv, StateAfter, Ended, Told;
    var steps :| StateAfter(INITIAL, steps) == Some(s);
    OutcomeAlong(steps);
    if !s.doneClosed && !s.table.reader.ClosingReader? {
      var u :| u in s.threads && (s.threads[u].ClosingDone? || s.threads[u].CloserDone?);
      assert Enabled(s, CloseDone(u));
    }
  }

  // ---- The request table ---------------------------------------------------------

  /** The table holds calls in progress only, and none once the channel is closed. */
  ghost predicate TableInv(s: State) {
    && (s.closed ==> s.table.pending == map[])
    && (forall id :: id in s.table.pending ==>
          s.table.pending[id] in s.threads && RequestOf(s.threads[s.table.pending[id]]) == Some(id))
  }

  // A step that only takes entries out of the table.
  lemma ShrinkingKeepsTable(s: State, s': State, t: Thread)
    requires TableInv(s) && (s'.closed == s.closed || s'.table.pending == map[])
    requires s'.table.pending.Keys <= s.table.pending.Keys
    requires forall id :: id in s'.table.pending ==> s'.table.pending[id] == s.table.pending[id]
    requires t in s'.threads && s'.threads == s.threads[t := s'.threads[t]]
    requires t in s.threads ==> forall id :: RequestOf(s.threads[t]) == Some(id) ==>
      RequestOf(s'.threads[t]) == Some(id) || id !in s'.table.pending
    ensures TableInv(s')
  {
    hide RequestOf;
  }

  lemma OtherCallKeepsTable(s: State, step: Step)
    requires TableInv(s) && DeliveryInv(s.table) && Enabled(s, step) && !IsRead(step) && !IsWrite(step)
    requires !step.Register? && !step.Return? && (s.doneClosed ==> s.closed)
    ensures TableInv(Exec(s, step))
  {
    hide ExecRead, ExecWrite, TableInv, Complete;
    if step.TakeResponse? || step.SeeClosed? {
      LeaversAreNotPending(s, step);
    }
    ShrinkingKeepsTable(s, Exec(s, step), step.t);
  }

  lemma LeaversAreNotPending(s: State, step: Step)
    requires TableInv(s) && DeliveryInv(s.table) && Enabled(s, step) && (step.TakeResponse? || step.SeeClosed?)
    requires s.doneClosed ==> s.closed
    ensures s.threads[step.t].id !in s.table.pending
  {}

  lemma ReturnKeepsTable(s: State, t: Thread)
    requires TableInv(s) && Enabled(s, Return(t))
    ensures TableInv(Exec(s, Return(t)))
  {
    hide ExecRead, ExecWrite, TableInv, Complete;
    ShrinkingKeepsTable(s, Exec(s, Return(t)), t);
  }

  lemma RegisterKeepsTable(s: State, t: Thread)
    requires TableInv(s) && Enabled(s, Register(t))
    ensures TableInv(Exec(s, Register(t)))
  {
    hide ExecRead, ExecWrite;
    if !s.closed {
      var s' := Exec(s, Register(t));
      assert s'.table.pending == s.table.pending[s.table.nextID := t];
      assert forall id :: id in s.table.pending ==> s.table.pending[id] != t;
    }
  }

  lemma LockKeepsTable(s: State, step: Step)
    requires TableInv(s) && Enabled(s, step) && (step.Acquire? || step.Admit? || step.Seal? || step.Publish? || step.Release?)
    ensures TableInv(Exec(s, step))
  {
    hide ExecRead, ExecCall, TableInv, Complete, HeaderBytes, BodyBytes, FrameComplete;
    ShrinkingKeepsTable(s, Exec(s, step), step.t);
  }

  lemma BytesKeepTable(s: State, step: Step)
    requires TableInv(s) && Enabled(s, step) && PutsBytes(step)
    ensures TableInv(Exec(s, step))
  {
    BytesKeepRequest(s, step);
    hide Exec, Enabled, TableInv, RequestOf;
    ByteStepIsLocal(s, step);
    BytesGrow(s, step);
    ShrinkingKeepsTable(s, Exec(s, step), step.t);
  }

  lemma BytesKeepRequest(s: State, step: Step)
    requires Enabled(s, step) && PutsBytes(step)
    ensures step.t in s.threads && step.t in Exec(s, step).threads
    ensures RequestOf(Exec(s, step).threads[step.t]) == RequestOf(s.threads[step.t])
  {
    hide ExecRead, ExecCall, Header, Writable, HeaderBytes, BodyBytes, FrameComplete;
  }

  lemma CloseKeepsTable(s: State, step: Step)
    requires TableInv(s) && Enabled(s, step) && (step.CloseChannel? || step.CloseDone? || step.FailReceipt?)
    ensures TableInv(Exec(s, step))
  {
    hide ExecRead, ExecCall, TableInv, Complete, HeaderBytes, BodyBytes, FrameComplete;
    ShrinkingKeepsTable(s, Exec(s, step), step.t);
  }

  lemma ReadKeepsTable(s: State, step: Step)
    requires TableInv(s) && Enabled(s, step) && IsRead(step)
    ensures TableInv(Exec(s, step))
  {
    hide ExecWrite, ExecCall, RequestWritten;
  }

  lemma StepKeepsTable(s: State, step: Step)
    requires Inv(s) && SealInv(s) && TableInv(s) && Enabled(s, step)
    ensures TableInv(Exec(s, step))
  {
    hide Exec, Enabled, TableInv, WireInv, LockInv, BreakInv, DeliveryInv, AnswerInv, ThreadsKnown, ThreadInv, Ended, Waking;
    if IsRead(step) {
      ReadKeepsTable(s, step);
    } else if PutsBytes(step) {
      BytesKeepTable(s, step);
    } else if step.CloseChannel? || step.CloseDone? || step.FailReceipt? {
      CloseKeepsTable(s, step);
    } else if IsWrite(step) {
      LockKeepsTable(s, step);
    } else if step.Register? {
      RegisterKeepsTable(s, step.t);
    } else if step.Return? {
      ReturnKeepsTable(s, step.t);
    } else {
      OtherCallKeepsTable(s, step);
    }
  }

  lemma {:induction false} TableAlong(steps: seq<Step>)
    requires StateAfter(INITIAL, steps).Some?
    ensures TableInv(StateAfter(INITIAL, steps).value)
    decreases |steps|
  {
    hide Inv, Exec, Enabled, Told, SealInv;
    if |steps| > 0 {
      var front := steps[..|steps| - 1];
      OutcomeAlong(front);
      TableAlong(front);
      hide TableInv;
      StepKeepsTable(StateAfter(INITIAL, front).value, steps[|steps| - 1]);
    }
  }

  /** No call leaves an entry behind: every entry of the request table belongs to
      a request still in progress, and a closed channel has none. */
  lemma NoEntryIsLeaked(s: State, id: nat)
    requires Reachable(s) && id in s.table.pending
    ensures !s.closed && s.table.pending[id] in s.threads
    ensures RequestOf(s.threads[s.table.pending[id]]) == Some(id) && !s.threads[s.table.pending[id]].Done?
  {
    hide StateAfter;
    var steps :| StateAfter(INITIAL, steps) == Some(s);
    TableAlong(steps);
  }

  // ---- Why a channel closes --------------------------------------------------------

  ghost predicate AskedToClose(steps: seq<Step>) {
    ReaderFaults in steps || exists t :: StartClose(t) in steps
  }

  ghost predicate Reasons(s: State, steps: seq<Step>) {
    && (s.closed ==> s.out.broken.Some? || AskedToClose(steps))
    && (s.table.reader.Faulted? ==> AskedToClose(steps))
    && (forall t :: t in s.threads && s.threads[t].Closer? ==> AskedToClose(steps))
  }

  lemma AskedStays(steps: seq<Step>, step: Step)
    ensures AskedToClose(steps) || step.ReaderFaults? || step.StartClose? ==> AskedToClose(steps + [step])
  {
    var all := steps + [step];
    if step.ReaderFaults? || step.StartClose? {
      assert all[|steps|] == step;
      assert step in all;
    } else if AskedToClose(steps) && ReaderFaults !in steps {
      var t :| StartClose(t) in steps;
      assert StartClose(t) in all;
    }
  }

  // What makes a channel closed, its reader faulty, or a thread about to close it.
  lemma ClosingSteps(s: State, step: Step)
    requires Enabled(s, step)
    ensures var s' := Exec(s, step);
      && (s'.closed ==>
            || s.closed
            || (step.CloseChannel? && (s.threads[step.t].Closer? || BreakingOff(s.threads[step.t])))
            || (step.ReaderCloses? && s.table.reader.Faulted?))
      && (s'.table.reader.Faulted? ==> s.table.reader.Faulted? || step.ReaderFaults?)
  {
    hide Exec;
    if IsRead(step) {
      ReadCloses(s, step);
    } else if !IsWrite(step) {
      CallGrows(s, step);
      ReaderStaysPut(s, step);
    } else {
      ReaderStaysPut(s, step);
      if PutsBytes(step) {
        BytesGrow(s, step);
      } else if step.CloseChannel? || step.CloseDone? || step.FailReceipt? {
        WriteCloses(s, step);
      } else {
        LockGrows(s, step);
      }
    }
  }

  lemma ReadCloses(s: State, step: Step)
    requires Enabled(s, step) && IsRead(step)
    ensures Exec(s, step).closed ==> s.closed || (step.ReaderCloses? && s.table.reader.Faulted?)
    ensures Exec(s, step).table.reader.Faulted? ==> s.table.reader.Faulted? || step.ReaderFaults?
  {
    hide ExecCall, ExecWrite, RequestWritten;
    if step.ReceiveResponse? {
      assert Exec(s, step).table.reader == Dispatching(step.msg) && Exec(s, step).closed == s.closed;
    } else if step.Dispatch? {
      DispatchLeaves(s);
    } else if step.Deliver? {
      assert Exec(s, step).table.reader == Reading && Exec(s, step).closed == s.closed;
    } else if step.ReaderCloses? {
      assert Exec(s, step).table.reader.Stopped? || Exec(s, step).table.reader.ClosingReader?;
    } else if step.ReaderDone? {
      assert Exec(s, step).table.reader == Stopped && Exec(s, step).closed == s.closed;
    } else {
      assert Exec(s, step).closed == s.closed;
    }
  }

  lemma DispatchLeaves(s: State)
    requires Enabled(s, Dispatch)
    ensures var s' := Exec(s, Dispatch); !s'.table.reader.Faulted? && s'.closed == s.closed
  {
    hide ExecCall, ExecWrite;
  }

  lemma WriteCloses(s: State, step: Step)
    requires Enabled(s, step) && (step.CloseChannel? || step.CloseDone? || step.FailReceipt?)
    ensures Exec(s, step).closed ==> s.closed || (step.CloseChannel? && (s.threads[step.t].Closer? || BreakingOff(s.threads[step.t])))
  {
    hide ExecCall, ExecRead, HeaderBytes, BodyBytes, FrameComplete;
  }

  lemma NewCloser(s: State, step: Step, t: Thread)
    requires Enabled(s, step) && t in Exec(s, step).threads && Exec(s, step).threads[t].Closer?
    ensures step.StartClose? || (t in s.threads && s.threads[t].Closer?)
  {
    if IsRead(step) {
      SpawnedIsNoCloser(s, step);
      hide Exec, Enabled;
      ReadIsLocal(s, step);
    } else if step.t == t {
      MoverIsNoCloser(s, step);
    } else {
      hide Exec, Enabled;
      MoverStepIsLocal(s, step);
    }
  }

  lemma SpawnedIsNoCloser(s: State, step: Step)
    requires Enabled(s, step) && IsRead(step)
    ensures step.ReceiveRequest? || step.ReceiveUnhandled? ==> step.t in Exec(s, step).threads && !Exec(s, step).threads[step.t].Closer?
  {
    hide ExecCall, ExecWrite, RequestWritten;
  }

  lemma MoverIsNoCloser(s: State, step: Step)
    requires Enabled(s, step) && !IsRead(step) && step.t in Exec(s, step).threads && Exec(s, step).threads[step.t].Closer?
    ensures step.StartClose?
  {
    hide ExecRead, HeaderBytes, BodyBytes, FrameComplete, Header, Writable, Complete;
    if IsWrite(step) {
      hide ExecCall;
    } else {
      hide ExecWrite;
    }
  }

  lemma StepKeepsReasons(s: State, step: Step, steps: seq<Step>)
    requires Inv(s) && OutcomeInv(s) && Enabled(s, step) && Reasons(s, steps)
    ensures Reasons(Exec(s, step), steps + [step])
  {
    hide Exec, Enabled, AskedToClose, Inv, SealInv;
    var s' := Exec(s, step);
    AskedStays(steps, step);
    ClosingSteps(s, step);
    StepGrows(s, step);
    if step.CloseChannel? && step.t in s.threads && BreakingOff(s.threads[step.t]) {
      assert Told(s, step.t);
    }
    if step.CloseChannel? {
      StepIsAt(s, step);
    }
    forall t | t in s'.threads && s'.threads[t].Closer? ensures AskedToClose(steps + [step]) {
      NewCloser(s, step, t);
    }
  }

  lemma StepIsAt(s: State, step: Step)
    requires Enabled(s, step) && step.CloseChannel?
    ensures step.t in s.threads
  {}

  /** A channel closes only when a caller asked for it, the reader failed, or a
      write broke off. */
  lemma {:induction false} ChannelsCloseForAReason(steps: seq<Step>)
    requires StateAfter(INITIAL, steps).Some?
    ensures Reasons(StateAfter(INITIAL, steps).value, steps)
    decreases |steps|
  {
    hide Inv, Exec, Enabled, OutcomeInv;
    if |steps| > 0 {
      hide Reasons;
      var front, last := steps[..|steps| - 1], steps[|steps| - 1];
      OutcomeAlong(front);
      ChannelsCloseForAReason(front);
      StepKeepsReasons(StateAfter(INITIAL, front).value, last, front);
      assert steps == front + [last];
    }
  }
}
