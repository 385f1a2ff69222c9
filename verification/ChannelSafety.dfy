/** Every step of the channel keeps its invariant; what that means for whole runs. */
module ChannelSafety {
  import opened Wrappers
  import opened Bytes
  import opened Frames
  import opened Channel

  // ---- The wire --------------------------------------------------------------

  predicate PutsBytes(step: Step) { step.WriteHeader? || step.WriteBody? }

  lemma OnlyWritesTouchWire(s: State, step: Step)
    requires Enabled(s, step) && !PutsBytes(step)
    ensures Exec(s, step).out == s.out
  {
    hide HeaderBytes, BodyBytes, FrameComplete, Header, Writable, RequestWritten;
    if IsRead(step) {
      hide ExecCall, ExecWrite;
    } else if IsWrite(step) {
      hide ExecCall, ExecRead;
    } else {
      hide ExecWrite, ExecRead;
    }
  }

  lemma HeaderKeepsWire(out: Outbound, t: Thread, job: Job, body: Text, accepted: nat)
    requires WireInv(out) && out.broken.None? && out.tail == [] && Writable(body) && accepted <= 4
    ensures WireInv(HeaderBytes(out, body, accepted))
    ensures var part := HeaderBytes(out, body, accepted);
      WireInv(part.(broken := Some(Break(t, job, body, part.tail))))
    ensures accepted == 4 ==> HeaderBytes(out, body, accepted).tail == Header(|body|)
  {
    hide EncodeAll;
    var bytes := Header(|body|)[..accepted];
    assert HeaderBytes(out, body, accepted).wire == EncodeAll(Bodies(out.whole)) + (out.tail + bytes);
    assert out.tail + bytes == bytes && bytes <= Encode(body);
  }

  lemma BodyKeepsWire(out: Outbound, t: Thread, job: Job, body: Text, accepted: nat)
    requires WireInv(out) && out.broken.None? && Writable(body) && out.tail == Header(|body|) && accepted <= |body|
    ensures var part := BodyBytes(out, body, accepted);
      WireInv(part.(broken := Some(Break(t, job, body, part.tail))))
  {
    hide EncodeAll;
    var bytes := body[..accepted];
    assert BodyBytes(out, body, accepted).wire == EncodeAll(Bodies(out.whole)) + (out.tail + bytes);
    assert out.tail + bytes <= Encode(body);
  }

  lemma FrameKeepsWire(out: Outbound, t: Thread, job: Job, body: Text)
    requires WireInv(out) && out.broken.None? && Writable(body) && out.tail == Header(|body|) && t !in out.sent
    ensures WireInv(FrameComplete(BodyBytes(out, body, |body|), t, job, body))
  {
    hide EncodeAll;
    var out' := FrameComplete(BodyBytes(out, body, |body|), t, job, body);
    assert body[..|body|] == body;
    assert Bodies(out'.whole) == Bodies(out.whole) + [body];
    EncodeOneMore(Bodies(out.whole), body);
    assert out'.wire == EncodeAll(Bodies(out.whole)) + (out.tail + body);
    assert out'.wire == EncodeAll(Bodies(out'.whole)) + [];
    SentIsWhole(out, out', t, job, body);
  }

  lemma SentIsWhole(out: Outbound, out': Outbound, t: Thread, job: Job, body: Text)
    requires forall i :: 0 <= i < |out.whole| ==>
      out.whole[i].thread in out.sent && out.sent[out.whole[i].thread] == out.whole[i].job
    requires forall u :: u in out.sent ==> exists i :: 0 <= i < |out.whole| && out.whole[i].thread == u
    requires t !in out.sent && out'.whole == out.whole + [Sent(t, job, body)] && out'.sent == out.sent[t := job]
    ensures forall i :: 0 <= i < |out'.whole| ==>
      out'.whole[i].thread in out'.sent && out'.sent[out'.whole[i].thread] == out'.whole[i].job
    ensures forall u :: u in out'.sent ==> exists i :: 0 <= i < |out'.whole| && out'.whole[i].thread == u
  {
    forall u | u in out'.sent ensures exists i :: 0 <= i < |out'.whole| && out'.whole[i].thread == u {
      if u == t {
        assert out'.whole[|out.whole|].thread == t;
      } else {
        var i :| 0 <= i < |out.whole| && out.whole[i].thread == u;
        assert out'.whole[i].thread == u;
      }
    }
  }

  // ---- The lock --------------------------------------------------------------

  // A step of a thread that neither holds the mutex before nor after it.
  lemma OutsideKeepsLock(s: State, s': State, t: Thread)
    requires LockInv(s) && s'.writeLock == s.writeLock && s'.out == s.out && (s.sealed ==> s'.sealed)
    requires t in s.threads ==> !Holds(s.threads[t])
    requires s'.threads == s.threads || (t in s'.threads && !Holds(s'.threads[t]) && s'.threads == s.threads[t := s'.threads[t]])
    ensures LockInv(s')
  {
    hide Ended;
  }

  // A step of the holder that keeps the mutex.
  lemma HolderKeepsLock(s: State, s': State, t: Thread)
    requires LockInv(s) && s.writeLock == Some(t) && s'.writeLock == s.writeLock
    requires t in s'.threads && s'.threads == s.threads[t := s'.threads[t]] && HolderInv(s'.out, s'.threads[t])
    requires Ended(s'.out) && !s'.sealed ==> s'.threads[t].Sealing?
    ensures LockInv(s')
  {
    hide HolderInv, Ended;
  }

  lemma CallKeepsLock(s: State, step: Step)
    requires LockInv(s) && Enabled(s, step) && !IsRead(step) && !IsWrite(step)
    ensures LockInv(Exec(s, step))
  {
    hide LockInv, HolderInv, Ended, Complete;
    var s' := Exec(s, step);
    OutsideKeepsLock(s, s', step.t);
  }

  lemma ReadKeepsLock(s: State, step: Step)
    requires LockInv(s) && Enabled(s, step) && IsRead(step)
    ensures LockInv(Exec(s, step))
  {
    hide LockInv, HolderInv, Ended, RequestWritten;
    var s' := Exec(s, step);
    OutsideKeepsLock(s, s', if step.ReceiveRequest? || step.ReceiveUnhandled? then step.t else FreeThread(s));
  }

  ghost function FreeThread(s: State): (t: Thread)
    ensures t !in s.threads
  {
    NewThreadExists(s.threads.Keys);
    var t: Thread :| t !in s.threads; t
  }

  lemma {:induction false} NewThreadExists(used: set<Thread>)
    ensures exists t: Thread :: t !in used
  {
    if used != {} {
      var max := Max(used);
      assert max + 1 !in used;
    } else {
      assert 0 !in used;
    }
  }

  ghost function Max(used: set<Thread>): (m: Thread)
    requires used != {}
    ensures m in used && forall t :: t in used ==> t <= m
  {
    var x :| x in used;
    if used == {x} then x
    else
      var rest := used - {x};
      assert used == rest + {x};
      var m := Max(rest);
      if x > m then x else m
  }

  lemma AcquireKeepsLock(s: State, t: Thread)
    requires LockInv(s) && Enabled(s, Acquire(t))
    ensures LockInv(Exec(s, Acquire(t)))
  {
  }

  lemma AdmitKeepsLock(s: State, t: Thread)
    requires LockInv(s) && Enabled(s, Admit(t))
    ensures LockInv(Exec(s, Admit(t)))
  {
    HolderKeepsLock(s, Exec(s, Admit(t)), t);
  }

  lemma WriteHeaderStep(s: State, t: Thread, accepted: nat, fails: bool)
    requires LockInv(s) && WireInv(s.out) && Enabled(s, WriteHeader(t, accepted, fails))
    ensures LockInv(Exec(s, WriteHeader(t, accepted, fails))) && WireInv(Exec(s, WriteHeader(t, accepted, fails)).out)
  {
    hide WireInv;
    var body, job := s.threads[t].body, s.threads[t].job;
    if Writable(body) {
      HeaderKeepsWire(s.out, t, job, body, accepted);
    } else {
      NothingWritten(s.out, t, job, body);
    }
    HolderKeepsLock(s, Exec(s, WriteHeader(t, accepted, fails)), t);
  }

  lemma NothingWritten(out: Outbound, t: Thread, job: Job, body: Text)
    requires WireInv(out) && out.tail == []
    ensures WireInv(out.(broken := Some(Break(t, job, body, out.tail))))
  {
    hide EncodeAll;
  }

  lemma WriteBodyStep(s: State, t: Thread, accepted: nat, fails: bool)
    requires LockInv(s) && WireInv(s.out) && Enabled(s, WriteBody(t, accepted, fails)) && t !in s.out.sent
    ensures LockInv(Exec(s, WriteBody(t, accepted, fails))) && WireInv(Exec(s, WriteBody(t, accepted, fails)).out)
  {
    hide WireInv;
    var body, job := s.threads[t].body, s.threads[t].job;
    var s' := Exec(s, WriteBody(t, accepted, fails));
    if fails {
      BodyKeepsWire(s.out, t, job, body, accepted);
    } else {
      FrameKeepsWire(s.out, t, job, body);
      if !IsTerminal(job) {
        assert TerminalSent(s'.out) ==> TerminalSent(s.out);
      }
    }
    HolderKeepsLock(s, s', t);
  }

  lemma SealKeepsLock(s: State, t: Thread)
    requires LockInv(s) && Enabled(s, Seal(t))
    ensures LockInv(Exec(s, Seal(t)))
  {
    HolderKeepsLock(s, Exec(s, Seal(t)), t);
  }

  lemma PublishKeepsLock(s: State, t: Thread)
    requires LockInv(s) && Enabled(s, Publish(t))
    ensures LockInv(Exec(s, Publish(t)))
  {
    HolderKeepsLock(s, Exec(s, Publish(t)), t);
  }

  lemma ReleaseKeepsLock(s: State, t: Thread)
    requires LockInv(s) && Enabled(s, Release(t))
    ensures LockInv(Exec(s, Release(t)))
  {
  }

  lemma CloseKeepsLock(s: State, step: Step)
    requires LockInv(s) && Enabled(s, step) && (step.CloseChannel? || step.CloseDone? || step.FailReceipt?)
    ensures LockInv(Exec(s, step))
  {
    hide LockInv, HolderInv, Ended;
    OutsideKeepsLock(s, Exec(s, step), step.t);
  }

  lemma LockAndWireStep(s: State, step: Step)
    requires Inv(s) && Enabled(s, step)
    ensures LockInv(Exec(s, step)) && WireInv(Exec(s, step).out)
  {
    hide LockInv, WireInv, Exec, DeliveryInv, AnswerInv, ThreadsKnown, ReceiptInv;
    if !PutsBytes(step) {
      OnlyWritesTouchWire(s, step);
    }
    if IsRead(step) {
      ReadKeepsLock(s, step);
    } else if !IsWrite(step) {
      CallKeepsLock(s, step);
    } else {
      match step
      case Acquire(t) => AcquireKeepsLock(s, t);
      case Admit(t) => AdmitKeepsLock(s, t);
      case WriteHeader(t, accepted, fails) => WriteHeaderStep(s, t, accepted, fails);
      case WriteBody(t, accepted, fails) =>
        assert ThreadInv(s, t);
        WriteBodyStep(s, t, accepted, fails);
      case Seal(t) => SealKeepsLock(s, t);
      case Publish(t) => PublishKeepsLock(s, t);
      case Release(t) => ReleaseKeepsLock(s, t);
      case _ => CloseKeepsLock(s, step);
    }
  }

  // ---- The threads -----------------------------------------------------------

  // A thread is untouched by the steps of others.
  lemma OtherThreadKeeps(s: State, s': State, u: Thread)
    requires u in s.threads && u in s'.threads && ThreadInv(s, u)
    requires s'.threads[u] == s.threads[u]
    requires Lookup(s'.out.sent, u) == Lookup(s.out.sent, u) && Lookup(s'.receipts, u) == Lookup(s.receipts, u)
    requires forall id :: id in s.table.issued ==> id in s'.table.issued && s'.table.issued[id] == s.table.issued[id]
    ensures ThreadInv(s', u)
  {
    hide ReceiptInv, FrameInv, RequestOf;
  }

  /** What a step of a thread can change: its own counter, receipt and frame,
      and the id issued to it. */
  ghost predicate Local(s: State, s': State, t: Thread) {
    && t in s'.threads && s'.threads == s.threads[t := s'.threads[t]]
    && (s'.receipts == s.receipts || (t in s'.receipts && s'.receipts == s.receipts[t := s'.receipts[t]]))
    && (s'.out.sent == s.out.sent || (t in s'.out.sent && s'.out.sent == s.out.sent[t := s'.out.sent[t]]))
    && (s'.out.broken == s.out.broken || (s'.out.broken.Some? && s'.out.broken.value.thread == t))
    && (s'.table.issued == s.table.issued || s'.table.issued == s.table.issued[s.table.nextID := t])
    && (s.closed ==> s'.closed)
  }

  lemma LockStepIsLocal(s: State, step: Step)
    requires Enabled(s, step) && (step.Acquire? || step.Admit? || step.Seal? || step.Publish? || step.Release?)
    ensures Local(s, Exec(s, step), step.t) && Exec(s, step).table == s.table
    ensures !s.threads[step.t].Done? && !Exec(s, step).threads[step.t].Forgetting?
  {
  }

  lemma HeaderStepIsLocal(s: State, step: Step)
    requires Enabled(s, step) && step.WriteHeader?
    ensures Local(s, Exec(s, step), step.t) && Exec(s, step).table == s.table && Exec(s, step).receipts == s.receipts
    ensures !s.threads[step.t].Done? && !Exec(s, step).threads[step.t].Forgetting?
  {
    hide Header, Writable, ExecCall, ExecRead, BodyBytes, FrameComplete;
  }

  lemma BodyStepIsLocal(s: State, step: Step)
    requires Enabled(s, step) && step.WriteBody?
    ensures Local(s, Exec(s, step), step.t) && Exec(s, step).table == s.table && Exec(s, step).receipts == s.receipts
    ensures !s.threads[step.t].Done? && !Exec(s, step).threads[step.t].Forgetting?
  {
    hide Header, Writable, ExecCall, ExecRead, HeaderBytes;
  }

  lemma ByteStepIsLocal(s: State, step: Step)
    requires Enabled(s, step) && PutsBytes(step)
    ensures Local(s, Exec(s, step), step.t) && Exec(s, step).table == s.table && Exec(s, step).receipts == s.receipts
    ensures !s.threads[step.t].Done? && !Exec(s, step).threads[step.t].Forgetting?
  {
    hide Exec, Enabled, Local;
    if step.WriteHeader? {
      HeaderStepIsLocal(s, step);
    } else {
      BodyStepIsLocal(s, step);
    }
  }

  lemma CloseStepIsLocal(s: State, step: Step)
    requires Enabled(s, step) && (step.CloseChannel? || step.CloseDone? || step.FailReceipt?)
    ensures Local(s, Exec(s, step), step.t) && Exec(s, step).table.issued == s.table.issued
    ensures !s.threads[step.t].Done? && !Exec(s, step).threads[step.t].Forgetting?
    ensures Exec(s, step).table == s.table || (Exec(s, step).closed && Exec(s, step).table == s.table.(pending := map[]))
  {
  }

  lemma WriteIsLocal(s: State, step: Step)
    requires Enabled(s, step) && IsWrite(step)
    ensures Local(s, Exec(s, step), step.t) && Exec(s, step).table.issued == s.table.issued
  {
    hide Exec, Enabled, Local;
    if PutsBytes(step) {
      ByteStepIsLocal(s, step);
    } else if step.CloseChannel? || step.CloseDone? || step.FailReceipt? {
      CloseStepIsLocal(s, step);
    } else {
      LockStepIsLocal(s, step);
    }
  }

  lemma CallIsLocal(s: State, step: Step)
    requires Enabled(s, step) && !IsWrite(step) && !IsRead(step)
    ensures Local(s, Exec(s, step), step.t)
  {
    hide ExecWrite, ExecRead, Header, Writable, RequestWritten;
  }

  lemma SpawnIsLocal(s: State, step: Step)
    requires Enabled(s, step) && (step.ReceiveRequest? || step.ReceiveUnhandled?)
    ensures Local(s, Exec(s, step), step.t) && Exec(s, step).table.issued == s.table.issued
  {
    hide RequestWritten, ExecCall, ExecWrite, Header, Writable;
  }

  lemma OtherReadIsIdle(s: State, step: Step)
    requires Enabled(s, step) && IsRead(step) && !step.ReceiveRequest? && !step.ReceiveUnhandled?
    ensures var s' := Exec(s, step);
      s'.threads == s.threads && s'.receipts == s.receipts && s'.out.sent == s.out.sent
      && s'.table.issued == s.table.issued && (s.closed ==> s'.closed)
  {
    hide RequestWritten, ExecCall, ExecWrite, Header, Writable;
    match step
    case ReceiveResponse(_) =>
    case Dispatch =>
    case Deliver =>
    case ReaderCloses =>
    case _ =>
  }

  lemma ReadIsLocal(s: State, step: Step)
    requires Enabled(s, step) && IsRead(step)
    ensures var s' := Exec(s, step);
      if step.ReceiveRequest? || step.ReceiveUnhandled? then Local(s, s', step.t) && s'.table.issued == s.table.issued
      else s'.threads == s.threads && s'.receipts == s.receipts && s'.out.sent == s.out.sent
           && s'.table.issued == s.table.issued && (s.closed ==> s'.closed)
  {
    hide Exec, Enabled, Local;
    if step.ReceiveRequest? || step.ReceiveUnhandled? {
      SpawnIsLocal(s, step);
    } else {
      OtherReadIsIdle(s, step);
    }
  }

  lemma LocalKeepsOthers(s: State, s': State, t: Thread, u: Thread)
    requires Local(s, s', t) && DeliveryInv(s.table) && u in s.threads && u != t && ThreadInv(s, u)
    ensures u in s'.threads && ThreadInv(s', u)
  {
    hide ThreadInv;
    assert s.table.nextID !in s.table.issued;
    OtherThreadKeeps(s, s', u);
  }

  lemma LocalKeepsKnown(s: State, s': State, t: Thread)
    requires Local(s, s', t) && ThreadsKnown(s)
    ensures ThreadsKnown(s')
  {
  }

  // The thread moved without touching its frame, its receipt or any id.
  lemma PlainMove(s: State, s': State, t: Thread)
    requires t in s.threads && t in s'.threads && ThreadInv(s, t)
    requires s'.out.sent == s.out.sent && s'.receipts == s.receipts && s'.table.issued == s.table.issued
    requires JobOf(s.threads[t]).Some? && JobOf(s'.threads[t]) == JobOf(s.threads[t])
    requires PastWrite(s'.threads[t]) == PastWrite(s.threads[t])
    requires !s.threads[t].Returned? && !s'.threads[t].Returned?
    requires (s'.threads[t].Unlocking? && s'.threads[t].outcome.Accepted?) == (s.threads[t].Unlocking? && s.threads[t].outcome.Accepted?)
    ensures ThreadInv(s', t)
  {
    hide JobOf;
    var pc, pc' := s.threads[t], s'.threads[t];
    assert !pc.Done? && !pc.Awaiting? && !pc.Forgetting? by { JobKinds(pc); }
    assert !pc'.Done? && !pc'.Awaiting? && !pc'.Forgetting? by { JobKinds(pc'); }
  }

  lemma JobKinds(pc: Pc)
    ensures JobOf(pc).Some? ==> !pc.Done? && !pc.Awaiting? && !pc.Forgetting?
  {
  }

  lemma AcquireMoves(s: State, t: Thread)
    requires Enabled(s, Acquire(t)) && ThreadInv(s, t)
    ensures ThreadInv(Exec(s, Acquire(t)), t)
  {
    hide ThreadInv;
    PlainMove(s, Exec(s, Acquire(t)), t);
  }

  lemma AdmitMoves(s: State, t: Thread)
    requires Enabled(s, Admit(t)) && ThreadInv(s, t)
    ensures ThreadInv(Exec(s, Admit(t)), t)
  {
    hide ThreadInv;
    PlainMove(s, Exec(s, Admit(t)), t);
  }

  lemma HeaderMoves(s: State, t: Thread, accepted: nat, fails: bool)
    requires Enabled(s, WriteHeader(t, accepted, fails)) && ThreadInv(s, t)
    ensures ThreadInv(Exec(s, WriteHeader(t, accepted, fails)), t)
  {
    hide ThreadInv, Header;
    PlainMove(s, Exec(s, WriteHeader(t, accepted, fails)), t);
  }

  lemma BodyMoves(s: State, t: Thread, accepted: nat, fails: bool)
    requires Enabled(s, WriteBody(t, accepted, fails)) && ThreadInv(s, t)
    ensures ThreadInv(Exec(s, WriteBody(t, accepted, fails)), t)
  {
    var s' := Exec(s, WriteBody(t, accepted, fails));
    if fails {
      hide ThreadInv;
      PlainMove(s, s', t);
    } else {
      assert s'.threads[t] == Sealing(s.threads[t].job, Accepted);
      assert Lookup(s'.out.sent, t) == Some(s.threads[t].job);
    }
  }

  lemma SealMoves(s: State, t: Thread)
    requires Enabled(s, Seal(t)) && ThreadInv(s, t)
    ensures ThreadInv(Exec(s, Seal(t)), t)
  {
    hide ThreadInv;
    PlainMove(s, Exec(s, Seal(t)), t);
  }

  lemma PublishMoves(s: State, t: Thread)
    requires Enabled(s, Publish(t)) && ThreadInv(s, t)
    ensures ThreadInv(Exec(s, Publish(t)), t)
  {
    var s' := Exec(s, Publish(t));
    assert s'.threads[t] == Unlocking(s.threads[t].job, Accepted) && s'.out == s.out && s'.table == s.table;
  }

  lemma ReleaseMoves(s: State, t: Thread)
    requires Enabled(s, Release(t)) && ThreadInv(s, t)
    ensures ThreadInv(Exec(s, Release(t)), t)
  {
    var s' := Exec(s, Release(t));
    assert s'.out == s.out && s'.table == s.table && s'.receipts == s.receipts;
    if !s.threads[t].outcome.Accepted? {
      hide ThreadInv;
      PlainMove(s, s', t);
    }
  }

  lemma CloseChannelMoves(s: State, t: Thread)
    requires Enabled(s, CloseChannel(t)) && ThreadInv(s, t)
    ensures ThreadInv(Exec(s, CloseChannel(t)), t)
  {
    var s' := Exec(s, CloseChannel(t));
    assert s'.out == s.out && s'.table.issued == s.table.issued && s'.receipts == s.receipts;
    if s.threads[t].Closing? {
      hide ThreadInv;
      PlainMove(s, s', t);
    }
  }

  lemma CloseDoneMoves(s: State, t: Thread)
    requires Enabled(s, CloseDone(t)) && ThreadInv(s, t)
    ensures ThreadInv(Exec(s, CloseDone(t)), t)
  {
    var s' := Exec(s, CloseDone(t));
    assert s'.out == s.out && s'.table == s.table && s'.receipts == s.receipts;
    if s.threads[t].ClosingDone? {
      hide ThreadInv;
      PlainMove(s, s', t);
    }
  }

  lemma FailReceiptMoves(s: State, t: Thread)
    requires Enabled(s, FailReceipt(t)) && ThreadInv(s, t)
    ensures ThreadInv(Exec(s, FailReceipt(t)), t)
  {
    var s' := Exec(s, FailReceipt(t));
    assert s'.threads[t] == Returned(s.threads[t].job, false) && s'.out == s.out && s'.table == s.table;
  }

  lemma WriteMover(s: State, step: Step)
    requires Enabled(s, step) && IsWrite(step) && ThreadInv(s, step.t) && step.t in Exec(s, step).threads
    ensures ThreadInv(Exec(s, step), step.t)
  {
    hide Exec, ThreadInv;
    match step
    case Acquire(t) => AcquireMoves(s, t);
    case Admit(t) => AdmitMoves(s, t);
    case WriteHeader(t, accepted, fails) => HeaderMoves(s, t, accepted, fails);
    case WriteBody(t, accepted, fails) => BodyMoves(s, t, accepted, fails);
    case Seal(t) => SealMoves(s, t);
    case Publish(t) => PublishMoves(s, t);
    case Release(t) => ReleaseMoves(s, t);
    case CloseChannel(t) => CloseChannelMoves(s, t);
    case CloseDone(t) => CloseDoneMoves(s, t);
    case FailReceipt(t) => FailReceiptMoves(s, t);
  }

  lemma StartingMover(s: State, step: Step)
    requires Enabled(s, step) && ThreadsKnown(s)
    requires step.StartRequest? || step.StartNotification? || step.StartClose? || step.ReceiveRequest? || step.ReceiveUnhandled?
    ensures step.t in Exec(s, step).threads && ThreadInv(Exec(s, step), step.t)
  {
    hide ExecWrite, Header, RequestWritten, Encode, EncodeAll, HeaderBytes, BodyBytes, FrameComplete;
    match step
    case StartRequest(t, body) =>
    case StartNotification(t, body) =>
    case StartClose(t) =>
    case ReceiveRequest(t) =>
    case ReceiveUnhandled(t, body) =>
  }

  lemma RegisterMoves(s: State, t: Thread)
    requires Enabled(s, Register(t)) && ThreadInv(s, t)
    ensures ThreadInv(Exec(s, Register(t)), t)
  {
    var s' := Exec(s, Register(t));
    assert s'.out == s.out && s'.receipts == s.receipts;
  }

  lemma HandlerMoves(s: State, t: Thread, job: Job, body: Text)
    requires Enabled(s, HandlerReturns(t, job, body)) && ThreadInv(s, t)
    ensures ThreadInv(Exec(s, HandlerReturns(t, job, body)), t)
  {
    var s' := Exec(s, HandlerReturns(t, job, body));
    assert s'.out == s.out && s'.table == s.table && s'.threads[t] == WantLock(job, body);
  }

  lemma ReturnToRequest(s: State, t: Thread)
    requires Enabled(s, Return(t)) && ThreadInv(s, t) && s.threads[t].job.Request?
    ensures ThreadInv(Exec(s, Return(t)), t)
  {
    var s' := Exec(s, Return(t));
    var id := s.threads[t].job.id;
    assert s'.out == s.out && s'.table.issued == s.table.issued && s'.receipts == s.receipts;
    assert s'.threads[t] == if s.threads[t].ok then Awaiting(id) else Done;
  }

  lemma ReturnToErrorReply(s: State, t: Thread)
    requires Enabled(s, Return(t)) && ThreadInv(s, t) && s.threads[t].job.ErrorReply?
    ensures ThreadInv(Exec(s, Return(t)), t)
  {
    var s' := Exec(s, Return(t));
    assert s'.out == s.out && s'.table == s.table && s'.threads[t] == Done;
  }

  lemma ReturnElsewhere(s: State, t: Thread)
    requires Enabled(s, Return(t)) && ThreadInv(s, t) && (s.threads[t].job.Response? || s.threads[t].job.Notification?)
    ensures ThreadInv(Exec(s, Return(t)), t)
  {
    var s' := Exec(s, Return(t));
    assert s'.out == s.out && s'.table == s.table && s'.receipts == s.receipts && s'.threads[t] == Done;
  }

  lemma ReturnMoves(s: State, t: Thread)
    requires Enabled(s, Return(t)) && ThreadInv(s, t) && t in Exec(s, Return(t)).threads
    ensures ThreadInv(Exec(s, Return(t)), t)
  {
    hide ThreadInv, Exec;
    match s.threads[t].job
    case Request(_) => ReturnToRequest(s, t);
    case ErrorReply(_) => ReturnToErrorReply(s, t);
    case _ => ReturnElsewhere(s, t);
  }

  lemma WaitingMover(s: State, step: Step)
    requires Enabled(s, step) && (step.TakeResponse? || step.Cancel? || step.Forget? || step.SeeClosed?) && ThreadInv(s, step.t)
    ensures step.t in Exec(s, step).threads && ThreadInv(Exec(s, step), step.t)
  {
    hide Exec, Enabled, ThreadInv;
    if step.Cancel? {
      CancelMover(s, step);
    } else {
      LeavingMover(s, step);
    }
  }

  lemma CancelMover(s: State, step: Step)
    requires Enabled(s, step) && step.Cancel? && ThreadInv(s, step.t)
    ensures step.t in Exec(s, step).threads && ThreadInv(Exec(s, step), step.t)
  {
    hide ExecWrite, ExecRead, Header, Writable, RequestWritten, Encode, EncodeAll;
  }

  lemma LeavingMover(s: State, step: Step)
    requires Enabled(s, step) && (step.TakeResponse? || step.Forget? || step.SeeClosed?) && ThreadInv(s, step.t)
    ensures step.t in Exec(s, step).threads && ThreadInv(Exec(s, step), step.t)
  {
    hide ExecWrite, ExecRead, Header, Writable, RequestWritten, Encode, EncodeAll;
    match step
    case TakeResponse(t) =>
    case Forget(t) =>
    case SeeClosed(t) =>
  }

  lemma MoverStep(s: State, step: Step)
    requires Inv(s) && Enabled(s, step)
    requires !IsRead(step) || step.ReceiveRequest? || step.ReceiveUnhandled?
    ensures step.t in Exec(s, step).threads && ThreadInv(Exec(s, step), step.t)
    ensures Local(s, Exec(s, step), step.t)
  {
    hide LockInv, WireInv, Exec, DeliveryInv, AnswerInv, ThreadsKnown, ThreadInv, Local;
    if IsRead(step) {
      ReadIsLocal(s, step);
      StartingMover(s, step);
    } else if IsWrite(step) {
      WriteIsLocal(s, step);
      LocalHasThread(s, Exec(s, step), step.t);
      WriteMover(s, step);
    } else {
      CallIsLocal(s, step);
      CallMover(s, step);
    }
  }

  lemma LocalHasThread(s: State, s': State, t: Thread)
    requires Local(s, s', t)
    ensures t in s'.threads
  {}

  lemma CallMover(s: State, step: Step)
    requires Inv(s) && Enabled(s, step) && !IsRead(step) && !IsWrite(step)
    ensures step.t in Exec(s, step).threads && ThreadInv(Exec(s, step), step.t)
  {
    hide LockInv, WireInv, Exec, DeliveryInv, AnswerInv, ThreadsKnown, ThreadInv, Writable;
    CallIsLocal(s, step);
    match step
    case Register(t) => RegisterMoves(s, t);
    case HandlerReturns(t, job, body) => HandlerMoves(s, t, job, body);
    case Return(t) => ReturnMoves(s, t);
    case StartRequest(_, _) => StartingMover(s, step);
    case StartNotification(_, _) => StartingMover(s, step);
    case StartClose(_) => StartingMover(s, step);
    case _ => WaitingMover(s, step);
  }

  lemma ThreadsStep(s: State, step: Step)
    requires Inv(s) && Enabled(s, step)
    ensures forall u :: u in Exec(s, step).threads ==> ThreadInv(Exec(s, step), u)
    ensures ThreadsKnown(Exec(s, step))
  {
    hide LockInv, WireInv, Exec, Enabled, DeliveryInv, AnswerInv, ThreadInv;
    var s' := Exec(s, step);
    if !IsRead(step) || step.ReceiveRequest? || step.ReceiveUnhandled? {
      MoverStep(s, step);
      LocalKeepsKnown(s, s', step.t);
      forall u | u in s'.threads ensures ThreadInv(s', u) {
        if u != step.t {
          LocalKeepsOthers(s, s', step.t, u);
        }
      }
    } else {
      ReadIsLocal(s, step);
      forall u | u in s'.threads ensures ThreadInv(s', u) {
        OtherThreadKeeps(s, s', u);
      }
    }
  }

  // ---- The request table -------------------------------------------------------

  lemma RegisterKeepsDelivery(s: State, t: Thread)
    requires Inv(s) && Enabled(s, Register(t))
    ensures DeliveryInv(Exec(s, Register(t)).table)
  {
    hide WireInv, LockInv, AnswerInv, ThreadInv, ThreadsKnown;
    assert s.table.nextID !in s.table.issued;
  }

  lemma TakeKeepsDelivery(s: State, t: Thread)
    requires DeliveryInv(s.table) && Enabled(s, TakeResponse(t)) && ThreadInv(s, t)
    ensures DeliveryInv(Exec(s, TakeResponse(t)).table)
  {
    hide FrameInv, ReceiptInv;
    var table, table' := s.table, Exec(s, TakeResponse(t)).table;
    var id := s.threads[t].id;
    assert table' == table.(inbox := table.inbox - {id}, results := table.results[t := table.inbox[id]]);
    assert table.issued[id] == t && table.inbox[id].id == id;
  }

  // Taking ids out of the pending table and noting cancellations change no delivery.
  lemma FewerPending(table: Table, table': Table)
    requires DeliveryInv(table) && table'.pending.Keys <= table.pending.Keys
    requires forall id :: id in table'.pending ==> table'.pending[id] == table.pending[id]
    requires table'.reader == table.reader || (!table'.reader.Delivering? && !table'.reader.Dispatching?)
             || (table'.reader.Dispatching? && table'.reader.msg.id in table'.answered)
    requires table'.nextID == table.nextID && table'.issued == table.issued && table'.inbox == table.inbox
    requires table'.results == table.results && table'.dispatched == table.dispatched && table.answered <= table'.answered
    ensures DeliveryInv(table')
  {
  }

  lemma DispatchKeepsDelivery(s: State)
    requires Enabled(s, Dispatch) && s.table.reader.msg.id in s.table.pending
    requires Inv(s)
    ensures DeliveryInv(Exec(s, Dispatch).table)
  {
    hide WireInv, LockInv, AnswerInv, ThreadInv, ThreadsKnown;
  }

  lemma DeliverKeepsDelivery(s: State)
    requires DeliveryInv(s.table) && Enabled(s, Deliver)
    ensures DeliveryInv(Exec(s, Deliver).table)
  {
  }

  lemma ReadKeepsDelivery(s: State, step: Step)
    requires Inv(s) && Enabled(s, step) && IsRead(step)
    ensures DeliveryInv(Exec(s, step).table)
  {
    hide WireInv, LockInv, AnswerInv, ThreadInv, ThreadsKnown, DeliveryInv, RequestWritten, ExecCall, ExecWrite, Header, Writable;
    var table, table' := s.table, Exec(s, step).table;
    if step.Dispatch? && table.reader.msg.id in table.pending {
      DispatchKeepsDelivery(s);
    } else if step.Deliver? {
      DeliverKeepsDelivery(s);
    } else {
      FewerPending(table, table');
    }
  }

  lemma WriteKeepsDelivery(s: State, step: Step)
    requires DeliveryInv(s.table) && Enabled(s, step) && IsWrite(step)
    ensures DeliveryInv(Exec(s, step).table)
  {
    hide DeliveryInv, Exec, Enabled, Local;
    if PutsBytes(step) {
      ByteStepIsLocal(s, step);
    } else if step.CloseChannel? || step.CloseDone? || step.FailReceipt? {
      CloseStepIsLocal(s, step);
      FewerPending(s.table, Exec(s, step).table);
    } else {
      LockStepIsLocal(s, step);
    }
  }

  lemma OtherCallKeepsDelivery(s: State, step: Step)
    requires DeliveryInv(s.table) && Enabled(s, step) && !IsRead(step) && !IsWrite(step)
    requires !step.Register? && !step.TakeResponse?
    ensures DeliveryInv(Exec(s, step).table)
  {
    hide DeliveryInv, ExecRead, ExecWrite, Header, Writable, RequestWritten;
    FewerPending(s.table, Exec(s, step).table);
  }

  lemma DeliveryStep(s: State, step: Step)
    requires Inv(s) && Enabled(s, step)
    ensures DeliveryInv(Exec(s, step).table)
  {
    hide WireInv, LockInv, AnswerInv, ThreadInv, ThreadsKnown, DeliveryInv, RequestWritten, Exec;
    if IsRead(step) {
      ReadKeepsDelivery(s, step);
    } else if IsWrite(step) {
      WriteKeepsDelivery(s, step);
    } else if step.Register? {
      RegisterKeepsDelivery(s, step.t);
    } else if step.TakeResponse? {
      TakeKeepsDelivery(s, step.t);
    } else {
      OtherCallKeepsDelivery(s, step);
    }
  }

  // ---- Broken writes -----------------------------------------------------------

  // Once a write broke off or a terminal frame is out, no step adds a byte.
  lemma EndedStaysSilent(s: State, step: Step)
    requires Inv(s) && Ended(s.out) && Enabled(s, step)
    ensures Exec(s, step).out == s.out
  {
    hide WireInv, AnswerInv, DeliveryInv, ThreadInv, ThreadsKnown, BreakInv;
    if !PutsBytes(step) {
      hide Exec;
      OnlyWritesTouchWire(s, step);
    }
  }

  lemma BrokenStays(s: State, step: Step)
    requires Inv(s) && Enabled(s, step)
    ensures s.out.broken.None? || Exec(s, step).out.broken == s.out.broken
  {
    hide Inv, Exec, Enabled;
    if s.out.broken.Some? {
      EndedStaysSilent(s, step);
    }
  }

  lemma ReadKeepsBreak(s: State, step: Step)
    requires BreakInv(s) && Enabled(s, step) && IsRead(step) && ThreadsKnown(s)
    ensures BreakInv(Exec(s, step))
  {
    hide Exec, ThreadsKnown;
    ReadIsLocal(s, step);
    OnlyWritesTouchWire(s, step);
    SpawnedIsFresh(s, step);
  }

  lemma SpawnedIsFresh(s: State, step: Step)
    requires Enabled(s, step)
    ensures step.ReceiveRequest? || step.ReceiveUnhandled? ==> step.t !in s.threads
  {
  }

  // A thread whose write broke off goes straight to closing the channel.
  lemma BreakerMoves(s: State, step: Step)
    requires Enabled(s, step) && !IsRead(step) && step.t in s.threads && BreakingOff(s.threads[step.t])
    ensures var s' := Exec(s, step);
      s'.closed || (step.t in s'.threads && BreakingOff(s'.threads[step.t]))
  {
    hide ExecRead, ExecCall, Header, Writable, RequestWritten, HeaderBytes, BodyBytes, FrameComplete;
  }

  // Whoever breaks a write is about to seal it.
  lemma BreakStarts(s: State, step: Step)
    requires Enabled(s, step) && PutsBytes(step) && s.out.broken.None? && Exec(s, step).out.broken.Some?
    ensures var s' := Exec(s, step);
      s'.out.broken.value.thread == step.t && step.t in s'.threads && BreakingOff(s'.threads[step.t])
  {
    hide ExecRead, ExecCall, Header, Writable, RequestWritten;
  }

  lemma MoveKeepsBreak(s: State, step: Step)
    requires Inv(s) && Enabled(s, step) && !IsRead(step)
    ensures BreakInv(Exec(s, step))
  {
    hide WireInv, LockInv, AnswerInv, DeliveryInv, ThreadInv, ThreadsKnown, Exec, Enabled;
    var s' := Exec(s, step);
    if IsWrite(step) {
      WriteIsLocal(s, step);
    } else {
      CallIsLocal(s, step);
    }
    BrokenStays(s, step);
    if s.out.broken.Some? {
      if step.t == s.out.broken.value.thread && !s.closed {
        BreakerMoves(s, step);
      }
    } else if s'.out.broken.Some? {
      if PutsBytes(step) {
        BreakStarts(s, step);
      } else {
        OnlyWritesTouchWire(s, step);
      }
    }
  }

  // ---- Answers -----------------------------------------------------------------

  // Nothing that matters to answers got worse.
  ghost predicate AnswersSafe(s: State, s': State) {
    && s.table.issued.Keys <= s'.table.issued.Keys
    && (forall id :: id in s.table.issued ==> s'.table.issued[id] == s.table.issued[id])
    && (forall id :: id in s'.table.issued && id !in s.table.issued ==> Accounted(s', id))
    && (forall u :: GaveUp(s, u) ==> GaveUp(s', u))
    && (forall id :: id in s.table.issued && Accounted(s, id) ==> Accounted(s', id) || GaveUp(s', s.table.issued[id]))
    && (forall u :: FrameOut(s.out, u) ==> FrameOut(s'.out, u))
    && (forall u :: u in s'.threads && s'.threads[u].Forgetting? ==> s'.threads[u].id in s'.table.cancelled)
  }

  // The reader and its history did not move.
  ghost predicate ReaderIdle(s: State, s': State) {
    && s'.table.reader == s.table.reader && s'.table.honest == s.table.honest && s'.table.orphans == s.table.orphans
    && s'.table.dispatched == s.table.dispatched && s.table.cancelled <= s'.table.cancelled && (s.closed ==> s'.closed)
  }

  lemma AnswersKept(s: State, s': State)
    requires AnswerInv(s) && AnswersSafe(s, s') && ReaderIdle(s, s')
    ensures AnswerInv(s')
  {
    hide Accounted, GaveUp, FrameOut;
  }

  // A step of a running thread never revives one that gave up.
  lemma LocalKeepsGivenUp(s: State, s': State, t: Thread)
    requires Local(s, s', t) && (t in s.threads ==> !s.threads[t].Done?)
    ensures forall u :: GaveUp(s, u) ==> GaveUp(s', u)
    ensures s.out.broken.None? || s'.out.broken == s.out.broken ==> forall u :: FrameOut(s.out, u) ==> FrameOut(s'.out, u)
  {
    hide Encode, Writable;
  }

  lemma NoCancellation(s: State, s': State, t: Thread)
    requires Local(s, s', t) && AnswerInv(s) && s.table.cancelled <= s'.table.cancelled
    requires s'.threads[t].Forgetting? ==> s'.threads[t].id in s'.table.cancelled
    ensures forall u :: u in s'.threads && s'.threads[u].Forgetting? ==> s'.threads[u].id in s'.table.cancelled
  {
    hide Accounted, GaveUp;
  }

  lemma WriteKeepsAnswers(s: State, step: Step)
    requires Inv(s) && Enabled(s, step) && IsWrite(step)
    ensures AnswerInv(Exec(s, step))
  {
    hide WireInv, LockInv, ThreadInv, DeliveryInv, ThreadsKnown, GaveUp, Exec;
    var s' := Exec(s, step);
    WriteIsLocal(s, step);
    TableDuringWrite(s, step);
    BrokenStays(s, step);
    LocalKeepsGivenUp(s, s', step.t);
    NoCancellation(s, s', step.t);
    AnswersKept(s, s');
  }

  // Writing leaves the table alone, except that a close empties the pending one.
  lemma TableDuringWrite(s: State, step: Step)
    requires Enabled(s, step) && IsWrite(step) && step.t in s.threads && step.t in Exec(s, step).threads
    ensures var s' := Exec(s, step);
      && (s'.table == s.table || (s'.closed && s'.table == s.table.(pending := map[])))
      && !s.threads[step.t].Done? && !s'.threads[step.t].Forgetting?
  {
    hide Exec, Enabled, Local;
    if PutsBytes(step) {
      ByteStepIsLocal(s, step);
    } else if step.CloseChannel? || step.CloseDone? || step.FailReceipt? {
      CloseStepIsLocal(s, step);
    } else {
      LockStepIsLocal(s, step);
    }
  }

  lemma RegisterKeepsAnswers(s: State, t: Thread)
    requires Inv(s) && Enabled(s, Register(t))
    ensures AnswerInv(Exec(s, Register(t)))
  {
    hide WireInv, LockInv, ThreadInv, ThreadsKnown, GaveUp;
    var s' := Exec(s, Register(t));
    assert s.table.nextID !in s.table.issued;
    CallIsLocal(s, Register(t));
    LocalKeepsGivenUp(s, s', t);
    NoCancellation(s, s', t);
    AnswersKept(s, s');
  }

  lemma FailedRequestKeepsAnswers(s: State, t: Thread)
    requires Enabled(s, Return(t)) && s.threads[t].job.Request? && !s.threads[t].ok
    requires Inv(s)
    ensures AnswerInv(Exec(s, Return(t)))
  {
    hide WireInv, LockInv, DeliveryInv, ThreadsKnown, ReceiptInv;
    var s', id := Exec(s, Return(t)), s.threads[t].job.id;
    CallIsLocal(s, Return(t));
    LocalKeepsGivenUp(s, s', t);
    assert s' == Goto(s, t, Done).(table := s.table.(pending := s.table.pending - {id}));
    assert ThreadInv(s, t);
    assert s.table.issued[id] == t;
    assert GaveUp(s', t) || s'.closed;
    NoCancellation(s, s', t);
    hide GaveUp, FrameOut, ThreadInv, BreakInv;
    AnswersKept(s, s');
  }

  lemma OtherReturn(s: State, t: Thread)
    requires Enabled(s, Return(t)) && !(s.threads[t].job.Request? && !s.threads[t].ok)
    ensures var s' := Exec(s, Return(t));
      && s'.table == s.table && s'.closed == s.closed && s'.out == s.out
      && t in s'.threads && !s'.threads[t].Forgetting? && !s.threads[t].Done?
  {
    hide ExecWrite, ExecRead, Header, Writable, RequestWritten;
  }

  lemma ReturnKeepsAnswers(s: State, t: Thread)
    requires Inv(s) && Enabled(s, Return(t))
    ensures AnswerInv(Exec(s, Return(t)))
  {
    hide WireInv, LockInv, BreakInv, DeliveryInv, ThreadsKnown, ThreadInv, GaveUp, FrameOut, Exec;
    if s.threads[t].job.Request? && !s.threads[t].ok {
      FailedRequestKeepsAnswers(s, t);
    } else {
      var s' := Exec(s, Return(t));
      CallIsLocal(s, Return(t));
      OtherReturn(s, t);
      LocalKeepsGivenUp(s, s', t);
      NoCancellation(s, s', t);
      AnswersKept(s, s');
    }
  }

  lemma ForgetKeepsAnswers(s: State, t: Thread)
    requires Inv(s) && Enabled(s, Forget(t))
    ensures AnswerInv(Exec(s, Forget(t)))
  {
    hide WireInv, LockInv, ThreadInv, DeliveryInv, ThreadsKnown, GaveUp;
    var s' := Exec(s, Forget(t));
    CallIsLocal(s, Forget(t));
    LocalKeepsGivenUp(s, s', t);
    NoCancellation(s, s', t);
    AnswersKept(s, s');
  }

  lemma CallKeepsAnswers(s: State, step: Step)
    requires Inv(s) && Enabled(s, step) && !IsRead(step) && !IsWrite(step)
    requires !step.Register? && !step.Return? && !step.Forget?
    ensures AnswerInv(Exec(s, step))
  {
    hide WireInv, LockInv, ThreadInv, DeliveryInv, ThreadsKnown, GaveUp;
    var s' := Exec(s, step);
    CallIsLocal(s, step);
    LocalKeepsGivenUp(s, s', step.t);
    NoCancellation(s, s', step.t);
    AnswersKept(s, s');
  }

  // The heart of it: an answer that finds nobody waiting is late or dishonest.
  lemma OrphanKeepsAnswers(s: State)
    requires AnswerInv(s) && Enabled(s, Dispatch) && s.table.reader.msg.id !in s.table.pending
    ensures AnswerInv(Exec(s, Dispatch))
  {
    var s', id := Exec(s, Dispatch), s.table.reader.msg.id;
    assert s' == s.(table := s.table.(reader := Reading, orphans := s.table.orphans + {id}));
    if s.table.honest {
      assert !GaveUp(s, s.table.issued[id]);
      assert Accounted(s, id);
    }
    assert forall k :: Accounted(s, k) <==> Accounted(s', k);
    assert forall u :: GaveUp(s, u) <==> GaveUp(s', u);
    hide GaveUp, Accounted, RequestWritten;
  }

  lemma FoundKeepsAnswers(s: State)
    requires AnswerInv(s) && Enabled(s, Dispatch) && s.table.reader.msg.id in s.table.pending
    ensures AnswerInv(Exec(s, Dispatch))
  {
    var s', msg := Exec(s, Dispatch), s.table.reader.msg;
    assert s' == s.(table := s.table.(reader := Delivering(msg), pending := s.table.pending - {msg.id},
                                      dispatched := s.table.dispatched + {msg.id}));
    assert forall k :: Accounted(s, k) ==> Accounted(s', k);
    assert forall u :: GaveUp(s, u) <==> GaveUp(s', u);
    hide GaveUp, Accounted, RequestWritten;
  }

  lemma DispatchKeepsAnswers(s: State)
    requires Inv(s) && Enabled(s, Dispatch)
    ensures AnswerInv(Exec(s, Dispatch))
  {
    hide WireInv, LockInv, ThreadInv, DeliveryInv, ThreadsKnown, AnswerInv, Exec;
    if s.table.reader.msg.id in s.table.pending {
      FoundKeepsAnswers(s);
    } else {
      OrphanKeepsAnswers(s);
    }
  }

  lemma ReceiveKeepsAnswers(s: State, msg: Message)
    requires Inv(s) && Enabled(s, ReceiveResponse(msg))
    ensures AnswerInv(Exec(s, ReceiveResponse(msg)))
  {
    hide WireInv, LockInv, ThreadInv;
    var s' := Exec(s, ReceiveResponse(msg));
    assert s'.threads == s.threads && s'.out == s.out && s'.closed == s.closed && s'.table.issued == s.table.issued;
    assert forall id :: Accounted(s, id) <==> Accounted(s', id);
    assert forall u :: GaveUp(s, u) <==> GaveUp(s', u);
  }

  lemma ReadKeepsAnswers(s: State, step: Step)
    requires Inv(s) && Enabled(s, step) && IsRead(step)
    ensures AnswerInv(Exec(s, step))
  {
    hide WireInv, LockInv, ThreadInv, DeliveryInv, ThreadsKnown, RequestWritten;
    var s' := Exec(s, step);
    match step
    case ReceiveResponse(msg) => ReceiveKeepsAnswers(s, msg);
    case Dispatch => DispatchKeepsAnswers(s);
    case ReceiveRequest(t) => SpawnKeepsAnswers(s, step);
    case ReceiveUnhandled(t, _) => SpawnKeepsAnswers(s, step);
    case _ => OtherReadKeepsAnswers(s, step);
  }

  lemma SpawnKeepsAnswers(s: State, step: Step)
    requires Inv(s) && Enabled(s, step) && (step.ReceiveRequest? || step.ReceiveUnhandled?)
    ensures AnswerInv(Exec(s, step))
  {
    hide WireInv, LockInv, ThreadInv, DeliveryInv, ThreadsKnown, GaveUp;
    var s' := Exec(s, step);
    ReadIsLocal(s, step);
    LocalKeepsGivenUp(s, s', step.t);
    NoCancellation(s, s', step.t);
    AnswersKept(s, s');
  }

  lemma OtherReadKeepsAnswers(s: State, step: Step)
    requires Inv(s) && Enabled(s, step) && (step.Deliver? || step.ReaderFaults? || step.ReaderCloses? || step.ReaderDone?)
    ensures AnswerInv(Exec(s, step))
  {
    hide WireInv, LockInv, ThreadInv, DeliveryInv, ThreadsKnown;
    var s' := Exec(s, step);
    assert s'.threads == s.threads && s'.out == s.out && (s.closed ==> s'.closed) && s'.table.issued == s.table.issued;
    assert forall id :: Accounted(s, id) ==> Accounted(s', id);
    assert forall u :: GaveUp(s, u) <==> GaveUp(s', u);
  }

  /** Every step of every thread keeps the invariant. */
  lemma InvStep(s: State, step: Step)
    requires Inv(s) && Enabled(s, step)
    ensures Inv(Exec(s, step))
  {
    hide WireInv, LockInv, BreakInv, ThreadInv, DeliveryInv, ThreadsKnown, AnswerInv, Exec, Enabled;
    LockAndWireStep(s, step);
    ThreadsStep(s, step);
    DeliveryStep(s, step);
    if IsRead(step) {
      ReadKeepsBreak(s, step);
      ReadKeepsAnswers(s, step);
    } else if IsWrite(step) {
      MoveKeepsBreak(s, step);
      WriteKeepsAnswers(s, step);
    } else {
      MoveKeepsBreak(s, step);
      match step
      case Register(t) => RegisterKeepsAnswers(s, t);
      case Return(t) => ReturnKeepsAnswers(s, t);
      case Forget(t) => ForgetKeepsAnswers(s, t);
      case _ => CallKeepsAnswers(s, step);
    }
  }
}
