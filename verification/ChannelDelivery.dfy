/** What callers get: the caller of a request receives the very message that
    answered it, and nothing a channel is asked to send is held back without cause. */
module ChannelDelivery {
  import opened Wrappers
  import opened Bytes
  import opened Frames
  import opened Channel
  import opened ChannelSafety
  import opened ChannelRuns

  // ---- Answers, message by message -------------------------------------------

  /** The last response the peer sent. */
  function LastReceived(steps: seq<Step>): Option<Message> {
    if |steps| == 0 then None
    else if steps[|steps| - 1].ReceiveResponse? then Some(steps[|steps| - 1].msg)
    else LastReceived(steps[..|steps| - 1])
  }

  /** The first response with this id that was dispatched while its request was
      pending: the answer of the request. */
  ghost function AnswerTo(steps: seq<Step>, id: nat): Option<Message> {
    if |steps| == 0 then None
    else
      var front := steps[..|steps| - 1];
      var earlier := AnswerTo(front, id);
      if earlier.Some? then earlier
      else if steps[|steps| - 1].Dispatch? && StateAfter(INITIAL, front).Some?
           && id in StateAfter(INITIAL, front).value.table.pending
           && LastReceived(front).Some? && LastReceived(front).value.id == id
      then LastReceived(front)
      else None
  }

  // Where the answer to `id` is: about to be handed over, waiting for its caller, or with it.
  ghost predicate Holds'(table: Table, id: nat, msg: Message) {
    || table.reader == Delivering(msg)
    || (id in table.inbox && table.inbox[id] == msg)
    || (id in table.issued && table.issued[id] in table.results && table.results[table.issued[id]] == msg)
  }

  ghost predicate AnswersAreTrue(table: Table, steps: seq<Step>) {
    && (table.reader.Dispatching? ==> LastReceived(steps) == Some(table.reader.msg))
    && (table.reader.Delivering? ==> AnswerTo(steps, table.reader.msg.id) == Some(table.reader.msg))
    && (forall id :: id in table.inbox ==> AnswerTo(steps, id) == Some(table.inbox[id]))
    && (forall t :: t in table.results ==> AnswerTo(steps, table.results[t].id) == Some(table.results[t]))
    && (forall id :: id in table.dispatched ==>
          AnswerTo(steps, id).Some? && AnswerTo(steps, id).value.id == id && Holds'(table, id, AnswerTo(steps, id).value))
    && (forall id :: AnswerTo(steps, id).Some? ==> id in table.dispatched)
  }

  // A caller that has its result is done.
  ghost predicate ResultsAreFinal(s: State) {
    forall t :: t in s.table.results ==> t in s.threads && s.threads[t].Done?
  }

  // A step that leaves the hand-over alone.
  lemma OtherStepKeepsAnswers(s: State, step: Step, steps: seq<Step>)
    requires StateAfter(INITIAL, steps) == Some(s) && Enabled(s, step) && AnswersAreTrue(s.table, steps)
    requires !step.ReceiveResponse? && !step.Dispatch?
    requires var table' := Exec(s, step).table;
      && table'.inbox == s.table.inbox && table'.results == s.table.results && table'.dispatched == s.table.dispatched
      && (table'.reader == s.table.reader || (!table'.reader.Dispatching? && !table'.reader.Delivering? && !s.table.reader.Delivering?))
      && (forall id :: id in s.table.issued ==> id in table'.issued && table'.issued[id] == s.table.issued[id])
    ensures AnswersAreTrue(Exec(s, step).table, steps + [step])
  {
    Unmoved(steps, step);
    hide Exec, Enabled, AnswerTo, LastReceived, StateAfter;
  }

  lemma Unmoved(steps: seq<Step>, step: Step)
    ensures !step.ReceiveResponse? ==> LastReceived(steps + [step]) == LastReceived(steps)
    ensures !step.Dispatch? ==> forall id :: AnswerTo(steps + [step], id) == AnswerTo(steps, id)
  {
    assert (steps + [step])[..|steps|] == steps;
    hide StateAfter;
  }

  lemma ReceiveKeepsTruth(s: State, msg: Message, steps: seq<Step>)
    requires StateAfter(INITIAL, steps) == Some(s) && Enabled(s, ReceiveResponse(msg)) && AnswersAreTrue(s.table, steps)
    ensures AnswersAreTrue(Exec(s, ReceiveResponse(msg)).table, steps + [ReceiveResponse(msg)])
  {
    var step := ReceiveResponse(msg);
    Unmoved(steps, step);
    assert (steps + [step])[..|steps|] == steps;
    var table' := Exec(s, step).table;
    assert table'.reader == Dispatching(msg) && table'.inbox == s.table.inbox && table'.results == s.table.results;
    assert table'.dispatched == s.table.dispatched && table'.issued == s.table.issued && s.table.reader.Reading?;
    hide Exec, Enabled, AnswerTo, StateAfter;
  }

  // The four steps of a hand-over, on the table.
  lemma DispatchTable(s: State)
    requires Enabled(s, Dispatch)
    ensures s.table.reader.Dispatching?
    ensures var msg := s.table.reader.msg;
      Exec(s, Dispatch).table ==
        if msg.id in s.table.pending then
          s.table.(reader := Delivering(msg), pending := s.table.pending - {msg.id}, dispatched := s.table.dispatched + {msg.id})
        else s.table.(reader := Reading, orphans := s.table.orphans + {msg.id})
    ensures Exec(s, Dispatch).threads == s.threads
  {
    hide ExecCall, ExecWrite;
  }

  lemma DeliverTable(s: State)
    requires Enabled(s, Deliver)
    ensures s.table.reader.Delivering?
    ensures var msg := s.table.reader.msg;
      Exec(s, Deliver).table == s.table.(reader := Reading, inbox := s.table.inbox[msg.id := msg])
    ensures Exec(s, Deliver).threads == s.threads
  {
    hide ExecCall, ExecWrite;
  }

  lemma TakeTable(s: State, t: Thread)
    requires Enabled(s, TakeResponse(t))
    ensures At(s, t) && s.threads[t].Awaiting? && s.threads[t].id in s.table.inbox
    ensures var id := s.threads[t].id;
      Exec(s, TakeResponse(t)).table == s.table.(inbox := s.table.inbox - {id}, results := s.table.results[t := s.table.inbox[id]])
    ensures Exec(s, TakeResponse(t)).threads == s.threads[t := Done]
  {
    hide ExecRead, ExecWrite;
  }

  lemma DispatchedIsTrue(table: Table, table': Table, msg: Message, steps: seq<Step>, all: seq<Step>)
    requires AnswersAreTrue(table, steps) && DeliveryInv(table) && table.reader == Dispatching(msg) && msg.id in table.pending
    requires table' == table.(reader := Delivering(msg), pending := table.pending - {msg.id}, dispatched := table.dispatched + {msg.id})
    requires AnswerTo(all, msg.id) == Some(msg)
    requires forall id :: id != msg.id ==> AnswerTo(all, id) == AnswerTo(steps, id)
    ensures AnswersAreTrue(table', all)
  {
    hide AnswerTo, LastReceived, StateAfter;
    forall id | id in table'.dispatched
      ensures AnswerTo(all, id).Some? && AnswerTo(all, id).value.id == id && Holds'(table', id, AnswerTo(all, id).value)
    {
      assert id != msg.id ==> id in table.dispatched;
    }
  }

  lemma OrphanIsTrue(table: Table, table': Table, steps: seq<Step>, all: seq<Step>)
    requires AnswersAreTrue(table, steps) && table.reader.Dispatching?
    requires table' == table.(reader := Reading, orphans := table'.orphans)
    requires forall id :: AnswerTo(all, id) == AnswerTo(steps, id)
    ensures AnswersAreTrue(table', all)
  {
    hide AnswerTo, LastReceived, StateAfter;
  }

  lemma DeliveredIsTrue(table: Table, table': Table, msg: Message, steps: seq<Step>, all: seq<Step>)
    requires AnswersAreTrue(table, steps) && table.reader == Delivering(msg)
    requires table' == table.(reader := Reading, inbox := table.inbox[msg.id := msg])
    requires forall id :: AnswerTo(all, id) == AnswerTo(steps, id)
    ensures AnswersAreTrue(table', all)
  {
    hide AnswerTo, LastReceived, StateAfter;
    forall id | id in table'.dispatched
      ensures AnswerTo(all, id).Some? && AnswerTo(all, id).value.id == id && Holds'(table', id, AnswerTo(all, id).value)
    {
      assert id in table.dispatched;
    }
  }

  lemma TakenIsTrue(table: Table, table': Table, t: Thread, id: nat, steps: seq<Step>, all: seq<Step>)
    requires AnswersAreTrue(table, steps) && DeliveryInv(table)
    requires id in table.inbox && id in table.issued && table.issued[id] == t && t !in table.results
    requires table' == table.(inbox := table.inbox - {id}, results := table.results[t := table.inbox[id]])
    requires LastReceived(all) == LastReceived(steps) && forall id :: AnswerTo(all, id) == AnswerTo(steps, id)
    ensures AnswersAreTrue(table', all)
  {
    hide AnswerTo, LastReceived, StateAfter;
    forall i | i in table'.dispatched
      ensures AnswerTo(all, i).Some? && AnswerTo(all, i).value.id == i && Holds'(table', i, AnswerTo(all, i).value)
    {
      assert i in table.dispatched;
    }
  }

  lemma DispatchAnswers(s: State, steps: seq<Step>)
    requires StateAfter(INITIAL, steps) == Some(s) && AnswersAreTrue(s.table, steps) && s.table.reader.Dispatching?
    ensures var msg, all := s.table.reader.msg, steps + [Dispatch];
      && (msg.id in s.table.pending && AnswerTo(steps, msg.id).None? ==> AnswerTo(all, msg.id) == Some(msg))
      && (forall id :: id != msg.id || msg.id !in s.table.pending ==> AnswerTo(all, id) == AnswerTo(steps, id))
  {
    assert (steps + [Dispatch])[..|steps|] == steps;
    hide StateAfter, LastReceived;
  }

  lemma DispatchKeepsTruth(s: State, steps: seq<Step>)
    requires StateAfter(INITIAL, steps) == Some(s) && Enabled(s, Dispatch) && AnswersAreTrue(s.table, steps) && DeliveryInv(s.table)
    ensures AnswersAreTrue(Exec(s, Dispatch).table, steps + [Dispatch])
  {
    DispatchTable(s);
    hide Exec, Enabled, AnswerTo, LastReceived, StateAfter;
    DispatchAnswers(s, steps);
    var msg := s.table.reader.msg;
    if msg.id in s.table.pending {
      PendingIsUnanswered(s.table, msg.id, steps);
      hide AnswersAreTrue, DeliveryInv;
      DispatchedIsTrue(s.table, Exec(s, Dispatch).table, msg, steps, steps + [Dispatch]);
    } else {
      hide AnswersAreTrue, DeliveryInv;
      OrphanIsTrue(s.table, Exec(s, Dispatch).table, steps, steps + [Dispatch]);
    }
  }

  lemma PendingIsUnanswered(table: Table, id: nat, steps: seq<Step>)
    requires AnswersAreTrue(table, steps) && DeliveryInv(table) && id in table.pending
    ensures AnswerTo(steps, id).None?
  {
    hide AnswerTo, LastReceived;
  }

  lemma DeliverKeepsTruth(s: State, steps: seq<Step>)
    requires StateAfter(INITIAL, steps) == Some(s) && Enabled(s, Deliver) && AnswersAreTrue(s.table, steps)
    ensures AnswersAreTrue(Exec(s, Deliver).table, steps + [Deliver])
  {
    Unmoved(steps, Deliver);
    DeliverTable(s);
    hide Exec, Enabled, AnswerTo, LastReceived, StateAfter, AnswersAreTrue;
    DeliveredIsTrue(s.table, Exec(s, Deliver).table, s.table.reader.msg, steps, steps + [Deliver]);
  }

  lemma TakeKeepsTruth(s: State, t: Thread, steps: seq<Step>)
    requires StateAfter(INITIAL, steps) == Some(s) && Enabled(s, TakeResponse(t)) && AnswersAreTrue(s.table, steps)
    requires DeliveryInv(s.table) && t in s.threads && ThreadInv(s, t) && ResultsAreFinal(s)
    ensures AnswersAreTrue(Exec(s, TakeResponse(t)).table, steps + [TakeResponse(t)])
  {
    Unmoved(steps, TakeResponse(t));
    TakeTable(s, t);
    hide Exec, Enabled, AnswerTo, LastReceived, StateAfter, ReceiptInv, FrameInv, AnswersAreTrue, DeliveryInv;
    var id := s.threads[t].id;
    assert RequestOf(s.threads[t]) == Some(id);
    TakenIsTrue(s.table, Exec(s, TakeResponse(t)).table, t, id, steps, steps + [TakeResponse(t)]);
  }

  // The rest of the steps and the hand-over.
  lemma StepLeavesHandOver(s: State, step: Step)
    requires DeliveryInv(s.table) && Enabled(s, step)
    requires !step.ReceiveResponse? && !step.Dispatch? && !step.Deliver? && !step.TakeResponse?
    ensures var table' := Exec(s, step).table;
      && table'.inbox == s.table.inbox && table'.results == s.table.results && table'.dispatched == s.table.dispatched
      && (table'.reader == s.table.reader || (!table'.reader.Dispatching? && !table'.reader.Delivering? && !s.table.reader.Delivering?))
      && (forall id :: id in s.table.issued ==> id in table'.issued && table'.issued[id] == s.table.issued[id])
  {
    if IsWrite(step) {
      hide Exec, Enabled, DeliveryInv, Local;
      if PutsBytes(step) {
        ByteStepIsLocal(s, step);
      } else if step.CloseChannel? || step.CloseDone? || step.FailReceipt? {
        CloseStepIsLocal(s, step);
      } else {
        LockStepIsLocal(s, step);
      }
    } else if IsRead(step) {
      ReaderLeavesHandOver(s, step);
      hide Exec, Enabled, DeliveryInv;
    } else {
      CallLeavesHandOver(s, step);
      hide Exec, Enabled;
    }
  }

  lemma ReaderLeavesHandOver(s: State, step: Step)
    requires Enabled(s, step) && IsRead(step) && !step.ReceiveResponse? && !step.Dispatch? && !step.Deliver?
    ensures var table' := Exec(s, step).table;
      && table'.inbox == s.table.inbox && table'.results == s.table.results && table'.dispatched == s.table.dispatched
      && (table'.reader == s.table.reader || (!table'.reader.Dispatching? && !table'.reader.Delivering? && !s.table.reader.Delivering?))
      && table'.issued == s.table.issued
  {
    hide ExecCall, ExecWrite, Header, Writable, RequestWritten;
  }

  lemma CallLeavesHandOver(s: State, step: Step)
    requires DeliveryInv(s.table) && Enabled(s, step) && !IsRead(step) && !IsWrite(step) && !step.TakeResponse?
    ensures var table' := Exec(s, step).table;
      && table'.inbox == s.table.inbox && table'.results == s.table.results && table'.dispatched == s.table.dispatched
      && table'.reader == s.table.reader
      && (forall id :: id in s.table.issued ==> id in table'.issued && table'.issued[id] == s.table.issued[id])
  {
    CallOnTable(s, step);
    hide Exec, Enabled;
    assert s.table.nextID !in s.table.issued;
  }

  // A step of a call changes the list of pending requests and the ids only.
  lemma CallOnTable(s: State, step: Step)
    requires Enabled(s, step) && !IsRead(step) && !IsWrite(step) && !step.TakeResponse?
    ensures var table' := Exec(s, step).table;
      && table'.inbox == s.table.inbox && table'.results == s.table.results && table'.dispatched == s.table.dispatched
      && table'.reader == s.table.reader && table'.honest == s.table.honest && table'.answered == s.table.answered
      && (table'.issued == s.table.issued || (step.Register? && table'.issued == s.table.issued[s.table.nextID := step.t]))
  {
    hide ExecRead, ExecWrite, Header, Writable, RequestWritten, Complete;
    if step.Register? {
      assert s.closed ==> Exec(s, step).table == s.table;
    } else if step.Return? || step.Forget? {
      assert Exec(s, step).table == s.table.(pending := Exec(s, step).table.pending);
    }
  }

  lemma StepKeepsFinal(s: State, step: Step)
    requires DeliveryInv(s.table) && Enabled(s, step) && ResultsAreFinal(s)
    ensures ResultsAreFinal(Exec(s, step))
  {
    hide Exec, Enabled, DeliveryInv;
    match step
    case TakeResponse(t) => TakeTable(s, t);
    case ReceiveResponse(msg) => ReceiveTable(s, msg);
    case Dispatch => DispatchTable(s);
    case Deliver => DeliverTable(s);
    case _ =>
      StepLeavesHandOver(s, step);
      DoneStaysDone(s, step);
  }

  lemma ReceiveTable(s: State, msg: Message)
    requires Enabled(s, ReceiveResponse(msg))
    ensures Exec(s, ReceiveResponse(msg)).table.results == s.table.results
    ensures Exec(s, ReceiveResponse(msg)).threads == s.threads
  {
    hide ExecCall, ExecWrite;
  }

  lemma DoneStaysDone(s: State, step: Step)
    requires Enabled(s, step)
    ensures forall t :: t in s.threads && s.threads[t].Done? ==> t in Exec(s, step).threads && Exec(s, step).threads[t].Done?
  {
    DoneDoesNotMove(s, step);
    hide Exec, Enabled;
    if IsRead(step) {
      ReadIsLocal(s, step);
    } else if IsWrite(step) {
      WriteIsLocal(s, step);
    } else {
      CallIsLocal(s, step);
    }
  }

  lemma DoneDoesNotMove(s: State, step: Step)
    requires Enabled(s, step)
    ensures !IsRead(step) || step.ReceiveRequest? || step.ReceiveUnhandled? ==>
      step.t in s.threads ==> !s.threads[step.t].Done?
  {}

  lemma {:induction false} RunTellsTheTruth(steps: seq<Step>)
    requires StateAfter(INITIAL, steps).Some?
    ensures var s := StateAfter(INITIAL, steps).value;
      Inv(s) && ResultsAreFinal(s) && AnswersAreTrue(s.table, steps)
    decreases |steps|
  {
    hide Inv, Exec, Enabled, AnswersAreTrue, ResultsAreFinal;
    InitialInv();
    InvAlong(INITIAL, steps);
    if |steps| > 0 {
      var front, step := steps[..|steps| - 1], steps[|steps| - 1];
      RunTellsTheTruth(front);
      var s := StateAfter(INITIAL, front).value;
      InvHasDelivery(s);
      StepKeepsFinal(s, step);
      assert steps == front + [step];
      StepKeepsTruth(s, step, front);
    } else {
      NothingIsTrue();
    }
  }

  lemma InvHasDelivery(s: State)
    requires Inv(s)
    ensures DeliveryInv(s.table)
  {
    hide WireInv, LockInv, BreakInv, AnswerInv, ThreadsKnown, DeliveryInv, ThreadInv;
  }

  lemma NothingIsTrue()
    ensures ResultsAreFinal(INITIAL) && AnswersAreTrue(INITIAL.table, [])
  {}

  lemma StepKeepsTruth(s: State, step: Step, steps: seq<Step>)
    requires StateAfter(INITIAL, steps) == Some(s) && Enabled(s, step) && AnswersAreTrue(s.table, steps)
    requires Inv(s) && ResultsAreFinal(s)
    ensures AnswersAreTrue(Exec(s, step).table, steps + [step])
  {
    hide Exec, AnswersAreTrue, StateAfter, WireInv, LockInv, BreakInv, AnswerInv, ThreadsKnown, DeliveryInv, ResultsAreFinal, ThreadInv;
    match step
    case ReceiveResponse(msg) => ReceiveKeepsTruth(s, msg, steps);
    case Dispatch => DispatchKeepsTruth(s, steps);
    case Deliver => DeliverKeepsTruth(s, steps);
    case TakeResponse(t) => TakeKeepsTruth(s, t, steps);
    case _ =>
      StepLeavesHandOver(s, step);
      OtherStepKeepsAnswers(s, step, steps);
  }

  // The dispatch of a response with this id finds its request pending.
  ghost predicate FindsRequest(steps: seq<Step>, d: nat, id: nat) {
    && d < |steps| && steps[d].Dispatch?
    && StateAfter(INITIAL, steps[..d]).Some? && id in StateAfter(INITIAL, steps[..d]).value.table.pending
    && LastReceived(steps[..d]).Some? && LastReceived(steps[..d]).value.id == id
  }

  ghost predicate FindsFirst(steps: seq<Step>, d: nat, id: nat) {
    FindsRequest(steps, d, id) && forall e: nat :: e < d ==> !FindsRequest(steps, e, id)
  }

  // The response that step `k` received is the latest one before step `d`.
  predicate LatestBefore(steps: seq<Step>, k: nat, d: nat, msg: Message) {
    && k < d <= |steps| && steps[k] == ReceiveResponse(msg)
    && forall j :: k < j < d ==> !steps[j].ReceiveResponse?
  }

  lemma {:induction false} ReceivedIsLatest(steps: seq<Step>)
    requires LastReceived(steps).Some?
    ensures exists k: nat :: LatestBefore(steps, k, |steps|, LastReceived(steps).value)
    decreases |steps|
  {
    var msg := LastReceived(steps).value;
    if steps[|steps| - 1].ReceiveResponse? {
      assert LatestBefore(steps, |steps| - 1, |steps|, msg);
    } else {
      var front := steps[..|steps| - 1];
      ReceivedIsLatest(front);
      var k: nat :| LatestBefore(front, k, |front|, msg);
      assert LatestBefore(steps, k, |steps|, msg);
    }
  }

  lemma {:induction false} AnswerIsFirst(steps: seq<Step>, id: nat)
    requires AnswerTo(steps, id).Some?
    ensures exists d: nat :: FindsFirst(steps, d, id) && LastReceived(steps[..d]) == AnswerTo(steps, id)
    decreases |steps|
  {
    hide StateAfter, LastReceived;
    var n := |steps| - 1;
    var front := steps[..n];
    assert forall d :: 0 <= d < n ==> front[..d] == steps[..d];
    assert forall d :: 0 <= d < n ==> (FindsRequest(front, d, id) <==> FindsRequest(steps, d, id));
    if AnswerTo(front, id).Some? {
      AnswerIsFirst(front, id);
      var d: nat :| FindsFirst(front, d, id) && LastReceived(front[..d]) == AnswerTo(front, id);
      assert FindsFirst(steps, d, id);
    } else {
      assert FindsRequest(steps, n, id);
      forall e: nat | e < n ensures !FindsRequest(steps, e, id) {
        FoundIsAnswered(front, e, id);
      }
      assert FindsFirst(steps, n, id);
    }
  }

  lemma {:induction false} FoundIsAnswered(steps: seq<Step>, d: nat, id: nat)
    ensures FindsRequest(steps, d, id) ==> AnswerTo(steps, id).Some?
    decreases |steps|
  {
    hide StateAfter, LastReceived;
    if FindsRequest(steps, d, id) && d < |steps| - 1 {
      var front := steps[..|steps| - 1];
      assert front[..d] == steps[..d];
      FoundIsAnswered(front, d, id);
    }
  }

  lemma AnswerWasReceived(steps: seq<Step>, id: nat)
    requires AnswerTo(steps, id).Some?
    ensures AnswerTo(steps, id).value.id == id
    ensures exists k: nat, d: nat :: FindsFirst(steps, d, id) && LatestBefore(steps, k, d, AnswerTo(steps, id).value)
  {
    AnswerIsFirst(steps, id);
    hide AnswerTo, StateAfter;
    var d: nat :| FindsFirst(steps, d, id) && LastReceived(steps[..d]) == AnswerTo(steps, id);
    assert d < |steps|;
    hide FindsFirst, FindsRequest;
    ReceivedIsLatest(steps[..d]);
    hide LastReceived;
    var msg := AnswerTo(steps, id).value;
    var k: nat :| LatestBefore(steps[..d], k, d, msg);
    assert LatestBefore(steps, k, d, msg) by {
      assert forall j :: 0 <= j < d ==> steps[..d][j] == steps[j];
    }
  }

  /** In every run the result of a caller is exactly a message the peer sent, with
      its payload: the latest one before the first dispatch that carried the id of
      its request and found it pending. */
  lemma ResultsAreTheAnswers(steps: seq<Step>, t: Thread)
    requires StateAfter(INITIAL, steps).Some? && t in StateAfter(INITIAL, steps).value.table.results
    ensures var table := StateAfter(INITIAL, steps).value.table;
      var msg := table.results[t];
      && msg.id in table.issued && table.issued[msg.id] == t
      && AnswerTo(steps, msg.id) == Some(msg)
      && exists k: nat, d: nat :: FindsFirst(steps, d, msg.id) && LatestBefore(steps, k, d, msg)
  {
    RunTellsTheTruth(steps);
    var s := StateAfter(INITIAL, steps).value;
    hide StateAfter;
    InvHasDelivery(s);
    hide Inv, FindsFirst, LatestBefore;
    AnswerWasReceived(steps, s.table.results[t].id);
  }

  /** A dispatched answer is never lost or altered: it is about to be handed over,
      waits in the buffer of its request, or is the caller's result. */
  lemma AnswersAreNotLost(steps: seq<Step>, id: nat)
    requires StateAfter(INITIAL, steps).Some?
    ensures var table := StateAfter(INITIAL, steps).value.table;
      && (id in table.dispatched <==> AnswerTo(steps, id).Some?)
      && (id in table.dispatched ==> Holds'(table, id, AnswerTo(steps, id).value))
      && (table.reader.Delivering? ==> AnswerTo(steps, table.reader.msg.id) == Some(table.reader.msg))
  {
    RunTellsTheTruth(steps);
    hide StateAfter, AnswerTo;
  }

  function TimesReceived(steps: seq<Step>, id: nat): nat {
    if |steps| == 0 then 0
    else TimesReceived(steps[..|steps| - 1], id)
         + if steps[|steps| - 1].ReceiveResponse? && steps[|steps| - 1].msg.id == id then 1 else 0
  }

  /** An honest peer answers an id once, so the result is the only message with it. */
  lemma {:induction false} HonestAnswersOnce(steps: seq<Step>, id: nat)
    requires StateAfter(INITIAL, steps).Some? && StateAfter(INITIAL, steps).value.table.honest
    ensures TimesReceived(steps, id) == if id in StateAfter(INITIAL, steps).value.table.answered then 1 else 0
    decreases |steps|
  {
    if |steps| > 0 {
      var front, step := steps[..|steps| - 1], steps[|steps| - 1];
      var s := StateAfter(INITIAL, front).value;
      AnsweredGrows(s, step);
      HonestAnswersOnce(front, id);
      hide Exec, Enabled;
    }
  }

  lemma AnsweredGrows(s: State, step: Step)
    requires Enabled(s, step)
    ensures var table' := Exec(s, step).table;
      && (table'.honest ==> s.table.honest)
      && table'.answered == (if step.ReceiveResponse? then s.table.answered + {step.msg.id} else s.table.answered)
      && (table'.honest && step.ReceiveResponse? ==> step.msg.id !in s.table.answered)
  {
    hide Exec, Enabled, Local;
    if IsRead(step) {
      ReadOnAnswered(s, step);
    } else if IsWrite(step) {
      if PutsBytes(step) {
        ByteStepIsLocal(s, step);
      } else if step.CloseChannel? || step.CloseDone? || step.FailReceipt? {
        CloseStepIsLocal(s, step);
      } else {
        LockStepIsLocal(s, step);
      }
    } else if step.TakeResponse? {
      TakeTable(s, step.t);
    } else {
      CallOnTable(s, step);
    }
  }

  lemma ReadOnAnswered(s: State, step: Step)
    requires Enabled(s, step) && IsRead(step)
    ensures var table' := Exec(s, step).table;
      && (table'.honest ==> s.table.honest)
      && table'.answered == (if step.ReceiveResponse? then s.table.answered + {step.msg.id} else s.table.answered)
      && (table'.honest && step.ReceiveResponse? ==> step.msg.id !in s.table.answered)
  {
    hide Exec, Enabled;
    if step.ReceiveResponse? {
      ReceiveOnAnswered(s, step.msg);
    } else if step.Dispatch? {
      DispatchTable(s);
    } else if step.Deliver? {
      DeliverTable(s);
    } else {
      OtherReadOnAnswered(s, step);
    }
  }

  lemma ReceiveOnAnswered(s: State, msg: Message)
    requires Enabled(s, ReceiveResponse(msg))
    ensures var table' := Exec(s, ReceiveResponse(msg)).table;
      && (table'.honest ==> s.table.honest && msg.id !in s.table.answered)
      && table'.answered == s.table.answered + {msg.id}
  {
    hide ExecCall, ExecWrite, RequestWritten;
  }

  lemma OtherReadOnAnswered(s: State, step: Step)
    requires Enabled(s, step) && IsRead(step) && !step.ReceiveResponse? && !step.Dispatch? && !step.Deliver?
    ensures Exec(s, step).table.honest == s.table.honest && Exec(s, step).table.answered == s.table.answered
  {
    hide ExecCall, ExecWrite, RequestWritten;
  }
}
