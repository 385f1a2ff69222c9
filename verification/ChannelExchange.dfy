/** What an open channel achieves: a frame that is asked for goes out whole, and a
    request comes back with the payload its peer sent. */
module ChannelExchange {
  import opened Wrappers
  import opened Bytes
  import opened Frames
  import opened Channel
  import opened ChannelRuns

  // Some states after the other.
  lemma OneMore(s: State, steps: seq<Step>, step: Step)
    requires StateAfter(s, steps).Some? && Enabled(StateAfter(s, steps).value, step)
    ensures StateAfter(s, steps + [step]) == Some(Exec(StateAfter(s, steps).value, step))
  {
    assert (steps + [step])[..|steps|] == steps;
    hide Exec, Enabled;
  }

  lemma {:induction false} Joined(s: State, steps: seq<Step>, more: seq<Step>)
    requires StateAfter(s, steps).Some? && StateAfter(StateAfter(s, steps).value, more).Some?
    ensures StateAfter(s, steps + more) == StateAfter(StateAfter(s, steps).value, more)
    decreases |more|
  {
    hide Exec, Enabled;
    if |more| == 0 {
      assert steps + more == steps;
    } else {
      var front, last := more[..|more| - 1], more[|more| - 1];
      Joined(s, steps, front);
      assert steps + more == (steps + front) + [last];
      OneMore(s, steps + front, last);
    }
  }

  /** The steps of writing one frame without interruption. */
  function WriteOf(t: Thread, body: Text): seq<Step> {
    [Acquire(t), Admit(t)] + [WriteHeader(t, 4, false), WriteBody(t, |body|, false)] + [Seal(t), Publish(t), Release(t)]
  }

  predicate Open(s: State) { !s.sealed && !s.closed }

  lemma TwoSteps(s: State, a: Step, b: Step, s': State, s'': State)
    requires Enabled(s, a) && Exec(s, a) == s' && Enabled(s', b) && Exec(s', b) == s''
    ensures StateAfter(s, [a, b]) == Some(s'')
  {
    hide Exec, Enabled;
    assert [a] == [] + [a] && [a, b] == [a] + [b];
    assert StateAfter(s, []) == Some(s);
    OneMore(s, [], a);
    OneMore(s, [a], b);
  }

  lemma Entering(s: State, t: Thread)
    requires t in s.threads && s.threads[t].WantLock? && s.writeLock.None?
    ensures var job, body := s.threads[t].job, s.threads[t].body;
      StateAfter(s, [Acquire(t), Admit(t)])
      == Some(s.(writeLock := Some(t),
                 threads := s.threads[t := if Open(s) then WritingHeader(job, body) else Unlocking(job, Refused)]))
  {
    hide ExecRead, ExecCall, HeaderBytes, BodyBytes, FrameComplete, StateAfter;
    var job, body := s.threads[t].job, s.threads[t].body;
    var s' := s.(writeLock := Some(t), threads := s.threads[t := Admission(job, body)]);
    assert Exec(s, Acquire(t)) == s';
    var s'' := s.(writeLock := Some(t), threads := s.threads[t := if Open(s) then WritingHeader(job, body) else Unlocking(job, Refused)]);
    assert s'.threads[t := s''.threads[t]] == s''.threads;
    assert Exec(s', Admit(t)) == s'';
    TwoSteps(s, Acquire(t), Admit(t), s', s'');
  }

  function Out(out: Outbound, t: Thread, job: Job, body: Text): Outbound
    requires Writable(body)
  {
    out.(wire := out.wire + Encode(body), tail := [], whole := out.whole + [Sent(t, job, body)], sent := out.sent[t := job])
  }

  lemma HeaderEffect(s: State, t: Thread)
    requires t in s.threads && s.threads[t].WritingHeader? && Writable(s.threads[t].body)
    ensures var job, body := s.threads[t].job, s.threads[t].body;
      Exec(s, WriteHeader(t, 4, false)) == s.(out := HeaderBytes(s.out, body, 4), threads := s.threads[t := WritingBody(job, body)])
  {
    hide ExecRead, ExecCall, BodyBytes, FrameComplete, HeaderBytes, Header;
  }

  lemma BodyEffect(s: State, t: Thread)
    requires t in s.threads && s.threads[t].WritingBody?
    ensures var job, body := s.threads[t].job, s.threads[t].body;
      Exec(s, WriteBody(t, |body|, false))
      == s.(out := FrameComplete(BodyBytes(s.out, body, |body|), t, job, body), threads := s.threads[t := Sealing(job, Accepted)])
  {
    hide ExecRead, ExecCall, BodyBytes, FrameComplete, HeaderBytes, Header;
  }

  lemma FrameIsOut(out: Outbound, t: Thread, job: Job, body: Text)
    requires Writable(body)
    ensures FrameComplete(BodyBytes(HeaderBytes(out, body, 4), body, |body|), t, job, body) == Out(out, t, job, body)
  {
    assert Header(|body|)[..4] == Header(|body|) && body[..|body|] == body;
    assert HeaderBytes(out, body, 4).wire + body == out.wire + Encode(body);
  }

  lemma Putting(s: State, t: Thread)
    requires t in s.threads && s.threads[t].WritingHeader? && Writable(s.threads[t].body)
    ensures var job, body := s.threads[t].job, s.threads[t].body;
      StateAfter(s, [WriteHeader(t, 4, false), WriteBody(t, |body|, false)])
      == Some(s.(out := Out(s.out, t, job, body), threads := s.threads[t := Sealing(job, Accepted)]))
  {
    hide Exec, StateAfter, HeaderBytes, BodyBytes, FrameComplete, Out;
    var job, body := s.threads[t].job, s.threads[t].body;
    HeaderEffect(s, t);
    var s' := Exec(s, WriteHeader(t, 4, false));
    BodyEffect(s', t);
    FrameIsOut(s.out, t, job, body);
    assert s'.threads[t := Sealing(job, Accepted)] == s.threads[t := Sealing(job, Accepted)];
    TwoSteps(s, WriteHeader(t, 4, false), WriteBody(t, |body|, false), s', Exec(s', WriteBody(t, |body|, false)));
  }

  lemma SealEffect(s: State, t: Thread)
    requires t in s.threads && s.threads[t].Sealing? && s.threads[t].outcome.Accepted?
    ensures Exec(s, Seal(t)) == s.(sealed := s.sealed || IsTerminal(s.threads[t].job), threads := s.threads[t := Publishing(s.threads[t].job)])
  {
    hide ExecRead, ExecCall, HeaderBytes, BodyBytes, FrameComplete;
  }

  lemma PublishEffect(s: State, t: Thread)
    requires t in s.threads && s.threads[t].Publishing?
    ensures var job := s.threads[t].job;
      Exec(s, Publish(t)) == s.(threads := s.threads[t := Unlocking(job, Accepted)],
                                receipts := if job.Response? && job.tracked then Complete(s.receipts, t, true) else s.receipts)
  {
    hide ExecRead, ExecCall, HeaderBytes, BodyBytes, FrameComplete, Complete;
  }

  lemma ReleaseEffect(s: State, t: Thread)
    requires t in s.threads && s.threads[t].Unlocking?
    ensures var job, outcome := s.threads[t].job, s.threads[t].outcome;
      Exec(s, Release(t)) == s.(threads := s.threads[t := if outcome.Accepted? then Returned(job, true)
                                                          else if outcome.Broke? then Closing(job) else FailingReceipt(job)],
                                writeLock := None)
  {
    hide ExecRead, ExecCall, HeaderBytes, BodyBytes, FrameComplete;
  }

  lemma Leaving(s: State, t: Thread)
    requires t in s.threads && s.threads[t].Sealing? && s.threads[t].outcome.Accepted?
    ensures var job := s.threads[t].job;
      StateAfter(s, [Seal(t), Publish(t), Release(t)])
      == Some(s.(sealed := s.sealed || IsTerminal(job), writeLock := None, threads := s.threads[t := Returned(job, true)],
                 receipts := if job.Response? && job.tracked then Complete(s.receipts, t, true) else s.receipts))
  {
    hide Exec, StateAfter, Complete;
    var job := s.threads[t].job;
    SealEffect(s, t);
    var s' := Exec(s, Seal(t));
    PublishEffect(s', t);
    var s'' := Exec(s', Publish(t));
    assert s'.threads[t := Unlocking(job, Accepted)] == s.threads[t := Unlocking(job, Accepted)];
    TwoSteps(s, Seal(t), Publish(t), s', s'');
    ReleaseEffect(s'', t);
    assert s''.threads[t := Returned(job, true)] == s.threads[t := Returned(job, true)];
    OneMore(s, [Seal(t), Publish(t)], Release(t));
    assert [Seal(t), Publish(t)] + [Release(t)] == [Seal(t), Publish(t), Release(t)];
  }

  /** On an open channel a frame that can be encoded goes out whole, its caller
      hears of it, and the stream is sealed exactly behind a terminal response. */
  lemma OpenWriteGoesOut(s: State, t: Thread)
    requires t in s.threads && s.threads[t].WantLock? && Writable(s.threads[t].body) && s.writeLock.None? && Open(s)
    ensures var job, body := s.threads[t].job, s.threads[t].body;
      StateAfter(s, WriteOf(t, body))
      == Some(s.(out := Out(s.out, t, job, body), sealed := IsTerminal(job), threads := s.threads[t := Returned(job, true)],
                 receipts := if job.Response? && job.tracked then Complete(s.receipts, t, true) else s.receipts))
  {
    hide StateAfter, Out, Complete, Writable, Exec, Enabled;
    var job, body := s.threads[t].job, s.threads[t].body;
    Entering(s, t);
    var a := [Acquire(t), Admit(t)];
    var b := [WriteHeader(t, 4, false), WriteBody(t, |body|, false)];
    var s1 := StateAfter(s, a).value;
    Putting(s1, t);
    Joined(s, a, b);
    var s2 := StateAfter(s1, b).value;
    Leaving(s2, t);
    Joined(s, a + b, [Seal(t), Publish(t), Release(t)]);
    assert s2.threads[t := Returned(job, true)] == s.threads[t := Returned(job, true)];
  }

  /** On a sealed or closed one nothing goes out and the caller is told. */
  lemma SealedWriteIsRefused(s: State, t: Thread)
    requires t in s.threads && s.threads[t].WantLock? && s.writeLock.None? && !Open(s)
    ensures var job := s.threads[t].job;
      StateAfter(s, [Acquire(t), Admit(t)] + [Release(t), FailReceipt(t)])
      == Some(s.(threads := s.threads[t := Returned(job, false)],
                 receipts := if job.Response? && job.tracked then Complete(s.receipts, t, false) else s.receipts))
  {
    hide StateAfter, Complete, Exec;
    var job := s.threads[t].job;
    var enter := [Acquire(t), Admit(t)];
    Entering(s, t);
    var s' := StateAfter(s, enter).value;
    ReleaseEffect(s', t);
    var s'' := Exec(s', Release(t));
    assert s''.threads == s.threads[t := FailingReceipt(job)];
    FailEffect(s'', t);
    assert s''.threads[t := Returned(job, false)] == s.threads[t := Returned(job, false)];
    TwoSteps(s', Release(t), FailReceipt(t), s'', Exec(s'', FailReceipt(t)));
    Joined(s, enter, [Release(t), FailReceipt(t)]);
  }

  lemma FailEffect(s: State, t: Thread)
    requires t in s.threads && s.threads[t].FailingReceipt?
    ensures var job := s.threads[t].job;
      Exec(s, FailReceipt(t)) == s.(threads := s.threads[t := Returned(job, false)],
                                    receipts := if job.Response? && job.tracked then Complete(s.receipts, t, false) else s.receipts)
  {
    hide ExecRead, ExecCall, HeaderBytes, BodyBytes, FrameComplete, Complete;
  }

  /** A call on a closed channel ends at once; on an open one a request gets the
      next id and an entry in the table. */
  lemma CallsEnter(s: State, t: Thread, body: Text)
    requires t !in s.threads
    ensures var id := s.table.nextID;
      StateAfter(s, [StartRequest(t, body), Register(t)])
      == Some(if s.closed then s.(threads := s.threads[t := Done])
              else s.(threads := s.threads[t := WantLock(Request(id), body)],
                      table := s.table.(nextID := id + 1, pending := s.table.pending[id := t], issued := s.table.issued[id := t])))
    ensures Exec(s, StartNotification(t, body)) == s.(threads := s.threads[t := if s.closed then Done else WantLock(Notification, body)])
  {
    hide ExecRead, ExecWrite, StateAfter;
    var s' := s.(threads := s.threads[t := Requesting(body)]);
    assert Exec(s, StartRequest(t, body)) == s';
    var next := WantLock(Request(s.table.nextID), body);
    assert s'.threads[t := Done] == s.threads[t := Done] && s'.threads[t := next] == s.threads[t := next];
    TwoSteps(s, StartRequest(t, body), Register(t), s', Exec(s', Register(t)));
  }

  lemma Answered(s: State, t: Thread, msg: Message)
    requires t in s.threads && s.threads[t] == Awaiting(msg.id) && msg.id in s.table.pending && s.table.reader.Reading?
    ensures StateAfter(s, [ReceiveResponse(msg), Dispatch] + [Deliver, TakeResponse(t)]).Some?
    ensures var s' := StateAfter(s, [ReceiveResponse(msg), Dispatch] + [Deliver, TakeResponse(t)]).value;
      && s'.threads == s.threads[t := Done] && s'.out == s.out && s'.sealed == s.sealed && s'.closed == s.closed
      && s'.table.results == s.table.results[t := msg] && s'.table.pending == s.table.pending - {msg.id}
      && s'.table.inbox == s.table.inbox - {msg.id} && s'.table.reader.Reading?
  {
    hide StateAfter;
    Arrives(s, msg);
    var s' := Exec(s, ReceiveResponse(msg));
    var s'' := Exec(s', Dispatch);
    TwoSteps(s, ReceiveResponse(msg), Dispatch, s', s'');
    HandedOver(s'', t, msg);
    hide Exec, Enabled;
    var s3 := Exec(s'', Deliver);
    TwoSteps(s'', Deliver, TakeResponse(t), s3, Exec(s3, TakeResponse(t)));
    Joined(s, [ReceiveResponse(msg), Dispatch], [Deliver, TakeResponse(t)]);
  }

  lemma Arrives(s: State, msg: Message)
    requires msg.id in s.table.pending && s.table.reader.Reading?
    ensures var s' := Exec(s, ReceiveResponse(msg));
      && Enabled(s', Dispatch)
      && var s'' := Exec(s', Dispatch);
         && s''.threads == s.threads && s''.out == s.out && s''.sealed == s.sealed && s''.closed == s.closed
         && s''.table.results == s.table.results && s''.table.pending == s.table.pending - {msg.id}
         && s''.table.inbox == s.table.inbox && s''.table.reader == Delivering(msg)
  {
    hide ExecCall, ExecWrite, RequestWritten;
    var s' := Exec(s, ReceiveResponse(msg));
    assert s'.table.reader == Dispatching(msg) && s'.table.pending == s.table.pending && s'.table.inbox == s.table.inbox;
    assert s'.threads == s.threads && s'.out == s.out && s'.table.results == s.table.results;
  }

  lemma HandedOver(s: State, t: Thread, msg: Message)
    requires t in s.threads && s.threads[t] == Awaiting(msg.id) && s.table.reader == Delivering(msg)
    ensures Enabled(s, Deliver)
    ensures var s' := Exec(s, Deliver);
      && Enabled(s', TakeResponse(t))
      && var s'' := Exec(s', TakeResponse(t));
         && s''.threads == s.threads[t := Done] && s''.out == s.out && s''.sealed == s.sealed && s''.closed == s.closed
         && s''.table.results == s.table.results[t := msg] && s''.table.pending == s.table.pending
         && s''.table.inbox == s.table.inbox - {msg.id} && s''.table.reader.Reading?
  {
    hide ExecWrite;
    var s' := Exec(s, Deliver);
    assert s' == s.(table := s.table.(reader := Reading, inbox := s.table.inbox[msg.id := msg]));
    assert s.table.inbox[msg.id := msg] - {msg.id} == s.table.inbox - {msg.id};
  }

  function AskOf(t: Thread, body: Text): seq<Step> {
    [StartRequest(t, body), Register(t)] + (WriteOf(t, body) + [Return(t)])
  }

  // The request is out and its caller waits.
  lemma Asked(s: State, t: Thread, body: Text)
    requires Open(s) && s.writeLock.None? && t !in s.threads && Writable(body)
    ensures var id := s.table.nextID;
      StateAfter(s, AskOf(t, body))
      == Some(s.(threads := s.threads[t := Awaiting(id)], out := Out(s.out, t, Request(id), body),
                 table := s.table.(nextID := id + 1, pending := s.table.pending[id := t], issued := s.table.issued[id := t])))
  {
    hide StateAfter, Exec, Writable, Encode, Out, WriteOf;
    var id := s.table.nextID;
    CallsEnter(s, t, body);
    var enter := [StartRequest(t, body), Register(t)];
    var s1 := StateAfter(s, enter).value;
    OpenWriteGoesOut(s1, t);
    var s2 := StateAfter(s1, WriteOf(t, body)).value;
    ReturnEffect(s2, t);
    OneMore(s1, WriteOf(t, body), Return(t));
    Joined(s, enter, WriteOf(t, body) + [Return(t)]);
    assert Exec(s2, Return(t)).threads == s.threads[t := Awaiting(id)];
  }

  function ExchangeOf(t: Thread, body: Text, msg: Message): seq<Step> {
    AskOf(t, body) + ([ReceiveResponse(msg), Dispatch] + [Deliver, TakeResponse(t)])
  }

  /** A request on an open channel goes out as one frame, and its caller gets the
      payload the peer answers with; nothing is left behind. */
  lemma RequestRoundTrip(s: State, t: Thread, body: Text, payload: Text)
    requires Open(s) && s.writeLock.None? && s.table.reader.Reading? && t !in s.threads && Writable(body)
    requires s.table.nextID !in s.table.pending && s.table.nextID !in s.table.inbox
    ensures var msg := Message(s.table.nextID, payload);
      && StateAfter(s, ExchangeOf(t, body, msg)).Some?
      && var s' := StateAfter(s, ExchangeOf(t, body, msg)).value;
         && s'.threads == s.threads[t := Done] && s'.table.results == s.table.results[t := msg]
         && s'.out.wire == s.out.wire + Encode(body) && s'.out.whole == s.out.whole + [Sent(t, Request(msg.id), body)]
         && s'.table.pending == s.table.pending && s'.table.inbox == s.table.inbox && Open(s')
  {
    hide StateAfter, Exec, Enabled, Encode, AskOf;
    var msg := Message(s.table.nextID, payload);
    Asked(s, t, body);
    hide Writable;
    var s' := StateAfter(s, AskOf(t, body)).value;
    assert s'.threads[t := Done] == s.threads[t := Done];
    Answered(s', t, msg);
    Joined(s, AskOf(t, body), [ReceiveResponse(msg), Dispatch] + [Deliver, TakeResponse(t)]);
    assert s.table.pending[msg.id := t] - {msg.id} == s.table.pending;
    assert s.table.inbox - {msg.id} == s.table.inbox;
  }

  lemma ReturnEffect(s: State, t: Thread)
    requires t in s.threads && s.threads[t].Returned? && s.threads[t].job.Request? && s.threads[t].ok
    ensures Enabled(s, Return(t)) && Exec(s, Return(t)) == s.(threads := s.threads[t := Awaiting(s.threads[t].job.id)])
  {
    hide ExecRead, ExecWrite;
  }
}
