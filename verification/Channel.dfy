/** The bidirectional RPC channel as an interleaved step relation. Every thread
    has a program counter; each step is one critical section or one write of the
    Go code, and any enabled step may happen next. */
module Channel {
  import opened Wrappers
  import opened Bytes
  import opened Frames

  type Thread = nat

  /** Why a thread writes a frame. A tracked response has a receipt; a terminal
      one seals the write side. An error reply stands in for a response. */
  datatype Job =
    | Request(id: nat)
    | Notification
    | Response(tracked: bool, terminal: bool)
    | ErrorReply(tracked: bool)

  predicate IsTerminal(job: Job) {
    (job.Response? && job.terminal) || (job.ErrorReply? && job.tracked)
  }

  predicate IsTracked(job: Job) {
    (job.Response? || job.ErrorReply?) && job.tracked
  }

  datatype WriteOutcome = Accepted | Broke | Refused

  datatype Pc =
    | Requesting(body: Text)
    | Handling
    | WantLock(job: Job, body: Text)
    | Admission(job: Job, body: Text)
    | WritingHeader(job: Job, body: Text)
    | WritingBody(job: Job, body: Text)
    | Sealing(job: Job, outcome: WriteOutcome)
    | Publishing(job: Job)
    | Unlocking(job: Job, outcome: WriteOutcome)
    | Closing(job: Job)
    | ClosingDone(job: Job)
    | FailingReceipt(job: Job)
    | Returned(job: Job, ok: bool)
    | Awaiting(id: nat)
    | Forgetting(id: nat)
    | Closer
    | CloserDone
    | Done

  // The thread holds the write mutex.
  predicate Holds(pc: Pc) {
    pc.Admission? || pc.WritingHeader? || pc.WritingBody? || pc.Sealing? || pc.Publishing? || pc.Unlocking?
  }

  datatype Message = Message(id: nat, payload: Text)

  datatype Reader = Reading | Dispatching(msg: Message) | Delivering(msg: Message) | Faulted | ClosingReader | Stopped

  datatype Sent = Sent(thread: Thread, job: Job, body: Text)

  /** A write that reported an error, and the bytes of its frame that got out. */
  datatype Break = Break(thread: Thread, job: Job, body: Text, bytes: Text)

  /** The write side: the bytes on the wire, and their reading as frames. */
  datatype Outbound = Outbound(
    wire: Text,
    whole: seq<Sent>,            // frames written completely, in order
    sent: map<Thread, Job>,      // by whom
    tail: Text,                  // bytes behind the last whole frame
    broken: Option<Break>)       // the write that broke off

  /** The request table and the history of every request id. */
  datatype Table = Table(
    nextID: nat,
    pending: map<nat, Thread>,
    inbox: map<nat, Message>,
    reader: Reader,
    issued: map<nat, Thread>,
    results: map<Thread, Message>,
    dispatched: set<nat>,
    cancelled: set<nat>,
    answered: set<nat>,
    orphans: set<nat>,
    honest: bool)

  datatype State = State(
    threads: map<Thread, Pc>,
    receipts: map<Thread, Option<bool>>,
    writeLock: Option<Thread>,
    sealed: bool,
    closed: bool,
    doneClosed: bool,
    out: Outbound,
    table: Table)

  const INITIAL: State := State(
    map[], map[], None, false, false, false,
    Outbound([], [], map[], [], None),
    Table(1, map[], map[], Reading, map[], map[], {}, {}, {}, {}, true))

  datatype Step =
    | StartRequest(t: Thread, body: Text)
    | Register(t: Thread)
    | StartNotification(t: Thread, body: Text)
    | StartClose(t: Thread)
    | HandlerReturns(t: Thread, job: Job, body: Text)
    | Acquire(t: Thread)
    | Admit(t: Thread)
    | WriteHeader(t: Thread, accepted: nat, fails: bool)
    | WriteBody(t: Thread, accepted: nat, fails: bool)
    | Seal(t: Thread)
    | Publish(t: Thread)
    | Release(t: Thread)
    | CloseChannel(t: Thread)
    | CloseDone(t: Thread)
    | FailReceipt(t: Thread)
    | Return(t: Thread)
    | TakeResponse(t: Thread)
    | Cancel(t: Thread)
    | Forget(t: Thread)
    | SeeClosed(t: Thread)
    | ReceiveResponse(msg: Message)
    | ReceiveRequest(t: Thread)
    | ReceiveUnhandled(t: Thread, body: Text)
    | Dispatch
    | Deliver
    | ReaderFaults
    | ReaderCloses
    | ReaderDone

  predicate At(s: State, t: Thread) { t in s.threads }

  predicate Enabled(s: State, step: Step) {
    match step
    case StartRequest(t, _) => !At(s, t)
    case Register(t) => At(s, t) && s.threads[t].Requesting?
    case StartNotification(t, _) => !At(s, t)
    case StartClose(t) => !At(s, t)
    case HandlerReturns(t, job, _) =>
      && At(s, t) && s.threads[t].Handling?
      && (job.ErrorReply? || (job.Response? && (job.terminal ==> job.tracked)))
    case Acquire(t) => At(s, t) && s.threads[t].WantLock? && s.writeLock.None?
    case Admit(t) => At(s, t) && s.threads[t].Admission?
    case WriteHeader(t, accepted, fails) =>
      && At(s, t) && s.threads[t].WritingHeader?
      && (if Writable(s.threads[t].body) then accepted <= 4 && (!fails ==> accepted == 4) else fails && accepted == 0)
    case WriteBody(t, accepted, fails) =>
      && At(s, t) && s.threads[t].WritingBody?
      && accepted <= |s.threads[t].body| && (!fails ==> accepted == |s.threads[t].body|)
    case Seal(t) => At(s, t) && s.threads[t].Sealing?
    case Publish(t) => At(s, t) && s.threads[t].Publishing?
    case Release(t) => At(s, t) && s.threads[t].Unlocking?
    case CloseChannel(t) => At(s, t) && (s.threads[t].Closing? || s.threads[t].Closer?)
    case CloseDone(t) => At(s, t) && (s.threads[t].ClosingDone? || s.threads[t].CloserDone?)
    case FailReceipt(t) => At(s, t) && s.threads[t].FailingReceipt?
    case Return(t) => At(s, t) && s.threads[t].Returned?
    case TakeResponse(t) => At(s, t) && s.threads[t].Awaiting? && s.threads[t].id in s.table.inbox
    case Cancel(t) => At(s, t) && s.threads[t].Awaiting?
    case Forget(t) => At(s, t) && s.threads[t].Forgetting?
    case SeeClosed(t) => At(s, t) && s.threads[t].Awaiting? && s.doneClosed
    case ReceiveResponse(_) => s.table.reader.Reading?
    case ReceiveRequest(t) => s.table.reader.Reading? && !At(s, t)
    case ReceiveUnhandled(t, _) => s.table.reader.Reading? && !At(s, t)
    case Dispatch => s.table.reader.Dispatching?
    case Deliver => s.table.reader.Delivering?
    case ReaderFaults => s.table.reader.Reading?
    case ReaderCloses => s.table.reader.Faulted?
    case ReaderDone => s.table.reader.ClosingReader?
  }

  function Goto(s: State, t: Thread, pc: Pc): State {
    s.(threads := s.threads[t := pc])
  }

  // The receipt is completed once; later calls change nothing.
  function Complete(receipts: map<Thread, Option<bool>>, t: Thread, ok: bool): map<Thread, Option<bool>> {
    if t in receipts && receipts[t].None? then receipts[t := Some(ok)] else receipts
  }

  // The critical section of closing, for whoever comes first.
  function CloseWith(s: State): State {
    s.(closed := true, sealed := true, table := s.table.(pending := map[]))
  }

  /** Every byte of the frame of `t` is on the wire, whatever its writer reported. */
  ghost predicate FrameOut(out: Outbound, t: Thread) {
    || t in out.sent
    || (out.broken.Some? && out.broken.value.thread == t && Writable(out.broken.value.body)
        && out.broken.value.bytes == Encode(out.broken.value.body))
  }

  /** The peer can have received the request. */
  ghost predicate RequestWritten(s: State, id: nat) {
    id in s.table.issued && FrameOut(s.out, s.table.issued[id])
  }

  // What a write puts on the wire: part of the header, or of the body behind it.
  function HeaderBytes(out: Outbound, body: Text, accepted: nat): Outbound
    requires Writable(body) && accepted <= 4
  {
    var bytes := Header(|body|)[..accepted];
    out.(wire := out.wire + bytes, tail := out.tail + bytes)
  }

  function BodyBytes(out: Outbound, body: Text, accepted: nat): Outbound
    requires accepted <= |body|
  {
    out.(wire := out.wire + body[..accepted], tail := out.tail + body[..accepted])
  }

  function FrameComplete(out: Outbound, t: Thread, job: Job, body: Text): Outbound {
    out.(tail := [], whole := out.whole + [Sent(t, job, body)], sent := out.sent[t := job])
  }

  // The steps of a thread that enters a call or leaves one.
  ghost function ExecCall(s: State, step: Step): State
    requires Enabled(s, step)
  {
    match step
    case StartRequest(t, body) => Goto(s, t, Requesting(body))
    case Register(t) =>
      var id := s.table.nextID;
      if s.closed then Goto(s, t, Done)
      else
        Goto(s, t, WantLock(Request(id), s.threads[t].body))
        .(table := s.table.(nextID := id + 1, pending := s.table.pending[id := t], issued := s.table.issued[id := t]))
    case StartNotification(t, body) =>
      if s.closed then Goto(s, t, Done) else Goto(s, t, WantLock(Notification, body))
    case StartClose(t) => Goto(s, t, Closer)
    case HandlerReturns(t, job, body) =>
      Goto(s, t, WantLock(job, body)).(receipts := if IsTracked(job) then s.receipts[t := None] else s.receipts)
    case Return(t) =>
      var job, ok := s.threads[t].job, s.threads[t].ok;
      (match job
       case Request(id) =>
         if ok then Goto(s, t, Awaiting(id))
         else Goto(s, t, Done).(table := s.table.(pending := s.table.pending - {id}))
       case ErrorReply(tracked) =>
         Goto(s, t, Done).(receipts := if tracked then Complete(s.receipts, t, false) else s.receipts)
       case _ => Goto(s, t, Done))
    case TakeResponse(t) =>
      var id := s.threads[t].id;
      Goto(s, t, Done).(table := s.table.(inbox := s.table.inbox - {id}, results := s.table.results[t := s.table.inbox[id]]))
    case Cancel(t) =>
      var id := s.threads[t].id;
      Goto(s, t, Forgetting(id)).(table := s.table.(cancelled := s.table.cancelled + {id}))
    case Forget(t) => Goto(s, t, Done).(table := s.table.(pending := s.table.pending - {s.threads[t].id}))
    case SeeClosed(t) => Goto(s, t, Done)
    case _ => s
  }

  // The steps of writing one frame.
  ghost function ExecWrite(s: State, step: Step): State
    requires Enabled(s, step)
  {
    match step
    case Acquire(t) => Goto(s, t, Admission(s.threads[t].job, s.threads[t].body)).(writeLock := Some(t))
    case Admit(t) =>
      if s.sealed || s.closed then Goto(s, t, Unlocking(s.threads[t].job, Refused))
      else Goto(s, t, WritingHeader(s.threads[t].job, s.threads[t].body))
    case WriteHeader(t, accepted, fails) =>
      var body, job := s.threads[t].body, s.threads[t].job;
      if !Writable(body) then Goto(s, t, Sealing(job, Broke)).(out := s.out.(broken := Some(Break(t, job, body, s.out.tail))))
      else
        var out := HeaderBytes(s.out, body, accepted);
        if fails then Goto(s, t, Sealing(job, Broke)).(out := out.(broken := Some(Break(t, job, body, out.tail))))
        else Goto(s, t, WritingBody(job, body)).(out := out)
    case WriteBody(t, accepted, fails) =>
      var body, job := s.threads[t].body, s.threads[t].job;
      var out := BodyBytes(s.out, body, accepted);
      if fails then Goto(s, t, Sealing(job, Broke)).(out := out.(broken := Some(Break(t, job, body, out.tail))))
      else Goto(s, t, Sealing(job, Accepted)).(out := FrameComplete(out, t, job, body))
    case Seal(t) =>
      var job, outcome := s.threads[t].job, s.threads[t].outcome;
      Goto(s, t, if outcome.Accepted? then Publishing(job) else Unlocking(job, outcome))
      .(sealed := s.sealed || outcome.Broke? || IsTerminal(job))
    case Publish(t) =>
      var job := s.threads[t].job;
      Goto(s, t, Unlocking(job, Accepted))
      .(receipts := if job.Response? && job.tracked then Complete(s.receipts, t, true) else s.receipts)
    case Release(t) =>
      var job, outcome := s.threads[t].job, s.threads[t].outcome;
      Goto(s, t, if outcome.Accepted? then Returned(job, true)
                 else if outcome.Broke? then Closing(job) else FailingReceipt(job)).(writeLock := None)
    case CloseChannel(t) =>
      var pc := s.threads[t];
      if s.closed then Goto(s, t, if pc.Closer? then Done else FailingReceipt(pc.job))
      else Goto(CloseWith(s), t, if pc.Closer? then CloserDone else ClosingDone(pc.job))
    case CloseDone(t) =>
      Goto(s, t, if s.threads[t].CloserDone? then Done else FailingReceipt(s.threads[t].job)).(doneClosed := true)
    case FailReceipt(t) =>
      var job := s.threads[t].job;
      Goto(s, t, Returned(job, false))
      .(receipts := if job.Response? && job.tracked then Complete(s.receipts, t, false) else s.receipts)
    case _ => s
  }

  // The steps of the reader.
  ghost function ExecRead(s: State, step: Step): State
    requires Enabled(s, step)
  {
    match step
    case ReceiveResponse(msg) =>
      s.(table := s.table.(
           reader := Dispatching(msg),
           honest := s.table.honest && RequestWritten(s, msg.id) && msg.id !in s.table.answered,
           answered := s.table.answered + {msg.id}))
    case ReceiveRequest(t) => Goto(s, t, Handling)
    case ReceiveUnhandled(t, body) => Goto(s, t, WantLock(ErrorReply(false), body))
    case Dispatch =>
      var msg := s.table.reader.msg;
      if msg.id in s.table.pending then
        s.(table := s.table.(reader := Delivering(msg), pending := s.table.pending - {msg.id},
                             dispatched := s.table.dispatched + {msg.id}))
      else s.(table := s.table.(reader := Reading, orphans := s.table.orphans + {msg.id}))
    case Deliver =>
      var msg := s.table.reader.msg;
      s.(table := s.table.(reader := Reading, inbox := s.table.inbox[msg.id := msg]))
    case ReaderFaults => s.(table := s.table.(reader := Faulted))
    case ReaderCloses =>
      if s.closed then s.(table := s.table.(reader := Stopped))
      else var s' := CloseWith(s); s'.(table := s'.table.(reader := ClosingReader))
    case ReaderDone => s.(doneClosed := true, table := s.table.(reader := Stopped))
    case _ => s
  }

  predicate IsRead(step: Step) {
    || step.ReceiveResponse? || step.ReceiveRequest? || step.ReceiveUnhandled? || step.Dispatch? || step.Deliver?
    || step.ReaderFaults? || step.ReaderCloses? || step.ReaderDone?
  }

  predicate IsWrite(step: Step) {
    || step.Acquire? || step.Admit? || step.WriteHeader? || step.WriteBody? || step.Seal? || step.Publish?
    || step.Release? || step.CloseChannel? || step.CloseDone? || step.FailReceipt?
  }

  ghost function Exec(s: State, step: Step): State
    requires Enabled(s, step)
  {
    if IsRead(step) then ExecRead(s, step) else if IsWrite(step) then ExecWrite(s, step) else ExecCall(s, step)
  }

  // ---- What every step keeps --------------------------------------------------

  // The job a thread is writing a frame for.
  function JobOf(pc: Pc): Option<Job> {
    match pc
    case WantLock(job, _) => Some(job)
    case Admission(job, _) => Some(job)
    case WritingHeader(job, _) => Some(job)
    case WritingBody(job, _) => Some(job)
    case Sealing(job, _) => Some(job)
    case Publishing(job) => Some(job)
    case Unlocking(job, _) => Some(job)
    case Closing(job) => Some(job)
    case ClosingDone(job) => Some(job)
    case FailingReceipt(job) => Some(job)
    case Returned(job, _) => Some(job)
    case _ => None
  }

  // The id of the request a thread is working on.
  function RequestOf(pc: Pc): Option<nat> {
    if pc.Awaiting? || pc.Forgetting? then Some(pc.id)
    else if JobOf(pc).Some? && JobOf(pc).value.Request? then Some(JobOf(pc).value.id)
    else None
  }

  // The frame of the thread is on the wire.
  predicate PastWrite(pc: Pc) {
    || ((pc.Sealing? || pc.Unlocking?) && pc.outcome.Accepted?)
    || pc.Publishing? || (pc.Returned? && pc.ok) || pc.Awaiting? || pc.Forgetting?
  }

  function Bodies(whole: seq<Sent>): (r: seq<Text>)
    ensures |r| == |whole|
  {
    seq(|whole|, i requires 0 <= i < |whole| => whole[i].body)
  }

  // What is on the wire after the last whole frame of a write of `body` that broke off.
  predicate PartialFrame(tail: Text, body: Text) {
    tail == [] || (Writable(body) && tail <= Encode(body))
  }

  ghost predicate TerminalSent(out: Outbound) {
    exists t :: t in out.sent && IsTerminal(out.sent[t])
  }

  /** Nothing may be written any more. */
  ghost predicate Ended(out: Outbound) {
    out.broken.Some? || TerminalSent(out)
  }

  /** The bytes on the wire are whole frames, then at most the beginning of one. */
  ghost predicate WireInv(out: Outbound) {
    && AllWritable(Bodies(out.whole))
    && out.wire == EncodeAll(Bodies(out.whole)) + out.tail
    && (out.broken.Some? ==> out.tail == out.broken.value.bytes && PartialFrame(out.tail, out.broken.value.body))
    && (forall i :: 0 <= i < |out.whole| ==>
          out.whole[i].thread in out.sent && out.sent[out.whole[i].thread] == out.whole[i].job)
    && (forall t :: t in out.sent ==> exists i :: 0 <= i < |out.whole| && out.whole[i].thread == t)
  }

  // What the holder of the write mutex has put on the wire so far.
  ghost predicate HolderInv(out: Outbound, pc: Pc) {
    && Holds(pc)
    && (out.broken.None? ==> out.tail == if pc.WritingBody? && Writable(pc.body) then Header(|pc.body|) else [])
    && (pc.WritingHeader? || pc.WritingBody? ==> !Ended(out))
    && (pc.WritingBody? ==> Writable(pc.body))
    && (pc.Sealing? ==> pc.outcome.Accepted? || pc.outcome.Broke?)
    && (pc.Sealing? && Ended(out) ==> pc.outcome.Broke? || IsTerminal(pc.job))
  }

  ghost predicate LockInv(s: State) {
    && (forall t :: t in s.threads && Holds(s.threads[t]) ==> s.writeLock == Some(t))
    && (s.writeLock.Some? ==> At(s, s.writeLock.value) && HolderInv(s.out, s.threads[s.writeLock.value]))
    && (s.writeLock.None? && s.out.broken.None? ==> s.out.tail == [])
    && (Ended(s.out) && !s.sealed ==> s.writeLock.Some? && s.threads[s.writeLock.value].Sealing?)
  }

  /** A receipt is completed by the time its thread is done, and positively
      exactly when the intended response is on the wire. */
  ghost predicate ReceiptInv(pc: Pc, receipt: Option<Option<bool>>, sent: Option<Job>) {
    && (JobOf(pc).Some? ==> (receipt.Some? <==> IsTracked(JobOf(pc).value)))
    && (JobOf(pc).None? && !pc.Done? ==> receipt.None?)
    && (receipt.Some? ==>
          && (receipt.value == Some(true) ==> sent.Some? && sent.value.Response?)
          && (pc.Done? ==> receipt.value.Some? && (sent.Some? && sent.value.Response? ==> receipt.value == Some(true)))
          && (JobOf(pc).Some? && JobOf(pc).value.Response? ==>
                receipt.value == if (pc.Unlocking? && pc.outcome.Accepted?) || (pc.Returned? && pc.ok) then Some(true)
                                 else if pc.Returned? then Some(false) else None)
          && (JobOf(pc).Some? && JobOf(pc).value.ErrorReply? ==> receipt.value.None?))
  }

  // Whether a thread has a frame on the wire, and for what.
  ghost predicate FrameInv(pc: Pc, sent: Option<Job>) {
    && (PastWrite(pc) ==> sent.Some?)
    && (!PastWrite(pc) && !pc.Done? ==> sent.None?)
    && (sent.Some? && JobOf(pc).Some? ==> sent == JobOf(pc))
    && (pc.Awaiting? || pc.Forgetting? ==> sent == Some(Request(pc.id)))
  }

  function Lookup<K, V>(m: map<K, V>, k: K): Option<V> {
    if k in m then Some(m[k]) else None
  }

  // Everything about one thread.
  ghost predicate ThreadInv(s: State, t: Thread)
    requires t in s.threads
  {
    var pc := s.threads[t];
    && FrameInv(pc, Lookup(s.out.sent, t))
    && ReceiptInv(pc, Lookup(s.receipts, t), Lookup(s.out.sent, t))
    && (RequestOf(pc).Some? ==> Lookup(s.table.issued, RequestOf(pc).value) == Some(t))
  }

  /** Ids are issued once; a response goes to the request with its id, and at most once. */
  ghost predicate DeliveryInv(table: Table) {
    && table.nextID > 0
    && (forall id :: id in table.issued <==> 0 < id < table.nextID)
    && (forall id :: id in table.pending ==>
          id in table.issued && table.issued[id] == table.pending[id] && id !in table.dispatched)
    && (forall id :: id in table.inbox ==> id in table.dispatched && table.inbox[id].id == id)
    && (forall t :: t in table.results ==>
          table.results[t].id in table.issued && table.issued[table.results[t].id] == t
          && table.results[t].id in table.dispatched && table.results[t].id !in table.inbox)
    && (table.reader.Delivering? ==>
          table.reader.msg.id in table.dispatched && table.reader.msg.id !in table.inbox
          && forall t :: t in table.results ==> table.results[t].id != table.reader.msg.id)
    && table.dispatched <= table.answered && table.dispatched <= table.issued.Keys
    && (table.reader.Dispatching? ==> table.reader.msg.id in table.answered)
  }

  // The thread gave up without its frame reaching the wire.
  ghost predicate GaveUp(s: State, t: Thread) {
    t in s.threads && s.threads[t].Done? && !FrameOut(s.out, t)
  }

  // The thread knows that its write broke off and has not closed the channel yet.
  predicate BreakingOff(pc: Pc) {
    ((pc.Sealing? || pc.Unlocking?) && pc.outcome.Broke?) || pc.Closing?
  }

  /** A broken write closes the channel before its caller hears of it. */
  ghost predicate BreakInv(s: State) {
    s.out.broken.Some? && !s.closed ==>
      s.out.broken.value.thread in s.threads && BreakingOff(s.threads[s.out.broken.value.thread])
  }

  // A request somebody may still answer, has answered, or nobody waits for.
  ghost predicate Accounted(s: State, id: nat) {
    id in s.table.pending || id in s.table.dispatched || id in s.table.cancelled || s.closed
  }

  /** A request stays answerable until it is answered, cancelled or the channel
      closes, so an honest peer's answer is never an orphan before that. */
  ghost predicate AnswerInv(s: State) {
    && (forall id :: id in s.table.issued ==> Accounted(s, id) || GaveUp(s, s.table.issued[id]))
    && (forall t :: t in s.threads && s.threads[t].Forgetting? ==> s.threads[t].id in s.table.cancelled)
    && (s.table.honest && s.table.reader.Dispatching? ==>
          RequestWritten(s, s.table.reader.msg.id) && s.table.reader.msg.id !in s.table.dispatched)
    && (s.table.honest ==> forall id :: id in s.table.orphans ==> id in s.table.cancelled || s.closed)
  }

  ghost predicate ThreadsKnown(s: State) {
    && s.out.sent.Keys <= s.threads.Keys && s.receipts.Keys <= s.threads.Keys
    && (forall id :: id in s.table.issued ==> s.table.issued[id] in s.threads)
  }

  ghost predicate Inv(s: State) {
    && WireInv(s.out) && LockInv(s) && BreakInv(s) && DeliveryInv(s.table) && AnswerInv(s) && ThreadsKnown(s)
    && (forall t :: t in s.threads ==> ThreadInv(s, t))
  }

  lemma InitialInv()
    ensures Inv(INITIAL)
  {
    assert EncodeAll(Bodies([])) == [];
  }
}
