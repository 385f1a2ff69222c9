/** The language server's config refresh: a two-phase exchange with the Node
    peer that either publishes one whole catalog or leaves the last one alone. */
module ConfigTransactions {
  import opened Wrappers
  import opened Bytes
  import opened DirectoryRoots
  import opened ConfigBoundaries

  type Id = string
  type Entries = string

  const NO_ENTRIES: Entries := ""

  // ---- The wire --------------------------------------------------------------

  datatype Request =
    | LoadConfigs(id: Id)
    | ActivateConfigs(id: Id, effective: seq<string>)
    | CommitConfigs(id: Id)
    | AbortConfigs(id: Id)

  datatype Reply =
    | NoReply
    | Loaded(id: Id, results: Option<nat>)
    | Activated(id: Id, hostReady: bool, plugins: seq<string>)
    | Controlled(id: Id, done: bool)

  datatype Exchange = Exchange(request: Request, reply: Reply)

  /** The peer may answer anything, depending on all it has seen. */
  type Peer = (seq<Exchange>, Request) -> Reply

  /** The peer acknowledged the commit of this transaction. */
  predicate Acknowledged(e: Exchange) {
    e.request.CommitConfigs? && e.reply == Controlled(e.request.id, true)
  }

  /** The transaction of the last acknowledged commit. */
  function Live(wire: seq<Exchange>): Id {
    if |wire| == 0 then ""
    else if Acknowledged(wire[|wire| - 1]) then wire[|wire| - 1].request.id
    else Live(wire[..|wire| - 1])
  }

  lemma {:induction false} LiveUnmoved(wire: seq<Exchange>, more: seq<Exchange>)
    requires forall e :: e in more ==> !Acknowledged(e)
    ensures Live(wire + more) == Live(wire)
  {
    if |more| > 0 {
      assert (wire + more)[..|wire + more| - 1] == wire + more[..|more| - 1];
      assert more[|more| - 1] in more;
      LiveUnmoved(wire, more[..|more| - 1]);
    } else {
      assert wire + more == wire;
    }
  }

  // ---- Published state -------------------------------------------------------

  /** What every document and code-action handler reads. `derived` stands for the
      path tables, owner index, resolvers, fallback and rule catalog built from it. */
  datatype Published = Published(
    configs: map<Directory, Entries>,
    unavailable: set<Directory>,
    generation: Id,
    hasLastGood: bool,
    derived: string)

  predicate Usable(p: Published, d: Directory) {
    d in p.configs && d !in p.unavailable
  }

  /** Usable directories and unavailable boundaries never share an identity. */
  ghost predicate Sound(p: Published, fold: Folding) {
    && p.unavailable <= p.configs.Keys
    && (p.hasLastGood <==> exists d :: Usable(p, d))
    && (forall d, u :: Usable(p, d) && u in p.unavailable ==> !Same(d, u, fold))
  }

  /** No directory that was usable is now an unavailable boundary. */
  ghost predicate KeepsUsable(before: Published, after: Published, fold: Folding) {
    forall d, u :: Usable(before, d) && u in after.unavailable ==> !Same(d, u, fold)
  }

  // ---- What discovery reports ------------------------------------------------

  datatype Call = CallLoad | CallActivate(effective: seq<string>)

  datatype Outcome =
    | Found(configs: map<Directory, Entries>, effective: seq<string>, failures: seq<Directory>)
    | AllFailed(failures: seq<Directory>)
    | Broken

  /** One run of the discovery coordinator, which uses one transaction id for all
      its calls, and what the later stages of this refresh will say. */
  datatype Discovery = Discovery(
    id: Id,
    calls: seq<Call>,
    outcome: Outcome,
    prepares: bool,
    completes: Option<string>,
    cancelled: bool)

  datatype Catalog = Catalog(configs: map<Directory, Entries>, effective: seq<string>, failures: seq<Directory>)

  datatype Result = Failed | Refreshed(id: Id)

  /** Exchanges that load or activate transaction `id`. */
  predicate Staging(e: Exchange, id: Id) {
    e.request.id == id && (e.request.LoadConfigs? || e.request.ActivateConfigs?)
  }

  ghost predicate AllStaging(es: seq<Exchange>, id: Id) {
    forall e :: e in es ==> Staging(e, id)
  }

  /** The peer confirmed activation, with its plugin host ready unless the host
      may be missing. */
  predicate Confirms(e: Exchange, id: Id, hostOptional: bool) {
    && e.request.ActivateConfigs? && e.request.id == id
    && e.reply.Activated? && e.reply.id == id && (e.reply.hostReady || hostOptional)
  }

  ghost predicate Confirmed(es: seq<Exchange>, id: Id, hostOptional: bool) {
    exists e :: e in es && Confirms(e, id, hostOptional)
  }

  /** The peer did not answer the request as this transaction needs it: an empty
      frontier loaded, the activation confirmed, the commit acknowledged. */
  predicate Declines(e: Exchange, id: Id, hostOptional: bool) {
    match e.request
    case LoadConfigs(_) => e.reply != Loaded(id, Some(0))
    case ActivateConfigs(_, _) => !Confirms(e, id, hostOptional)
    case CommitConfigs(_) => !Acknowledged(e)
    case AbortConfigs(_) => false
  }

  ghost predicate SomeDeclined(es: seq<Exchange>, id: Id, hostOptional: bool) {
    exists e :: e in es && Declines(e, id, hostOptional)
  }

  // Exactly this request was sent on top.
  ghost predicate SentOne(before: seq<Exchange>, after: seq<Exchange>, request: Request) {
    |after| == |before| + 1 && before <= after && after[|before|].request == request
  }

  function RequestOf(call: Call, id: Id): Request {
    match call
    case CallLoad => LoadConfigs(id)
    case CallActivate(effective) => ActivateConfigs(id, effective)
  }

  // The calls of the coordinator were sent on top, one request each and in order.
  ghost predicate SentCalls(before: seq<Exchange>, after: seq<Exchange>, calls: seq<Call>, id: Id) {
    && |after| == |before| + |calls| && before <= after
    && forall i :: 0 <= i < |calls| ==> after[|before| + i].request == RequestOf(calls[i], id)
  }

  /** The confirmed activation was asked for by discovery itself, or carries the
      effective configs of the catalog. */
  ghost predicate ActivatesCatalog(es: seq<Exchange>, calls: seq<Call>, effective: seq<string>, id: Id, hostOptional: bool) {
    exists e :: e in es && Confirms(e, id, hostOptional)
      && (e.request.effective == effective || CallActivate(e.request.effective) in calls)
  }

  lemma DiscoveryActivated(start: seq<Exchange>, wire: seq<Exchange>, calls: seq<Call>, effective: seq<string>, id: Id, hostOptional: bool)
    requires SentCalls(start, wire, calls, id) && Confirmed(wire[|start|..], id, hostOptional)
    ensures ActivatesCatalog(wire[|start|..], calls, effective, id, hostOptional)
  {
    var es := wire[|start|..];
    var e :| e in es && Confirms(e, id, hostOptional);
    var i :| 0 <= i < |es| && es[i] == e;
    assert wire[|start| + i].request == RequestOf(calls[i], id);
    assert calls[i] == CallActivate(e.request.effective) && calls[i] in calls;
  }

  lemma ServerActivated(start: seq<Exchange>, wire: seq<Exchange>, calls: seq<Call>, effective: seq<string>, id: Id, hostOptional: bool)
    requires |start| < |wire| && start <= wire
    requires Confirms(wire[|wire| - 1], id, hostOptional) && wire[|wire| - 1].request == ActivateConfigs(id, effective)
    ensures ActivatesCatalog(wire[|start|..], calls, effective, id, hostOptional)
  {
    var es := wire[|start|..];
    assert es[|es| - 1] == wire[|wire| - 1];
    assert es[|es| - 1] in es;
  }

  lemma ActivationStays(start: seq<Exchange>, sent: seq<Exchange>, wire: seq<Exchange>, calls: seq<Call>, effective: seq<string>, id: Id, hostOptional: bool)
    requires start <= sent <= wire && ActivatesCatalog(sent[|start|..], calls, effective, id, hostOptional)
    ensures ActivatesCatalog(wire[|start|..], calls, effective, id, hostOptional)
  {
    var e :| e in sent[|start|..] && Confirms(e, id, hostOptional)
      && (e.request.effective == effective || CallActivate(e.request.effective) in calls);
    var es := sent[|start|..];
    var i :| 0 <= i < |es| && es[i] == e;
    assert wire[|start|..][i] == sent[|start| + i] == e;
  }

  /** Staging of one transaction, and at most one commit the peer did not
      acknowledge at its end. */
  ghost predicate Unfinished(es: seq<Exchange>, id: Id) {
    || AllStaging(es, id)
    || (|es| > 0 && es[|es| - 1].request == CommitConfigs(id) && !Acknowledged(es[|es| - 1]) && AllStaging(es[..|es| - 1], id))
  }

  /** A refresh that failed: nothing was acknowledged, and once any request of the
      transaction was sent the last one asks for its abort. */
  ghost predicate AbortsIn(more: seq<Exchange>, id: Id) {
    |more| > 0 && more[|more| - 1].request == AbortConfigs(id) && Unfinished(more[..|more| - 1], id)
  }

  lemma AbortAcknowledgesNothing(more: seq<Exchange>, id: Id)
    requires AbortsIn(more, id)
    ensures forall e :: e in more ==> e.request.id == id && !Acknowledged(e)
  {
    var front := more[..|more| - 1];
    assert more == front + [more[|more| - 1]];
    if !AllStaging(front, id) {
      assert front == front[..|front| - 1] + [front[|front| - 1]];
    }
  }

  /** A refresh that succeeded: staging only, an activation the peer confirmed,
      then the acknowledged commit as the very last exchange. */
  ghost predicate CommitsIn(more: seq<Exchange>, id: Id, hostOptional: bool) {
    && |more| > 0
    && more[|more| - 1] == Exchange(CommitConfigs(id), Controlled(id, true))
    && AllStaging(more[..|more| - 1], id)
    && Confirmed(more[..|more| - 1], id, hostOptional)
  }

  /** The catalog's usable configs plus the boundaries of its failures. */
  ghost predicate Publishes(p: Published, id: Id, c: Catalog, fold: Folding) {
    && p.generation == id
    && (forall d :: Usable(p, d) <==> d in c.configs)
    && (forall d :: d in c.configs ==> p.configs[d] == c.configs[d])
    && (forall u :: u in p.unavailable ==>
          u in c.failures && Blocks(u, c.configs.Keys, fold) && u in p.configs && p.configs[u] == NO_ENTRIES)
    && (forall f :: f in c.failures && Blocks(f, c.configs.Keys, fold) ==>
          exists u :: u in p.unavailable && Owns(u, f, fold))
    && (p.hasLastGood <==> c.configs != map[])
  }

  lemma PublishedIsSound(p: Published, id: Id, c: Catalog, fold: Folding)
    requires Publishes(p, id, c, fold)
    ensures Sound(p, fold)
  {
    hide Owns;
    assert forall u :: u in p.unavailable ==> u in p.configs;
    forall d, u | Usable(p, d) && u in p.unavailable ensures !Same(d, u, fold) {
      BlockedIsUnlike(d, u, c.configs.Keys, fold);
    }
    if c.configs != map[] {
      var d :| d in c.configs;
      assert Usable(p, d);
    }
  }

  lemma BlockedIsUnlike(d: Directory, u: Directory, usable: set<Directory>, fold: Folding)
    requires d in usable && Blocks(u, usable, fold)
    ensures !Same(d, u, fold)
  {
    if Same(d, u, fold) {
      assert |Identity(d, fold)| == |Identity(u, fold)|;
      assert Identity(u, fold)[..|d|] == Identity(d, fold);
      assert Owns(d, u, fold);
      assert false;
    }
  }

  // ---- The transport ---------------------------------------------------------

  class Wire {
    const peer: Peer
    var exchanges: seq<Exchange>

    constructor (peer: Peer)
      ensures exchanges == [] && this.peer == peer
    {
      this.peer := peer;
      exchanges := [];
    }

    method Send(request: Request) returns (reply: Reply)
      modifies this`exchanges
      ensures exchanges == old(exchanges) + [Exchange(request, reply)]
      ensures reply == peer(old(exchanges), request)
    {
      reply := peer(exchanges, request);
      exchanges := exchanges + [Exchange(request, reply)];
    }
  }

  // ---- The loader of one transaction -----------------------------------------

  class Loader {
    const wire: Wire
    const hasLastGood: bool
    ghost const start: seq<Exchange>
    var transactionID: Id
    var frontierSeen: bool
    var activated: bool
    var pluginDegraded: bool

    /** Everything sent so far stages the one transaction this loader observed. */
    ghost predicate Valid()
      reads this, wire
    {
      && start <= wire.exchanges
      && (transactionID == "" ==> wire.exchanges == start)
      && AllStaging(wire.exchanges[|start|..], transactionID)
      && (activated ==> Confirmed(wire.exchanges[|start|..], transactionID, !hasLastGood))
    }

    constructor (wire: Wire, hasLastGood: bool)
      ensures Valid() && fresh(this) && this.wire == wire && this.hasLastGood == hasLastGood
      ensures start == wire.exchanges && transactionID == "" && !activated
    {
      this.wire, this.hasLastGood, this.start := wire, hasLastGood, wire.exchanges;
      transactionID, frontierSeen, activated, pluginDegraded := "", false, false, false;
    }

    method ObserveTransaction(id: Id) returns (ok: bool)
      requires Valid()
      modifies this`transactionID
      ensures Valid() && ok == (id != "" && (old(transactionID) == "" || old(transactionID) == id))
      ensures transactionID == if ok then id else old(transactionID)
    {
      if id == "" {
        return false;
      }
      if transactionID == "" {
        transactionID := id;
        return true;
      }
      return transactionID == id;
    }

    // Sends one staging request of the observed transaction.
    method Stage(request: Request) returns (reply: Reply)
      requires Valid() && transactionID != "" && request.id == transactionID
      requires request.LoadConfigs? || request.ActivateConfigs?
      modifies wire`exchanges
      ensures Valid() && wire.exchanges == old(wire.exchanges) + [Exchange(request, reply)]
      ensures Exchange(request, reply) in wire.exchanges[|start|..]
    {
      ghost var before := wire.exchanges[|start|..];
      reply := wire.Send(request);
      assert wire.exchanges[|start|..] == before + [Exchange(request, reply)];
    }

    method LoadConfigs(id: Id) returns (results: Option<Option<nat>>)
      requires Valid()
      modifies this`transactionID, this`frontierSeen, wire`exchanges
      ensures Valid() && (old(transactionID) == "" || old(transactionID) == transactionID)
      ensures id != "" && old(transactionID) == "" ==> transactionID == id
      ensures results.Some? ==> transactionID == id
      ensures id != "" && (old(transactionID) == "" || old(transactionID) == id) && results != Some(Some(0)) ==>
        SomeDeclined(wire.exchanges[|start|..], id, !hasLastGood)
      ensures id != "" && (old(transactionID) == "" || old(transactionID) == id) ==>
        SentOne(old(wire.exchanges), wire.exchanges, Request.LoadConfigs(id))
    {
      var ok := ObserveTransaction(id);
      if !ok {
        return None;
      }
      var reply := Stage(Request.LoadConfigs(id));
      assert reply != Loaded(id, Some(0)) ==> Declines(Exchange(Request.LoadConfigs(id), reply), id, !hasLastGood);
      if !reply.Loaded? || reply.id != id {
        return None;
      }
      frontierSeen := true;
      return Some(reply.results);
    }

    method ActivateConfigs(id: Id, effective: seq<string>) returns (plugins: Option<seq<string>>)
      requires Valid()
      modifies this`transactionID, this`activated, this`pluginDegraded, wire`exchanges
      ensures Valid() && (old(transactionID) == "" || old(transactionID) == transactionID)
      ensures id != "" && old(transactionID) == "" ==> transactionID == id
      ensures plugins.Some? ==> activated && transactionID == id
      ensures id != "" && (old(transactionID) == "" || old(transactionID) == id) && plugins.None? ==>
        SomeDeclined(wire.exchanges[|start|..], id, !hasLastGood)
      ensures id != "" && (old(transactionID) == "" || old(transactionID) == id) ==>
        SentOne(old(wire.exchanges), wire.exchanges, Request.ActivateConfigs(id, effective))
        && (plugins.Some? ==> Confirms(wire.exchanges[|old(wire.exchanges)|], id, !hasLastGood))
    {
      var ok := ObserveTransaction(id);
      if !ok {
        return None;
      }
      var reply := Stage(Request.ActivateConfigs(id, effective));
      ghost var e := Exchange(Request.ActivateConfigs(id, effective), reply);
      assert !Confirms(e, id, !hasLastGood) ==> Declines(e, id, !hasLastGood);
      if !reply.Activated? || reply.id != id {
        return None;
      }
      if !reply.hostReady {
        if !hasLastGood {
          activated := true;
          pluginDegraded := true;
          return Some([]);
        }
        return None;
      }
      activated := true;
      return Some(reply.plugins);
    }

    /** The coordinator's calls, in its order; it may go on after a failed one. */
    method RunDiscovery(id: Id, calls: seq<Call>)
      requires Valid() && transactionID == "" && id != ""
      modifies this, wire`exchanges
      ensures Valid() && transactionID == (if |calls| > 0 then id else "")
      ensures SentCalls(old(wire.exchanges), wire.exchanges, calls, id)
    {
      for i := 0 to |calls|
        invariant Valid() && transactionID == (if i > 0 then id else "")
        invariant SentCalls(old(wire.exchanges), wire.exchanges, calls[..i], id)
      {
        assert calls[..i + 1] == calls[..i] + [calls[i]];
        match calls[i] {
          case CallLoad => var _ := LoadConfigs(id);
          case CallActivate(effective) => var _ := ActivateConfigs(id, effective);
        }
      }
      assert calls[..|calls|] == calls;
    }

    method EnsureActivated(id: Id, effective: seq<string>) returns (ok: bool)
      requires Valid() && id != "" && (transactionID == "" || transactionID == id)
      modifies this, wire`exchanges
      ensures Valid() && transactionID == id
      ensures ok ==> activated
      ensures !ok ==> SomeDeclined(wire.exchanges[|start|..], id, !hasLastGood)
      ensures old(wire.exchanges) <= wire.exchanges && (old(activated) ==> ok && wire.exchanges == old(wire.exchanges))
      ensures ok && !old(activated) ==>
        && |wire.exchanges| > |old(wire.exchanges)| && wire.exchanges[|wire.exchanges| - 1].request == Request.ActivateConfigs(id, effective)
        && Confirms(wire.exchanges[|wire.exchanges| - 1], id, !hasLastGood)
    {
      ok := ObserveTransaction(id);
      if activated {
        return true;
      }
      if !frontierSeen {
        var results := LoadConfigs(id);
        if results.None? || results.value != Some(0) {
          return false;
        }
      }
      var plugins := ActivateConfigs(id, effective);
      return plugins.Some?;
    }

    method Commit(id: Id) returns (ok: bool)
      requires Valid() && id != "" && transactionID == id
      modifies this`transactionID, wire`exchanges
      ensures |wire.exchanges| == |old(wire.exchanges)| + 1 && old(wire.exchanges) <= wire.exchanges
      ensures wire.exchanges[|old(wire.exchanges)|].request == CommitConfigs(id)
      ensures ok <==> Acknowledged(wire.exchanges[|old(wire.exchanges)|])
    {
      var observed := ObserveTransaction(id);
      var reply := wire.Send(CommitConfigs(id));
      return reply.Controlled? && reply.id == id && reply.done;
    }

    method Abort(id: Id) returns (ok: bool)
      requires id != ""
      modifies wire`exchanges
      ensures |wire.exchanges| == |old(wire.exchanges)| + 1 && old(wire.exchanges) <= wire.exchanges
      ensures wire.exchanges[|old(wire.exchanges)|].request == AbortConfigs(id)
    {
      var reply := wire.Send(AbortConfigs(id));
      return reply.Controlled? && reply.id == id && reply.done;
    }
  }
}
