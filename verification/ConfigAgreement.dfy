/** When Go and the editor extension serve the same config transaction, although
    requests and replies between them may be lost. */
module ConfigAgreement {
  import opened Wrappers
  import opened ConfigTransactions
  import opened ConfigRefresh

  // ---- The extension's side --------------------------------------------------

  /** What a commit leaves behind so that an abort can still undo it. */
  datatype Rollback = Rollback(generation: Id, previous: Id)

  datatype Node = Node(active: Id, rollback: Option<Rollback>, staged: set<Id>)

  const NO_GENERATION: Node := Node("", None, {})

  /** A request that reached the extension. A commit of a staged generation makes
      it the active one; an abort discards a staged generation, and takes back a
      commit if it was the last one. */
  function Handle(n: Node, request: Request): Node {
    match request
    case LoadConfigs(_) => n
    case ActivateConfigs(id, _) => if id == "" then n else n.(staged := n.staged + {id})
    case CommitConfigs(id) =>
      if id !in n.staged || id == n.active then n
      else n.(active := id, rollback := Some(Rollback(id, n.active)))
    case AbortConfigs(id) =>
      if id != n.active then n.(staged := n.staged - {id})
      else if n.rollback.Some? && n.rollback.value.generation == id
      then Node(n.rollback.value.previous, None, n.staged - {id})
      else n
  }

  /** `reached[i]` says whether request `i` reached the extension. */
  function HandleAll(n: Node, es: seq<Exchange>, reached: seq<bool>): Node
    requires |reached| == |es|
    decreases |es|
  {
    if |es| == 0 then n
    else
      var last := |es| - 1;
      var before := HandleAll(n, es[..last], reached[..last]);
      if reached[last] then Handle(before, es[last].request) else before
  }

  /** The extension answers only what reached it, and acknowledges only the commit
      of a generation it had staged. */
  ghost predicate Honest(n: Node, es: seq<Exchange>, reached: seq<bool>) {
    && |reached| == |es|
    && (forall i :: 0 <= i < |es| && es[i].reply != NoReply ==> reached[i])
    && (forall i :: 0 <= i < |es| && Acknowledged(es[i]) ==>
          es[i].request.id in HandleAll(n, es[..i], reached[..i]).staged)
  }

  /** The commit of this refresh took effect on the other side. */
  ghost predicate TookEffect(n: Node, es: seq<Exchange>, reached: seq<bool>)
    requires |reached| == |es|
  {
    exists i :: 0 <= i < |es| && es[i].request.CommitConfigs? && reached[i]
      && es[i].request.id in HandleAll(n, es[..i], reached[..i]).staged
  }

  /** Its abort arrived. */
  predicate Undone(es: seq<Exchange>, reached: seq<bool>)
    requires |reached| == |es|
  {
    exists i :: 0 <= i < |es| && es[i].request.AbortConfigs? && reached[i]
  }

  ghost predicate Unknown(n: Node, id: Id) {
    id != n.active && id !in n.staged && (n.rollback.Some? ==> n.rollback.value.generation != id)
  }

  // ---- One refresh -----------------------------------------------------------

  /** The exchanges of one refresh: none, an abort at the end, or the
      acknowledged commit at the end. */
  ghost predicate Shaped(es: seq<Exchange>, id: Id, hostOptional: bool) {
    es == [] || AbortsIn(es, id) || CommitsIn(es, id, hostOptional)
  }

  lemma {:induction false} StagingOnly(n: Node, es: seq<Exchange>, reached: seq<bool>, id: Id)
    requires |reached| == |es| && AllStaging(es, id)
    ensures var m := HandleAll(n, es, reached);
      m.active == n.active && m.rollback == n.rollback && n.staged <= m.staged <= n.staged + {id}
    decreases |es|
  {
    if |es| > 0 {
      var last := |es| - 1;
      assert es[last] in es && Staging(es[last], id);
      assert forall e :: e in es[..last] ==> e in es;
      StagingOnly(n, es[..last], reached[..last], id);
    }
  }

  lemma StagingHasNoControl(es: seq<Exchange>, id: Id)
    requires AllStaging(es, id)
    ensures forall i :: 0 <= i < |es| ==> !es[i].request.CommitConfigs? && !es[i].request.AbortConfigs?
  {
    forall i | 0 <= i < |es| ensures !es[i].request.CommitConfigs? && !es[i].request.AbortConfigs? {
      assert Staging(es[i], id);
    }
  }

  /** What staging and then one control request do. */
  lemma OneMore(n: Node, es: seq<Exchange>, reached: seq<bool>)
    requires |reached| == |es| > 0
    ensures var last := |es| - 1;
      var before := HandleAll(n, es[..last], reached[..last]);
      HandleAll(n, es, reached) == if reached[last] then Handle(before, es[last].request) else before
  {}

  // Staging, and then possibly a commit.
  lemma UnfinishedOnNode(n: Node, es: seq<Exchange>, reached: seq<bool>, id: Id)
    requires |reached| == |es| && Unfinished(es, id) && Unknown(n, id) && id != ""
    ensures var m := HandleAll(n, es, reached);
      && (if TookEffect(n, es, reached) then m.active == id && m.rollback == Some(Rollback(id, n.active))
          else m.active == n.active && m.rollback == n.rollback)
      && n.staged <= m.staged <= n.staged + {id}
  {
    if AllStaging(es, id) {
      StagingOnly(n, es, reached, id);
      StagingHasNoControl(es, id);
    } else {
      ControlLast(n, es, reached, id);
    }
  }

  // Staging, and then one commit.
  lemma ControlLast(n: Node, es: seq<Exchange>, reached: seq<bool>, id: Id)
    requires |reached| == |es| > 0 && es[|es| - 1].request == CommitConfigs(id) && AllStaging(es[..|es| - 1], id)
    requires Unknown(n, id)
    ensures var last := |es| - 1;
      var m := HandleAll(n, es, reached);
      && (TookEffect(n, es, reached) <==> reached[last] && id in HandleAll(n, es[..last], reached[..last]).staged)
      && (if TookEffect(n, es, reached) then m.active == id && m.rollback == Some(Rollback(id, n.active))
          else m.active == n.active && m.rollback == n.rollback)
      && n.staged <= m.staged <= n.staged + {id}
  {
    var last := |es| - 1;
    var front := es[..last];
    StagingOnly(n, front, reached[..last], id);
    StagingHasNoControl(front, id);
    OneMore(n, es, reached);
    hide HandleAll;
    assert forall i :: 0 <= i < last ==> front[i] == es[i];
    if reached[last] && id in HandleAll(n, front, reached[..last]).staged {
      assert es[last].request.CommitConfigs?;
    }
  }

  // The abort changes nothing of what took effect before it.
  lemma AbortTookNothing(n: Node, es: seq<Exchange>, reached: seq<bool>, id: Id)
    requires |reached| == |es| > 0 && AbortsIn(es, id)
    ensures var last := |es| - 1;
      && (TookEffect(n, es, reached) <==> TookEffect(n, es[..last], reached[..last]))
      && (Undone(es, reached) <==> reached[last])
  {
    hide HandleAll;
    var last := |es| - 1;
    var front, got := es[..last], reached[..last];
    FrontHasNoAbort(front, id);
    assert forall i :: 0 <= i < last ==> front[i] == es[i] && got[i] == reached[i] && front[..i] == es[..i] && got[..i] == reached[..i];
    if i :| 0 <= i < |es| && es[i].request.CommitConfigs? && reached[i] && es[i].request.id in HandleAll(n, es[..i], reached[..i]).staged {
      assert i < last;
      assert front[i].request.CommitConfigs? && got[i] && front[i].request.id in HandleAll(n, front[..i], got[..i]).staged;
    }
    if i :| 0 <= i < |front| && front[i].request.CommitConfigs? && got[i] && front[i].request.id in HandleAll(n, front[..i], got[..i]).staged {
      assert es[i].request.CommitConfigs? && reached[i] && es[i].request.id in HandleAll(n, es[..i], reached[..i]).staged;
    }
    if reached[last] {
      assert es[last].request.AbortConfigs?;
    }
  }

  lemma FrontHasNoAbort(front: seq<Exchange>, id: Id)
    requires Unfinished(front, id)
    ensures forall i :: 0 <= i < |front| ==> !front[i].request.AbortConfigs?
  {
    if AllStaging(front, id) {
      StagingHasNoControl(front, id);
    } else {
      var staged := front[..|front| - 1];
      StagingHasNoControl(staged, id);
      assert forall i :: 0 <= i < |staged| ==> front[i] == staged[i];
    }
  }

  /** One refresh moves the extension to its transaction exactly when its commit
      took effect and no abort took it back. */
  lemma RefreshOnNode(n: Node, es: seq<Exchange>, reached: seq<bool>, id: Id, hostOptional: bool)
    requires |reached| == |es| && Shaped(es, id, hostOptional) && Unknown(n, id) && id != ""
    ensures var m := HandleAll(n, es, reached);
      && m.active == (if TookEffect(n, es, reached) && !Undone(es, reached) then id else n.active)
      && (forall other :: Unknown(n, other) && other != id ==> Unknown(m, other))
    ensures CommitsIn(es, id, hostOptional) && Honest(n, es, reached) ==> TookEffect(n, es, reached) && !Undone(es, reached)
  {
    if es != [] {
      if AbortsIn(es, id) {
        AbortOnNode(n, es, reached, id);
        assert !Acknowledged(es[|es| - 1]);
      } else {
        CommitOnNode(n, es, reached, id, hostOptional);
      }
    }
  }

  lemma AbortOnNode(n: Node, es: seq<Exchange>, reached: seq<bool>, id: Id)
    requires |reached| == |es| && AbortsIn(es, id) && Unknown(n, id) && id != ""
    ensures var m := HandleAll(n, es, reached);
      && m.active == (if TookEffect(n, es, reached) && !Undone(es, reached) then id else n.active)
      && (forall other :: Unknown(n, other) && other != id ==> Unknown(m, other))
  {
    var last := |es| - 1;
    UnfinishedOnNode(n, es[..last], reached[..last], id);
    AbortTookNothing(n, es, reached, id);
    OneMore(n, es, reached);
    hide HandleAll, TookEffect, Undone;
  }

  lemma CommitOnNode(n: Node, es: seq<Exchange>, reached: seq<bool>, id: Id, hostOptional: bool)
    requires |reached| == |es| && CommitsIn(es, id, hostOptional) && Unknown(n, id) && id != ""
    ensures var m := HandleAll(n, es, reached);
      && m.active == (if TookEffect(n, es, reached) then id else n.active) && !Undone(es, reached)
      && (forall other :: Unknown(n, other) && other != id ==> Unknown(m, other))
    ensures Honest(n, es, reached) ==> TookEffect(n, es, reached)
  {
    var last := |es| - 1;
    ControlLast(n, es, reached, id);
    StagingHasNoControl(es[..last], id);
    assert forall i :: 0 <= i < last ==> es[..last][i] == es[i];
    assert Acknowledged(es[last]);
    hide HandleAll, TookEffect;
  }

  // ---- Whole runs ------------------------------------------------------------

  /** A refresh as it went over the wire, and what of it reached the extension. */
  datatype Refresh = Refresh(id: Id, es: seq<Exchange>, reached: seq<bool>, hostOptional: bool)

  ghost predicate Sized(rs: seq<Refresh>) {
    forall k :: 0 <= k < |rs| ==> |rs[k].reached| == |rs[k].es|
  }

  function Wired(rs: seq<Refresh>): seq<Exchange> {
    if |rs| == 0 then [] else Wired(rs[..|rs| - 1]) + rs[|rs| - 1].es
  }

  ghost function NodeAfter(rs: seq<Refresh>): Node
    requires Sized(rs)
  {
    if |rs| == 0 then NO_GENERATION
    else HandleAll(NodeAfter(rs[..|rs| - 1]), rs[|rs| - 1].es, rs[|rs| - 1].reached)
  }

  /** Refreshes of distinct transactions with an honest extension. */
  ghost predicate IsRun(rs: seq<Refresh>) {
    && Sized(rs)
    && (forall k :: 0 <= k < |rs| ==> rs[k].id != "" && Shaped(rs[k].es, rs[k].id, rs[k].hostOptional))
    && (forall k, l :: 0 <= k < l < |rs| ==> rs[k].id != rs[l].id)
    && (forall k :: 0 <= k < |rs| ==> Honest(NodeAfter(rs[..k]), rs[k].es, rs[k].reached))
  }

  predicate Succeeded(r: Refresh) {
    |r.es| > 0 && Acknowledged(r.es[|r.es| - 1])
  }

  /** The commit of refresh `k` took effect and was not taken back. */
  ghost predicate Stands(rs: seq<Refresh>, k: int)
    requires Sized(rs)
  {
    0 <= k < |rs| && TookEffect(NodeAfter(rs[..k]), rs[k].es, rs[k].reached) && !Undone(rs[k].es, rs[k].reached)
  }

  ghost predicate LastStanding(rs: seq<Refresh>, k: int)
    requires Sized(rs)
  {
    Stands(rs, k) && forall l :: k < l < |rs| ==> !Stands(rs, l)
  }

  /** The last commit that stands on the other side is one Go heard of: it was not
      left standing by losing both its reply and its abort. */
  ghost predicate NothingWasLost(rs: seq<Refresh>)
    requires Sized(rs)
  {
    forall k :: LastStanding(rs, k) ==> Succeeded(rs[k])
  }

  lemma RunIds(rs: seq<Refresh>)
    requires IsRun(rs)
    ensures Sized(rs) && (forall k :: 0 <= k < |rs| ==> rs[k].id != "")
    ensures forall k, l :: 0 <= k < l < |rs| ==> rs[k].id != rs[l].id
    ensures forall k :: 0 <= k < |rs| ==> Shaped(rs[k].es, rs[k].id, rs[k].hostOptional)
  {
    hide Shaped, Honest, NodeAfter;
  }

  /** The last refresh before `n` that stands, or -1. */
  ghost function StandingBelow(rs: seq<Refresh>, n: nat): (k: int)
    requires Sized(rs) && n <= |rs|
    ensures -1 <= k < n && (k >= 0 ==> Stands(rs, k)) && forall l :: k < l < n ==> !Stands(rs, l)
  {
    if n == 0 then -1 else if Stands(rs, n - 1) then n - 1 else StandingBelow(rs, n - 1)
  }

  function SuccessBelow(rs: seq<Refresh>, n: nat): (k: int)
    requires n <= |rs|
    ensures -1 <= k < n && (k >= 0 ==> Succeeded(rs[k])) && forall l :: k < l < n ==> !Succeeded(rs[l])
  {
    if n == 0 then -1 else if Succeeded(rs[n - 1]) then n - 1 else SuccessBelow(rs, n - 1)
  }

  function IdAt(rs: seq<Refresh>, k: int): Id
    requires -1 <= k < |rs|
  {
    if k == -1 then "" else rs[k].id
  }

  lemma NextNode(rs: seq<Refresh>, n: nat)
    requires Sized(rs) && n < |rs|
    ensures NodeAfter(rs[..n + 1]) == HandleAll(NodeAfter(rs[..n]), rs[n].es, rs[n].reached)
  {
    hide HandleAll;
    assert rs[..n + 1][..n] == rs[..n];
  }

  lemma NextMove(rs: seq<Refresh>, n: nat)
    requires IsRun(rs) && n < |rs| && Unknown(NodeAfter(rs[..n]), rs[n].id)
    ensures NodeAfter(rs[..n + 1]).active == if Stands(rs, n) then rs[n].id else NodeAfter(rs[..n]).active
    ensures forall other :: Unknown(NodeAfter(rs[..n]), other) && other != rs[n].id ==> Unknown(NodeAfter(rs[..n + 1]), other)
    ensures CommitsIn(rs[n].es, rs[n].id, rs[n].hostOptional) ==> Stands(rs, n)
  {
    NextNode(rs, n);
    var before := NodeAfter(rs[..n]);
    RefreshOnNode(before, rs[n].es, rs[n].reached, rs[n].id, rs[n].hostOptional);
    hide Shaped, Honest, TookEffect, Undone, HandleAll, Unknown, NodeAfter, CommitsIn;
  }

  // The extension serves the last refresh that stands, and knows no later id yet.
  lemma {:induction false} NodeServesLastStanding(rs: seq<Refresh>, n: nat)
    requires IsRun(rs) && n <= |rs|
    ensures NodeAfter(rs[..n]).active == IdAt(rs, StandingBelow(rs, n))
    ensures forall k :: n <= k < |rs| ==> Unknown(NodeAfter(rs[..n]), rs[k].id)
  {
    RunIds(rs);
    if n == 0 {
      assert rs[..0] == [];
    } else {
      hide IsRun, Stands, NodeAfter, Unknown, Shaped;
      NodeServesLastStanding(rs, n - 1);
      NextMove(rs, n - 1);
    }
  }

  // A refresh succeeds exactly when it has the shape of a commit, and then it stands.
  lemma SuccessStands(rs: seq<Refresh>, k: nat)
    requires IsRun(rs) && k < |rs|
    ensures Succeeded(rs[k]) <==> CommitsIn(rs[k].es, rs[k].id, rs[k].hostOptional)
    ensures Succeeded(rs[k]) ==> Stands(rs, k)
  {
    RunIds(rs);
    hide IsRun, Stands, NodeAfter, Unknown;
    NodeServesLastStanding(rs, k);
    NextMove(rs, k);
  }

  // Go serves the last refresh that succeeded.
  lemma {:induction false} GoServesLastSuccess(rs: seq<Refresh>, n: nat)
    requires IsRun(rs) && n <= |rs|
    ensures Live(Wired(rs[..n])) == IdAt(rs, SuccessBelow(rs, n))
  {
    RunIds(rs);
    if n > 0 {
      hide IsRun, Live, CommitsIn, Succeeded, Shaped, NodeAfter, Stands;
      GoServesLastSuccess(rs, n - 1);
      SuccessStands(rs, n - 1);
      assert rs[..n][..n - 1] == rs[..n - 1];
      RefreshOnGo(Wired(rs[..n - 1]), rs[n - 1]);
    }
  }

  lemma RefreshOnGo(wire: seq<Exchange>, r: Refresh)
    requires Shaped(r.es, r.id, r.hostOptional)
    ensures Live(wire + r.es) == if CommitsIn(r.es, r.id, r.hostOptional) then r.id else Live(wire)
  {
    if CommitsIn(r.es, r.id, r.hostOptional) {
      LiveMoves(wire, r.es, r.id, r.hostOptional);
    } else {
      if AbortsIn(r.es, r.id) {
        AbortAcknowledgesNothing(r.es, r.id);
      }
      LiveUnmoved(wire, r.es);
    }
  }

  /** Go and the extension serve the same transaction if and only if no commit
      stands that lost both its reply and its abort, later than the last success. */
  lemma AgreeIffNothingWasLost(rs: seq<Refresh>)
    requires IsRun(rs)
    ensures Live(Wired(rs)) == NodeAfter(rs).active <==> NothingWasLost(rs)
  {
    RunIds(rs);
    hide IsRun, Stands, Succeeded, Live, Wired, NodeAfter, Shaped, NothingWasLost;
    NodeServesLastStanding(rs, |rs|);
    GoServesLastSuccess(rs, |rs|);
    assert rs[..|rs|] == rs;
    forall k | 0 <= k < |rs| ensures Succeeded(rs[k]) ==> Stands(rs, k) {
      SuccessStands(rs, k);
    }
    LastIsUnique(rs);
  }

  lemma LastIsUnique(rs: seq<Refresh>)
    requires Sized(rs)
    ensures var s := StandingBelow(rs, |rs|);
      NothingWasLost(rs) <==> s == -1 || Succeeded(rs[s])
  {
    assert forall k :: Stands(rs, k) ==> 0 <= k < |rs|;
    hide Stands, Succeeded, Sized;
    var s := StandingBelow(rs, |rs|);
    assert s >= 0 ==> LastStanding(rs, s);
    assert forall k :: LastStanding(rs, k) ==> k == s;
  }

  /** An aborted refresh whose abort arrives leaves the two as they were. */
  lemma AbortRestores(n: Node, es: seq<Exchange>, reached: seq<bool>, id: Id)
    requires |reached| == |es| && AbortsIn(es, id) && Unknown(n, id) && id != "" && reached[|es| - 1]
    ensures HandleAll(n, es, reached).active == n.active
  {
    AbortOnNode(n, es, reached, id);
    AbortTookNothing(n, es, reached, id);
  }

  // ---- The server's runs -----------------------------------------------------

  /** The same exchanges; what reached the extension may differ. */
  ghost predicate SameWire(rs: seq<Refresh>, seen: seq<Refresh>) {
    |rs| == |seen| && forall k :: 0 <= k < |rs| ==>
      rs[k].id == seen[k].id && rs[k].es == seen[k].es && rs[k].hostOptional == seen[k].hostOptional
  }

  lemma {:induction false} SameWireSameBytes(rs: seq<Refresh>, seen: seq<Refresh>)
    requires SameWire(rs, seen)
    ensures Wired(rs) == Wired(seen)
    decreases |rs|
  {
    if |rs| > 0 {
      SameWireSameBytes(rs[..|rs| - 1], seen[..|seen| - 1]);
    }
  }

  ghost predicate HonestRun(rs: seq<Refresh>) {
    Sized(rs) && forall k :: 0 <= k < |rs| ==> Honest(NodeAfter(rs[..k]), rs[k].es, rs[k].reached)
  }

  ghost predicate AgreesIff(generation: Id, rs: seq<Refresh>)
    requires Sized(rs)
  {
    generation == NodeAfter(rs).active <==> NothingWasLost(rs)
  }

  /** Any number of refreshes from the start: whatever is lost on the way, the
      server serves what an honest extension serves exactly when no commit stands
      that lost both its reply and its abort. */
  method ServeAgrees(server: Server, ds: seq<Discovery>) returns (ghost seen: seq<Refresh>)
    requires server.Valid() && server.wire.exchanges == []
    requires forall i :: 0 <= i < |ds| ==> ds[i].id != ""
    requires forall i, j :: 0 <= i < j < |ds| ==> ds[i].id != ds[j].id
    modifies server, server.wire`exchanges
    ensures server.Valid() && |seen| == |ds| && Wired(seen) == server.wire.exchanges
    ensures forall i :: 0 <= i < |ds| ==> seen[i].id == ds[i].id
    ensures forall rs :: SameWire(rs, seen) ==> RunAgreesIff(server.eslintPluginConfigGeneration, rs)
  {
    hide AbortsIn, CommitsIn, Sound, Publishes, KeepsUsable, Live, SameWire, HonestRun, AgreesIff, Wired, NodeAfter;
    assert Wired([]) == [] by { NothingWired(); }
    seen := [];
    for i := 0 to |ds|
      invariant server.Valid() && |seen| == i && Wired(seen) == server.wire.exchanges
      invariant forall k :: 0 <= k < i ==> seen[k].id == ds[k].id && Shaped(seen[k].es, seen[k].id, seen[k].hostOptional)
    {
      ghost var before, had := server.wire.exchanges, server.configDiscoveryHasLastGood;
      var r := server.RefreshConfig(ds[i]);
      ghost var more := server.wire.exchanges[|before|..];
      assert server.wire.exchanges == before + more;
      AddRefresh(seen, Refresh(ds[i].id, more, [], !had));
      seen := seen + [Refresh(ds[i].id, more, [], !had)];
    }
    AllRunsAgree(seen);
  }

  lemma NothingWired()
    ensures Wired([]) == []
  {}

  lemma AddRefresh(rs: seq<Refresh>, r: Refresh)
    ensures Wired(rs + [r]) == Wired(rs) + r.es
  {
    assert (rs + [r])[..|rs|] == rs;
  }

  ghost predicate RunAgreesIff(generation: Id, rs: seq<Refresh>) {
    HonestRun(rs) ==> AgreesIff(generation, rs)
  }

  lemma AllRunsAgree(seen: seq<Refresh>)
    requires forall k :: 0 <= k < |seen| ==> seen[k].id != "" && Shaped(seen[k].es, seen[k].id, seen[k].hostOptional)
    requires forall k, l :: 0 <= k < l < |seen| ==> seen[k].id != seen[l].id
    ensures forall rs :: SameWire(rs, seen) ==> RunAgreesIff(Live(Wired(seen)), rs)
  {
    hide AgreesIff, HonestRun, SameWire, Shaped, Live, Wired;
    forall rs | SameWire(rs, seen) ensures RunAgreesIff(Live(Wired(seen)), rs) {
      if HonestRun(rs) {
        RunAgrees(rs, seen);
      }
    }
  }

  lemma RunAgrees(rs: seq<Refresh>, seen: seq<Refresh>)
    requires SameWire(rs, seen) && HonestRun(rs)
    requires forall k :: 0 <= k < |seen| ==> seen[k].id != "" && Shaped(seen[k].es, seen[k].id, seen[k].hostOptional)
    requires forall k, l :: 0 <= k < l < |seen| ==> seen[k].id != seen[l].id
    ensures AgreesIff(Live(Wired(seen)), rs)
  {
    hide Shaped, Honest, Live, NothingWasLost, NodeAfter, Wired;
    assert IsRun(rs);
    SameWireSameBytes(rs, seen);
    AgreeIffNothingWasLost(rs);
  }

  // ---- Both replies lost -----------------------------------------------------

  function Prepared(id: Id): seq<Exchange> {
    [Exchange(LoadConfigs(id), Loaded(id, Some(0))), Exchange(ActivateConfigs(id, []), Activated(id, true, []))]
  }

  /** A first refresh whose commit and abort get no reply. */
  function Lost(id: Id): seq<Exchange> {
    Prepared(id) + [Exchange(CommitConfigs(id), NoReply)] + [Exchange(AbortConfigs(id), NoReply)]
  }

  /** The commit arrives and the abort does not: Go goes on without the
      transaction the extension serves. */
  lemma LostAbortDisagrees(id: Id)
    requires id != ""
    ensures AbortsIn(Lost(id), id) && |Lost(id)| == 4
    ensures Honest(NO_GENERATION, Lost(id), [true, true, true, false])
    ensures Live(Lost(id)) == "" && HandleAll(NO_GENERATION, Lost(id), [true, true, true, false]).active == id
  {
    LostShape(id);
    LostOnNode(id);
    hide Lost, AbortsIn, HandleAll;
    AbortAcknowledgesNothing(Lost(id), id);
    assert [] + Lost(id) == Lost(id);
    LiveUnmoved([], Lost(id));
  }

  lemma LostShape(id: Id)
    ensures AbortsIn(Lost(id), id) && |Lost(id)| == 4 && Lost(id)[3].reply == NoReply
  {
    var committed := Prepared(id) + [Exchange(CommitConfigs(id), NoReply)];
    assert Lost(id)[..3] == committed && committed[..2] == Prepared(id);
    assert AllStaging(Prepared(id), id);
  }

  lemma LostOnNode(id: Id)
    requires id != ""
    ensures |Lost(id)| == 4 && HandleAll(NO_GENERATION, Lost(id), [true, true, true, false]).active == id
  {
    var committed := Prepared(id) + [Exchange(CommitConfigs(id), NoReply)];
    assert Lost(id)[..3] == committed && committed[..2] == Prepared(id) && Prepared(id)[..1] == [Prepared(id)[0]];
    assert [true, true, true, false][..3] == [true, true, true] && [true, true, true][..2] == [true, true] && [true, true][..1] == [true];
    assert [Prepared(id)[0]][..0] == [] && [true][..0] == [];
    assert HandleAll(NO_GENERATION, [], []) == NO_GENERATION;
    assert HandleAll(NO_GENERATION, [Prepared(id)[0]], [true]) == NO_GENERATION;
    assert HandleAll(NO_GENERATION, Prepared(id), [true, true]) == NO_GENERATION.(staged := {id});
    assert HandleAll(NO_GENERATION, committed, [true, true, true]).active == id;
  }
}
