/** The server side of a config refresh, stage by stage. */
module ConfigRefresh {
  import opened Wrappers
  import opened Bytes
  import opened DirectoryRoots
  import opened ConfigBoundaries
  import opened ConfigTransactions

  /** The catalog a refresh tries to publish: what was found, or, before any
      usable catalog, the failures alone. */
  function CatalogOf(o: Outcome): Catalog {
    match o
    case Found(configs, effective, failures) => Catalog(configs, effective, failures)
    case AllFailed(failures) => Catalog(map[], [], failures)
    case Broken => Catalog(map[], [], [])
  }

  datatype Snapshot = Snapshot(configs: map<Directory, Entries>, unavailable: set<Directory>, usableLastGood: bool)

  /** A failed directory is a usable one of `p`, up to case folding. */
  ghost predicate FailsUsable(p: Published, failures: seq<Directory>, fold: Folding) {
    exists f, d :: f in failures && Usable(p, d) && Same(d, f, fold)
  }

  lemma PublishingKeepsUsable(before: Published, after: Published, id: Id, c: Catalog, fold: Folding)
    requires Publishes(after, id, c, fold) && Sound(before, fold)
    requires !before.hasLastGood || !FailsUsable(before, c.failures, fold)
    ensures KeepsUsable(before, after, fold)
  {
    hide Same, Blocks, Owns;
  }

  lemma LiveMoves(wire: seq<Exchange>, more: seq<Exchange>, id: Id, hostOptional: bool)
    requires CommitsIn(more, id, hostOptional)
    ensures Live(wire + more) == id
  {
    assert (wire + more)[|wire + more| - 1] == more[|more| - 1];
  }

  lemma AbortAfter(es: seq<Exchange>, e: Exchange, id: Id)
    requires Unfinished(es, id) && e.request == AbortConfigs(id)
    ensures AbortsIn(es + [e], id)
  {
    assert (es + [e])[..|es|] == es;
  }

  /** Publishing the snapshot under any id publishes the catalog. */
  ghost predicate SnapshotOf(s: Snapshot, c: Catalog, fold: Folding) {
    forall id, text :: Publishes(Published(s.configs, s.unavailable, id, s.usableLastGood, text), id, c, fold)
  }

  /** The unavailable directories are the boundaries of the failures. */
  ghost predicate AreBoundaries(unavailable: set<Directory>, c: Catalog, fold: Folding) {
    exists bs :: BoundariesOf(bs, c.failures, c.configs.Keys, fold) && unavailable == set b | b in bs
  }

  /** What stops a refresh whatever the peer says: the server is not ready,
      discovery broke, a config that was good would be lost, every config failed
      without a directory to guard or over a good catalog, the catalog is not
      valid, or the refresh was cancelled. */
  ghost predicate Hindered(ready: bool, before: Published, d: Discovery, fold: Folding) {
    || !ready
    || d.outcome.Broken?
    || (d.outcome.Found? && before.hasLastGood && FailsUsable(before, d.outcome.failures, fold))
    || (d.outcome.AllFailed? && (before.hasLastGood || d.calls == [] || forall f :: f in d.outcome.failures ==> f == []))
    || !d.prepares || d.completes.None? || d.cancelled
  }

  lemma NothingToGuard(s: Snapshot, c: Catalog, fold: Folding)
    requires SnapshotOf(s, c, fold) && c.configs == map[]
    ensures s.unavailable == {} <==> forall f :: f in c.failures ==> f == []
  {
    var p := Published(s.configs, s.unavailable, "", s.usableLastGood, "");
    assert Publishes(p, "", c, fold);
    hide Owns, SnapshotOf;
    if s.unavailable == {} {
      forall f | f in c.failures ensures f == [] {
        assert f != [] ==> Blocks(f, c.configs.Keys, fold);
      }
    } else {
      var u :| u in s.unavailable;
      assert u in c.failures && Blocks(u, c.configs.Keys, fold);
    }
  }

  method AddBoundaries(found: map<Directory, Entries>, boundaries: seq<Directory>, fold: Folding)
    returns (configs: map<Directory, Entries>, unavailable: set<Directory>)
    requires forall b :: b in boundaries ==> Blocks(b, found.Keys, fold)
    ensures unavailable == set b | b in boundaries
    ensures configs.Keys == found.Keys + unavailable && found.Keys !! unavailable
    ensures forall d :: d in found ==> configs[d] == found[d]
    ensures forall u :: u in unavailable ==> configs[u] == NO_ENTRIES
  {
    hide Blocks;
    configs, unavailable := found, {};
    for i := 0 to |boundaries|
      invariant unavailable == set b | b in boundaries[..i]
      invariant configs.Keys == found.Keys + unavailable && found.Keys !! unavailable
      invariant forall d :: d in found ==> configs[d] == found[d]
      invariant forall u :: u in unavailable ==> configs[u] == NO_ENTRIES
    {
      assert boundaries[..i + 1] == boundaries[..i] + [boundaries[i]];
      NotUsable(boundaries[i], found.Keys, fold);
      configs := configs[boundaries[i] := NO_ENTRIES];
      unavailable := unavailable + {boundaries[i]};
    }
    assert boundaries[..|boundaries|] == boundaries;
  }

  lemma BoundariesMakeSnapshot(c: Catalog, boundaries: seq<Directory>, configs: map<Directory, Entries>, unavailable: set<Directory>, fold: Folding)
    requires forall b :: b in boundaries ==> b in c.failures && Blocks(b, c.configs.Keys, fold)
    requires forall f :: f in c.failures && Blocks(f, c.configs.Keys, fold) ==> CoveredBy(boundaries, f, fold)
    requires unavailable == set b | b in boundaries
    requires configs.Keys == c.configs.Keys + unavailable && c.configs.Keys !! unavailable
    requires forall d :: d in c.configs ==> configs[d] == c.configs[d]
    requires forall u :: u in unavailable ==> configs[u] == NO_ENTRIES
    ensures SnapshotOf(Snapshot(configs, unavailable, |c.configs| > 0), c, fold)
  {
    hide *;
    forall d ensures d in configs && d !in unavailable <==> d in c.configs {
      assert d in configs <==> d in configs.Keys;
    }
    forall f | f in c.failures && Blocks(f, c.configs.Keys, fold)
      ensures exists u :: u in unavailable && Owns(u, f, fold)
    {
      CoverIsUnavailable(boundaries, unavailable, f, fold);
    }
    var good := |c.configs| > 0;
    forall id, text ensures Publishes(Published(configs, unavailable, id, good, text), id, c, fold) {
      PartsPublish(Published(configs, unavailable, id, good, text), id, c, fold);
    }
    AnyIdPublishes(Snapshot(configs, unavailable, good), c, fold);
  }

  lemma AnyIdPublishes(s: Snapshot, c: Catalog, fold: Folding)
    requires forall id, text :: Publishes(Published(s.configs, s.unavailable, id, s.usableLastGood, text), id, c, fold)
    ensures SnapshotOf(s, c, fold)
  {
    hide Publishes;
  }

  lemma BoundariesAreMade(bs: seq<Directory>, unavailable: set<Directory>, c: Catalog, fold: Folding)
    requires BoundariesOf(bs, c.failures, c.configs.Keys, fold) && unavailable == set b | b in bs
    ensures AreBoundaries(unavailable, c, fold)
  {
    hide BoundariesOf;
  }

  lemma CoverIsUnavailable(boundaries: seq<Directory>, unavailable: set<Directory>, f: Directory, fold: Folding)
    requires CoveredBy(boundaries, f, fold) && unavailable == set b | b in boundaries
    ensures exists u :: u in unavailable && Owns(u, f, fold)
  {
    hide Owns;
    var u :| u in boundaries && Owns(u, f, fold);
    assert u in unavailable;
  }

  lemma PartsPublish(p: Published, id: Id, c: Catalog, fold: Folding)
    requires p.generation == id && p.hasLastGood == (|c.configs| > 0)
    requires forall d :: d in p.configs && d !in p.unavailable <==> d in c.configs
    requires forall d :: d in c.configs ==> p.configs[d] == c.configs[d]
    requires forall u :: u in p.unavailable ==>
      u in c.failures && Blocks(u, c.configs.Keys, fold) && u in p.configs && p.configs[u] == NO_ENTRIES
    requires forall f :: f in c.failures && Blocks(f, c.configs.Keys, fold) ==> exists u :: u in p.unavailable && Owns(u, f, fold)
    ensures Publishes(p, id, c, fold)
  {
    hide Blocks, Owns;
  }

  class Server {
    const wire: Wire
    const fold: Folding
    var configRefreshInitialized: bool
    var jsConfigs: map<Directory, Entries>
    var jsUnavailableConfigs: set<Directory>
    var eslintPluginConfigGeneration: Id
    var configDiscoveryHasLastGood: bool
    var derived: string

    ghost function Catalogs(): Published
      reads this
    {
      Published(jsConfigs, jsUnavailableConfigs, eslintPluginConfigGeneration, configDiscoveryHasLastGood, derived)
    }

    /** Go serves exactly the transaction the peer last acknowledged. */
    ghost predicate Valid()
      reads this, wire
    {
      Sound(Catalogs(), fold) && eslintPluginConfigGeneration == Live(wire.exchanges)
    }

    constructor (wire: Wire, fold: Folding)
      requires wire.exchanges == []
      ensures Valid() && this.wire == wire && this.fold == fold && !configRefreshInitialized
    {
      this.wire, this.fold := wire, fold;
      configRefreshInitialized := false;
      jsConfigs, jsUnavailableConfigs, eslintPluginConfigGeneration := map[], {}, "";
      configDiscoveryHasLastGood, derived := false, "";
    }

    /** Whether a failure hits a directory whose committed config is usable. */
    method FailureAtCommittedConfigBoundary(failures: seq<Directory>) returns (invalidates: bool)
      ensures invalidates <==> FailsUsable(Catalogs(), failures, fold)
    {
      if |failures| == 0 || |jsConfigs| == 0 {
        return false;
      }
      var committed := set key | key in jsConfigs && key !in jsUnavailableConfigs :: Identity(key, fold);
      for i := 0 to |failures|
        invariant forall k :: 0 <= k < i ==> Identity(failures[k], fold) !in committed
      {
        if Identity(failures[i], fold) in committed {
          ghost var d :| d in jsConfigs && d !in jsUnavailableConfigs && Identity(d, fold) == Identity(failures[i], fold);
          assert failures[i] in failures && Usable(Catalogs(), d) && Same(d, failures[i], fold);
          return true;
        }
      }
      forall f, d | f in failures && Usable(Catalogs(), d) ensures !Same(d, f, fold) {
        var k :| 0 <= k < |failures| && failures[k] == f;
        assert Identity(d, fold) in committed;
      }
      return false;
    }

    /** The snapshot's configs: those found, and one empty boundary for every
        outermost failure without a usable ancestor. */
    method PrepareSnapshot(catalog: Catalog, prepares: bool) returns (snapshot: Option<Snapshot>)
      ensures snapshot.Some? <==> prepares
      ensures snapshot.Some? ==> SnapshotOf(snapshot.value, catalog, fold) && AreBoundaries(snapshot.value.unavailable, catalog, fold)
    {
      hide *;
      if !prepares {
        return None;
      }
      var boundaries := UnavailableConfigBoundaryDirectories(catalog.failures, catalog.configs.Keys, fold);
      BoundariesBlock(boundaries, catalog.failures, catalog.configs.Keys, fold);
      var configs, unavailable := AddBoundaries(catalog.configs, boundaries, fold);
      BoundariesMakeSnapshot(catalog, boundaries, configs, unavailable, fold);
      BoundariesAreMade(boundaries, unavailable, catalog, fold);
      return Some(Snapshot(configs, unavailable, |catalog.configs| > 0));
    }

    method Publish(snapshot: Snapshot, id: Id, text: string)
      modifies this
      ensures Catalogs() == Published(snapshot.configs, snapshot.unavailable, id, snapshot.usableLastGood, text)
      ensures configRefreshInitialized == old(configRefreshInitialized)
    {
      jsConfigs := snapshot.configs;
      jsUnavailableConfigs := snapshot.unavailable;
      eslintPluginConfigGeneration := id;
      derived := text;
      configDiscoveryHasLastGood := snapshot.usableLastGood;
    }

    // Asks the peer to drop the transaction, if its id is known.
    method AbortFailedConfigRefresh(loader: Loader, id: Id, ghost base: seq<Exchange>, ghost staged: Id) returns (r: Result)
      requires loader.wire == wire && base <= wire.exchanges && staged != ""
      requires Unfinished(wire.exchanges[|base|..], staged)
      requires if id == "" then wire.exchanges == base else id == staged
      modifies wire`exchanges
      ensures r == Failed && base <= wire.exchanges && old(wire.exchanges) <= wire.exchanges
      ensures if id == "" then wire.exchanges == base else AbortsIn(wire.exchanges[|base|..], id)
    {
      if id != "" {
        ghost var es := wire.exchanges[|base|..];
        var _ := loader.Abort(id);
        ghost var last := wire.exchanges[|wire.exchanges| - 1];
        assert wire.exchanges[|base|..] == es + [last];
        AbortAfter(es, last, id);
      }
      return Failed;
    }

    // The exchange that brings the peer to the commit, or asks it to drop the transaction.
    method ActivateAndCommit(loader: Loader, d: Discovery, effective: seq<string>) returns (committed: bool)
      requires loader.wire == wire && loader.Valid() && d.id != "" && (loader.transactionID == "" || loader.transactionID == d.id)
      requires SentCalls(loader.start, wire.exchanges, d.calls, d.id)
      modifies loader, wire`exchanges
      ensures loader.start <= wire.exchanges
      ensures committed ==> CommitsIn(wire.exchanges[|loader.start|..], d.id, !loader.hasLastGood) && d.completes.Some? && !d.cancelled
      ensures committed ==> ActivatesCatalog(wire.exchanges[|loader.start|..], d.calls, effective, d.id, !loader.hasLastGood)
      ensures !committed ==> AbortsIn(wire.exchanges[|loader.start|..], d.id)
      ensures !committed ==>
        d.completes.None? || d.cancelled || SomeDeclined(wire.exchanges[|loader.start|..], d.id, !loader.hasLastGood)
    {
      hide SomeDeclined, ActivatesCatalog, SentCalls, Confirms;
      if loader.activated && loader.transactionID == d.id {
        DiscoveryActivated(loader.start, wire.exchanges, d.calls, effective, d.id, !loader.hasLastGood);
      }
      ghost var early := loader.activated;
      var activated := loader.EnsureActivated(d.id, effective);
      if activated && !early {
        ServerActivated(loader.start, wire.exchanges, d.calls, effective, d.id, !loader.hasLastGood);
      }
      if !activated || d.completes.None? || d.cancelled {
        ghost var sent := wire.exchanges;
        var _ := AbortFailedConfigRefresh(loader, d.id, loader.start, d.id);
        DeclinedStays(loader.start, sent, wire.exchanges, d.id, !loader.hasLastGood);
        return false;
      }
      ghost var staged, before := wire.exchanges[|loader.start|..], wire.exchanges;
      var acknowledged := loader.Commit(d.id);
      ghost var last := wire.exchanges[|wire.exchanges| - 1];
      assert wire.exchanges[|loader.start|..] == staged + [last];
      if !acknowledged {
        CommitDeclined(staged, last, d.id, !loader.hasLastGood);
        ghost var sent := wire.exchanges;
        var _ := AbortFailedConfigRefresh(loader, d.id, loader.start, d.id);
        DeclinedStays(loader.start, sent, wire.exchanges, d.id, !loader.hasLastGood);
        return false;
      }
      assert (staged + [last])[..|staged|] == staged;
      ActivationStays(loader.start, before, wire.exchanges, d.calls, effective, d.id, !loader.hasLastGood);
      return true;
    }

    // From the discovered catalog to the published one.
    method CommitCatalog(loader: Loader, d: Discovery, catalog: Catalog, recovered: bool) returns (r: Result)
      requires loader.wire == wire && loader.hasLastGood == configDiscoveryHasLastGood
      requires loader.Valid() && d.id != "" && (loader.transactionID == "" || loader.transactionID == d.id)
      requires Sound(Catalogs(), fold)
      requires !configDiscoveryHasLastGood || !FailsUsable(Catalogs(), catalog.failures, fold)
      requires recovered ==> catalog.configs == map[]
      requires SentCalls(loader.start, wire.exchanges, d.calls, d.id)
      modifies this, loader, wire`exchanges
      ensures loader.start <= wire.exchanges && configRefreshInitialized == old(configRefreshInitialized)
      ensures r.Failed? ==> Catalogs() == old(Catalogs()) && AbortsIn(wire.exchanges[|loader.start|..], d.id)
      ensures r.Refreshed? ==> r.id == d.id && Publishes(Catalogs(), d.id, catalog, fold)
      ensures r.Refreshed? ==>
        CommitsIn(wire.exchanges[|loader.start|..], d.id, !old(configDiscoveryHasLastGood))
      ensures Sound(Catalogs(), fold) && KeepsUsable(old(Catalogs()), Catalogs(), fold)
      ensures r.Refreshed? ==> AreBoundaries(jsUnavailableConfigs, catalog, fold) && Some(derived) == d.completes
      ensures r.Refreshed? ==>
        ActivatesCatalog(wire.exchanges[|loader.start|..], d.calls, catalog.effective, d.id, !old(configDiscoveryHasLastGood))
      ensures r.Refreshed? ==> d.prepares && !d.cancelled && (recovered ==> exists f :: f in catalog.failures && f != [])
      ensures r.Failed? ==>
        || !d.prepares || d.completes.None? || d.cancelled || (recovered && forall f :: f in catalog.failures ==> f == [])
        || SomeDeclined(wire.exchanges[|loader.start|..], d.id, !old(configDiscoveryHasLastGood))
    {
      hide SnapshotOf, Sound, FailsUsable, KeepsUsable, Publishes, AreBoundaries, SomeDeclined, ActivatesCatalog, SentCalls;
      ghost var before := Catalogs();
      SoundKeepsUsable(before, fold);
      var snapshot := PrepareSnapshot(catalog, d.prepares);
      if snapshot.None? {
        r := AbortFailedConfigRefresh(loader, d.id, loader.start, d.id);
        return;
      }
      if recovered {
        NothingToGuard(snapshot.value, catalog, fold);
      }
      if recovered && snapshot.value.unavailable == {} {
        r := AbortFailedConfigRefresh(loader, d.id, loader.start, d.id);
        return;
      }
      var committed := ActivateAndCommit(loader, d, catalog.effective);
      if !committed {
        return Failed;
      }
      Publish(snapshot.value, d.id, d.completes.value);
      SnapshotPublishes(snapshot.value, catalog, d.id, d.completes.value, fold);
      PublishedIsSound(Catalogs(), d.id, catalog, fold);
      PublishingKeepsUsable(before, Catalogs(), d.id, catalog, fold);
      return Refreshed(d.id);
    }

    /** One refresh. It publishes a whole catalog exactly when the peer
        acknowledges the commit, as the last exchange of a transaction it had
        activated; any other end leaves every published field alone and asks for
        the abort of a transaction whose id is known. No usable directory ever
        becomes an unavailable boundary. */
    method RefreshConfig(d: Discovery) returns (r: Result)
      requires Valid() && d.id != ""
      modifies this, wire`exchanges
      ensures Valid() && old(wire.exchanges) <= wire.exchanges
      ensures configRefreshInitialized == old(configRefreshInitialized)
      ensures r.Failed? ==> Catalogs() == old(Catalogs())
      ensures r.Failed? ==>
        (wire.exchanges == old(wire.exchanges) || AbortsIn(wire.exchanges[|old(wire.exchanges)|..], d.id))
      ensures r.Failed? && configRefreshInitialized && (d.outcome.Found? || d.calls != []) ==>
        AbortsIn(wire.exchanges[|old(wire.exchanges)|..], d.id)
      ensures r.Refreshed? ==> r.id == d.id && Publishes(Catalogs(), d.id, CatalogOf(d.outcome), fold)
      ensures r.Refreshed? ==>
        CommitsIn(wire.exchanges[|old(wire.exchanges)|..], d.id, !old(configDiscoveryHasLastGood))
      ensures KeepsUsable(old(Catalogs()), Catalogs(), fold)
      ensures r.Refreshed? ==> AreBoundaries(jsUnavailableConfigs, CatalogOf(d.outcome), fold) && Some(derived) == d.completes
      ensures r.Refreshed? ==> ActivatesCatalog(wire.exchanges[|old(wire.exchanges)|..], d.calls, CatalogOf(d.outcome).effective,
                                                d.id, !old(configDiscoveryHasLastGood))
      ensures Hindered(old(configRefreshInitialized), old(Catalogs()), d, fold) ==> r.Failed?
      ensures r.Failed? ==>
        || Hindered(old(configRefreshInitialized), old(Catalogs()), d, fold)
        || SomeDeclined(wire.exchanges[|old(wire.exchanges)|..], d.id, !old(configDiscoveryHasLastGood))
    {
      hide Sound, FailsUsable, KeepsUsable, Publishes, AbortsIn, CommitsIn, AreBoundaries, SomeDeclined, ActivatesCatalog, SentCalls;
      SoundKeepsUsable(Catalogs(), fold);
      if !configRefreshInitialized {
        return Failed;
      }
      ghost var base := wire.exchanges;
      var loader := new Loader(wire, configDiscoveryHasLastGood);
      loader.RunDiscovery(d.id, d.calls);
      var rejected, recovered := false, false;
      match d.outcome {
        case Broken => rejected := true;
        case AllFailed(failures) =>
          rejected := configDiscoveryHasLastGood || |failures| == 0 || loader.transactionID == "";
          recovered := true;
        case Found(_, _, failures) =>
          if configDiscoveryHasLastGood {
            var invalidates := FailureAtCommittedConfigBoundary(failures);
            if invalidates {
              r := AbortFailedConfigRefresh(loader, d.id, base, d.id);
              AbortLeavesLive(base, wire.exchanges, d.id);
              return;
            }
          }
      }
      if rejected {
        r := AbortFailedConfigRefresh(loader, loader.transactionID, base, d.id);
        if loader.transactionID != "" {
          AbortLeavesLive(base, wire.exchanges, d.id);
        }
        return;
      }
      r := CommitCatalog(loader, d, CatalogOf(d.outcome), recovered);
      if r.Failed? {
        AbortLeavesLive(base, wire.exchanges, d.id);
      } else {
        CommitMovesLive(base, wire.exchanges, d.id, old(configDiscoveryHasLastGood), Catalogs(), CatalogOf(d.outcome), fold);
      }
    }
  }

  lemma DeclinedStays(start: seq<Exchange>, sent: seq<Exchange>, wire: seq<Exchange>, id: Id, hostOptional: bool)
    requires start <= sent <= wire
    ensures SomeDeclined(sent[|start|..], id, hostOptional) ==> SomeDeclined(wire[|start|..], id, hostOptional)
  {
    assert forall i :: |start| <= i < |sent| ==> wire[i] == sent[i];
  }

  lemma CommitDeclined(staged: seq<Exchange>, last: Exchange, id: Id, hostOptional: bool)
    requires last.request.CommitConfigs? && !Acknowledged(last)
    ensures SomeDeclined(staged + [last], id, hostOptional)
  {
    assert (staged + [last])[|staged|] == last;
    assert Declines(last, id, hostOptional);
  }

  /** What one refresh of a run may do to the published catalog. */
  ghost predicate Refreshes(before: Published, after: Published, d: Discovery, fold: Folding) {
    && KeepsUsable(before, after, fold)
    && (after == before || Publishes(after, d.id, CatalogOf(d.outcome), fold))
  }

  /** Any number of refreshes, whatever discovery and the peer do in each. */
  method Serve(server: Server, ds: seq<Discovery>) returns (ghost history: seq<Published>)
    requires server.Valid() && forall i :: 0 <= i < |ds| ==> ds[i].id != ""
    modifies server, server.wire`exchanges
    ensures server.Valid() && |history| == |ds| + 1
    ensures history[0] == old(server.Catalogs()) && history[|ds|] == server.Catalogs()
    ensures forall i :: 0 <= i < |ds| ==> Refreshes(history[i], history[i + 1], ds[i], server.fold)
    ensures old(server.wire.exchanges) <= server.wire.exchanges
    ensures server.eslintPluginConfigGeneration == Live(server.wire.exchanges)
  {
    hide KeepsUsable, Publishes, Sound, AbortsIn, CommitsIn, Live;
    history := [server.Catalogs()];
    for i := 0 to |ds|
      invariant server.Valid() && |history| == i + 1
      invariant history[0] == old(server.Catalogs()) && history[i] == server.Catalogs()
      invariant forall k :: 0 <= k < i ==> Refreshes(history[k], history[k + 1], ds[k], server.fold)
      invariant old(server.wire.exchanges) <= server.wire.exchanges
    {
      var _ := server.RefreshConfig(ds[i]);
      history := history + [server.Catalogs()];
    }
  }

  lemma SoundKeepsUsable(p: Published, fold: Folding)
    requires Sound(p, fold)
    ensures KeepsUsable(p, p, fold)
  {}

  lemma SnapshotPublishes(s: Snapshot, c: Catalog, id: Id, text: string, fold: Folding)
    requires SnapshotOf(s, c, fold)
    ensures Publishes(Published(s.configs, s.unavailable, id, s.usableLastGood, text), id, c, fold)
  {
    hide Publishes;
  }

  lemma AbortLeavesLive(base: seq<Exchange>, wire: seq<Exchange>, id: Id)
    requires base <= wire && AbortsIn(wire[|base|..], id)
    ensures Live(wire) == Live(base)
  {
    assert wire == base + wire[|base|..];
    AbortAcknowledgesNothing(wire[|base|..], id);
    LiveUnmoved(base, wire[|base|..]);
  }

  lemma CommitMovesLive(base: seq<Exchange>, wire: seq<Exchange>, id: Id, had: bool, p: Published, c: Catalog, fold: Folding)
    requires base <= wire && CommitsIn(wire[|base|..], id, !had) && Publishes(p, id, c, fold)
    ensures Live(wire) == id == p.generation
  {
    assert wire == base + wire[|base|..];
    LiveMoves(base, wire[|base|..], id, !had);
  }

  lemma NotUsable(d: Directory, usable: set<Directory>, fold: Folding)
    requires Blocks(d, usable, fold)
    ensures d !in usable
  {
    if d in usable {
      BlockedIsUnlike(d, d, usable, fold);
      SameAsItself(d, fold);
    }
  }
}
