/** What every run of the document bookkeeping keeps: an open document shows
    diagnostics of its current text and config only. */
module LspFreshness {
  import opened Wrappers
  import opened LspDocuments

  // ---- The invariant ---------------------------------------------------------

  /** The stored diagnostics of `uri` are one baseline of the current text, config
      and generation, and at most one enrichment of that same lint. */
  ghost predicate Fresh(s: State, uri: Uri) {
    uri in s.documents && uri in s.diagnostics ==>
      var stored := s.diagnostics[uri];
      && 1 <= |stored| <= 2
      && stored[0].producer == Baseline && stored[0].stamp == CurrentStamp(s, uri)
      && (|stored| == 2 ==> stored[1].producer == Enrichment && stored[1].stamp == CurrentStamp(s, uri))
  }

  /** Unfinished plugin work of generation `stamp` may still be merged: if that is
      the current generation of an open document, its baseline is stored and not
      yet enriched. */
  ghost predicate Mergeable(s: State, uri: Uri, stamp: Stamp) {
    && uri.lintable
    && stamp.generation <= Generation(s, uri)
    && (stamp.generation == Generation(s, uri) && uri in s.documents ==>
          stamp == CurrentStamp(s, uri) && uri in s.diagnostics && |s.diagnostics[uri]| == 1)
  }

  ghost predicate Running(p: Plugins, id: nat) {
    id in p.workers && p.workers[id].running
  }

  ghost predicate WorkMergeable(s: State) {
    && (forall id :: Running(s.plugins, id) ==> Mergeable(s, s.plugins.workers[id].uri, s.plugins.workers[id].stamp))
    && (forall i :: 0 <= i < |s.plugins.results| ==>
          Mergeable(s, s.plugins.results[i].uri, s.plugins.results[i].batch.stamp))
  }

  ghost predicate Same(u: Uri, a: Stamp, v: Uri, b: Stamp) {
    u == v && a.generation == b.generation
  }

  /** A generation of a document has at most one unfinished worker or unmerged
      result. */
  ghost predicate Unique(p: Plugins) {
    && (forall i, j :: Running(p, i) && Running(p, j) && i != j ==>
          !Same(p.workers[i].uri, p.workers[i].stamp, p.workers[j].uri, p.workers[j].stamp))
    && (forall i, k :: Running(p, i) && 0 <= k < |p.results| ==>
          !Same(p.workers[i].uri, p.workers[i].stamp, p.results[k].uri, p.results[k].batch.stamp))
    && (forall k, l :: 0 <= k < l < |p.results| ==>
          !Same(p.results[k].uri, p.results[k].batch.stamp, p.results[l].uri, p.results[l].batch.stamp))
  }

  /** A running worker can be cancelled: it is the one its document registered. */
  ghost predicate Registered(p: Plugins) {
    && (forall id :: id in p.workers ==> id < p.spawned)
    && (forall id :: Running(p, id) ==>
          p.workers[id].uri in p.inflight && p.inflight[p.workers[id].uri] == id)
    && (forall uri :: uri in p.inflight ==>
          p.inflight[uri] in p.workers && p.workers[p.inflight[uri]].uri == uri)
    && (forall k :: 0 <= k < |p.results| ==> p.results[k].batch.producer == Enrichment)
  }

  ghost predicate Quiescent(s: State) {
    && (!s.session ==> s.diagnostics == map[] && s.plugins.workers == map[] && s.plugins.results == [])
    && (forall uri :: uri in s.diagnostics ==> uri.lintable)
    && s.pending <= s.documents.Keys
  }

  ghost predicate Inv(s: State) {
    && (forall uri :: Fresh(s, uri))
    && WorkMergeable(s)
    && Unique(s.plugins)
    && Registered(s.plugins)
    && Quiescent(s)
  }

  /** The invariant up to `uri`, whose text or config has just changed. */
  ghost predicate InvExcept(s: State, uri: Uri) {
    && (forall v :: v != uri ==> Fresh(s, v))
    && WorkMergeableExcept(s, uri)
    && Unique(s.plugins)
    && Registered(s.plugins)
    && Quiescent(s)
  }

  ghost predicate MergeableExcept(s: State, uri: Uri, v: Uri, stamp: Stamp) {
    if v == uri then v.lintable && stamp.generation <= Generation(s, v) else Mergeable(s, v, stamp)
  }

  ghost predicate WorkMergeableExcept(s: State, uri: Uri) {
    && (forall id :: Running(s.plugins, id) ==>
          MergeableExcept(s, uri, s.plugins.workers[id].uri, s.plugins.workers[id].stamp))
    && (forall i :: 0 <= i < |s.plugins.results| ==>
          MergeableExcept(s, uri, s.plugins.results[i].uri, s.plugins.results[i].batch.stamp))
  }

  /** All plugin work of `uri` belongs to an earlier generation. */
  ghost predicate Superseded(s: State, uri: Uri) {
    && (forall id :: Running(s.plugins, id) ==> s.plugins.workers[id].uri != uri)
    && (forall i :: 0 <= i < |s.plugins.results| && s.plugins.results[i].uri == uri ==>
          s.plugins.results[i].batch.stamp.generation < Generation(s, uri))
  }

  // ---- Each step keeps it ----------------------------------------------------

  lemma CancelWork(p: Plugins, uri: Uri, late: Option<Messages>)
    requires Registered(p) && Unique(p)
    ensures var q := Cancel(p, uri, late);
      && Registered(q) && Unique(q)
      && (forall id :: Running(q, id) ==> Running(p, id) && q.workers[id] == p.workers[id] && q.workers[id].uri != uri)
      && (q.results == p.results
          || (uri in p.inflight && Running(p, p.inflight[uri]) && |q.results| == |p.results| + 1
              && q.results[..|p.results|] == p.results
              && q.results[|p.results|].uri == uri
              && q.results[|p.results|].batch.stamp == p.workers[p.inflight[uri]].stamp
              && p.workers[p.inflight[uri]].uri == uri))
      && q.workers.Keys <= p.workers.Keys
  {
    var q := Cancel(p, uri, late);
    assert forall k :: 0 <= k < |p.results| ==> q.results[k] == p.results[k];
    assert forall id :: Running(q, id) ==> Running(p, id);
    assert Registered(q);
    CancelIsUnique(p, uri, late);
    hide Unique;
  }

  lemma CancelIsUnique(p: Plugins, uri: Uri, late: Option<Messages>)
    requires Registered(p) && Unique(p)
    ensures Unique(Cancel(p, uri, late))
  {
    var q := Cancel(p, uri, late);
    assert forall k :: 0 <= k < |p.results| ==> q.results[k] == p.results[k];
    assert forall id :: Running(q, id) ==> Running(p, id) && q.workers[id] == p.workers[id];
    if uri in p.inflight && p.inflight[uri] in p.workers && p.workers[p.inflight[uri]].running {
      assert Running(p, p.inflight[uri]) && !Running(q, p.inflight[uri]);
    }
    hide Registered;
  }

  lemma SupersedeClears(s: State, uri: Uri, late: Option<Messages>)
    requires InvExcept(s, uri)
    ensures var t := Supersede(s, uri, late);
      InvExcept(t, uri) && Superseded(t, uri)
  {
    hide Unique, Registered;
    var t := Supersede(s, uri, late);
    CancelWork(s.plugins, uri, late);
    forall v | v != uri ensures Fresh(t, v) {
      assert Fresh(s, v);
    }
    forall id | Running(t.plugins, id)
      ensures MergeableExcept(t, uri, t.plugins.workers[id].uri, t.plugins.workers[id].stamp)
    {
      assert Running(s.plugins, id);
    }
    forall i | 0 <= i < |t.plugins.results|
      ensures MergeableExcept(t, uri, t.plugins.results[i].uri, t.plugins.results[i].batch.stamp)
      ensures t.plugins.results[i].uri == uri ==> t.plugins.results[i].batch.stamp.generation < Generation(t, uri)
    {
      if i < |s.plugins.results| {
        assert t.plugins.results[i] == s.plugins.results[i];
      } else {
        assert MergeableExcept(s, uri, uri, s.plugins.workers[s.plugins.inflight[uri]].stamp) by {
          assert Running(s.plugins, s.plugins.inflight[uri]);
          assert s.plugins.workers[s.plugins.inflight[uri]].uri == uri;
        }
      }
    }
  }

  lemma InvImpliesExcept(s: State, uri: Uri)
    requires Inv(s)
    ensures InvExcept(s, uri)
  {}

  lemma UntrackedIsEnough(s: State, uri: Uri)
    requires InvExcept(s, uri) && (!s.session || !uri.lintable)
    ensures Inv(s)
  {
    hide Unique, Registered;
    assert Fresh(s, uri);
    assert forall id :: Running(s.plugins, id) ==> s.plugins.workers[id].uri != uri;
    assert forall i :: 0 <= i < |s.plugins.results| ==> s.plugins.results[i].uri != uri;
  }

  lemma SupersededIsEnough(t: State, uri: Uri, s: State)
    requires InvExcept(t, uri) && Superseded(t, uri) && s == t.(diagnostics := t.diagnostics - {uri})
    ensures Inv(s)
  {
    hide Unique, Registered;
    forall v ensures Fresh(s, v) {
      assert v != uri ==> Fresh(t, v);
    }
    forall id | Running(s.plugins, id) ensures Mergeable(s, s.plugins.workers[id].uri, s.plugins.workers[id].stamp) {
      assert Running(t.plugins, id);
    }
    forall i | 0 <= i < |s.plugins.results|
      ensures Mergeable(s, s.plugins.results[i].uri, s.plugins.results[i].batch.stamp)
    {
      assert MergeableExcept(t, uri, t.plugins.results[i].uri, t.plugins.results[i].batch.stamp);
    }
  }

  lemma ForgetKeepsInv(s: State, uri: Uri, late: Option<Messages>)
    requires InvExcept(s, uri)
    ensures Inv(Forget(s, uri, late)) && Superseded(Forget(s, uri, late), uri)
  {
    hide InvExcept, Inv;
    SupersedeClears(s, uri, late);
    SupersededIsEnough(Supersede(s, uri, late), uri, Forget(s, uri, late));
  }

  // A stored baseline is fresh by construction.
  lemma BaselineIsFresh(t: State, uri: Uri, messages: Messages)
    requires InvExcept(t, uri) && Superseded(t, uri) && t.session && uri.lintable
    ensures Inv(t.(diagnostics := t.diagnostics[uri := [Batch(Baseline, CurrentStamp(t, uri), messages)]]))
  {
    hide Unique, Registered;
    var s := t.(diagnostics := t.diagnostics[uri := [Batch(Baseline, CurrentStamp(t, uri), messages)]]);
    forall v ensures Fresh(s, v) {
      assert v != uri ==> Fresh(t, v);
    }
    forall id | Running(s.plugins, id) ensures Mergeable(s, s.plugins.workers[id].uri, s.plugins.workers[id].stamp) {
      assert Running(t.plugins, id);
    }
    forall i | 0 <= i < |s.plugins.results|
      ensures Mergeable(s, s.plugins.results[i].uri, s.plugins.results[i].batch.stamp)
    {
      assert MergeableExcept(t, uri, t.plugins.results[i].uri, t.plugins.results[i].batch.stamp);
    }
  }

  lemma SpawnKeepsInv(s: State, uri: Uri)
    requires Inv(s) && Superseded(s, uri) && s.session && uri.lintable
    requires uri in s.documents ==> uri in s.diagnostics && |s.diagnostics[uri]| == 1
    ensures Inv(s.(plugins := Spawn(s.plugins, uri, CurrentStamp(s, uri))))
  {
    hide Registered, Unique;
    SpawnWork(s.plugins, uri, CurrentStamp(s, uri));
    var t := s.(plugins := Spawn(s.plugins, uri, CurrentStamp(s, uri)));
    forall v ensures Fresh(t, v) {
      assert Fresh(s, v);
    }
    forall id | Running(t.plugins, id) ensures Mergeable(t, t.plugins.workers[id].uri, t.plugins.workers[id].stamp) {
      if id != s.plugins.spawned {
        assert Running(s.plugins, id);
      }
    }
    forall i | 0 <= i < |t.plugins.results|
      ensures Mergeable(t, t.plugins.results[i].uri, t.plugins.results[i].batch.stamp)
    {
      assert Mergeable(s, s.plugins.results[i].uri, s.plugins.results[i].batch.stamp);
    }
  }

  lemma SpawnWork(p: Plugins, uri: Uri, stamp: Stamp)
    requires Registered(p) && Unique(p)
    requires forall id :: Running(p, id) ==> p.workers[id].uri != uri
    requires forall i :: 0 <= i < |p.results| && p.results[i].uri == uri ==> p.results[i].batch.stamp.generation < stamp.generation
    ensures Registered(Spawn(p, uri, stamp)) && Unique(Spawn(p, uri, stamp))
    ensures forall id :: Running(Spawn(p, uri, stamp), id) ==> id == p.spawned || Running(p, id)
  {
    var q := Spawn(p, uri, stamp);
    assert forall id :: Running(q, id) ==> id == p.spawned || Running(p, id);
  }

  lemma PushKeepsInv(s: State, uri: Uri, chance: Chance)
    requires InvExcept(s, uri)
    ensures Inv(Push(s, uri, chance)) && Push(s, uri, chance).documents == s.documents
  {
    hide InvExcept, Inv;
    if !s.session || !uri.lintable {
      UntrackedIsEnough(s, uri);
    } else {
      SupersedeClears(s, uri, chance.late);
      var t := Supersede(s, uri, chance.late);
      if chance.outcome.Linted? {
        BaselineIsFresh(t, uri, chance.outcome.messages);
        if chance.outcome.pluginWork {
          var b := t.(diagnostics := t.diagnostics[uri := [Batch(Baseline, CurrentStamp(t, uri), chance.outcome.messages)]]);
          assert CurrentStamp(b, uri) == CurrentStamp(t, uri);
          SpawnKeepsInv(b, uri);
        }
      } else {
        SupersededIsEnough(t, uri, Push(s, uri, chance));
      }
    }
  }

  lemma {:induction false} PushAllKeepsInv(s: State, order: seq<Uri>, chances: Uri -> Chance)
    requires Inv(s)
    ensures Inv(PushAll(s, order, chances)) && PushAll(s, order, chances).documents == s.documents
    decreases |order|
  {
    hide Inv, InvExcept;
    if |order| > 0 {
      PushAllKeepsInv(s, order[..|order| - 1], chances);
      var before := PushAll(s, order[..|order| - 1], chances);
      InvImpliesExcept(before, order[|order| - 1]);
      PushKeepsInv(before, order[|order| - 1], chances(order[|order| - 1]));
    }
  }

  lemma ForgetOther(s: State, uri: Uri, late: Option<Messages>, v: Uri)
    requires InvExcept(s, uri) && v != uri && Superseded(s, v)
    ensures Superseded(Forget(s, uri, late), v)
    ensures v !in s.diagnostics ==> v !in Forget(s, uri, late).diagnostics
  {
    CancelWork(s.plugins, uri, late);
    var t := Forget(s, uri, late);
    assert forall id :: Running(t.plugins, id) ==> Running(s.plugins, id);
    assert forall i :: 0 <= i < |s.plugins.results| ==> t.plugins.results[i] == s.plugins.results[i];
  }

  lemma {:induction false} ForgetAllKeepsInv(s: State, order: seq<Uri>, chances: Uri -> Chance)
    requires Inv(s)
    ensures var t := ForgetAll(s, order, chances);
      Inv(t) && t.documents == s.documents && forall i :: 0 <= i < |order| ==> order[i] !in t.diagnostics && Superseded(t, order[i])
    decreases |order|
  {
    hide Inv, InvExcept, Superseded;
    if |order| > 0 {
      var rest, last := order[..|order| - 1], order[|order| - 1];
      ForgetAllKeepsInv(s, rest, chances);
      var before := ForgetAll(s, rest, chances);
      InvImpliesExcept(before, last);
      ForgetKeepsInv(before, last, chances(last).late);
      var t := ForgetAll(s, order, chances);
      forall i | 0 <= i < |order| ensures order[i] !in t.diagnostics && Superseded(t, order[i]) {
        if order[i] != last {
          assert rest[i] == order[i];
          ForgetOther(before, last, chances(last).late, order[i]);
        }
      }
    }
  }

  lemma CommitKeepsInv(t: State, config: Config)
    requires Inv(t) && forall uri :: uri in t.documents ==> uri !in t.diagnostics && Superseded(t, uri)
    ensures Inv(t.(config := config))
  {
    hide Unique, Registered;
    var s := t.(config := config);
    forall i | 0 <= i < |s.plugins.results|
      ensures Mergeable(s, s.plugins.results[i].uri, s.plugins.results[i].batch.stamp)
    {
      assert Mergeable(t, t.plugins.results[i].uri, t.plugins.results[i].batch.stamp);
    }
    forall id | Running(s.plugins, id) ensures Mergeable(s, s.plugins.workers[id].uri, s.plugins.workers[id].stamp) {
      assert Running(t.plugins, id);
    }
  }

  lemma FinishWork(p: Plugins, id: nat, delivered: Option<Messages>)
    requires Registered(p) && Unique(p) && Running(p, id)
    ensures var f := Finish(p, id, delivered);
      var q := f.(workers := f.workers[id := f.workers[id].(running := false)]);
      && Registered(q) && Unique(q)
      && (forall j :: Running(q, j) ==> Running(p, j) && q.workers[j] == p.workers[j])
      && (forall i :: 0 <= i < |p.results| ==> q.results[i] == p.results[i])
      && (forall i :: |p.results| <= i < |q.results| ==>
            q.results[i].uri == p.workers[id].uri && q.results[i].batch.stamp == p.workers[id].stamp)
  {
    var f := Finish(p, id, delivered);
    var q := f.(workers := f.workers[id := f.workers[id].(running := false)]);
    assert forall j :: Running(q, j) ==> Running(p, j) && j != id;
  }

  lemma WorkerDoneKeepsInv(s: State, id: nat, delivered: Option<Messages>)
    requires Inv(s) && Running(s.plugins, id)
    ensures Inv(WorkerDone(s, id, delivered))
  {
    hide Registered, Unique;
    var t := WorkerDone(s, id, delivered);
    FinishWork(s.plugins, id, delivered);
    forall v ensures Fresh(t, v) {
      assert Fresh(s, v);
    }
    assert Mergeable(s, s.plugins.workers[id].uri, s.plugins.workers[id].stamp);
    forall j | Running(t.plugins, j) ensures Mergeable(t, t.plugins.workers[j].uri, t.plugins.workers[j].stamp) {
      assert Running(s.plugins, j);
    }
    forall i | 0 <= i < |t.plugins.results|
      ensures Mergeable(t, t.plugins.results[i].uri, t.plugins.results[i].batch.stamp)
    {
      if i < |s.plugins.results| {
        assert Mergeable(s, s.plugins.results[i].uri, s.plugins.results[i].batch.stamp);
      }
    }
  }

  lemma WorkerGoneKeepsInv(s: State, id: nat)
    requires Inv(s) && id in s.plugins.workers && !s.plugins.workers[id].running
    ensures Inv(WorkerGone(s, id))
  {
    var t := WorkerGone(s, id);
    forall v ensures Fresh(t, v) {
      assert Fresh(s, v);
    }
    assert forall j :: Running(t.plugins, j) ==> Running(s.plugins, j);
    forall j | Running(t.plugins, j) ensures Mergeable(t, t.plugins.workers[j].uri, t.plugins.workers[j].stamp) {
      assert Running(s.plugins, j);
    }
  }

  // The result taken was the only work of its generation.
  lemma TakeWork(p: Plugins)
    requires Registered(p) && Unique(p) && |p.results| > 0
    ensures var q := p.(results := p.results[1..]);
      && Registered(q) && Unique(q)
      && p.results[0].batch.producer == Enrichment
      && (forall k :: 0 <= k < |q.results| ==> q.results[k] == p.results[k + 1])
      && (forall k :: 0 <= k < |q.results| ==>
            !Same(p.results[0].uri, p.results[0].batch.stamp, q.results[k].uri, q.results[k].batch.stamp))
      && (forall j :: Running(q, j) ==> Running(p, j))
      && (forall j :: Running(q, j) ==>
            !Same(p.results[0].uri, p.results[0].batch.stamp, q.workers[j].uri, q.workers[j].stamp))
  {
    var q := p.(results := p.results[1..]);
    assert forall k :: 0 <= k < |q.results| ==> q.results[k] == p.results[k + 1];
    assert forall j :: Running(q, j) ==> Running(p, j);
  }

  lemma MergeKeepsInv(s: State)
    requires Inv(s) && |s.plugins.results| > 0
    ensures Inv(Exec(s, TakeResult))
  {
    hide Registered, Unique, Exec, Mergeable, Fresh, Same;
    var r := s.plugins.results[0];
    var p := s.plugins.(results := s.plugins.results[1..]);
    var t := Exec(s, TakeResult);
    TakeWork(s.plugins);
    assert Mergeable(s, r.uri, r.batch.stamp);
    MergeIsQuiet(s);
    forall v ensures Fresh(t, v) {
      assert Fresh(s, v);
      MergeIsFresh(s, v);
    }
    forall j | Running(p, j) ensures Mergeable(t, p.workers[j].uri, p.workers[j].stamp) {
      assert Mergeable(s, p.workers[j].uri, p.workers[j].stamp);
      StillMergeable(s, p.workers[j].uri, p.workers[j].stamp);
    }
    forall k | 0 <= k < |p.results| ensures Mergeable(t, p.results[k].uri, p.results[k].batch.stamp) {
      assert Mergeable(s, s.plugins.results[k + 1].uri, s.plugins.results[k + 1].batch.stamp);
      StillMergeable(s, p.results[k].uri, p.results[k].batch.stamp);
    }
  }

  lemma MergeIsQuiet(s: State)
    requires Quiescent(s) && |s.plugins.results| > 0 && Mergeable(s, s.plugins.results[0].uri, s.plugins.results[0].batch.stamp)
    ensures Quiescent(Exec(s, TakeResult))
    ensures Exec(s, TakeResult).plugins == s.plugins.(results := s.plugins.results[1..])
  {}

  lemma MergeIsFresh(s: State, v: Uri)
    requires |s.plugins.results| > 0 && Fresh(s, v) && s.plugins.results[0].batch.producer == Enrichment
    requires Mergeable(s, s.plugins.results[0].uri, s.plugins.results[0].batch.stamp)
    ensures Fresh(Exec(s, TakeResult), v)
  {}

  lemma StillMergeable(s: State, v: Uri, stamp: Stamp)
    requires |s.plugins.results| > 0 && Mergeable(s, v, stamp)
    requires !Same(s.plugins.results[0].uri, s.plugins.results[0].batch.stamp, v, stamp)
    ensures Mergeable(Exec(s, TakeResult), v, stamp)
  {}

  lemma TextChangeExcept(s: State, uri: Uri, text: Text)
    requires Inv(s)
    ensures InvExcept(s.(documents := s.documents[uri := text]), uri)
  {
    hide Unique, Registered;
    var t := s.(documents := s.documents[uri := text]);
    forall v | v != uri ensures Fresh(t, v) {
      assert Fresh(s, v);
    }
  }

  lemma TextGoneExcept(s: State, uri: Uri)
    requires Inv(s)
    ensures InvExcept(s.(documents := s.documents - {uri}, pending := s.pending - {uri}), uri)
  {
    hide Unique, Registered;
    var t := s.(documents := s.documents - {uri}, pending := s.pending - {uri});
    forall v | v != uri ensures Fresh(t, v) {
      assert Fresh(s, v);
    }
  }

  lemma PendingIsFree(s: State, pending: set<Uri>)
    requires Inv(s) && pending <= s.documents.Keys
    ensures Inv(s.(pending := pending))
  {
    var t := s.(pending := pending);
    forall v ensures Fresh(t, v) {
      assert Fresh(s, v);
    }
  }

  lemma PendingAreOpen(s: State)
    requires Inv(s)
    ensures s.pending <= s.documents.Keys
  {}

  lemma EditKeepsInv(s: State, e: Event)
    requires Inv(s) && (e.DidOpen? || e.DidChange? || e.DidSave? || e.DidClose?)
    ensures Inv(Exec(s, e))
  {
    hide Inv, InvExcept;
    match e
    case DidOpen(uri, text, chance) =>
      TextChangeExcept(s, uri, text);
      PushKeepsInv(s.(documents := s.documents[uri := text]), uri, chance);
    case DidChange(uri, text, late) =>
      if text.Some? {
        TextChangeExcept(s, uri, text.value);
        ForgetKeepsInv(s.(documents := s.documents[uri := text.value]), uri, late);
        var t := Forget(s.(documents := s.documents[uri := text.value]), uri, late);
        PendingAreOpen(t);
        PendingIsFree(t, t.pending + {uri});
      }
    case DidSave(uri, chance) =>
      PendingAreOpen(s);
      PendingIsFree(s, s.pending - {uri});
      InvImpliesExcept(s.(pending := s.pending - {uri}), uri);
      PushKeepsInv(s.(pending := s.pending - {uri}), uri, chance);
    case DidClose(uri, late) =>
      TextGoneExcept(s, uri);
      ForgetKeepsInv(s.(documents := s.documents - {uri}, pending := s.pending - {uri}), uri, late);
  }

  lemma StepKeepsInv(s: State, e: Event)
    requires Inv(s) && Enabled(s, e)
    ensures Inv(Exec(s, e))
  {
    hide Inv;
    match e
    case Initialize => SessionIsFree(s);
    case Refresh(order, chances) => PushAllKeepsInv(s, order, chances);
    case Debounce(order, chances) =>
      PushAllKeepsInv(s, order, chances);
      PendingIsFree(PushAll(s, order, chances), {});
    case Invalidate(order, chances) => ForgetAllKeepsInv(s, order, chances);
    case CommitConfig(config, order, chances) =>
      ForgetAllKeepsInv(s, order, chances);
      CommitKeepsInv(ForgetAll(s, order, chances), config);
    case WorkerReturns(id, delivered) => WorkerDoneKeepsInv(s, id, delivered);
    case WorkerExits(id) => WorkerGoneKeepsInv(s, id);
    case TakeResult => MergeKeepsInv(s);
    case _ => EditKeepsInv(s, e);
  }

  lemma SessionIsFree(s: State)
    requires Inv(s)
    ensures Inv(s.(session := true))
  {
    var t := s.(session := true);
    forall v ensures Fresh(t, v) {
      assert Fresh(s, v);
    }
  }

  // ---- Whole runs ------------------------------------------------------------

  /** The state a sequence of events leads to, if each was possible in its turn. */
  ghost function After(start: State, events: seq<Event>): Option<State>
    decreases |events|
  {
    if |events| == 0 then Some(start)
    else
      var before := After(start, events[..|events| - 1]);
      var last := events[|events| - 1];
      if before.Some? && Enabled(before.value, last) then Some(Exec(before.value, last)) else None
  }

  lemma {:induction false} RunKeepsInv(start: State, events: seq<Event>)
    requires Inv(start) && After(start, events).Some?
    ensures Inv(After(start, events).value)
    decreases |events|
  {
    hide Inv, Enabled, Exec;
    if |events| > 0 {
      RunKeepsInv(start, events[..|events| - 1]);
      StepKeepsInv(After(start, events[..|events| - 1]).value, events[|events| - 1]);
    }
  }

  /** Over every run, the diagnostics stored for an open document are one
      baseline of its current text, config and generation, followed by at most one
      plugin enrichment made from that same lint. */
  lemma OpenDocumentsAreFresh(events: seq<Event>, uri: Uri)
    requires After(INITIAL, events).Some?
    requires uri in After(INITIAL, events).value.documents && uri in After(INITIAL, events).value.diagnostics
    ensures var s := After(INITIAL, events).value;
      var stored := s.diagnostics[uri];
      && uri.lintable
      && 1 <= |stored| <= 2
      && stored[0].producer == Baseline
      && (forall i :: 0 <= i < |stored| ==>
            stored[i].stamp == Stamp(Some(s.documents[uri]), s.config, Generation(s, uri)))
      && (|stored| == 2 ==> stored[1].producer == Enrichment)
  {
    hide After, Enabled;
    RunKeepsInv(INITIAL, events);
    assert Fresh(After(INITIAL, events).value, uri);
  }

  /** A result that reaches the main loop is merged exactly when no later lint,
      edit, close or config commit superseded it; then the document still shows
      the baseline it enriches, and nothing else. */
  lemma ResultsMergeExactlyWhenCurrent(events: seq<Event>)
    requires After(INITIAL, events).Some? && |After(INITIAL, events).value.plugins.results| > 0
    ensures var s := After(INITIAL, events).value;
      var r := s.plugins.results[0];
      var t := Exec(s, TakeResult);
      if r.uri in s.documents && r.batch.stamp == CurrentStamp(s, r.uri)
      then r.uri in s.diagnostics && |s.diagnostics[r.uri]| == 1
           && t.diagnostics == s.diagnostics[r.uri := s.diagnostics[r.uri] + [r.batch]]
      else t.diagnostics == s.diagnostics
  {
    hide After, Enabled;
    RunKeepsInv(INITIAL, events);
    var s := After(INITIAL, events).value;
    var r := s.plugins.results[0];
    assert Mergeable(s, r.uri, r.batch.stamp);
  }

  // ---- Results from before a close -------------------------------------------

  ghost predicate NoLower(s: State, t: State) {
    forall uri :: Generation(s, uri) <= Generation(t, uri)
  }

  lemma {:induction false} PushAllRaises(s: State, order: seq<Uri>, chances: Uri -> Chance)
    ensures NoLower(s, PushAll(s, order, chances))
    decreases |order|
  {
    if |order| > 0 {
      PushAllRaises(s, order[..|order| - 1], chances);
      var before := PushAll(s, order[..|order| - 1], chances);
      forall uri ensures Generation(s, uri) <= Generation(PushAll(s, order, chances), uri) {
        assert Generation(s, uri) <= Generation(before, uri);
      }
    }
  }

  lemma {:induction false} ForgetAllRaises(s: State, order: seq<Uri>, chances: Uri -> Chance)
    ensures NoLower(s, ForgetAll(s, order, chances))
    decreases |order|
  {
    if |order| > 0 {
      ForgetAllRaises(s, order[..|order| - 1], chances);
      var before := ForgetAll(s, order[..|order| - 1], chances);
      forall uri ensures Generation(s, uri) <= Generation(ForgetAll(s, order, chances), uri) {
        assert Generation(s, uri) <= Generation(before, uri);
      }
    }
  }

  lemma StepRaises(s: State, e: Event)
    requires Enabled(s, e)
    ensures NoLower(s, Exec(s, e))
  {
    match e
    case Refresh(order, chances) => PushAllRaises(s, order, chances);
    case Debounce(order, chances) => PushAllRaises(s, order, chances);
    case Invalidate(order, chances) => ForgetAllRaises(s, order, chances);
    case CommitConfig(config, order, chances) => ForgetAllRaises(s, order, chances);
    case _ =>
  }

  lemma {:induction false} RunRaises(start: State, events: seq<Event>)
    requires After(start, events).Some?
    ensures NoLower(start, After(start, events).value)
    decreases |events|
  {
    hide Enabled, Exec;
    if |events| > 0 {
      RunRaises(start, events[..|events| - 1]);
      var before := After(start, events[..|events| - 1]).value;
      StepRaises(before, events[|events| - 1]);
      forall uri ensures Generation(start, uri) <= Generation(After(start, events).value, uri) {
        assert Generation(start, uri) <= Generation(before, uri);
      }
    }
  }

  /** Whatever happens after a close, reopening included, a worker or a result
      from before it never again matches the document's generation. */
  lemma ResultsFromBeforeACloseStayStale(
    history: seq<Event>, uri: Uri, late: Option<Messages>, future: seq<Event>, stamp: Stamp)
    requires After(INITIAL, history).Some?
    requires var s := After(INITIAL, history).value;
      || (exists id :: Running(s.plugins, id) && s.plugins.workers[id].uri == uri && s.plugins.workers[id].stamp == stamp)
      || (exists i :: 0 <= i < |s.plugins.results| && s.plugins.results[i].uri == uri && s.plugins.results[i].batch.stamp == stamp)
    requires After(Exec(After(INITIAL, history).value, DidClose(uri, late)), future).Some?
    ensures var t := After(Exec(After(INITIAL, history).value, DidClose(uri, late)), future).value;
      stamp.generation < Generation(t, uri)
  {
    hide After, Enabled;
    RunKeepsInv(INITIAL, history);
    var s := After(INITIAL, history).value;
    assert Mergeable(s, uri, stamp);
    var c := Exec(s, DidClose(uri, late));
    assert Generation(c, uri) == Generation(s, uri) + 1;
    RunRaises(c, future);
  }
}
