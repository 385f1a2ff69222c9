/** What a lint achieves: the messages it found are the ones shown, its plugin
    work is under way, and an edited document is waiting for its next lint. */
module LspShown {
  import opened Wrappers
  import opened LspDocuments
  import opened LspFreshness

  // ---- One lint --------------------------------------------------------------

  ghost predicate NobodyWorks(p: Plugins, uri: Uri) {
    uri !in p.inflight && forall id :: Running(p, id) ==> p.workers[id].uri != uri
  }

  /** A lint of `uri` that ended like this is what the server shows and works on:
      a baseline with exactly its messages, made from the current text, config and
      generation, and a worker on the same stamp exactly when plugin work is left. */
  ghost predicate Shows(s: State, uri: Uri, outcome: Outcome) {
    if outcome.Linted? then
      && uri in s.diagnostics
      && s.diagnostics[uri] == [Batch(Baseline, CurrentStamp(s, uri), outcome.messages)]
      && (if outcome.pluginWork
          then uri in s.plugins.inflight && s.plugins.inflight[uri] in s.plugins.workers
               && s.plugins.workers[s.plugins.inflight[uri]] == Worker(uri, CurrentStamp(s, uri), true)
          else NobodyWorks(s.plugins, uri))
    else uri !in s.diagnostics && NobodyWorks(s.plugins, uri)
  }

  /** Everything the server keeps for `uri` is the same in both states. */
  ghost predicate Untouched(s: State, t: State, uri: Uri) {
    && (uri in t.documents <==> uri in s.documents) && (uri in s.documents ==> t.documents[uri] == s.documents[uri])
    && Generation(t, uri) == Generation(s, uri)
    && (uri in t.diagnostics <==> uri in s.diagnostics) && (uri in s.diagnostics ==> t.diagnostics[uri] == s.diagnostics[uri])
    && (uri in t.plugins.inflight <==> uri in s.plugins.inflight)
    && (uri in s.plugins.inflight ==>
          var id := s.plugins.inflight[uri];
          && t.plugins.inflight[uri] == id
          && (id in t.plugins.workers <==> id in s.plugins.workers)
          && (id in s.plugins.workers ==> t.plugins.workers[id] == s.plugins.workers[id]))
    && (forall id :: Running(t.plugins, id) && t.plugins.workers[id].uri == uri ==> Running(s.plugins, id) && s.plugins.workers[id].uri == uri)
  }

  lemma UntouchedIsTransitive(s: State, t: State, u: State, uri: Uri)
    requires Untouched(s, t, uri) && Untouched(t, u, uri)
    ensures Untouched(s, u, uri)
  {}

  lemma UntouchedShows(s: State, t: State, uri: Uri, outcome: Outcome)
    requires Untouched(s, t, uri) && Shows(s, uri, outcome) && t.config == s.config
    ensures Shows(t, uri, outcome)
  {}

  // After a cancellation nobody works on the document, and nothing else moved.
  lemma CancelLeaves(p: Plugins, uri: Uri, late: Option<Messages>)
    requires Registered(p)
    ensures NobodyWorks(Cancel(p, uri, late), uri)
    ensures Cancel(p, uri, late).spawned == p.spawned
    ensures forall v :: v != uri ==> (v in Cancel(p, uri, late).inflight <==> v in p.inflight)
    ensures forall v :: v != uri && v in p.inflight ==>
      Cancel(p, uri, late).inflight[v] == p.inflight[v] && p.inflight[v] in p.workers
      && p.inflight[v] in Cancel(p, uri, late).workers && Cancel(p, uri, late).workers[p.inflight[v]] == p.workers[p.inflight[v]]
    ensures forall id :: Running(Cancel(p, uri, late), id) ==> Running(p, id) && Cancel(p, uri, late).workers[id] == p.workers[id]
  {}

  lemma PushShows(s: State, uri: Uri, chance: Chance)
    requires Registered(s.plugins) && s.session && uri.lintable
    ensures Shows(Push(s, uri, chance), uri, chance.outcome)
    ensures Generation(Push(s, uri, chance), uri) == Generation(s, uri) + 1
  {
    CancelLeaves(s.plugins, uri, chance.late);
    hide Cancel, Registered;
  }

  lemma SupersedeLeavesOthers(s: State, uri: Uri, late: Option<Messages>, v: Uri)
    requires Registered(s.plugins) && v != uri
    ensures Untouched(s, Supersede(s, uri, late), v) && Registered(Supersede(s, uri, late).plugins)
  {
    CancelLeaves(s.plugins, uri, late);
  }

  lemma StoreLeavesOthers(t: State, uri: Uri, diagnostics: map<Uri, seq<Batch>>, plugins: Plugins, v: Uri)
    requires Registered(t.plugins) && v != uri && diagnostics - {uri} == t.diagnostics - {uri}
    requires plugins == t.plugins || exists stamp :: plugins == Spawn(t.plugins, uri, stamp)
    ensures Untouched(t, t.(diagnostics := diagnostics, plugins := plugins), v)
  {
    assert v in diagnostics - {uri} <==> v in diagnostics;
    assert v in t.diagnostics ==> (t.diagnostics - {uri})[v] == t.diagnostics[v];
    assert v in diagnostics ==> (diagnostics - {uri})[v] == diagnostics[v];
    SpawnedIsNew(t.plugins);
  }

  lemma PushLeavesOthers(s: State, uri: Uri, chance: Chance, v: Uri)
    requires Registered(s.plugins) && (v != uri || !s.session || !uri.lintable)
    ensures Untouched(s, Push(s, uri, chance), v)
  {
    if s.session && uri.lintable {
      SupersedeLeavesOthers(s, uri, chance.late, v);
      var t := Supersede(s, uri, chance.late);
      var u := Push(s, uri, chance);
      hide Supersede, Registered, Untouched, Spawn;
      assert u.diagnostics - {uri} == t.diagnostics - {uri};
      assert u == t.(diagnostics := u.diagnostics, plugins := u.plugins);
      StoreLeavesOthers(t, uri, u.diagnostics, u.plugins, v);
      UntouchedIsTransitive(s, t, u, v);
    }
  }

  lemma SpawnedIsNew(p: Plugins)
    requires Registered(p)
    ensures p.spawned !in p.workers
  {}

  lemma PushKeeps(s: State, uri: Uri, chance: Chance)
    ensures var t := Push(s, uri, chance);
      t.documents == s.documents && t.config == s.config && t.session == s.session && t.pending == s.pending
  {}

  lemma ForgetLeavesOthers(s: State, uri: Uri, late: Option<Messages>, v: Uri)
    requires Registered(s.plugins) && v != uri
    ensures Untouched(s, Forget(s, uri, late), v)
  {
    CancelLeaves(s.plugins, uri, late);
    hide Cancel, Registered;
  }

  lemma ForgetClears(s: State, uri: Uri, late: Option<Messages>)
    requires Registered(s.plugins)
    ensures uri !in Forget(s, uri, late).diagnostics && NobodyWorks(Forget(s, uri, late).plugins, uri)
  {
    CancelLeaves(s.plugins, uri, late);
    hide Cancel, Registered;
  }

  // ---- Many lints ------------------------------------------------------------

  predicate Distinct(order: seq<Uri>) {
    forall i, j :: 0 <= i < j < |order| ==> order[i] != order[j]
  }

  lemma {:induction false} PushAllKeeps(s: State, order: seq<Uri>, chances: Uri -> Chance)
    ensures var t := PushAll(s, order, chances);
      t.documents == s.documents && t.config == s.config && t.session == s.session && t.pending == s.pending
    decreases |order|
  {
    if |order| > 0 {
      PushAllKeeps(s, order[..|order| - 1], chances);
      hide Push;
      PushKeeps(PushAll(s, order[..|order| - 1], chances), order[|order| - 1], chances(order[|order| - 1]));
    }
  }

  lemma {:induction false} PushAllShows(s: State, order: seq<Uri>, chances: Uri -> Chance, uri: Uri)
    requires Inv(s) && Distinct(order)
    ensures uri in order && s.session && uri.lintable ==> Shows(PushAll(s, order, chances), uri, chances(uri).outcome)
    ensures uri !in order || !s.session || !uri.lintable ==> Untouched(s, PushAll(s, order, chances), uri)
    decreases |order|
  {
    hide Inv, Push, Shows, Untouched;
    if |order| > 0 {
      var front, last := order[..|order| - 1], order[|order| - 1];
      var t := PushAll(s, front, chances);
      PushAllShows(s, front, chances, uri);
      PushAllKeepsInv(s, front, chances);
      PushAllKeeps(s, front, chances);
      InvIsRegistered(t);
      PushKeeps(t, last, chances(last));
      if last == uri && s.session && uri.lintable {
        PushShows(t, uri, chances(uri));
      } else {
        PushLeavesOthers(t, last, chances(last), uri);
        if uri in front && s.session && uri.lintable {
          UntouchedShows(t, PushAll(s, order, chances), uri, chances(uri).outcome);
        } else {
          UntouchedIsTransitive(s, t, PushAll(s, order, chances), uri);
        }
      }
    } else {
      SelfUntouched(s, uri);
    }
  }

  lemma SelfUntouched(s: State, uri: Uri)
    ensures Untouched(s, s, uri)
  {}

  lemma InvIsRegistered(s: State)
    requires Inv(s)
    ensures Registered(s.plugins)
  {}

  lemma {:induction false} ForgetAllClears(s: State, order: seq<Uri>, chances: Uri -> Chance, uri: Uri)
    requires Inv(s) && Distinct(order)
    ensures uri in order ==> uri !in ForgetAll(s, order, chances).diagnostics && NobodyWorks(ForgetAll(s, order, chances).plugins, uri)
    ensures uri !in order ==> Untouched(s, ForgetAll(s, order, chances), uri)
    decreases |order|
  {
    hide Inv, Untouched, NobodyWorks, Forget, Registered;
    if |order| > 0 {
      var front, last := order[..|order| - 1], order[|order| - 1];
      var t := ForgetAll(s, front, chances);
      ForgetAllClears(s, front, chances, uri);
      ForgetAllKeepsInv(s, front, chances);
      InvIsRegistered(t);
      if last == uri {
        ForgetClears(t, uri, chances(uri).late);
      } else {
        ForgetLeavesOthers(t, last, chances(last).late, uri);
        if uri in front {
          UntouchedStaysClear(t, Forget(t, last, chances(last).late), uri);
        } else {
          UntouchedIsTransitive(s, t, Forget(t, last, chances(last).late), uri);
        }
      }
    } else {
      SelfUntouched(s, uri);
    }
  }

  lemma UntouchedStaysClear(s: State, t: State, uri: Uri)
    requires Untouched(s, t, uri) && uri !in s.diagnostics && NobodyWorks(s.plugins, uri)
    ensures uri !in t.diagnostics && NobodyWorks(t.plugins, uri)
  {}

  // ---- Whole runs ------------------------------------------------------------

  ghost predicate Reached(events: seq<Event>, s: State) {
    After(INITIAL, events) == Some(s)
  }

  lemma ReachedHasInv(events: seq<Event>, s: State)
    requires Reached(events, s)
    ensures Inv(s)
  {
    hide Inv, After;
    InitialInv();
    RunKeepsInv(INITIAL, events);
  }

  lemma InitialInv()
    ensures Inv(INITIAL)
  {}

  /** Opening or saving a supported document in a session shows the messages of
      that lint of the current text and nothing else, with its plugin work started;
      outside a session, or for other kinds of files, nothing is shown. */
  lemma OpenAndSaveShowTheirLint(events: seq<Event>, s: State, uri: Uri, text: Text, chance: Chance)
    requires Reached(events, s)
    ensures var t := Exec(s, DidOpen(uri, text, chance));
      && t.documents == s.documents[uri := text] && t.config == s.config
      && (if s.session && uri.lintable then Shows(t, uri, chance.outcome) else t.diagnostics == s.diagnostics)
    ensures var t := Exec(s, DidSave(uri, chance));
      && t.documents == s.documents && t.config == s.config && uri !in t.pending
      && (if s.session && uri.lintable then Shows(t, uri, chance.outcome) else t.diagnostics == s.diagnostics)
  {
    ReachedHasInv(events, s);
    InvIsRegistered(s);
    hide Inv, After;
    if s.session && uri.lintable {
      PushShows(s.(documents := s.documents[uri := text]), uri, chance);
      PushShows(s.(pending := s.pending - {uri}), uri, chance);
      hide Shows;
    }
  }

  /** An edit and a close take down what is shown for the document and stop its
      plugin work. */
  lemma EditAndCloseClear(events: seq<Event>, s: State, uri: Uri, text: Text, late: Option<Messages>)
    requires Reached(events, s)
    ensures var t := Exec(s, DidChange(uri, Some(text), late));
      uri !in t.diagnostics && NobodyWorks(t.plugins, uri) && Generation(t, uri) == Generation(s, uri) + 1
    ensures var t := Exec(s, DidClose(uri, late));
      uri !in t.diagnostics && NobodyWorks(t.plugins, uri) && Generation(t, uri) == Generation(s, uri) + 1
  {
    ReachedHasInv(events, s);
    InvIsRegistered(s);
    hide Inv, After, Cancel, NobodyWorks, Registered;
    ForgetClears(s.(documents := s.documents[uri := text]), uri, late);
    ForgetClears(s.(documents := s.documents - {uri}, pending := s.pending - {uri}), uri, late);
  }

  /** An invalidation does so for every open document. */
  lemma InvalidationClears(events: seq<Event>, s: State, uri: Uri, order: seq<Uri>, chances: Uri -> Chance)
    requires Reached(events, s) && Enabled(s, Invalidate(order, chances)) && uri in s.documents
    ensures var t := Exec(s, Invalidate(order, chances)); uri !in t.diagnostics && NobodyWorks(t.plugins, uri)
  {
    ReachedHasInv(events, s);
    ForgetAllClears(s, order, chances, uri);
    hide Inv, After, ForgetAll, NobodyWorks;
  }

  /** A refresh lints every open document, a debounce every edited one, each from
      the state at that moment; both leave all other documents alone. */
  lemma RefreshShowsEveryDocument(events: seq<Event>, s: State, order: seq<Uri>, chances: Uri -> Chance, uri: Uri)
    requires Reached(events, s) && s.session
    ensures Enabled(s, Refresh(order, chances)) ==>
      if uri in s.documents && uri.lintable then Shows(Exec(s, Refresh(order, chances)), uri, chances(uri).outcome)
      else Untouched(s, Exec(s, Refresh(order, chances)), uri)
    ensures Enabled(s, Debounce(order, chances)) ==>
      && Exec(s, Debounce(order, chances)).pending == {}
      && if uri in s.pending && uri.lintable then Shows(Exec(s, Debounce(order, chances)), uri, chances(uri).outcome)
         else Untouched(s, Exec(s, Debounce(order, chances)), uri)
  {
    ReachedHasInv(events, s);
    if Enabled(s, Refresh(order, chances)) || Enabled(s, Debounce(order, chances)) {
      PushAllShows(s, order, chances, uri);
    }
    hide Inv, After, PushAll;
  }

  /** A committed config takes down what every open document shows, without
      touching the texts. */
  lemma CommitClears(events: seq<Event>, s: State, config: Config, order: seq<Uri>, chances: Uri -> Chance, uri: Uri)
    requires Reached(events, s) && Enabled(s, CommitConfig(config, order, chances))
    ensures var t := Exec(s, CommitConfig(config, order, chances));
      && t.config == config && t.documents == s.documents && t.session == s.session
      && (uri in s.documents ==> uri !in t.diagnostics && NobodyWorks(t.plugins, uri))
  {
    ReachedHasInv(events, s);
    ForgetAllClears(s, order, chances, uri);
    ForgetAllKeepsPending(s, order, chances);
    hide Inv, After, ForgetAll, NobodyWorks;
  }

  /** The relint that follows a commit shows every supported open document under
      the new config. */
  lemma CommitIsRelinted(
    events: seq<Event>, s: State, config: Config, order: seq<Uri>, chances: Uri -> Chance,
    order': seq<Uri>, chances': Uri -> Chance, uri: Uri)
    requires Reached(events, s) && s.session && uri in s.documents && uri.lintable
    requires Enabled(s, CommitConfig(config, order, chances))
    requires Enabled(Exec(s, CommitConfig(config, order, chances)), Refresh(order', chances'))
    ensures var u := Exec(Exec(s, CommitConfig(config, order, chances)), Refresh(order', chances'));
      && Shows(u, uri, chances'(uri).outcome)
      && CurrentStamp(u, uri) == Stamp(Some(s.documents[uri]), config, Generation(u, uri))
  {
    var e := CommitConfig(config, order, chances);
    var t := Exec(s, e);
    OneMore(events, s, e);
    CommitClears(events, s, config, order, chances, uri);
    RefreshShowsEveryDocument(events + [e], t, order', chances', uri);
    PushAllKeeps(t, order', chances');
    hide Reached, PushAll, ForgetAll, Shows, NobodyWorks, Untouched;
  }

  lemma OneMore(events: seq<Event>, s: State, e: Event)
    requires Reached(events, s) && Enabled(s, e)
    ensures Reached(events + [e], Exec(s, e))
  {
    assert (events + [e])[..|events|] == events;
    hide Exec, Enabled;
  }

  // ---- Edited documents --------------------------------------------------------

  // The document was edited in a session.
  ghost predicate Edits(events: seq<Event>, i: nat, uri: Uri) {
    && i < |events| && events[i].DidChange? && events[i].uri == uri && events[i].newText.Some?
    && After(INITIAL, events[..i]).Some? && After(INITIAL, events[..i]).value.session
  }

  // The event lints the edited document or drops it.
  predicate Settles(e: Event, uri: Uri) {
    e.Debounce? || ((e.DidSave? || e.DidClose?) && e.uri == uri)
  }

  ghost predicate Waits(events: seq<Event>, i: nat, uri: Uri) {
    Edits(events, i, uri) && forall j :: i < j < |events| ==> !Settles(events[j], uri)
  }

  lemma PendingAfter(s: State, e: Event, uri: Uri)
    requires Enabled(s, e)
    ensures uri in Exec(s, e).pending <==>
      || (e.DidChange? && e.uri == uri && e.newText.Some? && s.session)
      || (uri in s.pending && !Settles(e, uri))
  {
    match e
    case Refresh(order, chances) => PushAllKeeps(s, order, chances);
    case Debounce(order, chances) => PushAllKeeps(s, order, chances);
    case Invalidate(order, chances) => ForgetAllKeepsPending(s, order, chances);
    case CommitConfig(_, order, chances) => ForgetAllKeepsPending(s, order, chances);
    case _ =>
  }

  lemma {:induction false} ForgetAllKeepsPending(s: State, order: seq<Uri>, chances: Uri -> Chance)
    ensures ForgetAll(s, order, chances).pending == s.pending && ForgetAll(s, order, chances).session == s.session
    ensures ForgetAll(s, order, chances).documents == s.documents
    decreases |order|
  {
    if |order| > 0 {
      ForgetAllKeepsPending(s, order[..|order| - 1], chances);
      hide Cancel;
    }
  }

  /** In every run a document waits for a lint exactly when it was edited in the
      session and neither a debounce nor its save or close came after that. */
  lemma {:induction false} PendingIffEdited(events: seq<Event>, s: State, uri: Uri)
    requires Reached(events, s)
    ensures uri in s.pending <==> exists i: nat :: Waits(events, i, uri)
    decreases |events|
  {
    if |events| > 0 {
      var n := |events| - 1;
      var front, e := events[..n], events[n];
      var b := After(INITIAL, front).value;
      PendingIffEdited(front, b, uri);
      PendingAfter(b, e, uri);
      hide After, Enabled, Exec, Waits;
      WaitsLast(events, n, b, uri);
      forall i: nat | i < n ensures Waits(events, i, uri) <==> Waits(front, i, uri) && !Settles(e, uri) {
        WaitsEarlier(events, n, i, uri);
      }
      WaitsShort(front, uri);
      if uri in s.pending && !Waits(events, n, uri) {
        var i: nat :| Waits(front, i, uri);
        assert Waits(events, i, uri);
      }
    }
  }

  lemma WaitsEarlier(events: seq<Event>, n: nat, i: nat, uri: Uri)
    requires n + 1 == |events| && i < n
    ensures Waits(events, i, uri) <==> Waits(events[..n], i, uri) && !Settles(events[n], uri)
  {
    hide After;
    var front := events[..n];
    assert front[..i] == events[..i];
    assert forall j :: 0 <= j < n ==> front[j] == events[j];
    assert (forall j :: i < j < |events| ==> !Settles(events[j], uri))
      <==> (forall j :: i < j < n ==> !Settles(front[j], uri)) && !Settles(events[n], uri);
  }

  lemma WaitsLast(events: seq<Event>, n: nat, b: State, uri: Uri)
    requires n + 1 == |events| && After(INITIAL, events[..n]) == Some(b)
    ensures Waits(events, n, uri) <==> events[n].DidChange? && events[n].uri == uri && events[n].newText.Some? && b.session
    ensures forall i: nat :: Waits(events, i, uri) ==> i <= n
  {
    hide After;
  }

  lemma WaitsShort(events: seq<Event>, uri: Uri)
    ensures forall i: nat :: Waits(events, i, uri) ==> i < |events|
  {
    hide After;
  }

  // ---- Texts ---------------------------------------------------------------------

  // The event gives the document this text.
  predicate Writes(e: Event, uri: Uri, text: Text) {
    (e.DidOpen? && e.uri == uri && e.text == text) || (e.DidChange? && e.uri == uri && e.newText == Some(text))
  }

  predicate Overwrites(e: Event, uri: Uri) {
    (e.DidOpen? && e.uri == uri) || (e.DidChange? && e.uri == uri && e.newText.Some?) || (e.DidClose? && e.uri == uri)
  }

  ghost predicate LastWrite(events: seq<Event>, i: nat, uri: Uri, text: Text) {
    && i < |events| && Writes(events[i], uri, text)
    && forall j :: i < j < |events| ==> !Overwrites(events[j], uri)
  }

  lemma TextAfter(s: State, e: Event, uri: Uri, text: Text)
    requires Enabled(s, e)
    ensures uri in Exec(s, e).documents && Exec(s, e).documents[uri] == text <==>
      Writes(e, uri, text) || (uri in s.documents && s.documents[uri] == text && !Overwrites(e, uri))
  {
    match e
    case Refresh(order, chances) => PushAllKeeps(s, order, chances);
    case Debounce(order, chances) => PushAllKeeps(s, order, chances);
    case Invalidate(order, chances) => ForgetAllKeepsPending(s, order, chances);
    case CommitConfig(_, order, chances) => ForgetAllKeepsPending(s, order, chances);
    case _ =>
  }

  /** A document is open with exactly the text that was opened or edited last and
      not closed since. */
  lemma {:induction false} TextIsTheLatest(events: seq<Event>, s: State, uri: Uri, text: Text)
    requires Reached(events, s)
    ensures uri in s.documents && s.documents[uri] == text <==> exists i: nat :: LastWrite(events, i, uri, text)
    decreases |events|
  {
    if |events| > 0 {
      var n := |events| - 1;
      var front, e := events[..n], events[n];
      var b := After(INITIAL, front).value;
      TextIsTheLatest(front, b, uri, text);
      TextAfter(b, e, uri, text);
      hide After, Enabled, Exec;
      forall i: nat | i < n ensures LastWrite(events, i, uri, text) <==> LastWrite(front, i, uri, text) && !Overwrites(e, uri) {
        assert forall j :: 0 <= j < n ==> front[j] == events[j];
        assert (forall j :: i < j < |events| ==> !Overwrites(events[j], uri))
          <==> (forall j :: i < j < n ==> !Overwrites(front[j], uri)) && !Overwrites(e, uri);
      }
      assert LastWrite(events, n, uri, text) <==> Writes(e, uri, text);
      assert forall i: nat :: LastWrite(events, i, uri, text) ==> i <= n;
      assert forall i: nat :: LastWrite(front, i, uri, text) ==> i < n;
    }
  }

  // ---- Other documents -------------------------------------------------------------

  // The event is about the document.
  predicate Concerns(s: State, e: Event, uri: Uri) {
    match e
    case Initialize => false
    case DidOpen(u, _, _) => u == uri
    case DidChange(u, _, _) => u == uri
    case DidSave(u, _) => u == uri
    case DidClose(u, _) => u == uri
    case WorkerReturns(id, _) => id in s.plugins.workers && s.plugins.workers[id].uri == uri
    case WorkerExits(id) => id in s.plugins.workers && s.plugins.workers[id].uri == uri
    case TakeResult => |s.plugins.results| > 0 && s.plugins.results[0].uri == uri
    case Refresh(order, _) => uri in order
    case Debounce(order, _) => uri in order
    case Invalidate(order, _) => uri in order
    case CommitConfig(_, order, _) => uri in order
  }

  lemma EditLeavesOthers(s: State, e: Event, uri: Uri)
    requires Registered(s.plugins) && (e.DidOpen? || e.DidChange? || e.DidSave? || e.DidClose?) && e.uri != uri
    ensures Untouched(s, Exec(s, e), uri)
  {
    hide Push, Forget, Registered;
    match e
    case DidOpen(u, text, chance) => PushLeavesOthers(s.(documents := s.documents[u := text]), u, chance, uri);
    case DidChange(u, text, late) =>
      if text.Some? {
        ForgetLeavesOthers(s.(documents := s.documents[u := text.value]), u, late, uri);
      }
    case DidSave(u, chance) => PushLeavesOthers(s.(pending := s.pending - {u}), u, chance, uri);
    case DidClose(u, late) => ForgetLeavesOthers(s.(documents := s.documents - {u}, pending := s.pending - {u}), u, late, uri);
    case _ =>
  }

  lemma WorkerLeavesOthers(s: State, e: Event, uri: Uri)
    requires Registered(s.plugins) && Enabled(s, e) && (e.WorkerReturns? || e.WorkerExits? || e.TakeResult?) && !Concerns(s, e, uri)
    ensures Untouched(s, Exec(s, e), uri)
  {}

  /** No event disturbs a document it is not about: text, generation, stored
      diagnostics and worker stay. */
  lemma OthersAreUntouched(events: seq<Event>, s: State, e: Event, uri: Uri)
    requires Reached(events, s) && Enabled(s, e) && !Concerns(s, e, uri)
    ensures Untouched(s, Exec(s, e), uri)
  {
    ReachedHasInv(events, s);
    InvIsRegistered(s);
    hide Inv, After, Registered, Push, Forget;
    match e
    case Refresh(order, chances) => PushAllShows(s, order, chances, uri);
    case Debounce(order, chances) => PushAllShows(s, order, chances, uri);
    case Invalidate(order, chances) => ForgetAllClears(s, order, chances, uri);
    case CommitConfig(_, order, chances) => ForgetAllClears(s, order, chances, uri);
    case Initialize =>
    case WorkerReturns(_, _) => WorkerLeavesOthers(s, e, uri);
    case WorkerExits(_) => WorkerLeavesOthers(s, e, uri);
    case TakeResult => WorkerLeavesOthers(s, e, uri);
    case _ => EditLeavesOthers(s, e, uri);
  }

  // ---- Plugin results ----------------------------------------------------------------

  /** The main loop takes every waiting result. */
  function Drain(s: State): State
    decreases |s.plugins.results|
  {
    if |s.plugins.results| == 0 then s
    else Drain(Exec(s, TakeResult))
  }

  lemma TakeIsOfOne(s: State, uri: Uri)
    requires |s.plugins.results| > 0
    ensures var t := Exec(s, TakeResult);
      && t.documents == s.documents && t.config == s.config && t.generations == s.generations
      && t.plugins == s.plugins.(results := s.plugins.results[1..])
      && (s.plugins.results[0].uri != uri || s.plugins.results[0].batch.stamp.generation != Generation(s, uri) ==>
            (uri in t.diagnostics <==> uri in s.diagnostics) && (uri in s.diagnostics ==> t.diagnostics[uri] == s.diagnostics[uri]))
      && (s.plugins.results[0].uri == uri && s.plugins.results[0].batch.stamp.generation == Generation(s, uri)
          && uri in s.documents && uri in s.diagnostics ==>
            uri in t.diagnostics && t.diagnostics[uri] == s.diagnostics[uri] + [s.plugins.results[0].batch])
  {}

  // No waiting result is about the current lint of the document.
  ghost predicate NoneWaits(s: State, uri: Uri) {
    forall k :: 0 <= k < |s.plugins.results| && s.plugins.results[k].uri == uri ==>
      s.plugins.results[k].batch.stamp.generation != Generation(s, uri)
  }

  lemma {:induction false} DrainLeaves(s: State, uri: Uri)
    requires NoneWaits(s, uri) && uri in s.diagnostics
    ensures uri in Drain(s).diagnostics && Drain(s).diagnostics[uri] == s.diagnostics[uri]
    decreases |s.plugins.results|
  {
    if |s.plugins.results| > 0 {
      TakeIsOfOne(s, uri);
      hide Exec;
      DrainLeaves(Exec(s, TakeResult), uri);
    }
  }

  lemma {:induction false} DrainShows(s: State, uri: Uri, k: nat)
    requires Unique(s.plugins) && uri in s.documents && uri in s.diagnostics
    requires k < |s.plugins.results| && s.plugins.results[k].uri == uri
      && s.plugins.results[k].batch.stamp.generation == Generation(s, uri)
    ensures uri in Drain(s).diagnostics && Drain(s).diagnostics[uri] == s.diagnostics[uri] + [s.plugins.results[k].batch]
    decreases |s.plugins.results|
  {
    TakeIsOfOne(s, uri);
    var t := Exec(s, TakeResult);
    TakeKeepsUnique(s.plugins);
    hide Exec;
    if k == 0 {
      assert NoneWaits(t, uri) by {
        forall i | 0 <= i < |t.plugins.results| && t.plugins.results[i].uri == uri
          ensures t.plugins.results[i].batch.stamp.generation != Generation(t, uri)
        {
          assert !Same(s.plugins.results[0].uri, s.plugins.results[0].batch.stamp, s.plugins.results[i + 1].uri, s.plugins.results[i + 1].batch.stamp);
        }
      }
      DrainLeaves(t, uri);
    } else {
      assert !Same(s.plugins.results[0].uri, s.plugins.results[0].batch.stamp, s.plugins.results[k].uri, s.plugins.results[k].batch.stamp);
      hide Unique;
      DrainShows(t, uri, k - 1);
    }
  }

  lemma TakeKeepsUnique(p: Plugins)
    requires Unique(p) && |p.results| > 0
    ensures Unique(p.(results := p.results[1..]))
  {
    var q := p.(results := p.results[1..]);
    assert forall k :: 0 <= k < |q.results| ==> q.results[k] == p.results[k + 1];
    assert forall j :: Running(q, j) ==> Running(p, j);
  }

  /** The messages a worker of the current lint delivers are shown behind their
      baseline as soon as the main loop has taken the waiting results, whatever
      else waits with them. */
  lemma DeliveredMessagesAreShown(events: seq<Event>, s: State, id: nat, messages: Messages)
    requires Reached(events, s) && Running(s.plugins, id)
    requires var w := s.plugins.workers[id]; w.uri in s.documents && w.stamp.generation == Generation(s, w.uri)
    ensures var uri, stamp := s.plugins.workers[id].uri, s.plugins.workers[id].stamp;
      var t := Exec(s, WorkerReturns(id, Some(messages)));
      && stamp == CurrentStamp(s, uri) && uri in s.diagnostics && |s.diagnostics[uri]| == 1
      && t.plugins.results == s.plugins.results + [Result(uri, Batch(Enrichment, stamp, messages))]
      && uri in Drain(t).diagnostics
      && Drain(t).diagnostics[uri] == s.diagnostics[uri] + [Batch(Enrichment, stamp, messages)]
  {
    var e := WorkerReturns(id, Some(messages));
    ReachedHasInv(events, s);
    OneMore(events, s, e);
    var t := Exec(s, e);
    ReachedHasInv(events + [e], t);
    var w := s.plugins.workers[id];
    assert Mergeable(s, w.uri, w.stamp);
    assert t.plugins.results == s.plugins.results + [Result(w.uri, Batch(Enrichment, w.stamp, messages))];
    assert Unique(t.plugins);
    hide Inv, After, Unique;
    DrainShows(t, w.uri, |s.plugins.results|);
  }
}
