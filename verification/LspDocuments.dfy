/** The language server's document bookkeeping as a serialized main loop plus
    asynchronous plugin workers: what each notification, refresh, config commit
    and late result does to the stored diagnostics. */
module LspDocuments {
  import opened Wrappers

  /** A document name, and whether the linter supports that kind of file. */
  datatype Uri = Uri(path: string, lintable: bool)

  type Text = string
  type Config = string
  type Messages = seq<string>

  /** What a lint was made from: the open text (None is the file on disk), the
      committed config transaction and the document's generation. */
  datatype Stamp = Stamp(text: Option<Text>, config: Config, generation: nat)

  datatype Producer = Baseline | Enrichment

  datatype Batch = Batch(producer: Producer, stamp: Stamp, messages: Messages)

  /** A plugin result on its way to the main loop. */
  datatype Result = Result(uri: Uri, batch: Batch)

  /** A plugin goroutine. It runs until it sent its result or dropped it, and
      leaves the registry after that. */
  datatype Worker = Worker(uri: Uri, stamp: Stamp, running: bool)

  datatype Plugins = Plugins(workers: map<nat, Worker>, inflight: map<Uri, nat>, results: seq<Result>, spawned: nat)

  datatype State = State(
    session: bool,
    config: Config,
    documents: map<Uri, Text>,
    generations: map<Uri, nat>,
    diagnostics: map<Uri, seq<Batch>>,
    pending: set<Uri>,
    plugins: Plugins)

  const INITIAL: State := State(false, "", map[], map[], map[], {}, Plugins(map[], map[], [], 0))

  function Generation(s: State, uri: Uri): nat {
    if uri in s.generations then s.generations[uri] else 0
  }

  function CurrentStamp(s: State, uri: Uri): Stamp {
    Stamp(if uri in s.documents then Some(s.documents[uri]) else None, s.config, Generation(s, uri))
  }

  /** How a native lint ends: the config boundary is unavailable, an error, or a
      baseline, with or without plugin work left over. */
  datatype Outcome = Unavailable | Failed | Linted(messages: Messages, pluginWork: bool)

  /** What the environment decides during one lint: whether a worker that is
      being cancelled still delivers, and how the native lint ends. */
  datatype Chance = Chance(late: Option<Messages>, outcome: Outcome)

  // ---- The steps -------------------------------------------------------------

  function Finish(p: Plugins, id: nat, delivered: Option<Messages>): Plugins
    requires id in p.workers
  {
    var w := p.workers[id];
    if w.running && delivered.Some?
    then p.(results := p.results + [Result(w.uri, Batch(Enrichment, w.stamp, delivered.value))])
    else p
  }

  /** cancelInflightPluginDispatch: unregister, cancel and wait for the worker. */
  function Cancel(p: Plugins, uri: Uri, late: Option<Messages>): Plugins {
    if uri in p.inflight && p.inflight[uri] in p.workers then
      var id := p.inflight[uri];
      Finish(p, id, late).(workers := p.workers - {id}, inflight := p.inflight - {uri})
    else p.(inflight := p.inflight - {uri})
  }

  /** Every handler that changes what a document's diagnostics should be starts
      with this: a new generation and no worker left for the old one. */
  function Supersede(s: State, uri: Uri, late: Option<Messages>): State {
    s.(generations := s.generations[uri := Generation(s, uri) + 1], plugins := Cancel(s.plugins, uri, late))
  }

  function Spawn(p: Plugins, uri: Uri, stamp: Stamp): Plugins {
    p.(workers := p.workers[p.spawned := Worker(uri, stamp, true)],
       inflight := p.inflight[uri := p.spawned],
       spawned := p.spawned + 1)
  }

  function Push(s: State, uri: Uri, chance: Chance): State {
    if !s.session || !uri.lintable then s
    else
      var t := Supersede(s, uri, chance.late);
      match chance.outcome
      case Unavailable => t.(diagnostics := t.diagnostics - {uri})
      case Failed => t.(diagnostics := t.diagnostics - {uri})
      case Linted(messages, pluginWork) =>
        var stamp := CurrentStamp(t, uri);
        t.(diagnostics := t.diagnostics[uri := [Batch(Baseline, stamp, messages)]],
           plugins := if pluginWork then Spawn(t.plugins, uri, stamp) else t.plugins)
  }

  function PushAll(s: State, order: seq<Uri>, chances: Uri -> Chance): State
    decreases |order|
  {
    if |order| == 0 then s
    else
      var last := order[|order| - 1];
      Push(PushAll(s, order[..|order| - 1], chances), last, chances(last))
  }

  function Forget(s: State, uri: Uri, late: Option<Messages>): State {
    var t := Supersede(s, uri, late);
    t.(diagnostics := t.diagnostics - {uri})
  }

  function ForgetAll(s: State, order: seq<Uri>, chances: Uri -> Chance): State
    decreases |order|
  {
    if |order| == 0 then s
    else
      var last := order[|order| - 1];
      Forget(ForgetAll(s, order[..|order| - 1], chances), last, chances(last).late)
  }

  /** mergePluginDiagnostics. */
  function Merge(s: State, r: Result): State {
    if Generation(s, r.uri) != r.batch.stamp.generation || r.uri !in s.documents then s
    else
      var stored := if r.uri in s.diagnostics then s.diagnostics[r.uri] else [];
      s.(diagnostics := s.diagnostics[r.uri := stored + [r.batch]])
  }

  function Opened(s: State, uri: Uri, text: Text, chance: Chance): State {
    Push(s.(documents := s.documents[uri := text]), uri, chance)
  }

  function Changed(s: State, uri: Uri, text: Option<Text>, late: Option<Messages>): State {
    if text.None? then s
    else
      var t := Forget(s.(documents := s.documents[uri := text.value]), uri, late);
      if t.session then t.(pending := t.pending + {uri}) else t
  }

  function Saved(s: State, uri: Uri, chance: Chance): State {
    Push(s.(pending := s.pending - {uri}), uri, chance)
  }

  function Closed(s: State, uri: Uri, late: Option<Messages>): State {
    Forget(s.(documents := s.documents - {uri}, pending := s.pending - {uri}), uri, late)
  }

  function WorkerDone(s: State, id: nat, delivered: Option<Messages>): State
    requires id in s.plugins.workers
  {
    var p := Finish(s.plugins, id, delivered);
    s.(plugins := p.(workers := p.workers[id := p.workers[id].(running := false)]))
  }

  function WorkerGone(s: State, id: nat): State
    requires id in s.plugins.workers
  {
    var w := s.plugins.workers[id];
    var registered := w.uri in s.plugins.inflight && s.plugins.inflight[w.uri] == id;
    s.(plugins := s.plugins.(
       workers := s.plugins.workers - {id},
       inflight := if registered then s.plugins.inflight - {w.uri} else s.plugins.inflight))
  }

  /** One turn of the main loop, or one step of a worker. A lint reads the
      document overlay and the committed config at the moment it starts. */
  datatype Event =
    | Initialize
    | DidOpen(uri: Uri, text: Text, chance: Chance)
    | DidChange(uri: Uri, newText: Option<Text>, late: Option<Messages>)
    | DidSave(uri: Uri, chance: Chance)
    | DidClose(uri: Uri, late: Option<Messages>)
    | Refresh(order: seq<Uri>, chances: Uri -> Chance)
    | Debounce(order: seq<Uri>, chances: Uri -> Chance)
    | Invalidate(order: seq<Uri>, chances: Uri -> Chance)
    | CommitConfig(config: Config, order: seq<Uri>, chances: Uri -> Chance)
    | WorkerReturns(id: nat, delivered: Option<Messages>)
    | WorkerExits(id: nat)
    | TakeResult

  /** `order` visits every element of `keys` once, as a map iteration does. */
  ghost predicate Enumerates(order: seq<Uri>, keys: set<Uri>) {
    && (forall i :: 0 <= i < |order| ==> order[i] in keys)
    && (forall uri :: uri in keys ==> uri in order)
    && (forall i, j :: 0 <= i < j < |order| ==> order[i] != order[j])
  }

  ghost predicate Enabled(s: State, e: Event) {
    match e
    case Refresh(order, _) => Enumerates(order, s.documents.Keys)
    case Debounce(order, _) => Enumerates(order, s.pending)
    case Invalidate(order, _) => Enumerates(order, s.documents.Keys)
    case CommitConfig(_, order, _) => Enumerates(order, s.documents.Keys)
    case WorkerReturns(id, _) => id in s.plugins.workers && s.plugins.workers[id].running
    case WorkerExits(id) => id in s.plugins.workers && !s.plugins.workers[id].running
    case TakeResult => |s.plugins.results| > 0
    case _ => true
  }

  function Exec(s: State, e: Event): State
    requires e.WorkerReturns? || e.WorkerExits? ==> e.id in s.plugins.workers
    requires e.TakeResult? ==> |s.plugins.results| > 0
  {
    match e
    case Initialize => s.(session := true)
    case DidOpen(uri, text, chance) => Opened(s, uri, text, chance)
    case DidChange(uri, text, late) => Changed(s, uri, text, late)
    case DidSave(uri, chance) => Saved(s, uri, chance)
    case DidClose(uri, late) => Closed(s, uri, late)
    case Refresh(order, chances) => PushAll(s, order, chances)
    case Debounce(order, chances) => PushAll(s, order, chances).(pending := {})
    case Invalidate(order, chances) => ForgetAll(s, order, chances)
    case CommitConfig(config, order, chances) => ForgetAll(s, order, chances).(config := config)
    case WorkerReturns(id, delivered) => WorkerDone(s, id, delivered)
    case WorkerExits(id) => WorkerGone(s, id)
    case TakeResult =>
      Merge(s.(plugins := s.plugins.(results := s.plugins.results[1..])), s.plugins.results[0])
  }
}
