/** The language server's handlers, field by field, proved to be the steps of
    `LspDocuments`. */
module LspServer {
  import opened Wrappers
  import opened LspDocuments
  import opened LspFreshness

  class Server {
    var session: bool
    var config: Config
    var documents: map<Uri, Text>
    var docGeneration: map<Uri, nat>
    var diagnostics: map<Uri, seq<Batch>>
    var pendingLintURIs: set<Uri>
    var workers: map<nat, Worker>
    var inflightPluginDispatch: map<Uri, nat>
    var pluginResults: seq<Result>
    var spawned: nat

    ghost function Model(): State
      reads this
    {
      State(session, config, documents, docGeneration, diagnostics, pendingLintURIs,
            Plugins(workers, inflightPluginDispatch, pluginResults, spawned))
    }

    constructor ()
      ensures Model() == INITIAL
    {
      session, config, documents, docGeneration, diagnostics, pendingLintURIs := false, "", map[], map[], map[], {};
      workers, inflightPluginDispatch, pluginResults, spawned := map[], map[], [], 0;
    }

    method BumpGeneration(uri: Uri)
      modifies this`docGeneration
      ensures docGeneration == old(docGeneration)[uri := Generation(old(Model()), uri) + 1]
    {
      var current := if uri in docGeneration then docGeneration[uri] else 0;
      docGeneration := docGeneration[uri := current + 1];
    }

    /** The goroutine's last act before it leaves: send the result, unless it was
        cancelled or failed. */
    method Deliver(id: nat, delivered: Option<Messages>)
      requires id in workers
      modifies this`pluginResults
      ensures Model().plugins == Finish(old(Model()).plugins, id, delivered)
    {
      var worker := workers[id];
      if worker.running && delivered.Some? {
        pluginResults := pluginResults + [Result(worker.uri, Batch(Enrichment, worker.stamp, delivered.value))];
      }
    }

    method CancelInflightPluginDispatch(uri: Uri, late: Option<Messages>)
      modifies this`inflightPluginDispatch, this`workers, this`pluginResults
      ensures Model() == old(Model()).(plugins := Cancel(old(Model()).plugins, uri, late))
    {
      if uri in inflightPluginDispatch {
        var id := inflightPluginDispatch[uri];
        inflightPluginDispatch := inflightPluginDispatch - {uri};
        if id in workers {
          Deliver(id, late);
          workers := workers - {id};
        }
      } else {
        assert inflightPluginDispatch - {uri} == inflightPluginDispatch;
      }
    }

    method ClearInflightPluginDispatch(id: nat)
      requires id in workers && !workers[id].running
      modifies this`inflightPluginDispatch, this`workers
      ensures Model() == WorkerGone(old(Model()), id)
    {
      var uri := workers[id].uri;
      if uri in inflightPluginDispatch && inflightPluginDispatch[uri] == id {
        inflightPluginDispatch := inflightPluginDispatch - {uri};
      }
      workers := workers - {id};
    }

    method StartDiagnosticEnrichment(uri: Uri, stamp: Stamp)
      modifies this`workers, this`inflightPluginDispatch, this`spawned
      ensures Model() == old(Model()).(plugins := Spawn(old(Model()).plugins, uri, stamp))
    {
      workers := workers[spawned := Worker(uri, stamp, true)];
      inflightPluginDispatch := inflightPluginDispatch[uri := spawned];
      spawned := spawned + 1;
    }

    method PublishBaseline(uri: Uri, batch: Batch)
      modifies this`diagnostics
      ensures diagnostics == old(diagnostics)[uri := [batch]]
    {
      diagnostics := diagnostics[uri := [batch]];
    }

    method PushDiagnostics(uri: Uri, chance: Chance)
      modifies this
      ensures Model() == Push(old(Model()), uri, chance)
    {
      if !session || !uri.lintable {
        return;
      }
      BumpGeneration(uri);
      CancelInflightPluginDispatch(uri, chance.late);
      match chance.outcome {
        case Unavailable => diagnostics := diagnostics - {uri};
        case Failed => diagnostics := diagnostics - {uri};
        case Linted(messages, pluginWork) =>
          var text := if uri in documents then Some(documents[uri]) else None;
          var stamp := Stamp(text, config, docGeneration[uri]);
          PublishBaseline(uri, Batch(Baseline, stamp, messages));
          if pluginWork {
            StartDiagnosticEnrichment(uri, stamp);
          }
      }
    }

    method DropDiagnostics(uri: Uri, late: Option<Messages>)
      modifies this
      ensures Model() == Forget(old(Model()), uri, late)
    {
      BumpGeneration(uri);
      CancelInflightPluginDispatch(uri, late);
      diagnostics := diagnostics - {uri};
    }

    method InvalidateOpenDocumentDiagnostics(order: seq<Uri>, chances: Uri -> Chance)
      modifies this
      ensures Model() == ForgetAll(old(Model()), order, chances)
    {
      for i := 0 to |order|
        invariant Model() == ForgetAll(old(Model()), order[..i], chances)
      {
        assert order[..i + 1][..i] == order[..i];
        DropDiagnostics(order[i], chances(order[i]).late);
      }
      assert order[..|order|] == order;
    }

    method RelintAll(order: seq<Uri>, chances: Uri -> Chance)
      modifies this
      ensures Model() == PushAll(old(Model()), order, chances)
    {
      for i := 0 to |order|
        invariant Model() == PushAll(old(Model()), order[..i], chances)
      {
        assert order[..i + 1][..i] == order[..i];
        PushDiagnostics(order[i], chances(order[i]));
      }
      assert order[..|order|] == order;
    }

    method HandleDidOpen(uri: Uri, text: Text, chance: Chance)
      modifies this
      ensures Model() == Opened(old(Model()), uri, text, chance)
    {
      documents := documents[uri := text];
      if session {
        PushDiagnostics(uri, chance);
      }
    }

    method HandleDidChange(uri: Uri, newText: Option<Text>, late: Option<Messages>)
      modifies this
      ensures Model() == Changed(old(Model()), uri, newText, late)
    {
      if newText.None? {
        return;
      }
      documents := documents[uri := newText.value];
      DropDiagnostics(uri, late);
      if session {
        pendingLintURIs := pendingLintURIs + {uri};
      }
    }

    /** The saved text only decides whether the save is forwarded; it never
        replaces the document mirror. */
    method HandleDidSave(uri: Uri, savedText: Option<Text>, chance: Chance) returns (forwarded: bool)
      modifies this
      ensures Model() == Saved(old(Model()), uri, chance) && documents == old(documents)
      ensures !forwarded <==> savedText.Some? && uri in documents && documents[uri] != savedText.value
    {
      forwarded := savedText.None? || uri !in documents || documents[uri] == savedText.value;
      pendingLintURIs := pendingLintURIs - {uri};
      if session {
        PushDiagnostics(uri, chance);
      }
    }

    method HandleDidClose(uri: Uri, late: Option<Messages>)
      modifies this
      ensures Model() == Closed(old(Model()), uri, late)
    {
      documents := documents - {uri};
      diagnostics := diagnostics - {uri};
      pendingLintURIs := pendingLintURIs - {uri};
      BumpGeneration(uri);
      CancelInflightPluginDispatch(uri, late);
    }

    method MergePluginDiagnostics(r: Result)
      modifies this`diagnostics
      ensures Model() == Merge(old(Model()), r)
    {
      var generation := if r.uri in docGeneration then docGeneration[r.uri] else 0;
      if generation != r.batch.stamp.generation {
        return;
      }
      if r.uri !in documents {
        return;
      }
      var merged := (if r.uri in diagnostics then diagnostics[r.uri] else []) + [r.batch];
      diagnostics := diagnostics[r.uri := merged];
    }

    /** One turn of the dispatch loop, or one step of a worker; it keeps every
        open document's diagnostics fresh. */
    method Dispatch(e: Event)
      requires Enabled(Model(), e)
      modifies this
      ensures Model() == Exec(old(Model()), e)
      ensures Inv(old(Model())) ==> Inv(Model())
    {
      hide Inv;
      if Inv(Model()) {
        StepKeepsInv(Model(), e);
      }
      match e {
        case Initialize => session := true;
        case DidOpen(uri, text, chance) => HandleDidOpen(uri, text, chance);
        case DidChange(uri, newText, late) => HandleDidChange(uri, newText, late);
        case DidSave(uri, chance) => var _ := HandleDidSave(uri, None, chance);
        case DidClose(uri, late) => HandleDidClose(uri, late);
        case Refresh(order, chances) => RelintAll(order, chances);
        case Debounce(order, chances) =>
          RelintAll(order, chances);
          pendingLintURIs := {};
        case Invalidate(order, chances) => InvalidateOpenDocumentDiagnostics(order, chances);
        case CommitConfig(next, order, chances) =>
          InvalidateOpenDocumentDiagnostics(order, chances);
          config := next;
        case WorkerReturns(id, delivered) =>
          Deliver(id, delivered);
          workers := workers[id := workers[id].(running := false)];
        case WorkerExits(id) => ClearInflightPluginDispatch(id);
        case TakeResult =>
          var r := pluginResults[0];
          pluginResults := pluginResults[1..];
          MergePluginDiagnostics(r);
      }
    }
  }
}
