/** The search that gives every external symbol its shortest name: depth first
    over a possibly cyclic graph, expanding a symbol again whenever a preferred
    name for it turns up. */
module ExternalSymbols {
  import opened Wrappers
  import opened Bytes
  import opened ExternalNames

  type Symbol = nat

  const GLOBAL: Name := [103, 108, 111, 98, 97, 108]
  const GLOBAL_THIS: Name := [103, 108, 111, 98, 97, 108, 84, 104, 105, 115]

  datatype Property = Property(name: Name, target: Symbol)

  /** The value symbols of a program: what each one's type offers as members,
      and which symbols are aliases of others. */
  datatype Graph = Graph(symbols: set<Symbol>, properties: map<Symbol, seq<Property>>, aliases: map<Symbol, Symbol>) {
    ghost predicate Valid() {
      && properties.Keys == symbols
      && aliases.Values <= symbols
      && forall s, i :: s in symbols && 0 <= i < |properties[s]| ==> properties[s][i].target in symbols
    }

    function Resolve(s: Symbol): Symbol {
      if s in aliases then aliases[s] else s
    }
  }

  datatype Root = Root(namespace: Name, name: Name, symbol: Symbol)

  datatype Key = Key(namespace: Name, symbol: Symbol)

  datatype ExternalSymbol = ExternalSymbol(symbol: Symbol, namespace: Name, name: Name)

  predicate Skipped(name: Name) {
    |name| == 0 || name[0] == INTERNAL_PREFIX
  }

  /** The symbol a path leads to and the name it spells: the first step picks a
      root, every further step a member of the symbol reached so far. */
  function PathName(g: Graph, roots: seq<Root>, path: seq<nat>): (r: Option<ExternalSymbol>)
    requires g.Valid()
    ensures r.Some? ==> !Skipped(r.value.name)
    decreases |path|
  {
    if |path| == 0 then None
    else if |path| == 1 then
      if path[0] >= |roots| || Skipped(roots[path[0]].name) then None
      else
        var root := roots[path[0]];
        Some(ExternalSymbol(g.Resolve(root.symbol), root.namespace, root.name))
    else
      var owner := PathName(g, roots, path[..|path| - 1]);
      var step := path[|path| - 1];
      if owner.None? || owner.value.symbol !in g.symbols || step >= |g.properties[owner.value.symbol]| then None
      else
        var member := g.properties[owner.value.symbol][step];
        Some(ExternalSymbol(g.Resolve(member.target), owner.value.namespace, Join(owner.value.name, member.name)))
  }

  type Labels = map<Key, Name>

  // The name is spelled by some path.
  ghost predicate Spelled(g: Graph, roots: seq<Root>, key: Key, name: Name)
    requires g.Valid()
  {
    exists path :: PathName(g, roots, path) == Some(ExternalSymbol(key.symbol, key.namespace, name))
  }

  /** Continuing at the global object while no name preferred to its own leads there. */
  ghost predicate Stuck(g: Graph, roots: seq<Root>, anchor: Option<Symbol>, path: seq<nat>)
    requires g.Valid()
  {
    && anchor.Some? && PathName(g, roots, path).Some?
    && var owner := PathName(g, roots, path).value;
       owner.namespace == GLOBAL && owner.symbol == anchor.value && !Prefer(owner.name, GLOBAL_THIS)
  }

  /** A path the search may follow: the global object is named without being
      expanded, so no path continues there under a name no better than its own. */
  ghost predicate Walked(g: Graph, roots: seq<Root>, anchor: Option<Symbol>, path: seq<nat>)
    requires g.Valid()
  {
    forall n :: 1 <= n < |path| ==> !Stuck(g, roots, anchor, path[..n])
  }

  ghost predicate WalkedName(g: Graph, roots: seq<Root>, anchor: Option<Symbol>, key: Key, name: Name)
    requires g.Valid()
  {
    exists path :: Walked(g, roots, anchor, path)
      && PathName(g, roots, path) == Some(ExternalSymbol(key.symbol, key.namespace, name))
  }

  /** The least of all names that paths spell for a symbol within a namespace. */
  ghost predicate IsLeastName(g: Graph, roots: seq<Root>, key: Key, name: Name)
    requires g.Valid()
  {
    && Spelled(g, roots, key, name)
    && forall other :: Spelled(g, roots, key, other) ==> AtMost(name, other)
  }

  ghost predicate Labelled(labels: Labels, key: Key, name: Name) {
    key in labels && AtMost(labels[key], name)
  }

  // Every member of a labelled symbol has a label no worse than through it.
  ghost predicate Closed(g: Graph, labels: Labels, key: Key)
    requires g.Valid() && key in labels
  {
    && key.symbol in g.symbols
    && forall i :: 0 <= i < |g.properties[key.symbol]| ==>
         var member := g.properties[key.symbol][i];
         Labelled(labels, Key(key.namespace, g.Resolve(member.target)), Join(labels[key], member.name))
  }

  ghost predicate ClosedExcept(g: Graph, labels: Labels, open: set<Key>)
    requires g.Valid()
  {
    forall key :: key in labels && key !in open ==> Closed(g, labels, key)
  }

  ghost predicate Sound(g: Graph, roots: seq<Root>, labels: Labels)
    requires g.Valid()
  {
    forall key :: key in labels ==> Spelled(g, roots, key, labels[key])
  }

  ghost predicate WalkSound(g: Graph, roots: seq<Root>, anchor: Option<Symbol>, labels: Labels)
    requires g.Valid()
  {
    forall key :: key in labels ==> WalkedName(g, roots, anchor, key, labels[key])
  }

  lemma WalkSoundIsSound(g: Graph, roots: seq<Root>, anchor: Option<Symbol>, labels: Labels)
    requires g.Valid() && WalkSound(g, roots, anchor, labels)
    ensures Sound(g, roots, labels)
  {
    hide PathName, Walked;
  }

  ghost predicate RootsLabelled(g: Graph, roots: seq<Root>, labels: Labels) {
    forall i :: 0 <= i < |roots| && !Skipped(roots[i].name) ==>
      Labelled(labels, Key(roots[i].namespace, g.Resolve(roots[i].symbol)), roots[i].name)
  }

  /** Closed labels bound the name of every path, cyclic ones included. */
  lemma {:induction false} LabelsBoundPaths(g: Graph, roots: seq<Root>, labels: Labels, path: seq<nat>)
    requires g.Valid() && ClosedExcept(g, labels, {}) && RootsLabelled(g, roots, labels) && Sound(g, roots, labels)
    requires PathName(g, roots, path).Some?
    ensures
      var end := PathName(g, roots, path).value;
      Labelled(labels, Key(end.namespace, end.symbol), end.name)
    decreases |path|
  {
    if |path| > 1 {
      var ownerPath := path[..|path| - 1];
      LabelsBoundPaths(g, roots, labels, ownerPath);
      var owner := PathName(g, roots, ownerPath).value;
      var key := Key(owner.namespace, owner.symbol);
      assert Closed(g, labels, key);
      var member := g.properties[owner.symbol][path[|path| - 1]];
      assert Spelled(g, roots, key, labels[key]);
      PreferExtends(labels[key], owner.name, member.name);
      AtMostTransitive(labels[Key(owner.namespace, g.Resolve(member.target))],
                       Join(labels[key], member.name), Join(owner.name, member.name));
    }
  }

  /** So at the end each label is the least name, and every symbol a path leads to has one. */
  lemma ClosedLabelsAreLeast(g: Graph, roots: seq<Root>, labels: Labels)
    requires g.Valid() && ClosedExcept(g, labels, {}) && RootsLabelled(g, roots, labels) && Sound(g, roots, labels)
    ensures forall key :: key in labels ==> IsLeastName(g, roots, key, labels[key])
    ensures forall key, name :: Spelled(g, roots, key, name) ==> key in labels
  {
    forall key, name | Spelled(g, roots, key, name) ensures Labelled(labels, key, name) {
      var path :| PathName(g, roots, path) == Some(ExternalSymbol(key.symbol, key.namespace, name));
      LabelsBoundPaths(g, roots, labels, path);
    }
  }

  // ---- The entry kept for each symbol --------------------------------------

  /** The global namespace first, then namespaces in byte order, then names. */
  predicate PreferSymbol(candidate: ExternalSymbol, current: ExternalSymbol) {
    if candidate.namespace != current.namespace then
      if candidate.namespace == GLOBAL then true
      else if current.namespace == GLOBAL then false
      else Less(candidate.namespace, current.namespace)
    else Prefer(candidate.name, current.name)
  }

  lemma PreferSymbolOrders(a: ExternalSymbol, b: ExternalSymbol)
    ensures !PreferSymbol(a, a) && !(PreferSymbol(a, b) && PreferSymbol(b, a))
    ensures a.symbol == b.symbol ==> a == b || PreferSymbol(a, b) || PreferSymbol(b, a)
  {
    LessIsTotal(a.namespace, b.namespace);
    PreferIsTotal(a.name, b.name);
  }

  lemma PreferSymbolTransitive(a: ExternalSymbol, b: ExternalSymbol, c: ExternalSymbol)
    requires PreferSymbol(a, b) && PreferSymbol(b, c)
    ensures PreferSymbol(a, c)
  {
    LessIsTotal(a.namespace, b.namespace);
    if a.namespace == b.namespace == c.namespace {
      PreferIsTransitive(a.name, b.name, c.name);
    } else if Less(a.namespace, b.namespace) && Less(b.namespace, c.namespace) {
      LessIsTransitive(a.namespace, b.namespace, c.namespace);
    }
  }

  // One entry per recorded symbol, found again through the index.
  ghost predicate Indexed(collected: map<Symbol, nat>, symbols: seq<ExternalSymbol>) {
    && (forall s :: s in collected ==> collected[s] < |symbols| && symbols[collected[s]].symbol == s)
    && (forall i :: 0 <= i < |symbols| ==> symbols[i].symbol in collected && collected[symbols[i].symbol] == i)
  }

  ghost predicate NoWorse(a: ExternalSymbol, b: ExternalSymbol) {
    a == b || PreferSymbol(a, b)
  }

  lemma NoWorseTransitive(a: ExternalSymbol, b: ExternalSymbol, c: ExternalSymbol)
    requires NoWorse(a, b) && NoWorse(b, c)
    ensures NoWorse(a, c)
  {
    if a != b && b != c {
      PreferSymbolTransitive(a, b, c);
    }
  }

  ghost function Labelling(labels: Labels, key: Key): ExternalSymbol
    requires key in labels
  {
    ExternalSymbol(key.symbol, key.namespace, labels[key])
  }

  /** The entry of a symbol is the best of its labels over all namespaces. */
  ghost predicate EntriesAreBest(labels: Labels, collected: map<Symbol, nat>, symbols: seq<ExternalSymbol>) {
    && Indexed(collected, symbols)
    && (forall key :: key in labels ==>
          key.symbol in collected && NoWorse(symbols[collected[key.symbol]], Labelling(labels, key)))
    && (forall s :: s in collected ==>
          var key := Key(symbols[collected[s]].namespace, s);
          key in labels && symbols[collected[s]] == Labelling(labels, key))
  }

  function RecordedIndex(collected: map<Symbol, nat>, symbols: seq<ExternalSymbol>, entry: ExternalSymbol): map<Symbol, nat> {
    if entry.symbol in collected then collected else collected[entry.symbol := |symbols|]
  }

  function RecordedSymbols(collected: map<Symbol, nat>, symbols: seq<ExternalSymbol>, entry: ExternalSymbol): seq<ExternalSymbol> {
    if entry.symbol !in collected then symbols + [entry]
    else if collected[entry.symbol] < |symbols| && PreferSymbol(entry, symbols[collected[entry.symbol]]) then
      symbols[collected[entry.symbol] := entry]
    else symbols
  }

  // A name that is not preferred to the symbol's label leaves the entry alone.
  lemma RecordIsIdle(labels: Labels, collected: map<Symbol, nat>, symbols: seq<ExternalSymbol>, entry: ExternalSymbol)
    requires EntriesAreBest(labels, collected, symbols)
    requires Labelled(labels, Key(entry.namespace, entry.symbol), entry.name)
    ensures RecordedIndex(collected, symbols, entry) == collected
    ensures RecordedSymbols(collected, symbols, entry) == symbols
  {
    var named := Labelling(labels, Key(entry.namespace, entry.symbol));
    var current := symbols[collected[entry.symbol]];
    NoWorseTransitive(current, named, entry);
    PreferSymbolOrders(entry, current);
  }

  /** Recording a preferred name and labelling with it keeps every entry the best. */
  lemma RecordKeepsBest(labels: Labels, collected: map<Symbol, nat>, symbols: seq<ExternalSymbol>, entry: ExternalSymbol)
    requires EntriesAreBest(labels, collected, symbols)
    requires var key := Key(entry.namespace, entry.symbol); key in labels ==> Prefer(entry.name, labels[key])
    ensures EntriesAreBest(labels[Key(entry.namespace, entry.symbol) := entry.name],
                           RecordedIndex(collected, symbols, entry), RecordedSymbols(collected, symbols, entry))
  {
    var key := Key(entry.namespace, entry.symbol);
    var labels' := labels[key := entry.name];
    var collected', symbols' := RecordedIndex(collected, symbols, entry), RecordedSymbols(collected, symbols, entry);
    assert Indexed(collected', symbols');
    assert Labelling(labels', key) == entry;
    hide PreferSymbol;
    if entry.symbol in collected {
      var current := symbols[collected[entry.symbol]];
      PreferSymbolOrders(entry, current);
      forall other | other in labels' && other.symbol == entry.symbol
        ensures NoWorse(symbols'[collected[entry.symbol]], Labelling(labels', other))
      {
        if other != key && PreferSymbol(entry, current) {
          NoWorseTransitive(entry, current, Labelling(labels, other));
        }
      }
    }
  }

  // ---- The search ----------------------------------------------------------

  // Labels are only ever replaced by preferred ones.
  ghost predicate Improves(now: Labels, before: Labels) {
    forall key :: key in before ==> Labelled(now, key, before[key])
  }

  lemma ImprovesTransitive(now: Labels, between: Labels, before: Labels)
    requires Improves(now, between) && Improves(between, before)
    ensures Improves(now, before)
  {
    forall key | key in before ensures Labelled(now, key, before[key]) {
      AtMostTransitive(now[key], between[key], before[key]);
    }
  }

  // Labelling a symbol opens that symbol and closes over everything else.
  lemma LabelOpens(g: Graph, labels: Labels, open: set<Key>, key: Key, name: Name)
    requires g.Valid() && ClosedExcept(g, labels, open)
    requires key in labels ==> Prefer(name, labels[key])
    ensures Improves(labels[key := name], labels)
    ensures ClosedExcept(g, labels[key := name], open + {key})
  {
    var labels' := labels[key := name];
    assert Improves(labels', labels);
    forall k | k in labels' && k !in open + {key} ensures Closed(g, labels', k) {
      assert Closed(g, labels, k);
      forall i | 0 <= i < |g.properties[k.symbol]|
        ensures var member := g.properties[k.symbol][i];
                Labelled(labels', Key(k.namespace, g.Resolve(member.target)), Join(labels'[k], member.name))
      {
        var member := g.properties[k.symbol][i];
        var child := Key(k.namespace, g.Resolve(member.target));
        AtMostTransitive(labels'[child], labels[child], Join(labels[k], member.name));
      }
    }
  }

  // The first `n` members of `symbol` have labels no worse than through `name`.
  ghost predicate MembersLabelled(g: Graph, labels: Labels, namespace: Name, symbol: Symbol, name: Name, n: nat)
    requires g.Valid() && symbol in g.symbols && n <= |g.properties[symbol]|
  {
    forall i :: 0 <= i < n ==>
      var member := g.properties[symbol][i];
      Labelled(labels, Key(namespace, g.Resolve(member.target)), Join(name, member.name))
  }

  lemma MembersStayLabelled(
    g: Graph, now: Labels, before: Labels, namespace: Name, symbol: Symbol, name: Name, n: nat)
    requires g.Valid() && symbol in g.symbols && n <= |g.properties[symbol]|
    requires MembersLabelled(g, before, namespace, symbol, name, n) && Improves(now, before)
    ensures MembersLabelled(g, now, namespace, symbol, name, n)
  {
    forall i | 0 <= i < n
      ensures var member := g.properties[symbol][i];
              Labelled(now, Key(namespace, g.Resolve(member.target)), Join(name, member.name))
    {
      var member := g.properties[symbol][i];
      var child := Key(namespace, g.Resolve(member.target));
      AtMostTransitive(now[child], before[child], Join(name, member.name));
    }
  }

  // Once all members are labelled the symbol is closed.
  lemma MembersClose(g: Graph, labels: Labels, open: set<Key>, key: Key)
    requires g.Valid() && key.symbol in g.symbols && key in labels
    requires ClosedExcept(g, labels, open + {key})
    requires MembersLabelled(g, labels, key.namespace, key.symbol, labels[key], |g.properties[key.symbol]|)
    ensures ClosedExcept(g, labels, open)
  {
    assert Closed(g, labels, key);
  }

  // The symbols in progress all have labels ahead of the name at hand.
  ghost predicate InProgress(labels: Labels, namespace: Name, stack: set<Symbol>, name: Name) {
    forall t :: t in stack ==> Key(namespace, t) in labels && Prefer(labels[Key(namespace, t)], name)
  }

  ghost predicate SameLabels(now: Labels, before: Labels, namespace: Name, stack: set<Symbol>) {
    forall t :: t in stack ==>
      Key(namespace, t) in now && Key(namespace, t) in before && now[Key(namespace, t)] == before[Key(namespace, t)]
  }

  lemma DeeperInProgress(labels: Labels, namespace: Name, stack: set<Symbol>, symbol: Symbol, name: Name, child: Name)
    requires |name| > 0 && InProgress(labels, namespace, stack, name)
    requires Key(namespace, symbol) in labels && labels[Key(namespace, symbol)] == name
    ensures InProgress(labels, namespace, stack + {symbol}, Join(name, child))
  {
    JoinIsLater(name, child);
    forall t | t in stack ensures Prefer(labels[Key(namespace, t)], Join(name, child)) {
      PreferIsTransitive(labels[Key(namespace, t)], name, Join(name, child));
    }
  }

  // A symbol in progress already has a label at least as good as the name at hand.
  lemma InProgressIsLabelled(labels: Labels, namespace: Name, stack: set<Symbol>, symbol: Symbol, name: Name)
    requires InProgress(labels, namespace, stack, name) && symbol in stack
    ensures Labelled(labels, Key(namespace, symbol), name)
  {
  }

  // Labelling a symbol that is not in progress leaves the ones in progress alone.
  lemma LabelKeepsInProgress(labels: Labels, namespace: Name, stack: set<Symbol>, symbol: Symbol, name: Name)
    requires InProgress(labels, namespace, stack, name) && symbol !in stack
    ensures InProgress(labels[Key(namespace, symbol) := name], namespace, stack, name)
    ensures SameLabels(labels[Key(namespace, symbol) := name], labels, namespace, stack)
  {
  }

  lemma InProgressIsSame(labels: Labels, namespace: Name, stack: set<Symbol>, name: Name)
    requires InProgress(labels, namespace, stack, name)
    ensures SameLabels(labels, labels, namespace, stack)
  {
  }

  lemma SameLabelsCompose(now: Labels, between: Labels, before: Labels, namespace: Name, stack: set<Symbol>, symbol: Symbol)
    requires SameLabels(now, between, namespace, stack + {symbol}) && SameLabels(between, before, namespace, stack)
    ensures SameLabels(now, before, namespace, stack)
    ensures Labelled(now, Key(namespace, symbol), between[Key(namespace, symbol)])
  {
    assert symbol in stack + {symbol};
  }

  /** The global object keeps a label at least as good as its own name; it stays
      unexpanded only under that very name. */
  ghost predicate Anchored(anchor: Option<Symbol>, pinned: set<Key>, labels: Labels) {
    && (anchor.Some? ==> Labelled(labels, Key(GLOBAL, anchor.value), GLOBAL_THIS))
    && (forall key :: key in pinned ==>
          anchor.Some? && key == Key(GLOBAL, anchor.value) && key in labels && labels[key] == GLOBAL_THIS)
  }

  lemma AnchorStays(anchor: Option<Symbol>, pinned: set<Key>, labels: Labels, key: Key, name: Name)
    requires Anchored(anchor, pinned, labels) && (key in labels ==> Prefer(name, labels[key]))
    ensures Anchored(anchor, pinned - {key}, labels[key := name])
  {
    if anchor.Some? && key == Key(GLOBAL, anchor.value) {
      AtMostTransitive(name, labels[key], GLOBAL_THIS);
    }
  }

  // What is expanded under the global object's key has a name preferred to its own.
  lemma ExpandedIsPreferred(anchor: Option<Symbol>, pinned: set<Key>, labels: Labels, key: Key, name: Name)
    requires Anchored(anchor, pinned, labels) && !Labelled(labels, key, name)
    requires anchor.Some? && key == Key(GLOBAL, anchor.value)
    ensures Prefer(name, GLOBAL_THIS)
  {
    PreferIsTotal(name, labels[key]);
    if labels[key] != GLOBAL_THIS {
      PreferIsTransitive(name, labels[key], GLOBAL_THIS);
    }
  }

  class Collector {
    const g: Graph
    var expanded: Labels
    var collected: map<Symbol, nat>
    var symbols: seq<ExternalSymbol>
    ghost var roots: seq<Root>
    ghost var anchor: Option<Symbol>
    ghost var pinned: set<Key>

    constructor (g: Graph)
      requires g.Valid()
      ensures this.g == g && roots == [] && expanded == map[] && symbols == [] && anchor == None && pinned == {}
      ensures Valid({})
    {
      this.g := g;
      expanded := map[];
      collected := map[];
      symbols := [];
      roots := [];
      anchor := None;
      pinned := {};
    }

    ghost predicate Valid(open: set<Key>)
      reads this
    {
      && g.Valid()
      && WalkSound(g, roots, anchor, expanded)
      && ClosedExcept(g, expanded, open + pinned)
      && EntriesAreBest(expanded, collected, symbols)
      && Anchored(anchor, pinned, expanded)
    }

    method Record(entry: ExternalSymbol)
      requires Indexed(collected, symbols)
      modifies `collected, `symbols
      ensures collected == RecordedIndex(old(collected), old(symbols), entry)
      ensures symbols == RecordedSymbols(old(collected), old(symbols), entry)
    {
      if entry.symbol in collected {
        var index := collected[entry.symbol];
        if PreferSymbol(entry, symbols[index]) {
          symbols := symbols[index := entry];
        }
      } else {
        collected := collected[entry.symbol := |symbols|];
        symbols := symbols + [entry];
      }
    }

    /** Records a name and labels the symbol with it unless its label is at least as good. */
    method LabelWith(entry: ExternalSymbol, ghost path: seq<nat>, ghost open: set<Key>) returns (expand: bool)
      requires Valid(open) && PathName(g, roots, path) == Some(entry) && Walked(g, roots, anchor, path)
      modifies `expanded, `collected, `symbols, `pinned
      ensures var key := Key(entry.namespace, entry.symbol);
        && expand == !Labelled(old(expanded), key, entry.name)
        && expanded == if expand then old(expanded)[key := entry.name] else old(expanded)
      ensures Valid(if expand then open + {Key(entry.namespace, entry.symbol)} else open)
      ensures pinned == if expand then old(pinned) - {Key(entry.namespace, entry.symbol)} else old(pinned)
      ensures Improves(expanded, old(expanded))
    {
      hide EntriesAreBest, PathName, Prefer, Closed, RecordedIndex, RecordedSymbols, Walked, Anchored;
      var key := Key(entry.namespace, entry.symbol);
      BestIsIndexed(expanded, collected, symbols);
      expand := key !in expanded || Prefer(entry.name, expanded[key]);
      if key in expanded {
        PreferIsTotal(entry.name, expanded[key]);
      }
      if expand {
        RecordKeepsBest(expanded, collected, symbols, entry);
        LabelOpens(g, expanded, open + pinned, key, entry.name);
        AnchorStays(anchor, pinned, expanded, key, entry.name);
        assert WalkedName(g, roots, anchor, key, entry.name);
      } else {
        RecordIsIdle(expanded, collected, symbols, entry);
      }
      Record(entry);
      if expand {
        assert open + pinned + {key} == open + {key} + (pinned - {key});
        expanded := expanded[key := entry.name];
        pinned := pinned - {key};
      }
    }

    /** One visit of the search. `path` is the path being followed, `stack` the
        symbols whose expansion is in progress, `open` the keys whose members are
        not all labelled yet. A symbol in progress is never expanded again, since
        every name on a path through it is behind its own: that bounds the depth
        of the recursion although symbols are revisited. */
    method Collect(
      namespace: Name, name: Name, symbol: Symbol,
      ghost path: seq<nat>, ghost stack: set<Symbol>, ghost open: set<Key>)
      requires Valid(open) && symbol in g.symbols && stack <= g.symbols
      requires !Skipped(name) ==>
        PathName(g, roots, path) == Some(ExternalSymbol(g.Resolve(symbol), namespace, name))
      requires !Skipped(name) ==> Walked(g, roots, anchor, path)
      requires InProgress(expanded, namespace, stack, name)
      modifies `expanded, `collected, `symbols, `pinned
      ensures Valid(open)
      ensures Improves(expanded, old(expanded)) && SameLabels(expanded, old(expanded), namespace, stack)
      ensures pinned <= old(pinned)
      ensures !Skipped(name) ==> Labelled(expanded, Key(namespace, g.Resolve(symbol)), name)
      decreases |g.symbols - stack|, 0
    {
      hide EntriesAreBest, PathName, Prefer, Closed, ClosedExcept, WalkSound, Walked, Anchored, Stuck, Improves, InProgress, SameLabels, Labelled;
      ImprovesReflexive(expanded);
      InProgressIsSame(expanded, namespace, stack, name);
      if Skipped(name) {
        return;
      }
      var target := if symbol in g.aliases then g.aliases[symbol] else symbol;
      ghost var before, unexpanded := expanded, pinned;
      var expand := LabelWith(ExternalSymbol(target, namespace, name), path, open);
      if !expand {
        return;
      }
      if anchor.Some? && Key(namespace, target) == Key(GLOBAL, anchor.value) {
        ExpandedIsPreferred(anchor, unexpanded, before, Key(namespace, target), name);
      }
      if target in stack {
        InProgressIsLabelled(before, namespace, stack, target, name);
      }
      LabelKeepsInProgress(before, namespace, stack, target, name);
      SmallerSet(g.symbols - (stack + {target}), g.symbols - stack);
      ghost var labels := expanded;
      CollectMembers(namespace, name, target, path, stack, open);
      ImprovesTransitive(expanded, labels, before);
      SameLabelsCompose(expanded, labels, before, namespace, stack, target);
    }

    /** Visits every member of a freshly labelled symbol, which closes it. */
    method CollectMembers(
      namespace: Name, name: Name, symbol: Symbol,
      ghost path: seq<nat>, ghost stack: set<Symbol>, ghost open: set<Key>)
      requires Valid(open + {Key(namespace, symbol)})
      requires symbol in g.symbols && stack <= g.symbols && !Skipped(name)
      requires Key(namespace, symbol) in expanded && expanded[Key(namespace, symbol)] == name
      requires PathName(g, roots, path) == Some(ExternalSymbol(symbol, namespace, name))
      requires Walked(g, roots, anchor, path) && Key(namespace, symbol) !in pinned
      requires anchor.Some? && Key(namespace, symbol) == Key(GLOBAL, anchor.value) ==> Prefer(name, GLOBAL_THIS)
      requires InProgress(expanded, namespace, stack, name)
      modifies `expanded, `collected, `symbols, `pinned
      ensures Valid(open)
      ensures Improves(expanded, old(expanded)) && SameLabels(expanded, old(expanded), namespace, stack + {symbol})
      ensures pinned <= old(pinned)
      decreases |g.symbols - (stack + {symbol})|, 1
    {
      hide EntriesAreBest, PathName, Prefer, Closed, ClosedExcept, WalkSound, Walked, Anchored, Stuck, Improves, MembersLabelled;
      ghost var key, inside := Key(namespace, symbol), stack + {symbol};
      ghost var start := expanded;
      var properties := g.properties[symbol];
      ImprovesReflexive(expanded);
      NoMembers(g, expanded, namespace, symbol, name);
      NotStuck(g, roots, anchor, path);
      for i := 0 to |properties|
        invariant Valid(open + {key}) && key !in pinned && pinned <= old(pinned)
        invariant Improves(expanded, start) && SameLabels(expanded, start, namespace, inside)
        invariant MembersLabelled(g, expanded, namespace, symbol, name, i)
      {
        var member := properties[i];
        ghost var before := expanded;
        MemberPath(g, roots, path, i);
        WalkOn(g, roots, anchor, path, i);
        assert InProgress(expanded, namespace, stack, name);
        DeeperInProgress(expanded, namespace, stack, symbol, name, member.name);
        Collect(namespace, Join(name, member.name), member.target, path + [i], inside, open + {key});
        ImprovesTransitive(expanded, before, start);
        MembersStayLabelled(g, expanded, before, namespace, symbol, name, i);
        OneMoreMember(g, expanded, namespace, symbol, name, i);
      }
      assert open + {key} + pinned == open + pinned + {key};
      MembersClose(g, expanded, open + pinned, key);
    }

    /** Searches from one more root. */
    method CollectRoot(root: Root, ghost open: set<Key>)
      requires Valid(open) && root.symbol in g.symbols && RootsLabelled(g, roots, expanded)
      modifies this
      ensures Valid(open) && roots == old(roots) + [root] && RootsLabelled(g, roots, expanded)
      ensures Improves(expanded, old(expanded)) && anchor == old(anchor)
    {
      hide EntriesAreBest, PathName, Prefer, Closed, ClosedExcept, Improves, WalkedName, Walked, Anchored, Stuck, Labelled, RootsLabelled;
      ghost var before, already := expanded, roots;
      forall key | key in expanded ensures WalkedName(g, roots + [root], anchor, key, expanded[key]) {
        MoreRoots(g, roots, root, anchor, key, expanded[key]);
      }
      roots := roots + [root];
      if !Skipped(root.name) {
        RootPath(g, roots, |roots| - 1);
      }
      OneStepIsWalked(g, roots, anchor, |roots| - 1);
      Collect(root.namespace, root.name, root.symbol, [|roots| - 1], {}, open);
      RootsStayLabelled(g, already, before, expanded, root);
    }

    /** The global object is named but not expanded; its members are roots of their own. */
    method CollectGlobals(globalThis: Symbol)
      requires Valid({}) && expanded == map[] && roots == []
      requires globalThis in g.symbols && globalThis !in g.aliases
      modifies this
      ensures roots == GlobalRoots(g, globalThis) && anchor == Some(globalThis)
      ensures Valid({}) && RootsLabelled(g, roots, expanded)
    {
      hide EntriesAreBest, PathName, Prefer, Closed, ClosedExcept, WalkedName, Walked, Stuck, RootsLabelled, Improves;
      var own := Root(GLOBAL, GLOBAL_THIS, globalThis);
      ghost var key := Key(GLOBAL, globalThis);
      roots := [own];
      RootPath(g, roots, 0);
      OneStepIsWalked(g, roots, anchor, 0);
      var _ := LabelWith(ExternalSymbol(globalThis, GLOBAL, GLOBAL_THIS), [0], {});
      OneStepIsWalked(g, roots, Some(globalThis), 0);
      OneStepNames(g, roots, Some(globalThis), 0);
      assert {key} + pinned == {} + {key};
      anchor, pinned := Some(globalThis), {key};
      assert Valid({});
      OnlyRoot(g, own, expanded);
      var properties := g.properties[globalThis];
      for i := 0 to |properties|
        invariant Valid({}) && RootsLabelled(g, roots, expanded) && anchor == Some(globalThis)
        invariant roots == [own] + MemberRoots(g, globalThis, i)
      {
        CollectRoot(Root(GLOBAL, properties[i].name, properties[i].target), {});
      }
    }

    method CollectDependencies(dependencies: seq<Root>, ghost open: set<Key>)
      requires Valid(open) && RootsLabelled(g, roots, expanded)
      requires forall i :: 0 <= i < |dependencies| ==> dependencies[i].symbol in g.symbols
      modifies this
      ensures Valid(open) && RootsLabelled(g, roots, expanded) && roots == old(roots) + dependencies && anchor == old(anchor)
    {
      hide EntriesAreBest, Closed, ClosedExcept, WalkSound, Anchored, RootsLabelled;
      for i := 0 to |dependencies|
        invariant Valid(open) && RootsLabelled(g, roots, expanded) && anchor == old(anchor)
        invariant roots == old(roots) + dependencies[..i]
      {
        CollectRoot(dependencies[i], open);
        assert dependencies[..i + 1] == dependencies[..i] + [dependencies[i]];
      }
      assert dependencies[..|dependencies|] == dependencies;
    }
  }

  function MemberRoots(g: Graph, owner: Symbol, n: nat): seq<Root>
    requires owner in g.properties && n <= |g.properties[owner]|
  {
    seq(n, i requires 0 <= i < n => Root(GLOBAL, g.properties[owner][i].name, g.properties[owner][i].target))
  }

  function GlobalRoots(g: Graph, globalThis: Symbol): seq<Root>
    requires globalThis in g.properties
  {
    [Root(GLOBAL, GLOBAL_THIS, globalThis)] + MemberRoots(g, globalThis, |g.properties[globalThis]|)
  }

  /** Every member of the global object that is skipped as a root of its own, for
      its internal name, is named as well by a path that does not continue at the
      global object. */
  ghost predicate SkippedMembersAreNamed(g: Graph, roots: seq<Root>, globalThis: Symbol)
    requires g.Valid() && globalThis in g.properties
  {
    forall i :: 0 <= i < |g.properties[globalThis]| && Skipped(g.properties[globalThis][i].name) ==>
      MemberIsNamed(g, roots, globalThis, g.properties[globalThis][i])
  }

  ghost predicate MemberIsNamed(g: Graph, roots: seq<Root>, globalThis: Symbol, member: Property)
    requires g.Valid()
  {
    exists name :: WalkedName(g, roots, Some(globalThis), Key(GLOBAL, g.Resolve(member.target)), name)
      && AtMost(name, Join(GLOBAL_THIS, member.name))
  }

  lemma RootPath(g: Graph, roots: seq<Root>, i: nat)
    requires g.Valid() && i < |roots| && !Skipped(roots[i].name)
    ensures PathName(g, roots, [i]) ==
            Some(ExternalSymbol(g.Resolve(roots[i].symbol), roots[i].namespace, roots[i].name))
  {
  }

  lemma OneStepIsWalked(g: Graph, roots: seq<Root>, anchor: Option<Symbol>, i: nat)
    requires g.Valid()
    ensures Walked(g, roots, anchor, [i])
  {}

  lemma OneStepNames(g: Graph, roots: seq<Root>, anchor: Option<Symbol>, i: nat)
    requires g.Valid() && PathName(g, roots, [i]).Some?
    ensures var end := PathName(g, roots, [i]).value;
      WalkedName(g, roots, anchor, Key(end.namespace, end.symbol), end.name)
  {
    hide PathName;
    OneStepIsWalked(g, roots, anchor, i);
    var end := PathName(g, roots, [i]).value;
    assert PathName(g, roots, [i]) == Some(ExternalSymbol(end.symbol, end.namespace, end.name));
  }

  lemma NotStuck(g: Graph, roots: seq<Root>, anchor: Option<Symbol>, path: seq<nat>)
    requires g.Valid() && PathName(g, roots, path).Some?
    requires
      var end := PathName(g, roots, path).value;
      anchor.Some? && Key(end.namespace, end.symbol) == Key(GLOBAL, anchor.value) ==> Prefer(end.name, GLOBAL_THIS)
    ensures !Stuck(g, roots, anchor, path)
  {
    hide PathName, Prefer;
  }

  // A walk may go on from a symbol that is not the global object, or that was
  // reached by a name preferred to its own.
  lemma WalkOn(g: Graph, roots: seq<Root>, anchor: Option<Symbol>, path: seq<nat>, step: nat)
    requires g.Valid() && Walked(g, roots, anchor, path) && !Stuck(g, roots, anchor, path)
    ensures Walked(g, roots, anchor, path + [step])
  {
    hide Stuck;
    forall n | 1 <= n < |path| + 1 ensures !Stuck(g, roots, anchor, (path + [step])[..n]) {
      if n < |path| {
        assert (path + [step])[..n] == path[..n];
      } else {
        assert (path + [step])[..n] == path;
      }
    }
  }

  lemma MoreRoots(g: Graph, roots: seq<Root>, root: Root, anchor: Option<Symbol>, key: Key, name: Name)
    requires g.Valid() && WalkedName(g, roots, anchor, key, name)
    ensures WalkedName(g, roots + [root], anchor, key, name)
  {
    hide PathName;
    var path :| Walked(g, roots, anchor, path)
      && PathName(g, roots, path) == Some(ExternalSymbol(key.symbol, key.namespace, name));
    PathStays(g, roots, root, path);
    forall n | 1 <= n < |path| ensures !Stuck(g, roots + [root], anchor, path[..n]) {
      PrefixIsNamed(g, roots, path, n);
      PathStays(g, roots, root, path[..n]);
    }
    assert Walked(g, roots + [root], anchor, path);
  }

  lemma {:induction false} PrefixIsNamed(g: Graph, roots: seq<Root>, path: seq<nat>, n: nat)
    requires g.Valid() && PathName(g, roots, path).Some? && 1 <= n <= |path|
    ensures PathName(g, roots, path[..n]).Some?
    decreases |path|
  {
    if n < |path| {
      assert path[..|path| - 1][..n] == path[..n];
      PrefixIsNamed(g, roots, path[..|path| - 1], n);
    } else {
      assert path[..n] == path;
    }
  }

  lemma {:induction false} PathStays(g: Graph, roots: seq<Root>, root: Root, path: seq<nat>)
    requires g.Valid() && PathName(g, roots, path).Some?
    ensures PathName(g, roots + [root], path) == PathName(g, roots, path)
    decreases |path|
  {
    if |path| > 1 {
      PathStays(g, roots, root, path[..|path| - 1]);
    }
  }

  lemma OnlyRoot(g: Graph, root: Root, labels: Labels)
    requires Labelled(labels, Key(root.namespace, g.Resolve(root.symbol)), root.name)
    ensures RootsLabelled(g, [root], labels)
  {
  }

  lemma RootsStayLabelled(g: Graph, roots: seq<Root>, before: Labels, now: Labels, root: Root)
    requires RootsLabelled(g, roots, before) && Improves(now, before)
    requires !Skipped(root.name) ==> Labelled(now, Key(root.namespace, g.Resolve(root.symbol)), root.name)
    ensures RootsLabelled(g, roots + [root], now)
  {
    forall i | 0 <= i < |roots| && !Skipped(roots[i].name)
      ensures Labelled(now, Key(roots[i].namespace, g.Resolve(roots[i].symbol)), roots[i].name)
    {
      var key := Key(roots[i].namespace, g.Resolve(roots[i].symbol));
      AtMostTransitive(now[key], before[key], roots[i].name);
    }
  }

  /** Every walked path is bounded, whether or not the global object was expanded. */
  lemma {:induction false} LabelsBoundWalks(
    g: Graph, roots: seq<Root>, anchor: Option<Symbol>, pinned: set<Key>, labels: Labels, path: seq<nat>)
    requires g.Valid() && ClosedExcept(g, labels, pinned) && RootsLabelled(g, roots, labels) && Sound(g, roots, labels)
    requires Anchored(anchor, pinned, labels) && Walked(g, roots, anchor, path) && PathName(g, roots, path).Some?
    ensures
      var end := PathName(g, roots, path).value;
      Labelled(labels, Key(end.namespace, end.symbol), end.name)
    decreases |path|
  {
    if |path| > 1 {
      var ownerPath := path[..|path| - 1];
      assert forall n :: 1 <= n < |ownerPath| ==> ownerPath[..n] == path[..n];
      LabelsBoundWalks(g, roots, anchor, pinned, labels, ownerPath);
      var owner := PathName(g, roots, ownerPath).value;
      var key := Key(owner.namespace, owner.symbol);
      assert !Stuck(g, roots, anchor, ownerPath);
      PreferIsTotal(owner.name, labels[key]);
      assert key !in pinned;
      assert Closed(g, labels, key);
      var member := g.properties[owner.symbol][path[|path| - 1]];
      assert Spelled(g, roots, key, labels[key]);
      PreferExtends(labels[key], owner.name, member.name);
      AtMostTransitive(labels[Key(owner.namespace, g.Resolve(member.target))],
                       Join(labels[key], member.name), Join(owner.name, member.name));
    }
  }

  // A member of the global object is better named on its own than through it, and
  // a skipped one is by assumption.
  lemma GlobalMembersClose(g: Graph, globalThis: Symbol, roots: seq<Root>, pinned: set<Key>, labels: Labels)
    requires g.Valid() && globalThis in g.symbols && globalThis !in g.aliases
    requires GlobalRoots(g, globalThis) <= roots && RootsLabelled(g, roots, labels) && Sound(g, roots, labels)
    requires ClosedExcept(g, labels, pinned) && Anchored(Some(globalThis), pinned, labels)
    requires SkippedMembersAreNamed(g, roots, globalThis)
    ensures ClosedExcept(g, labels, {})
  {
    hide PathName, Walked;
    var key := Key(GLOBAL, globalThis);
    if key in pinned {
      forall i | 0 <= i < |g.properties[globalThis]|
        ensures var member := g.properties[globalThis][i];
                Labelled(labels, Key(GLOBAL, g.Resolve(member.target)), Join(labels[key], member.name))
      {
        GlobalMemberIsLabelled(g, globalThis, roots, pinned, labels, i);
      }
      assert Closed(g, labels, key);
    }
  }

  lemma GlobalMemberIsLabelled(g: Graph, globalThis: Symbol, roots: seq<Root>, pinned: set<Key>, labels: Labels, i: nat)
    requires g.Valid() && globalThis in g.symbols && i < |g.properties[globalThis]|
    requires GlobalRoots(g, globalThis) <= roots && RootsLabelled(g, roots, labels) && Sound(g, roots, labels)
    requires ClosedExcept(g, labels, pinned) && Anchored(Some(globalThis), pinned, labels)
    requires SkippedMembersAreNamed(g, roots, globalThis)
    ensures var member := g.properties[globalThis][i];
      Labelled(labels, Key(GLOBAL, g.Resolve(member.target)), Join(GLOBAL_THIS, member.name))
  {
    hide PathName, Walked, Anchored, ClosedExcept, Sound;
    var member := g.properties[globalThis][i];
    var target := Key(GLOBAL, g.Resolve(member.target));
    if Skipped(member.name) {
      assert MemberIsNamed(g, roots, globalThis, member);
      var name :| WalkedName(g, roots, Some(globalThis), target, name) && AtMost(name, Join(GLOBAL_THIS, member.name));
      var path :| Walked(g, roots, Some(globalThis), path)
        && PathName(g, roots, path) == Some(ExternalSymbol(target.symbol, target.namespace, name));
      LabelsBoundWalks(g, roots, Some(globalThis), pinned, labels, path);
      AtMostTransitive(labels[target], name, Join(GLOBAL_THIS, member.name));
    } else {
      assert roots[i + 1] == GlobalRoots(g, globalThis)[i + 1] == Root(GLOBAL, member.name, member.target);
      JoinIsLater(GLOBAL_THIS, member.name);
      AtMostTransitive(labels[target], member.name, Join(GLOBAL_THIS, member.name));
    }
  }

  // The least names of all symbols name the skipped members too.
  lemma LeastNamesNameSkipped(g: Graph, globalThis: Symbol, roots: seq<Root>, labels: Labels)
    requires g.Valid() && globalThis in g.symbols && globalThis !in g.aliases
    requires GlobalRoots(g, globalThis) <= roots && WalkSound(g, roots, Some(globalThis), labels)
    requires AreLeastNames(g, roots, labels)
    ensures SkippedMembersAreNamed(g, roots, globalThis)
  {
    forall i | 0 <= i < |g.properties[globalThis]| && Skipped(g.properties[globalThis][i].name)
      ensures MemberIsNamed(g, roots, globalThis, g.properties[globalThis][i])
    {
      var member := g.properties[globalThis][i];
      var target := Key(GLOBAL, g.Resolve(member.target));
      assert roots[0] == GlobalRoots(g, globalThis)[0] == Root(GLOBAL, GLOBAL_THIS, globalThis);
      RootPath(g, roots, 0);
      MemberPath(g, roots, [0], i);
      hide PathName, Walked;
      assert Spelled(g, roots, target, Join(GLOBAL_THIS, member.name));
      assert WalkedName(g, roots, Some(globalThis), target, labels[target]);
    }
  }

  // ---- The whole collection -------------------------------------------------

  function AllRoots(g: Graph, globalThis: Option<Symbol>, dependencies: seq<Root>): seq<Root>
    requires globalThis.Some? ==> globalThis.value in g.properties
  {
    (if globalThis.Some? then GlobalRoots(g, globalThis.value) else []) + dependencies
  }

  /** One entry for each labelled symbol, the best of its labels over all namespaces. */
  ghost predicate OneBestEntryEach(labels: Labels, symbols: seq<ExternalSymbol>) {
    && (forall i, j :: 0 <= i < j < |symbols| ==> symbols[i].symbol != symbols[j].symbol)
    && (forall i :: 0 <= i < |symbols| ==>
          var key := Key(symbols[i].namespace, symbols[i].symbol);
          key in labels && symbols[i] == Labelling(labels, key))
    && (forall key :: key in labels ==>
          exists i :: 0 <= i < |symbols| && symbols[i].symbol == key.symbol
                      && NoWorse(symbols[i], Labelling(labels, key)))
  }

  /** Each label is the least name any path spells, and exactly the symbols some
      path leads to are labelled. */
  ghost predicate AreLeastNames(g: Graph, roots: seq<Root>, labels: Labels)
    requires g.Valid()
  {
    && (forall key :: key in labels ==> IsLeastName(g, roots, key, labels[key]))
    && (forall key, name :: Spelled(g, roots, key, name) ==> key in labels)
  }

  lemma LeastIffSkippedAreNamed(
    g: Graph, globalThis: Symbol, roots: seq<Root>, pinned: set<Key>, labels: Labels)
    requires g.Valid() && globalThis in g.symbols && globalThis !in g.aliases
    requires GlobalRoots(g, globalThis) <= roots && RootsLabelled(g, roots, labels)
    requires WalkSound(g, roots, Some(globalThis), labels)
    requires ClosedExcept(g, labels, pinned) && Anchored(Some(globalThis), pinned, labels)
    ensures AreLeastNames(g, roots, labels) <==> SkippedMembersAreNamed(g, roots, globalThis)
  {
    hide PathName, Walked, RootsLabelled, ClosedExcept, WalkSound, Sound, Anchored, AreLeastNames, SkippedMembersAreNamed;
    WalkSoundIsSound(g, roots, Some(globalThis), labels);
    if SkippedMembersAreNamed(g, roots, globalThis) {
      GlobalMembersClose(g, globalThis, roots, pinned, labels);
      AllAreLeast(g, roots, labels);
    }
    if AreLeastNames(g, roots, labels) {
      LeastNamesNameSkipped(g, globalThis, roots, labels);
    }
  }

  lemma AllAreLeast(g: Graph, roots: seq<Root>, labels: Labels)
    requires g.Valid() && ClosedExcept(g, labels, {}) && RootsLabelled(g, roots, labels) && Sound(g, roots, labels)
    ensures AreLeastNames(g, roots, labels)
  {
    hide PathName, Spelled, IsLeastName, ClosedExcept, RootsLabelled, Sound;
    ClosedLabelsAreLeast(g, roots, labels);
  }

  /** The search terminates on every finite graph. Each label is the least name
      any path spells, and exactly the symbols some path leads to are labelled, if
      and only if every member of the global object with an internal name is named
      as well by another path. In any case every label is spelled by a path and
      every labelled symbol has one entry, the best of its labels. */
  method CollectExternalSymbols(g: Graph, globalThis: Option<Symbol>, dependencies: seq<Root>)
    returns (labels: Labels, symbols: seq<ExternalSymbol>)
    requires g.Valid()
    requires globalThis.Some? ==> globalThis.value in g.symbols && globalThis.value !in g.aliases
    requires forall i :: 0 <= i < |dependencies| ==> dependencies[i].symbol in g.symbols
    ensures OneBestEntryEach(labels, symbols)
    ensures Sound(g, AllRoots(g, globalThis, dependencies), labels)
    ensures AreLeastNames(g, AllRoots(g, globalThis, dependencies), labels)
       <==> (globalThis.Some? ==> SkippedMembersAreNamed(g, AllRoots(g, globalThis, dependencies), globalThis.value))
  {
    hide PathName, Prefer, Closed, Spelled, IsLeastName, RootsLabelled, ClosedExcept, WalkSound, Sound, EntriesAreBest,
      OneBestEntryEach, AreLeastNames, SkippedMembersAreNamed;
    var collector := new Collector(g);
    if globalThis.Some? {
      collector.CollectGlobals(globalThis.value);
    } else {
      NoRootsLabelled(g, collector.expanded);
    }
    collector.CollectDependencies(dependencies, {});
    labels, symbols := collector.expanded, collector.symbols;
    EntriesGiveOneEach(labels, collector.collected, symbols);
    WalkSoundIsSound(g, collector.roots, collector.anchor, labels);
    assert {} + collector.pinned == collector.pinned;
    if globalThis.Some? {
      LeastIffSkippedAreNamed(g, globalThis.value, collector.roots, collector.pinned, labels);
    } else {
      assert collector.pinned == {};
      AllAreLeast(g, collector.roots, labels);
    }
  }

  /** A program whose global object has one member, with an internal name. */
  const INTERNAL_ONLY: Graph := Graph({0, 1}, map[0 := [Property([INTERNAL_PREFIX], 1)], 1 := []], map[])

  /** There the condition fails: the member is spelled through the global object
      and by no path the search follows. */
  lemma InternalMemberIsLost()
    ensures INTERNAL_ONLY.Valid()
    ensures !SkippedMembersAreNamed(INTERNAL_ONLY, GlobalRoots(INTERNAL_ONLY, 0), 0)
    ensures Spelled(INTERNAL_ONLY, GlobalRoots(INTERNAL_ONLY, 0), Key(GLOBAL, 1), Join(GLOBAL_THIS, [INTERNAL_PREFIX]))
  {
    var g, roots := INTERNAL_ONLY, GlobalRoots(INTERNAL_ONLY, 0);
    RootPath(g, roots, 0);
    MemberPath(g, roots, [0], 0);
    assert PathName(g, roots, [0] + [0]) == Some(ExternalSymbol(1, GLOBAL, Join(GLOBAL_THIS, [INTERNAL_PREFIX])));
    var member := g.properties[0][0];
    forall name, path | PathName(g, roots, path) == Some(ExternalSymbol(1, GLOBAL, name))
      ensures !Walked(g, roots, Some(0), path)
    {
      InternalPaths(path);
      PreferIsTotal(GLOBAL_THIS, GLOBAL_THIS);
      assert path[..1] == [0];
      assert Stuck(g, roots, Some(0), path[..1]);
    }
    assert !MemberIsNamed(g, roots, 0, member);
  }

  lemma {:induction false} InternalPaths(path: seq<nat>)
    requires PathName(INTERNAL_ONLY, GlobalRoots(INTERNAL_ONLY, 0), path).Some?
    ensures
      var end := PathName(INTERNAL_ONLY, GlobalRoots(INTERNAL_ONLY, 0), path).value;
      if end.symbol == 1 then |path| == 2 && path[0] == 0 else end.symbol == 0 && path == [0]
    decreases |path|
  {
    if |path| > 1 {
      InternalPaths(path[..|path| - 1]);
    }
  }

  lemma NoRootsLabelled(g: Graph, labels: Labels)
    ensures RootsLabelled(g, [], labels)
  {
  }

  lemma EntriesGiveOneEach(labels: Labels, collected: map<Symbol, nat>, symbols: seq<ExternalSymbol>)
    requires EntriesAreBest(labels, collected, symbols)
    ensures OneBestEntryEach(labels, symbols)
  {
    forall key | key in labels
      ensures exists i :: 0 <= i < |symbols| && symbols[i].symbol == key.symbol
                          && NoWorse(symbols[i], Labelling(labels, key))
    {
      assert symbols[collected[key.symbol]].symbol == key.symbol;
    }
  }

  lemma ImprovesReflexive(labels: Labels)
    ensures Improves(labels, labels)
  {
  }

  lemma NoMembers(g: Graph, labels: Labels, namespace: Name, symbol: Symbol, name: Name)
    requires g.Valid() && symbol in g.symbols
    ensures MembersLabelled(g, labels, namespace, symbol, name, 0)
  {
  }

  lemma OneMoreMember(g: Graph, labels: Labels, namespace: Name, symbol: Symbol, name: Name, i: nat)
    requires g.Valid() && symbol in g.symbols && i < |g.properties[symbol]|
    requires MembersLabelled(g, labels, namespace, symbol, name, i)
    requires
      var member := g.properties[symbol][i];
      Labelled(labels, Key(namespace, g.Resolve(member.target)), Join(name, member.name))
    ensures MembersLabelled(g, labels, namespace, symbol, name, i + 1)
  {
  }

  lemma BestIsIndexed(labels: Labels, collected: map<Symbol, nat>, symbols: seq<ExternalSymbol>)
    requires EntriesAreBest(labels, collected, symbols)
    ensures Indexed(collected, symbols)
  {
  }

  lemma SmallerSet(a: set<Symbol>, b: set<Symbol>)
    requires a < b
    ensures |a| < |b|
  {
    var x :| x in b && x !in a;
    assert a <= b - {x};
    SubsetSize(a, b - {x});
  }

  lemma {:induction false} SubsetSize(a: set<Symbol>, b: set<Symbol>)
    requires a <= b
    ensures |a| <= |b|
  {
    if a != {} {
      var x :| x in a;
      SubsetSize(a - {x}, b - {x});
    }
  }

  // Following one more member extends the path and the name.
  lemma MemberPath(g: Graph, roots: seq<Root>, path: seq<nat>, step: nat)
    requires g.Valid() && PathName(g, roots, path).Some?
    requires PathName(g, roots, path).value.symbol in g.symbols
    requires step < |g.properties[PathName(g, roots, path).value.symbol]|
    ensures
      var owner := PathName(g, roots, path).value;
      var member := g.properties[owner.symbol][step];
      && PathName(g, roots, path + [step]) ==
           Some(ExternalSymbol(g.Resolve(member.target), owner.namespace, Join(owner.name, member.name)))
      && !Skipped(owner.name) && !Skipped(Join(owner.name, member.name))
  {
    assert (path + [step])[..|path|] == path;
  }
}
