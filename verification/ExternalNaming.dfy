/** What the least name is, in plain terms: the fewest dots, then the fewest
    bytes, then the first in byte order. */
module ExternalNaming {
  import opened Wrappers
  import opened Bytes
  import opened ExternalNames
  import opened ExternalSymbols

  function DotPositions(name: Name): set<int> {
    set i | 0 <= i < |name| && name[i] == '.' as int
  }

  lemma {:induction false} DotsArePositions(name: Name)
    ensures Dots(name) == |DotPositions(name)|
  {
    if |name| > 0 {
      var last := |name| - 1;
      DotsArePositions(name[..last]);
      assert DotPositions(name) == DotPositions(name[..last]) + if name[last] == DOT then {last} else {};
    }
  }

  /** The first name comes before the second: fewer dots; as many and fewer bytes;
      or as many of both and the smaller byte where they first differ. */
  ghost predicate Precedes(a: Name, b: Name) {
    || |DotPositions(a)| < |DotPositions(b)|
    || (|DotPositions(a)| == |DotPositions(b)| && |a| < |b|)
    || (|DotPositions(a)| == |DotPositions(b)| && |a| == |b| && exists i :: FirstSmallerAt(a, b, i))
  }

  lemma PreferPrecedes(a: Name, b: Name)
    ensures Prefer(a, b) <==> Precedes(a, b)
  {
    DotsArePositions(a);
    DotsArePositions(b);
    LessMeans(a, b);
    hide DotPositions, Less;
  }

  /** No name of any path comes before the label of its symbol. */
  lemma LeastNamesPrecede(g: Graph, roots: seq<Root>, labels: Labels, path: seq<nat>)
    requires g.Valid() && AreLeastNames(g, roots, labels) && PathName(g, roots, path).Some?
    ensures var end := PathName(g, roots, path).value;
      var key := Key(end.namespace, end.symbol);
      && key in labels
      && |DotPositions(labels[key])| <= |DotPositions(end.name)|
      && (|DotPositions(labels[key])| == |DotPositions(end.name)| ==> |labels[key]| <= |end.name|)
      && (|DotPositions(labels[key])| == |DotPositions(end.name)| && |labels[key]| == |end.name| ==>
            labels[key] == end.name || exists i :: FirstSmallerAt(labels[key], end.name, i))
  {
    hide PathName, DotPositions, Prefer;
    var end := PathName(g, roots, path).value;
    var key := Key(end.namespace, end.symbol);
    assert PathName(g, roots, path) == Some(ExternalSymbol(key.symbol, key.namespace, end.name));
    assert Spelled(g, roots, key, end.name);
    PreferPrecedes(labels[key], end.name);
  }

  ghost predicate PlainNames(g: Graph, roots: seq<Root>)
    requires g.Valid()
  {
    && (forall i :: 0 <= i < |roots| ==> DOT !in roots[i].name)
    && (forall s, i :: s in g.symbols && 0 <= i < |g.properties[s]| ==> DOT !in g.properties[s][i].name)
  }

  lemma {:induction false} NoDots(name: Name)
    requires DOT !in name
    ensures Dots(name) == 0
  {
    if |name| > 0 {
      NoDots(name[..|name| - 1]);
    }
  }

  /** With plain names the dots count the steps: one less than the path has. */
  lemma {:induction false} DotsCountSteps(g: Graph, roots: seq<Root>, path: seq<nat>)
    requires g.Valid() && PlainNames(g, roots) && PathName(g, roots, path).Some?
    ensures |DotPositions(PathName(g, roots, path).value.name)| == |path| - 1
    decreases |path|
  {
    hide DotPositions;
    var name := PathName(g, roots, path).value.name;
    DotsArePositions(name);
    if |path| == 1 {
      NoDots(name);
    } else {
      var before := path[..|path| - 1];
      DotsCountSteps(g, roots, before);
      var owner := PathName(g, roots, before).value;
      DotsArePositions(owner.name);
      var member := g.properties[owner.symbol][path[|path| - 1]];
      NoDots(member.name);
      assert name == (owner.name + [DOT]) + member.name;
      DotsAdd(owner.name + [DOT], member.name);
      DotsAdd(owner.name, [DOT]);
      assert [DOT][..0] == [];
      assert Dots([DOT]) == 1;
    }
  }

  /** So a label has no more steps than any path to its symbol. */
  lemma LabelsAreShallowest(g: Graph, roots: seq<Root>, labels: Labels, path: seq<nat>)
    requires g.Valid() && PlainNames(g, roots) && AreLeastNames(g, roots, labels) && PathName(g, roots, path).Some?
    ensures var end := PathName(g, roots, path).value;
      Key(end.namespace, end.symbol) in labels && |DotPositions(labels[Key(end.namespace, end.symbol)])| <= |path| - 1
  {
    hide PathName, DotPositions, PlainNames, AreLeastNames;
    LeastNamesPrecede(g, roots, labels, path);
    DotsCountSteps(g, roots, path);
  }

  // ---- Entries --------------------------------------------------------------

  /** The entry of a symbol: under its global name if it has one, otherwise under
      the first of its namespaces in byte order, and with the label it has there. */
  lemma EntriesArePlaced(labels: Labels, symbols: seq<ExternalSymbol>, i: nat)
    requires OneBestEntryEach(labels, symbols) && i < |symbols|
    ensures var e := symbols[i];
      && Key(e.namespace, e.symbol) in labels && e.name == labels[Key(e.namespace, e.symbol)]
      && (Key(GLOBAL, e.symbol) in labels ==> e.namespace == GLOBAL)
      && (Key(GLOBAL, e.symbol) !in labels ==> forall key :: key in labels && key.symbol == e.symbol ==>
            e.namespace == key.namespace || e.namespace < key.namespace
            || exists k :: FirstSmallerAt(e.namespace, key.namespace, k))
  {
    var e := symbols[i];
    forall key | key in labels && key.symbol == e.symbol ensures NoWorse(e, Labelling(labels, key)) {
      var k :| 0 <= k < |symbols| && symbols[k].symbol == key.symbol && NoWorse(symbols[k], Labelling(labels, key));
      assert k == i;
    }
    forall key | key in labels && key.symbol == e.symbol
      ensures Less(e.namespace, key.namespace) <==>
        e.namespace < key.namespace || exists k :: FirstSmallerAt(e.namespace, key.namespace, k)
    {
      LessMeans(e.namespace, key.namespace);
    }
    hide Less, Prefer, FirstSmallerAt;
    if Key(GLOBAL, e.symbol) in labels {
      assert NoWorse(e, Labelling(labels, Key(GLOBAL, e.symbol)));
    }
  }

  /** The global namespace is the one called `global`. */
  lemma GlobalIsSpelled()
    ensures GLOBAL == ['g' as int, 'l' as int, 'o' as int, 'b' as int, 'a' as int, 'l' as int]
    ensures GLOBAL_THIS == GLOBAL + ['T' as int, 'h' as int, 'i' as int, 's' as int]
  {}
}
