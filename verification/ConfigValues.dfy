/** Settings and language options: how the values of later entries are merged over
    those of earlier ones. */
module ConfigValues {
  import opened Wrappers

  type Name = string

  /** A config value; only objects are merged, everything else is replaced. */
  datatype Value = Leaf(text: string) | Items(items: seq<Value>) | Object(fields: map<Name, Value>)

  type Fields = v: Value | v.Object? witness Object(map[])

  const NO_FIELDS: Fields := Object(map[])

  function DeepMerge(base: Fields, over: Fields): Fields
    decreases over
  {
    Object(map key | key in base.fields.Keys + over.fields.Keys ::
      if key !in over.fields then base.fields[key]
      else if key in base.fields && base.fields[key].Object? && over.fields[key].Object?
      then DeepMerge(base.fields[key], over.fields[key])
      else over.fields[key])
  }

  /** The value at a path, unless it is an object or missing. */
  function LeafAt(v: Value, path: seq<Name>): Option<Value> {
    if |path| == 0 then if v.Object? then None else Some(v)
    else if v.Object? && path[0] in v.fields then LeafAt(v.fields[path[0]], path[1..])
    else None
  }

  /** The value has something to say about a path: it reaches its end, or stops on
      the way at a value that is not an object. */
  predicate Touches(v: Value, path: seq<Name>) {
    |path| == 0 || !v.Object? || (path[0] in v.fields && Touches(v.fields[path[0]], path[1..]))
  }

  lemma {:induction false} UntouchedHasNoLeaf(v: Value, path: seq<Name>)
    requires !Touches(v, path)
    ensures LeafAt(v, path) == None
  {
    if path[0] in v.fields {
      UntouchedHasNoLeaf(v.fields[path[0]], path[1..]);
    }
  }

  /** At every path the override decides where it says anything, and the base
      shows through elsewhere. */
  lemma {:induction false} OverrideDecides(base: Fields, over: Fields, path: seq<Name>)
    ensures LeafAt(DeepMerge(base, over), path) == if Touches(over, path) then LeafAt(over, path) else LeafAt(base, path)
    decreases |path|
  {
    if |path| > 0 {
      var key, rest := path[0], path[1..];
      var merged := DeepMerge(base, over);
      if key in over.fields {
        if key in base.fields && base.fields[key].Object? && over.fields[key].Object? {
          assert merged.fields[key] == DeepMerge(base.fields[key], over.fields[key]);
          OverrideDecides(base.fields[key], over.fields[key], rest);
        } else {
          assert merged.fields[key] == over.fields[key];
          if !Touches(over.fields[key], rest) {
            UntouchedHasNoLeaf(over.fields[key], rest);
          }
        }
      }
    }
  }

  // The path leads to an object.
  predicate ObjectAt(v: Value, path: seq<Name>) {
    v.Object? && (|path| == 0 || (path[0] in v.fields && ObjectAt(v.fields[path[0]], path[1..])))
  }

  /** The objects of a merge, empty ones included, are those of the override and
      those of the base that the override says nothing about. */
  lemma {:induction false} ObjectsAreKept(base: Fields, over: Fields, path: seq<Name>)
    ensures ObjectAt(DeepMerge(base, over), path) <==> ObjectAt(over, path) || (ObjectAt(base, path) && !Touches(over, path))
    decreases |path|
  {
    if |path| > 0 {
      var key, rest := path[0], path[1..];
      var merged := DeepMerge(base, over);
      if key in over.fields {
        if key in base.fields && base.fields[key].Object? && over.fields[key].Object? {
          assert merged.fields[key] == DeepMerge(base.fields[key], over.fields[key]);
          ObjectsAreKept(base.fields[key], over.fields[key], rest);
        } else {
          assert merged.fields[key] == over.fields[key];
        }
      }
    }
  }

  // ---- Layers ----------------------------------------------------------------

  /** The settings of several entries, merged in order; none of them may have any. */
  function MergeAll(layers: seq<Option<Fields>>): Option<Fields> {
    if |layers| == 0 then None
    else MergeOver(MergeAll(layers[..|layers| - 1]), layers[|layers| - 1])
  }

  function MergeOver(base: Option<Fields>, over: Option<Fields>): Option<Fields> {
    if over.None? then base
    else Some(DeepMerge(if base.Some? then base.value else NO_FIELDS, over.value))
  }

  predicate LayerTouches(layer: Option<Fields>, path: seq<Name>) {
    layer.Some? && Touches(layer.value, path)
  }

  function LayerLeaf(layer: Option<Fields>, path: seq<Name>): Option<Value> {
    if layer.Some? then LeafAt(layer.value, path) else None
  }

  ghost predicate LastToTouch(layers: seq<Option<Fields>>, path: seq<Name>, i: int) {
    && 0 <= i < |layers| && LayerTouches(layers[i], path)
    && forall j :: i < j < |layers| ==> !LayerTouches(layers[j], path)
  }

  /** At every path the merged value is that of the last entry that says anything
      about the path, and missing when none does. */
  lemma {:induction false} LastLayerDecides(layers: seq<Option<Fields>>, path: seq<Name>)
    requires |path| > 0
    ensures
      || (exists i :: LastToTouch(layers, path, i) && LayerLeaf(MergeAll(layers), path) == LayerLeaf(layers[i], path))
      || ((forall i :: 0 <= i < |layers| ==> !LayerTouches(layers[i], path)) && LayerLeaf(MergeAll(layers), path) == None)
    decreases |layers|
  {
    if |layers| > 0 {
      var front, last := layers[..|layers| - 1], layers[|layers| - 1];
      LastLayerDecides(front, path);
      assert forall i :: 0 <= i < |front| ==> layers[i] == front[i];
      var base := MergeAll(front);
      if last.Some? {
        OverrideDecides(if base.Some? then base.value else NO_FIELDS, last.value, path);
      }
      if LayerTouches(last, path) {
        assert LastToTouch(layers, path, |layers| - 1);
      } else if i :| LastToTouch(front, path, i) && LayerLeaf(base, path) == LayerLeaf(front[i], path) {
        assert LastToTouch(layers, path, i);
      }
    }
  }

  // ---- Language options ------------------------------------------------------

  /** Parser options that are set or not, and the raw options beside them. */
  datatype ParserOptions = ParserOptions(projectService: Option<string>, project: Option<string>, rootDir: Option<string>)

  datatype LanguageOptions = LanguageOptions(parser: Option<ParserOptions>, raw: Fields)

  function Later<T>(base: Option<T>, over: Option<T>): Option<T> {
    if over.Some? then over else base
  }

  function MergeParser(base: Option<ParserOptions>, over: Option<ParserOptions>): Option<ParserOptions> {
    if over.None? then base
    else if base.None? then over
    else Some(ParserOptions(
      Later(base.value.projectService, over.value.projectService),
      Later(base.value.project, over.value.project),
      Later(base.value.rootDir, over.value.rootDir)))
  }

  function MergeLanguageOptions(base: Option<LanguageOptions>, over: Option<LanguageOptions>): Option<LanguageOptions> {
    if over.None? then base
    else if base.None? then over
    else Some(LanguageOptions(MergeParser(base.value.parser, over.value.parser), DeepMerge(base.value.raw, over.value.raw)))
  }

  function MergeAllOptions(layers: seq<Option<LanguageOptions>>): Option<LanguageOptions> {
    if |layers| == 0 then None
    else MergeLanguageOptions(MergeAllOptions(layers[..|layers| - 1]), layers[|layers| - 1])
  }

  function ProjectOf(layer: Option<LanguageOptions>): Option<string> {
    if layer.Some? && layer.value.parser.Some? then layer.value.parser.value.project else None
  }

  function ServiceOf(layer: Option<LanguageOptions>): Option<string> {
    if layer.Some? && layer.value.parser.Some? then layer.value.parser.value.projectService else None
  }

  function RootOf(layer: Option<LanguageOptions>): Option<string> {
    if layer.Some? && layer.value.parser.Some? then layer.value.parser.value.rootDir else None
  }

  function RawOf(layer: Option<LanguageOptions>): Option<Fields> {
    if layer.Some? then Some(layer.value.raw) else None
  }

  /** The last value that is set. */
  function LastSet(values: seq<Option<string>>): Option<string> {
    if |values| == 0 then None else Later(LastSet(values[..|values| - 1]), values[|values| - 1])
  }

  /** By index: the value set last, or none when none is set. */
  lemma {:induction false} LastSetIsLast(values: seq<Option<string>>, i: nat)
    ensures i < |values| && values[i].Some? && (forall j :: i < j < |values| ==> values[j].None?) ==> LastSet(values) == values[i]
    ensures (forall j :: 0 <= j < |values| ==> values[j].None?) ==> LastSet(values) == None
  {
    if |values| > 0 && values[|values| - 1].None? {
      var front := values[..|values| - 1];
      assert forall j :: 0 <= j < |front| ==> front[j] == values[j];
      LastSetIsLast(front, i);
    }
  }

  function Each<S, T>(layers: seq<S>, f: S -> T): (r: seq<T>)
    ensures |r| == |layers| && forall i :: 0 <= i < |r| ==> r[i] == f(layers[i])
  {
    seq(|layers|, i requires 0 <= i < |layers| => f(layers[i]))
  }

  lemma {:induction false} MergeNothing(v: Fields)
    ensures DeepMerge(NO_FIELDS, v) == v
  {
    assert DeepMerge(NO_FIELDS, v).fields == v.fields;
  }

  /** Each parser option is the last one set, on its own; the raw options are
      merged as settings are. */
  lemma {:induction false} OptionsMergeByField(layers: seq<Option<LanguageOptions>>)
    ensures var merged := MergeAllOptions(layers);
      && ProjectOf(merged) == LastSet(Each(layers, ProjectOf))
      && ServiceOf(merged) == LastSet(Each(layers, ServiceOf))
      && RootOf(merged) == LastSet(Each(layers, RootOf))
      && RawOf(merged) == MergeAll(Each(layers, RawOf))
    decreases |layers|
  {
    if |layers| > 0 {
      var front, last := layers[..|layers| - 1], layers[|layers| - 1];
      OptionsMergeByField(front);
      assert Each(layers, ProjectOf)[..|front|] == Each(front, ProjectOf);
      assert Each(layers, ServiceOf)[..|front|] == Each(front, ServiceOf);
      assert Each(layers, RootOf)[..|front|] == Each(front, RootOf);
      assert Each(layers, RawOf)[..|front|] == Each(front, RawOf);
      if last.Some? {
        MergeNothing(last.value.raw);
      }
    }
  }
}
