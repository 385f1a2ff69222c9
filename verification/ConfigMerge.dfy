/** What merging the chosen entries gives, and the caches in front of it. */
module ConfigMerge {
  import opened Wrappers
  import opened ConfigValues
  import opened ConfigShapes

  datatype RuleConfig = RuleConfig(level: string, options: RuleOptions)

  datatype Merged = Merged(
    rules: map<Name, RuleConfig>,
    plugins: set<Name>,
    settings: Option<Fields>,
    languageOptions: Option<LanguageOptions>)

  // ---- What the merge promises -----------------------------------------------

  /** Entry `i` is chosen and gives `name` a usable value. */
  predicate Mentions(config: Config, chosen: seq<bool>, name: Name, i: int)
    requires |chosen| == |config|
  {
    0 <= i < |config| && chosen[i] && name in config[i].rules && config[i].rules[name] != Malformed
  }

  predicate MentionsOptions(config: Config, chosen: seq<bool>, name: Name, i: int)
    requires |chosen| == |config|
  {
    Mentions(config, chosen, name, i) && config[i].rules[name].Configured?
  }

  ghost predicate LastMention(config: Config, chosen: seq<bool>, name: Name, n: nat, i: int)
    requires |chosen| == |config|
  {
    Mentions(config, chosen, name, i) && i < n && forall j :: i < j < n ==> !Mentions(config, chosen, name, j)
  }

  ghost predicate LastOptions(config: Config, chosen: seq<bool>, name: Name, n: nat, i: int)
    requires |chosen| == |config|
  {
    MentionsOptions(config, chosen, name, i) && i < n && forall j :: i < j < n ==> !MentionsOptions(config, chosen, name, j)
  }

  function LevelAt(config: Config, name: Name, i: int): string
    requires 0 <= i < |config| && name in config[i].rules && config[i].rules[name] != Malformed
  {
    config[i].rules[name].level
  }

  /** Severity of the last mention; options of the last mention that has any. */
  ghost predicate RuleIs(config: Config, chosen: seq<bool>, name: Name, n: nat, r: RuleConfig)
    requires |chosen| == |config|
  {
    && (exists i :: LastMention(config, chosen, name, n, i) && r.level == LevelAt(config, name, i))
    && ((exists i :: LastOptions(config, chosen, name, n, i) && r.options == config[i].rules[name].options)
        || ((forall i :: 0 <= i < n ==> !MentionsOptions(config, chosen, name, i)) && r.options == []))
  }

  ghost predicate RulesAre(config: Config, chosen: seq<bool>, n: nat, rules: map<Name, RuleConfig>)
    requires |chosen| == |config|
  {
    && (forall name :: name in rules ==> RuleIs(config, chosen, name, n, rules[name]))
    && (forall name, i :: 0 <= i < n && Mentions(config, chosen, name, i) ==> name in rules)
  }

  lemma UnmentionedStays(config: Config, chosen: seq<bool>, name: Name, n: nat, r: RuleConfig)
    requires |chosen| == |config| && RuleIs(config, chosen, name, n, r) && !Mentions(config, chosen, name, n)
    ensures RuleIs(config, chosen, name, n + 1, r)
  {
    var i :| LastMention(config, chosen, name, n, i) && r.level == LevelAt(config, name, i);
    assert LastMention(config, chosen, name, n + 1, i);
    if k :| LastOptions(config, chosen, name, n, k) && r.options == config[k].rules[name].options {
      assert LastOptions(config, chosen, name, n + 1, k);
    }
  }

  /** The new value of a rule mentioned by entry `n`. */
  function Override(value: RuleValue, previous: Option<RuleConfig>): RuleConfig
    requires value != Malformed
  {
    match value
    case Configured(level, options) => RuleConfig(level, options)
    case Severity(level) => RuleConfig(level, if previous.Some? then previous.value.options else [])
  }

  lemma MentionedChanges(config: Config, chosen: seq<bool>, name: Name, n: nat, previous: Option<RuleConfig>)
    requires |chosen| == |config| && Mentions(config, chosen, name, n)
    requires if previous.Some? then RuleIs(config, chosen, name, n, previous.value)
             else forall i :: 0 <= i < n ==> !Mentions(config, chosen, name, i)
    ensures RuleIs(config, chosen, name, n + 1, Override(config[n].rules[name], previous))
  {
    var r := Override(config[n].rules[name], previous);
    assert LastMention(config, chosen, name, n + 1, n) && r.level == LevelAt(config, name, n);
    if config[n].rules[name].Configured? {
      assert LastOptions(config, chosen, name, n + 1, n);
    } else if previous.Some? {
      if k :| LastOptions(config, chosen, name, n, k) && previous.value.options == config[k].rules[name].options {
        assert LastOptions(config, chosen, name, n + 1, k);
      }
    }
  }

  function Previous(rules: map<Name, RuleConfig>, name: Name): Option<RuleConfig> {
    if name in rules then Some(rules[name]) else None
  }

  ghost predicate EntryMerged(before: map<Name, RuleConfig>, rules: map<Name, RuleConfig>, values: map<Name, RuleValue>, done: set<Name>) {
    && (forall name :: name in done && name in values && values[name] != Malformed ==>
          name in rules && rules[name] == Override(values[name], Previous(before, name)))
    && (forall name :: !(name in done && name in values && values[name] != Malformed) ==>
          Previous(rules, name) == Previous(before, name))
  }

  /** One entry's rules, in whatever order its map is visited. */
  method MergeRules(before: map<Name, RuleConfig>, values: map<Name, RuleValue>) returns (rules: map<Name, RuleConfig>)
    ensures EntryMerged(before, rules, values, values.Keys)
  {
    rules := before;
    var left := values.Keys;
    while left != {}
      invariant left <= values.Keys
      invariant EntryMerged(before, rules, values, values.Keys - left)
      decreases |left|
    {
      var name :| name in left;
      left := left - {name};
      var value := values[name];
      if value != Malformed {
        assert Previous(rules, name) == Previous(before, name);
        rules := rules[name := Override(value, Previous(rules, name))];
      }
    }
    assert values.Keys - left == values.Keys;
  }

  lemma EntryKeepsRules(config: Config, chosen: seq<bool>, n: nat, before: map<Name, RuleConfig>, after: map<Name, RuleConfig>)
    requires |chosen| == |config| && n < |config| && RulesAre(config, chosen, n, before)
    requires if chosen[n] then EntryMerged(before, after, config[n].rules, config[n].rules.Keys) else after == before
    ensures RulesAre(config, chosen, n + 1, after)
  {
    hide RuleIs;
    forall name | name in after ensures RuleIs(config, chosen, name, n + 1, after[name]) {
      if Mentions(config, chosen, name, n) {
        MentionedChanges(config, chosen, name, n, Previous(before, name));
      } else {
        assert Previous(after, name) == Previous(before, name);
        UnmentionedStays(config, chosen, name, n, before[name]);
      }
    }
    forall name, i | 0 <= i < n + 1 && Mentions(config, chosen, name, i) ensures name in after {
      if i < n {
        assert name in before;
        assert chosen[n] ==> name in after || Previous(after, name) == Previous(before, name);
      }
    }
  }

  // ---- The merge -------------------------------------------------------------

  function PluginsUpTo(config: Config, chosen: seq<bool>, n: nat, normalize: Name -> Name): set<Name>
    requires |chosen| == |config| && n <= |config|
  {
    if n == 0 then {}
    else
      PluginsUpTo(config, chosen, n - 1, normalize)
      + (if chosen[n - 1] then set p | p in config[n - 1].plugins :: normalize(p) else {})
  }

  /** The chosen entries, in order. */
  function ChosenUpTo(config: Config, chosen: seq<bool>, n: nat): seq<Entry>
    requires |chosen| == |config| && n <= |config|
  {
    if n == 0 then []
    else ChosenUpTo(config, chosen, n - 1) + (if chosen[n - 1] then [config[n - 1]] else [])
  }

  function SettingsOf(entries: seq<Entry>): (layers: seq<Option<Fields>>) {
    Each(entries, (e: Entry) => e.settings)
  }

  function OptionsOf(entries: seq<Entry>): seq<Option<LanguageOptions>> {
    Each(entries, (e: Entry) => e.languageOptions)
  }

  lemma OneMoreLayer(entries: seq<Entry>, e: Entry)
    ensures MergeAll(SettingsOf(entries + [e])) == MergeOver(MergeAll(SettingsOf(entries)), e.settings)
    ensures MergeAllOptions(OptionsOf(entries + [e])) == MergeLanguageOptions(MergeAllOptions(OptionsOf(entries)), e.languageOptions)
  {
    assert SettingsOf(entries + [e])[..|entries|] == SettingsOf(entries);
    assert OptionsOf(entries + [e])[..|entries|] == OptionsOf(entries);
  }

  ghost predicate IsMerge(config: Config, chosen: seq<bool>, normalize: Name -> Name, m: Merged)
    requires |chosen| == |config|
  {
    && RulesAre(config, chosen, |config|, m.rules)
    && m.plugins == PluginsUpTo(config, chosen, |config|, normalize)
    && m.settings == MergeAll(SettingsOf(ChosenUpTo(config, chosen, |config|)))
    && m.languageOptions == MergeAllOptions(OptionsOf(ChosenUpTo(config, chosen, |config|)))
  }

  method MergePlugins(before: set<Name>, plugins: seq<Name>, normalize: Name -> Name) returns (after: set<Name>)
    ensures after == before + set p | p in plugins :: normalize(p)
  {
    after := before;
    for i := 0 to |plugins|
      invariant after == before + set p | p in plugins[..i] :: normalize(p)
    {
      assert plugins[..i + 1] == plugins[..i] + [plugins[i]];
      after := after + {normalize(plugins[i])};
    }
    assert plugins[..|plugins|] == plugins;
  }

  /** Merging the entries a key contains. */
  method MergeConfigEntries(config: Config, key: MatchKey, normalize: Name -> Name, ghost chosen: seq<bool>)
    returns (m: Merged)
    requires |chosen| == |config| && key == KeyOf(chosen, |config|)
    ensures IsMerge(config, chosen, normalize, m)
  {
    hide Contains, HasRoom, RulesAre, EntryMerged, MergeAll, MergeAllOptions, MergeOver, MergeLanguageOptions, SettingsOf, OptionsOf;
    var rules: map<Name, RuleConfig>, plugins := map[], {};
    var settings: Option<Fields>, languageOptions: Option<LanguageOptions> := None, None;
    NoLayers();
    NothingMerged(config, chosen);
    for i := 0 to |config|
      invariant RulesAre(config, chosen, i, rules)
      invariant plugins == PluginsUpTo(config, chosen, i, normalize)
      invariant settings == MergeAll(SettingsOf(ChosenUpTo(config, chosen, i)))
      invariant languageOptions == MergeAllOptions(OptionsOf(ChosenUpTo(config, chosen, i)))
    {
      KeyContains(chosen, |config|, i);
      ghost var before := rules;
      if Contains(key, i) {
        rules := MergeRules(rules, config[i].rules);
        plugins := MergePlugins(plugins, config[i].plugins, normalize);
        OneMoreLayer(ChosenUpTo(config, chosen, i), config[i]);
        settings := MergeOver(settings, config[i].settings);
        languageOptions := MergeLanguageOptions(languageOptions, config[i].languageOptions);
      } else {
        assert ChosenUpTo(config, chosen, i + 1) == ChosenUpTo(config, chosen, i);
      }
      EntryKeepsRules(config, chosen, i, before, rules);
    }
    m := Merged(rules, plugins, settings, languageOptions);
  }

  /** The plugins of a merge are the normalized names the chosen entries list. */
  lemma {:induction false} PluginsAreListed(config: Config, chosen: seq<bool>, n: nat, normalize: Name -> Name, name: Name)
    requires |chosen| == |config| && n <= |config|
    ensures name in PluginsUpTo(config, chosen, n, normalize) <==>
      exists i :: 0 <= i < n && chosen[i] && exists p :: p in config[i].plugins && normalize(p) == name
    decreases n
  {
    if n > 0 {
      PluginsAreListed(config, chosen, n - 1, normalize, name);
    }
  }

  // The last of the first `n` entries that is chosen and says something about the path.
  ghost predicate LastChosenToTouch(config: Config, chosen: seq<bool>, n: nat, path: seq<Name>, i: int)
    requires |chosen| == |config| && n <= |config|
  {
    && 0 <= i < n && chosen[i] && LayerTouches(config[i].settings, path)
    && forall j :: i < j < n && chosen[j] ==> !LayerTouches(config[j].settings, path)
  }

  /** Every setting of a merge is that of the last chosen entry that says anything
      about it, and is missing when no chosen entry does. */
  lemma {:induction false} SettingsAreTheLast(config: Config, chosen: seq<bool>, n: nat, path: seq<Name>)
    requires |chosen| == |config| && n <= |config| && |path| > 0
    ensures var merged := MergeAll(SettingsOf(ChosenUpTo(config, chosen, n)));
      || (exists i :: LastChosenToTouch(config, chosen, n, path, i) && LayerLeaf(merged, path) == LayerLeaf(config[i].settings, path))
      || ((forall i :: 0 <= i < n && chosen[i] ==> !LayerTouches(config[i].settings, path)) && LayerLeaf(merged, path) == None)
    decreases n
  {
    hide MergeAll, SettingsOf, Touches, LeafAt, DeepMerge, MergeAllOptions;
    if n == 0 {
      NoLayers();
    } else {
      SettingsAreTheLast(config, chosen, n - 1, path);
      var before := ChosenUpTo(config, chosen, n - 1);
      var entry := config[n - 1];
      if chosen[n - 1] {
        OneMoreLayer(before, entry);
        LeafOfMerge(MergeAll(SettingsOf(before)), entry.settings, path);
      } else {
        assert ChosenUpTo(config, chosen, n) == before;
      }
      hide ChosenUpTo, MergeOver, LayerLeaf, LayerTouches;
      if chosen[n - 1] && LayerTouches(entry.settings, path) {
        assert LastChosenToTouch(config, chosen, n, path, n - 1);
      } else if i :| LastChosenToTouch(config, chosen, n - 1, path, i)
                     && LayerLeaf(MergeAll(SettingsOf(before)), path) == LayerLeaf(config[i].settings, path) {
        assert LastChosenToTouch(config, chosen, n, path, i);
      }
    }
  }

  lemma LeafOfMerge(base: Option<Fields>, over: Option<Fields>, path: seq<Name>)
    requires |path| > 0
    ensures LayerLeaf(MergeOver(base, over), path) == if LayerTouches(over, path) then LayerLeaf(over, path) else LayerLeaf(base, path)
  {
    hide Touches, LeafAt, DeepMerge;
    EmptyHasNoLeaf(path);
    if over.Some? {
      OverrideDecides(if base.Some? then base.value else NO_FIELDS, over.value, path);
    }
  }

  lemma EmptyHasNoLeaf(path: seq<Name>)
    requires |path| > 0
    ensures LeafAt(NO_FIELDS, path) == None
  {}

  // The last of the first `n` entries that is chosen and sets this parser option.
  ghost predicate LastChosenToSet(
    config: Config, chosen: seq<bool>, n: nat, option: Option<LanguageOptions> -> Option<string>, i: int)
    requires |chosen| == |config| && n <= |config|
  {
    && 0 <= i < n && chosen[i] && option(config[i].languageOptions).Some?
    && forall j :: i < j < n && chosen[j] ==> option(config[j].languageOptions).None?
  }

  /** Every parser option of a merge is the one set by the last chosen entry that
      sets it, each on its own. */
  lemma {:induction false} OptionsAreTheLast(
    config: Config, chosen: seq<bool>, n: nat, option: Option<LanguageOptions> -> Option<string>)
    requires |chosen| == |config| && n <= |config| && (option == ProjectOf || option == ServiceOf || option == RootOf)
    ensures var merged := MergeAllOptions(OptionsOf(ChosenUpTo(config, chosen, n)));
      || (exists i :: LastChosenToSet(config, chosen, n, option, i) && option(merged) == option(config[i].languageOptions))
      || ((forall i :: 0 <= i < n && chosen[i] ==> option(config[i].languageOptions).None?) && option(merged) == None)
    decreases n
  {
    hide MergeAll, SettingsOf, OptionsOf, MergeAllOptions, DeepMerge;
    if n == 0 {
      NoLayers();
    } else {
      OptionsAreTheLast(config, chosen, n - 1, option);
      var before := ChosenUpTo(config, chosen, n - 1);
      var base := MergeAllOptions(OptionsOf(before));
      var entry := config[n - 1];
      if chosen[n - 1] {
        OneMoreLayer(before, entry);
        OptionOfMerge(base, entry.languageOptions, option);
      } else {
        assert ChosenUpTo(config, chosen, n) == before;
      }
      hide MergeLanguageOptions, MergeParser;
      if chosen[n - 1] && option(entry.languageOptions).Some? {
        assert LastChosenToSet(config, chosen, n, option, n - 1);
      } else if i :| LastChosenToSet(config, chosen, n - 1, option, i) && option(base) == option(config[i].languageOptions) {
        assert LastChosenToSet(config, chosen, n, option, i);
      }
    }
  }

  lemma OptionOfMerge(base: Option<LanguageOptions>, over: Option<LanguageOptions>, option: Option<LanguageOptions> -> Option<string>)
    requires option == ProjectOf || option == ServiceOf || option == RootOf
    ensures option(MergeLanguageOptions(base, over)) == if option(over).Some? then option(over) else option(base)
  {
    hide DeepMerge;
  }

  lemma NoLayers()
    ensures MergeAll(SettingsOf([])) == None && MergeAllOptions(OptionsOf([])) == None
  {}

  lemma NothingMerged(config: Config, chosen: seq<bool>)
    requires |chosen| == |config|
    ensures RulesAre(config, chosen, 0, map[])
  {}

  lemma RuleIsUnique(config: Config, chosen: seq<bool>, name: Name, n: nat, a: RuleConfig, b: RuleConfig)
    requires |chosen| == |config| && RuleIs(config, chosen, name, n, a) && RuleIs(config, chosen, name, n, b)
    ensures a == b
  {
    var i :| LastMention(config, chosen, name, n, i) && a.level == LevelAt(config, name, i);
    var j :| LastMention(config, chosen, name, n, j) && b.level == LevelAt(config, name, j);
    assert i == j;
    assert a.options == b.options;
  }

  /** The promises determine the merge. */
  lemma MergeIsUnique(config: Config, chosen: seq<bool>, normalize: Name -> Name, a: Merged, b: Merged)
    requires |chosen| == |config| && IsMerge(config, chosen, normalize, a) && IsMerge(config, chosen, normalize, b)
    ensures a == b
  {
    forall name | name in a.rules ensures name in b.rules && a.rules[name] == b.rules[name] {
      RuleOfBoth(config, chosen, name, a.rules, b.rules);
    }
    forall name | name in b.rules ensures name in a.rules {
      RuleOfBoth(config, chosen, name, b.rules, a.rules);
    }
    assert a.rules == b.rules;
  }

  lemma RuleOfBoth(config: Config, chosen: seq<bool>, name: Name, a: map<Name, RuleConfig>, b: map<Name, RuleConfig>)
    requires |chosen| == |config| && name in a
    requires RulesAre(config, chosen, |config|, a) && RulesAre(config, chosen, |config|, b)
    ensures name in b && a[name] == b[name]
  {
    assert RuleIs(config, chosen, name, |config|, a[name]);
    var i :| LastMention(config, chosen, name, |config|, i);
    RuleIsUnique(config, chosen, name, |config|, a[name], b[name]);
  }

  // ---- The caches ------------------------------------------------------------

  datatype Target = Target(path: string, canonicalPath: string, canonicalParentPath: string)

  datatype Plan = Plan(merged: Merged, enabledRules: seq<Name>)

  datatype Resolution = Resolution(globallyIgnored: bool, plan: Option<Plan>)

  /** Everything a resolver is built from; it never changes during a run. */
  datatype Setup = Setup(
    config: Config,
    facts: Target -> Facts,
    normalizePath: string -> string,
    normalizePlugin: Name -> Name,
    enabledRules: Merged -> seq<Name>)

  function CacheKey(s: Setup, t: Target): Target {
    Target(s.normalizePath(t.path), s.normalizePath(t.canonicalPath), s.normalizePath(t.canonicalParentPath))
  }

  ghost predicate IsPlan(s: Setup, chosen: seq<bool>, p: Plan)
    requires |chosen| == |s.config|
  {
    IsMerge(s.config, chosen, s.normalizePlugin, p.merged) && p.enabledRules == s.enabledRules(p.merged)
  }

  /** Resolution without any cache: select, then merge. */
  ghost predicate Resolves(s: Setup, t: Target, r: Resolution) {
    var facts := s.facts(t);
    && r.globallyIgnored == facts.blocked
    && (r.plan.Some? <==> HasConfig(s.config, facts))
    && (r.plan.Some? ==> IsPlan(s, Chosen(s.config, facts), r.plan.value))
  }

  lemma ResolutionIsUnique(s: Setup, t: Target, a: Resolution, b: Resolution)
    requires Resolves(s, t, a) && Resolves(s, t, b)
    ensures a == b
  {
    hide IsMerge;
    if a.plan.Some? {
      MergeIsUnique(s.config, Chosen(s.config, s.facts(t)), s.normalizePlugin, a.plan.value.merged, b.plan.value.merged);
    }
  }

  ghost predicate ShapeIs(s: Setup, key: MatchKey, p: Plan) {
    exists chosen: seq<bool> :: |chosen| == |s.config| && KeyOf(chosen, |chosen|) == key && IsPlan(s, chosen, p)
  }

  lemma ShapeFitsSelection(s: Setup, chosen: seq<bool>, p: Plan)
    requires |chosen| == |s.config| && ShapeIs(s, KeyOf(chosen, |chosen|), p)
    ensures IsPlan(s, chosen, p)
  {
    hide KeyOf, IsMerge, IsPlan;
    var other: seq<bool> :| |other| == |s.config| && KeyOf(other, |other|) == KeyOf(chosen, |chosen|) && IsPlan(s, other, p);
    KeysAreExact(other, chosen);
  }

  class FileConfigResolver {
    const setup: Setup
    var filePlans: map<Target, Resolution>
    var shapePlans: map<MatchKey, Plan>

    ghost predicate Valid()
      reads this
    {
      && (forall t :: t in filePlans ==> Resolves(setup, t, filePlans[t]))
      && (forall k :: k in shapePlans ==> ShapeIs(setup, k, shapePlans[k]))
    }

    constructor (setup: Setup)
      ensures Valid() && this.setup == setup
    {
      this.setup, filePlans, shapePlans := setup, map[], map[];
    }

    method PlanForShape(key: MatchKey, ghost chosen: seq<bool>) returns (plan: Plan)
      requires Valid() && |chosen| == |setup.config| && key == KeyOf(chosen, |chosen|)
      modifies this`shapePlans
      ensures Valid() && IsPlan(setup, chosen, plan)
      ensures key in shapePlans && forall k :: k in old(shapePlans) ==> k in shapePlans && shapePlans[k] == old(shapePlans)[k]
    {
      hide KeyOf, IsMerge;
      if key in shapePlans {
        plan := shapePlans[key];
        ShapeFitsSelection(setup, chosen, plan);
      } else {
        var merged := MergeConfigEntries(setup.config, key, setup.normalizePlugin, chosen);
        plan := Plan(merged, setup.enabledRules(merged));
        assert IsPlan(setup, chosen, plan);
        shapePlans := shapePlans[key := plan];
      }
    }

    /** Whatever the caches hold, the answer is the one computed directly. */
    method ResolutionForTarget(target: Target) returns (r: Resolution)
      requires Valid()
      modifies this
      ensures Valid() && Resolves(setup, CacheKey(setup, target), r)
      ensures CacheKey(setup, target) == Target(setup.normalizePath(target.path), setup.normalizePath(target.canonicalPath),
                                                setup.normalizePath(target.canonicalParentPath))
      ensures CacheKey(setup, target) in old(filePlans) ==> r == old(filePlans)[CacheKey(setup, target)]
    {
      hide KeyOf, IsPlan, HasConfig, ShapeIs;
      var cacheKey := CacheKey(setup, target);
      if cacheKey in filePlans {
        return filePlans[cacheKey];
      }
      var facts := setup.facts(cacheKey);
      var key, ok := MatchConfigEntries(setup.config, facts);
      r := Resolution(facts.blocked, None);
      if ok {
        var plan := PlanForShape(key, Chosen(setup.config, facts));
        r := r.(plan := Some(plan));
      }
      filePlans := filePlans[cacheKey := r];
    }
  }
}
