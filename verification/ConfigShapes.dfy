/** Flat-config resolution: which entries apply to a file, the exact key of that
    set, and what merging them gives. */
module ConfigShapes {
  import opened Wrappers
  import opened ConfigValues

  type RuleOptions = seq<string>

  /** A rule value as written: unusable, a severity, or a severity with options. */
  datatype RuleValue = Malformed | Severity(level: string) | Configured(level: string, options: RuleOptions)

  datatype Entry = Entry(
    globalIgnore: bool,
    hasSelectors: bool,
    rules: map<Name, RuleValue>,
    plugins: seq<Name>,
    settings: Option<Fields>,
    languageOptions: Option<LanguageOptions>)

  type Config = seq<Entry>

  // ---- The key ---------------------------------------------------------------

  datatype MatchKey = MatchKey(first: bv64, tail: seq<bv8>)

  const EMPTY_KEY: MatchKey := MatchKey(0, [])

  function Bit64(index: nat): bv64
    requires index < 64
  {
    1 << index
  }

  lemma BitsApart(word: bv64, i: nat, j: nat)
    requires i < 64 && j < 64
    ensures ((word | Bit64(i)) & Bit64(j) != 0) <==> (i == j || word & Bit64(j) != 0)
  {}

  function WordWith(word: bv64, index: nat): bv64
    requires index < 64
  {
    word | Bit64(index)
  }

  predicate WordHas(word: bv64, index: nat)
    requires index < 64
  {
    word & Bit64(index) != 0
  }

  function ByteWith(b: bv8, index: nat): bv8
    requires index < 8
  {
    b | ((1 as bv8) << index)
  }

  predicate ByteHas(b: bv8, index: nat)
    requires index < 8
  {
    b & ((1 as bv8) << index) != 0
  }

  lemma WordBits(word: bv64, i: nat, j: nat)
    requires i < 64 && j < 64
    ensures WordHas(WordWith(word, i), j) <==> i == j || WordHas(word, j)
  {
    BitsApart(word, i, j);
  }

  lemma ZeroWord(j: nat)
    requires j < 64
    ensures !WordHas(0, j)
  {}

  lemma ByteBits(b: bv8, i: nat, j: nat)
    requires i < 8 && j < 8
    ensures ByteHas(ByteWith(b, i), j) <==> i == j || ByteHas(b, j)
    ensures !ByteHas(0, j)
  {}

  /** Bytes for the entries after the first 64. */
  function TailBytes(entries: nat): nat {
    if entries > 64 then (entries - 64 + 7) / 8 else 0
  }

  predicate HasRoom(key: MatchKey, index: nat) {
    index < 64 || (index - 64) / 8 < |key.tail|
  }

  function Add(key: MatchKey, index: nat): MatchKey
    requires HasRoom(key, index)
  {
    if index < 64 then key.(first := WordWith(key.first, index))
    else
      var at := index - 64;
      key.(tail := key.tail[at / 8 := ByteWith(key.tail[at / 8], at % 8)])
  }

  predicate Contains(key: MatchKey, index: nat)
    requires HasRoom(key, index)
  {
    if index < 64 then WordHas(key.first, index)
    else
      var at := index - 64;
      ByteHas(key.tail[at / 8], at % 8)
  }

  lemma AddContains(key: MatchKey, i: nat, j: nat)
    requires HasRoom(key, i) && HasRoom(key, j)
    ensures HasRoom(Add(key, i), j)
    ensures Contains(Add(key, i), j) <==> i == j || Contains(key, j)
  {
    hide WordWith, WordHas, ByteWith, ByteHas;
    if i < 64 {
      if j < 64 {
        WordBits(key.first, i, j);
      }
    } else if j >= 64 {
      TailContains(key.tail, i - 64, j - 64);
    }
  }

  lemma TailContains(tail: seq<bv8>, a: nat, b: nat)
    requires a / 8 < |tail| && b / 8 < |tail|
    ensures var grown := tail[a / 8 := ByteWith(tail[a / 8], a % 8)];
      ByteHas(grown[b / 8], b % 8) <==> a == b || ByteHas(tail[b / 8], b % 8)
  {
    hide ByteWith, ByteHas;
    if a / 8 == b / 8 {
      ByteBits(tail[a / 8], a % 8, b % 8);
      assert a % 8 == b % 8 ==> a == b;
    }
  }

  function NoEntries(entries: nat): MatchKey {
    MatchKey(0, seq(TailBytes(entries), _ => 0))
  }

  lemma RoomForAll(key: MatchKey, entries: nat, index: nat)
    requires |key.tail| == TailBytes(entries) && index < entries
    ensures HasRoom(key, index)
  {}

  lemma NoEntriesContainsNone(entries: nat, index: nat)
    requires index < entries
    ensures HasRoom(NoEntries(entries), index) && !Contains(NoEntries(entries), index)
  {
    hide WordWith, WordHas, ByteWith, ByteHas;
    RoomForAll(NoEntries(entries), entries, index);
    if index < 64 {
      ZeroWord(index);
    } else {
      ByteBits(0, 0, (index - 64) % 8);
    }
  }

  /** The key of a selection of entries. */
  function KeyOf(chosen: seq<bool>, n: nat): (key: MatchKey)
    requires n <= |chosen|
    ensures |key.tail| == TailBytes(|chosen|)
  {
    if n == 0 then NoEntries(|chosen|)
    else
      var before := KeyOf(chosen, n - 1);
      RoomForAll(before, |chosen|, n - 1);
      if chosen[n - 1] then Add(before, n - 1) else before
  }

  lemma {:induction false} KeyContains(chosen: seq<bool>, n: nat, index: nat)
    requires n <= |chosen| && index < |chosen|
    ensures HasRoom(KeyOf(chosen, n), index)
    ensures Contains(KeyOf(chosen, n), index) <==> index < n && chosen[index]
  {
    hide Contains, HasRoom, Add, NoEntries;
    RoomForAll(KeyOf(chosen, n), |chosen|, index);
    if n == 0 {
      NoEntriesContainsNone(|chosen|, index);
    } else {
      KeyContains(chosen, n - 1, index);
      var before := KeyOf(chosen, n - 1);
      RoomForAll(before, |chosen|, n - 1);
      if chosen[n - 1] {
        AddContains(before, n - 1, index);
      }
    }
  }

  /** Keys identify selections: equal exactly when the same entries were chosen,
      however long the config is. */
  lemma KeysAreExact(a: seq<bool>, b: seq<bool>)
    requires |a| == |b|
    ensures KeyOf(a, |a|) == KeyOf(b, |b|) <==> a == b
  {
    if KeyOf(a, |a|) == KeyOf(b, |b|) {
      forall i | 0 <= i < |a| ensures a[i] == b[i] {
        KeyContains(a, |a|, i);
        KeyContains(b, |b|, i);
      }
    }
  }

  // ---- Selection -------------------------------------------------------------

  /** What the path says about one file: whether global ignores or a blocked
      directory take it out, whether it is linted by default, and per entry
      whether its selectors match and its ignores do. */
  datatype Facts = Facts(blocked: bool, byDefault: bool, selected: nat -> bool, ignored: nat -> bool)

  predicate Contributes(config: Config, facts: Facts, i: nat)
    requires i < |config|
  {
    !config[i].globalIgnore && (config[i].hasSelectors ==> facts.selected(i)) && !facts.ignored(i)
  }

  function Chosen(config: Config, facts: Facts): (chosen: seq<bool>)
    ensures |chosen| == |config|
  {
    seq(|config|, i requires 0 <= i < |config| => Contributes(config, facts, i))
  }

  /** A file has a config when nothing takes it out, some entry contributes, and
      it is linted by default or a contributing entry selects it by name. */
  ghost predicate HasConfig(config: Config, facts: Facts) {
    && !facts.blocked
    && (exists i :: 0 <= i < |config| && Contributes(config, facts, i))
    && (facts.byDefault || exists i :: 0 <= i < |config| && Contributes(config, facts, i) && config[i].hasSelectors)
  }

  // Some entry that is not taken out by ignores names the file with its selectors.
  ghost predicate SelectedByName(config: Config, facts: Facts) {
    exists i :: 0 <= i < |config| && !config[i].globalIgnore && !facts.ignored(i) && config[i].hasSelectors && facts.selected(i)
  }

  /** When a file has a config, entry by entry. */
  lemma HasConfigMeans(config: Config, facts: Facts)
    ensures HasConfig(config, facts) <==>
      !facts.blocked && exists i ::
        (0 <= i < |config| && !config[i].globalIgnore && !facts.ignored(i)
         && if config[i].hasSelectors then facts.selected(i) else facts.byDefault || SelectedByName(config, facts))
  {
    if SelectedByName(config, facts) {
      var i :| 0 <= i < |config| && !config[i].globalIgnore && !facts.ignored(i) && config[i].hasSelectors && facts.selected(i);
      assert Contributes(config, facts, i);
    }
    if i :| (0 <= i < |config| && !config[i].globalIgnore && !facts.ignored(i)
             && if config[i].hasSelectors then facts.selected(i) else facts.byDefault || SelectedByName(config, facts)) {
      assert Contributes(config, facts, i);
    }
    if i :| 0 <= i < |config| && Contributes(config, facts, i) && config[i].hasSelectors {
      assert SelectedByName(config, facts);
    }
  }

  method MatchConfigEntries(config: Config, facts: Facts) returns (key: MatchKey, ok: bool)
    ensures ok <==> HasConfig(config, facts)
    ensures key == if ok then KeyOf(Chosen(config, facts), |config|) else EMPTY_KEY
    ensures ok ==> forall i :: 0 <= i < |config| ==>
      && HasRoom(key, i)
      && (Contains(key, i) <==> !config[i].globalIgnore && (config[i].hasSelectors ==> facts.selected(i)) && !facts.ignored(i))
  {
    if facts.blocked {
      return EMPTY_KEY, false;
    }
    ghost var chosen := Chosen(config, facts);
    var selected, matched := facts.byDefault, false;
    key := NoEntries(|config|);
    for i := 0 to |config|
      invariant key == KeyOf(chosen, i)
      invariant matched <==> exists k :: 0 <= k < i && Contributes(config, facts, k)
      invariant selected <==> facts.byDefault || exists k :: 0 <= k < i && Contributes(config, facts, k) && config[k].hasSelectors
    {
      hide Add, HasRoom, NoEntries;
      var entry := config[i];
      RoomForAll(key, |config|, i);
      if !entry.globalIgnore && (!entry.hasSelectors || facts.selected(i)) && !facts.ignored(i) {
        assert Contributes(config, facts, i);
        matched := true;
        if entry.hasSelectors {
          selected := true;
        }
        key := Add(key, i);
      }
    }
    if !selected || !matched {
      return EMPTY_KEY, false;
    }
    ok := true;
    hide KeyOf, HasRoom, Contains;
    forall i | 0 <= i < |config|
      ensures HasRoom(key, i) && (Contains(key, i) <==> Contributes(config, facts, i))
    {
      KeyContains(chosen, |config|, i);
    }
  }
}
