/** `has_ancestry`: checking the options a model passes and turning them into
    the tree configuration (ancestry column, orphan strategy, base class and
    the optional depth cache column). The class-level accessors become one
    explicit configuration value. */
module Options {
  import opened RubyValues

  /** The exceptions `has_ancestry` and the depth scopes raise. */
  datatype Error =
    | OptionMustBeHash
    | UnknownOption(key: Value, value: Value)
    | NamedScopeDepthCache(scopeName: Value)

  /** The configuration of one tree model. `depthCacheColumn` is `None`
      exactly when depth caching is off. */
  datatype Config = Config(
    baseClass: string,
    ancestryColumn: Value,
    orphanStrategy: Value,
    depthCacheColumn: Option<Value>)

  const AncestryColumnKey: Value := Sym("ancestry_column")
  const OrphanStrategyKey: Value := Sym("orphan_strategy")
  const CacheDepthKey: Value := Sym("cache_depth")
  const DepthCacheColumnKey: Value := Sym("depth_cache_column")

  const DefaultAncestryColumn: Value := Sym("ancestry")
  const DefaultOrphanStrategy: Value := Sym("destroy")
  const DefaultDepthCacheColumn: Value := Sym("ancestry_depth")

  /** The four option names `has_ancestry` accepts. */
  predicate KnownOption(key: Value) {
    key in [AncestryColumnKey, OrphanStrategyKey, CacheDepthKey, DepthCacheColumnKey]
  }

  /** The position of the first entry whose key is not a known option, or
      `|entries|` when every key is known. */
  function FirstUnknown(entries: seq<(Value, Value)>): (k: nat)
    ensures k <= |entries|
    ensures forall j :: 0 <= j < k ==> KnownOption(entries[j].0)
    ensures k < |entries| ==> !KnownOption(entries[k].0)
  {
    if entries == [] || !KnownOption(entries[0].0) then 0
    else 1 + FirstUnknown(entries[1..])
  }

  /** The configuration read from a hash of known options: each absent or
      falsy option takes its default, and the depth cache column exists only
      when `cache_depth` is truthy. */
  function Configure(baseClass: string, entries: seq<(Value, Value)>): (cfg: Config)
    ensures Truthy(cfg.ancestryColumn) && Truthy(cfg.orphanStrategy)
    ensures cfg.depthCacheColumn.Some? <==> Truthy(Lookup(entries, CacheDepthKey))
    ensures cfg.depthCacheColumn.Some? ==> Truthy(cfg.depthCacheColumn.value)
    ensures Truthy(Lookup(entries, AncestryColumnKey)) ==> cfg.ancestryColumn == Lookup(entries, AncestryColumnKey)
    ensures Truthy(Lookup(entries, OrphanStrategyKey)) ==> cfg.orphanStrategy == Lookup(entries, OrphanStrategyKey)
  {
    Config(
      baseClass,
      Or(Lookup(entries, AncestryColumnKey), DefaultAncestryColumn),
      Or(Lookup(entries, OrphanStrategyKey), DefaultOrphanStrategy),
      if Truthy(Lookup(entries, CacheDepthKey))
      then Some(Or(Lookup(entries, DepthCacheColumnKey), DefaultDepthCacheColumn))
      else None)
  }

  /** What `has_ancestry options` produces for the model `baseClass`: an
      error for a non-hash argument or for the first unknown key, and the
      configuration otherwise. */
  function ParseOptions(baseClass: string, options: Value): (r: Result<Config, Error>)
    ensures r.Ok? <==> options.HashVal? && forall i :: 0 <= i < |options.entries| ==> KnownOption(options.entries[i].0)
    ensures !options.HashVal? ==> r == Err(OptionMustBeHash)
    ensures r.Ok? ==> r.value.baseClass == baseClass
  {
    if !options.HashVal? then Err(OptionMustBeHash)
    else
      var k := FirstUnknown(options.entries);
      if k < |options.entries| then Err(UnknownOption(options.entries[k].0, options.entries[k].1))
      else Ok(Configure(baseClass, options.entries))
  }

  /** `has_ancestry`: rejects a non-hash argument, walks the options raising
      on the first unknown key, then sets each setting to the supplied value
      or its default. */
  method HasAncestry(baseClass: string, options: Value) returns (r: Result<Config, Error>)
    ensures r == ParseOptions(baseClass, options)
  {
    if !options.HashVal? {
      return Err(OptionMustBeHash);
    }
    var entries := options.entries;
    var i := 0;
    while i < |entries|
      invariant 0 <= i <= |entries|
      invariant forall j :: 0 <= j < i ==> KnownOption(entries[j].0)
    {
      var (key, value) := entries[i];
      if !KnownOption(key) {
        return Err(UnknownOption(key, value));
      }
      i := i + 1;
    }
    var ancestryColumn := Lookup(entries, AncestryColumnKey);
    if !Truthy(ancestryColumn) {
      ancestryColumn := DefaultAncestryColumn;
    }
    var orphanStrategy := Lookup(entries, OrphanStrategyKey);
    if !Truthy(orphanStrategy) {
      orphanStrategy := DefaultOrphanStrategy;
    }
    var depthCacheColumn := None;
    if Truthy(Lookup(entries, CacheDepthKey)) {
      var column := Lookup(entries, DepthCacheColumnKey);
      if !Truthy(column) {
        column := DefaultDepthCacheColumn;
      }
      depthCacheColumn := Some(column);
    }
    r := Ok(Config(baseClass, ancestryColumn, orphanStrategy, depthCacheColumn));
  }

  /** A rejected hash names an entry of that hash whose key is unknown, and
      every entry before it has a known key. */
  lemma UnknownOptionReported(baseClass: string, options: Value)
    requires options.HashVal?
    requires ParseOptions(baseClass, options).Err?
    ensures ParseOptions(baseClass, options).error.UnknownOption?
    ensures exists k :: (0 <= k < |options.entries|
      && ParseOptions(baseClass, options).error == UnknownOption(options.entries[k].0, options.entries[k].1)
      && !KnownOption(options.entries[k].0)
      && forall j :: 0 <= j < k ==> KnownOption(options.entries[j].0))
  {
    var k := FirstUnknown(options.entries);
    assert k < |options.entries|;
  }

  /** Omitting an option, or passing `nil` or `false` for it, selects the
      default ancestry column and orphan strategy. */
  lemma DefaultsWhenAbsent(baseClass: string, options: Value)
    requires ParseOptions(baseClass, options).Ok?
    ensures !Truthy(Lookup(options.entries, AncestryColumnKey))
      ==> ParseOptions(baseClass, options).value.ancestryColumn == Sym("ancestry")
    ensures !Truthy(Lookup(options.entries, OrphanStrategyKey))
      ==> ParseOptions(baseClass, options).value.orphanStrategy == Sym("destroy")
  {
  }

  /** A supplied truthy ancestry column or orphan strategy is kept as it is. */
  lemma GivenValuesKept(baseClass: string, options: Value, key: Value, value: Value)
    requires ParseOptions(baseClass, options).Ok?
    requires UniqueKeys(options.entries) && (key, value) in options.entries && Truthy(value)
    ensures key == AncestryColumnKey ==> ParseOptions(baseClass, options).value.ancestryColumn == value
    ensures key == OrphanStrategyKey ==> ParseOptions(baseClass, options).value.orphanStrategy == value
  {
    var i :| 0 <= i < |options.entries| && options.entries[i] == (key, value);
  }

  /** The depth cache column exists exactly when `cache_depth` is truthy; it
      is the supplied `depth_cache_column` when that is truthy and
      `:ancestry_depth` otherwise. A `depth_cache_column` without
      `cache_depth` is accepted and ignored. */
  lemma DepthCacheColumnRule(baseClass: string, options: Value)
    requires ParseOptions(baseClass, options).Ok?
    ensures ParseOptions(baseClass, options).value.depthCacheColumn.Some?
      <==> Truthy(Lookup(options.entries, CacheDepthKey))
    ensures ParseOptions(baseClass, options).value.depthCacheColumn.Some? ==>
      var given := Lookup(options.entries, DepthCacheColumnKey);
      ParseOptions(baseClass, options).value.depthCacheColumn.value
        == if Truthy(given) then given else Sym("ancestry_depth")
  {
  }

  /** `has_ancestry` with no options gives every default and no depth cache. */
  lemma NoOptionsGiveDefaults(baseClass: string)
    ensures ParseOptions(baseClass, HashVal([]))
      == Ok(Config(baseClass, Sym("ancestry"), Sym("destroy"), None))
  {
  }
}
