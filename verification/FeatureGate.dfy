/** Feature flags (src/feature_gate/mod.rs) and their reload subscriber
    (src/feature_gate/config_subscriber.rs). */
module FeatureGate {
  import opened Prelude

  datatype Flag = Streaming | Replay | ConnectorHealth | SemanticCache | WasmPlugins

  /** The kebab-case name a flag is configured under. */
  function FlagName(flag: Flag): string {
    match flag
    case Streaming => "streaming"
    case Replay => "replay"
    case ConnectorHealth => "connector-health"
    case SemanticCache => "semantic-cache"
    case WasmPlugins => "wasm-plugins"
  }

  datatype Definition = Definition(id: Flag, defaultEnabled: bool)

  type FeatureConfig = map<string, bool>

  datatype Features = Features(states: map<Flag, bool>, overridden: set<Flag>, lookup: map<string, Flag>)

  function DefaultStates(definitions: seq<Definition>): map<Flag, bool> {
    if definitions == [] then map[] else
    var last := definitions[|definitions| - 1];
    DefaultStates(definitions[..|definitions| - 1])[last.id := last.defaultEnabled]
  }

  function LookupOf(definitions: seq<Definition>): map<string, Flag> {
    if definitions == [] then map[] else
    var last := definitions[|definitions| - 1];
    LookupOf(definitions[..|definitions| - 1])[FlagName(last.id) := last.id]
  }

  function New(definitions: seq<Definition>): Features {
    Features(DefaultStates(definitions), {}, LookupOf(definitions))
  }

  predicate IsEnabled(f: Features, flag: Flag) {
    flag in f.states && f.states[flag]
  }

  /** No flag is looked up under two names. */
  ghost predicate WellFormed(f: Features) {
    forall a, b :: a in f.lookup && b in f.lookup && f.lookup[a] == f.lookup[b] ==> a == b
  }

  ghost predicate NamedBy(f: Features, config: FeatureConfig, flag: Flag, name: string) {
    name in config && name in f.lookup && f.lookup[name] == flag
  }

  /** What a configuration says of a flag; names it cannot look up are ignored. */
  ghost function ValueIn(f: Features, config: FeatureConfig, flag: Flag): Option<bool> {
    if exists name :: NamedBy(f, config, flag, name) then
      var name :| NamedBy(f, config, flag, name);
      Some(config[name])
    else
      None
  }

  ghost function Applied(f: Features, config: FeatureConfig): Features {
    var named := set flag | flag in f.lookup.Values && ValueIn(f, config, flag).Some?;
    f.(states := map flag | flag in f.states.Keys + named ::
                   if ValueIn(f, config, flag).Some? then ValueIn(f, config, flag).value else f.states[flag],
       overridden := f.overridden + named)
  }

  class FeatureRegistry {
    var states: map<Flag, bool>
    var overridden: set<Flag>
    var lookup: map<string, Flag>

    ghost function View(): Features
      reads this
    {
      Features(states, overridden, lookup)
    }

    constructor (definitions: seq<Definition>)
      ensures View() == New(definitions)
    {
      states, overridden, lookup := DefaultStates(definitions), {}, LookupOf(definitions);
    }

    method ApplyConfig(config: FeatureConfig)
      requires WellFormed(View())
      modifies `states, `overridden
      ensures View() == Applied(old(View()), config)
    {
      var g := InsertEntries(Features(states, overridden, lookup), config);
      states, overridden := g.states, g.overridden;
    }
  }

  /** Inserts entry by entry, in whatever order the map yields them. */
  method InsertEntries(f: Features, config: FeatureConfig) returns (g: Features)
    requires WellFormed(f)
    ensures g == Applied(f, config)
  {
    g := f;
    var pending := config.Keys;
    ghost var seen: FeatureConfig := map[];
    while pending != {}
      invariant pending <= config.Keys && g.lookup == f.lookup
      invariant seen == map name | name in config && name !in pending :: config[name]
      invariant forall flag :: Tracks(f, seen, g, flag)
      decreases pending
    {
      var name :| name in pending;
      ghost var seen' := seen[name := config[name]];
      var g' := g;
      if name in g.lookup {
        g' := g.(states := g.states[g.lookup[name] := config[name]], overridden := g.overridden + {g.lookup[name]});
      }
      forall flag
        ensures Tracks(f, seen', g', flag)
      {
        assert Tracks(f, seen, g, flag);
        TracksInsert(f, seen, name, config[name], g, flag);
      }
      g, seen := g', seen';
      pending := pending - {name};
    }
    assert seen == config;
    TracksAll(f, config, g);
  }

  /** `g` has of one flag what `config` makes of it. */
  ghost predicate Tracks(f: Features, config: FeatureConfig, g: Features, flag: Flag) {
    match ValueIn(f, config, flag)
    case Some(value) => flag in g.states && g.states[flag] == value && flag in g.overridden
    case None =>
      && (flag in g.states <==> flag in f.states)
      && (flag in f.states ==> g.states[flag] == f.states[flag])
      && (flag in g.overridden <==> flag in f.overridden)
  }

  function Inserted(g: Features, name: string, value: bool): Features {
    if name in g.lookup then
      g.(states := g.states[g.lookup[name] := value], overridden := g.overridden + {g.lookup[name]})
    else
      g
  }

  lemma TracksInsert(f: Features, config: FeatureConfig, name: string, value: bool, g: Features, flag: Flag)
    requires WellFormed(f) && name !in config && g.lookup == f.lookup && Tracks(f, config, g, flag)
    ensures Tracks(f, config[name := value], Inserted(g, name, value), flag)
  {
    ValueInsert(f, config, name, value, flag);
  }

  lemma NamedHasName(f: Features, config: FeatureConfig, flag: Flag)
    requires ValueIn(f, config, flag).Some?
    ensures flag in f.lookup.Values
  {
    var name :| NamedBy(f, config, flag, name);
    assert f.lookup[name] in f.lookup.Values;
  }

  lemma AppliedTracks(f: Features, config: FeatureConfig, flag: Flag)
    ensures Tracks(f, config, Applied(f, config), flag)
  {
    if ValueIn(f, config, flag).Some? {
      NamedHasName(f, config, flag);
    }
  }

  lemma TracksAll(f: Features, config: FeatureConfig, g: Features)
    requires g.lookup == f.lookup && forall flag :: Tracks(f, config, g, flag)
    ensures g == Applied(f, config)
  {
    var h := Applied(f, config);
    forall flag
      ensures flag in g.states <==> flag in h.states
      ensures flag in g.states ==> g.states[flag] == h.states[flag]
      ensures flag in g.overridden <==> flag in h.overridden
    {
      AppliedTracks(f, config, flag);
      assert Tracks(f, config, g, flag);
    }
    assert g.states == h.states && g.overridden == h.overridden;
  }

  lemma ValueInsert(f: Features, config: FeatureConfig, name: string, value: bool, flag: Flag)
    requires WellFormed(f) && name !in config
    ensures ValueIn(f, config[name := value], flag)
            == if name in f.lookup && f.lookup[name] == flag then Some(value) else ValueIn(f, config, flag)
  {
    var more := config[name := value];
    if name in f.lookup && f.lookup[name] == flag {
      assert NamedBy(f, more, flag, name);
    } else {
      assert forall n :: NamedBy(f, more, flag, n) <==> NamedBy(f, config, flag, n);
    }
  }

  // ---- Runs ----

  ghost function AppliedAll(f: Features, configs: seq<FeatureConfig>): Features {
    if configs == [] then f else Applied(AppliedAll(f, configs[..|configs| - 1]), configs[|configs| - 1])
  }

  /** What the last configuration to name the flag says of it. */
  ghost function Latest(f: Features, configs: seq<FeatureConfig>, flag: Flag): Option<bool> {
    if configs == [] then None else
    var value := ValueIn(f, configs[|configs| - 1], flag);
    if value.Some? then value else Latest(f, configs[..|configs| - 1], flag)
  }

  /** After any sequence of applied configurations a flag has the value the last one naming
      it gave it, else the value it began with; and it counts as overridden exactly when
      some configuration named it. */
  lemma {:induction false} LatestWins(f: Features, configs: seq<FeatureConfig>, flag: Flag)
    requires WellFormed(f)
    ensures var g := AppliedAll(f, configs);
            && g.lookup == f.lookup
            && IsEnabled(g, flag)
               == (match Latest(f, configs, flag) case Some(value) => value case None => IsEnabled(f, flag))
            && (flag in g.overridden <==> flag in f.overridden || Latest(f, configs, flag).Some?)
    decreases |configs|
  {
    if configs != [] {
      var before, last := AppliedAll(f, configs[..|configs| - 1]), configs[|configs| - 1];
      LatestWins(f, configs[..|configs| - 1], flag);
      AppliedTracks(before, last, flag);
      SameLookup(f, before, last, flag);
    }
  }

  lemma SameLookup(f: Features, g: Features, config: FeatureConfig, flag: Flag)
    requires WellFormed(f) && f.lookup == g.lookup
    ensures ValueIn(f, config, flag) == ValueIn(g, config, flag)
  {
    assert forall name :: NamedBy(f, config, flag, name) <==> NamedBy(g, config, flag, name);
  }

  ghost predicate Defines(definitions: seq<Definition>, flag: Flag) {
    exists i :: 0 <= i < |definitions| && definitions[i].id == flag
  }

  lemma {:induction false} LookupSpec(definitions: seq<Definition>, name: string)
    ensures name in LookupOf(definitions) ==>
              var flag := LookupOf(definitions)[name];
              name == FlagName(flag) && Defines(definitions, flag)
    ensures forall flag :: Defines(definitions, flag) ==> FlagName(flag) in LookupOf(definitions)
    decreases |definitions|
  {
    if definitions != [] {
      var front, last := definitions[..|definitions| - 1], definitions[|definitions| - 1];
      LookupSpec(front, name);
      assert Defines(definitions, last.id);
      forall flag
        ensures Defines(definitions, flag) <==> Defines(front, flag) || flag == last.id
      {
        if Defines(front, flag) {
          var i :| 0 <= i < |front| && front[i].id == flag;
          assert definitions[i].id == flag;
        }
        if Defines(definitions, flag) && flag != last.id {
          var i :| 0 <= i < |definitions| && definitions[i].id == flag;
          assert front[i].id == flag;
        }
      }
    }
  }

  /** The position of the last definition of a flag, or -1. */
  function LastDefinition(definitions: seq<Definition>, flag: Flag): int
    ensures -1 <= LastDefinition(definitions, flag) < |definitions|
  {
    if definitions == [] then -1
    else if definitions[|definitions| - 1].id == flag then |definitions| - 1
    else LastDefinition(definitions[..|definitions| - 1], flag)
  }

  /** A new registry has overridden nothing, and a flag is on exactly when its last definition
      has it on by default; one that is not defined is off. */
  lemma {:induction false} NewDefaults(definitions: seq<Definition>, flag: Flag)
    ensures New(definitions).overridden == {}
    ensures var i := LastDefinition(definitions, flag);
            IsEnabled(New(definitions), flag) <==> i >= 0 && definitions[i].defaultEnabled
    decreases |definitions|
  {
    if definitions != [] {
      NewDefaults(definitions[..|definitions| - 1], flag);
    }
  }

  lemma NewIsWellFormed(definitions: seq<Definition>)
    ensures WellFormed(New(definitions))
  {
    var lookup := LookupOf(definitions);
    forall a, b | a in lookup && b in lookup && lookup[a] == lookup[b]
      ensures a == b
    {
      LookupSpec(definitions, a);
      LookupSpec(definitions, b);
    }
  }

  /** A configuration speaks of a defined flag under its kebab-case name and no other. */
  lemma ValueByName(definitions: seq<Definition>, config: FeatureConfig, flag: Flag)
    ensures ValueIn(New(definitions), config, flag)
            == if FlagName(flag) in config && Defines(definitions, flag) then Some(config[FlagName(flag)]) else None
  {
    var f := New(definitions);
    forall name
      ensures NamedBy(f, config, flag, name) <==> name == FlagName(flag) && name in config && Defines(definitions, flag)
    {
      LookupSpec(definitions, name);
      if name == FlagName(flag) && name in f.lookup {
        FlagNameInjective(flag, f.lookup[name]);
      }
    }
  }

  lemma FlagNameInjective(a: Flag, b: Flag)
    requires FlagName(a) == FlagName(b)
    ensures a == b
  {
    assert FlagName(Streaming)[1] == 't' && FlagName(SemanticCache)[1] == 'e';
    assert FlagName(Streaming)[0] == 's' && FlagName(SemanticCache)[0] == 's' && FlagName(Replay)[0] == 'r';
    assert FlagName(ConnectorHealth)[0] == 'c' && FlagName(WasmPlugins)[0] == 'w';
  }
}
