/** The subscribers of a configuration reload: API keys (src/middleware/auth.rs), rate limits
    (src/middleware/rate_limit.rs), feature flags (src/feature_gate/config_subscriber.rs) and
    providers (src/providers/registry.rs). Each stages on prepare and swaps on commit. */
module Subscribers {
  import opened Prelude
  import Auth
  import RateLimiter
  import FeatureGate
  import opened ProviderRegistry
  import opened ProviderRouting

  datatype AppConfig = AppConfig(
    auth: Auth.AuthConfig,
    limits: RateLimiter.Config,
    features: FeatureGate.FeatureConfig,
    providers: map<string, ProviderConfig>)

  datatype Subscriber =
    | KeysSubscriber(reloader: Auth.Reloader)
    | LimitsSubscriber(limits: RateLimiter.Config, stagedLimits: Option<RateLimiter.Config>)
    | FeaturesSubscriber(features: FeatureGate.Features, pending: Option<FeatureGate.FeatureConfig>)
    | ProvidersSubscriber(registry: Registry<string, string>)

  function Priority(s: Subscriber): nat {
    match s
    case KeysSubscriber(_) => 1
    case LimitsSubscriber(_, _) => 2
    case FeaturesSubscriber(_, _) => 0
    case ProvidersSubscriber(_) => 10
  }

  /** `order` is the order in which a provider map is iterated; the others do not look at it. */
  ghost predicate CanPrepare(s: Subscriber, config: AppConfig, order: seq<string>) {
    s.ProvidersSubscriber? ==> Enumerates(order, config.providers.Keys)
  }

  ghost predicate CanCommit(s: Subscriber, order: seq<string>) {
    s.ProvidersSubscriber? && s.registry.candidates.Some? ==> Enumerates(order, s.registry.candidates.value.Keys)
  }

  /** The subscriber after a prepare that returns Ok; a failing one changes nothing. */
  ghost function Prepare(s: Subscriber, config: AppConfig, order: seq<string>): Option<Subscriber>
    requires CanPrepare(s, config, order)
  {
    match s
    case KeysSubscriber(reloader) =>
      var prepared := Auth.Prepared(reloader, config.auth);
      if prepared.Some? then Some(KeysSubscriber(prepared.value)) else None
    case LimitsSubscriber(limits, _) => Some(LimitsSubscriber(limits, Some(config.limits)))
    case FeaturesSubscriber(features, _) => Some(FeaturesSubscriber(features, Some(config.features)))
    case ProvidersSubscriber(registry) =>
      if Resolves(config.providers) then
        Some(ProvidersSubscriber(Prepared(registry, config.providers, order)))
      else
        None
  }

  /** What a subscriber asks of a configuration: that every provider's key resolves, and that
      an enabled key check has some entry that takes effect. */
  ghost predicate Accepts(s: Subscriber, config: AppConfig) {
    match s
    case KeysSubscriber(_) => config.auth.enabled ==> Auth.SomeAccepted(config.auth.apiKeys)
    case LimitsSubscriber(_, _) => true
    case FeaturesSubscriber(_, _) => true
    case ProvidersSubscriber(_) => forall n :: n in config.providers ==> config.providers[n].resolvable
  }

  lemma PreparesIff(s: Subscriber, config: AppConfig, order: seq<string>)
    requires CanPrepare(s, config, order)
    ensures Prepare(s, config, order).Some? <==> Accepts(s, config)
  {
    Auth.KeysHeld(config.auth.apiKeys);
  }

  ghost function Commit(s: Subscriber, order: seq<string>): Subscriber
    requires CanCommit(s, order)
  {
    match s
    case KeysSubscriber(reloader) => KeysSubscriber(Auth.Committed(reloader))
    case LimitsSubscriber(_, staged) => if staged.Some? then LimitsSubscriber(staged.value, None) else s
    case FeaturesSubscriber(features, pending) =>
      if pending.Some? then FeaturesSubscriber(FeatureGate.Applied(features, pending.value), None) else s
    case ProvidersSubscriber(registry) => ProvidersSubscriber(Committed(registry, order))
  }

  /** The state requests see, without anything staged. */
  function Live(s: Subscriber): Subscriber {
    match s
    case KeysSubscriber(reloader) => KeysSubscriber(reloader.(staged := None))
    case LimitsSubscriber(limits, _) => LimitsSubscriber(limits, None)
    case FeaturesSubscriber(features, _) => FeaturesSubscriber(features, None)
    case ProvidersSubscriber(registry) => ProvidersSubscriber(registry.(pendingDefault := None, candidates := None))
  }

  /** Whatever is staged is staged whole. */
  ghost predicate Sane(s: Subscriber) {
    match s
    case KeysSubscriber(reloader) => reloader.staged.Some? ==> !Auth.KeylessLock(reloader.staged.value)
    case LimitsSubscriber(_, _) => true
    case FeaturesSubscriber(features, _) => FeatureGate.WellFormed(features)
    case ProvidersSubscriber(registry) => StagedTogether(registry)
  }

  /** What is staged was derived from `config`. */
  ghost predicate StagedFor(s: Subscriber, config: AppConfig) {
    match s
    case KeysSubscriber(reloader) => reloader.staged == Some(Auth.SnapshotOf(config.auth))
    case LimitsSubscriber(_, staged) => staged == Some(config.limits)
    case FeaturesSubscriber(_, pending) => pending == Some(config.features)
    case ProvidersSubscriber(registry) => registry.candidates == Some(Built(config.providers))
  }

  // ---- What a history of configurations makes of a subscriber ----

  lemma LeastExists(names: set<string>)
    requires names != {}
    ensures exists n :: IsLeast(n, names)
  {
    var order := SomeOrder(names);
    DefaultIsLeast(order);
    assert (set n | n in order) == names;
    assert order != [];
  }

  ghost function LeastTarget(providers: map<string, ProviderConfig>): Target
    requires providers.Keys != {}
  {
    LeastExists(providers.Keys);
    var n :| IsLeast(n, providers.Keys);
    Target(n, providers[n].serial)
  }

  /** The default follows the least configured provider and survives an empty configuration. */
  ghost function DefaultAfter(start: Target, configs: seq<AppConfig>): Target {
    if configs == [] then start
    else if configs[|configs| - 1].providers.Keys != {} then LeastTarget(configs[|configs| - 1].providers)
    else DefaultAfter(start, configs[..|configs| - 1])
  }

  ghost function FeatureConfigs(configs: seq<AppConfig>): seq<FeatureGate.FeatureConfig> {
    seq(|configs|, i requires 0 <= i < |configs| => configs[i].features)
  }

  /** The live state is the one that `configs`, applied in order, lead to from `start`. */
  ghost predicate Adopted(start: Subscriber, s: Subscriber, configs: seq<AppConfig>) {
    match (start, s)
    case (KeysSubscriber(r), KeysSubscriber(r')) =>
      if configs == [] then r'.live == r.live
      else r'.live == Auth.SnapshotOf(configs[|configs| - 1].auth) && !Auth.KeylessLock(r'.live)
    case (LimitsSubscriber(limits, _), LimitsSubscriber(limits', _)) =>
      limits' == if configs == [] then limits else configs[|configs| - 1].limits
    case (FeaturesSubscriber(features, _), FeaturesSubscriber(features', _)) =>
      features' == FeatureGate.AppliedAll(features, FeatureConfigs(configs))
    case (ProvidersSubscriber(r), ProvidersSubscriber(r')) =>
      && r'.defaultTarget == DefaultAfter(r.defaultTarget, configs)
      && (if configs == [] then r'.targets == r.targets && r'.prefixes == r.prefixes
          else
            var providers := configs[|configs| - 1].providers;
            && r'.targets == Built(providers)
            && exists order :: Enumerates(order, providers.Keys) && r'.prefixes == Listed(Built(providers), order))
    case _ => false
  }

  lemma PrepareStages(start: Subscriber, s: Subscriber, configs: seq<AppConfig>, config: AppConfig, order: seq<string>)
    requires Sane(s) && Adopted(start, s, configs) && CanPrepare(s, config, order)
    requires Prepare(s, config, order).Some?
    ensures var s' := Prepare(s, config, order).value;
            && Sane(s') && StagedFor(s', config) && Adopted(start, s', configs)
            && Live(s') == Live(s) && Priority(s') == Priority(s)
  {
    if s.ProvidersSubscriber? {
      PreparedTogether(s.registry, config.providers, order);
    }
  }

  /** What a commit makes of the staged providers. */
  lemma CommittedParts(r: Registry<string, string>, providers: map<string, ProviderConfig>, order: seq<string>)
    requires r.candidates == Some(Built(providers)) && StagedTogether(r) && Enumerates(order, providers.Keys)
    ensures var r' := Committed(r, order);
            && r'.targets == Built(providers) && r'.prefixes == Listed(Built(providers), order)
            && r'.candidates.None? && r'.pendingDefault.None?
            && r'.defaultTarget == if providers.Keys == {} then r.defaultTarget else LeastTarget(providers)
  {
    assert Built(providers).Keys == providers.Keys;
    if providers.Keys != {} {
      LeastExists(providers.Keys);
      LeastUnique(LeastTarget(providers).name, r.pendingDefault.value.name, providers.Keys);
    }
  }

  lemma CommitProviders(start: Subscriber, s: Subscriber, configs: seq<AppConfig>, config: AppConfig,
          order: seq<string>)
    requires s.ProvidersSubscriber? && Sane(s) && StagedFor(s, config)
    requires Adopted(start, s, configs) && CanCommit(s, order)
    ensures Adopted(start, Commit(s, order), configs + [config]) && Sane(Commit(s, order))
  {
    var all := configs + [config];
    assert all[..|all| - 1] == configs && all[|all| - 1] == config;
    assert Built(config.providers).Keys == config.providers.Keys;
    CommittedParts(s.registry, config.providers, order);
  }

  /** A commit adopts exactly the configuration that the reload's own prepare staged. */
  lemma CommitAdopts(start: Subscriber, s: Subscriber, configs: seq<AppConfig>, config: AppConfig, order: seq<string>)
    requires Sane(s) && StagedFor(s, config) && Adopted(start, s, configs) && CanCommit(s, order)
    ensures Adopted(start, Commit(s, order), configs + [config]) && Sane(Commit(s, order))
    ensures Priority(Commit(s, order)) == Priority(s)
  {
    match s
    case ProvidersSubscriber(_) =>
      CommitProviders(start, s, configs, config, order);
    case FeaturesSubscriber(_, _) =>
      var all := FeatureConfigs(configs + [config]);
      assert all[..|all| - 1] == FeatureConfigs(configs) && all[|all| - 1] == config.features;
    case _ =>
  }

  // ---- The calls the manager makes ----

  method PrepareOne(s: Subscriber, config: AppConfig) returns (prepared: Option<Subscriber>, ghost listing: seq<string>)
    ensures CanPrepare(s, config, listing) && prepared == Prepare(s, config, listing)
  {
    listing := [];
    match s
    case KeysSubscriber(reloader) =>
      var snapshot := Auth.FromConfig(config.auth);
      prepared := if snapshot.enabled && snapshot.keys == map[] then None
                  else Some(KeysSubscriber(reloader.(staged := Some(snapshot))));
    case LimitsSubscriber(limits, _) =>
      prepared := Some(LimitsSubscriber(limits, Some(config.limits)));
    case FeaturesSubscriber(features, _) =>
      prepared := Some(FeaturesSubscriber(features, Some(config.features)));
    case ProvidersSubscriber(registry) =>
      var names := IterationOrder(config.providers.Keys);
      listing := names;
      prepared :=
        if Resolves(config.providers) then
          Some(ProvidersSubscriber(Prepared(registry, config.providers, names)))
        else
          None;
  }

  method CommitOne(s: Subscriber) returns (committed: Subscriber, ghost listing: seq<string>)
    requires Sane(s)
    ensures CanCommit(s, listing) && committed == Commit(s, listing)
  {
    listing := [];
    committed := s;
    match s
    case KeysSubscriber(reloader) =>
      committed := KeysSubscriber(Auth.Committed(reloader));
    case LimitsSubscriber(_, staged) =>
      if staged.Some? {
        committed := LimitsSubscriber(staged.value, None);
      }
    case FeaturesSubscriber(features, pending) =>
      if pending.Some? {
        var applied := FeatureGate.InsertEntries(features, pending.value);
        committed := FeaturesSubscriber(applied, None);
      }
    case ProvidersSubscriber(registry) =>
      if registry.candidates.Some? {
        var names := IterationOrder(registry.candidates.value.Keys);
        listing := names;
        committed := ProvidersSubscriber(Committed(registry, names));
      }
  }
}
