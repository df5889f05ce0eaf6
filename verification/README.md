# A verified model of fusion-router's host code

Fusion-router is a gateway in front of several language-model providers. This project models the
parts of its host code that hold state across requests, and proves what they promise:

- the token-bucket rate limiter with its bucket cap and its cleanup task
  (`RateLimiter.dfy`, `RateLimiterRuns.dfy`);
- the incremental decoder of server-sent events, which follow sections 9.2.5 and 9.2.6 of the WHATWG
  HTML Living Standard (`SseFraming.dfy`, `SseStream.dfy`, `SseRoundTrip.dfy`, `SseFields.dfy`);
- the two-phase configuration reload and four of its subscribers (`ConfigReload.dfy`,
  `ReloadSafety.dfy`, `ReloadVerdicts.dfy`, `ConfigManager.dfy`, `Subscribers.dfy`, `Auth.dfy`, `FeatureGate.dfy`);
- provider routing, the registry's version counter, failover and the circuit breaker
  (`ProviderRegistry.dfy`, `ProviderRouting.dfy`, `ProviderWatch.dfy`, `CircuitBreaker.dfy`, `Failover.dfy`);
- context trimming (`ContextTrim.dfy`);
- the policy registry, its compilation to rules and the decision they lead to (`PolicyRegistry.dfy`,
  `PolicyIR.dfy`, `PolicyAdmin.dfy`, `PolicyWinner.dfy`).

Each stateful component comes in three layers: an object whose methods follow the source's loops and
field updates; pure step functions that the methods are proved to compute; and theorems about every run
of those steps. Where requests, readers and background tasks interleave, the steps are those of a state
machine, one per lock-protected or atomic action of the source. `Prelude.dfy`, `Text.dfy` and
`StableSort.dfy` hold what the others share. `dafny verify dfyconfig.toml` checks everything.

Clock readings, the order in which hash maps are iterated, provider answers, and configuration files are
parameters. `f64` is `real`; strings are sequences of Unicode scalar values with an explicit UTF-8 length;
JSON is modelled by what it decodes to; a SHA-256 digest is a symbol that determines its text.

## What the proofs found

- **Eviction.** Dropping idle buckets is invisible to every client exactly when two cleanup intervals earn
  a burst of tokens, `2 * interval * rpm >= 60 * burst`. The defaults (300 s, 60, 10) satisfy it, but
  validation does not require it: below that line a client gets its whole burst twice by idling through two
  intervals (`EvictionInvisibleIff`), and the bound on admissions in a window fails with it
  (`WindowBoundIff`).
- **Locking everybody out.** The guard that refuses "auth enabled with no valid keys" counts keys, not
  usable ones. The entry `:operator` holds the empty key, and a key with a character outside visible ASCII
  cannot travel in the header; both pass the guard and let nobody in (`ScopeWithoutKeyLocksOut`,
  `UnprintableKeyLocksOut`). `GuardMissesIff` says exactly when that happens, `SomeoneGetsInIff` exactly when
  somebody gets in.
- **Routing and slashes.** After a reload, routing is independent of hash order exactly when no provider name
  with its slash starts another (`RoutingDeterministicIff`); names without slashes qualify.
- **Asking without reporting.** `select_targets` asks breakers as a filter and never reports back. On a closed
  or a cooling breaker that changes nothing; on a half-open one, or an open one that has cooled down, it takes
  the probe slot (`FilterWedgesIff`), and the breaker then refuses everybody until an earlier call's report, a
  late stream failure or a reset frees it (`WedgedIff`, `FreedIff`). Otherwise a breaker at rest refuses only
  while it cools down, however calls overlap (`QuietBreakerAdmits`).
- **Watching the version.** Registering a target with capabilities moves the version before it writes the
  capabilities and pricing, so a watcher that looks in between keeps stale ones and is never told
  (`MissedIff`). Every other operation, and the routing part of this one, is always announced
  (`WatcherIsCurrent`).
- **Trimming and the limit.** The trimmed context fits the limit exactly when the system messages alone do
  (`TrimFitsIff`). A message sent to be cut can come back whole without being charged its overhead of 5; the
  limit covers the overhead of every whole message exactly when that does not happen (`WholeOverheadIff`;
  `UnchargedMessage` gives the inputs).

## Model

| member | source | states |
|---|---|---|
| `RateLimiter.RetryAfter` | src/middleware/rate_limit.rs:135-141 | the advertised delay is at most 60 s, is long enough to earn one token, and one second less is not; 60 s when nothing is ever earned |
| `RateLimiter.Limiter.RefillTokens` | src/middleware/rate_limit.rs:94-101 | the bucket after a refill, capped at the burst size |
| `RateLimiter.Limiter.CheckRate` | src/middleware/rate_limit.rs:108-144 | with nothing beside it, the whole request path computes `Check`: cap refusal, creation, refill, access time, decision |
| `RateLimiter.CapRefusesIff` | src/middleware/rate_limit.rs:113-117 | a request is told 429 if and only if its client has no bucket and there are 100,000; the map is then left alone, and otherwise holds the client |
| `RateLimiter.NewClientBetweenLoads` | src/middleware/rate_limit.rs:118-143 | when the settings change between the two loads, a new client starts with the old burst, refilled and capped by the new settings, and a denial advertises the old delay |
| `RateLimiter.Limiter.Sweep` | src/middleware/rate_limit.rs:82-84 | a cleanup pass keeps exactly the buckets touched after the cutoff, in any iteration order |
| `RateLimiterRuns.SettingsTakeEffect` | src/middleware/rate_limit.rs:94-106 | in every run after a change of settings, a bucket is left as it was until its client calls again, and from then on stays between zero and the new burst |
| `RateLimiterRuns.TokensUnderAnySettings` | src/middleware/rate_limit.rs:94-106 | in every run, settings changes included, each bucket holds between zero and the largest burst ever in force |
| `RateLimiterRuns.BucketCapHolds` | src/middleware/rate_limit.rs:108-126 | in every run the map stays within `MAX_BUCKETS`, even when the sweep removes the bucket between a request's tests and its insertion, or the settings change between its two loads |
| `RateLimiterRuns.TokensStayInRange` | src/middleware/rate_limit.rs:94-101 | in every run under fixed settings each bucket holds between zero and the burst size, and its times are ordered |
| `RateLimiterRuns.TakeConserves` | src/middleware/rate_limit.rs:94-101 | tokens left plus tokens spent equal tokens held plus tokens earned, up to the burst; a denial leaves less than one |
| `RateLimiterRuns.EvictionIsInvisible` | src/middleware/rate_limit.rs:75-143 | under slow eviction, every token decision of the evicting, capped limiter equals that of a limiter that never evicts |
| `RateLimiterRuns.EvictionInvisibleIff` | src/middleware/rate_limit.rs:75-143 | that holds over all runs if and only if `2 * interval * rpm >= 60 * burst` |
| `RateLimiterRuns.WindowBound` | src/middleware/rate_limit.rs:94-133 | in every run with evictions that are slow, or that pass the client by, its admissions in any window number at most the burst plus what the rate earns over it |
| `RateLimiterRuns.WindowBoundIff` | src/middleware/rate_limit.rs:75-133 | over all runs, clients and windows that bound holds if and only if `2 * interval * rpm >= 60 * burst` |
| `RateLimiterRuns.AmpleBurst` | src/middleware/rate_limit.rs:121-133 | a client with n tokens at hand gets n requests at once, and is left with the rest |
| `RateLimiterRuns.RetryAfterSuffices` | src/middleware/rate_limit.rs:131-142 | after a denial, whatever else runs, the client's next call after the advertised delay gets a token if it gets past the cap |
| `RateLimiterRuns.CheckIsThreeSteps` | src/middleware/rate_limit.rs:108-143 | an undisturbed request is the gate's three steps, with the same map and verdict |
| `RateLimiterRuns.SweepIsRemovals` | src/middleware/rate_limit.rs:80-84 | a whole cleanup pass is a run of single removals that emits no decision |
| `SseFraming.FindFromSpec` | src/providers/mod.rs:352-353 | the search finds the first occurrence, or nothing when there is none |
| `SseFraming.BoundaryIsEarliest` | src/providers/mod.rs:351-366 | the boundary found is a delimiter, and no delimiter of either framing starts earlier |
| `SseFraming.LinesOfJoined` | src/providers/mod.rs:374 | splitting into lines undoes joining with LF or CRLF |
| `SseFraming.ParseEventPayloads` | src/providers/mod.rs:372-383 | the loop yields the payload of every line, in order; `FieldsDecode` says which those are |
| `SseFraming.Scanner.DrainSseEvents` | src/providers/mod.rs:389-424 | one drain emits the payloads of all complete events, then an overflow error if the rest exceeds the cap, and leaves the rest or nothing |
| `SseFraming.Scanner.OnEvent` | src/providers/mod.rs:326-335 | a fragment is appended and drained; a transport error is passed on and leaves the buffer alone |
| `SseStream.BoundaryStable` | src/providers/mod.rs:351-366 | appending text never changes the earliest boundary |
| `SseStream.DrainSplit` | src/providers/mod.rs:389-406 | draining a text in two instalments is draining it once |
| `SseStream.CutsDoNotMatter` | src/providers/mod.rs:326-337 | however a text is cut and wherever transport errors fall, payloads, leftover and errors are those of the whole text |
| `SseStream.DecodedInFullIff` | src/providers/mod.rs:389-424 | a stream is decoded in full with no overflow if and only if no prefix leaves more than 1,048,576 bytes undecoded |
| `SseStream.OverflowStep` | src/providers/mod.rs:408-418 | an event that leaves more than the cap still delivers what it completed, then one overflow error, and leaves an empty buffer |
| `SseStream.BufferStaysBounded` | src/providers/mod.rs:408-418 | between events the buffer never exceeds the cap |
| `SseRoundTrip.RoundTripIff` | src/providers/mod.rs:372-406 | payloads sent with any framing and comments between decode to themselves if and only if each is a non-empty single line not ending in whitespace and not `[DONE]` |
| `SseRoundTrip.DrainedAreOneLine` | src/providers/mod.rs:374-380 | no decoded payload contains a line feed |
| `SseRoundTrip.DeliveredHoweverCut` | src/providers/mod.rs:326-406 | an encoded list is delivered payload for payload, with nothing left over, however the transport cuts it |
| `SseFields.FieldsDecode` | src/providers/mod.rs:372-406 | events of any number of lines, with data fields padded or not, other fields and comments, and LF or CRLF endings, decode line by line and in order to what is expected of each line, with nothing left over |
| `SseFields.FieldsRoundTripIff` | src/providers/mod.rs:372-406 | the values of all data fields arrive as sent, in order, if and only if each is not blank, is not `[DONE]`, has no space that could be taken for padding, and, on the last line of its event, does not end in whitespace |
| `SseFields.FieldsDeliveredHoweverCut` | src/providers/mod.rs:326-406 | and that however the transport cuts the text |
| `Auth.FromConfig` | src/middleware/auth.rs:50-69 | the loop builds the key map of the entries that parse and are not oversized |
| `Auth.KeySyntax` | src/middleware/auth.rs:46-100 | a bare key and `:chat` mean chat, `:operator` means operator, any other suffix voids the entry; whitespace around the entry and before the colon does not matter |
| `Auth.BlankEntry` | src/middleware/auth.rs:46-100 | an entry of whitespace only is no entry |
| `Auth.LastEntryDecides` | src/middleware/auth.rs:52-64 | a key is held exactly when some entry for it takes effect, and the last one decides its grant |
| `Auth.AuthorizedIff` | src/middleware/auth.rs:133-199 | who passes and who is forbidden, in terms of the path and the configured entries: everybody when the check is off and on `/health` and `/ready`; else holders of a key of 1 to 1024 bytes, who need operator scope for `/metrics` and all under `/v1/operations` and `/v1/executions` and are forbidden there without it |
| `Auth.AuthReloader.Prepare` | src/middleware/auth.rs:226-240 | stages the new snapshot, or fails on an enabled empty key map and changes nothing |
| `Auth.AuthReloader.Commit` | src/middleware/auth.rs:242-247 | swaps the staged snapshot in once |
| `Auth.HeaderCarries` | src/middleware/auth.rs:172-176 | a header can carry exactly the keys made of visible ASCII, spaces and tabs |
| `Auth.SomeoneGetsInIff` | src/middleware/auth.rs:172-199 | with auth enabled, some request header gets in if and only if some entry that takes effect holds a non-empty key that a header can carry |
| `Auth.GuardMissesIff` | src/middleware/auth.rs:226-240 | the prepare guard passes a configuration that locks everybody out if and only if some entry takes effect and none that does holds a key a request can present |
| `Auth.ScopeWithoutKeyLocksOut` | src/middleware/auth.rs:226-234 | the entry `:operator` passes the prepare guard and locks everybody out |
| `Auth.UnprintableKeyLocksOut` | src/middleware/auth.rs:172-180 | so does every single key with a character that no header can carry |
| `Auth.CyrillicKeyLocksOut` | src/middleware/auth.rs:172-180 | one such key, of four Cyrillic letters |
| `FeatureGate.InsertEntries` | src/feature_gate/mod.rs:80-87 | the loop, in any iteration order, overrides exactly the named flags |
| `FeatureGate.FeatureRegistry.ApplyConfig` | src/feature_gate/mod.rs:80-87 | the object's states and overrides after applying a configuration |
| `FeatureGate.LatestWins` | src/feature_gate/mod.rs:80-91 | after any sequence of configurations a flag has the value of the last one naming it, else its own; it is overridden iff one named it |
| `FeatureGate.NewDefaults` | src/feature_gate/mod.rs:53-78 | in a new registry nothing is overridden, and a flag is on if and only if its last definition has it on by default |
| `FeatureGate.ValueByName` | src/feature_gate/mod.rs:61-85 | a configuration speaks of a defined flag under its kebab-case name and no other |
| `ProviderRegistry.DefaultIsLeast` | src/providers/registry.rs:20-24 | the default chosen is the lexicographically least name, whatever order the names come in |
| `ProviderRegistry.LexIff` | src/providers/registry.rs:20-24 | a name comes first if it begins the other or has the smaller character where they first differ |
| `ProviderRegistry.Providers.RegisterTarget` | src/providers/registry.rs:53-66 | the target and its prefix entry are added together |
| `ProviderRegistry.Providers.RegisterTargetWithCapabilities` | src/providers/registry.rs:68-79 | as above, with capabilities and pricing under the same name |
| `ProviderRegistry.Providers.UpdateCapabilities` | src/providers/registry.rs:112-118 | only a known name is updated, and only then does the version move |
| `ProviderRegistry.Providers.UnregisterTarget` | src/providers/registry.rs:120-136 | the name goes from all four maps, or nothing changes |
| `ProviderRegistry.Providers.GetMatchingTargets` | src/providers/registry.rs:146-161 | the nested loops compute the matching targets in list order, or the default for at most one entry |
| `ProviderRegistry.Providers.Prepare` | src/providers/registry.rs:326-353 | stages candidates and default together iff every key resolves; otherwise nothing changes |
| `ProviderRegistry.Providers.Commit` | src/providers/registry.rs:355-432 | replaces targets, prefixes and default, and drops capabilities of removed names |
| `ProviderRouting.MapsStayCoherent` | src/providers/registry.rs:53-136 | in every run the prefix list names exactly the targets, capabilities and pricing cover the same subset, and staged default and candidates come from one prepare |
| `ProviderRouting.CapabilitiesSurviveReload` | src/providers/registry.rs:381-391 | a commit keeps capabilities and pricing of exactly the names that stay configured, unchanged |
| `ProviderWatch.WatcherIsCurrent` | src/providers/registry.rs:53-136 | over every interleaving of any operations, a watcher that read the version and then the registry is up to date at rest if the version has not moved: always on targets, prefixes and default, and on capabilities and pricing if no target was registered with them |
| `ProviderWatch.NeverMissed` | src/providers/registry.rs:326-432 | in the middle of any interleaving, what the watcher saw is still so, or the version has moved, or an operation under way is bound to move it |
| `ProviderWatch.MissedIff` | src/providers/registry.rs:68-79 | an operation can leave a watcher stale with the version at rest if and only if it registers a target with capabilities or pricing that differ from those held |
| `ProviderWatch.OperationAlone` | src/providers/registry.rs:53-432 | left alone, the steps of each operation come to what the operation does as a whole |
| `ProviderRouting.AtMostOneHit` | src/providers/registry.rs:146-156 | under prefix-free names a model matches at most one provider |
| `ProviderRouting.MatchedInOrder` | src/providers/registry.rs:146-156 | each entry contributes its target once, in list order, if and only if one of its prefixes begins the model name |
| `ProviderRouting.RegisteredRoutes` | src/providers/registry.rs:53-66 | a registered target is tried last, for exactly the models one of its prefixes begins |
| `ProviderRouting.UnregisteredRoutes` | src/providers/registry.rs:120-136 | unregistering a name takes its targets, and no others, out of every route and keeps the order |
| `ProviderRouting.NewIsCoherent` | src/providers/registry.rs:40-51 | a new registry is coherent and sends every model to its default |
| `ProviderRouting.RoutingDeterministicIff` | src/providers/registry.rs:146-161 | after a commit, routing is independent of the hasher for every model if and only if the names are prefix-free |
| `ProviderRouting.RouteAfterReload` | src/providers/registry.rs:343-432 | for slash-free names: the named provider, else the default if at most one is configured, else nobody; the default is the least provider, or the previous one when none is configured |
| `CircuitBreaker.Circuit.CanExecute` | src/providers/circuit_breaker.rs:37-61 | the answer and the new state in each of the three states |
| `CircuitBreaker.Circuit.RecordSuccess` | src/providers/circuit_breaker.rs:63-79 | the new state after a success |
| `CircuitBreaker.Circuit.RecordFailure` | src/providers/circuit_breaker.rs:81-98 | the new state after a failure |
| `CircuitBreaker.Circuit.UpdateThresholds` | src/providers/circuit_breaker.rs:100-104 | threshold and cooldown change, nothing else |
| `CircuitBreaker.Circuit.Reset` | src/providers/circuit_breaker.rs:110-114 | closed with both counters at zero; the probe slot is left as it was |
| `CircuitBreaker.BreakerHistory` | src/providers/circuit_breaker.rs:63-98 | in every run a closed breaker's count is the failures since the last success or reset, below the threshold; an open one has a failure time; no counter outgrows 32 bits |
| `CircuitBreaker.OpensExactly` | src/providers/circuit_breaker.rs:89-95 | a closed breaker opens exactly on the failure that completes the threshold |
| `CircuitBreaker.CooldownRunsFromOpening` | src/providers/circuit_breaker.rs:81-98 | in every run the cooldown of an open breaker counts from the failure that opened it |
| `CircuitBreaker.ReopensExactly` | src/providers/circuit_breaker.rs:41-55 | in every run an open breaker admits a call if and only if the cooldown has passed since the failure that opened it, and then is half-open with the probe taken and no successes counted |
| `CircuitBreaker.HalfOpenExactly` | src/providers/circuit_breaker.rs:37-98 | a half-open breaker is opened by any failure, at its time, and by nothing else; it admits exactly while the probe is free; every report frees it |
| `CircuitBreaker.ClosedUntilThreshold` | src/providers/circuit_breaker.rs:63-98 | a breaker starts closed and admits every call while no run of failures completes the threshold |
| `CircuitBreaker.ResetIsAsNew` | src/providers/circuit_breaker.rs:110-114 | whatever follows a reset, the breaker admits what a new one with its settings would |
| `CircuitBreaker.OpenStaysShut` | src/providers/circuit_breaker.rs:41-55 | whatever is asked or reported before the cooldown is over, nothing is admitted and nothing changes |
| `CircuitBreaker.ClosesExactly` | src/providers/circuit_breaker.rs:66-73 | with no failure, a half-open breaker closes exactly on the success that completes the threshold |
| `CircuitBreaker.ProbesAreMetered` | src/providers/circuit_breaker.rs:41-73 | a half-open episode admits at most one call more than the reports it has taken |
| `Failover.TryTarget` | src/providers/registry.rs:222-237 | one turn of the loop body: ask, and report exactly once if admitted, as the breaker object itself remembers it |
| `Failover.ChatCompletion` | src/providers/registry.rs:220-241 | the loop over breaker objects leaves every breaker, and answers, as the reference run does, even when a target is listed twice; what the objects remember of it is exactly the reference log, with every admission reported once and targets asked in order |
| `Failover.EveryAdmissionReported` | src/providers/registry.rs:221-238 | in the log that `ChatCompletion` leaves in the objects, every target is asked at its time, every admission is followed at once by exactly one report on the same target, a success if the provider answered and else a failure at the time it failed, nothing else touches a breaker, and replaying the log gives the final breakers |
| `Failover.TriedInOrder` | src/providers/registry.rs:221-241 | targets are asked in order; the last one asked serves; failure is reported only after all were asked, by the last that failed |
| `Failover.NoBreakerWedged` | src/providers/registry.rs:209-242 | after any run of completed calls every probe slot is free and a breaker refuses only while open and cooling down |
| `Failover.QuietBreakerAdmits` | src/providers/circuit_breaker.rs:37-98 | the same for calls that overlap in any way, with late stream failures, resets, new thresholds and filters, once none is in flight and no filter holds the slot |
| `Failover.RetuneTakesEffect` | src/providers/circuit_breaker.rs:100-104 | new thresholds count at once, for the cooldown of an open breaker and the failures of a closed one |
| `Failover.FilterWedgesIff` | src/providers/registry.rs:168-170 | a `select_targets` filter on a breaker at rest leaves it refusing at every later time if and only if it was neither closed nor open and cooling down; otherwise it changes nothing |
| `Failover.WedgedIff` | src/providers/registry.rs:163-283 | over every run, a breaker with no call in flight refuses at every later time if and only if some filter took the probe slot and no report, broken stream or reset has come since |
| `Failover.FreedIff` | src/providers/registry.rs:266-279 | a wedged breaker at rest is freed by a late stream failure or a reset and by no other step |
| `ContextTrim.TrimMessages` | src/context/assembler.rs:52-109 | the loops compute `Trim`, and return the conversation unchanged if and only if it fits the limit or is all system messages |
| `ContextTrim.SafeEnd` | src/context/assembler.rs:88-96 | the cut falls after the last whole character that fits the byte limit |
| `ContextTrim.EstimateIsCeiling` | src/context/assembler.rs:112-114 | the estimate is the least number of 4-byte tokens that hold the text |
| `Text.Utf8RoundTrip` | src/context/assembler.rs:88-95 | the length of a character is that of its UTF-8 encoding, which can be read back |
| `ContextTrim.CutIsLongest` | src/context/assembler.rs:89-95 | no longer prefix of whole characters fits |
| `ContextTrim.TrimBudget` | src/context/assembler.rs:74-103 | when trimming: the result fits with the reserve, and with an overhead of 5 for every non-system message kept; with no room left exactly the system messages come back |
| `ContextTrim.WholeOverheadIff` | src/context/assembler.rs:82-103 | result, reserve and the overhead of each message that comes back unchanged fit the limit if and only if no message sent to be cut fits its bytes uncut |
| `ContextTrim.UnchargedMessage` | src/context/assembler.rs:85-101 | a family of inputs where they do not: the newest message is sent to be cut, comes back whole and is not charged |
| `ContextTrim.UnchargedExample` | src/context/assembler.rs:85-101 | one such input, of 40 and 56 bytes under a limit of 20 |
| `ContextTrim.TrimFitsIff` | src/context/assembler.rs:57-108 | the result fits the limit if and only if the system messages alone do |
| `ContextTrim.TrimUnchangedIff` | src/context/assembler.rs:57-61 | a conversation comes back unchanged if and only if it fits the limit or is all system messages |
| `ContextTrim.SystemSurvives` | src/context/assembler.rs:66-72 | no message of the role `system` is ever lost |
| `ContextTrim.TrimKeeps` | src/context/assembler.rs:63-108 | every system message survives in order; the others keep their order and are whole, save that the oldest kept may be a prefix |
| `ContextTrim.ChoiceIsGreedy` | src/context/assembler.rs:82-103 | each message is kept, cut or dropped by what the newer ones leave of the budget |
| `ContextTrim.ChoiceInBytes` | src/context/assembler.rs:82-103 | with L tokens left a message of at most 4(L-5) bytes is kept whole; a longer one is cut if L exceeds 10 and dropped otherwise |
| `ContextTrim.NewestSurvives` | src/context/assembler.rs:82-102 | while more than the floor is left the newest message is kept, whole or cut |
| `ContextTrim.TrimIdempotent` | src/context/assembler.rs:57-108 | trimming twice is trimming once, for every input and limit |
| `ContextTrim.ArithmeticFits` | src/context/assembler.rs:57-114 | below 2^30 tokens in all, every quantity computed fits 32 bits |
| `PolicyIR.FromPolicySnapshot` | src/policy/ir.rs:104-159 | the loop compiles every entry or returns every problem |
| `PolicyIR.CompiledAsWritten` | src/policy/ir.rs:104-159 | a snapshot compiles if and only if every entry decodes and has effect `deny`, `approval` or `allow`; the rules are exactly those that say what the declarations say, and otherwise exactly the complaints are returned |
| `PolicyIR.FromAst` | src/policy/ir.rs:50-97 | a document compiles exactly when the same declarations do from the registry, to the same rules; else it reports the first problem |
| `PolicyIR.CompiledRules` | src/policy/ir.rs:134-158 | compiling drops and invents no rule |
| `PolicyIR.WinnerIsStrongest` | src/policy/precedence.rs:15-23 | the winner matches and no matching rule is stronger; there is none only when nothing matches |
| `PolicyIR.LastOfEqualsWins` | src/policy/precedence.rs:15-23 | the winner is stronger than every match placed after it, so of equally strong matches the last one wins |
| `PolicyIR.SortingKeepsWinner` | src/policy/ir.rs:153-157 | sorting the rules does not change which rule wins, ties included |
| `PolicyIR.DecisionIgnoresOrder` | src/policy/precedence.rs:10-23 | effect and priority of the winner depend only on which rules there are |
| `PolicyIR.FirstMatchDecides` | src/policy/ir.rs:153-157 | on compiled rules, taking the first match reaches the same decision as the maximum |
| `PolicyRegistry.Registry.ApplyPolicy` | src/policy/policy_registry.rs:96-110 | upsert by id, next version, snapshot appended |
| `PolicyRegistry.Registry.RemovePolicy` | src/policy/policy_registry.rs:114-125 | removal by id, next version, snapshot appended |
| `PolicyRegistry.CurrentIsRecorded` | src/policy/policy_registry.rs:64-82 | in every run the current version and rules are those of the last history entry, the only one of that version |
| `PolicyRegistry.Registry.SnapshotAt` | src/policy/policy_registry.rs:75-82 | the first entry with that version, or none |
| `PolicyRegistry.Registry.HasPolicy` | src/policy/policy_registry.rs:145-147 | true exactly when an active policy has the id |
| `PolicyRegistry.Registry.PolicyIr` | src/policy/policy_registry.rs:136-142 | no rules without policies, the compiled rules, or the problems |
| `PolicyRegistry.HistoryReplays` | src/policy/policy_registry.rs:37-125 | in every run entry v-1 has version v, is the fold of the first v-1 mutations and bears the time of the last of them; ids are unique, and the last entry agrees with the current state |
| `PolicyRegistry.ActiveIff` | src/policy/policy_registry.rs:96-125 | a policy is active if and only if the last mutation of its id stored it as it is |
| `PolicyRegistry.HistoryOnlyGrows` | src/policy/policy_registry.rs:84-125 | no mutation rewrites an earlier snapshot |
| `PolicyRegistry.LookupIsPositional` | src/policy/policy_registry.rs:75-82 | a version names one history entry, at its own position |
| `PolicyAdmin.Admin.CreatePolicy` | src/operations/policy_admin.rs:101-110 | stores a valid, new declaration, or says why not and changes nothing |
| `PolicyAdmin.Admin.UpdatePolicy` | src/operations/policy_admin.rs:114-128 | replaces a known declaration under its own name, or says why not |
| `PolicyAdmin.Admin.DeletePolicy` | src/operations/policy_admin.rs:149-166 | removes a known declaration, or says it is not found |
| `PolicyAdmin.Admin.ListPolicies` | src/operations/policy_admin.rs:83-89 | every stored declaration decoded, or the first that is corrupt |
| `PolicyAdmin.RegistryRefinesMap` | src/operations/policy_admin.rs:101-166 | over every run, answer for answer, the facade behaves as a map from names to valid declarations |
| `PolicyAdmin.ValidIff` | src/operations/policy_admin.rs:11-29 | a declaration is valid if and only if name and target are not all whitespace and the effect is one of three words; the first that fails is reported |
| `PolicyAdmin.AcceptedIsRecorded` | src/operations/policy_admin.rs:101-166 | an accepted operation adds one snapshot, of the new list and taken at its time; a refused one changes nothing |
| `PolicyAdmin.CreateThenDelete` | src/operations/policy_admin.rs:101-166 | a created name is taken and can be updated under its own name only; deleting it undoes the create; an absent name can be neither updated nor deleted |
| `PolicyAdmin.DecisionAfterRun` | src/operations/policy_admin.rs:11-166 | after every run the rules compile, and a target is decided exactly when some active declaration covers it, by one that no active one beats |
| `PolicyAdmin.DecisionIgnoresHistory` | src/policy/precedence.rs:10-23 | two histories that leave the same declarations active decide every target alike |
| `PolicyAdmin.ListedAsCreated` | src/operations/policy_admin.rs:79-89 | after every run, listing shows exactly the declarations last created or updated |
| `PolicyWinner.LatestOfStrongestWins` | src/policy/precedence.rs:15-23 | after every run, each other active declaration that covers the target is weaker than the winner, or as strong and stored before it |
| `PolicyWinner.PrevailingDecides` | src/policy/policy_registry.rs:96-110 | so the winner is determined by the run: a declaration decides a target if and only if all others that cover it lose to it |
| `PolicyWinner.DecisionAsDeclared` | src/policy/precedence.rs:10-23 | after every run a target is denied if and only if an active declaration for it or for `*` says `deny`, needs approval if and only if none does and one says `approval`, is allowed if and only if all say `allow`; the priority is the greatest among those that say so |
| `Subscribers.PreparesIff` | src/providers/registry.rs:331-353 | a prepare succeeds if and only if the configuration is acceptable: every provider key resolves, an enabled key check has an entry that takes effect; limits and flags always |
| `Subscribers.CommitAdopts` | src/config/manager.rs:118-120 | a commit makes live exactly the configuration that was staged for it |
| `ConfigReload.OrderIsStable` | src/config/manager.rs:110-112 | every subscriber is called once, by ascending priority, equals in registration order |
| `ConfigReload.CalledByKind` | src/config/manager.rs:110-112 | flags are called first, then keys, then limits, then providers |
| `ConfigManager.Manager.ReadSnapshot` | src/config/manager.rs:58-60 | a reader gets the published snapshot |
| `ConfigManager.Manager.RegisterSubscriber` | src/config/manager.rs:66-71 | the subscriber joins at the end of the list |
| `ConfigManager.Manager.Reload` | src/config/manager.rs:73-127 | an undisturbed reload is a run of the step machine; it succeeds if and only if there is a configuration and every registered subscriber accepts it; success publishes it under a new generation, failure leaves everything served as it was, and either uses up one generation |
| `ReloadSafety.ReloadsAreAllOrNothing` | src/config/manager.rs:103-126 | over every interleaving, each finished generation either failed to prepare and was neither committed nor published, or was prepared and then committed once by every subscriber in stable priority order and published once |
| `ReloadVerdicts.ReloadFailsIff` | src/config/manager.rs:103-126 | over every interleaving, each finished generation failed if and only if some subscriber registered when it was arranged does not accept its configuration, and published that configuration otherwise |
| `ReloadSafety.CommitsFollowPrepares` | src/config/manager.rs:114-120 | whenever a commit happens, every subscriber of this reload has prepared, none failed, and what is swapped in was staged by this reload |
| `ReloadSafety.GenerationsMoveForward` | src/config/manager.rs:58-127 | published generations strictly increase and readers never see one go back |
| `ReloadSafety.FailedReloadsChangeNothing` | src/config/manager.rs:103-116 | any number of failed reloads, with readers and registrations among them, leave the published snapshot and every live setting as they were |
| `ReloadSafety.AtRestSubscribersAgree` | src/config/manager.rs:114-123 | at rest, every subscriber of the last success serves the published configuration; live auth is never enabled without keys |
| `ReloadSafety.FlagsFollowPublished` | src/feature_gate/config_subscriber.rs:36-48 | at rest, a flag has the value of the last published configuration naming it, else the value it was registered with |
| `StableSort.StableSortUnique` | src/config/manager.rs:112 | order and stability determine the sorted sequence, so the insertion sort stands for the library's |

## Left out

- HTTP servers, handlers, connectors, transports, provider wire formats, WASM plugins, the UI and the scripts: input and output, or foreign libraries.
- The compiler passes, the scheduler, the planner and the agent runtime: other crates; the host code mostly delegates to them.
- The semantic cache: its index is an approximate foreign library.
- JSON and YAML parsing, SHA-256 and `ChatStreamChunk::from_sse_data`: a payload stands for the chunk parsed from it, and a declaration for its encoding.
- Floating-point rounding and real clocks: `real` and monotone readings.
- ContextTrim.TrimMessages: sums and products are unbounded; `ArithmeticFits` says when they agree with 32-bit arithmetic.
- Finer interleaving inside one breaker method: two threads can both take the open-to-half-open branch, so one probe at a time is claimed for atomic methods only.
- Weak memory: the version counter and the maps are read and written in one global order.
- Cancelled calls: a future dropped between admission and report leaves the probe slot taken.
- `has_policy` and `apply_policy` under concurrent administrators: the facade's check and store are two steps in the source and one here.
- `ProviderRouter` (src/providers/router.rs), which repeats the registry's failover loop over its own target list.
- The connector subscriber of a reload, which stages and swaps as the others do.
- During the commit phase a reader can see the old snapshot while some subscribers are already new; agreement is claimed at rest only.
- Capability-based target selection, cost ordering, the audit log, dashboards and the evaluation runner: reporting or easy members.
