/** What every run of the registry keeps, and when routing after a reload is deterministic. */
module ProviderRouting {
  import opened Prelude
  import opened ProviderRegistry

  // ---- Map coherence over every run ----

  function EntryNames(entries: seq<Entry>): set<string> {
    set e | e in entries :: e.target.name
  }

  ghost predicate WellNamed(targets: map<string, Target>) {
    forall n :: n in targets ==> targets[n].name == n
  }

  /** The staged default and the staged candidates stem from one prepare. */
  ghost predicate StagedTogether<C, P>(r: Registry<C, P>) {
    match r.candidates
    case None => r.pendingDefault.None?
    case Some(candidates) =>
      && WellNamed(candidates)
      && (r.pendingDefault.None? <==> candidates.Keys == {})
      && (r.pendingDefault.Some? ==>
            && r.pendingDefault.value.name in candidates
            && r.pendingDefault.value == candidates[r.pendingDefault.value.name]
            && IsLeast(r.pendingDefault.value.name, candidates.Keys))
  }

  ghost predicate Coherent<C, P>(r: Registry<C, P>) {
    && WellNamed(r.targets)
    && EntryNames(r.prefixes) == r.targets.Keys
    && r.capabilities.Keys == r.pricing.Keys
    && r.capabilities.Keys <= r.targets.Keys
    && StagedTogether(r)
  }

  datatype Op<C, P> =
    | Register(prefixes: seq<string>, target: Target)
    | RegisterWith(prefixes: seq<string>, target: Target, caps: C, price: P)
    | UpdateCaps(name: string, caps: C)
    | Unregister(name: string)
    | Prepare(providers: map<string, ProviderConfig>, order: seq<string>)
    | Commit(order: seq<string>)

  ghost predicate Legal<C, P>(r: Registry<C, P>, op: Op<C, P>) {
    match op
    case Prepare(providers, order) => Enumerates(order, providers.Keys)
    case Commit(order) => r.candidates.Some? ==> Enumerates(order, r.candidates.value.Keys)
    case _ => true
  }

  ghost function Apply<C, P>(r: Registry<C, P>, op: Op<C, P>): Registry<C, P>
    requires Legal(r, op)
  {
    match op
    case Register(prefixes, target) => Registered(r, prefixes, target)
    case RegisterWith(prefixes, target, caps, price) => RegisteredWith(r, prefixes, target, caps, price)
    case UpdateCaps(name, caps) => CapabilitiesUpdated(r, name, caps)
    case Unregister(name) => Unregistered(r, name)
    case Prepare(providers, order) => if Resolves(providers) then Prepared(r, providers, order) else r
    case Commit(order) => Committed(r, order)
  }

  lemma {:induction false} WithoutNames(entries: seq<Entry>, name: string)
    ensures EntryNames(Without(entries, name)) == EntryNames(entries) - {name}
    decreases |entries|
  {
    if entries != [] {
      var front, last := entries[..|entries| - 1], entries[|entries| - 1];
      WithoutNames(front, name);
      assert entries == front + [last];
      AppendNames(front, [last]);
      AppendNames(Without(front, name), if last.target.name != name then [last] else []);
      assert EntryNames([last]) == {last.target.name} by { assert last in [last]; }
    }
  }

  lemma AppendNames(a: seq<Entry>, b: seq<Entry>)
    ensures EntryNames(a + b) == EntryNames(a) + EntryNames(b)
  {
    forall n | n in EntryNames(a) + EntryNames(b)
      ensures n in EntryNames(a + b)
    {
      var e :| (e in a || e in b) && e.target.name == n;
      assert e in a + b;
    }
  }

  lemma ListedNames(candidates: map<string, Target>, order: seq<string>)
    requires Enumerates(order, candidates.Keys) && WellNamed(candidates)
    ensures EntryNames(Listed(candidates, order)) == candidates.Keys
  {
    var entries := Listed(candidates, order);
    forall n | n in candidates
      ensures n in EntryNames(entries)
    {
      var i :| 0 <= i < |order| && order[i] == n;
      assert entries[i] in entries && entries[i].target.name == n;
    }
  }

  lemma PreparedTogether<C, P>(r: Registry<C, P>, providers: map<string, ProviderConfig>, order: seq<string>)
    requires Enumerates(order, providers.Keys)
    ensures StagedTogether(Prepared(r, providers, order))
  {
    DefaultIsLeast(order);
    assert (set n | n in order) == providers.Keys == Built(providers).Keys;
    if order == [] {
      assert providers.Keys == {};
    } else {
      assert order[0] in providers.Keys;
    }
  }

  lemma CoherentRegister<C, P>(r: Registry<C, P>, prefixes: seq<string>, target: Target)
    requires Coherent(r)
    ensures Coherent(Registered(r, prefixes, target))
  {
    var entry := Entry(prefixes, target);
    AppendNames(r.prefixes, [entry]);
    assert EntryNames([entry]) == {target.name} by { assert entry in [entry]; }
  }

  lemma CoherentUnregister<C, P>(r: Registry<C, P>, name: string)
    requires Coherent(r)
    ensures Coherent(Unregistered(r, name))
  {
    WithoutNames(r.prefixes, name);
  }

  lemma CoherentCommit<C, P>(r: Registry<C, P>, order: seq<string>)
    requires Coherent(r) && Legal(r, Commit(order))
    ensures Coherent(Committed(r, order))
  {
    if r.candidates.Some? {
      ListedNames(r.candidates.value, order);
    }
  }

  lemma CoherentStep<C, P>(r: Registry<C, P>, op: Op<C, P>)
    requires Coherent(r) && Legal(r, op)
    ensures Coherent(Apply(r, op))
  {
    match op
    case Register(prefixes, target) => CoherentRegister(r, prefixes, target);
    case RegisterWith(prefixes, target, _, _) => CoherentRegister(r, prefixes, target);
    case UpdateCaps(_, _) =>
    case Unregister(name) => CoherentUnregister(r, name);
    case Prepare(providers, order) => PreparedTogether(r, providers, order);
    case Commit(order) => CoherentCommit(r, order);
  }

  ghost predicate Runs<C(!new), P(!new)>(r: Registry<C, P>, ops: seq<Op<C, P>>, final: Registry<C, P>)
    decreases |ops|
  {
    if ops == [] then final == r else Legal(r, ops[0]) && Runs(Apply(r, ops[0]), ops[1..], final)
  }

  /** In every run the prefix list names exactly the registered targets, capabilities and
      pricing cover the same subset of them, and nothing is ever staged by halves. */
  lemma {:induction false} MapsStayCoherent<C(!new), P(!new)>(r: Registry<C, P>, ops: seq<Op<C, P>>,
          final: Registry<C, P>)
    requires Coherent(r) && Runs(r, ops, final)
    ensures Coherent(final)
    decreases |ops|
  {
    if ops != [] {
      CoherentStep(r, ops[0]);
      MapsStayCoherent(Apply(r, ops[0]), ops[1..], final);
    }
  }

  /** A new registry is coherent and sends every model to its default. */
  lemma NewIsCoherent<C, P>(defaultTarget: Target, model: string)
    ensures Coherent(New<C, P>(defaultTarget))
    ensures Route(New<C, P>(defaultTarget), model) == [defaultTarget] && New<C, P>(defaultTarget).version == 0
  {
  }

  /** A commit keeps the capabilities and pricing of the providers that remain configured, by
      name, and drops the rest. */
  lemma CapabilitiesSurviveReload<C, P>(r: Registry<C, P>, order: seq<string>)
    requires Coherent(r) && r.candidates.Some? && Legal(r, Commit(order))
    ensures var after, kept := Committed(r, order), r.capabilities.Keys * r.candidates.value.Keys;
            && after.capabilities.Keys == kept && after.pricing.Keys == kept
            && forall n :: n in kept ==> after.capabilities[n] == r.capabilities[n] && after.pricing[n] == r.pricing[n]
  {
    assert forall n :: n in r.capabilities ==> n in r.targets;
  }

  /** What requests are served from. */
  ghost predicate SameServing<C(!new), P(!new)>(r: Registry<C, P>, s: Registry<C, P>) {
    && r.targets == s.targets && r.prefixes == s.prefixes && r.defaultTarget == s.defaultTarget
    && r.capabilities == s.capabilities && r.pricing == s.pricing
  }

  // ---- Entries with any prefixes ----

  /** One of the entry's prefixes begins the model name. */
  ghost predicate Serves(e: Entry, model: string) {
    exists j, rest :: 0 <= j < |e.prefixes| && model == e.prefixes[j] + rest
  }

  lemma ServesIff(e: Entry, model: string)
    ensures MatchesAny(e.prefixes, model) <==> Serves(e, model)
  {
    if MatchesAny(e.prefixes, model) {
      var j :| 0 <= j < |e.prefixes| && e.prefixes[j] <= model;
      assert model == e.prefixes[j] + model[|e.prefixes[j]|..];
    }
    if Serves(e, model) {
      var j, rest :| 0 <= j < |e.prefixes| && model == e.prefixes[j] + rest;
      assert e.prefixes[j] <= model;
    }
  }

  /** Each entry contributes its target once if it serves the model, in list order. */
  lemma {:induction false} MatchedInOrder(before: seq<Entry>, e: Entry, model: string)
    ensures Matched([], model) == []
    ensures Matched(before + [e], model) == Matched(before, model) + (if Serves(e, model) then [e.target] else [])
    decreases |before|
  {
    ServesIff(e, model);
    var tail := if MatchesAny(e.prefixes, model) then [e.target] else [];
    if before == [] {
      assert before + [e] == [e] && [e][1..] == [] && tail + [] == tail;
      assert Matched([e], model) == tail + Matched([], model);
    } else {
      var head, rest :=
        if MatchesAny(before[0].prefixes, model) then [before[0].target] else [], Matched(before[1..], model);
      assert (before + [e])[0] == before[0] && (before + [e])[1..] == before[1..] + [e];
      MatchedInOrder(before[1..], e, model);
      assert Matched(before + [e], model) == head + (rest + tail) == (head + rest) + tail;
    }
  }

  /** A registered target is tried last, for exactly the models one of its prefixes begins. */
  lemma RegisteredRoutes<C, P>(r: Registry<C, P>, prefixes: seq<string>, target: Target, model: string)
    ensures Matched(Registered(r, prefixes, target).prefixes, model)
            == Matched(r.prefixes, model)
               + (if exists j, rest :: 0 <= j < |prefixes| && model == prefixes[j] + rest then [target] else [])
  {
    MatchedInOrder(r.prefixes, Entry(prefixes, target), model);
  }

  function Others(targets: seq<Target>, name: string): seq<Target> {
    if targets == [] then [] else
    var last := targets[|targets| - 1];
    Others(targets[..|targets| - 1], name) + (if last.name == name then [] else [last])
  }

  /** Unregistering a name takes its targets, and no others, out of every route; the rest
      keep their prefixes and their order. */
  lemma {:induction false} UnregisteredRoutes(entries: seq<Entry>, name: string, model: string)
    ensures Matched(Without(entries, name), model) == Others(Matched(entries, model), name)
    decreases |entries|
  {
    if entries != [] {
      var front, last := entries[..|entries| - 1], entries[|entries| - 1];
      UnregisteredRoutes(front, name, model);
      assert entries == front + [last];
      MatchedInOrder(front, last, model);
      MatchedInOrder(Without(front, name), last, model);
      assert Without(front, name) + [] == Without(front, name);
      var matched := Matched(front, model);
      assert (matched + [last.target])[..|matched|] == matched && matched + [] == matched;
      assert Others(matched, name) + [] == Others(matched, name);
    }
  }

  // ---- Which prefix matches ----

  predicate Hits(name: string, model: string) {
    name + "/" <= model
  }

  /** No configured name, with its slash, starts another. */
  ghost predicate PrefixFree(names: set<string>) {
    forall a, b :: a in names && b in names && a != b ==> !Hits(a, b + "/")
  }

  lemma HitNeedsSlash(a: string, b: string)
    requires Hits(a, b + "/")
    ensures a == b || (|a| < |b| && b[|a|] == '/')
  {
    var whole := b + "/";
    assert a + "/" == whole[..|a| + 1];
    assert whole[|a|] == (a + "/")[|a|];
    assert a == (a + "/")[..|a|] == whole[..|a|];
  }

  lemma SlashFreeIsPrefixFree(names: set<string>)
    requires forall n :: n in names ==> '/' !in n
    ensures PrefixFree(names)
  {
    forall a, b | a in names && b in names && Hits(a, b + "/")
      ensures a == b
    {
      HitNeedsSlash(a, b);
    }
  }

  lemma AtMostOneHit(names: set<string>, a: string, b: string, model: string)
    requires PrefixFree(names) && a in names && b in names
    requires Hits(a, model) && Hits(b, model)
    ensures a == b
  {
    var short, long := if |a| <= |b| then a else b, if |a| <= |b| then b else a;
    assert short + "/" == model[..|short| + 1] && long + "/" == model[..|long| + 1];
    assert model[..|long| + 1][..|short| + 1] == model[..|short| + 1];
    assert Hits(short, long + "/");
  }

  lemma SingleHit(name: string, model: string)
    ensures MatchesAny([name + "/"], model) <==> Hits(name, model)
  {
    if Hits(name, model) {
      assert [name + "/"][0] <= model;
    }
  }

  lemma {:induction false} NothingMatched(candidates: map<string, Target>, order: seq<string>, model: string)
    requires forall i :: 0 <= i < |order| ==> order[i] in candidates && !Hits(order[i], model)
    ensures Matched(Listed(candidates, order), model) == []
    decreases |order|
  {
    if order != [] {
      SingleHit(order[0], model);
      assert Listed(candidates, order)[1..] == Listed(candidates, order[1..]);
      NothingMatched(candidates, order[1..], model);
    }
  }

  lemma {:induction false} OneMatched(candidates: map<string, Target>, order: seq<string>, model: string, k: nat)
    requires k < |order| && forall i :: 0 <= i < |order| ==> order[i] in candidates
    requires forall i :: 0 <= i < |order| ==> (Hits(order[i], model) <==> i == k)
    ensures Matched(Listed(candidates, order), model) == [candidates[order[k]]]
    decreases |order|
  {
    SingleHit(order[0], model);
    assert Listed(candidates, order)[1..] == Listed(candidates, order[1..]);
    if k == 0 {
      NothingMatched(candidates, order[1..], model);
    } else {
      OneMatched(candidates, order[1..], model, k - 1);
    }
  }

  /** Under prefix-free names, what a committed registry matches is a matter of the name
      alone, not of the order the candidates came in. */
  lemma MatchedByName(candidates: map<string, Target>, order: seq<string>, model: string)
    requires Enumerates(order, candidates.Keys) && PrefixFree(candidates.Keys)
    ensures forall n :: n in candidates && Hits(n, model) ==>
          Matched(Listed(candidates, order), model) == [candidates[n]]
    ensures (forall n :: n in candidates ==> !Hits(n, model)) ==> Matched(Listed(candidates, order), model) == []
  {
    forall n | n in candidates && Hits(n, model)
      ensures Matched(Listed(candidates, order), model) == [candidates[n]]
    {
      var k :| 0 <= k < |order| && order[k] == n;
      forall i | 0 <= i < |order|
        ensures Hits(order[i], model) <==> i == k
      {
        if Hits(order[i], model) {
          AtMostOneHit(candidates.Keys, order[i], n, model);
        }
      }
      OneMatched(candidates, order, model, k);
    }
    if forall n :: n in candidates ==> !Hits(n, model) {
      NothingMatched(candidates, order, model);
    }
  }

  lemma {:induction false} EnumeratedSize(order: seq<string>, names: set<string>)
    requires Enumerates(order, names)
    ensures |order| == |names|
    decreases |order|
  {
    if order == [] {
      assert names == {};
    } else {
      var last := order[|order| - 1];
      var front := order[..|order| - 1];
      assert forall n :: n in order <==> n in front || n == last;
      EnumeratedSize(front, names - {last});
    }
  }

  // ---- Routing after a reload ----

  ghost predicate Deterministic<C, P>(r: Registry<C, P>)
    requires r.candidates.Some?
  {
    forall a, b, model ::
      Enumerates(a, r.candidates.value.Keys) && Enumerates(b, r.candidates.value.Keys) ==>
        Route(Committed(r, a), model) == Route(Committed(r, b), model)
  }

  lemma SameRoute<C, P>(r: Registry<C, P>, a: seq<string>, b: seq<string>, model: string)
    requires r.candidates.Some? && PrefixFree(r.candidates.value.Keys)
    requires Enumerates(a, r.candidates.value.Keys) && Enumerates(b, r.candidates.value.Keys)
    ensures Route(Committed(r, a), model) == Route(Committed(r, b), model)
  {
    var candidates := r.candidates.value;
    MatchedByName(candidates, a, model);
    MatchedByName(candidates, b, model);
    EnumeratedSize(a, candidates.Keys);
    EnumeratedSize(b, candidates.Keys);
  }

  lemma {:induction false} SomeOrder(names: set<string>) returns (order: seq<string>)
    ensures Enumerates(order, names)
    decreases |names|
  {
    if names == {} {
      order := [];
    } else {
      var n :| n in names;
      var rest := SomeOrder(names - {n});
      order := [n] + rest;
    }
  }

  lemma FirstMatched(candidates: map<string, Target>, order: seq<string>, model: string)
    requires order != [] && (forall n :: n in order ==> n in candidates) && Hits(order[0], model)
    ensures Matched(Listed(candidates, order), model) != []
    ensures Matched(Listed(candidates, order), model)[0] == candidates[order[0]]
  {
    SingleHit(order[0], model);
  }

  lemma TwoRoutes<C, P>(r: Registry<C, P>, x: string, y: string)
    requires r.candidates.Some? && WellNamed(r.candidates.value)
    requires x in r.candidates.value && y in r.candidates.value && x != y && Hits(x, y + "/")
    ensures !Deterministic(r)
  {
    var candidates, model := r.candidates.value, y + "/";
    var rest := SomeOrder(candidates.Keys - {x, y});
    var a, b := [x, y] + rest, [y, x] + rest;
    assert Enumerates(a, candidates.Keys) && Enumerates(b, candidates.Keys);
    FirstMatched(candidates, a, model);
    FirstMatched(candidates, b, model);
    assert Route(Committed(r, a), model)[0].name == x && Route(Committed(r, b), model)[0].name == y;
  }

  /** After a reload the targets a model resolves to are independent of the hasher, for
      every model, exactly when no configured name with its slash starts another. */
  lemma RoutingDeterministicIff<C, P>(r: Registry<C, P>)
    requires Coherent(r) && r.candidates.Some?
    ensures Deterministic(r) <==> PrefixFree(r.candidates.value.Keys)
  {
    var names := r.candidates.value.Keys;
    if PrefixFree(names) {
      forall a, b, model | Enumerates(a, names) && Enumerates(b, names)
        ensures Route(Committed(r, a), model) == Route(Committed(r, b), model)
      {
        SameRoute(r, a, b, model);
      }
    } else {
      var x, y :| x in names && y in names && x != y && Hits(x, y + "/");
      TwoRoutes(r, x, y);
    }
  }

  /** Where a reload leaves routing, for slash-free names: the named provider if one is
      named; the default if there is at most one provider; nobody otherwise. */
  lemma RouteAfterReload<C, P>(r: Registry<C, P>, providers: map<string, ProviderConfig>, keyOrder: seq<string>,
          order: seq<string>, model: string)
    requires forall n :: n in providers ==> '/' !in n
    requires Enumerates(keyOrder, providers.Keys) && Enumerates(order, providers.Keys)
    ensures var after := Committed(Prepared(r, providers, keyOrder), order);
            && (forall n :: n in providers && Hits(n, model) ==>
                  Route(after, model) == [Target(n, providers[n].serial)])
            && ((forall n :: n in providers ==> !Hits(n, model)) ==>
                  Route(after, model) == if |providers| <= 1 then [after.defaultTarget] else [])
            && (Route(after, model) == [] <==> |providers| >= 2 && forall n :: n in providers ==> !Hits(n, model))
            && (providers.Keys == {} ==> after.defaultTarget == r.defaultTarget)
            && (providers.Keys != {} ==>
                  IsLeast(after.defaultTarget.name, providers.Keys)
                  && after.defaultTarget.serial == providers[after.defaultTarget.name].serial)
  {
    var staged := Prepared(r, providers, keyOrder);
    PreparedTogether(r, providers, keyOrder);
    SlashFreeIsPrefixFree(providers.Keys);
    assert Built(providers).Keys == providers.Keys;
    MatchedByName(Built(providers), order, model);
    EnumeratedSize(order, providers.Keys);
    assert |providers| == |providers.Keys|;
  }
}
