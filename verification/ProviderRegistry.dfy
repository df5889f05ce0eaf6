/** The provider registry of src/providers/registry.rs: the target, prefix, capability and
    pricing maps, two-phase replacement on reload, default selection and prefix routing. */
module ProviderRegistry {
  import opened Prelude
  import opened StableSort

  // ---- Names ----

  /** The order of `String`: by code point, a proper prefix first. */
  predicate LexLeq(a: string, b: string)
    decreases |a|
  {
    a == "" || (b != "" && (a[0] < b[0] || (a[0] == b[0] && LexLeq(a[1..], b[1..]))))
  }

  lemma {:induction false} LexTotal(a: string, b: string)
    ensures LexLeq(a, b) || LexLeq(b, a)
    ensures LexLeq(a, b) && LexLeq(b, a) ==> a == b
    decreases |a|
  {
    if a != "" && b != "" && a[0] == b[0] {
      LexTotal(a[1..], b[1..]);
      assert a == [a[0]] + a[1..] && b == [b[0]] + b[1..];
    }
  }

  lemma {:induction false} LexTransitive(a: string, b: string, c: string)
    requires LexLeq(a, b) && LexLeq(b, c)
    ensures LexLeq(a, c)
    decreases |a|
  {
    if a != "" && a[0] == b[0] == c[0] {
      LexTransitive(a[1..], b[1..], c[1..]);
    }
  }

  /** They agree up to `i`, where `a` has the smaller character. */
  predicate SmallerAt(a: string, b: string, i: nat) {
    i < |a| && i < |b| && a[..i] == b[..i] && a[i] < b[i]
  }

  ghost predicate Precedes(a: string, b: string) {
    a <= b || exists i :: SmallerAt(a, b, i)
  }

  lemma PrecedesTail(a: string, b: string)
    requires a != "" && b != "" && a[0] == b[0]
    ensures Precedes(a, b) <==> Precedes(a[1..], b[1..])
  {
    assert a == [a[0]] + a[1..] && b == [b[0]] + b[1..];
    if i: nat :| SmallerAt(a[1..], b[1..], i) {
      assert a[..i + 1] == [a[0]] + a[1..][..i] && b[..i + 1] == [b[0]] + b[1..][..i];
      assert SmallerAt(a, b, i + 1);
    }
    if i: nat :| SmallerAt(a, b, i) {
      assert i > 0;
      assert a[1..][..i - 1] == a[..i][1..] && b[1..][..i - 1] == b[..i][1..];
      assert SmallerAt(a[1..], b[1..], i - 1);
    }
  }

  /** One name comes before another when it begins it, or has the smaller character where they
      first differ. */
  lemma {:induction false} LexIff(a: string, b: string)
    ensures LexLeq(a, b) <==> Precedes(a, b)
    decreases |a|
  {
    if a != "" && b != "" {
      if a[0] == b[0] {
        PrecedesTail(a, b);
        LexIff(a[1..], b[1..]);
      } else {
        assert forall i :: SmallerAt(a, b, i) ==> i == 0 by {
          assert forall i :: 0 < i < |a| && i < |b| ==> a[..i][0] != b[..i][0];
        }
        assert a[..0] == b[..0];
        assert a[0] < b[0] ==> SmallerAt(a, b, 0);
      }
    }
  }

  lemma LexPreorder()
    ensures TotalPreorder(LexLeq)
  {
    forall x, y ensures LexLeq(x, y) || LexLeq(y, x) { LexTotal(x, y); }
    forall x, y, z | LexLeq(x, y) && LexLeq(y, z) ensures LexLeq(x, z) { LexTransitive(x, y, z); }
  }

  /** `select_default_provider_name`: sort a copy and take the first. */
  function SelectDefaultProviderName(names: seq<string>): Option<string> {
    var sorted := Sort(LexLeq, names);
    if sorted == [] then None else Some(sorted[0])
  }

  ghost predicate IsLeast(name: string, names: set<string>) {
    name in names && forall n :: n in names ==> LexLeq(name, n)
  }

  /** The choice is the least name, so it does not depend on the order the names come in. */
  lemma DefaultIsLeast(names: seq<string>)
    ensures SelectDefaultProviderName(names).None? <==> names == []
    ensures names != [] ==> IsLeast(SelectDefaultProviderName(names).value, set n | n in names)
  {
    var sorted := Sort(LexLeq, names);
    SortKeepsElements(LexLeq, names);
    LexPreorder();
    SortSorted(LexLeq, names);
    forall n | n in names
      ensures LexLeq(sorted[0], n)
    {
      assert n in multiset(sorted);
      var i :| 0 <= i < |sorted| && sorted[i] == n;
      assert LexLeq(n, n) by { LexTotal(n, n); }
    }
    if names != [] {
      assert sorted[0] in multiset(names);
    }
  }

  lemma LeastUnique(a: string, b: string, names: set<string>)
    requires IsLeast(a, names) && IsLeast(b, names)
    ensures a == b
  {
    LexTotal(a, b);
  }

  // ---- State ----

  /** `serial` tells one shared target object from another. */
  datatype Target = Target(name: string, serial: nat)

  datatype Entry = Entry(prefixes: seq<string>, target: Target)

  datatype Registry<C, P> = Registry(
    targets: map<string, Target>,
    prefixes: seq<Entry>,
    capabilities: map<string, C>,
    pricing: map<string, P>,
    defaultTarget: Target,
    pendingDefault: Option<Target>,
    candidates: Option<map<string, Target>>,
    version: nat)

  function New<C, P>(defaultTarget: Target): Registry<C, P> {
    Registry(map[], [], map[], map[], defaultTarget, None, None, 0)
  }

  /** One configured provider: whether its key resolves, and the target built from it. */
  datatype ProviderConfig = ProviderConfig(resolvable: bool, serial: nat)

  ghost predicate Enumerates(order: seq<string>, names: set<string>) {
    && (forall n :: n in order <==> n in names)
    && (forall i, j :: 0 <= i < j < |order| ==> order[i] != order[j])
  }

  function Registered<C, P>(r: Registry<C, P>, prefixes: seq<string>, target: Target): Registry<C, P> {
    r.(targets := r.targets[target.name := target],
       prefixes := r.prefixes + [Entry(prefixes, target)],
       version := r.version + 1)
  }

  function RegisteredWith<C, P>(r: Registry<C, P>, prefixes: seq<string>, target: Target, caps: C,
          price: P): Registry<C, P> {
    var r' := Registered(r, prefixes, target);
    r'.(capabilities := r.capabilities[target.name := caps], pricing := r.pricing[target.name := price])
  }

  function CapabilitiesUpdated<C, P>(r: Registry<C, P>, name: string, caps: C): Registry<C, P> {
    if name in r.capabilities then
      r.(capabilities := r.capabilities[name := caps], version := r.version + 1)
    else
      r
  }

  function Without(entries: seq<Entry>, name: string): seq<Entry> {
    if entries == [] then [] else
    var front, last := entries[..|entries| - 1], entries[|entries| - 1];
    Without(front, name) + (if last.target.name != name then [last] else [])
  }

  function Unregistered<C, P>(r: Registry<C, P>, name: string): Registry<C, P> {
    if name in r.targets then
      r.(targets := r.targets - {name}, prefixes := Without(r.prefixes, name),
         capabilities := r.capabilities - {name}, pricing := r.pricing - {name}, version := r.version + 1)
    else
      r
  }

  predicate Resolves(providers: map<string, ProviderConfig>) {
    forall n :: n in providers ==> providers[n].resolvable
  }

  function Built(providers: map<string, ProviderConfig>): map<string, Target> {
    map n | n in providers :: Target(n, providers[n].serial)
  }

  /** What a successful prepare stages; `order` is the order the map's keys come in. */
  function Prepared<C, P>(r: Registry<C, P>, providers: map<string, ProviderConfig>,
          order: seq<string>): Registry<C, P> {
    var candidates := Built(providers);
    var name := SelectDefaultProviderName(order);
    r.(pendingDefault := if name.Some? && name.value in candidates then Some(candidates[name.value]) else None,
       candidates := Some(candidates))
  }

  function Listed(candidates: map<string, Target>, order: seq<string>): seq<Entry>
    requires forall n :: n in order ==> n in candidates
  {
    seq(|order|, i requires 0 <= i < |order| => Entry([order[i] + "/"], candidates[order[i]]))
  }

  /** What commit makes of the staged values; `order` is the order the candidates come in. */
  function Committed<C, P>(r: Registry<C, P>, order: seq<string>): Registry<C, P>
    requires r.candidates.Some? ==> forall n :: n in order ==> n in r.candidates.value
  {
    match r.candidates
    case None => r
    case Some(candidates) =>
      var removed := r.targets.Keys - candidates.Keys;
      Registry(candidates, Listed(candidates, order), r.capabilities - removed, r.pricing - removed,
               if r.pendingDefault.Some? then r.pendingDefault.value else r.defaultTarget,
               None, None, r.version + 1)
  }

  // ---- Routing ----

  predicate MatchesAny(prefixes: seq<string>, model: string) {
    exists i :: 0 <= i < |prefixes| && prefixes[i] <= model
  }

  function Matched(entries: seq<Entry>, model: string): seq<Target> {
    if entries == [] then []
    else (if MatchesAny(entries[0].prefixes, model) then [entries[0].target] else []) + Matched(entries[1..], model)
  }

  function Route<C, P>(r: Registry<C, P>, model: string): seq<Target> {
    var matched := Matched(r.prefixes, model);
    if matched == [] && |r.prefixes| <= 1 then [r.defaultTarget] else matched
  }

  // ---- The registry object ----

  /** Iterates over a set of names in whatever order the hasher gives. */
  method IterationOrder(names: set<string>) returns (order: seq<string>)
    ensures Enumerates(order, names)
  {
    order := [];
    var pending := names;
    while pending != {}
      invariant pending <= names
      invariant forall n :: n in order ==> n in names && n !in pending
      invariant forall n :: n in names ==> n in pending || n in order
      invariant forall i, j :: 0 <= i < j < |order| ==> order[i] != order[j]
      decreases pending
    {
      var n :| n in pending;
      order := order + [n];
      pending := pending - {n};
    }
  }

  method RetainOthers(entries: seq<Entry>, name: string) returns (kept: seq<Entry>)
    ensures kept == Without(entries, name)
  {
    kept := [];
    for i := 0 to |entries|
      invariant kept == Without(entries[..i], name)
    {
      assert entries[..i + 1][..i] == entries[..i];
      if entries[i].target.name != name {
        kept := kept + [entries[i]];
      }
    }
    assert entries[..|entries|] == entries;
  }

  method ListCandidates(candidates: map<string, Target>, names: seq<string>) returns (entries: seq<Entry>)
    requires forall n :: n in names ==> n in candidates
    ensures entries == Listed(candidates, names)
  {
    entries := [];
    for i := 0 to |names|
      invariant entries == Listed(candidates, names[..i])
    {
      entries := entries + [Entry([names[i] + "/"], candidates[names[i]])];
    }
    assert names[..|names|] == names;
  }

  class Providers<C, P> {
    var targets: map<string, Target>
    var prefixes: seq<Entry>
    var capabilities: map<string, C>
    var pricing: map<string, P>
    var defaultTarget: Target
    var pendingDefault: Option<Target>
    var candidates: Option<map<string, Target>>
    var version: nat

    ghost function View(): Registry<C, P>
      reads this
    {
      Registry(targets, prefixes, capabilities, pricing, defaultTarget, pendingDefault, candidates, version)
    }

    constructor (defaultTarget: Target)
      ensures View() == New<C, P>(defaultTarget)
    {
      targets, prefixes, capabilities, pricing := map[], [], map[], map[];
      this.defaultTarget, pendingDefault, candidates, version := defaultTarget, None, None, 0;
    }

    method RegisterTarget(prefixes: seq<string>, target: Target)
      modifies this
      ensures View() == Registered(old(View()), prefixes, target)
    {
      targets := targets[target.name := target];
      this.prefixes := this.prefixes + [Entry(prefixes, target)];
      version := version + 1;
    }

    method RegisterTargetWithCapabilities(prefixes: seq<string>, target: Target, caps: C, price: P)
      modifies this
      ensures View() == RegisteredWith(old(View()), prefixes, target, caps, price)
    {
      RegisterTarget(prefixes, target);
      capabilities := capabilities[target.name := caps];
      pricing := pricing[target.name := price];
    }

    method UpdateCapabilities(name: string, caps: C)
      modifies this
      ensures View() == CapabilitiesUpdated(old(View()), name, caps)
    {
      if name in capabilities {
        capabilities := capabilities[name := caps];
        version := version + 1;
      }
    }

    method UnregisterTarget(name: string) returns (removed: bool)
      modifies this
      ensures removed == (name in old(targets))
      ensures View() == Unregistered(old(View()), name)
    {
      removed := name in targets;
      if removed {
        targets := targets - {name};
        prefixes := RetainOthers(prefixes, name);
        capabilities := capabilities - {name};
        pricing := pricing - {name};
        version := version + 1;
      }
    }

    method GetMatchingTargets(model: string) returns (matched: seq<Target>)
      ensures matched == Route(View(), model)
    {
      matched := [];
      for i := 0 to |prefixes|
        invariant matched + Matched(prefixes[i..], model) == Matched(prefixes, model)
      {
        var entry := prefixes[i];
        assert prefixes[i..][0] == entry && prefixes[i..][1..] == prefixes[i + 1..];
        var hit := false;
        for j := 0 to |entry.prefixes|
          invariant hit <==> MatchesAny(entry.prefixes[..j], model)
        {
          assert entry.prefixes[..j + 1] == entry.prefixes[..j] + [entry.prefixes[j]];
          if entry.prefixes[j] <= model {
            hit := true;
            assert entry.prefixes[..j + 1][j] <= model;
          } else if hit {
            var k :| 0 <= k < j && entry.prefixes[..j][k] <= model;
            assert entry.prefixes[..j + 1][k] <= model;
          }
        }
        assert entry.prefixes[..|entry.prefixes|] == entry.prefixes;
        if hit {
          matched := matched + [entry.target];
        }
      }
      if matched == [] && |prefixes| <= 1 {
        matched := [defaultTarget];
      }
    }

    /** Stages the whole candidate set, or fails and stages nothing. */
    method Prepare(providers: map<string, ProviderConfig>) returns (ok: bool, ghost order: seq<string>)
      modifies this
      ensures ok <==> Resolves(providers)
      ensures !ok ==> View() == old(View())
      ensures ok ==> Enumerates(order, providers.Keys) && View() == Prepared(old(View()), providers, order)
    {
      order := [];
      var built: map<string, Target> := map[];
      var pending := providers.Keys;
      while pending != {}
        invariant pending <= providers.Keys
        invariant built.Keys == providers.Keys - pending
        invariant forall n :: n in built ==> providers[n].resolvable && built[n] == Target(n, providers[n].serial)
        decreases pending
      {
        var n :| n in pending;
        if !providers[n].resolvable {
          return false, order;
        }
        built := built[n := Target(n, providers[n].serial)];
        pending := pending - {n};
      }
      assert built == Built(providers);
      var names := IterationOrder(providers.Keys);
      order := names;
      var name := SelectDefaultProviderName(names);
      pendingDefault := if name.Some? && name.value in built then Some(built[name.value]) else None;
      candidates := Some(built);
      ok := true;
    }

    method Commit() returns (ghost order: seq<string>)
      modifies this
      ensures old(candidates).Some? ==> Enumerates(order, old(candidates).value.Keys)
      ensures old(candidates).None? ==> order == []
      ensures View() == Committed(old(View()), order)
    {
      order := [];
      if candidates.Some? {
        var staged := candidates.value;
        candidates := None;
        var removed := targets.Keys - staged.Keys;
        capabilities := capabilities - removed;
        pricing := pricing - removed;
        var names := IterationOrder(staged.Keys);
        order := names;
        prefixes := ListCandidates(staged, names);
        targets := staged;
        if pendingDefault.Some? {
          defaultTarget := pendingDefault.value;
          pendingDefault := None;
        }
        version := version + 1;
      }
    }
  }
}
