/** What a watcher of the registry's version can rely on (src/providers/registry.rs).

    Every operation is split into its own steps, one for each critical section or atomic
    write, and the steps of any number of operations interleave with the watcher's reads.
    The registry's locks rule out some of these interleavings; what is proved here holds
    of all of them. */
module ProviderWatch {
  import opened Prelude
  import opened ProviderRegistry
  import opened ProviderRouting

  datatype Micro<C, P> =
    | AddTarget(prefixes: seq<string>, target: Target)
    | RemoveTarget(name: string)            // the operation ends here if the name is unknown
    | ReplaceCaps(name: string, caps: C)    // likewise
    | PutCaps(name: string, caps: C)
    | PutPrice(name: string, price: P)
    | DropCaps(name: string)
    | DropPrice(name: string)
    | StageDefault(default: Option<Target>)
    | StageCandidates(candidates: map<string, Target>)
    | TakeStaged(order: seq<string>)        // the operation ends here if nothing is staged
    | DropRemoved(kept: set<string>)
    | SwapPrefixes(entries: seq<Entry>)
    | SwapTargets(targets: map<string, Target>)
    | SwapDefault
    | Bump

  /** The steps of an operation, in the source's order. */
  function Script<C, P>(op: Op<C, P>): seq<Micro<C, P>> {
    match op
    case Register(prefixes, target) => [AddTarget(prefixes, target), Bump]
    case RegisterWith(prefixes, target, caps, price) =>
      [AddTarget(prefixes, target), Bump, PutCaps(target.name, caps), PutPrice(target.name, price)]
    case UpdateCaps(name, caps) => [ReplaceCaps(name, caps), Bump]
    case Unregister(name) => [RemoveTarget(name), DropCaps(name), DropPrice(name), Bump]
    case Prepare(providers, order) =>
      if Resolves(providers) then
        [StageDefault(StagedDefault(providers, order)), StageCandidates(Built(providers))]
      else
        []
    case Commit(order) => [TakeStaged(order)]
  }

  function StagedDefault(providers: map<string, ProviderConfig>, order: seq<string>): Option<Target> {
    var candidates, name := Built(providers), SelectDefaultProviderName(order);
    if name.Some? && name.value in candidates then Some(candidates[name.value]) else None
  }

  /** What is left of a commit once it has taken what was staged. */
  function Replacement<C, P>(candidates: map<string, Target>, order: seq<string>): seq<Micro<C, P>> {
    if forall n :: n in order ==> n in candidates then
      var entries := Listed(candidates, order);
      [DropRemoved(candidates.Keys), SwapPrefixes(entries), SwapTargets(candidates), SwapDefault, Bump]
    else
      []
  }

  function Effect<C, P>(r: Registry<C, P>, m: Micro<C, P>): Registry<C, P> {
    match m
    case AddTarget(prefixes, target) =>
      r.(targets := r.targets[target.name := target], prefixes := r.prefixes + [Entry(prefixes, target)])
    case RemoveTarget(name) =>
      if name in r.targets then r.(targets := r.targets - {name}, prefixes := Without(r.prefixes, name)) else r
    case ReplaceCaps(name, caps) =>
      if name in r.capabilities then r.(capabilities := r.capabilities[name := caps]) else r
    case PutCaps(name, caps) => r.(capabilities := r.capabilities[name := caps])
    case PutPrice(name, price) => r.(pricing := r.pricing[name := price])
    case DropCaps(name) => r.(capabilities := r.capabilities - {name})
    case DropPrice(name) => r.(pricing := r.pricing - {name})
    case StageDefault(default) => r.(pendingDefault := default)
    case StageCandidates(candidates) => r.(candidates := Some(candidates))
    case TakeStaged(_) => r.(candidates := None)
    case DropRemoved(kept) =>
      var removed := r.targets.Keys - kept;
      r.(capabilities := r.capabilities - removed, pricing := r.pricing - removed)
    case SwapPrefixes(entries) => r.(prefixes := entries)
    case SwapTargets(targets) => r.(targets := targets)
    case SwapDefault =>
      if r.pendingDefault.Some? then r.(defaultTarget := r.pendingDefault.value, pendingDefault := None) else r
    case Bump => r.(version := r.version + 1)
  }

  /** The steps still to come after the first. */
  function Rest<C, P>(r: Registry<C, P>, script: seq<Micro<C, P>>): seq<Micro<C, P>>
    requires script != []
  {
    match script[0]
    case RemoveTarget(name) => if name in r.targets then script[1..] else []
    case ReplaceCaps(name, _) => if name in r.capabilities then script[1..] else []
    case TakeStaged(order) =>
      if r.candidates.Some? then Replacement(r.candidates.value, order) else []
    case _ => script[1..]
  }

  /** One operation on its own, after at most `n` steps. */
  function Executed<C, P>(r: Registry<C, P>, script: seq<Micro<C, P>>, n: nat): (Registry<C, P>, seq<Micro<C, P>>)
    decreases n
  {
    if n == 0 || script == [] then (r, script) else Executed(Effect(r, script[0]), Rest(r, script), n - 1)
  }

  // ---- Interleavings ----

  /** The registry, and what each operation under way has yet to do. */
  datatype World<C, P> = World(r: Registry<C, P>, threads: seq<seq<Micro<C, P>>>)

  datatype Label<C, P> = Start(op: Op<C, P>) | Advance(k: nat)

  ghost predicate Enabled<C, P>(w: World<C, P>, l: Label<C, P>) {
    match l
    case Start(op) => op.Prepare? ==> Enumerates(op.order, op.providers.Keys)
    case Advance(k) =>
      && k < |w.threads| && w.threads[k] != []
      && (w.threads[k][0].TakeStaged? && w.r.candidates.Some? ==>
            Enumerates(w.threads[k][0].order, w.r.candidates.value.Keys))
  }

  ghost function Next<C, P>(w: World<C, P>, l: Label<C, P>): World<C, P>
    requires Enabled(w, l)
  {
    match l
    case Start(op) => w.(threads := w.threads + [Script(op)])
    case Advance(k) => World(Effect(w.r, w.threads[k][0]), w.threads[k := Rest(w.r, w.threads[k])])
  }

  ghost predicate Valid<C, P>(w: World<C, P>, run: seq<Label<C, P>>)
    decreases |run|, 0
  {
    run == [] ||
    var front, last := run[..|run| - 1], run[|run| - 1];
    Valid(w, front) && Enabled(Reach(w, front), last)
  }

  ghost function Reach<C, P>(w: World<C, P>, run: seq<Label<C, P>>): World<C, P>
    requires Valid(w, run)
    decreases |run|, 1
  {
    if run == [] then w else Next(Reach(w, run[..|run| - 1]), run[|run| - 1])
  }

  lemma {:induction false} ValidPrefix<C, P>(w: World<C, P>, run: seq<Label<C, P>>, n: nat)
    requires Valid(w, run) && n <= |run|
    ensures Valid(w, run[..n])
    decreases |run|
  {
    if n < |run| {
      assert run[..|run| - 1][..n] == run[..n];
      ValidPrefix(w, run[..|run| - 1], n);
    } else {
      assert run[..n] == run;
    }
  }

  /** No operation is under way. */
  ghost predicate Idle<C, P>(w: World<C, P>) {
    forall k :: 0 <= k < |w.threads| ==> w.threads[k] == []
  }

  // ---- What is announced ----

  ghost predicate SameRouting<C, P>(r: Registry<C, P>, s: Registry<C, P>) {
    r.targets == s.targets && r.prefixes == s.prefixes && r.defaultTarget == s.defaultTarget
  }

  /** What requests are routed by and, for the whole of what they are served from, the
      capabilities and pricing too. */
  ghost predicate Same<C, P>(whole: bool, r: Registry<C, P>, s: Registry<C, P>) {
    SameRouting(r, s) && (whole ==> r.capabilities == s.capabilities && r.pricing == s.pricing)
  }

  /** Steps that may change what is watched. */
  predicate Touches<C, P>(whole: bool, m: Micro<C, P>) {
    match m
    case AddTarget(_, _) => true
    case RemoveTarget(_) => true
    case SwapPrefixes(_) => true
    case SwapTargets(_) => true
    case SwapDefault => true
    case ReplaceCaps(_, _) => whole
    case PutCaps(_, _) => whole
    case PutPrice(_, _) => whole
    case DropCaps(_) => whole
    case DropPrice(_) => whole
    case DropRemoved(_) => whole
    case _ => false
  }

  /** Steps that may end the operation early. */
  predicate Conditional<C, P>(m: Micro<C, P>) {
    m.RemoveTarget? || m.ReplaceCaps? || m.TakeStaged?
  }

  /** The operation is bound to bump the version yet. */
  predicate Owes<C, P>(script: seq<Micro<C, P>>) {
    script != [] && (script[0].Bump? || (!Conditional(script[0]) && Owes(script[1..])))
  }

  /** Whatever it changes, it bumps the version afterwards. */
  predicate Announces<C, P>(whole: bool, script: seq<Micro<C, P>>) {
    script == [] || ((Touches(whole, script[0]) ==> Owes(script[1..])) && Announces(whole, script[1..]))
  }

  ghost predicate Disciplined<C, P>(whole: bool, w: World<C, P>) {
    forall k :: 0 <= k < |w.threads| ==> Announces(whole, w.threads[k])
  }

  ghost predicate SomeOwes<C, P>(w: World<C, P>) {
    exists k :: 0 <= k < |w.threads| && Owes(w.threads[k])
  }

  /** A script that is announced from its second step on. */
  lemma AnnouncedFrom<C, P>(whole: bool, script: seq<Micro<C, P>>, rest: seq<Micro<C, P>>)
    requires script != [] && script[1..] == rest && Announces(whole, rest)
    requires Touches(whole, script[0]) ==> Owes(rest)
    ensures Announces(whole, script)
    ensures script[0].Bump? || (!Conditional(script[0]) && Owes(rest)) ==> Owes(script)
  {
  }

  /** Every operation announces its changes to the routing; all but one announce every change. */
  lemma ScriptAnnounces<C, P>(whole: bool, op: Op<C, P>)
    requires whole ==> !op.RegisterWith?
    ensures Announces(whole, Script(op))
  {
    var script := Script(op);
    if |script| == 4 {
      AnnouncedFrom(whole, [script[3]], []);
      AnnouncedFrom(whole, [script[2], script[3]], [script[3]]);
      AnnouncedFrom(whole, [script[1], script[2], script[3]], [script[2], script[3]]);
      AnnouncedFrom(whole, script, [script[1], script[2], script[3]]);
    } else if |script| == 2 {
      AnnouncedFrom(whole, [script[1]], []);
      AnnouncedFrom(whole, script, [script[1]]);
    } else if |script| == 1 {
      AnnouncedFrom(whole, script, []);
    }
  }

  lemma ReplacementAnnounces<C, P>(whole: bool, candidates: map<string, Target>, order: seq<string>)
    ensures Announces<C, P>(whole, Replacement(candidates, order))
  {
    var script := Replacement<C, P>(candidates, order);
    if script != [] {
      AnnouncedFrom(whole, [script[4]], []);
      AnnouncedFrom(whole, [script[3], script[4]], [script[4]]);
      AnnouncedFrom(whole, [script[2], script[3], script[4]], [script[3], script[4]]);
      AnnouncedFrom(whole, [script[1], script[2], script[3], script[4]], [script[2], script[3], script[4]]);
      AnnouncedFrom(whole, script, [script[1], script[2], script[3], script[4]]);
    }
  }

  lemma RestAnnounces<C, P>(whole: bool, r: Registry<C, P>, script: seq<Micro<C, P>>)
    requires script != [] && Announces(whole, script)
    ensures Announces(whole, Rest(r, script))
  {
    if script[0].TakeStaged? && r.candidates.Some? {
      ReplacementAnnounces<C, P>(whole, r.candidates.value, script[0].order);
    }
  }

  /** One step leaves what is watched as it was, bumps the version, or owes a bump. */
  lemma StepAnnounced<C, P>(whole: bool, r: Registry<C, P>, script: seq<Micro<C, P>>)
    requires script != [] && Announces(whole, script)
    ensures Same(whole, r, Effect(r, script[0])) || Owes(Rest(r, script))
    ensures Owes(script) ==> r.version < Effect(r, script[0]).version || Owes(Rest(r, script))
    ensures r.version <= Effect(r, script[0]).version
  {
  }

  ghost predicate Allowed<C, P>(whole: bool, run: seq<Label<C, P>>) {
    whole ==> forall i :: 0 <= i < |run| && run[i].Start? ==> !run[i].op.RegisterWith?
  }

  lemma {:induction false} StaysDisciplined<C, P>(whole: bool, w: World<C, P>, run: seq<Label<C, P>>)
    requires Disciplined(whole, w) && Valid(w, run) && Allowed(whole, run)
    ensures Disciplined(whole, Reach(w, run))
    decreases |run|
  {
    if run != [] {
      var front, last := run[..|run| - 1], run[|run| - 1];
      StaysDisciplined(whole, w, front);
      match last
      case Start(op) => ScriptAnnounces(whole, op);
      case Advance(k) => RestAnnounces(whole, Reach(w, front).r, Reach(w, front).threads[k]);
    }
  }

  /** What the watcher saw is still so, or the version has moved since, or it is about to. */
  ghost predicate Told<C, P>(whole: bool, seen: Registry<C, P>, w: World<C, P>) {
    seen.version <= w.r.version && (Same(whole, seen, w.r) || seen.version < w.r.version || SomeOwes(w))
  }

  lemma ToldStep<C, P>(whole: bool, seen: Registry<C, P>, w: World<C, P>, l: Label<C, P>)
    requires Disciplined(whole, w) && Enabled(w, l) && Told(whole, seen, w)
    ensures Told(whole, seen, Next(w, l))
  {
    var w' := Next(w, l);
    match l
    case Start(_) =>
      if SomeOwes(w) {
        var k :| 0 <= k < |w.threads| && Owes(w.threads[k]);
        assert Owes(w'.threads[k]);
      }
    case Advance(k) =>
      StepAnnounced(whole, w.r, w.threads[k]);
      assert w'.threads[k] == Rest(w.r, w.threads[k]);
      if SomeOwes(w) {
        var j :| 0 <= j < |w.threads| && Owes(w.threads[j]);
        assert j != k ==> Owes(w'.threads[j]);
      }
  }

  lemma {:induction false} NeverMissed<C, P>(whole: bool, w: World<C, P>, run: seq<Label<C, P>>, j: nat)
    requires Disciplined(whole, w) && Valid(w, run) && Allowed(whole, run) && j <= |run|
    ensures Valid(w, run[..j]) && Told(whole, Reach(w, run[..j]).r, Reach(w, run))
    decreases |run|
  {
    ValidPrefix(w, run, j);
    if j == |run| {
      assert run[..j] == run;
    } else {
      var front := run[..|run| - 1];
      assert front[..j] == run[..j];
      NeverMissed(whole, w, front, j);
      StaysDisciplined(whole, w, front);
      ToldStep(whole, Reach(w, run[..j]).r, Reach(w, front), run[|run| - 1]);
    }
  }

  /** A watcher reads the version, and after that the registry, while any number of
      operations come and go. If, once none is under way, the version is the one it read,
      then what it saw of the targets, prefixes and default is what requests are routed by,
      and, unless some target was registered with capabilities, so are the capabilities
      and pricing it saw. */
  lemma WatcherIsCurrent<C, P>(whole: bool, r: Registry<C, P>, run: seq<Label<C, P>>, i: nat, j: nat)
    requires Valid(World(r, []), run) && Allowed(whole, run) && i <= j <= |run|
    requires Idle(Reach(World(r, []), run))
    ensures Valid(World(r, []), run[..i]) && Valid(World(r, []), run[..j])
    ensures var read, seen, now := Reach(World(r, []), run[..i]).r, Reach(World(r, []), run[..j]).r,
              Reach(World(r, []), run).r;
            read.version == now.version ==> Same(whole, seen, now)
  {
    var w := World(r, []);
    NeverMissed(whole, w, run, j);
    assert run[..j][..i] == run[..i];
    assert Allowed(whole, run[..j]);
    NeverMissed(whole, w, run[..j], i);
  }

  // ---- The one operation that is not announced ----

  /** No operation takes more steps than a commit. */
  const LONGEST: nat := 6

  /** The registry when an operation running alone has taken `n` steps. */
  function Midway<C, P>(r: Registry<C, P>, op: Op<C, P>, n: nat): Registry<C, P> {
    Executed(r, Script(op), n).0
  }

  lemma ExecutedStep<C, P>(r: Registry<C, P>, script: seq<Micro<C, P>>, n: nat)
    requires script != [] && n > 0
    ensures Executed(r, script, n) == Executed(Effect(r, script[0]), Rest(r, script), n - 1)
  {
  }

  lemma FiveAlone<C, P>(r: Registry<C, P>, s: seq<Micro<C, P>>)
    requires |s| == 5 && forall i :: 0 <= i < 5 ==> !Conditional(s[i])
    ensures Executed(r, s, 5) == (Effect(Effect(Effect(Effect(Effect(r, s[0]), s[1]), s[2]), s[3]), s[4]), [])
  {
    ExecutedStep(r, s, 5);
    FourAlone(Effect(r, s[0]), s[1..]);
  }

  lemma SwappedMaps<C, P>(r: Registry<C, P>, entries: seq<Entry>, candidates: map<string, Target>)
    ensures var removed := r.targets.Keys - candidates.Keys;
            Effect(Effect(Effect(r, DropRemoved(candidates.Keys)), SwapPrefixes(entries)), SwapTargets(candidates))
            == r.(targets := candidates, prefixes := entries,
                  capabilities := r.capabilities - removed, pricing := r.pricing - removed)
  {
  }

  lemma SwappedDefault<C, P>(r: Registry<C, P>)
    ensures Effect(Effect(r, SwapDefault), Bump)
            == r.(defaultTarget := if r.pendingDefault.Some? then r.pendingDefault.value else r.defaultTarget,
                  pendingDefault := None, version := r.version + 1)
  {
  }

  lemma CommitEffects<C, P>(r: Registry<C, P>, candidates: map<string, Target>, order: seq<string>, s: seq<Micro<C, P>>)
    requires r.candidates == Some(candidates) && Legal(r, Commit(order)) && s == Replacement(candidates, order)
    ensures |s| == 5
    ensures Effect(Effect(Effect(Effect(Effect(r.(candidates := None), s[0]), s[1]), s[2]), s[3]), s[4])
            == Committed(r, order)
  {
    var r1 := r.(candidates := None);
    SwappedMaps(r1, Listed(candidates, order), candidates);
    SwappedDefault(Effect(Effect(Effect(r1, s[0]), s[1]), s[2]));
  }

  lemma CommitAlone<C, P>(r: Registry<C, P>, order: seq<string>)
    requires Legal(r, Commit(order))
    ensures Executed(r, Script<C, P>(Commit(order)), LONGEST) == (Committed(r, order), [])
  {
    ExecutedStep(r, Script<C, P>(Commit(order)), LONGEST);
    if r.candidates.Some? {
      var steps := Replacement<C, P>(r.candidates.value, order);
      CommitEffects(r, r.candidates.value, order, steps);
      FiveAlone(r.(candidates := None), steps);
    }
  }

  lemma FourAlone<C, P>(r: Registry<C, P>, s: seq<Micro<C, P>>)
    requires |s| == 4 && forall i :: 1 <= i < 4 ==> !Conditional(s[i])
    requires Rest(r, s) == s[1..]
    ensures var r1 := Effect(r, s[0]);
            var r2 := Effect(r1, s[1]);
            var r3 := Effect(r2, s[2]);
            && Executed(r, s, 1).0 == r1 && Executed(r, s, 2).0 == r2 && Executed(r, s, 3).0 == r3
            && forall n :: n >= 4 ==> Executed(r, s, n) == (Effect(r3, s[3]), [])
  {
    var r1 := Effect(r, s[0]);
    var r2 := Effect(r1, s[1]);
    var r3 := Effect(r2, s[2]);
    assert s[1..][1..] == [s[2], s[3]] && s[1..][1..][1..] == [s[3]] && s[1..][1..][1..][1..] == [];
    forall n: nat | n >= 1
      ensures Executed(r, s, n) == Executed(r1, s[1..], n - 1)
    {
      ExecutedStep(r, s, n);
    }
    forall n: nat | n >= 1
      ensures Executed(r1, s[1..], n) == Executed(r2, [s[2], s[3]], n - 1)
    {
      ExecutedStep(r1, s[1..], n);
    }
    forall n: nat | n >= 1
      ensures Executed(r2, [s[2], s[3]], n) == Executed(r3, [s[3]], n - 1)
    {
      ExecutedStep(r2, [s[2], s[3]], n);
    }
    forall n: nat | n >= 1
      ensures Executed(r3, [s[3]], n) == (Effect(r3, s[3]), [])
    {
      ExecutedStep(r3, [s[3]], n);
    }
  }

  lemma TwoAlone<C, P>(r: Registry<C, P>, s: seq<Micro<C, P>>)
    requires |s| == 2 && !Conditional(s[1]) && !s[0].TakeStaged?
    ensures Executed(r, s, LONGEST)
            == if Rest(r, s) == [] then (Effect(r, s[0]), []) else (Effect(Effect(r, s[0]), s[1]), [])
  {
    assert s[1..] == [s[1]] && s[1..][1..] == [];
    ExecutedStep(r, s, LONGEST);
    if Rest(r, s) != [] {
      ExecutedStep(Effect(r, s[0]), s[1..], LONGEST - 1);
    }
  }

  lemma RegisterAlone<C, P>(r: Registry<C, P>, op: Op<C, P>)
    requires op.Register? || op.RegisterWith?
    ensures Executed(r, Script(op), LONGEST) == (Apply(r, op), [])
  {
    if op.Register? {
      TwoAlone(r, Script(op));
    } else {
      FourAlone(r, Script(op));
    }
  }

  lemma PrepareAlone<C, P>(r: Registry<C, P>, op: Op<C, P>)
    requires op.Prepare? && Legal(r, op)
    ensures Executed(r, Script(op), LONGEST) == (Apply(r, op), [])
  {
    if Resolves(op.providers) {
      TwoAlone(r, Script(op));
    }
  }

  lemma UnregisterAlone<C, P>(r: Registry<C, P>, name: string)
    ensures Executed(r, Script<C, P>(Unregister(name)), LONGEST) == (Unregistered(r, name), [])
  {
    var script := Script<C, P>(Unregister(name));
    if name in r.targets {
      FourAlone(r, script);
    } else {
      ExecutedStep(r, script, LONGEST);
    }
  }

  /** Left alone, the steps of an operation come to what the operation does. */
  lemma OperationAlone<C, P>(r: Registry<C, P>, op: Op<C, P>)
    requires Legal(r, op)
    ensures Executed(r, Script(op), LONGEST) == (Apply(r, op), [])
  {
    match op
    case Register(_, _) => RegisterAlone(r, op);
    case RegisterWith(_, _, _, _) => RegisterAlone(r, op);
    case UpdateCaps(_, _) => TwoAlone(r, Script(op));
    case Unregister(name) => UnregisterAlone(r, name);
    case Prepare(_, _) => PrepareAlone(r, op);
    case Commit(order) => CommitAlone(r, order);
  }

  lemma {:induction false} ExecutedSplit<C, P>(r: Registry<C, P>, script: seq<Micro<C, P>>, a: nat, b: nat)
    ensures var (mid, rest) := Executed(r, script, a);
            Executed(r, script, a + b) == Executed(mid, rest, b)
    decreases a
  {
    if a > 0 && script != [] {
      ExecutedSplit(Effect(r, script[0]), Rest(r, script), a - 1, b);
    }
  }

  lemma {:induction false} AloneTold<C, P>(whole: bool, r: Registry<C, P>, script: seq<Micro<C, P>>, n: nat)
    requires Announces(whole, script)
    ensures var (after, rest) := Executed(r, script, n);
            && Announces(whole, rest) && r.version <= after.version
            && (Same(whole, r, after) || r.version < after.version || Owes(rest))
            && (Owes(script) ==> r.version < after.version || Owes(rest))
    decreases n
  {
    if n > 0 && script != [] {
      StepAnnounced(whole, r, script);
      RestAnnounces(whole, r, script);
      AloneTold(whole, Effect(r, script[0]), Rest(r, script), n - 1);
    }
  }

  /** A watcher that reads the version and the registry between two steps of the operation
      can be left with stale values and a version that never moves again. */
  ghost predicate Missed<C(!new), P(!new)>(r: Registry<C, P>, op: Op<C, P>)
    requires Legal(r, op)
  {
    exists k: nat :: k <= LONGEST && Midway(r, op, k).version == Apply(r, op).version
                     && !SameServing(Midway(r, op, k), Apply(r, op))
  }

  predicate Holds<C(==), P(==)>(r: Registry<C, P>, name: string, caps: C, price: P) {
    name in r.capabilities && r.capabilities[name] == caps && name in r.pricing && r.pricing[name] == price
  }

  lemma AnnouncedIsNotMissed<C(!new), P(!new)>(r: Registry<C, P>, op: Op<C, P>, k: nat)
    requires Legal(r, op) && !op.RegisterWith? && k <= LONGEST
    ensures Midway(r, op, k).version == Apply(r, op).version ==> SameServing(Midway(r, op, k), Apply(r, op))
  {
    ScriptAnnounces(true, op);
    AloneTold(true, r, Script(op), k);
    var (mid, rest) := Executed(r, Script(op), k);
    AloneTold(true, mid, rest, LONGEST - k);
    ExecutedSplit(r, Script(op), k, LONGEST - k);
    OperationAlone(r, op);
  }

  /** The version moves before the capabilities and pricing of a new target are written, so
      exactly that operation can be missed, and it is unless it writes what was there. */
  lemma MissedIff<C(!new), P(!new)>(r: Registry<C, P>, op: Op<C, P>)
    requires Legal(r, op)
    ensures Missed(r, op) <==> op.RegisterWith? && !Holds(r, op.target.name, op.caps, op.price)
  {
    if op.RegisterWith? {
      var script, after := Script(op), Apply(r, op);
      FourAlone(r, script);
      assert Midway(r, op, 2).version == after.version && Midway(r, op, 3).version == after.version;
      if Holds(r, op.target.name, op.caps, op.price) {
        assert after.capabilities == r.capabilities && after.pricing == r.pricing;
        forall k: nat | k <= LONGEST && Midway(r, op, k).version == after.version
          ensures SameServing(Midway(r, op, k), after)
        {
          assert k != 0 && k != 1;
        }
      } else {
        assert Midway(r, op, 2).capabilities == r.capabilities && Midway(r, op, 2).pricing == r.pricing;
        assert after.capabilities[op.target.name] == op.caps && after.pricing[op.target.name] == op.price;
        assert !SameServing(Midway(r, op, 2), after);
      }
    } else {
      forall k: nat | k <= LONGEST && Midway(r, op, k).version == Apply(r, op).version
        ensures SameServing(Midway(r, op, k), Apply(r, op))
      {
        AnnouncedIsNotMissed(r, op, k);
      }
    }
  }
}
