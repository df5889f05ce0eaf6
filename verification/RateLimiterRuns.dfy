/** Runs of the limiter in which requests and the cleanup task interleave.

    A request is three atomic steps under the gate: the membership test; the length test,
    after which it loads the settings; then look-up-or-insert through the token decision,
    which DashMap's entry lock makes one step, and which loads the settings again. The
    cleanup task is a reading of the clock, perhaps one overtaken by a request's own,
    followed by removals, one entry at a time, at any later moment. */
module RateLimiterRuns {
  import opened Prelude
  import opened RateLimiter

  /** Who holds the gate, and how far that request has come. */
  datatype Gate =
    | Free
    | Tested(client: string, known: bool)
    | Cleared(client: string, loaded: Config)

  datatype State = State(config: Config, buckets: Buckets, gate: Gate, clock: real, cutoff: Option<real>)

  datatype Label =
    | Acquire(client: string)
    | TestLength
    | EnterBucket(at: Readings)
    | SweepStart(now: real)
    | SweepRemove(client: string)
    | Reconfigure(config: Config)

  /** A token decision the run produced. */
  datatype Call = Call(client: string, at: Readings)

  datatype Observation = Observation(call: Call, verdict: Verdict)

  function Init(cfg: Config): State {
    State(cfg, map[], Free, 0.0, None)
  }

  predicate Enabled(s: State, l: Label) {
    match l
    case Acquire(_) => s.gate.Free?
    case TestLength => s.gate.Tested?
    case EnterBucket(at) => s.gate.Cleared? && at.Ordered() && s.clock <= at.created
    case SweepStart(_) => true
    case SweepRemove(client) => s.cutoff.Some? && client in s.buckets && s.buckets[client].lastAccess <= s.cutoff.value
    case Reconfigure(_) => true
  }

  function Next(interval: nat, s: State, l: Label): State
    requires Enabled(s, l)
  {
    match l
    case Acquire(client) => s.(gate := Tested(client, client in s.buckets))
    case TestLength =>
      if !s.gate.known && |s.buckets| >= MAX_BUCKETS then
        s.(gate := Free)
      else
        s.(gate := Cleared(s.gate.client, s.config))
    case EnterBucket(at) =>
      s.(buckets := EnterWith(s.gate.loaded, s.config, s.buckets, s.gate.client, at).0, gate := Free,
         clock := at.accessed)
    case SweepStart(now) =>
      s.(clock := if s.clock <= now then now else s.clock, cutoff := Some(now - 2.0 * interval as real))
    case SweepRemove(client) => s.(buckets := s.buckets - {client})
    case Reconfigure(cfg) => s.(config := cfg)
  }

  predicate Valid(interval: nat, s: State, run: seq<Label>)
    decreases |run|
  {
    run == [] || (Enabled(s, run[0]) && Valid(interval, Next(interval, s, run[0]), run[1..]))
  }

  function Final(interval: nat, s: State, run: seq<Label>): State
    requires Valid(interval, s, run)
    decreases |run|
  {
    if run == [] then s else Final(interval, Next(interval, s, run[0]), run[1..])
  }

  /** The token decision a step makes, if it makes one. */
  function Emitted(s: State, l: Label): seq<Observation>
    requires Enabled(s, l)
  {
    if l.EnterBucket? then
      [Observation(Call(s.gate.client, l.at), EnterWith(s.gate.loaded, s.config, s.buckets, s.gate.client, l.at).1)]
    else
      []
  }

  function Trace(interval: nat, s: State, run: seq<Label>): seq<Observation>
    requires Valid(interval, s, run)
    decreases |run|
  {
    if run == [] then [] else Emitted(s, run[0]) + Trace(interval, Next(interval, s, run[0]), run[1..])
  }

  predicate FixedConfig(run: seq<Label>) {
    forall i :: 0 <= i < |run| ==> !run[i].Reconfigure?
  }

  // ---- The reference: a limiter with neither a cap nor a cleanup task ----

  function Replay(cfg: Config, m: Buckets, calls: seq<Call>): seq<Verdict>
    decreases |calls|
  {
    if calls == [] then [] else
    var (m', verdict) := Enter(cfg, m, calls[0].client, calls[0].at);
    [verdict] + Replay(cfg, m', calls[1..])
  }

  function Calls(trace: seq<Observation>): seq<Call> {
    seq(|trace|, i requires 0 <= i < |trace| => trace[i].call)
  }

  function Verdicts(trace: seq<Observation>): seq<Verdict> {
    seq(|trace|, i requires 0 <= i < |trace| => trace[i].verdict)
  }

  // ---- The bucket cap ----

  ghost predicate Capped(s: State) {
    && |s.buckets| <= MAX_BUCKETS
    && (s.gate.Tested? && s.gate.known ==> s.gate.client in s.buckets || |s.buckets| < MAX_BUCKETS)
    && (s.gate.Cleared? ==> s.gate.client in s.buckets || |s.buckets| < MAX_BUCKETS)
  }

  lemma CappedStep(interval: nat, s: State, l: Label)
    requires Enabled(s, l) && Capped(s)
    ensures Capped(Next(interval, s, l))
  {
    match l
    case SweepRemove(client) =>
      assert (s.buckets - {client}).Keys == s.buckets.Keys - {client};
      assert |s.buckets - {client}| == |s.buckets.Keys - {client}| == |s.buckets| - 1;
    case EnterBucket(at) =>
      var m := EnterWith(s.gate.loaded, s.config, s.buckets, s.gate.client, at).0;
      assert m.Keys == s.buckets.Keys + {s.gate.client};
      assert |m| == |m.Keys|;
    case _ =>
  }

  /** The bucket map never outgrows the cap, whatever the cleanup task removes between a
      request's tests and its insertion, and whatever the settings become. */
  lemma {:induction false} BucketCapHolds(interval: nat, s: State, run: seq<Label>)
    requires Capped(s) && Valid(interval, s, run)
    ensures Capped(Final(interval, s, run))
    ensures |Final(interval, s, run).buckets| <= MAX_BUCKETS
    decreases |run|
  {
    if run != [] {
      CappedStep(interval, s, run[0]);
      BucketCapHolds(interval, Next(interval, s, run[0]), run[1..]);
    }
  }

  // ---- Token bounds ----

  lemma EarnedParts(cfg: Config, x: real, y: real)
    requires x >= 0.0 && y >= 0.0
    ensures Earned(cfg, x + y) == Earned(cfg, x) + Earned(cfg, y)
    ensures Earned(cfg, x) >= 0.0 && Earned(cfg, y) >= 0.0
  {
  }

  ghost predicate SoundBucket(cfg: Config, b: Bucket, clock: real) {
    && 0.0 <= b.tokens <= Burst(cfg)
    && b.lastRefill <= b.lastAccess <= clock
  }

  ghost predicate SoundBuckets(cfg: Config, m: Buckets, clock: real) {
    forall c :: c in m ==> SoundBucket(cfg, m[c], clock)
  }

  lemma TakeIsSound(loaded: Config, cfg: Config, b: Bucket, at: Readings, clock: real)
    requires SoundBucket(cfg, b, clock) || b == Fresh(loaded, at.created)
    requires at.Ordered() && clock <= at.created
    ensures SoundBucket(cfg, TakeWith(loaded, cfg, b, at).0, at.accessed)
  {
    EarnedParts(cfg, Elapsed(b.lastRefill, at.refilled), 0.0);
  }

  lemma SoundStep(interval: nat, s: State, l: Label)
    requires Enabled(s, l) && SoundBuckets(s.config, s.buckets, s.clock)
    requires !l.Reconfigure?
    ensures SoundBuckets(s.config, Next(interval, s, l).buckets, Next(interval, s, l).clock)
  {
    if l.EnterBucket? {
      var loaded := s.gate.loaded;
      TakeIsSound(loaded, s.config, Lookup(loaded, s.buckets, s.gate.client, l.at), l.at, s.clock);
    }
  }

  /** Under fixed settings no bucket ever leaves the range from zero to the burst size. */
  lemma {:induction false} TokensStayInRange(interval: nat, s: State, run: seq<Label>)
    requires Valid(interval, s, run) && FixedConfig(run)
    requires SoundBuckets(s.config, s.buckets, s.clock)
    ensures Final(interval, s, run).config == s.config
    ensures SoundBuckets(s.config, Final(interval, s, run).buckets, Final(interval, s, run).clock)
    decreases |run|
  {
    if run != [] {
      SoundStep(interval, s, run[0]);
      TokensStayInRange(interval, Next(interval, s, run[0]), run[1..]);
    }
  }

  /** A request under way has loaded the settings in force. */
  predicate Settled(s: State) {
    s.gate.Cleared? ==> s.gate.loaded == s.config
  }

  lemma {:induction false} StaysSettled(interval: nat, s: State, run: seq<Label>)
    requires Settled(s) && Valid(interval, s, run) && FixedConfig(run)
    ensures Settled(Final(interval, s, run))
    decreases |run|
  {
    if run != [] {
      StaysSettled(interval, Next(interval, s, run[0]), run[1..]);
    }
  }

  // ---- Eviction cannot be observed ----

  /** Two idle intervals refill any bucket. */
  predicate SlowEviction(cfg: Config, interval: nat) {
    2 * interval * cfg.requestsPerMinute >= 60 * cfg.burstSize
  }

  /** A bucket that, looked up now or later, is as good as new. */
  ghost predicate Replenished(cfg: Config, b: Bucket, clock: real) {
    && b.lastRefill <= clock
    && b.tokens + Earned(cfg, clock - b.lastRefill) >= Burst(cfg)
  }

  /** The evicting limiter holds the reference's buckets, save some replenished ones. */
  ghost predicate Simulates(interval: nat, s: State, m: Buckets) {
    && Settled(s)
    && SoundBuckets(s.config, m, s.clock)
    && (forall c :: c in s.buckets ==> c in m && m[c] == s.buckets[c])
    && (forall c :: c in m && c !in s.buckets ==> Replenished(s.config, m[c], s.clock))
    && (s.cutoff.Some? ==> s.cutoff.value + 2.0 * interval as real <= s.clock)
  }

  lemma ReplenishedLater(cfg: Config, b: Bucket, now: real, later: real)
    requires Replenished(cfg, b, now) && now <= later
    ensures Replenished(cfg, b, later)
  {
    EarnedParts(cfg, now - b.lastRefill, later - now);
    assert (now - b.lastRefill) + (later - now) == later - b.lastRefill;
  }

  lemma IdleIsReplenished(cfg: Config, interval: nat, b: Bucket, clock: real, sweep: real)
    requires SlowEviction(cfg, interval) && SoundBucket(cfg, b, clock)
    requires sweep <= clock && b.lastAccess <= sweep - 2.0 * interval as real
    ensures Replenished(cfg, b, clock)
  {
    var idle, need := clock - b.lastRefill, 2.0 * interval as real;
    EarnedParts(cfg, need, idle - need);
    assert need + (idle - need) == idle;
    EnoughTokens(cfg, interval);
  }

  lemma EnoughTokens(cfg: Config, interval: nat)
    ensures SlowEviction(cfg, interval) <==> Earned(cfg, 2.0 * interval as real) >= Burst(cfg)
  {
    var i, r, b := interval as real, cfg.requestsPerMinute as real, cfg.burstSize as real;
    assert 2.0 * i * (r / 60.0) == (2.0 * i * r) / 60.0;
    assert (2 * interval * cfg.requestsPerMinute) as real == 2.0 * i * r;
    assert (60 * cfg.burstSize) as real == 60.0 * b;
  }

  /** Taking from a replenished bucket and from a new one come to the same. */
  lemma ReplenishedLikeFresh(cfg: Config, b: Bucket, clock: real, at: Readings)
    requires Replenished(cfg, b, clock) && clock <= at.created && at.Ordered()
    ensures Take(cfg, b, at) == Take(cfg, Fresh(cfg, at.created), at)
  {
    ReplenishedLater(cfg, b, clock, at.refilled);
    EarnedParts(cfg, at.refilled - at.created, 0.0);
  }

  /** What one step of the evicting limiter does to the reference. */
  function Mirror(s: State, m: Buckets, l: Label): Buckets
    requires Enabled(s, l)
  {
    if l.EnterBucket? then Enter(s.config, m, s.gate.client, l.at).0 else m
  }

  lemma SimulationStep(interval: nat, s: State, m: Buckets, l: Label)
    requires SlowEviction(s.config, interval) && Simulates(interval, s, m)
    requires Enabled(s, l) && !l.Reconfigure?
    ensures Simulates(interval, Next(interval, s, l), Mirror(s, m, l))
    ensures l.EnterBucket? ==>
              Enter(s.config, m, s.gate.client, l.at).1
              == EnterWith(s.gate.loaded, s.config, s.buckets, s.gate.client, l.at).1
  {
    var s', m' := Next(interval, s, l), Mirror(s, m, l);
    match l
    case EnterBucket(at) =>
      var c := s.gate.client;
      TakeIsSound(s.config, s.config, Lookup(s.config, m, c, at), at, s.clock);
      if c in m && c !in s.buckets {
        ReplenishedLikeFresh(s.config, m[c], s.clock, at);
      }
      forall d | d in m' && d !in s'.buckets
        ensures Replenished(s.config, m'[d], s'.clock)
      {
        ReplenishedLater(s.config, m[d], s.clock, s'.clock);
      }
    case SweepStart(now) =>
      forall d | d in m && d !in s.buckets
        ensures Replenished(s.config, m[d], s'.clock)
      {
        ReplenishedLater(s.config, m[d], s.clock, s'.clock);
      }
    case SweepRemove(c) =>
      IdleIsReplenished(s.config, interval, m[c], s.clock, s.cutoff.value + 2.0 * interval as real);
    case _ =>
  }

  lemma InitSimulated(interval: nat, cfg: Config)
    ensures Simulates(interval, Init(cfg), map[])
  {
  }

  lemma TraceParts(head: seq<Observation>, rest: seq<Observation>)
    ensures Calls(head + rest) == Calls(head) + Calls(rest)
    ensures Verdicts(head + rest) == Verdicts(head) + Verdicts(rest)
  {
  }

  lemma ReplayCons(cfg: Config, m: Buckets, o: Observation, rest: seq<Observation>)
    requires Enter(cfg, m, o.call.client, o.call.at).1 == o.verdict
    requires Replay(cfg, Enter(cfg, m, o.call.client, o.call.at).0, Calls(rest)) == Verdicts(rest)
    ensures Replay(cfg, m, Calls([o] + rest)) == Verdicts([o] + rest)
  {
    TraceParts([o], rest);
    var calls := Calls([o] + rest);
    assert calls[0] == o.call && calls[1..] == Calls(rest);
  }

  /** The evicting limiter decides every admitted call as the reference does. */
  lemma {:induction false} EvictionIsInvisible(interval: nat, s: State, m: Buckets, run: seq<Label>)
    requires SlowEviction(s.config, interval) && Simulates(interval, s, m)
    requires Valid(interval, s, run) && FixedConfig(run)
    ensures Replay(s.config, m, Calls(Trace(interval, s, run))) == Verdicts(Trace(interval, s, run))
    decreases |run|
  {
    if run != [] {
      var l, s' := run[0], Next(interval, s, run[0]);
      SimulationStep(interval, s, m, l);
      EvictionIsInvisible(interval, s', Mirror(s, m, l), run[1..]);
      if l.EnterBucket? {
        ReplayCons(s.config, m, Emitted(s, l)[0], Trace(interval, s', run[1..]));
      } else {
        assert Trace(interval, s, run) == Trace(interval, s', run[1..]);
      }
    }
  }

  // ---- Eviction can be observed when two idle intervals do not refill a bucket ----

  const WITNESS: string := "c"

  ghost predicate AllAllowed(verdicts: seq<Verdict>) {
    forall i :: 0 <= i < |verdicts| ==> verdicts[i].Allowed?
  }

  function Burstful(n: nat, t: real): seq<Label>
    decreases n
  {
    if n == 0 then [] else [Acquire(WITNESS), TestLength, EnterBucket(Readings(t, t, t))] + Burstful(n - 1, t)
  }

  function Repeated(n: nat, t: real): seq<Call> {
    seq(n, _ => Call(WITNESS, Readings(t, t, t)))
  }

  function ReplayState(cfg: Config, m: Buckets, calls: seq<Call>): Buckets
    decreases |calls|
  {
    if calls == [] then m else ReplayState(cfg, Enter(cfg, m, calls[0].client, calls[0].at).0, calls[1..])
  }

  lemma {:induction false} ReplayAppend(cfg: Config, m: Buckets, a: seq<Call>, b: seq<Call>)
    ensures Replay(cfg, m, a + b) == Replay(cfg, m, a) + Replay(cfg, ReplayState(cfg, m, a), b)
    ensures |Replay(cfg, m, a)| == |a|
    decreases |a|
  {
    if a == [] {
      assert a + b == b;
    } else {
      assert (a + b)[0] == a[0] && (a + b)[1..] == a[1..] + b;
      ReplayAppend(cfg, Enter(cfg, m, a[0].client, a[0].at).0, a[1..], b);
    }
  }

  lemma {:induction false} RunAppend(interval: nat, s: State, a: seq<Label>, b: seq<Label>)
    requires Valid(interval, s, a) && Valid(interval, Final(interval, s, a), b)
    ensures Valid(interval, s, a + b)
    ensures Final(interval, s, a + b) == Final(interval, Final(interval, s, a), b)
    ensures Trace(interval, s, a + b) == Trace(interval, s, a) + Trace(interval, Final(interval, s, a), b)
    decreases |a|
  {
    if a == [] {
      assert a + b == b;
    } else {
      assert (a + b)[0] == a[0] && (a + b)[1..] == a[1..] + b;
      RunAppend(interval, Next(interval, s, a[0]), a[1..], b);
    }
  }

  /** A request that gets past the cap, with nothing beside it. */
  lemma ThreeSteps(interval: nat, s: State, client: string, at: Readings)
    requires s.gate.Free? && at.Ordered() && s.clock <= at.created && !Refused(s.buckets, client)
    ensures var run := [Acquire(client), TestLength, EnterBucket(at)];
            && Valid(interval, s, run)
            && Final(interval, s, run) == s.(buckets := Enter(s.config, s.buckets, client, at).0, clock := at.accessed)
            && Trace(interval, s, run) == [Observation(Call(client, at), Enter(s.config, s.buckets, client, at).1)]
  {
    var run := [Acquire(client), TestLength, EnterBucket(at)];
    assert run[1..] == [TestLength, EnterBucket(at)];
    assert run[1..][1..] == [EnterBucket(at)];
    assert run[1..][1..][1..] == [];
    var s1 := Next(interval, s, run[0]);
    var s2 := Next(interval, s1, TestLength);
    assert s2.gate == Cleared(client, s.config) && s2.buckets == s.buckets && s2.config == s.config;
    var s3 := Next(interval, s2, EnterBucket(at));
    assert Valid(interval, s3, []) && Valid(interval, s2, run[1..][1..]) && Valid(interval, s1, run[1..]);
    assert Final(interval, s2, run[1..][1..]) == s3;
    assert Final(interval, s1, run[1..]) == s3;
    assert Trace(interval, s2, [EnterBucket(at)]) == Emitted(s2, EnterBucket(at));
    assert Trace(interval, s1, run[1..]) == Emitted(s2, EnterBucket(at));
  }

  lemma {:induction false} SubsetSize<T>(a: set<T>, b: set<T>)
    requires a <= b
    ensures |a| <= |b|
    decreases |a|
  {
    if a != {} {
      var x :| x in a;
      SubsetSize(a - {x}, b - {x});
    }
  }

  lemma {:induction false} BurstRun(interval: nat, s: State, n: nat, t: real)
    requires s.gate.Free? && s.clock <= t && s.buckets.Keys <= {WITNESS}
    ensures Valid(interval, s, Burstful(n, t)) && FixedConfig(Burstful(n, t))
    ensures var s' := Final(interval, s, Burstful(n, t));
            && s' == s.(buckets := ReplayState(s.config, s.buckets, Repeated(n, t)),
                        clock := if n == 0 then s.clock else t)
            && s'.buckets.Keys <= {WITNESS}
    ensures Calls(Trace(interval, s, Burstful(n, t))) == Repeated(n, t)
    ensures Verdicts(Trace(interval, s, Burstful(n, t))) == Replay(s.config, s.buckets, Repeated(n, t))
    decreases n
  {
    if n > 0 {
      var at := Readings(t, t, t);
      var one := [Acquire(WITNESS), TestLength, EnterBucket(at)];
      assert |s.buckets.Keys| <= |{WITNESS}| by { SubsetSize(s.buckets.Keys, {WITNESS}); }
      assert |s.buckets| == |s.buckets.Keys|;
      ThreeSteps(interval, s, WITNESS, at);
      var s1 := Final(interval, s, one);
      BurstRun(interval, s1, n - 1, t);
      RunAppend(interval, s, one, Burstful(n - 1, t));
      TraceParts(Trace(interval, s, one), Trace(interval, s1, Burstful(n - 1, t)));
      assert Repeated(n, t)[0] == Call(WITNESS, at);
      assert Repeated(n, t)[1..] == Repeated(n - 1, t);
      assert Repeated(n, t) == [Call(WITNESS, at)] + Repeated(n - 1, t);
    } else {
      assert Repeated(n, t) == [];
    }
  }

  /** The tokens the witness would find at time `t`. */
  function Level(cfg: Config, m: Buckets, t: real): real {
    if WITNESS in m then Refill(cfg, m[WITNESS], t).tokens else Burst(cfg)
  }

  lemma LevelAfter(cfg: Config, m: Buckets, t: real)
    ensures var (m', verdict) := Enter(cfg, m, WITNESS, Readings(t, t, t));
            && (verdict.Allowed? <==> Level(cfg, m, t) >= 1.0)
            && m'[WITNESS].lastRefill == m'[WITNESS].lastAccess == t
            && m'[WITNESS].tokens == Level(cfg, m, t) - (if verdict.Allowed? then 1.0 else 0.0)
            && (Level(cfg, m, t) <= Burst(cfg) ==> Level(cfg, m', t) == m'[WITNESS].tokens)
  {
  }

  lemma {:induction false} AmpleBurst(cfg: Config, m: Buckets, n: nat, t: real)
    requires n as real <= Level(cfg, m, t)
    ensures |Replay(cfg, m, Repeated(n, t))| == n && AllAllowed(Replay(cfg, m, Repeated(n, t)))
    ensures var m' := ReplayState(cfg, m, Repeated(n, t));
            n > 0 ==> WITNESS in m' && m'[WITNESS] == Bucket(Level(cfg, m, t) - n as real, t, t)
    decreases n
  {
    if n > 0 {
      var m1 := Enter(cfg, m, WITNESS, Readings(t, t, t)).0;
      LevelAfter(cfg, m, t);
      assert Repeated(n, t)[1..] == Repeated(n - 1, t);
      assert Level(cfg, m1, t) == Level(cfg, m, t) - 1.0;
      AmpleBurst(cfg, m1, n - 1, t);
      ReplayAppend(cfg, m, Repeated(n, t), []);
      if n == 1 { assert Repeated(n - 1, t) == []; }
    }
  }

  lemma {:induction false} StarvedBurst(cfg: Config, m: Buckets, n: nat, t: real)
    requires n > 0 && Level(cfg, m, t) < n as real
    ensures |Replay(cfg, m, Repeated(n, t))| == n && Replay(cfg, m, Repeated(n, t))[n - 1].Denied?
    decreases n
  {
    var m1 := Enter(cfg, m, WITNESS, Readings(t, t, t)).0;
    LevelAfter(cfg, m, t);
    assert Repeated(n, t)[1..] == Repeated(n - 1, t);
    ReplayAppend(cfg, m, Repeated(n, t), []);
    if n > 1 {
      StarvedBurst(cfg, m1, n - 1, t);
    }
  }

  /** Spend the whole burst, idle for two intervals, be evicted, and spend it again. */
  function Spree(cfg: Config, interval: nat): seq<Label> {
    var idle := 2.0 * interval as real;
    (Burstful(cfg.burstSize, 0.0) + [SweepStart(idle), SweepRemove(WITNESS)]) + Burstful(cfg.burstSize, idle)
  }

  lemma EvictedState(cfg: Config, interval: nat) returns (s: State)
    requires cfg.burstSize > 0
    ensures var first := Burstful(cfg.burstSize, 0.0) + [SweepStart(2.0 * interval as real), SweepRemove(WITNESS)];
            && Valid(interval, Init(cfg), first) && FixedConfig(first)
            && s == Final(interval, Init(cfg), first)
            && Calls(Trace(interval, Init(cfg), first)) == Repeated(cfg.burstSize, 0.0)
            && AllAllowed(Verdicts(Trace(interval, Init(cfg), first)))
            && s.gate.Free? && s.config == cfg && s.buckets == map[] && s.clock == 2.0 * interval as real
  {
    var b, idle := cfg.burstSize, 2.0 * interval as real;
    var s0, tail := Init(cfg), [SweepStart(idle), SweepRemove(WITNESS)];
    BurstRun(interval, s0, b, 0.0);
    AmpleBurst(cfg, map[], b, 0.0);
    var s1 := Final(interval, s0, Burstful(b, 0.0));
    assert s1.buckets.Keys == {WITNESS} && s1.buckets[WITNESS].lastAccess == 0.0;
    assert tail[1..] == [SweepRemove(WITNESS)] && tail[1..][1..] == [];
    var s2 := Next(interval, s1, tail[0]);
    s := Next(interval, s2, tail[1]);
    assert Valid(interval, s, []) && Valid(interval, s2, tail[1..]) && Valid(interval, s1, tail);
    assert Final(interval, s2, tail[1..]) == s;
    assert Trace(interval, s2, tail[1..]) == [];
    assert Trace(interval, s1, tail) == [];
    RunAppend(interval, s0, Burstful(b, 0.0), tail);
    assert s.buckets.Keys == {};
    assert Trace(interval, s0, Burstful(b, 0.0)) + [] == Trace(interval, s0, Burstful(b, 0.0));
  }

  lemma SpreeTrace(cfg: Config, interval: nat)
    requires cfg.burstSize > 0
    ensures var run, b := Spree(cfg, interval), cfg.burstSize;
            && Valid(interval, Init(cfg), run) && FixedConfig(run)
            && Calls(Trace(interval, Init(cfg), run)) == Repeated(b, 0.0) + Repeated(b, 2.0 * interval as real)
            && |Verdicts(Trace(interval, Init(cfg), run))| == 2 * b
            && AllAllowed(Verdicts(Trace(interval, Init(cfg), run)))
  {
    var b, idle := cfg.burstSize, 2.0 * interval as real;
    var first := Burstful(b, 0.0) + [SweepStart(idle), SweepRemove(WITNESS)];
    var s := EvictedState(cfg, interval);
    BurstRun(interval, s, b, idle);
    RunAppend(interval, Init(cfg), first, Burstful(b, idle));
    TraceParts(Trace(interval, Init(cfg), first), Trace(interval, s, Burstful(b, idle)));
    AmpleBurst(cfg, s.buckets, b, idle);
  }

  lemma SpreeReference(cfg: Config, interval: nat)
    requires !SlowEviction(cfg, interval)
    ensures var b := cfg.burstSize;
            var verdicts := Replay(cfg, map[], Repeated(b, 0.0) + Repeated(b, 2.0 * interval as real));
            |verdicts| == 2 * b > 0 && verdicts[2 * b - 1].Denied?
  {
    var b, idle := cfg.burstSize, 2.0 * interval as real;
    assert b > 0;
    AmpleBurst(cfg, map[], b, 0.0);
    var m := ReplayState(cfg, map[], Repeated(b, 0.0));
    EnoughTokens(cfg, interval);
    assert Level(cfg, m, idle) < b as real;
    StarvedBurst(cfg, m, b, idle);
    ReplayAppend(cfg, map[], Repeated(b, 0.0), Repeated(b, idle));
  }

  ghost predicate EvictionInvisible(cfg: Config, interval: nat) {
    forall run :: Valid(interval, Init(cfg), run) && FixedConfig(run) ==>
      Replay(cfg, map[], Calls(Trace(interval, Init(cfg), run))) == Verdicts(Trace(interval, Init(cfg), run))
  }

  /** Removing idle buckets is invisible in every run exactly when two cleanup intervals
      earn at least a burst of tokens. */
  lemma EvictionInvisibleIff(cfg: Config, interval: nat)
    ensures EvictionInvisible(cfg, interval) <==> SlowEviction(cfg, interval)
  {
    if SlowEviction(cfg, interval) {
      forall run | Valid(interval, Init(cfg), run) && FixedConfig(run)
        ensures Replay(cfg, map[], Calls(Trace(interval, Init(cfg), run))) == Verdicts(Trace(interval, Init(cfg), run))
      {
        EvictionIsInvisible(interval, Init(cfg), map[], run);
      }
    } else {
      SpreeReference(cfg, interval);
      SpreeTrace(cfg, interval);
      assert Valid(interval, Init(cfg), Spree(cfg, interval));
    }
  }

  // ---- The window bound ----

  ghost predicate Chronological(clock: real, calls: seq<Call>)
    decreases |calls|
  {
    calls != [] ==>
      && calls[0].at.Ordered()
      && clock <= calls[0].at.created
      && Chronological(calls[0].at.accessed, calls[1..])
  }

  predicate Inside(call: Call, client: string, from: real, to: real) {
    call.client == client && from <= call.at.refilled <= to
  }

  /** How many of the client's calls in the window were let through. */
  function AdmittedIn(calls: seq<Call>, verdicts: seq<Verdict>, client: string, from: real, to: real): nat
    requires |calls| == |verdicts|
    decreases |calls|
  {
    if calls == [] then 0 else
    (if Inside(calls[0], client, from, to) && verdicts[0].Allowed? then 1 else 0)
    + AdmittedIn(calls[1..], verdicts[1..], client, from, to)
  }

  lemma {:induction false} NoneAfterWindow(calls: seq<Call>, verdicts: seq<Verdict>, client: string, from: real,
          to: real, clock: real)
    requires |calls| == |verdicts| && Chronological(clock, calls) && to < clock
    ensures AdmittedIn(calls, verdicts, client, from, to) == 0
    decreases |calls|
  {
    if calls != [] {
      NoneAfterWindow(calls[1..], verdicts[1..], client, from, to, calls[0].at.accessed);
    }
  }

  /** The most the client can still be granted inside the window. */
  ghost function Allowance(cfg: Config, m: Buckets, client: string, from: real, to: real): real {
    if client in m && from <= m[client].lastRefill then
      m[client].tokens + Earned(cfg, Elapsed(m[client].lastRefill, to))
    else
      Burst(cfg) + Earned(cfg, to - from)
  }

  lemma AllowanceNonnegative(cfg: Config, m: Buckets, client: string, from: real, to: real, clock: real)
    requires from <= to && SoundBuckets(cfg, m, clock)
    ensures Allowance(cfg, m, client, from, to) >= 0.0
  {
    if client in m && from <= m[client].lastRefill {
      EarnedParts(cfg, Elapsed(m[client].lastRefill, to), 0.0);
    } else {
      EarnedParts(cfg, to - from, 0.0);
    }
  }

  /** Tokens are conserved: what a call leaves plus what it spends is what the bucket held
      plus what it earned, up to the burst size. */
  lemma TakeConserves(cfg: Config, b: Bucket, at: Readings)
    requires at.Ordered() && b.lastRefill <= at.refilled
    ensures var (b', verdict) := Take(cfg, b, at);
            && b'.lastRefill == at.refilled && b'.lastAccess == at.accessed
            && b'.tokens + (if verdict.Allowed? then 1.0 else 0.0)
               == Min(b.tokens + Earned(cfg, at.refilled - b.lastRefill), Burst(cfg))
            && (verdict.Denied? ==> b'.tokens < 1.0)
  {
  }

  lemma AllowanceStep(cfg: Config, m: Buckets, call: Call, client: string, from: real, to: real, clock: real)
    requires from <= to && SoundBuckets(cfg, m, clock)
    requires call.at.Ordered() && clock <= call.at.created && call.at.refilled <= to
    ensures var (m', verdict) := Enter(cfg, m, call.client, call.at);
            var counted := Inside(call, client, from, to) && verdict.Allowed?;
            Allowance(cfg, m', client, from, to) + (if counted then 1.0 else 0.0) <= Allowance(cfg, m, client, from, to)
  {
    var b, t := Lookup(cfg, m, call.client, call.at), call.at.refilled;
    TakeConserves(cfg, b, call.at);
    if call.client == client && from <= t {
      var since := if client in m && from <= m[client].lastRefill then b.lastRefill else from;
      EarnedParts(cfg, t - since, to - t);
      assert (t - since) + (to - t) == to - since;
    }
  }

  lemma {:induction false} ReplayWithinAllowance(cfg: Config, m: Buckets, calls: seq<Call>, client: string,
          from: real, to: real, clock: real)
    requires from <= to && SoundBuckets(cfg, m, clock) && Chronological(clock, calls)
    ensures |Replay(cfg, m, calls)| == |calls|
    ensures AdmittedIn(calls, Replay(cfg, m, calls), client, from, to) as real <= Allowance(cfg, m, client, from, to)
    decreases |calls|
  {
    if calls == [] {
      AllowanceNonnegative(cfg, m, client, from, to, clock);
    } else {
      var call, m' := calls[0], Enter(cfg, m, calls[0].client, calls[0].at).0;
      TakeIsSound(cfg, cfg, Lookup(cfg, m, call.client, call.at), call.at, clock);
      ReplayWithinAllowance(cfg, m', calls[1..], client, from, to, call.at.accessed);
      var verdicts := Replay(cfg, m, calls);
      assert verdicts[1..] == Replay(cfg, m', calls[1..]);
      if call.at.refilled <= to {
        AllowanceStep(cfg, m, call, client, from, to, clock);
      } else {
        NoneAfterWindow(calls[1..], verdicts[1..], client, from, to, call.at.accessed);
        AllowanceNonnegative(cfg, m, client, from, to, clock);
      }
    }
  }

  lemma {:induction false} TraceIsChronological(interval: nat, s: State, run: seq<Label>)
    requires Valid(interval, s, run)
    ensures Chronological(s.clock, Calls(Trace(interval, s, run)))
    decreases |run|
  {
    if run != [] {
      var s' := Next(interval, s, run[0]);
      TraceIsChronological(interval, s', run[1..]);
      TraceParts(Emitted(s, run[0]), Trace(interval, s', run[1..]));
      var calls := Calls(Trace(interval, s, run));
      if run[0].EnterBucket? {
        assert calls[1..] == Calls(Trace(interval, s', run[1..]));
      } else {
        assert calls == Calls(Trace(interval, s', run[1..]));
        ChronologicalEarlier(s.clock, s'.clock, calls);
      }
    }
  }

  lemma ChronologicalEarlier(earlier: real, clock: real, calls: seq<Call>)
    requires earlier <= clock && Chronological(clock, calls)
    ensures Chronological(earlier, calls)
  {
  }

  lemma FullAllowance(cfg: Config, client: string, from: real, to: real)
    ensures Allowance(cfg, map[], client, from, to) == Burst(cfg) + Earned(cfg, to - from)
  {
  }

  ghost predicate Evicts(run: seq<Label>, client: string) {
    exists i :: 0 <= i < |run| && run[i] == SweepRemove(client)
  }

  lemma OneMoreAdmitted(o: Observation, rest: seq<Observation>, client: string, from: real, to: real)
    ensures var counted := Inside(o.call, client, from, to) && o.verdict.Allowed?;
            AdmittedIn(Calls([o] + rest), Verdicts([o] + rest), client, from, to)
            == (if counted then 1 else 0) + AdmittedIn(Calls(rest), Verdicts(rest), client, from, to)
  {
    TraceParts([o], rest);
    var calls, verdicts := Calls([o] + rest), Verdicts([o] + rest);
    assert calls[0] == o.call && verdicts[0] == o.verdict;
    assert calls[1..] == Calls(rest) && verdicts[1..] == Verdicts(rest);
  }

  /** While its bucket stays, a client draws on its allowance, whatever else is evicted. */
  lemma {:induction false} RunWithinAllowance(interval: nat, s: State, run: seq<Label>, client: string,
          from: real, to: real)
    requires from <= to && Settled(s) && SoundBuckets(s.config, s.buckets, s.clock)
    requires Valid(interval, s, run) && FixedConfig(run) && !Evicts(run, client)
    ensures var trace := Trace(interval, s, run);
            AdmittedIn(Calls(trace), Verdicts(trace), client, from, to) as real
            <= Allowance(s.config, s.buckets, client, from, to)
    decreases |run|
  {
    if run == [] {
      AllowanceNonnegative(s.config, s.buckets, client, from, to, s.clock);
    } else {
      var l, s' := run[0], Next(interval, s, run[0]);
      var rest := Trace(interval, s', run[1..]);
      SoundStep(interval, s, l);
      RunWithinAllowance(interval, s', run[1..], client, from, to);
      if l.EnterBucket? {
        var o := Emitted(s, l)[0];
        OneMoreAdmitted(o, rest, client, from, to);
        if l.at.refilled <= to {
          AllowanceStep(s.config, s.buckets, o.call, client, from, to, s.clock);
        } else {
          TraceIsChronological(interval, s', run[1..]);
          NoneAfterWindow(Calls(rest), Verdicts(rest), client, from, to, s'.clock);
          AllowanceNonnegative(s.config, s.buckets, client, from, to, s.clock);
        }
      } else {
        assert Trace(interval, s, run) == rest;
        assert l != SweepRemove(client);
      }
    }
  }

  /** In every run of the evicting limiter, a client is granted at most a burst plus what
      the rate earns over the window, if eviction is slow or passes this client by. */
  lemma WindowBound(cfg: Config, interval: nat, run: seq<Label>, client: string, from: real, to: real)
    requires Valid(interval, Init(cfg), run) && FixedConfig(run)
    requires SlowEviction(cfg, interval) || !Evicts(run, client)
    requires from <= to
    ensures var trace := Trace(interval, Init(cfg), run);
            AdmittedIn(Calls(trace), Verdicts(trace), client, from, to) as real <= Burst(cfg) + Earned(cfg, to - from)
  {
    FullAllowance(cfg, client, from, to);
    if SlowEviction(cfg, interval) {
      InitSimulated(interval, cfg);
      EvictionIsInvisible(interval, Init(cfg), map[], run);
      TraceIsChronological(interval, Init(cfg), run);
      ReplayWithinAllowance(cfg, map[], Calls(Trace(interval, Init(cfg), run)), client, from, to, 0.0);
    } else {
      RunWithinAllowance(interval, Init(cfg), run, client, from, to);
    }
  }

  lemma {:induction false} EveryCallCounts(calls: seq<Call>, verdicts: seq<Verdict>, client: string, from: real,
          to: real)
    requires |calls| == |verdicts| && AllAllowed(verdicts)
    requires forall i :: 0 <= i < |calls| ==> Inside(calls[i], client, from, to)
    ensures AdmittedIn(calls, verdicts, client, from, to) == |calls|
    decreases |calls|
  {
    if calls != [] {
      assert AllAllowed(verdicts[1..]);
      EveryCallCounts(calls[1..], verdicts[1..], client, from, to);
    }
  }

  ghost predicate Within(cfg: Config, interval: nat, run: seq<Label>, client: string, from: real, to: real)
    requires Valid(interval, Init(cfg), run)
  {
    var trace := Trace(interval, Init(cfg), run);
    AdmittedIn(Calls(trace), Verdicts(trace), client, from, to) as real <= Burst(cfg) + Earned(cfg, to - from)
  }

  ghost predicate WindowBounded(cfg: Config, interval: nat) {
    forall run, client, from, to ::
      Valid(interval, Init(cfg), run) && FixedConfig(run) && from <= to ==> Within(cfg, interval, run, client, from, to)
  }

  /** The bound holds of every run, client and window exactly when two cleanup intervals earn
      a burst: otherwise idling through them doubles it. */
  lemma WindowBoundIff(cfg: Config, interval: nat)
    ensures WindowBounded(cfg, interval) <==> SlowEviction(cfg, interval)
  {
    if SlowEviction(cfg, interval) {
      forall run, client, from, to | Valid(interval, Init(cfg), run) && FixedConfig(run) && from <= to
        ensures Within(cfg, interval, run, client, from, to)
      {
        WindowBound(cfg, interval, run, client, from, to);
      }
    } else {
      var run, b, idle := Spree(cfg, interval), cfg.burstSize, 2.0 * interval as real;
      SpreeTrace(cfg, interval);
      var trace := Trace(interval, Init(cfg), run);
      EveryCallCounts(Calls(trace), Verdicts(trace), WITNESS, 0.0, idle);
      EnoughTokens(cfg, interval);
      assert idle - 0.0 == idle;
      assert !Within(cfg, interval, run, WITNESS, 0.0, idle);
    }
  }

  // ---- The advertised delay suffices ----

  ghost predicate NoCallBy(client: string, trace: seq<Observation>) {
    forall i :: 0 <= i < |trace| ==> trace[i].call.client != client
  }

  lemma {:induction false} BucketUntouched(interval: nat, s: State, run: seq<Label>, client: string)
    requires Valid(interval, s, run) && FixedConfig(run)
    requires NoCallBy(client, Trace(interval, s, run))
    ensures var s' := Final(interval, s, run);
            && s'.config == s.config
            && (client in s'.buckets ==> client in s.buckets && s'.buckets[client] == s.buckets[client])
    decreases |run|
  {
    if run != [] {
      var s1 := Next(interval, s, run[0]);
      var rest := Trace(interval, s1, run[1..]);
      assert Trace(interval, s, run) == Emitted(s, run[0]) + rest;
      assert run[0].EnterBucket? ==> Trace(interval, s, run)[0].call.client == s.gate.client;
      assert forall i :: 0 <= i < |rest| ==> rest[i] == Trace(interval, s, run)[|Emitted(s, run[0])| + i];
      BucketUntouched(interval, s1, run[1..], client);
    }
  }

  /** After a token denial the client may go elsewhere while anything else happens; its
      next call, once the advertised delay has passed, gets a token if it gets past the
      cap at all. */
  lemma RetryAfterSuffices(cfg: Config, interval: nat, before: seq<Label>, at: Readings, between: seq<Label>,
          again: Readings)
    requires cfg.requestsPerMinute > 0 && cfg.burstSize > 0
    requires Valid(interval, Init(cfg), before) && FixedConfig(before)
    requires var s := Final(interval, Init(cfg), before);
             && Enabled(s, EnterBucket(at))
             && Emitted(s, EnterBucket(at))[0].verdict.Denied?
             && var s1 := Next(interval, s, EnterBucket(at));
             && Valid(interval, s1, between) && FixedConfig(between)
             && NoCallBy(s.gate.client, Trace(interval, s1, between))
             && var s2 := Final(interval, s1, between);
             && Enabled(s2, EnterBucket(again)) && s2.gate.client == s.gate.client
             && again.refilled >= at.refilled + Emitted(s, EnterBucket(at))[0].verdict.code as real
    ensures var s1 := Next(interval, Final(interval, Init(cfg), before), EnterBucket(at));
            Emitted(Final(interval, s1, between), EnterBucket(again))[0].verdict.Allowed?
  {
    var s := Final(interval, Init(cfg), before);
    TokensStayInRange(interval, Init(cfg), before);
    SoundStep(interval, s, EnterBucket(at));
    var s1, c := Next(interval, s, EnterBucket(at)), s.gate.client;
    StaysSettled(interval, Init(cfg), before);
    StaysSettled(interval, s1, between);
    BucketUntouched(interval, s1, between, c);
    var s2 := Final(interval, s1, between);
    DeniedBucket(cfg, Lookup(cfg, s.buckets, c, at), at);
    LaterTake(cfg, Lookup(cfg, s2.buckets, c, again), at, again);
  }

  lemma DeniedBucket(cfg: Config, b: Bucket, at: Readings)
    ensures var (b', verdict) := Take(cfg, b, at);
            && b'.lastRefill == at.refilled
            && (verdict.Denied? ==> verdict.code == RetryAfter(cfg))
  {
  }

  lemma LaterTake(cfg: Config, b: Bucket, at: Readings, again: Readings)
    requires cfg.requestsPerMinute > 0 && cfg.burstSize > 0
    requires b == Fresh(cfg, again.created) || (b.tokens >= 0.0 && b.lastRefill == at.refilled)
    requires again.Ordered() && again.refilled >= at.refilled + RetryAfter(cfg) as real
    ensures Take(cfg, b, again).1.Allowed?
  {
    var delay, waited := RetryAfter(cfg) as real, Elapsed(b.lastRefill, again.refilled);
    EarnedParts(cfg, waited, 0.0);
    if b.lastRefill == at.refilled {
      EarnedParts(cfg, delay, waited - delay);
      assert delay + (waited - delay) == waited;
    }
  }

  // ---- Changing the settings ----

  ghost predicate TokensWithin(cap: real, m: Buckets) {
    forall c :: c in m ==> 0.0 <= m[c].tokens <= cap
  }

  lemma TakeWithin(loaded: Config, cfg: Config, b: Bucket, at: Readings)
    requires b.tokens >= 0.0
    ensures 0.0 <= TakeWith(loaded, cfg, b, at).0.tokens <= Burst(cfg)
  {
    EarnedParts(cfg, Elapsed(b.lastRefill, at.refilled), 0.0);
  }

  /** Whatever the settings become, no bucket falls below zero or outgrows the largest burst
      size that was ever in force. */
  lemma {:induction false} TokensUnderAnySettings(interval: nat, s: State, run: seq<Label>, cap: real)
    requires Valid(interval, s, run) && TokensWithin(cap, s.buckets) && Burst(s.config) <= cap
    requires forall i :: 0 <= i < |run| && run[i].Reconfigure? ==> Burst(run[i].config) <= cap
    ensures TokensWithin(cap, Final(interval, s, run).buckets) && Burst(Final(interval, s, run).config) <= cap
    decreases |run|
  {
    if run != [] {
      if run[0].EnterBucket? {
        TakeWithin(s.gate.loaded, s.config, Lookup(s.gate.loaded, s.buckets, s.gate.client, run[0].at), run[0].at);
      }
      TokensUnderAnySettings(interval, Next(interval, s, run[0]), run[1..], cap);
    }
  }

  /** New settings touch no bucket, and govern a bucket from its client's next request on. */
  lemma {:induction false} SettingsTakeEffect(interval: nat, s: State, cfg: Config, run: seq<Label>, client: string)
    requires forall c :: c in s.buckets ==> s.buckets[c].tokens >= 0.0
    requires Valid(interval, s, [Reconfigure(cfg)] + run) && FixedConfig(run)
    ensures Valid(interval, s.(config := cfg), run)
    ensures var s', trace := Final(interval, s, [Reconfigure(cfg)] + run), Trace(interval, s.(config := cfg), run);
            && s'.config == cfg
            && (client in s'.buckets ==>
                  if NoCallBy(client, trace) then client in s.buckets && s'.buckets[client] == s.buckets[client]
                  else 0.0 <= s'.buckets[client].tokens <= Burst(cfg))
  {
    var s1, all := s.(config := cfg), [Reconfigure(cfg)] + run;
    assert all[0] == Reconfigure(cfg) && all[1..] == run && Next(interval, s, all[0]) == s1;
    if NoCallBy(client, Trace(interval, s1, run)) {
      BucketUntouched(interval, s1, run, client);
    } else {
      CalledSince(interval, s1, run, client);
    }
  }

  lemma {:induction false} CalledSince(interval: nat, s: State, run: seq<Label>, client: string)
    requires forall c :: c in s.buckets ==> s.buckets[c].tokens >= 0.0
    requires Valid(interval, s, run) && FixedConfig(run)
    ensures var s' := Final(interval, s, run);
            && s'.config == s.config
            && (client in s'.buckets && (client in s.buckets ==> s.buckets[client].tokens <= Burst(s.config)) ==>
                  0.0 <= s'.buckets[client].tokens <= Burst(s.config))
            && (client in s'.buckets && !NoCallBy(client, Trace(interval, s, run)) ==>
                  0.0 <= s'.buckets[client].tokens <= Burst(s.config))
    decreases |run|
  {
    if run != [] {
      var l, s1 := run[0], Next(interval, s, run[0]);
      if l.EnterBucket? {
        TakeWithin(s.gate.loaded, s.config, Lookup(s.gate.loaded, s.buckets, s.gate.client, l.at), l.at);
      }
      CalledSince(interval, s1, run[1..], client);
      assert Trace(interval, s, run) == Emitted(s, l) + Trace(interval, s1, run[1..]);
    }
  }

  // ---- The object runs the same steps ----

  /** `check_rate` with nothing beside it is the three steps under the gate. */
  lemma CheckIsThreeSteps(interval: nat, s: State, client: string, at: Readings)
    requires s.gate.Free? && at.Ordered() && s.clock <= at.created
    ensures var run := [Acquire(client), TestLength] + (if Refused(s.buckets, client) then [] else [EnterBucket(at)]);
            && Valid(interval, s, run)
            && Final(interval, s, run).buckets == Check(s.config, s.buckets, client, at).0
            && Final(interval, s, run).gate.Free?
            && Verdicts(Trace(interval, s, run))
               == if Refused(s.buckets, client) then [] else [Check(s.config, s.buckets, client, at).1]
  {
    if Refused(s.buckets, client) {
      var run := [Acquire(client), TestLength];
      assert run + [] == run && run[1..] == [TestLength] && run[1..][1..] == [];
      var s1 := Next(interval, s, run[0]);
      assert Valid(interval, s1, [TestLength]);
      assert Trace(interval, s1, [TestLength]) == [];
    } else {
      ThreeSteps(interval, s, client, at);
      assert [Acquire(client), TestLength] + [EnterBucket(at)] == [Acquire(client), TestLength, EnterBucket(at)];
    }
  }

  lemma {:induction false} RemoveStale(interval: nat, s: State, stale: set<string>) returns (run: seq<Label>)
    requires s.cutoff.Some?
    requires forall c :: c in stale <==> c in s.buckets && s.buckets[c].lastAccess <= s.cutoff.value
    ensures Valid(interval, s, run) && FixedConfig(run) && Trace(interval, s, run) == []
    ensures Final(interval, s, run) == s.(buckets := Retained(s.buckets, s.cutoff.value))
    decreases stale
  {
    if stale == {} {
      run := [];
      assert Retained(s.buckets, s.cutoff.value) == s.buckets;
    } else {
      var c :| c in stale;
      var s1 := Next(interval, s, SweepRemove(c));
      var rest := RemoveStale(interval, s1, stale - {c});
      run := [SweepRemove(c)] + rest;
      assert run[1..] == rest;
      assert Retained(s1.buckets, s.cutoff.value) == Retained(s.buckets, s.cutoff.value);
    }
  }

  /** A whole cleanup pass is one of the machine's runs of removals. */
  lemma SweepIsRemovals(interval: nat, s: State, now: real) returns (run: seq<Label>)
    ensures Valid(interval, s, run) && FixedConfig(run) && Trace(interval, s, run) == []
    ensures Final(interval, s, run).buckets == Retained(s.buckets, now - 2.0 * interval as real)
  {
    var s1 := Next(interval, s, SweepStart(now));
    var rest := RemoveStale(interval, s1, set c | c in s.buckets && s.buckets[c].lastAccess <= s1.cutoff.value);
    run := [SweepStart(now)] + rest;
    assert run[1..] == rest;
  }
}
