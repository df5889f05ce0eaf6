/** The token-bucket limiter of src/middleware/rate_limit.rs: per-client buckets with
    refill, a cap on the number of buckets, and removal of idle buckets.

    Floating point is modelled by `real`, and each call of `Instant::now` by a clock
    reading passed in by the caller. */
module RateLimiter {

  const MAX_BUCKETS: nat := 100_000

  /** The code the cap refusal returns in place of a delay. */
  const CAP_CODE: nat := 429

  datatype Config = Config(requestsPerMinute: nat, burstSize: nat)

  datatype Bucket = Bucket(tokens: real, lastRefill: real, lastAccess: real)

  /** The readings of the clock that one request takes, in the order it takes them. */
  datatype Readings = Readings(created: real, refilled: real, accessed: real) {
    predicate Ordered() {
      created <= refilled <= accessed
    }
  }

  datatype Verdict = Allowed | Denied(code: nat)

  type Buckets = map<string, Bucket>

  function Rate(cfg: Config): real {
    cfg.requestsPerMinute as real / 60.0
  }

  /** The tokens earned over a span of time. */
  function Earned(cfg: Config, span: real): real {
    span * Rate(cfg)
  }

  function Burst(cfg: Config): real {
    cfg.burstSize as real
  }

  function Min(x: real, y: real): real {
    if x <= y then x else y
  }

  /** `duration_since` saturates at zero. */
  function Elapsed(since: real, now: real): real {
    if since <= now then now - since else 0.0
  }

  function Ceil(x: real): int {
    -((-x).Floor)
  }

  function Refill(cfg: Config, b: Bucket, now: real): Bucket {
    b.(tokens := Min(b.tokens + Earned(cfg, Elapsed(b.lastRefill, now)), Burst(cfg)), lastRefill := now)
  }

  function Fresh(cfg: Config, now: real): Bucket {
    Bucket(Burst(cfg), now, now)
  }

  function RetryAfter(cfg: Config): (delay: nat)
    ensures delay <= 60 && (cfg.requestsPerMinute == 0 ==> delay == 60)
    ensures cfg.requestsPerMinute > 0 ==> Earned(cfg, delay as real) >= 1.0
    ensures cfg.requestsPerMinute > 0 ==> Earned(cfg, delay as real - 1.0) < 1.0
  {
    if cfg.requestsPerMinute == 0 then
      60
    else
      var rpm := cfg.requestsPerMinute as real;
      RetryDelay(cfg.requestsPerMinute);
      Ceil(60.0 / rpm)
  }

  /** The bucket after a request, and what the request is told. A request loads the settings
      twice: `loaded` for a new bucket and for the advertised delay, `cfg` for the refill. */
  function TakeWith(loaded: Config, cfg: Config, b: Bucket, at: Readings): (Bucket, Verdict) {
    var full := Refill(cfg, b, at.refilled).(lastAccess := at.accessed);
    if full.tokens >= 1.0 then
      (full.(tokens := full.tokens - 1.0), Allowed)
    else
      (full, Denied(RetryAfter(loaded)))
  }

  /** The usual case: both loads find the same. */
  function Take(cfg: Config, b: Bucket, at: Readings): (Bucket, Verdict) {
    TakeWith(cfg, cfg, b, at)
  }

  /** The bucket a request works on: the client's own, or a new one. */
  function Lookup(cfg: Config, m: Buckets, client: string, at: Readings): Bucket {
    if client in m then m[client] else Fresh(cfg, at.created)
  }

  /** Look up or create, refill, and take a token. */
  function EnterWith(loaded: Config, cfg: Config, m: Buckets, client: string, at: Readings): (Buckets, Verdict) {
    var (b, verdict) := TakeWith(loaded, cfg, Lookup(loaded, m, client, at), at);
    (m[client := b], verdict)
  }

  function Enter(cfg: Config, m: Buckets, client: string, at: Readings): (Buckets, Verdict) {
    EnterWith(cfg, cfg, m, client, at)
  }

  predicate Refused(m: Buckets, client: string) {
    client !in m && |m| >= MAX_BUCKETS
  }

  function Check(cfg: Config, m: Buckets, client: string, at: Readings): (Buckets, Verdict) {
    if Refused(m, client) then (m, Denied(CAP_CODE)) else Enter(cfg, m, client, at)
  }

  /** The cap turns away exactly the clients without a bucket once there are that many, and
      nothing else is told 429. */
  lemma CapRefusesIff(cfg: Config, m: Buckets, client: string, at: Readings)
    ensures Check(cfg, m, client, at).1 == Denied(429) <==> client !in m && |m| >= 100_000
    ensures Check(cfg, m, client, at).1 == Denied(429) ==> Check(cfg, m, client, at).0 == m
    ensures Check(cfg, m, client, at).1 != Denied(429) ==> client in Check(cfg, m, client, at).0
  {
    assert RetryAfter(cfg) <= 60;
  }

  /** Settings that change between a request's two loads: a new client starts with the old
      burst, refilled and capped by the new settings, and a denial advertises the old delay. */
  lemma NewClientBetweenLoads(loaded: Config, cfg: Config, m: Buckets, client: string, at: Readings)
    requires client !in m && at.Ordered()
    ensures var (m', verdict) := EnterWith(loaded, cfg, m, client, at);
            var level := Min(Burst(loaded) + Earned(cfg, at.refilled - at.created), Burst(cfg));
            && m' == m[client := Bucket(if level >= 1.0 then level - 1.0 else level, at.refilled, at.accessed)]
            && verdict == if level >= 1.0 then Allowed else Denied(RetryAfter(loaded))
  {
  }

  /** `retain`: the entries touched after the cutoff. */
  function Retained(m: Buckets, cutoff: real): Buckets {
    map client | client in m && m[client].lastAccess > cutoff :: m[client]
  }

  /** 60/rpm lies in (delay - 1, delay], so `delay` seconds always buy one token. */
  lemma RetryDelay(rpm: nat)
    requires rpm > 0
    ensures 0 <= Ceil(60.0 / rpm as real) <= 60
    ensures Ceil(60.0 / rpm as real) as real * (rpm as real / 60.0) >= 1.0
    ensures (Ceil(60.0 / rpm as real) as real - 1.0) * (rpm as real / 60.0) < 1.0
  {
    var r, q := rpm as real, 60.0 / rpm as real;
    assert q * r == 60.0;
    assert 0.0 < q <= 60.0;
    var d := Ceil(q) as real;
    assert d >= q > d - 1.0;
    TokensAfter(d, q, r);
    TokensAfter(d - 1.0, q, r);
  }

  lemma TokensAfter(x: real, q: real, r: real)
    requires r > 0.0 && q * r == 60.0
    ensures x * (r / 60.0) >= 1.0 <==> x >= q
  {
    assert x * r >= q * r <==> x >= q;
    assert x * (r / 60.0) == (x * r) / 60.0;
  }

  /** The limiter object. `buckets` is the map it mutates, `config` the swappable settings. */
  class Limiter {
    var buckets: Buckets
    var config: Config

    constructor (cfg: Config)
      ensures buckets == map[] && config == cfg
    {
      buckets, config := map[], cfg;
    }

    method UpdateConfig(cfg: Config)
      modifies `config
      ensures config == cfg
    {
      config := cfg;
    }

    method RefillTokens(bucket: Bucket, now: real) returns (refilled: Bucket)
      ensures refilled == Refill(config, bucket, now)
    {
      var elapsed := Elapsed(bucket.lastRefill, now);
      var rate := config.requestsPerMinute as real / 60.0;
      var tokens := bucket.tokens + elapsed * rate;
      assert elapsed * rate == Earned(config, elapsed);
      if tokens > config.burstSize as real {
        tokens := config.burstSize as real;
      }
      refilled := bucket.(tokens := tokens, lastRefill := now);
    }

    /** The whole of `check_rate` when nothing runs beside it. */
    method CheckRate(client: string, at: Readings) returns (verdict: Verdict)
      requires at.Ordered()
      modifies `buckets
      ensures (buckets, verdict) == Check(config, old(buckets), client, at)
    {
      if client !in buckets && |buckets| >= MAX_BUCKETS {
        return Denied(CAP_CODE);
      }
      var bucket :=
        if client in buckets then buckets[client] else Bucket(config.burstSize as real, at.created, at.created);
      bucket := RefillTokens(bucket, at.refilled);
      bucket := bucket.(lastAccess := at.accessed);
      if bucket.tokens >= 1.0 {
        bucket := bucket.(tokens := bucket.tokens - 1.0);
        verdict := Allowed;
      } else {
        verdict := Denied(RetryAfter(config));
      }
      buckets := buckets[client := bucket];
    }

    /** One pass of the cleanup task: the loop visits every client in any order. */
    method Sweep(now: real, interval: nat)
      modifies `buckets
      ensures buckets == Retained(old(buckets), now - 2.0 * interval as real)
    {
      var cutoff := now - 2.0 * interval as real;
      var pending := buckets.Keys;
      while pending != {}
        invariant pending <= buckets.Keys <= old(buckets).Keys
        invariant forall c :: c in buckets ==> buckets[c] == old(buckets)[c]
        invariant forall c :: c in buckets && c !in pending ==> buckets[c].lastAccess > cutoff
        invariant forall c :: c in old(buckets) && c !in buckets ==> old(buckets)[c].lastAccess <= cutoff
        decreases pending
      {
        var c :| c in pending;
        if !(buckets[c].lastAccess > cutoff) {
          buckets := buckets - {c};
        }
        pending := pending - {c};
      }
    }
  }
}
