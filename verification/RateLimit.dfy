/**
 The token-bucket rate limiter of app/middleware/rate_limit.py: the value semantics of one
 bucket and of the whole middleware, and the two classes that implement them in place.
 Times and token counts are exact reals; every clock read is a parameter.
 */
module RateLimit {
  import opened Options

  // ---------- Tiers ----------

  datatype Tier = BASIC | ADVANCED | MARKET_MAKER

  const PERIOD := 10.0

  function MaxTokens(tier: Tier): int {
    match tier
    case BASIC => 100
    case ADVANCED => 500
    case MARKET_MAKER => 2000
  }

  function Cap(tier: Tier): real { MaxTokens(tier) as real }

  function Rate(tier: Tier): real { Cap(tier) / PERIOD }

  function TierNamed(name: string): Option<Tier> {
    if name == "BASIC" then Some(BASIC)
    else if name == "ADVANCED" then Some(ADVANCED)
    else if name == "MARKET_MAKER" then Some(MARKET_MAKER)
    else None
  }

  function Min(x: real, y: real): real { if x <= y then x else y }

  // ---------- One bucket ----------

  datatype Bucket = Bucket(maxTokens: int, refillRate: real, tokens: real, lastRefill: real)

  function FullBucket(tier: Tier, now: real): Bucket {
    Bucket(MaxTokens(tier), Rate(tier), Cap(tier), now)
  }

  function Refilled(b: Bucket, now: real): real {
    Min(b.maxTokens as real, b.tokens + (now - b.lastRefill) * b.refillRate)
  }

  predicate Grants(b: Bucket, now: real) { Refilled(b, now) >= 1.0 }

  function Consumed(b: Bucket, now: real): Bucket {
    b.(tokens := Refilled(b, now) - (if Grants(b, now) then 1.0 else 0.0), lastRefill := now)
  }

  function ResetSeconds(b: Bucket): real
    requires b.refillRate > 0.0
  {
    if b.tokens >= 1.0 then 0.0 else (1.0 - b.tokens) / b.refillRate
  }

  class TokenBucket {
    var maxTokens: int
    var refillRate: real
    var tokens: real
    var lastRefill: real

    ghost function Value(): Bucket
      reads this
    {
      Bucket(maxTokens, refillRate, tokens, lastRefill)
    }

    constructor (maxTokens: int, refillRate: real, now: real)
      ensures Value() == Bucket(maxTokens, refillRate, maxTokens as real, now)
    {
      this.maxTokens := maxTokens;
      this.refillRate := refillRate;
      tokens := maxTokens as real;
      lastRefill := now;
    }

    method Consume(now: real) returns (granted: bool)
      modifies this
      ensures granted == Grants(old(Value()), now)
      ensures Value() == Consumed(old(Value()), now)
    {
      var elapsed := now - lastRefill;
      tokens := Min(maxTokens as real, tokens + elapsed * refillRate);
      lastRefill := now;
      assert tokens == Refilled(old(Value()), now);
      if tokens >= 1.0 {
        tokens := tokens - 1.0;
        return true;
      }
      return false;
    }
  }

  // ---------- Requests, configuration and state ----------

  /**
   * `auth` is the authorization header and `payloadTier` the upper-cased tier of its token,
   * or None when the token does not verify.  The three clock reads happen in this order.
   */
  datatype Request = Request(ip: string, auth: string, payloadTier: Option<string>,
                             cleanupAt: real, createAt: real, consumeAt: real)

  function TokenTier(r: Request): Option<Tier> {
    if "Bearer " <= r.auth && |r.auth| > 10 && r.payloadTier.Some? then TierNamed(r.payloadTier.value) else None
  }

  /** A request that passes gets its headers once the handler behind the middleware has answered. */
  datatype Response =
    | Forwarded(limit: int)
    | TooManyRequests(limit: int, remaining: int, resetMs: int, retryAfter: int)

  datatype Headers = Headers(limit: int, remaining: int, resetMs: int)

  datatype Config = Config(defaultTier: Tier, cleanupInterval: real)

  datatype Limiter = Limiter(buckets: map<string, Bucket>, ipTiers: map<string, Tier>, lastCleanup: real)

  function TierFor(cfg: Config, s: Limiter, ip: string): Tier {
    if ip in s.ipTiers then s.ipTiers[ip] else cfg.defaultTier
  }

  /** Every `cleanupInterval`, buckets idle for longer than that are dropped. */
  function Cleanup(cfg: Config, s: Limiter, now: real): Limiter {
    if now - s.lastCleanup < cfg.cleanupInterval then s
    else s.(lastCleanup := now,
            buckets := map ip | ip in s.buckets
                                && !(s.buckets[ip].lastRefill < now - cfg.cleanupInterval) :: s.buckets[ip])
  }

  lemma CleanupRemoves(cfg: Config, s: Limiter, now: real, stale: set<string>)
    requires now - s.lastCleanup >= cfg.cleanupInterval
    requires forall ip :: ip in stale <==> ip in s.buckets && s.buckets[ip].lastRefill < now - cfg.cleanupInterval
    ensures Cleanup(cfg, s, now) == s.(lastCleanup := now, buckets := s.buckets - stale)
  {
  }

  /** A verified token sets the tier of its address, and replaces a bucket of another size. */
  function ApplyToken(s: Limiter, r: Request): Limiter {
    match TokenTier(r)
    case None => s
    case Some(tier) =>
      s.(ipTiers := s.ipTiers[r.ip := tier],
         buckets := if r.ip in s.buckets && s.buckets[r.ip].maxTokens != MaxTokens(tier)
                    then s.buckets[r.ip := FullBucket(tier, r.createAt)] else s.buckets)
  }

  function EnsureBucket(cfg: Config, s: Limiter, ip: string, now: real): (s': Limiter)
    ensures ip in s'.buckets
  {
    if ip in s.buckets then s
    else s.(buckets := s.buckets[ip := FullBucket(TierFor(cfg, s, ip), now)])
  }

  /** The state in which the request's own bucket is about to be asked for a token. */
  function Prepared(cfg: Config, s: Limiter, r: Request): (s': Limiter)
    ensures r.ip in s'.buckets
  {
    EnsureBucket(cfg, ApplyToken(s, r), r.ip, r.createAt)
  }

  predicate Granted(cfg: Config, s: Limiter, r: Request) {
    Grants(Prepared(cfg, s, r).buckets[r.ip], r.consumeAt)
  }

  function Decided(cfg: Config, s: Limiter, r: Request): Limiter {
    var s1 := Prepared(cfg, s, r);
    s1.(buckets := s1.buckets[r.ip := Consumed(s1.buckets[r.ip], r.consumeAt)])
  }

  function Respond(tier: Tier, granted: bool, b: Bucket): Response
    requires b.refillRate > 0.0
  {
    if granted then Forwarded(MaxTokens(tier))
    else
      var reset := ResetSeconds(b);
      TooManyRequests(MaxTokens(tier), 0, (reset * 1000.0).Floor, if reset.Floor > 1 then reset.Floor else 1)
  }

  /** The headers of a forwarded response, from the bucket as it is when they are attached. */
  function HeadersOf(limit: int, b: Bucket): Headers
    requires b.refillRate > 0.0
  {
    Headers(limit, if b.tokens.Floor > 0 then b.tokens.Floor else 0, (ResetSeconds(b) * 1000.0).Floor)
  }

  // ---------- The middleware ----------

  class RateLimitMiddleware {
    const cfg: Config
    var buckets: map<string, TokenBucket>
    var ipTiers: map<string, Tier>
    var lastCleanup: real

    /** No two addresses share a bucket object, and every bucket refills. */
    ghost predicate Valid()
      reads this, buckets.Values
    {
      && (forall x, y :: x in buckets && y in buckets && buckets[x] == buckets[y] ==> x == y)
      && (forall x :: x in buckets ==> buckets[x].refillRate > 0.0)
    }

    ghost function State(): Limiter
      reads this, buckets.Values
    {
      Limiter(map ip | ip in buckets :: buckets[ip].Value(), ipTiers, lastCleanup)
    }

    constructor (defaultTier: Tier, cleanupInterval: real, now: real)
      ensures Valid() && cfg == Config(defaultTier, cleanupInterval)
      ensures State() == Limiter(map[], map[], now)
    {
      cfg := Config(defaultTier, cleanupInterval);
      buckets := map[];
      ipTiers := map[];
      lastCleanup := now;
    }

    method CleanupStale(now: real)
      requires Valid()
      modifies this`buckets, this`lastCleanup
      ensures Valid() && State() == Cleanup(cfg, old(State()), now)
      ensures buckets.Values <= old(buckets.Values)
    {
      if now - lastCleanup < cfg.cleanupInterval {
        return;
      }
      ghost var s := State();
      lastCleanup := now;
      var staleThreshold := now - cfg.cleanupInterval;
      var staleKeys := set ip | ip in buckets && buckets[ip].lastRefill < staleThreshold;
      CleanupRemoves(cfg, s, now, staleKeys);
      DeleteAll(staleKeys);
    }

    /** The deletion loop over the stale keys, in any order. */
    method DeleteAll(staleKeys: set<string>)
      requires Valid()
      modifies this`buckets
      ensures Valid() && buckets == old(buckets) - staleKeys
      ensures State() == old(State()).(buckets := old(State()).buckets - staleKeys)
    {
      var rest := staleKeys;
      while rest != {}
        invariant rest <= staleKeys
        invariant buckets == old(buckets) - (staleKeys - rest)
        decreases |rest|
      {
        var key :| key in rest;
        rest := rest - {key};
        buckets := buckets - {key};
      }
      assert forall ip :: ip in buckets ==> buckets[ip] == old(buckets)[ip];
      assert State().buckets == old(State()).buckets - staleKeys;
    }

    method GetBucket(ip: string, now: real) returns (bucket: TokenBucket)
      requires Valid()
      modifies this`buckets
      ensures Valid() && State() == EnsureBucket(cfg, old(State()), ip, now)
      ensures ip in buckets && bucket == buckets[ip]
      ensures forall b <- buckets.Values :: b in old(buckets.Values) || fresh(b)
    {
      if ip !in buckets {
        var tier := if ip in ipTiers then ipTiers[ip] else cfg.defaultTier;
        var b := new TokenBucket(MaxTokens(tier), Rate(tier), now);
        buckets := buckets[ip := b];
        assert State().buckets == old(State()).buckets[ip := FullBucket(tier, now)];
      }
      bucket := buckets[ip];
    }

    /** The tier upgrade carried by a verified token. */
    method UpgradeTier(r: Request)
      requires Valid()
      modifies this`buckets, this`ipTiers
      ensures Valid() && State() == ApplyToken(old(State()), r)
      ensures forall b <- buckets.Values :: b in old(buckets.Values) || fresh(b)
    {
      var token := TokenTier(r);
      if token.Some? {
        var tier := token.value;
        ipTiers := ipTiers[r.ip := tier];
        if r.ip in buckets {
          var existing := buckets[r.ip];
          if existing.maxTokens != MaxTokens(tier) {
            var b := new TokenBucket(MaxTokens(tier), Rate(tier), r.createAt);
            buckets := buckets[r.ip := b];
          }
        }
        assert State().buckets == ApplyToken(old(State()), r).buckets;
      }
    }

    /** The tier upgrade, the bucket lookup and the attempt to take one token. */
    method TakeToken(r: Request) returns (bucket: TokenBucket, granted: bool)
      requires Valid()
      modifies this, buckets.Values
      ensures Valid() && State() == Decided(cfg, old(State()), r)
      ensures r.ip in buckets && bucket == buckets[r.ip]
      ensures granted == Granted(cfg, old(State()), r)
      ensures forall b <- buckets.Values :: b in old(buckets.Values) || fresh(b)
    {
      hide ApplyToken, EnsureBucket, Refilled, TierFor, FullBucket, TokenTier;
      UpgradeTier(r);
      bucket := GetBucket(r.ip, r.createAt);
      ghost var prepared := State();
      assert prepared == Prepared(cfg, old(State()), r);
      granted := bucket.Consume(r.consumeAt);
      assert forall ip :: ip in buckets && ip != r.ip ==> buckets[ip] != bucket;
      assert State().buckets == prepared.buckets[r.ip := Consumed(prepared.buckets[r.ip], r.consumeAt)];
    }

    /** Everything up to the call of the handler behind the middleware, in one uninterrupted stretch. */
    method Dispatch(r: Request) returns (response: Response, bucket: TokenBucket)
      requires Valid()
      modifies this, buckets.Values
      ensures Valid()
      ensures State() == Decided(cfg, Cleanup(cfg, old(State()), r.cleanupAt), r)
      ensures r.ip in buckets && bucket == buckets[r.ip] && bucket.refillRate > 0.0
      ensures response == Respond(TierFor(cfg, State(), r.ip),
                                  Granted(cfg, Cleanup(cfg, old(State()), r.cleanupAt), r), bucket.Value())
      ensures forall b <- buckets.Values :: b in old(buckets.Values) || fresh(b)
    {
      CleanupStale(r.cleanupAt);
      var granted;
      bucket, granted := TakeToken(r);
      var tier := if r.ip in ipTiers then ipTiers[r.ip] else cfg.defaultTier;
      if !granted {
        var reset := if bucket.tokens >= 1.0 then 0.0 else (1.0 - bucket.tokens) / bucket.refillRate;
        var resetMs := (reset * 1000.0).Floor;
        response := TooManyRequests(MaxTokens(tier), 0, resetMs, if reset.Floor > 1 then reset.Floor else 1);
      } else {
        response := Forwarded(MaxTokens(tier));
      }
    }

    /** After the handler: whatever happened to the bucket meanwhile, the headers show it as it is now. */
    method AttachHeaders(bucket: TokenBucket, limit: int) returns (headers: Headers)
      requires bucket.refillRate > 0.0
      ensures headers == HeadersOf(limit, bucket.Value())
    {
      var remaining := bucket.tokens.Floor;
      if remaining < 0 {
        remaining := 0;
      }
      var reset := if bucket.tokens >= 1.0 then 0.0 else (1.0 - bucket.tokens) / bucket.refillRate;
      headers := Headers(limit, remaining, (reset * 1000.0).Floor);
    }
  }
}
