/**
 The limiter in plain numbers: which header puts an address in which tier, how many requests
 of a burst pass, what the reset header is worth, and which buckets the table still holds.
 */
module RateLimitTiers {
  import opened Options
  import opened RateLimit
  import opened RateLimitRuns
  import opened RateLimitLimits

  // ---------- Tier switches ----------

  /** The request brings a verified token whose tier, in upper case, is `name`. */
  predicate Carries(r: Request, name: string) {
    "Bearer " <= r.auth && |r.auth| > 10 && r.payloadTier == Some(name)
  }

  predicate CarriesNone(r: Request) {
    !Carries(r, "BASIC") && !Carries(r, "ADVANCED") && !Carries(r, "MARKET_MAKER")
  }

  predicate Sized(b: Bucket, size: int, perSecond: real) { b.maxTokens == size && b.refillRate == perSecond }

  lemma TierAfterExactly(tier: Tier, r: Request, ip: string)
    ensures ip == r.ip && Carries(r, "BASIC") ==> TierAfter(tier, r, ip) == BASIC
    ensures ip == r.ip && Carries(r, "ADVANCED") ==> TierAfter(tier, r, ip) == ADVANCED
    ensures ip == r.ip && Carries(r, "MARKET_MAKER") ==> TierAfter(tier, r, ip) == MARKET_MAKER
    ensures ip != r.ip || CarriesNone(r) ==> TierAfter(tier, r, ip) == tier
  {
  }

  /**
   * A request with a verified token puts its address in the named tier, with a bucket of that
   * tier's size and rate; any other request leaves tier and size alone, and no request touches
   * another address.
   */
  lemma TierSwitchExactly(cfg: Config, s: Limiter, now: real, r: Request, x: string)
    requires Inv(cfg, s, now) && Reads(r, now)
    ensures var s' := Decided(cfg, s, r);
            && r.ip in s'.buckets
            && var tier, b := TierFor(cfg, s', r.ip), s'.buckets[r.ip];
            && (Carries(r, "BASIC") ==> tier == BASIC && Sized(b, 100, 10.0))
            && (Carries(r, "ADVANCED") ==> tier == ADVANCED && Sized(b, 500, 50.0))
            && (Carries(r, "MARKET_MAKER") ==> tier == MARKET_MAKER && Sized(b, 2000, 200.0))
            && (CarriesNone(r) ==>
                  && tier == TierFor(cfg, s, r.ip)
                  && (r.ip in s.buckets ==> Sized(b, s.buckets[r.ip].maxTokens, s.buckets[r.ip].refillRate)))
    ensures var s' := Decided(cfg, s, r);
            x != r.ip ==> TierFor(cfg, s', x) == TierFor(cfg, s, x)
                          && (x in s'.buckets <==> x in s.buckets)
                          && (x in s.buckets ==> s'.buckets[x] == s.buckets[x])
  {
    hide TokenTier, ApplyToken, EnsureBucket, Refilled;
    DecidedInv(cfg, s, now, r);
    DecidedLevels(cfg, s, now, r, r.ip);
    TierAfterExactly(TierFor(cfg, s, r.ip), r, r.ip);
    if x != r.ip { PreparedOthers(cfg, s, r, x); }
  }

  // ---------- Full bursts ----------

  function SizeOf(tier: Tier): int {
    match tier
    case BASIC => 100
    case ADVANCED => 500
    case MARKET_MAKER => 2000
  }

  /** No request of the address in the ten seconds before `t`. */
  predicate Idle(rs: seq<Request>, ip: string, t: real) {
    forall i :: 0 <= i < |rs| && rs[i].ip == ip ==> rs[i].consumeAt + 10.0 <= t
  }

  lemma {:induction false} IdleLevel(cfg: Config, evicts: bool, start: real, rs: seq<Request>, ip: string, t: real)
    requires Timed(start, rs) && (evicts ==> cfg.cleanupInterval >= PERIOD) && Now(start, rs) <= t && Idle(rs, ip, t)
    ensures Level(cfg, After(cfg, evicts, start, rs), ip, t) == Cap(TierOf(cfg, rs, ip))
  {
    if rs == [] {
      EmptyLevel(cfg, evicts, start, ip, t);
    } else {
      hide After, Timed, Level, TierOf;
      var front, r := rs[..|rs| - 1], rs[|rs| - 1];
      assert front + [r] == rs;
      assert forall i :: 0 <= i < |front| ==> front[i] == rs[i];
      Snoc(cfg, evicts, start, front, r);
      if r.ip == ip {
        RunInv(cfg, evicts, start, rs, ip);
        LevelLater(cfg, After(cfg, evicts, start, rs), ip, r.consumeAt, t);
        IdleIsFull(TierOf(cfg, rs, ip), Level(cfg, After(cfg, evicts, start, rs), ip, r.consumeAt), t - r.consumeAt);
      } else {
        OtherKeepsLevel(cfg, evicts, start, front, r, ip, t);
        IdleLevel(cfg, evicts, start, front, ip, t);
      }
    }
  }

  lemma EmptyLevel(cfg: Config, evicts: bool, start: real, ip: string, t: real)
    ensures Level(cfg, After(cfg, evicts, start, []), ip, t) == Cap(TierOf(cfg, [], ip))
  {
  }

  /** The first request of a burst finds a full bucket, passes and leaves one token less. */
  lemma BurstOpens(cfg: Config, evicts: bool, start: real, rs: seq<Request>, r: Request)
    requires Timed(start, rs + [r]) && (evicts ==> cfg.cleanupInterval >= PERIOD)
    requires TierOf(cfg, rs + [r], r.ip) != TierOf(cfg, rs, r.ip) || Idle(rs, r.ip, r.consumeAt)
    ensures Decision(cfg, evicts, start, rs, r)
    ensures Level(cfg, After(cfg, evicts, start, rs + [r]), r.ip, r.consumeAt)
         == SizeOf(TierOf(cfg, rs + [r], r.ip)) as real - 1.0
  {
    hide After, Timed, Level, TierOf, Idle;
    var s := After(cfg, evicts, start, rs);
    Snoc(cfg, evicts, start, rs, r);
    RunInv(cfg, evicts, start, rs, r.ip);
    StepLevels(cfg, evicts, s, Now(start, rs), r, r.ip);
    if TierOf(cfg, rs + [r], r.ip) == TierOf(cfg, rs, r.ip) {
      IdleLevel(cfg, evicts, start, rs, r.ip, r.consumeAt);
    }
  }

  /** Requests that bring no token, or one of the tier `name`, keep an address in that tier. */
  lemma {:induction false} SameTier(cfg: Config, run: seq<Request>, more: seq<Request>, k: nat, ip: string)
    requires k <= |more|
    requires forall i, tier :: 0 <= i < |more| && tier == TierOf(cfg, run, ip) ==> TierAfter(tier, more[i], ip) == tier
    ensures TierOf(cfg, run + more[..k], ip) == TierOf(cfg, run, ip)
    decreases k
  {
    if k == 0 {
      assert run + more[..0] == run;
    } else {
      SameTier(cfg, run, more, k - 1, ip);
      assert run + more[..k] == run + more[..k - 1] + [more[k - 1]];
      Snoc(cfg, false, 0.0, run + more[..k - 1], more[k - 1]);
    }
  }

  /** `q` carries no tier, or the same one as `r`. */
  predicate Keeps(r: Request, q: Request) {
    CarriesNone(q) || (!CarriesNone(r) && q.payloadTier == r.payloadTier)
  }

  lemma KeepsTier(cfg: Config, rs: seq<Request>, r: Request, q: Request)
    requires q.ip == r.ip && Keeps(r, q)
    ensures TierAfter(TierOf(cfg, rs + [r], r.ip), q, r.ip) == TierOf(cfg, rs + [r], r.ip)
  {
    hide TierOf;
    Snoc(cfg, false, 0.0, rs, r);
    TierAfterExactly(TierOf(cfg, rs, r.ip), r, r.ip);
    TierAfterExactly(TierOf(cfg, rs + [r], r.ip), q, r.ip);
  }

  /**
   * A full burst.  An address that switches its tier with request `r`, or has been idle for ten
   * seconds, or is new, gets exactly its tier's number of requests through at that instant.
   */
  lemma FullBurst(cfg: Config, evicts: bool, start: real, rs: seq<Request>, r: Request, more: seq<Request>, n: nat)
    requires Timed(start, rs + [r] + more) && (evicts ==> cfg.cleanupInterval >= PERIOD) && n < |more|
    requires TierOf(cfg, rs + [r], r.ip) != TierOf(cfg, rs, r.ip) || Idle(rs, r.ip, r.consumeAt)
    requires forall i :: 0 <= i < |more| ==> more[i].ip == r.ip && more[i].consumeAt == r.consumeAt
    requires forall i :: 0 <= i < |more| ==> Keeps(r, more[i])
    ensures Decision(cfg, evicts, start, rs, r)
    ensures Decision(cfg, evicts, start, rs + [r] + more[..n], more[n])
       <==> n + 1 < SizeOf(TierOf(cfg, rs + [r], r.ip))
  {
    hide After, Timed, TierOf, Level, Decision, Idle, TierAfter, Keeps;
    var run := rs + [r];
    TimedPrefix(start, run + more, |run|);
    assert (run + more)[..|run|] == run;
    forall i, tier | 0 <= i < |more| && tier == TierOf(cfg, run, r.ip) ensures TierAfter(tier, more[i], r.ip) == tier {
      KeepsTier(cfg, rs, r, more[i]);
    }
    forall k | 0 <= k <= |more| ensures TierOf(cfg, run + more[..k], r.ip) == TierOf(cfg, run, r.ip) {
      SameTier(cfg, run, more, k, r.ip);
    }
    BurstOpens(cfg, evicts, start, rs, r);
    BucketIsLevel(cfg, evicts, start, rs, r);
    RemainingIsExact(cfg, evicts, start, rs, r, more, n);
  }

  /** With the names and numbers written out: a token that changes the tier buys exactly this many requests at once. */
  lemma UpgradedBurst(cfg: Config, evicts: bool, start: real, rs: seq<Request>, r: Request, more: seq<Request>, n: nat)
    requires Timed(start, rs + [r] + more) && (evicts ==> cfg.cleanupInterval >= PERIOD) && n < |more|
    requires TierOf(cfg, rs + [r], r.ip) != TierOf(cfg, rs, r.ip)
    requires forall i :: 0 <= i < |more| ==> more[i].ip == r.ip && more[i].consumeAt == r.consumeAt
    requires forall i :: 0 <= i < |more| ==> Keeps(r, more[i])
    ensures Decision(cfg, evicts, start, rs, r) && !CarriesNone(r)
    ensures Decision(cfg, evicts, start, rs + [r] + more[..n], more[n])
       <==> n + 1 < if Carries(r, "BASIC") then 100 else if Carries(r, "ADVANCED") then 500 else 2000
  {
    hide After, Timed, TierOf, Level, Decision, TierAfter, Carries, Keeps;
    FullBurst(cfg, evicts, start, rs, r, more, n);
    Snoc(cfg, evicts, start, rs, r);
    TierAfterExactly(TierOf(cfg, rs, r.ip), r, r.ip);
  }

  // ---------- The reset header of any answer ----------

  /**
   * Whether `r` was forwarded or refused, and whatever other addresses do meanwhile: the next
   * request of the address in the same tier passes exactly once the bucket's reset time has
   * gone by, and the header shows that time to the millisecond, rounded down.
   */
  lemma ResetIsExact(cfg: Config, evicts: bool, start: real, rs: seq<Request>, r: Request, mid: seq<Request>,
                     next: Request)
    requires Timed(start, rs + [r] + mid + [next]) && (evicts ==> cfg.cleanupInterval >= PERIOD)
    requires next.ip == r.ip && forall i :: 0 <= i < |mid| ==> mid[i].ip != r.ip
    requires TierOf(cfg, rs + [r] + mid + [next], r.ip) == TierOf(cfg, rs + [r], r.ip)
    ensures var s := After(cfg, evicts, start, rs + [r]);
            && r.ip in s.buckets && s.buckets[r.ip].refillRate > 0.0
            && var h := HeadersOf(MaxTokens(TierFor(cfg, s, r.ip)), s.buckets[r.ip]);
               var passes := Decision(cfg, evicts, start, rs + [r] + mid, next);
               var waitedMs := (next.consumeAt - r.consumeAt) * 1000.0;
            && h.limit == SizeOf(TierOf(cfg, rs + [r], r.ip))
            && (passes <==> waitedMs >= ResetSeconds(s.buckets[r.ip]) * 1000.0)
            && (passes ==> waitedMs >= h.resetMs as real)
            && (waitedMs >= h.resetMs as real + 1.0 ==> passes)
            && (h.remaining > 0 ==> passes && h.resetMs == 0)
  {
    hide After, Timed, TierOf, Level, Decision, Inv, HeadersOf;
    var run := rs + [r] + mid;
    var s, tier := After(cfg, evicts, start, rs + [r]), TierOf(cfg, rs + [r], r.ip);
    Snoc(cfg, evicts, start, run, next);
    OthersKeepLevel(cfg, evicts, start, rs + [r], mid, r.ip, next.consumeAt);
    BucketIsLevel(cfg, evicts, start, rs, r);
    Snoc(cfg, evicts, start, rs, r);
    RunInv(cfg, evicts, start, rs + [r], r.ip);
    LevelLater(cfg, s, r.ip, r.consumeAt, next.consumeAt);
    LevelDecides(cfg, evicts, start, run, next);
    BucketOfTier(cfg, s, r.ip, r.consumeAt);
    HeaderWorth(tier, s.buckets[r.ip], next.consumeAt - r.consumeAt);
  }

  lemma BucketOfTier(cfg: Config, s: Limiter, ip: string, now: real)
    requires Inv(cfg, s, now) && ip in s.buckets
    ensures s.buckets[ip].refillRate == Rate(TierFor(cfg, s, ip)) && s.buckets[ip].tokens >= 0.0
  {
  }

  lemma HeaderWorth(tier: Tier, b: Bucket, waited: real)
    requires b.refillRate == Rate(tier) && b.tokens >= 0.0 && waited >= 0.0
    ensures b.refillRate > 0.0
    ensures var h := HeadersOf(MaxTokens(tier), b);
            var passes := Min(Cap(tier), b.tokens + Gain(tier, waited)) >= 1.0;
            && h.limit == SizeOf(tier)
            && (passes <==> waited * 1000.0 >= ResetSeconds(b) * 1000.0)
            && (passes ==> waited * 1000.0 >= h.resetMs as real)
            && (waited * 1000.0 >= h.resetMs as real + 1.0 ==> passes)
            && (h.remaining > 0 ==> passes && h.resetMs == 0)
  {
  }

  // ---------- Which buckets the table holds ----------

  /** A cleanup runs with this request: an interval has passed since the last one. */
  predicate Sweeps(cfg: Config, start: real, front: seq<Request>, r: Request)
    decreases |front|, 1
  {
    r.cleanupAt - SweptAt(cfg, start, front) >= cfg.cleanupInterval
  }

  /** When the last cleanup ran. */
  function SweptAt(cfg: Config, start: real, rs: seq<Request>): real
    decreases |rs|, 0
  {
    if rs == [] then start
    else
      var front, r := rs[..|rs| - 1], rs[|rs| - 1];
      if Sweeps(cfg, start, front, r) then r.cleanupAt else SweptAt(cfg, start, front)
  }

  function LastVisit(start: real, rs: seq<Request>, ip: string): real {
    if rs == [] then start
    else if rs[|rs| - 1].ip == ip then rs[|rs| - 1].consumeAt
    else LastVisit(start, rs[..|rs| - 1], ip)
  }

  /** The address has been seen, and no cleanup since its last visit came more than an interval after that. */
  predicate Kept(cfg: Config, start: real, rs: seq<Request>, ip: string) {
    rs != []
    && var front, r := rs[..|rs| - 1], rs[|rs| - 1];
       || r.ip == ip
       || (Kept(cfg, start, front, ip)
           && !(Sweeps(cfg, start, front, r) && r.cleanupAt - LastVisit(start, front, ip) > cfg.cleanupInterval))
  }

  /** The table holds the bucket of an address exactly if its history says it was kept, whatever the interval. */
  lemma {:induction false} BucketsMatchHistory(cfg: Config, start: real, rs: seq<Request>, ip: string)
    ensures var s := After(cfg, true, start, rs);
            && s.lastCleanup == SweptAt(cfg, start, rs)
            && (ip in s.buckets <==> Kept(cfg, start, rs, ip))
            && (ip in s.buckets ==> s.buckets[ip].lastRefill == LastVisit(start, rs, ip))
  {
    if rs != [] {
      hide Decided;
      var front, r := rs[..|rs| - 1], rs[|rs| - 1];
      BucketsMatchHistory(cfg, start, front, ip);
      DecidedBuckets(cfg, Cleanup(cfg, After(cfg, true, start, front), r.cleanupAt), r, ip);
    }
  }

  lemma DecidedBuckets(cfg: Config, s: Limiter, r: Request, ip: string)
    ensures var s' := Decided(cfg, s, r);
            && s'.lastCleanup == s.lastCleanup
            && (ip == r.ip ==> ip in s'.buckets && s'.buckets[ip].lastRefill == r.consumeAt)
            && (ip != r.ip ==> (ip in s'.buckets <==> ip in s.buckets)
                               && (ip in s.buckets ==> s'.buckets[ip] == s.buckets[ip]))
  {
    if ip != r.ip { PreparedOthers(cfg, s, r, ip); }
  }
}
