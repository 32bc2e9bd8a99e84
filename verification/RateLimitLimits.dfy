/**
 Where the limiter's promises end: the exact cleanup interval from which eviction is
 invisible, and what the retry headers of a refusal are worth.
 */
module RateLimitLimits {
  import opened Options
  import opened RateLimit
  import opened RateLimitRuns

  // ---------- Below the refill period, eviction hands out extra tokens ----------

  const IP := "203.0.113.7"

  function Ask(at: real): Request { Request(IP, "", None, at, at, at) }

  function Burst(at: real, n: nat): (rs: seq<Request>)
    ensures |rs| == n
    decreases n
  {
    if n == 0 then [] else Burst(at, n - 1) + [Ask(at)]
  }

  /** After a burst of `k` requests at `at` on top of `pre`: all granted, and `left` more would be. */
  ghost predicate Spent(cfg: Config, pre: seq<Request>, rs: seq<Request>, at: real, k: nat) {
    var s := After(cfg, true, 0.0, rs);
    && Timed(0.0, rs) && Now(0.0, rs) <= at && Inv(cfg, s, Now(0.0, rs))
    && TierFor(cfg, s, IP) == cfg.defaultTier
    && GrantCount(Log(cfg, true, 0.0, rs), IP) == GrantCount(Log(cfg, true, 0.0, pre), IP) + k
    && Level(cfg, Cleanup(cfg, s, at), IP, at) >= Cap(cfg.defaultTier) - k as real
  }

  lemma SpendStep(cfg: Config, pre: seq<Request>, rs: seq<Request>, at: real, k: nat)
    requires Spent(cfg, pre, rs, at, k) && k + 1 <= MaxTokens(cfg.defaultTier)
    ensures Spent(cfg, pre, rs + [Ask(at)], at, k + 1)
  {
    var s, r := After(cfg, true, 0.0, rs), Ask(at);
    var s1 := Cleanup(cfg, s, at);
    var s' := Decided(cfg, s1, r);
    CleanupLevels(cfg, s, Now(0.0, rs), at, IP);
    DecidedInv(cfg, s1, at, r);
    DecidedLevels(cfg, s1, at, r, IP);
    CleanupLevels(cfg, s', at, at, IP);
    Snoc(cfg, true, 0.0, rs, r);
    CountSnoc(Log(cfg, true, 0.0, rs), 0, Entry(r, true), IP);
    assert Log(cfg, true, 0.0, rs)[0..] == Log(cfg, true, 0.0, rs);
    assert (Log(cfg, true, 0.0, rs) + [Entry(r, true)])[0..] == Log(cfg, true, 0.0, rs) + [Entry(r, true)];
  }

  lemma {:induction false} SpendBurst(cfg: Config, pre: seq<Request>, at: real, k: nat)
    requires Spent(cfg, pre, pre, at, 0) && k <= MaxTokens(cfg.defaultTier)
    ensures Spent(cfg, pre, pre + Burst(at, k), at, k)
    decreases k
  {
    hide Spent, After, Log;
    if k == 0 {
      assert pre + [] == pre;
    } else {
      SpendBurst(cfg, pre, at, k - 1);
      SpendStep(cfg, pre, pre + Burst(at, k - 1), at, k - 1);
      assert pre + Burst(at, k - 1) + [Ask(at)] == pre + Burst(at, k);
    }
  }

  /** A second burst `d` seconds after the first finds its bucket evicted, if `d` exceeds the interval. */
  lemma EvictedAgain(cfg: Config, rs: seq<Request>, d: real)
    requires rs != [] && rs[|rs| - 1] == Ask(0.0) && Spent(cfg, [], rs, 0.0, MaxTokens(cfg.defaultTier))
    requires 0.0 <= d && cfg.cleanupInterval < d
    ensures Spent(cfg, rs, rs, d, 0)
  {
  }

  function TwoBursts(tier: Tier, d: real): seq<Request> {
    Burst(0.0, MaxTokens(tier)) + Burst(d, MaxTokens(tier))
  }

  lemma EvictingGrantsBoth(cfg: Config, d: real)
    requires 0.0 <= d && cfg.cleanupInterval < d
    ensures Timed(0.0, TwoBursts(cfg.defaultTier, d))
    ensures GrantCount(Log(cfg, true, 0.0, TwoBursts(cfg.defaultTier, d)), IP) == 2 * MaxTokens(cfg.defaultTier)
  {
    hide After, Log, Level, Inv, Cleanup, GrantCount, Spent;
    var n := MaxTokens(cfg.defaultTier);
    SpentStart(cfg);
    SpendBurst(cfg, [], 0.0, n);
    assert [] + Burst(0.0, n) == Burst(0.0, n);
    EvictedAgain(cfg, Burst(0.0, n), d);
    SpendBurst(cfg, Burst(0.0, n), d, n);
    SpentBoth(cfg, Burst(0.0, n), d, n);
  }

  lemma SpentStart(cfg: Config)
    ensures Spent(cfg, [], [], 0.0, 0)
  {
  }

  lemma SpentBoth(cfg: Config, first: seq<Request>, d: real, n: nat)
    requires Spent(cfg, [], first, 0.0, n) && Spent(cfg, first, first + Burst(d, n), d, n)
    ensures Timed(0.0, first + Burst(d, n))
    ensures GrantCount(Log(cfg, true, 0.0, first + Burst(d, n)), IP) == 2 * n
  {
  }

  lemma {:induction false} BurstKeepsTier(cfg: Config, rs: seq<Request>, k: nat)
    requires k <= |rs| && forall i :: 0 <= i < |rs| ==> rs[i].auth == ""
    ensures TierOf(cfg, rs[..k], IP) == cfg.defaultTier
    decreases k
  {
    if k > 0 {
      BurstKeepsTier(cfg, rs, k - 1);
      assert rs[..k][..k - 1] == rs[..k - 1];
    }
  }

  lemma {:induction false} BurstElements(at: real, n: nat, i: nat)
    requires i < n
    ensures Burst(at, n)[i] == Ask(at)
    decreases n
  {
    if i < n - 1 { BurstElements(at, n - 1, i); }
  }

  lemma TwoBurstsElements(tier: Tier, d: real, i: nat)
    requires i < 2 * MaxTokens(tier)
    ensures |TwoBursts(tier, d)| == 2 * MaxTokens(tier)
    ensures TwoBursts(tier, d)[i] == Ask(if i < MaxTokens(tier) then 0.0 else d)
  {
    var n: nat := MaxTokens(tier);
    if i < n { BurstElements(0.0, n, i); } else { BurstElements(d, n, i - n); }
  }

  lemma TwoBurstsKeepTier(cfg: Config, d: real, k: nat)
    requires k <= 2 * MaxTokens(cfg.defaultTier) == |TwoBursts(cfg.defaultTier, d)|
    ensures TierOf(cfg, [] + TwoBursts(cfg.defaultTier, d)[..k], IP) == cfg.defaultTier
  {
    var rs := TwoBursts(cfg.defaultTier, d);
    forall i | 0 <= i < |rs| ensures rs[i].auth == "" {
      TwoBurstsElements(cfg.defaultTier, d, i);
    }
    BurstKeepsTier(cfg, rs, k);
    assert [] + rs[..k] == rs[..k];
  }

  lemma KeepingGrantsFewer(cfg: Config, d: real)
    requires 0.0 <= d < PERIOD && Timed(0.0, TwoBursts(cfg.defaultTier, d))
    ensures GrantCount(Log(cfg, false, 0.0, TwoBursts(cfg.defaultTier, d)), IP) < 2 * MaxTokens(cfg.defaultTier)
  {
    var n: nat, rs := MaxTokens(cfg.defaultTier), TwoBursts(cfg.defaultTier, d);
    TwoBurstsElements(cfg.defaultTier, d, 0);
    TwoBurstsElements(cfg.defaultTier, d, 2 * n - 1);
    forall k | 0 <= k <= |rs| ensures TierOf(cfg, [] + rs[..k], IP) == cfg.defaultTier {
      TwoBurstsKeepTier(cfg, d, k);
    }
    WholeRunBound(cfg, rs, cfg.defaultTier);
    assert Gain(cfg.defaultTier, d) < Gain(cfg.defaultTier, PERIOD) == Cap(cfg.defaultTier);
  }

  lemma WholeRunBound(cfg: Config, rs: seq<Request>, tier: Tier)
    requires rs != [] && Timed(0.0, rs)
    requires forall k :: 0 <= k <= |rs| ==> TierOf(cfg, [] + rs[..k], IP) == tier
    ensures GrantCount(Log(cfg, false, 0.0, rs), IP) as real
            <= Cap(tier) + Gain(tier, rs[|rs| - 1].consumeAt - rs[0].consumeAt)
  {
    assert [] + rs == rs;
    RateBoundOneTier(cfg, false, 0.0, [], rs, IP, tier);
    var log := Log(cfg, false, 0.0, rs);
    assert log[0..] == log;
  }

  /** The exact condition: eviction never shows in any run if and only if the interval is at least the refill period. */
  lemma EvictionInvisibleExactly(cfg: Config)
    ensures (forall start: real, rs: seq<Request> ::
               Timed(start, rs) ==> Log(cfg, true, start, rs) == Log(cfg, false, start, rs))
       <==> cfg.cleanupInterval >= PERIOD
  {
    if cfg.cleanupInterval >= PERIOD {
      forall start: real, rs: seq<Request> | Timed(start, rs)
        ensures Log(cfg, true, start, rs) == Log(cfg, false, start, rs)
      {
        EvictionInvisible(cfg, start, rs);
      }
    } else {
      var d := if cfg.cleanupInterval < 0.0 then 0.0 else (cfg.cleanupInterval + PERIOD) / 2.0;
      var rs := TwoBursts(cfg.defaultTier, d);
      EvictingGrantsBoth(cfg, d);
      KeepingGrantsFewer(cfg, d);
      assert Timed(0.0, rs) && Log(cfg, true, 0.0, rs) != Log(cfg, false, 0.0, rs);
    }
  }

  // ---------- What a refusal advises ----------

  lemma {:induction false} OthersKeepLevel(cfg: Config, evicts: bool, start: real, rs: seq<Request>,
                                           mid: seq<Request>, ip: string, t: real)
    requires Timed(start, rs + mid) && (evicts ==> cfg.cleanupInterval >= PERIOD)
    requires forall i :: 0 <= i < |mid| ==> mid[i].ip != ip
    requires Now(start, rs + mid) <= t
    ensures Now(start, rs) <= t && Timed(start, rs)
    ensures Level(cfg, After(cfg, evicts, start, rs + mid), ip, t) == Level(cfg, After(cfg, evicts, start, rs), ip, t)
    ensures TierOf(cfg, rs + mid, ip) == TierOf(cfg, rs, ip)
    decreases |mid|
  {
    if mid == [] {
      assert rs + mid == rs;
    } else {
      var front, r := rs + mid[..|mid| - 1], mid[|mid| - 1];
      assert front + [r] == rs + mid;
      OtherKeepsLevel(cfg, evicts, start, front, r, ip, t);
      OthersKeepLevel(cfg, evicts, start, rs, mid[..|mid| - 1], ip, t);
    }
  }

  lemma OtherKeepsLevel(cfg: Config, evicts: bool, start: real, rs: seq<Request>, r: Request, ip: string, t: real)
    requires Timed(start, rs + [r]) && (evicts ==> cfg.cleanupInterval >= PERIOD) && r.ip != ip
             && Now(start, rs + [r]) <= t
    ensures Timed(start, rs) && Now(start, rs) <= t
    ensures Level(cfg, After(cfg, evicts, start, rs + [r]), ip, t) == Level(cfg, After(cfg, evicts, start, rs), ip, t)
    ensures TierOf(cfg, rs + [r], ip) == TierOf(cfg, rs, ip)
  {
    Snoc(cfg, evicts, start, rs, r);
    var s := After(cfg, evicts, start, rs);
    RunInv(cfg, evicts, start, rs, ip);
    StepLevels(cfg, evicts, s, Now(start, rs), r, ip);
    LevelLater(cfg, s, ip, Now(start, rs), r.consumeAt);
    LevelsAgreeLater(cfg, s, Decided(cfg, Swept(cfg, evicts, s, r), r), ip, Now(start, rs), r.consumeAt, t);
  }

  /** A bucket of the tier that has less than one token left. */
  predicate Matches(tier: Tier, b: Bucket) {
    b.maxTokens == MaxTokens(tier) && b.refillRate == Rate(tier) && 0.0 <= b.tokens < 1.0
  }

  /** The bucket a refusal of `r` leaves behind. */
  function Left(cfg: Config, evicts: bool, start: real, rs: seq<Request>, r: Request): Bucket {
    Consumed(Prepared(cfg, Swept(cfg, evicts, After(cfg, evicts, start, rs), r), r).buckets[r.ip], r.consumeAt)
  }

  lemma LeftAfterRefusal(cfg: Config, evicts: bool, start: real, rs: seq<Request>, r: Request, t: real)
    requires Timed(start, rs + [r]) && (evicts ==> cfg.cleanupInterval >= PERIOD) && r.consumeAt <= t
    requires !Decision(cfg, evicts, start, rs, r)
    ensures var b, tier := Left(cfg, evicts, start, rs, r), TierOf(cfg, rs + [r], r.ip);
            && Matches(tier, b)
            && After(cfg, evicts, start, rs + [r]).buckets.Keys >= {r.ip}
               && After(cfg, evicts, start, rs + [r]).buckets[r.ip] == b
            && Level(cfg, After(cfg, evicts, start, rs + [r]), r.ip, t)
               == Min(Cap(tier), b.tokens + Gain(tier, t - r.consumeAt))
  {
    hide After, Log, Timed, Inv, Prepared, TierOf, Refilled;
    var s := After(cfg, evicts, start, rs);
    Snoc(cfg, evicts, start, rs, r);
    RunInv(cfg, evicts, start, rs, r.ip);
    SweptLevels(cfg, evicts, s, Now(start, rs), r, r.ip);
    var s1 := Swept(cfg, evicts, s, r);
    PreparedBucket(cfg, s1, r.cleanupAt, r);
    var tier := TierOf(cfg, rs + [r], r.ip);
    ConsumedBucket(tier, Prepared(cfg, s1, r).buckets[r.ip], r.consumeAt);
    RefilledAt(tier, Prepared(cfg, s1, r).buckets[r.ip], r.consumeAt);
    RefilledAt(tier, Left(cfg, evicts, start, rs, r), t);
  }

  lemma PassesExactly(cfg: Config, evicts: bool, start: real, rs: seq<Request>, r: Request, mid: seq<Request>,
                      next: Request)
    requires Timed(start, rs + [r] + mid + [next]) && (evicts ==> cfg.cleanupInterval >= PERIOD)
    requires !Decision(cfg, evicts, start, rs, r) && next.ip == r.ip && forall i :: 0 <= i < |mid| ==> mid[i].ip != r.ip
    requires TierOf(cfg, rs + [r] + mid + [next], r.ip) == TierOf(cfg, rs + [r], r.ip)
    ensures Timed(start, rs + [r]) && r.consumeAt <= next.consumeAt
    ensures var b, tier := Left(cfg, evicts, start, rs, r), TierOf(cfg, rs + [r], r.ip);
            && Matches(tier, b)
            && (Decision(cfg, evicts, start, rs + [r] + mid, next)
                <==> Min(Cap(tier), b.tokens + Gain(tier, next.consumeAt - r.consumeAt)) >= 1.0)
  {
    hide *;
    var run := rs + [r] + mid;
    Snoc(cfg, evicts, start, run, next);
    OthersKeepLevel(cfg, evicts, start, rs + [r], mid, r.ip, next.consumeAt);
    Snoc(cfg, evicts, start, rs, r);
    LeftAfterRefusal(cfg, evicts, start, rs, r, next.consumeAt);
    LevelDecides(cfg, evicts, start, run, next);
  }

  /** While the tier stays, a request passes exactly if its address's level has reached one token. */
  lemma LevelDecides(cfg: Config, evicts: bool, start: real, rs: seq<Request>, r: Request)
    requires Timed(start, rs + [r]) && (evicts ==> cfg.cleanupInterval >= PERIOD)
    requires TierOf(cfg, rs + [r], r.ip) == TierOf(cfg, rs, r.ip)
    ensures Decision(cfg, evicts, start, rs, r) <==> Level(cfg, After(cfg, evicts, start, rs), r.ip, r.consumeAt) >= 1.0
  {
    Snoc(cfg, evicts, start, rs, r);
    RunInv(cfg, evicts, start, rs, r.ip);
    StepLevels(cfg, evicts, After(cfg, evicts, start, rs), Now(start, rs), r, r.ip);
  }

  /** What `advice` is worth to a client that waits `waited` seconds and then passes or not. */
  predicate Sound(tier: Tier, b: Bucket, advice: Response, waited: real, passes: bool)
    requires b.refillRate > 0.0
  {
    && advice.TooManyRequests? && advice.limit == MaxTokens(tier) && advice.remaining == 0
    && (passes <==> waited >= ResetSeconds(b))
    && advice.retryAfter == 1 && (waited >= advice.retryAfter as real ==> passes)
    && (waited == advice.resetMs as real / 1000.0 ==> (passes <==> advice.resetMs as real == ResetSeconds(b) * 1000.0))
  }

  lemma AdviceIsSound(tier: Tier, b: Bucket, waited: real)
    requires Matches(tier, b) && waited >= 0.0
    ensures b.refillRate > 0.0
    ensures Sound(tier, b, Respond(tier, false, b), waited, Min(Cap(tier), b.tokens + Gain(tier, waited)) >= 1.0)
  {
  }

  /**
   * After a refusal, and whatever other addresses do meanwhile, the next request of the same
   * address in the same tier passes exactly if `reset_seconds` have gone by.  The Retry-After
   * header is one second in every tier and always long enough; the X-RateLimit-Reset header,
   * cut to whole milliseconds, is long enough exactly if nothing was cut.
   */
  lemma RetryAdvice(cfg: Config, evicts: bool, start: real, rs: seq<Request>, r: Request, mid: seq<Request>,
                    next: Request)
    requires Timed(start, rs + [r] + mid + [next]) && (evicts ==> cfg.cleanupInterval >= PERIOD)
    requires !Decision(cfg, evicts, start, rs, r) && next.ip == r.ip && forall i :: 0 <= i < |mid| ==> mid[i].ip != r.ip
    requires TierOf(cfg, rs + [r] + mid + [next], r.ip) == TierOf(cfg, rs + [r], r.ip)
    ensures var b, tier := Left(cfg, evicts, start, rs, r), TierOf(cfg, rs + [r], r.ip);
            && b.refillRate > 0.0
            && Sound(tier, b, Respond(tier, false, b), next.consumeAt - r.consumeAt,
                     Decision(cfg, evicts, start, rs + [r] + mid, next))
  {
    hide *;
    PassesExactly(cfg, evicts, start, rs, r, mid, next);
    AdviceIsSound(TierOf(cfg, rs + [r], r.ip), Left(cfg, evicts, start, rs, r), next.consumeAt - r.consumeAt);
  }

  /** A burst of `k` requests at time 0 has taken `k` tokens. */
  lemma {:induction false} BurstLevel(cfg: Config, evicts: bool, k: nat)
    requires k <= MaxTokens(cfg.defaultTier) && (evicts ==> cfg.cleanupInterval >= PERIOD)
    ensures Timed(0.0, Burst(0.0, k)) && Now(0.0, Burst(0.0, k)) == 0.0
    ensures TierOf(cfg, Burst(0.0, k), IP) == cfg.defaultTier
    ensures Level(cfg, After(cfg, evicts, 0.0, Burst(0.0, k)), IP, 0.0) == Cap(cfg.defaultTier) - k as real
    decreases k
  {
    hide After, Timed, Level, TierOf, Decision;
    if k == 0 {
      NothingSpent(cfg, evicts);
    } else {
      var front := Burst(0.0, k - 1);
      BurstLevel(cfg, evicts, k - 1);
      AskStep(cfg, evicts, front, 0.0);
    }
  }

  lemma NothingSpent(cfg: Config, evicts: bool)
    ensures Timed(0.0, []) && TierOf(cfg, [], IP) == cfg.defaultTier
    ensures Level(cfg, After(cfg, evicts, 0.0, []), IP, 0.0) == Cap(cfg.defaultTier)
  {
  }

  /** A request of the address that finds its level at `t`. */
  lemma AskStep(cfg: Config, evicts: bool, rs: seq<Request>, t: real)
    requires Timed(0.0, rs) && Now(0.0, rs) <= t && (evicts ==> cfg.cleanupInterval >= PERIOD)
    requires TierOf(cfg, rs, IP) == cfg.defaultTier
    ensures Timed(0.0, rs + [Ask(t)]) && Now(0.0, rs + [Ask(t)]) == t
    ensures TierOf(cfg, rs + [Ask(t)], IP) == cfg.defaultTier
    ensures var found := Level(cfg, After(cfg, evicts, 0.0, rs), IP, t);
            && (Decision(cfg, evicts, 0.0, rs, Ask(t)) <==> found >= 1.0)
            && Level(cfg, After(cfg, evicts, 0.0, rs + [Ask(t)]), IP, t) == found - Cost(found >= 1.0)
  {
    var s := After(cfg, evicts, 0.0, rs);
    Snoc(cfg, evicts, 0.0, rs, Ask(t));
    RunInv(cfg, evicts, 0.0, rs, IP);
    StepLevels(cfg, evicts, s, Now(0.0, rs), Ask(t), IP);
  }

  /** The bucket left when the request after a full burst comes half a millisecond later. */
  lemma HurriedBucket(cfg: Config, evicts: bool, rs: seq<Request>, r: Request)
    requires evicts ==> cfg.cleanupInterval >= PERIOD
    requires rs == Burst(0.0, MaxTokens(cfg.defaultTier)) && r == Ask(0.0005)
    ensures Timed(0.0, rs + [r]) && TierOf(cfg, rs + [r], IP) == cfg.defaultTier
    ensures !Decision(cfg, evicts, 0.0, rs, r)
    ensures Matches(cfg.defaultTier, Left(cfg, evicts, 0.0, rs, r))
    ensures Left(cfg, evicts, 0.0, rs, r).tokens == Gain(cfg.defaultTier, 0.0005)
  {
    hide After, Timed, Left, Decision, Burst, TierOf;
    BurstLevel(cfg, evicts, MaxTokens(cfg.defaultTier));
    AskStep(cfg, evicts, rs, 0.0005);
    RunInv(cfg, evicts, 0.0, rs, IP);
    LevelLater(cfg, After(cfg, evicts, 0.0, rs), IP, 0.0, 0.0005);
    LeftAfterRefusal(cfg, evicts, 0.0, rs, r, 0.0005);
  }

  lemma CutMilliseconds(tier: Tier, b: Bucket)
    requires Matches(tier, b) && b.tokens == Gain(tier, 0.0005)
    ensures b.refillRate > 0.0
    ensures Respond(tier, false, b).resetMs >= 0 && Respond(tier, false, b).resetMs as real != ResetSeconds(b) * 1000.0
  {
    var ms := ResetSeconds(b) * 1000.0;
    match tier
    case BASIC => assert ms == 99.5;
    case ADVANCED => assert ms == 19.5;
    case MARKET_MAKER => assert ms == 4.5;
  }

  lemma ShortWait(cfg: Config, evicts: bool, rs: seq<Request>, r: Request, ms: int)
    requires Timed(0.0, rs + [r]) && !Decision(cfg, evicts, 0.0, rs, r) && (evicts ==> cfg.cleanupInterval >= PERIOD)
    requires r.ip == IP && TierOf(cfg, rs + [r], IP) == cfg.defaultTier && ms >= 0
    requires var b := Left(cfg, evicts, 0.0, rs, r);
             b.refillRate > 0.0 && ms == Respond(cfg.defaultTier, false, b).resetMs
               && ms as real != ResetSeconds(b) * 1000.0
    ensures var next := Ask(r.consumeAt + ms as real / 1000.0);
            Timed(0.0, rs + [r] + [next]) && !Decision(cfg, evicts, 0.0, rs + [r], next)
  {
    hide Decision, After, Left, ResetSeconds;
    var next := Ask(r.consumeAt + ms as real / 1000.0);
    Snoc(cfg, evicts, 0.0, rs, r);
    Snoc(cfg, evicts, 0.0, rs + [r], next);
    assert rs + [r] + [] == rs + [r];
    RetryAdvice(cfg, evicts, 0.0, rs, r, [], next);
  }

  /**
   * The millisecond header does fall short, in every tier: after a full burst, a request half a
   * millisecond later is refused, and so is the next one if it comes when that header says.
   */
  lemma MillisecondsCanFallShort(cfg: Config, evicts: bool, rs: seq<Request>, r: Request)
    requires evicts ==> cfg.cleanupInterval >= PERIOD
    requires rs == Burst(0.0, MaxTokens(cfg.defaultTier)) && r == Ask(0.0005)
    ensures var b := Left(cfg, evicts, 0.0, rs, r);
            && b.refillRate > 0.0
            && var next := Ask(r.consumeAt + Respond(cfg.defaultTier, false, b).resetMs as real / 1000.0);
               && Timed(0.0, rs + [r] + [next])
               && !Decision(cfg, evicts, 0.0, rs, r) && !Decision(cfg, evicts, 0.0, rs + [r], next)
  {
    hide Timed, Decision, After, Left, Burst, TierOf;
    var b := Left(cfg, evicts, 0.0, rs, r);
    HurriedBucket(cfg, evicts, rs, r);
    CutMilliseconds(cfg.defaultTier, b);
    ShortWait(cfg, evicts, rs, r, Respond(cfg.defaultTier, false, b).resetMs);
  }

  // ---------- What the remaining count says ----------

  function Smaller(x: int, y: int): int { if x <= y then x else y }

  /** Requests of one address at one instant take what is left, one token each, and no more. */
  lemma {:induction false} InstantLevel(cfg: Config, evicts: bool, start: real, run: seq<Request>, more: seq<Request>,
                                        ip: string)
    requires Timed(start, run + more) && (evicts ==> cfg.cleanupInterval >= PERIOD)
    requires forall i :: 0 <= i < |more| ==> more[i].ip == ip && more[i].consumeAt == Now(start, run)
    requires forall k :: 0 <= k <= |more| ==> TierOf(cfg, run + more[..k], ip) == TierOf(cfg, run, ip)
    ensures Timed(start, run) && Now(start, run + more) == Now(start, run)
    ensures var found := Level(cfg, After(cfg, evicts, start, run), ip, Now(start, run));
            Level(cfg, After(cfg, evicts, start, run + more), ip, Now(start, run))
            == found - Smaller(|more|, found.Floor) as real
    decreases |more|
  {
    hide After, Timed, TierOf, Level, Log, Decision, Smaller, Cost;
    if more == [] {
      assert run + more == run;
      LevelNow(cfg, evicts, start, run, ip);
      OneLess(Level(cfg, After(cfg, evicts, start, run), ip, Now(start, run)), 0);
    } else {
      var front, r := more[..|more| - 1], more[|more| - 1];
      assert run + front + [r] == run + more && run + more[..|more|] == run + more;
      Snoc(cfg, evicts, start, run + front, r);
      forall k | 0 <= k <= |front| ensures TierOf(cfg, run + front[..k], ip) == TierOf(cfg, run, ip) {
        assert front[..k] == more[..k];
      }
      InstantLevel(cfg, evicts, start, run, front, ip);
      LevelNow(cfg, evicts, start, run, ip);
      SpendAtOnce(cfg, evicts, start, run + front, r);
      OneLess(Level(cfg, After(cfg, evicts, start, run), ip, Now(start, run)), |front|);
    }
  }

  lemma OneLess(found: real, n: nat)
    requires found >= 0.0
    ensures var level := found - Smaller(n, found.Floor) as real;
            level - Cost(level >= 1.0) == found - Smaller(n + 1, found.Floor) as real
    ensures Smaller(0, found.Floor) == 0
  {
  }

  lemma LevelNow(cfg: Config, evicts: bool, start: real, rs: seq<Request>, ip: string)
    requires Timed(start, rs) && (evicts ==> cfg.cleanupInterval >= PERIOD)
    ensures 0.0 <= Level(cfg, After(cfg, evicts, start, rs), ip, Now(start, rs))
  {
    RunInv(cfg, evicts, start, rs, ip);
    LevelLater(cfg, After(cfg, evicts, start, rs), ip, Now(start, rs), Now(start, rs));
  }

  lemma SpendAtOnce(cfg: Config, evicts: bool, start: real, rs: seq<Request>, r: Request)
    requires Timed(start, rs + [r]) && (evicts ==> cfg.cleanupInterval >= PERIOD)
    requires TierOf(cfg, rs + [r], r.ip) == TierOf(cfg, rs, r.ip)
    ensures var found := Level(cfg, After(cfg, evicts, start, rs), r.ip, r.consumeAt);
            Level(cfg, After(cfg, evicts, start, rs + [r]), r.ip, r.consumeAt) == found - Cost(found >= 1.0)
  {
    Snoc(cfg, evicts, start, rs, r);
    RunInv(cfg, evicts, start, rs, r.ip);
    StepLevels(cfg, evicts, After(cfg, evicts, start, rs), Now(start, rs), r, r.ip);
  }

  lemma BucketIsLevel(cfg: Config, evicts: bool, start: real, rs: seq<Request>, r: Request)
    requires Timed(start, rs + [r]) && (evicts ==> cfg.cleanupInterval >= PERIOD)
    ensures var s := After(cfg, evicts, start, rs + [r]);
            && r.ip in s.buckets && s.buckets[r.ip].refillRate > 0.0
            && s.buckets[r.ip].tokens == Level(cfg, s, r.ip, r.consumeAt)
  {
    hide After, Timed, Level, Inv;
    Snoc(cfg, evicts, start, rs, r);
    RunInv(cfg, evicts, start, rs + [r], r.ip);
    LevelInBucket(cfg, After(cfg, evicts, start, rs + [r]), r.ip, r.consumeAt);
  }

  lemma LevelInBucket(cfg: Config, s: Limiter, ip: string, t: real)
    requires Inv(cfg, s, t) && ip in s.buckets && s.buckets[ip].lastRefill == t
    ensures s.buckets[ip].refillRate > 0.0 && s.buckets[ip].tokens == Level(cfg, s, ip, t)
  {
    RefilledAt(TierFor(cfg, s, ip), s.buckets[ip], t);
  }

  /**
   * The remaining count attached to the answer of `r` is exact: of the further requests of the
   * address at that instant, in the same tier, just that many pass, however many there are.
   */
  lemma RemainingIsExact(cfg: Config, evicts: bool, start: real, rs: seq<Request>, r: Request, more: seq<Request>,
                         n: nat)
    requires Timed(start, rs + [r] + more) && (evicts ==> cfg.cleanupInterval >= PERIOD) && n < |more|
    requires forall i :: 0 <= i < |more| ==> more[i].ip == r.ip && more[i].consumeAt == r.consumeAt
    requires forall k :: 0 <= k <= |more| ==> TierOf(cfg, rs + [r] + more[..k], r.ip) == TierOf(cfg, rs + [r], r.ip)
    ensures var s := After(cfg, evicts, start, rs + [r]);
            && r.ip in s.buckets && s.buckets[r.ip].refillRate > 0.0
            && (Decision(cfg, evicts, start, rs + [r] + more[..n], more[n])
                <==> n < HeadersOf(MaxTokens(TierFor(cfg, s, r.ip)), s.buckets[r.ip]).remaining)
  {
    hide After, Timed, TierOf, Level, Decision;
    var run := rs + [r];
    InstantRun(cfg, evicts, start, run, more, n, r.ip);
    InstantLevel(cfg, evicts, start, run, more[..n], r.ip);
    BucketIsLevel(cfg, evicts, start, rs, r);
    LevelNow(cfg, evicts, start, run, r.ip);
    LevelDecides(cfg, evicts, start, run + more[..n], more[n]);
  }

  /** The part of the requests before the `n`-th is such a run itself. */
  lemma InstantRun(cfg: Config, evicts: bool, start: real, run: seq<Request>, more: seq<Request>, n: nat, ip: string)
    requires n < |more| && Timed(start, run + more)
    requires forall k :: 0 <= k <= |more| ==> TierOf(cfg, run + more[..k], ip) == TierOf(cfg, run, ip)
    ensures Timed(start, run + more[..n]) && Timed(start, run + more[..n] + [more[n]])
    ensures forall k :: 0 <= k <= n ==> TierOf(cfg, run + more[..n][..k], ip) == TierOf(cfg, run, ip)
    ensures TierOf(cfg, run + more[..n] + [more[n]], ip) == TierOf(cfg, run + more[..n], ip)
  {
    forall k | 0 <= k <= n ensures TierOf(cfg, run + more[..n][..k], ip) == TierOf(cfg, run, ip) {
      assert more[..n][..k] == more[..k];
    }
    assert run + more[..n] + [more[n]] == run + more[..n + 1];
    TimedPrefix(start, run + more, |run| + n + 1);
    assert (run + more)[..|run| + n + 1] == run + more[..n + 1];
    TimedPrefix(start, run + more, |run| + n);
    assert (run + more)[..|run| + n] == run + more[..n];
  }

  lemma {:induction false} TimedPrefix(start: real, rs: seq<Request>, k: nat)
    requires Timed(start, rs) && k <= |rs|
    ensures Timed(start, rs[..k])
    decreases |rs|
  {
    if k == |rs| {
      assert rs[..k] == rs;
    } else {
      TimedPrefix(start, rs[..|rs| - 1], k);
      assert rs[..|rs| - 1][..k] == rs[..k];
    }
  }
}
