/**
 Whole-run theorems about the rate limiter.  A run is any sequence of requests whose clock
 reads never go back.  The central notion is the level of an address: the tokens it would
 have at a given time, whether or not its bucket is still in the table.
 */
module RateLimitRuns {
  import opened Options
  import opened RateLimit

  // ---------- Levels ----------

  function Level(cfg: Config, s: Limiter, ip: string, t: real): real {
    if ip in s.buckets then Refilled(s.buckets[ip], t) else Cap(TierFor(cfg, s, ip))
  }

  /** Every bucket has the size and rate of its address's current tier, and a sane content. */
  ghost predicate Inv(cfg: Config, s: Limiter, now: real) {
    && s.lastCleanup <= now
    && forall ip :: ip in s.buckets ==>
         var b := s.buckets[ip];
         b.maxTokens == MaxTokens(TierFor(cfg, s, ip)) && b.refillRate == Rate(TierFor(cfg, s, ip))
         && 0.0 <= b.tokens <= Cap(TierFor(cfg, s, ip)) && b.lastRefill <= now
  }

  /** What a tier's bucket regains in `elapsed` seconds. */
  function Gain(tier: Tier, elapsed: real): (gain: real)
    ensures gain == elapsed * Rate(tier)
  {
    match tier
    case BASIC => 10.0 * elapsed
    case ADVANCED => 50.0 * elapsed
    case MARKET_MAKER => 200.0 * elapsed
  }

  /** The refill of a bucket that matches its tier. */
  lemma RefilledAt(tier: Tier, b: Bucket, t: real)
    requires b.maxTokens == MaxTokens(tier) && b.refillRate == Rate(tier)
    ensures Refilled(b, t) == Min(Cap(tier), b.tokens + Gain(tier, t - b.lastRefill))
  {
  }

  lemma LevelLater(cfg: Config, s: Limiter, ip: string, t: real, t': real)
    requires Inv(cfg, s, t) && t <= t'
    ensures var tier := TierFor(cfg, s, ip);
            && Level(cfg, s, ip, t') == Min(Cap(tier), Level(cfg, s, ip, t) + Gain(tier, t' - t))
            && 0.0 <= Level(cfg, s, ip, t) <= Level(cfg, s, ip, t') <= Cap(tier)
  {
    if ip in s.buckets {
      RefilledAt(TierFor(cfg, s, ip), s.buckets[ip], t);
      RefilledAt(TierFor(cfg, s, ip), s.buckets[ip], t');
    }
  }

  /** A bucket untouched for the refill period is full, whatever it held. */
  lemma IdleIsFull(tier: Tier, tokens: real, idle: real)
    requires 0.0 <= tokens && idle >= PERIOD
    ensures tokens + Gain(tier, idle) >= Cap(tier)
  {
  }

  /** Cleanup can only raise a level, and with an interval of at least the refill period it changes none. */
  lemma CleanupLevels(cfg: Config, s: Limiter, now: real, t: real, ip: string)
    requires Inv(cfg, s, now) && now <= t
    ensures Inv(cfg, Cleanup(cfg, s, t), t)
    ensures TierFor(cfg, Cleanup(cfg, s, t), ip) == TierFor(cfg, s, ip)
    ensures Level(cfg, Cleanup(cfg, s, t), ip, t) >= Level(cfg, s, ip, t)
    ensures cfg.cleanupInterval >= PERIOD ==> Level(cfg, Cleanup(cfg, s, t), ip, t) == Level(cfg, s, ip, t)
  {
    LevelLater(cfg, s, ip, t, t);
    if ip in s.buckets && ip !in Cleanup(cfg, s, t).buckets && cfg.cleanupInterval >= PERIOD {
      var b := s.buckets[ip];
      RefilledAt(TierFor(cfg, s, ip), b, t);
      IdleIsFull(TierFor(cfg, s, ip), b.tokens, t - b.lastRefill);
    }
  }

  // ---------- One request ----------

  predicate Reads(r: Request, now: real) { now <= r.cleanupAt <= r.createAt <= r.consumeAt }

  /** The tier of `ip` once `r` has been seen, given that it was `tier` before. */
  function TierAfter(tier: Tier, r: Request, ip: string): Tier {
    if ip == r.ip && TokenTier(r).Some? then TokenTier(r).value else tier
  }

  /** The level a request finds: a full bucket if it switches the tier, else the refilled one. */
  function Offered(cfg: Config, s: Limiter, r: Request): real {
    var tier := TierAfter(TierFor(cfg, s, r.ip), r, r.ip);
    if tier != TierFor(cfg, s, r.ip) then Cap(tier) else Level(cfg, s, r.ip, r.consumeAt)
  }

  function Cost(granted: bool): real { if granted then 1.0 else 0.0 }

  lemma PreparedBucket(cfg: Config, s: Limiter, now: real, r: Request)
    requires Inv(cfg, s, now) && Reads(r, now)
    ensures var s' := Prepared(cfg, s, r); var tier := TierAfter(TierFor(cfg, s, r.ip), r, r.ip);
            var b := s'.buckets[r.ip];
            && TierFor(cfg, s', r.ip) == tier
            && b.maxTokens == MaxTokens(tier) && b.refillRate == Rate(tier)
            && 0.0 <= b.tokens <= Cap(tier) && b.lastRefill <= r.createAt
            && Refilled(b, r.consumeAt) == Offered(cfg, s, r)
  {
    var b := Prepared(cfg, s, r).buckets[r.ip];
    RefilledAt(TierAfter(TierFor(cfg, s, r.ip), r, r.ip), b, r.consumeAt);
  }

  lemma PreparedOthers(cfg: Config, s: Limiter, r: Request, x: string)
    requires x != r.ip
    ensures var s' := Prepared(cfg, s, r);
            && (x in s'.buckets <==> x in s.buckets)
            && (x in s.buckets ==> s'.buckets[x] == s.buckets[x])
            && TierFor(cfg, s', x) == TierFor(cfg, s, x)
            && s'.lastCleanup == s.lastCleanup
  {
  }

  lemma ConsumedBucket(tier: Tier, b: Bucket, t: real)
    requires b.maxTokens == MaxTokens(tier) && b.refillRate == Rate(tier)
    requires 0.0 <= b.tokens <= Cap(tier) && b.lastRefill <= t
    ensures var b' := Consumed(b, t);
            && b'.maxTokens == MaxTokens(tier) && b'.refillRate == Rate(tier)
            && 0.0 <= b'.tokens <= Cap(tier) && b'.lastRefill == t
            && Refilled(b', t) == Refilled(b, t) - Cost(Grants(b, t))
  {
    RefilledAt(tier, b, t);
    RefilledAt(tier, Consumed(b, t), t);
  }

  lemma DecidedInv(cfg: Config, s: Limiter, now: real, r: Request)
    requires Inv(cfg, s, now) && Reads(r, now)
    ensures Inv(cfg, Decided(cfg, s, r), r.consumeAt)
  {
    PreparedBucket(cfg, s, now, r);
    ConsumedBucket(TierAfter(TierFor(cfg, s, r.ip), r, r.ip), Prepared(cfg, s, r).buckets[r.ip], r.consumeAt);
    var s' := Decided(cfg, s, r);
    forall x | x in s'.buckets
      ensures var b := s'.buckets[x]; var tier := TierFor(cfg, s', x);
              b.maxTokens == MaxTokens(tier) && b.refillRate == Rate(tier) && 0.0 <= b.tokens <= Cap(tier)
              && b.lastRefill <= r.consumeAt
    {
      if x != r.ip { PreparedOthers(cfg, s, r, x); }
    }
  }

  /** The effect of one request on the level of every address. */
  lemma DecidedLevels(cfg: Config, s: Limiter, now: real, r: Request, ip: string)
    requires Inv(cfg, s, now) && Reads(r, now)
    ensures TierFor(cfg, Decided(cfg, s, r), ip) == TierAfter(TierFor(cfg, s, ip), r, ip)
    ensures Granted(cfg, s, r) <==> Offered(cfg, s, r) >= 1.0
    ensures Level(cfg, Decided(cfg, s, r), ip, r.consumeAt)
         == if ip == r.ip then Offered(cfg, s, r) - Cost(Granted(cfg, s, r)) else Level(cfg, s, ip, r.consumeAt)
  {
    PreparedBucket(cfg, s, now, r);
    if ip == r.ip {
      ConsumedBucket(TierAfter(TierFor(cfg, s, ip), r, ip), Prepared(cfg, s, r).buckets[ip], r.consumeAt);
    } else {
      PreparedOthers(cfg, s, r, ip);
    }
  }

  // ---------- Runs ----------

  datatype Entry = Entry(req: Request, granted: bool)

  /** One request with or without the eviction pass in front of it. */
  function Swept(cfg: Config, evicts: bool, s: Limiter, r: Request): Limiter {
    if evicts then Cleanup(cfg, s, r.cleanupAt) else s
  }

  function After(cfg: Config, evicts: bool, start: real, rs: seq<Request>): Limiter {
    if rs == [] then Limiter(map[], map[], start)
    else
      var r := rs[|rs| - 1];
      Decided(cfg, Swept(cfg, evicts, After(cfg, evicts, start, rs[..|rs| - 1]), r), r)
  }

  predicate Decision(cfg: Config, evicts: bool, start: real, rs: seq<Request>, r: Request) {
    Granted(cfg, Swept(cfg, evicts, After(cfg, evicts, start, rs), r), r)
  }

  /** Every request of a run with the decision it got. */
  function Log(cfg: Config, evicts: bool, start: real, rs: seq<Request>): (log: seq<Entry>)
    ensures |log| == |rs|
  {
    if rs == [] then []
    else
      var front, r := rs[..|rs| - 1], rs[|rs| - 1];
      Log(cfg, evicts, start, front) + [Entry(r, Decision(cfg, evicts, start, front, r))]
  }

  function Now(start: real, rs: seq<Request>): real {
    if rs == [] then start else rs[|rs| - 1].consumeAt
  }

  predicate Timed(start: real, rs: seq<Request>) {
    rs == [] || (Timed(start, rs[..|rs| - 1]) && Reads(rs[|rs| - 1], Now(start, rs[..|rs| - 1])))
  }

  function TierOf(cfg: Config, rs: seq<Request>, ip: string): Tier {
    if rs == [] then cfg.defaultTier else TierAfter(TierOf(cfg, rs[..|rs| - 1], ip), rs[|rs| - 1], ip)
  }

  /** A run grows at its end. */
  lemma Snoc(cfg: Config, evicts: bool, start: real, rs: seq<Request>, r: Request)
    ensures After(cfg, evicts, start, rs + [r]) == Decided(cfg, Swept(cfg, evicts, After(cfg, evicts, start, rs), r), r)
    ensures Log(cfg, evicts, start, rs + [r])
            == Log(cfg, evicts, start, rs) + [Entry(r, Decision(cfg, evicts, start, rs, r))]
    ensures Timed(start, rs + [r]) <==> Timed(start, rs) && Reads(r, Now(start, rs))
    ensures Timed(start, rs + [r]) ==> Now(start, rs) <= r.consumeAt
    ensures Now(start, rs + [r]) == r.consumeAt
    ensures forall ip :: TierOf(cfg, rs + [r], ip) == TierAfter(TierOf(cfg, rs, ip), r, ip)
  {
  }

  lemma SweptLevels(cfg: Config, evicts: bool, s: Limiter, now: real, r: Request, ip: string)
    requires Inv(cfg, s, now) && Reads(r, now) && (evicts ==> cfg.cleanupInterval >= PERIOD)
    ensures var s1 := Swept(cfg, evicts, s, r);
            && Inv(cfg, s1, r.cleanupAt)
            && TierFor(cfg, s1, ip) == TierFor(cfg, s, ip)
            && Level(cfg, s1, ip, r.consumeAt) == Level(cfg, s, ip, r.consumeAt)
  {
    var s1 := Swept(cfg, evicts, s, r);
    if evicts { CleanupLevels(cfg, s, now, r.cleanupAt, ip); }
    LevelLater(cfg, s, ip, r.cleanupAt, r.consumeAt);
    LevelLater(cfg, s1, ip, r.cleanupAt, r.consumeAt);
  }

  /** One step of a run, in terms of levels only: this is all the theorems below need to know. */
  lemma StepLevels(cfg: Config, evicts: bool, s: Limiter, now: real, r: Request, ip: string)
    requires Inv(cfg, s, now) && Reads(r, now) && (evicts ==> cfg.cleanupInterval >= PERIOD)
    ensures var s1 := Swept(cfg, evicts, s, r); var s' := Decided(cfg, s1, r); var g := Granted(cfg, s1, r);
            && Inv(cfg, s', r.consumeAt)
            && TierFor(cfg, s', ip) == TierAfter(TierFor(cfg, s, ip), r, ip)
            && (g <==> Offered(cfg, s, r) >= 1.0)
            && Level(cfg, s', ip, r.consumeAt)
               == if ip == r.ip then Offered(cfg, s, r) - Cost(g) else Level(cfg, s, ip, r.consumeAt)
  {
    var s1 := Swept(cfg, evicts, s, r);
    SweptLevels(cfg, evicts, s, now, r, ip);
    SweptLevels(cfg, evicts, s, now, r, r.ip);
    DecidedInv(cfg, s1, r.cleanupAt, r);
    DecidedLevels(cfg, s1, r.cleanupAt, r, ip);
  }

  lemma {:induction false} RunInv(cfg: Config, evicts: bool, start: real, rs: seq<Request>, ip: string)
    requires Timed(start, rs) && (evicts ==> cfg.cleanupInterval >= PERIOD)
    ensures Inv(cfg, After(cfg, evicts, start, rs), Now(start, rs))
    ensures TierFor(cfg, After(cfg, evicts, start, rs), ip) == TierOf(cfg, rs, ip)
  {
    if rs != [] {
      var front := rs[..|rs| - 1];
      RunInv(cfg, evicts, start, front, ip);
      StepLevels(cfg, evicts, After(cfg, evicts, start, front), Now(start, front), rs[|rs| - 1], ip);
    }
  }

  // ---------- Two limiters with the same levels decide alike ----------

  ghost predicate SameLevels(cfg: Config, s: Limiter, u: Limiter, t: real) {
    && Inv(cfg, s, t) && Inv(cfg, u, t)
    && forall ip :: TierFor(cfg, s, ip) == TierFor(cfg, u, ip) && Level(cfg, s, ip, t) == Level(cfg, u, ip, t)
  }

  lemma SameLevelsStep(cfg: Config, evicts: bool, s: Limiter, evicts': bool, u: Limiter, now: real, r: Request)
    requires SameLevels(cfg, s, u, now) && Reads(r, now) && (evicts || evicts' ==> cfg.cleanupInterval >= PERIOD)
    ensures var s1, u1 := Swept(cfg, evicts, s, r), Swept(cfg, evicts', u, r);
            && Granted(cfg, s1, r) == Granted(cfg, u1, r)
            && SameLevels(cfg, Decided(cfg, s1, r), Decided(cfg, u1, r), r.consumeAt)
  {
    forall ip ensures Level(cfg, s, ip, r.consumeAt) == Level(cfg, u, ip, r.consumeAt) {
      LevelLater(cfg, s, ip, now, r.consumeAt);
      LevelLater(cfg, u, ip, now, r.consumeAt);
    }
    forall ip
      ensures var s', u' := Decided(cfg, Swept(cfg, evicts, s, r), r), Decided(cfg, Swept(cfg, evicts', u, r), r);
              && TierFor(cfg, s', ip) == TierFor(cfg, u', ip)
              && Level(cfg, s', ip, r.consumeAt) == Level(cfg, u', ip, r.consumeAt)
    {
      StepLevels(cfg, evicts, s, now, r, ip);
      StepLevels(cfg, evicts', u, now, r, ip);
    }
    StepLevels(cfg, evicts, s, now, r, r.ip);
    StepLevels(cfg, evicts', u, now, r, r.ip);
  }

  /**
   * Eviction is invisible: with a cleanup interval of at least the refill period, the limiter
   * decides every request of every run as one that never deletes a bucket.
   */
  lemma {:induction false} EvictionInvisible(cfg: Config, start: real, rs: seq<Request>)
    requires cfg.cleanupInterval >= PERIOD && Timed(start, rs)
    ensures Log(cfg, true, start, rs) == Log(cfg, false, start, rs)
    ensures SameLevels(cfg, After(cfg, true, start, rs), After(cfg, false, start, rs), Now(start, rs))
  {
    if rs != [] {
      var front := rs[..|rs| - 1];
      EvictionInvisible(cfg, start, front);
      SameLevelsStep(cfg, true, After(cfg, true, start, front), false, After(cfg, false, start, front),
                     Now(start, front), rs[|rs| - 1]);
    }
  }

  // ---------- Refused requests are free ----------

  function GrantedOnly(log: seq<Entry>): seq<Entry> {
    if log == [] then []
    else
      var e := log[|log| - 1];
      GrantedOnly(log[..|log| - 1]) + (if e.granted then [e] else [])
  }

  function Requests(log: seq<Entry>): (rs: seq<Request>)
    ensures |rs| == |log|
  {
    seq(|log|, i requires 0 <= i < |log| => log[i].req)
  }

  lemma InvLater(cfg: Config, s: Limiter, t: real, t': real)
    requires Inv(cfg, s, t) && t <= t'
    ensures Inv(cfg, s, t')
  {
  }

  lemma RefusedKeepsLevels(cfg: Config, evicts: bool, s: Limiter, u: Limiter, now: real, r: Request)
    requires SameLevels(cfg, s, u, now) && Reads(r, now) && (evicts ==> cfg.cleanupInterval >= PERIOD)
    requires !Granted(cfg, Swept(cfg, evicts, s, r), r)
    ensures SameLevels(cfg, Decided(cfg, Swept(cfg, evicts, s, r), r), u, r.consumeAt)
  {
    hide Level, Inv, Decided, Swept, Granted, TierFor, Gain;
    InvLater(cfg, u, now, r.consumeAt);
    var s' := Decided(cfg, Swept(cfg, evicts, s, r), r);
    forall ip
      ensures TierFor(cfg, s', ip) == TierFor(cfg, u, ip)
      ensures Level(cfg, s', ip, r.consumeAt) == Level(cfg, u, ip, r.consumeAt)
    {
      LevelLater(cfg, s, ip, now, r.consumeAt);
      LevelLater(cfg, u, ip, now, r.consumeAt);
      StepLevels(cfg, evicts, s, now, r, ip);
    }
    StepLevels(cfg, evicts, s, now, r, r.ip);
  }

  lemma KeepOne(cfg: Config, evicts: bool, start: real, rs: seq<Request>, kept: seq<Entry>, r: Request)
    requires Timed(start, rs + [r]) && (evicts ==> cfg.cleanupInterval >= PERIOD)
    requires FreeOf(cfg, evicts, start, rs, kept)
    ensures FreeOf(cfg, evicts, start, rs + [r],
                   if Decision(cfg, evicts, start, rs, r) then kept + [Entry(r, true)] else kept)
  {
    hide After, Log, Timed, SameLevels, Decided, Swept, Granted;
    var s, u := After(cfg, evicts, start, rs), After(cfg, evicts, start, Requests(kept));
    Snoc(cfg, evicts, start, rs, r);
    if Decision(cfg, evicts, start, rs, r) {
      SameLevelsStep(cfg, evicts, s, evicts, u, Now(start, rs), r);
      Snoc(cfg, evicts, start, Requests(kept), r);
      assert Requests(kept + [Entry(r, true)]) == Requests(kept) + [r];
    } else {
      RefusedKeepsLevels(cfg, evicts, s, u, Now(start, rs), r);
    }
  }

  /** `kept` is a run of its own, decided as recorded, that ends at the same levels as `rs`. */
  ghost predicate FreeOf(cfg: Config, evicts: bool, start: real, rs: seq<Request>, kept: seq<Entry>) {
    && Timed(start, Requests(kept)) && Now(start, Requests(kept)) <= Now(start, rs)
    && Log(cfg, evicts, start, Requests(kept)) == kept
    && SameLevels(cfg, After(cfg, evicts, start, rs), After(cfg, evicts, start, Requests(kept)), Now(start, rs))
  }

  lemma KeptSnoc(cfg: Config, evicts: bool, start: real, rs: seq<Request>, r: Request, kept: seq<Entry>)
    requires kept == GrantedOnly(Log(cfg, evicts, start, rs))
    ensures GrantedOnly(Log(cfg, evicts, start, rs + [r]))
         == if Decision(cfg, evicts, start, rs, r) then kept + [Entry(r, true)] else kept
  {
  }

  lemma FreeStep(cfg: Config, evicts: bool, start: real, rs: seq<Request>, r: Request)
    requires Timed(start, rs + [r]) && (evicts ==> cfg.cleanupInterval >= PERIOD)
    requires FreeOf(cfg, evicts, start, rs, GrantedOnly(Log(cfg, evicts, start, rs)))
    ensures FreeOf(cfg, evicts, start, rs + [r], GrantedOnly(Log(cfg, evicts, start, rs + [r])))
  {
    var kept := GrantedOnly(Log(cfg, evicts, start, rs));
    KeptSnoc(cfg, evicts, start, rs, r, kept);
    KeepOne(cfg, evicts, start, rs, kept, r);
  }

  lemma FreeStart(cfg: Config, evicts: bool, start: real)
    ensures FreeOf(cfg, evicts, start, [], [])
  {
  }

  /** Deleting the refused requests from a run changes no other decision. */
  lemma {:induction false} RefusedAreFree(cfg: Config, evicts: bool, start: real, rs: seq<Request>)
    requires Timed(start, rs) && (evicts ==> cfg.cleanupInterval >= PERIOD)
    ensures FreeOf(cfg, evicts, start, rs, GrantedOnly(Log(cfg, evicts, start, rs)))
  {
    if rs == [] {
      FreeStart(cfg, evicts, start);
    } else {
      RefusedAreFree(cfg, evicts, start, rs[..|rs| - 1]);
      assert rs[..|rs| - 1] + [rs[|rs| - 1]] == rs;
      FreeStep(cfg, evicts, start, rs[..|rs| - 1], rs[|rs| - 1]);
    }
  }

  // ---------- The decision read off the request history ----------

  datatype Visit = Visit(at: real, granted: bool)

  function Count(h: seq<Visit>): nat {
    if h == [] then 0 else (if h[0].granted then 1 else 0) + Count(h[1..])
  }

  /**
   * The history rule: a request at `t` may pass when, for every earlier visit j (and for none
   * at all), the grants since j plus this one fit in a full bucket plus the refill since j.
   */
  predicate FitsAllWindows(tier: Tier, h: seq<Visit>, t: real) {
    1.0 <= Cap(tier) && forall j :: 0 <= j < |h| ==> FitsWindow(tier, h, t, j)
  }

  /** The tightest of those windows. */
  function MinWindow(tier: Tier, h: seq<Visit>, t: real): real {
    if h == [] then Cap(tier)
    else Min(Cap(tier) + Gain(tier, t - h[0].at) - Count(h) as real, MinWindow(tier, h[1..], t))
  }

  predicate FitsWindow(tier: Tier, h: seq<Visit>, t: real, j: nat)
    requires j < |h|
  {
    Count(h[j..]) as real + 1.0 <= Cap(tier) + Gain(tier, t - h[j].at)
  }

  lemma FitsCons(tier: Tier, h: seq<Visit>, t: real)
    requires h != []
    ensures FitsAllWindows(tier, h, t) <==> FitsWindow(tier, h, t, 0) && FitsAllWindows(tier, h[1..], t)
  {
    forall j | 0 <= j < |h[1..]| ensures FitsWindow(tier, h[1..], t, j) <==> FitsWindow(tier, h, t, j + 1) {
      assert h[1..][j..] == h[j + 1..];
    }
    if FitsWindow(tier, h, t, 0) && FitsAllWindows(tier, h[1..], t) {
      forall j | 0 <= j < |h| ensures FitsWindow(tier, h, t, j) {
        assert j > 0 ==> FitsWindow(tier, h[1..], t, j - 1);
      }
    }
    if FitsAllWindows(tier, h, t) {
      forall j | 0 <= j < |h[1..]| ensures FitsWindow(tier, h[1..], t, j) {
        assert FitsWindow(tier, h, t, j + 1);
      }
    }
  }

  lemma {:induction false} MinWindowMeans(tier: Tier, h: seq<Visit>, t: real)
    ensures MinWindow(tier, h, t) >= 1.0 <==> FitsAllWindows(tier, h, t)
  {
    if h != [] {
      MinWindowMeans(tier, h[1..], t);
      FitsCons(tier, h, t);
      assert h[0..] == h;
    }
  }

  lemma {:induction false} CountAppend(h: seq<Visit>, v: Visit)
    ensures Count(h + [v]) == Count(h) + (if v.granted then 1 else 0)
  {
    if h == [] {
      assert h + [v] == [v];
    } else {
      CountAppend(h[1..], v);
      assert (h + [v])[1..] == h[1..] + [v];
    }
  }

  /** A full bucket of `tier`, or what `found` leaves after its cost and `elapsed` seconds, if that is less. */
  function Next(tier: Tier, found: real, granted: bool, elapsed: real): real {
    Min(Cap(tier), found - Cost(granted) + Gain(tier, elapsed))
  }

  /** The tightest window obeys the bucket's own recurrence. */
  lemma {:induction false} MinWindowAppend(tier: Tier, h: seq<Visit>, v: Visit, t: real)
    requires v.at <= t
    ensures MinWindow(tier, h + [v], t)
         == Next(tier, MinWindow(tier, h, v.at), v.granted, t - v.at)
  {
    if h == [] {
      assert h + [v] == [v] && (h + [v])[1..] == [];
      assert Count([v]) == (if v.granted then 1 else 0) + Count([v][1..]);
    } else {
      MinWindowAppend(tier, h[1..], v, t);
      CountAppend(h, v);
      assert (h + [v])[1..] == h[1..] + [v];
    }
  }

  /** The visits of `ip` since its tier last changed, with their decisions. */
  function Visits(cfg: Config, log: seq<Entry>, ip: string): seq<Visit> {
    if log == [] then []
    else
      var front, e := log[..|log| - 1], log[|log| - 1];
      if e.req.ip != ip then Visits(cfg, front, ip)
      else Current(cfg, front, e.req) + [Visit(e.req.consumeAt, e.granted)]
  }

  /** The visits that still bind request `r`: none if it switches the tier. */
  function Current(cfg: Config, log: seq<Entry>, r: Request): seq<Visit> {
    var tier := TierOf(cfg, Requests(log), r.ip);
    if TierAfter(tier, r, r.ip) != tier then [] else Visits(cfg, log, r.ip)
  }

  lemma {:induction false} LogRequests(cfg: Config, evicts: bool, start: real, rs: seq<Request>)
    ensures Requests(Log(cfg, evicts, start, rs)) == rs
  {
    if rs != [] {
      var front, r := rs[..|rs| - 1], rs[|rs| - 1];
      LogRequests(cfg, evicts, start, front);
      var log := Log(cfg, evicts, start, front);
      forall i | 0 <= i < |rs| ensures Requests(Log(cfg, evicts, start, rs))[i] == rs[i] {
        if i < |front| { assert Requests(log)[i] == front[i]; }
      }
    }
  }

  lemma VisitsSnoc(cfg: Config, evicts: bool, start: real, rs: seq<Request>, r: Request, ip: string)
    ensures Visits(cfg, Log(cfg, evicts, start, rs + [r]), ip)
         == if r.ip == ip
            then Current(cfg, Log(cfg, evicts, start, rs), r)
                 + [Visit(r.consumeAt, Decision(cfg, evicts, start, rs, r))]
            else Visits(cfg, Log(cfg, evicts, start, rs), ip)
  {
  }

  /** The level a request finds is the tightest window over the visits that still bind it. */
  lemma OfferedIsMinWindow(cfg: Config, evicts: bool, start: real, rs: seq<Request>, r: Request)
    requires Timed(start, rs) && (evicts ==> cfg.cleanupInterval >= PERIOD)
    requires Level(cfg, After(cfg, evicts, start, rs), r.ip, r.consumeAt)
          == MinWindow(TierOf(cfg, rs, r.ip), Visits(cfg, Log(cfg, evicts, start, rs), r.ip), r.consumeAt)
    ensures Offered(cfg, After(cfg, evicts, start, rs), r)
         == MinWindow(TierAfter(TierOf(cfg, rs, r.ip), r, r.ip),
                      Current(cfg, Log(cfg, evicts, start, rs), r), r.consumeAt)
  {
    RunInv(cfg, evicts, start, rs, r.ip);
    LogRequests(cfg, evicts, start, rs);
  }

  ghost predicate LevelMatches(cfg: Config, evicts: bool, start: real, rs: seq<Request>, ip: string, t: real) {
    Level(cfg, After(cfg, evicts, start, rs), ip, t)
    == MinWindow(TierOf(cfg, rs, ip), Visits(cfg, Log(cfg, evicts, start, rs), ip), t)
  }

  /** The level of the requesting address after its request ... */
  lemma OwnLevel(cfg: Config, evicts: bool, start: real, rs: seq<Request>, r: Request, t: real, next: real)
    requires Timed(start, rs) && Reads(r, Now(start, rs)) && (evicts ==> cfg.cleanupInterval >= PERIOD)
             && r.consumeAt <= t
    requires next == Next(TierAfter(TierOf(cfg, rs, r.ip), r, r.ip), Offered(cfg, After(cfg, evicts, start, rs), r),
                          Decision(cfg, evicts, start, rs, r), t - r.consumeAt)
    ensures Level(cfg, After(cfg, evicts, start, rs + [r]), r.ip, t) == next
  {
    var s := After(cfg, evicts, start, rs);
    RunInv(cfg, evicts, start, rs, r.ip);
    StepLevels(cfg, evicts, s, Now(start, rs), r, r.ip);
    LevelLater(cfg, Decided(cfg, Swept(cfg, evicts, s, r), r), r.ip, r.consumeAt, t);
    Snoc(cfg, evicts, start, rs, r);
  }

  /** ... and its tightest window follow the same recurrence. */
  lemma OwnWindow(cfg: Config, evicts: bool, start: real, rs: seq<Request>, r: Request, t: real, next: real)
    requires r.consumeAt <= t
    requires next == Next(TierAfter(TierOf(cfg, rs, r.ip), r, r.ip),
                          MinWindow(TierAfter(TierOf(cfg, rs, r.ip), r, r.ip),
                                    Current(cfg, Log(cfg, evicts, start, rs), r), r.consumeAt),
                          Decision(cfg, evicts, start, rs, r), t - r.consumeAt)
    ensures MinWindow(TierOf(cfg, rs + [r], r.ip), Visits(cfg, Log(cfg, evicts, start, rs + [r]), r.ip), t) == next
  {
    var tier := TierAfter(TierOf(cfg, rs, r.ip), r, r.ip);
    var h, v := Current(cfg, Log(cfg, evicts, start, rs), r), Visit(r.consumeAt, Decision(cfg, evicts, start, rs, r));
    assert TierOf(cfg, rs + [r], r.ip) == tier by { Snoc(cfg, evicts, start, rs, r); }
    assert Visits(cfg, Log(cfg, evicts, start, rs + [r]), r.ip) == h + [v] by {
      VisitsSnoc(cfg, evicts, start, rs, r, r.ip);
    }
    MinWindowAppend(tier, h, v, t);
  }

  lemma OwnLevelStep(cfg: Config, evicts: bool, start: real, rs: seq<Request>, r: Request, t: real)
    requires Timed(start, rs) && Reads(r, Now(start, rs)) && (evicts ==> cfg.cleanupInterval >= PERIOD)
             && r.consumeAt <= t
    requires LevelMatches(cfg, evicts, start, rs, r.ip, r.consumeAt)
    ensures LevelMatches(cfg, evicts, start, rs + [r], r.ip, t)
  {
    hide After, Log, Level, MinWindow, Visits, Current, Decision, Timed, Next;
    var tier, found := TierAfter(TierOf(cfg, rs, r.ip), r, r.ip), Offered(cfg, After(cfg, evicts, start, rs), r);
    var next := Next(tier, found, Decision(cfg, evicts, start, rs, r), t - r.consumeAt);
    OfferedIsMinWindow(cfg, evicts, start, rs, r);
    OwnLevel(cfg, evicts, start, rs, r, t, next);
    OwnWindow(cfg, evicts, start, rs, r, t, next);
  }

  lemma OtherLevelStep(cfg: Config, evicts: bool, start: real, rs: seq<Request>, r: Request, ip: string, t: real)
    requires Timed(start, rs) && Reads(r, Now(start, rs)) && (evicts ==> cfg.cleanupInterval >= PERIOD)
             && r.consumeAt <= t
    requires ip != r.ip && LevelMatches(cfg, evicts, start, rs, ip, t)
    ensures LevelMatches(cfg, evicts, start, rs + [r], ip, t)
  {
    var s := After(cfg, evicts, start, rs);
    var s' := Decided(cfg, Swept(cfg, evicts, s, r), r);
    RunInv(cfg, evicts, start, rs, ip);
    StepLevels(cfg, evicts, s, Now(start, rs), r, ip);
    LevelLater(cfg, s, ip, Now(start, rs), r.consumeAt);
    LevelsAgreeLater(cfg, s, s', ip, Now(start, rs), r.consumeAt, t);
    Snoc(cfg, evicts, start, rs, r);
    VisitsSnoc(cfg, evicts, start, rs, r, ip);
  }

  lemma LevelsAgreeLater(cfg: Config, s: Limiter, s': Limiter, ip: string, now: real, at: real, t: real)
    requires Inv(cfg, s, now) && Inv(cfg, s', at) && now <= at <= t
    requires TierFor(cfg, s, ip) == TierFor(cfg, s', ip) && Level(cfg, s, ip, at) == Level(cfg, s', ip, at)
    ensures Level(cfg, s, ip, t) == Level(cfg, s', ip, t)
  {
  }

  lemma LevelStart(cfg: Config, evicts: bool, start: real, ip: string, t: real)
    ensures LevelMatches(cfg, evicts, start, [], ip, t)
  {
  }

  /** What every level is, in terms of the log alone. */
  lemma {:induction false} LevelIsMinWindow(cfg: Config, evicts: bool, start: real, rs: seq<Request>, ip: string,
                                            t: real)
    requires Timed(start, rs) && (evicts ==> cfg.cleanupInterval >= PERIOD) && Now(start, rs) <= t
    ensures LevelMatches(cfg, evicts, start, rs, ip, t)
  {
    hide After, Log, LevelMatches;
    if rs == [] {
      LevelStart(cfg, evicts, start, ip, t);
    } else {
      var front, r := rs[..|rs| - 1], rs[|rs| - 1];
      assert front + [r] == rs;
      if ip == r.ip {
        LevelIsMinWindow(cfg, evicts, start, front, ip, r.consumeAt);
        OwnLevelStep(cfg, evicts, start, front, r, t);
      } else {
        LevelIsMinWindow(cfg, evicts, start, front, ip, t);
        OtherLevelStep(cfg, evicts, start, front, r, ip, t);
      }
    }
  }

  /**
   * The two-number bucket decides exactly as the rule that scans the whole history of the
   * address since its last tier change, whatever was evicted in between.
   */
  lemma DecisionMatchesHistory(cfg: Config, evicts: bool, start: real, rs: seq<Request>, r: Request)
    requires Timed(start, rs + [r]) && (evicts ==> cfg.cleanupInterval >= PERIOD)
    ensures Decision(cfg, evicts, start, rs, r)
       <==> FitsAllWindows(TierAfter(TierOf(cfg, rs, r.ip), r, r.ip),
                           Current(cfg, Log(cfg, evicts, start, rs), r), r.consumeAt)
  {
    Snoc(cfg, evicts, start, rs, r);
    RunInv(cfg, evicts, start, rs, r.ip);
    StepLevels(cfg, evicts, After(cfg, evicts, start, rs), Now(start, rs), r, r.ip);
    LevelIsMinWindow(cfg, evicts, start, rs, r.ip, r.consumeAt);
    OfferedIsMinWindow(cfg, evicts, start, rs, r);
    MinWindowMeans(TierAfter(TierOf(cfg, rs, r.ip), r, r.ip),
                   Current(cfg, Log(cfg, evicts, start, rs), r), r.consumeAt);
  }

  // ---------- Rate bound ----------

  function GrantCount(log: seq<Entry>, ip: string): nat {
    if log == [] then 0
    else
      var e := log[|log| - 1];
      GrantCount(log[..|log| - 1], ip) + (if e.req.ip == ip && e.granted then 1 else 0)
  }

  /**
   * What the tiers alone allow `ip` over the window `seg` of the run `pre + seg`: one full
   * bucket, the refill between the first and the last request of the window at the rates
   * then in force, and one new bucket for each tier switch.
   */
  function Budget(cfg: Config, pre: seq<Request>, seg: seq<Request>, ip: string): real
    requires seg != []
    decreases |seg|
  {
    var front, r := seg[..|seg| - 1], seg[|seg| - 1];
    var tier := TierOf(cfg, pre + front, ip);
    var tier' := TierAfter(tier, r, ip);
    (if front == [] then Cap(tier)
     else Budget(cfg, pre, front, ip) + Gain(tier, r.consumeAt - front[|front| - 1].consumeAt))
    + (if tier' != tier then Cap(tier') else 0.0)
  }

  lemma CountSnoc(log: seq<Entry>, n: nat, e: Entry, ip: string)
    requires n <= |log|
    ensures GrantCount((log + [e])[n..], ip)
            == GrantCount(log[n..], ip) + (if e.req.ip == ip && e.granted then 1 else 0)
  {
    assert (log + [e])[n..] == log[n..] + [e];
    assert (log[n..] + [e])[..|log| - n] == log[n..];
  }

  /** One request pays for its grant out of the level it finds. */
  lemma SpendOne(cfg: Config, evicts: bool, s: Limiter, now: real, r: Request, ip: string)
    requires Inv(cfg, s, now) && Reads(r, now) && (evicts ==> cfg.cleanupInterval >= PERIOD)
    ensures var s1 := Swept(cfg, evicts, s, r); var tier := TierFor(cfg, s, ip); var tier' := TierAfter(tier, r, ip);
            && (if r.ip == ip && Granted(cfg, s1, r) then 1.0 else 0.0)
               + Level(cfg, Decided(cfg, s1, r), ip, r.consumeAt)
               <= Level(cfg, s, ip, r.consumeAt) + (if tier' != tier then Cap(tier') else 0.0)
            && Level(cfg, Decided(cfg, s1, r), ip, r.consumeAt) >= 0.0
  {
    StepLevels(cfg, evicts, s, now, r, ip);
    LevelLater(cfg, s, ip, now, r.consumeAt);
    LevelLater(cfg, Decided(cfg, Swept(cfg, evicts, s, r), r), ip, r.consumeAt, r.consumeAt);
  }

  ghost predicate InBudget(cfg: Config, evicts: bool, start: real, pre: seq<Request>, rs: seq<Request>, ip: string,
                           budget: real)
    requires |pre| <= |rs|
  {
    GrantCount(Log(cfg, evicts, start, rs)[|pre|..], ip) as real
      + Level(cfg, After(cfg, evicts, start, rs), ip, Now(start, rs)) <= budget
  }

  lemma BudgetStep(cfg: Config, evicts: bool, start: real, pre: seq<Request>, rs: seq<Request>, r: Request,
                   ip: string, budget: real)
    requires |pre| <= |rs| && Timed(start, rs) && Reads(r, Now(start, rs)) && (evicts ==> cfg.cleanupInterval >= PERIOD)
    requires if |pre| == |rs| then budget == Cap(TierOf(cfg, rs, ip))
             else InBudget(cfg, evicts, start, pre, rs, ip,
                           budget - Gain(TierOf(cfg, rs, ip), r.consumeAt - Now(start, rs)))
    ensures var tier := TierOf(cfg, rs, ip); var tier' := TierAfter(tier, r, ip);
            InBudget(cfg, evicts, start, pre, rs + [r], ip, budget + (if tier' != tier then Cap(tier') else 0.0))
    ensures Level(cfg, After(cfg, evicts, start, rs + [r]), ip, r.consumeAt) >= 0.0
  {
    hide After, Log, Level, Inv, Timed, Decided, Swept, TierOf, Gain, TierFor;
    var s := After(cfg, evicts, start, rs);
    RunInv(cfg, evicts, start, rs, ip);
    SpendOne(cfg, evicts, s, Now(start, rs), r, ip);
    LevelLater(cfg, s, ip, Now(start, rs), r.consumeAt);
    Snoc(cfg, evicts, start, rs, r);
    var log := Log(cfg, evicts, start, rs);
    CountSnoc(log, |pre|, Entry(r, Decision(cfg, evicts, start, rs, r)), ip);
    if |pre| == |rs| { assert log[|pre|..] == []; }
  }

  lemma {:induction false} BudgetHolds(cfg: Config, evicts: bool, start: real, pre: seq<Request>, seg: seq<Request>,
                                       ip: string)
    requires seg != [] && Timed(start, pre + seg) && (evicts ==> cfg.cleanupInterval >= PERIOD)
    ensures InBudget(cfg, evicts, start, pre, pre + seg, ip, Budget(cfg, pre, seg, ip))
    ensures Level(cfg, After(cfg, evicts, start, pre + seg), ip, Now(start, pre + seg)) >= 0.0
    decreases |seg|
  {
    hide After, Log, GrantCount, InBudget, Timed, TierOf, Level, Gain;
    var front, r := seg[..|seg| - 1], seg[|seg| - 1];
    var rs := pre + front;
    assert rs + [r] == pre + seg;
    Snoc(cfg, evicts, start, rs, r);
    var tier := TierOf(cfg, rs, ip);
    if front == [] {
      BudgetStep(cfg, evicts, start, pre, rs, r, ip, Cap(tier));
    } else {
      BudgetHolds(cfg, evicts, start, pre, front, ip);
      assert Now(start, rs) == front[|front| - 1].consumeAt;
      BudgetStep(cfg, evicts, start, pre, rs, r, ip,
                 Budget(cfg, pre, front, ip) + Gain(tier, r.consumeAt - Now(start, rs)));
    }
  }

  /** Over any window of any run, evictions and tier switches included, grants stay within the budget. */
  lemma RateBound(cfg: Config, evicts: bool, start: real, pre: seq<Request>, seg: seq<Request>, ip: string)
    requires seg != [] && Timed(start, pre + seg) && (evicts ==> cfg.cleanupInterval >= PERIOD)
    ensures GrantCount(Log(cfg, evicts, start, pre + seg)[|pre|..], ip) as real <= Budget(cfg, pre, seg, ip)
  {
    BudgetHolds(cfg, evicts, start, pre, seg, ip);
  }

  /** In particular, while the tier is unchanged: one bucket plus the rate times the length of the window. */
  lemma RateBoundOneTier(cfg: Config, evicts: bool, start: real, pre: seq<Request>, seg: seq<Request>, ip: string,
                         tier: Tier)
    requires seg != [] && Timed(start, pre + seg) && (evicts ==> cfg.cleanupInterval >= PERIOD)
    requires forall k :: 0 <= k <= |seg| ==> TierOf(cfg, pre + seg[..k], ip) == tier
    ensures GrantCount(Log(cfg, evicts, start, pre + seg)[|pre|..], ip) as real
         <= Cap(tier) + Gain(tier, seg[|seg| - 1].consumeAt - seg[0].consumeAt)
  {
    RateBound(cfg, evicts, start, pre, seg, ip);
    BudgetOneTier(cfg, pre, seg, ip, tier);
  }

  lemma {:induction false} BudgetOneTier(cfg: Config, pre: seq<Request>, seg: seq<Request>, ip: string, tier: Tier)
    requires seg != [] && forall k :: 0 <= k <= |seg| ==> TierOf(cfg, pre + seg[..k], ip) == tier
    ensures Budget(cfg, pre, seg, ip) == Cap(tier) + Gain(tier, seg[|seg| - 1].consumeAt - seg[0].consumeAt)
    decreases |seg|
  {
    hide TierOf, Cap;
    var front, r := seg[..|seg| - 1], seg[|seg| - 1];
    assert pre + seg[..|seg| - 1] == pre + front && seg[..|seg|] == seg;
    assert pre + front + [r] == pre + seg;
    Snoc(cfg, false, 0.0, pre + front, r);
    if front != [] {
      forall k | 0 <= k <= |front| ensures TierOf(cfg, pre + front[..k], ip) == tier {
        assert front[..k] == seg[..k];
      }
      BudgetOneTier(cfg, pre, front, ip, tier);
    }
  }
}
