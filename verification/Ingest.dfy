/**
 The swap ingest worker of app/services/price_ingest.py and the deduplicated trades table it
 writes (app/services/questdb_client.py): a high-water mark over polls that may fail, and
 writes that may stop half way.
 */
module Ingest {
  import opened Options
  import opened Text

  // ---------- Swaps and rows ----------

  datatype Swap = Swap(id: string, ts: int, token0: string, token1: string, pair: string,
                       amount0In: real, amount1In: real, amount0Out: real, amount1Out: real, amountUsd: real)

  datatype Side = Buy | Sell

  datatype MarketType = Spot | Predict | Perps

  datatype TradeRow = TradeRow(ts: int, marketId: string, marketType: MarketType, price: real, amount: real,
                               amountUsd: real, side: Side, txHash: string, pairAddress: string)

  datatype Key = Key(ts: int, marketId: string, txHash: string)

  function KeyOfRow(t: TradeRow): Key { Key(t.ts, t.marketId, t.txHash) }

  function MarketId(s: Swap): string { s.token0 + "-" + s.token1 }

  function KeyOf(s: Swap): Key { Key(s.ts, MarketId(s), s.id) }

  predicate Sells(s: Swap) { s.amount0In > 0.0 && s.amount1Out > 0.0 }
  predicate Buys(s: Swap) { s.amount1In > 0.0 && s.amount0Out > 0.0 }
  predicate Tradable(s: Swap) { Sells(s) || Buys(s) }

  predicate Mentions(symbol: string, words: seq<string>) {
    exists w <- words :: Contains(w, Upper(symbol))
  }

  predicate Predicts(symbol: string) { Mentions(symbol, ["YES", "NO", "PREDICT"]) }
  predicate Perpetual(symbol: string) { Mentions(symbol, ["PERP", "LONG", "SHORT"]) }

  /** Prediction words win within a symbol, and the first symbol with any word wins over the second. */
  function Classify(token0: string, token1: string): MarketType {
    if Predicts(token0) || (Predicts(token1) && !Perpetual(token0)) then Predict
    else if Perpetual(token0) || Perpetual(token1) then Perps
    else Spot
  }

  method ClassifyMarket(token0: string, token1: string) returns (kind: MarketType)
    ensures kind == Classify(token0, token1)
  {
    hide Predicts, Perpetual;
    var symbols := [token0, token1];
    for i := 0 to 2
      invariant i >= 1 ==> !Predicts(token0) && !Perpetual(token0)
      invariant i >= 2 ==> !Predicts(token1) && !Perpetual(token1)
    {
      if Predicts(symbols[i]) {
        return Predict;
      }
      if Perpetual(symbols[i]) {
        return Perps;
      }
    }
    kind := Spot;
  }

  function RowOf(s: Swap): TradeRow
    requires Tradable(s)
  {
    if Sells(s) then
      TradeRow(s.ts, MarketId(s), Classify(s.token0, s.token1), s.amount0In / s.amount1Out, s.amount1Out, s.amountUsd,
               Sell, s.id, s.pair)
    else
      TradeRow(s.ts, MarketId(s), Classify(s.token0, s.token1), s.amount1In / s.amount0Out, s.amount0Out, s.amountUsd,
               Buy, s.id, s.pair)
  }

  /** Price times amount is what the trader paid in, and token 0 is sold exactly if it went in. */
  lemma RowMeaning(s: Swap)
    requires Tradable(s)
    ensures var t := RowOf(s);
            && t.price > 0.0 && t.amount > 0.0 && KeyOfRow(t) == KeyOf(s)
            && t.ts == s.ts && t.marketId == s.token0 + "-" + s.token1 && t.txHash == s.id
            && t.amountUsd == s.amountUsd && t.pairAddress == s.pair
            && (t.side == Sell <==> Sells(s))
            && t.price * t.amount == (if t.side == Sell then s.amount0In else s.amount1In)
            && t.amount == (if t.side == Sell then s.amount1Out else s.amount0Out)
  {
  }

  /** The market type, with the words written out. */
  lemma TypeMeans(token0: string, token1: string)
    ensures var u, v := Upper(token0), Upper(token1);
            var predicts0 := Contains("YES", u) || Contains("NO", u) || Contains("PREDICT", u);
            var predicts1 := Contains("YES", v) || Contains("NO", v) || Contains("PREDICT", v);
            var perpetual0 := Contains("PERP", u) || Contains("LONG", u) || Contains("SHORT", u);
            var perpetual1 := Contains("PERP", v) || Contains("LONG", v) || Contains("SHORT", v);
            && (Classify(token0, token1) == Predict <==> predicts0 || (predicts1 && !perpetual0))
            && (Classify(token0, token1) == Spot <==> !predicts0 && !predicts1 && !perpetual0 && !perpetual1)
  {
    WordsMean(token0);
    WordsMean(token1);
  }

  lemma WordsMean(symbol: string)
    ensures var u := Upper(symbol);
            && (Predicts(symbol) <==> Contains("YES", u) || Contains("NO", u) || Contains("PREDICT", u))
            && (Perpetual(symbol) <==> Contains("PERP", u) || Contains("LONG", u) || Contains("SHORT", u))
  {
    hide Contains, Upper;
    var predict, perps := ["YES", "NO", "PREDICT"], ["PERP", "LONG", "SHORT"];
    assert "YES" in predict && "NO" in predict && "PREDICT" in predict;
    assert "PERP" in perps && "LONG" in perps && "SHORT" in perps;
  }

  // ---------- The table ----------

  /** Rows with the same key replace each other. */
  function Upsert(rows: map<Key, TradeRow>, trades: seq<TradeRow>): map<Key, TradeRow> {
    if trades == [] then rows
    else
      var last := trades[|trades| - 1];
      Upsert(rows, trades[..|trades| - 1])[KeyOfRow(last) := last]
  }

  lemma {:induction false} KeyUntouched(rows: map<Key, TradeRow>, trades: seq<TradeRow>, k: Key)
    requires forall t <- trades :: KeyOfRow(t) != k
    ensures k in Upsert(rows, trades) <==> k in rows
    ensures k in rows ==> Upsert(rows, trades)[k] == rows[k]
  {
    if trades != [] {
      KeyUntouched(rows, trades[..|trades| - 1], k);
    }
  }

  /** Of the trades with one key the last one stays. */
  lemma {:induction false} LastTradeWins(rows: map<Key, TradeRow>, trades: seq<TradeRow>, i: nat)
    requires i < |trades| && forall j :: i < j < |trades| ==> KeyOfRow(trades[j]) != KeyOfRow(trades[i])
    ensures KeyOfRow(trades[i]) in Upsert(rows, trades) && Upsert(rows, trades)[KeyOfRow(trades[i])] == trades[i]
    decreases |trades|
  {
    if i < |trades| - 1 {
      LastTradeWins(rows, trades[..|trades| - 1], i);
    }
  }

  /** A bulk write lands completely, or fails after an arbitrary part of the rows has landed. */
  datatype Write = Complete | Broken(landed: set<Key>)

  predicate Lands(w: Write, t: TradeRow) { w.Complete? || KeyOfRow(t) in w.landed }

  function Landed(w: Write, trades: seq<TradeRow>): seq<TradeRow> {
    if trades == [] then []
    else
      var last := trades[|trades| - 1];
      Landed(w, trades[..|trades| - 1]) + (if Lands(w, last) then [last] else [])
  }

  class TradesTable {
    var rows: map<Key, TradeRow>

    constructor ()
      ensures rows == map[]
    {
      rows := map[];
    }

    method IngestTrades(trades: seq<TradeRow>, w: Write) returns (ok: bool)
      modifies this
      ensures rows == Upsert(old(rows), Landed(w, trades))
      ensures ok <==> w.Complete?
    {
      var i := 0;
      while i < |trades|
        invariant 0 <= i <= |trades|
        invariant rows == Upsert(old(rows), Landed(w, trades[..i]))
      {
        ghost var landed := Landed(w, trades[..i]);
        assert trades[..i + 1][..i] == trades[..i];
        assert Landed(w, trades[..i + 1]) == landed + (if Lands(w, trades[i]) then [trades[i]] else []);
        if Lands(w, trades[i]) {
          rows := rows[KeyOfRow(trades[i]) := trades[i]];
          assert (landed + [trades[i]])[..|landed|] == landed;
        } else {
          assert landed + [] == landed;
        }
        i := i + 1;
      }
      assert trades[..|trades|] == trades;
      ok := w.Complete?;
    }
  }

  // ---------- One poll ----------

  function NewSwaps(mark: int, swaps: seq<Swap>): seq<Swap> {
    if swaps == [] then []
    else
      var last := swaps[|swaps| - 1];
      NewSwaps(mark, swaps[..|swaps| - 1]) + (if last.ts > mark then [last] else [])
  }

  function Trades(swaps: seq<Swap>): seq<TradeRow> {
    if swaps == [] then []
    else
      var last := swaps[|swaps| - 1];
      Trades(swaps[..|swaps| - 1]) + (if Tradable(last) then [RowOf(last)] else [])
  }

  function MaxTs(swaps: seq<Swap>): (m: int)
    requires swaps != []
    ensures forall s <- swaps :: s.ts <= m
    ensures exists s <- swaps :: s.ts == m
  {
    var last := swaps[|swaps| - 1];
    if |swaps| == 1 then last.ts
    else
      var m := MaxTs(swaps[..|swaps| - 1]);
      assert forall s <- swaps :: s == last || s in swaps[..|swaps| - 1];
      if last.ts > m then last.ts else m
  }

  lemma MaxTsOne(swaps: seq<Swap>)
    requires |swaps| == 1
    ensures MaxTs(swaps) == swaps[0].ts
  {
  }

  lemma MaxTsSnoc(swaps: seq<Swap>, s: Swap)
    requires swaps != []
    ensures MaxTs(swaps + [s]) == if s.ts > MaxTs(swaps) then s.ts else MaxTs(swaps)
  {
  }

  datatype State = State(mark: int, rows: map<Key, TradeRow>)

  /** `response` is None when fetching raised. */
  function Polled(s: State, response: Option<seq<Swap>>, w: Write): State {
    var found := NewSwaps(s.mark, if response.Some? then response.value else []);
    var trades := Trades(found);
    if trades == [] then s
    else State(if w.Complete? then MaxTs(found) else s.mark, Upsert(s.rows, Landed(w, trades)))
  }

  class PriceIngestWorker {
    const qdb: TradesTable
    var lastSwapTs: int

    ghost function Value(): State
      reads this, qdb
    {
      State(lastSwapTs, qdb.rows)
    }

    constructor (qdb: TradesTable)
      ensures this.qdb == qdb && Value() == State(0, qdb.rows)
    {
      this.qdb := qdb;
      lastSwapTs := 0;
    }

    /** The swaps of an answer that lie above the mark. */
    method SelectNew(swaps: seq<Swap>) returns (newSwaps: seq<Swap>)
      ensures newSwaps == NewSwaps(lastSwapTs, swaps)
    {
      newSwaps := [];
      for i := 0 to |swaps|
        invariant newSwaps == NewSwaps(lastSwapTs, swaps[..i])
      {
        assert swaps[..i + 1][..i] == swaps[..i];
        if swaps[i].ts > lastSwapTs {
          newSwaps := newSwaps + [swaps[i]];
        }
      }
      assert swaps[..|swaps|] == swaps;
    }

    /** One trade per swap that moves both tokens; price and side come from the direction, the type from the symbols. */
    method DeriveTrades(newSwaps: seq<Swap>) returns (trades: seq<TradeRow>)
      ensures trades == Trades(newSwaps)
    {
      trades := [];
      for i := 0 to |newSwaps|
        invariant trades == Trades(newSwaps[..i])
      {
        var s := newSwaps[i];
        assert newSwaps[..i + 1][..i] == newSwaps[..i];
        var price, amount, side;
        if s.amount0In > 0.0 && s.amount1Out > 0.0 {
          price, amount, side := s.amount0In / s.amount1Out, s.amount1Out, Sell;
        } else if s.amount1In > 0.0 && s.amount0Out > 0.0 {
          price, amount, side := s.amount1In / s.amount0Out, s.amount0Out, Buy;
        } else {
          continue;
        }
        var kind := ClassifyMarket(s.token0, s.token1);
        trades := trades + [TradeRow(s.ts, MarketId(s), kind, price, amount, s.amountUsd, side, s.id, s.pair)];
      }
      assert newSwaps[..|newSwaps|] == newSwaps;
    }

    method LatestTs(newSwaps: seq<Swap>) returns (latest: int)
      requires newSwaps != []
      ensures latest == MaxTs(newSwaps)
    {
      hide MaxTs;
      latest := newSwaps[0].ts;
      MaxTsOne(newSwaps[..1]);
      for i := 1 to |newSwaps|
        invariant latest == MaxTs(newSwaps[..i])
      {
        MaxTsSnoc(newSwaps[..i], newSwaps[i]);
        assert newSwaps[..i] + [newSwaps[i]] == newSwaps[..i + 1];
        if newSwaps[i].ts > latest {
          latest := newSwaps[i].ts;
        }
      }
      assert newSwaps[..|newSwaps|] == newSwaps;
    }

    method PollSwaps(response: Option<seq<Swap>>, w: Write)
      modifies this, qdb
      ensures Value() == Polled(old(Value()), response, w)
    {
      if response.None? || response.value == [] {
        return;
      }
      var newSwaps := SelectNew(response.value);
      if newSwaps == [] {
        return;
      }
      var trades := DeriveTrades(newSwaps);
      if trades != [] {
        var ok := qdb.IngestTrades(trades, w);
        if ok {
          var latest := LatestTs(newSwaps);
          lastSwapTs := latest;
        }
      }
    }
  }

  // ---------- Runs ----------

  /** `feed` is everything the subgraph knew when the poll was answered. */
  datatype Poll = Poll(feed: set<Swap>, response: Option<seq<Swap>>, write: Write)

  function After(polls: seq<Poll>): State {
    if polls == [] then State(0, map[])
    else
      var p := polls[|polls| - 1];
      Polled(After(polls[..|polls| - 1]), p.response, p.write)
  }

  function Feed(polls: seq<Poll>): set<Swap> {
    if polls == [] then {} else polls[|polls| - 1].feed
  }

  const LIMIT := 200

  predicate DistinctIds(feed: set<Swap>) {
    forall s, s' :: s in feed && s' in feed && s.id == s'.id ==> s == s'
  }

  /** The subgraph's answer: the first 200 of its swaps, newest first. */
  predicate Newest(feed: set<Swap>, swaps: seq<Swap>) {
    && (forall s <- swaps :: s in feed)
    && (forall i, j :: 0 <= i < j < |swaps| ==> swaps[i] != swaps[j])
    && |swaps| <= LIMIT
    && (forall s <- feed :: s in swaps || (|swaps| == LIMIT && forall s' <- swaps :: s.ts <= s'.ts))
  }

  /** Swaps that arrive after `known` are all later than everything in `known`, and times are positive. */
  predicate InOrder(known: set<Swap>, feed: set<Swap>) {
    && known <= feed
    && (forall s <- feed :: s.ts > 0)
    && (forall s, s' :: s in feed && s !in known && s' in known ==> s.ts > s'.ts)
  }

  predicate Answered(p: Poll) {
    p.response.Some? ==> Newest(p.feed, p.response.value)
  }

  /** The feed assumptions: distinct ids, no late arrivals, and at most 200 swaps above the mark at each answer. */
  predicate WellFed(polls: seq<Poll>) {
    polls == []
    || var front, p := polls[..|polls| - 1], polls[|polls| - 1];
       && WellFed(front) && Answered(p) && DistinctIds(p.feed) && InOrder(Feed(front), p.feed)
       && (p.response.Some? ==> |set s | s in p.feed && s.ts > After(front).mark| <= LIMIT)
  }

  // ---------- What a table holds ----------

  /** Every row is the row of a tradable swap of the feed, under that swap's key. */
  predicate RowsFrom(rows: map<Key, TradeRow>, feed: set<Swap>) {
    forall k :: k in rows ==> exists s :: s in feed && Tradable(s) && k == KeyOf(s) && rows[k] == RowOf(s)
  }

  /** Exactly the tradable swaps of `feed`, one row each. */
  predicate Holds(rows: map<Key, TradeRow>, feed: set<Swap>) {
    RowsFrom(rows, feed) && forall s :: s in feed && Tradable(s) ==> KeyOf(s) in rows && rows[KeyOf(s)] == RowOf(s)
  }

  lemma RowDetermined(rows: map<Key, TradeRow>, feed: set<Swap>, s: Swap)
    requires RowsFrom(rows, feed) && DistinctIds(feed) && s in feed && Tradable(s) && KeyOf(s) in rows
    ensures rows[KeyOf(s)] == RowOf(s)
  {
  }

  lemma {:induction false} NewSwapsMember(mark: int, swaps: seq<Swap>, s: Swap)
    ensures s in NewSwaps(mark, swaps) <==> s in swaps && s.ts > mark
  {
    if swaps != [] {
      NewSwapsMember(mark, swaps[..|swaps| - 1], s);
      assert swaps == swaps[..|swaps| - 1] + [swaps[|swaps| - 1]];
    }
  }

  lemma {:induction false} TradesMember(swaps: seq<Swap>, t: TradeRow)
    ensures t in Trades(swaps) <==> exists s <- swaps :: Tradable(s) && t == RowOf(s)
  {
    if swaps != [] {
      var front, last := swaps[..|swaps| - 1], swaps[|swaps| - 1];
      TradesMember(front, t);
      assert swaps == front + [last];
    }
  }

  lemma {:induction false} LandedMember(w: Write, trades: seq<TradeRow>, t: TradeRow)
    ensures t in Landed(w, trades) <==> t in trades && Lands(w, t)
  {
    if trades != [] {
      var front, last := trades[..|trades| - 1], trades[|trades| - 1];
      LandedMember(w, front, t);
      assert trades == front + [last];
    }
  }

  /** Upserting rows of the feed keeps the table a table of the feed, and adds just their keys. */
  lemma {:induction false} UpsertRows(rows: map<Key, TradeRow>, trades: seq<TradeRow>, feed: set<Swap>)
    requires RowsFrom(rows, feed)
    requires forall t <- trades :: exists s <- feed :: Tradable(s) && t == RowOf(s)
    ensures RowsFrom(Upsert(rows, trades), feed)
    ensures forall k :: k in Upsert(rows, trades) <==> k in rows || exists t <- trades :: k == KeyOfRow(t)
  {
    if trades != [] {
      var front, last := trades[..|trades| - 1], trades[|trades| - 1];
      assert trades == front + [last];
      assert last in trades && forall t <- front :: t in trades;
      UpsertRows(rows, front, feed);
      var s :| s in feed && Tradable(s) && last == RowOf(s);
      assert KeyOfRow(last) == KeyOf(s);
    }
  }

  function FoundTrades(st: State, response: Option<seq<Swap>>): seq<TradeRow> {
    Trades(NewSwaps(st.mark, if response.Some? then response.value else []))
  }

  lemma FoundTrade(st: State, response: Option<seq<Swap>>, t: TradeRow) returns (s: Swap)
    requires t in FoundTrades(st, response)
    ensures response.Some? && s in response.value && s.ts > st.mark && Tradable(s) && t == RowOf(s)
  {
    var swaps := if response.Some? then response.value else [];
    TradesMember(NewSwaps(st.mark, swaps), t);
    s :| s in NewSwaps(st.mark, swaps) && Tradable(s) && t == RowOf(s);
    NewSwapsMember(st.mark, swaps, s);
  }

  lemma TradeFound(st: State, response: Option<seq<Swap>>, s: Swap)
    requires response.Some? && s in response.value && s.ts > st.mark && Tradable(s)
    ensures RowOf(s) in FoundTrades(st, response)
  {
    NewSwapsMember(st.mark, response.value, s);
    TradesMember(NewSwaps(st.mark, response.value), RowOf(s));
  }

  lemma PollRows(st: State, response: Option<seq<Swap>>, w: Write, feed: set<Swap>)
    requires RowsFrom(st.rows, feed)
    requires response.Some? ==> forall x <- response.value :: x in feed
    ensures RowsFrom(Polled(st, response, w).rows, feed)
    ensures forall k :: k in Polled(st, response, w).rows
              <==> k in st.rows || exists t <- Landed(w, FoundTrades(st, response)) :: k == KeyOfRow(t)
  {
    var trades := FoundTrades(st, response);
    forall t | t in Landed(w, trades) ensures exists x <- feed :: Tradable(x) && t == RowOf(x) {
      LandedMember(w, trades, t);
      var x := FoundTrade(st, response, t);
    }
    UpsertRows(st.rows, Landed(w, trades), feed);
  }

  /**
   * What one poll stores, with no assumption on the feed but distinct ids: a tradable swap of
   * the response is stored by it exactly if it lies above the mark and the write reached it.
   */
  lemma PollStores(st: State, response: Option<seq<Swap>>, w: Write, feed: set<Swap>, s: Swap)
    requires RowsFrom(st.rows, feed) && DistinctIds(feed) && s in feed && Tradable(s)
    requires response.Some? ==> forall x <- response.value :: x in feed
    ensures RowsFrom(Polled(st, response, w).rows, feed)
    ensures KeyOf(s) in Polled(st, response, w).rows
       <==> KeyOf(s) in st.rows || (response.Some? && s in response.value && s.ts > st.mark && Lands(w, RowOf(s)))
  {
    var trades, t := FoundTrades(st, response), RowOf(s);
    PollRows(st, response, w, feed);
    assert KeyOfRow(t) == KeyOf(s);
    if response.Some? && s in response.value && s.ts > st.mark && Lands(w, t) {
      TradeFound(st, response, s);
      LandedMember(w, trades, t);
    }
    if t' :| t' in Landed(w, trades) && KeyOf(s) == KeyOfRow(t') {
      LandedMember(w, trades, t');
      var x := FoundTrade(st, response, t');
      assert x.id == s.id;
    }
  }

  // ---------- Exactly once ----------

  lemma {:induction false} ElementsCount(swaps: seq<Swap>)
    requires forall i, j :: 0 <= i < j < |swaps| ==> swaps[i] != swaps[j]
    ensures |set s | s in swaps| == |swaps|
  {
    if swaps != [] {
      var front, last := swaps[..|swaps| - 1], swaps[|swaps| - 1];
      ElementsCount(front);
      assert (set s | s in swaps) == (set s | s in front) + {last};
    }
  }

  lemma SubsetCount(a: set<Swap>, b: set<Swap>)
    requires a <= b
    ensures |a| <= |b|
    decreases |a|
  {
    if a != {} {
      var x :| x in a;
      SubsetCount(a - {x}, b - {x});
    }
  }

  /** With at most 200 swaps above the mark, the answer contains them all. */
  lemma NothingCutOff(mark: int, feed: set<Swap>, swaps: seq<Swap>, s: Swap)
    requires Newest(feed, swaps) && |set x | x in feed && x.ts > mark| <= LIMIT
    requires s in feed && s.ts > mark
    ensures s in swaps
  {
    if s !in swaps {
      var above, got := set x | x in feed && x.ts > mark, set x | x in swaps;
      ElementsCount(swaps);
      SubsetCount(got + {s}, above);
    }
  }

  /** Every tradable swap up to the mark is stored. */
  predicate UpToMark(st: State, feed: set<Swap>) {
    forall s :: s in feed && Tradable(s) && s.ts <= st.mark ==> KeyOf(s) in st.rows
  }

  predicate Caught(st: State, feed: set<Swap>) {
    && RowsFrom(st.rows, feed)
    && UpToMark(st, feed)
    && st.mark >= 0
    && (st.mark == 0 || exists s <- feed :: s.ts == st.mark)
  }

  lemma FeedGrows(st: State, known: set<Swap>, feed: set<Swap>)
    requires Caught(st, known) && InOrder(known, feed)
    ensures Caught(st, feed)
  {
  }

  lemma PollCatches(st: State, p: Poll)
    requires Caught(st, p.feed) && DistinctIds(p.feed) && Answered(p)
    requires p.response.Some? ==> |set s | s in p.feed && s.ts > st.mark| <= LIMIT
    ensures var st' := Polled(st, p.response, p.write);
            && Caught(st', p.feed)
            && (p.response.Some? && p.write.Complete? ==> Holds(st'.rows, p.feed))
  {
    var st' := Polled(st, p.response, p.write);
    var swaps := if p.response.Some? then p.response.value else [];
    var found := NewSwaps(st.mark, swaps);
    if p.feed == {} {
      forall s | s in swaps ensures false { }
      assert swaps == [];
    }
    forall s | s in p.feed && Tradable(s)
      ensures RowsFrom(st'.rows, p.feed)
      ensures KeyOf(s) in st.rows ==> KeyOf(s) in st'.rows
      ensures p.response.Some? && p.write.Complete? ==> KeyOf(s) in st'.rows && st'.rows[KeyOf(s)] == RowOf(s)
    {
      PollStores(st, p.response, p.write, p.feed, s);
      if p.response.Some? && s.ts > st.mark { NothingCutOff(st.mark, p.feed, swaps, s); }
      if KeyOf(s) in st'.rows { RowDetermined(st'.rows, p.feed, s); }
    }
    if st' != st {
      MarkAdvances(st, p, found);
    }
  }

  lemma MarkAdvances(st: State, p: Poll, found: seq<Swap>)
    requires Answered(p) && p.response.Some? && found == NewSwaps(st.mark, p.response.value) && Trades(found) != []
    ensures found != [] && MaxTs(found) > st.mark && exists s <- p.feed :: s.ts == MaxTs(found)
    ensures exists s <- p.feed :: Tradable(s)
  {
    assert found != [];
    var s :| s in found && s.ts == MaxTs(found);
    NewSwapsMember(st.mark, p.response.value, s);
    var t := Trades(found)[0];
    TradesMember(found, t);
    var x :| x in found && Tradable(x) && t == RowOf(x);
    NewSwapsMember(st.mark, p.response.value, x);
  }

  /** The last poll fetched an answer and wrote all of it. */
  predicate Succeeded(polls: seq<Poll>) {
    polls != [] && polls[|polls| - 1].response.Some? && polls[|polls| - 1].write.Complete?
  }

  /**
   * Exactly once.  After any well-fed run of succeeding, failing or half-written polls, the
   * table holds every tradable swap up to the mark and nothing but rows of the feed, one per
   * swap id; and after a poll that succeeded it holds the tradable swaps of the feed exactly.
   */
  lemma {:induction false} ExactlyOnce(polls: seq<Poll>)
    requires WellFed(polls)
    ensures Caught(After(polls), Feed(polls))
    ensures DistinctIds(Feed(polls))
    ensures Succeeded(polls) ==> Holds(After(polls).rows, Feed(polls))
  {
    if polls != [] {
      var front, p := polls[..|polls| - 1], polls[|polls| - 1];
      ExactlyOnce(front);
      FeedGrows(After(front), Feed(front), p.feed);
      PollCatches(After(front), p);
    }
  }

  lemma HoldsUnique(rows: map<Key, TradeRow>, rows': map<Key, TradeRow>, feed: set<Swap>)
    requires Holds(rows, feed) && Holds(rows', feed)
    ensures rows == rows'
  {
  }

  lemma BulkHolds(feed: set<Swap>, listing: seq<Swap>)
    requires DistinctIds(feed) && forall s :: s in listing <==> s in feed
    ensures Holds(Upsert(map[], Trades(listing)), feed)
  {
    var trades := Trades(listing);
    forall t | t in trades ensures exists s <- feed :: Tradable(s) && t == RowOf(s) {
      TradesMember(listing, t);
    }
    UpsertRows(map[], trades, feed);
    var rows := Upsert(map[], trades);
    forall s | s in feed && Tradable(s) ensures KeyOf(s) in rows && rows[KeyOf(s)] == RowOf(s) {
      TradesMember(listing, RowOf(s));
      assert KeyOf(s) == KeyOfRow(RowOf(s));
      RowDetermined(rows, feed, s);
    }
  }

  /** However many polls it took, the table equals that of one bulk ingest of the same swaps, in any order. */
  lemma SameAsBulkIngest(polls: seq<Poll>, listing: seq<Swap>)
    requires WellFed(polls) && Succeeded(polls)
    requires forall s :: s in listing <==> s in Feed(polls)
    ensures After(polls).rows == Upsert(map[], Trades(listing))
  {
    ExactlyOnce(polls);
    BulkHolds(Feed(polls), listing);
    HoldsUnique(After(polls).rows, Upsert(map[], Trades(listing)), Feed(polls));
  }

  // ---------- Without the feed assumptions ----------

  lemma {:induction false} MarkNeverFalls(before: seq<Poll>, later: seq<Poll>)
    ensures After(before).mark <= After(before + later).mark
    decreases |later|
  {
    if later == [] {
      assert before + later == before;
    } else {
      var front, p := before + later[..|later| - 1], later[|later| - 1];
      assert (before + later)[..|before + later| - 1] == front;
      MarkNeverFalls(before, later[..|later| - 1]);
      MarkStep(After(front), p.response, p.write);
    }
  }

  lemma MarkStep(st: State, response: Option<seq<Swap>>, w: Write)
    ensures st.mark <= Polled(st, response, w).mark
  {
    var swaps := if response.Some? then response.value else [];
    var found := NewSwaps(st.mark, swaps);
    if Trades(found) != [] {
      var s :| s in found && s.ts == MaxTs(found);
      NewSwapsMember(st.mark, swaps, s);
    }
  }

  /** A complete write of at least one trade. */
  predicate Moves(mark: int, response: Option<seq<Swap>>, w: Write) {
    response.Some? && w.Complete? && exists s <- response.value :: s.ts > mark && Tradable(s)
  }

  /**
   * Where a poll leaves the mark: at the latest time of the whole answer, untradable swaps
   * included, if a trade was written and the write was complete; otherwise where it was.
   */
  lemma MarkExactly(st: State, response: Option<seq<Swap>>, w: Write)
    ensures var mark := Polled(st, response, w).mark;
            if Moves(st.mark, response, w) then
              && mark > st.mark
              && (forall s <- response.value :: s.ts <= mark)
              && (exists s <- response.value :: s.ts == mark)
            else mark == st.mark
  {
    hide MaxTs, Trades, NewSwaps;
    MovesExactly(st, response, w);
    if Moves(st.mark, response, w) {
      LatestOfAll(st.mark, response.value);
    }
  }

  lemma MovesExactly(st: State, response: Option<seq<Swap>>, w: Write)
    ensures Moves(st.mark, response, w) <==> w.Complete? && FoundTrades(st, response) != []
    ensures FoundTrades(st, response) != [] ==> response.Some? && NewSwaps(st.mark, response.value) != []
  {
    hide Tradable;
    if FoundTrades(st, response) != [] {
      var s := FoundTrade(st, response, FoundTrades(st, response)[0]);
      NewSwapsMember(st.mark, response.value, s);
    }
    if Moves(st.mark, response, w) {
      var s :| s in response.value && s.ts > st.mark && Tradable(s);
      TradeFound(st, response, s);
    }
  }

  /** The latest of the swaps above the mark is the latest of all. */
  lemma LatestOfAll(mark: int, swaps: seq<Swap>)
    requires NewSwaps(mark, swaps) != []
    ensures var latest := MaxTs(NewSwaps(mark, swaps));
            && latest > mark
            && (forall s <- swaps :: s.ts <= latest)
            && (exists s <- swaps :: s.ts == latest)
  {
    var found := NewSwaps(mark, swaps);
    forall s | s in swaps ensures s.ts <= MaxTs(found) {
      NewSwapsMember(mark, swaps, s);
      NewSwapsMember(mark, swaps, found[0]);
    }
    var last :| last in found && last.ts == MaxTs(found);
    NewSwapsMember(mark, swaps, last);
  }

  /** The same answer again, after a complete write, changes nothing, whatever becomes of the second write. */
  lemma SameAnswerAgain(st: State, response: Option<seq<Swap>>, w: Write, again: Write)
    requires w.Complete?
    ensures Polled(Polled(st, response, w), response, again) == Polled(st, response, w)
  {
    hide Polled, FoundTrades;
    var st' := Polled(st, response, w);
    MarkExactly(st, response, w);
    MovesExactly(st', response, Complete);
    NothingFound(st', response, again);
  }

  lemma NothingFound(st: State, response: Option<seq<Swap>>, w: Write)
    requires FoundTrades(st, response) == []
    ensures Polled(st, response, w) == st
  {
  }

  /** Every answer consists of swaps of `feed`. */
  predicate Drawn(polls: seq<Poll>, feed: set<Swap>) {
    forall p <- polls :: p.response.Some? ==> forall s <- p.response.value :: s in feed
  }

  lemma {:induction false} RunRowsFrom(polls: seq<Poll>, feed: set<Swap>)
    requires Drawn(polls, feed)
    ensures RowsFrom(After(polls).rows, feed)
  {
    if polls != [] {
      var front, p := polls[..|polls| - 1], polls[|polls| - 1];
      RunRowsFrom(front, feed);
      PollRows(After(front), p.response, p.write, feed);
    }
  }

  /** In any run at all, with distinct ids only, two rows never carry the same swap id. */
  lemma OneRowPerSwap(polls: seq<Poll>, feed: set<Swap>, k: Key, k': Key)
    requires DistinctIds(feed) && Drawn(polls, feed)
    requires k in After(polls).rows && k' in After(polls).rows && k.txHash == k'.txHash
    ensures k == k'
  {
    RunRowsFrom(polls, feed);
  }

  /** If this poll moves the mark, each tradable swap up to it is stored already or answered above the old mark. */
  predicate Covers(st: State, p: Poll, feed: set<Swap>) {
    var mark' := Polled(st, p.response, p.write).mark;
    mark' > st.mark ==>
      forall s <- feed :: Tradable(s) && s.ts <= mark' ==>
        KeyOf(s) in st.rows || (s.ts > st.mark && p.response.Some? && s in p.response.value)
  }

  predicate AlwaysCovers(polls: seq<Poll>, feed: set<Swap>) {
    polls == []
    || (AlwaysCovers(polls[..|polls| - 1], feed) && Covers(After(polls[..|polls| - 1]), polls[|polls| - 1], feed))
  }

  lemma CoverStep(st: State, p: Poll, feed: set<Swap>)
    requires RowsFrom(st.rows, feed) && DistinctIds(feed) && Drawn([p], feed)
    ensures UpToMark(Polled(st, p.response, p.write), feed) <==> UpToMark(st, feed) && Covers(st, p, feed)
  {
    var st' := Polled(st, p.response, p.write);
    assert p in [p];
    MarkStep(st, p.response, p.write);
    forall s | s in feed && Tradable(s)
      ensures KeyOf(s) in st'.rows
         <==> KeyOf(s) in st.rows
              || (p.response.Some? && s in p.response.value && s.ts > st.mark && Lands(p.write, RowOf(s)))
    {
      PollStores(st, p.response, p.write, feed, s);
    }
    MarkMoves(st, p);
  }

  lemma MarkMoves(st: State, p: Poll)
    ensures Polled(st, p.response, p.write).mark > st.mark ==> p.write.Complete?
  {
  }

  /**
   * The exact condition, without order, limit or success of any poll: the table holds every
   * tradable swap up to the mark if and only if each poll that moved the mark covered them.
   */
  lemma {:induction false} CompleteToMarkExactly(polls: seq<Poll>, feed: set<Swap>)
    requires DistinctIds(feed) && Drawn(polls, feed) && forall s <- feed :: s.ts > 0
    ensures UpToMark(After(polls), feed) <==> AlwaysCovers(polls, feed)
  {
    if polls != [] {
      var front, p := polls[..|polls| - 1], polls[|polls| - 1];
      assert p in polls && forall q <- front :: q in polls;
      CompleteToMarkExactly(front, feed);
      RunRowsFrom(front, feed);
      CoverStep(After(front), p, feed);
    }
  }

  /**
   * Exactly what a late swap costs: one that is not in the table when the mark has reached
   * its time is never stored, by any continuation of the run.
   */
  lemma {:induction false} LateSwapIsLost(before: seq<Poll>, later: seq<Poll>, feed: set<Swap>, s: Swap)
    requires DistinctIds(feed) && Drawn(before + later, feed) && s in feed && Tradable(s)
    requires s.ts <= After(before).mark && KeyOf(s) !in After(before).rows
    ensures KeyOf(s) !in After(before + later).rows
    decreases |later|
  {
    if later == [] {
      assert before + later == before;
    } else {
      var front, p := before + later[..|later| - 1], later[|later| - 1];
      assert before + later == front + [p] && (before + later)[..|before + later| - 1] == front;
      assert p in before + later && forall q <- front :: q in before + later;
      LateSwapIsLost(before, later[..|later| - 1], feed, s);
      MarkNeverFalls(before, later[..|later| - 1]);
      RunRowsFrom(front, feed);
      PollStores(After(front), p.response, p.write, feed, s);
    }
  }

  lemma OneFound(a: Swap, w: Write)
    requires Tradable(a) && a.ts > 0 && w.Complete?
    ensures Polled(State(0, map[]), Some([a]), w).mark == a.ts
  {
    assert [a][..0] == [];
    assert NewSwaps(0, [a]) == [] + [a];
    assert Trades([a]) == [] + [RowOf(a)];
    MaxTsOne([a]);
  }

  lemma AfterOne(p: Poll)
    ensures After([p]) == Polled(State(0, map[]), p.response, p.write)
  {
    assert [p][..0] == [];
  }

  /** Two swaps of one second, the second of them not in the first answer: no continuation ever stores it. */
  lemma TieIsLost(a: Swap, b: Swap, later: seq<Poll>)
    requires Tradable(a) && Tradable(b) && a.ts == b.ts > 0 && a.id != b.id && Drawn(later, {a, b})
    ensures KeyOf(b) !in After([Poll({a}, Some([a]), Complete)] + later).rows
  {
    hide After, Polled, Tradable, KeyOf;
    var p := Poll({a}, Some([a]), Complete);
    OneFound(a, Complete);
    AfterOne(p);
    PollStores(State(0, map[]), p.response, p.write, {a, b}, b);
    LateSwapIsLost([p], later, {a, b}, b);
  }
}
