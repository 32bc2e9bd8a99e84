/**
 Constant-product swap arithmetic (app/chain/uniswap_v2.py) and the slippage floor the
 order builders put under a quote (app/api/v1/predict_orders.py).  Amounts are in wei, so
 every division is an integer floor and every theorem below includes those floors.
 */
module Swap {
  import opened Products

  // ---------- The two source functions ----------

  function GetAmountOut(amountIn: nat, reserveIn: nat, reserveOut: nat): (out: nat)
    ensures reserveIn == 0 || reserveOut == 0 ==> out == 0
    ensures reserveIn > 0 && reserveOut > 0 ==> out < reserveOut
  {
    if reserveIn == 0 || reserveOut == 0 then 0
    else
      var amountInWithFee := amountIn * 997;
      var numerator := amountInWithFee * reserveOut;
      var denominator := reserveIn * 1000 + amountInWithFee;
      QuotientBelow(amountInWithFee, reserveIn * 1000, reserveOut);
      numerator / denominator
  }

  /** The largest integer that is at most `amount` reduced by `slippageBps` basis points. */
  function ApplySlippage(amount: int, slippageBps: int): (minOut: int)
    ensures forall m: int :: 10_000 * m <= amount * (10_000 - slippageBps) <==> m <= minOut
  {
    amount * (10_000 - slippageBps) / 10_000
  }

  lemma QuotientBelow(fee: nat, base: nat, reserveOut: nat)
    requires base > 0 && reserveOut > 0
    ensures 0 <= fee * reserveOut / (base + fee) < reserveOut
  {
    var d := base + fee;
    var q := fee * reserveOut / d;
    assert fee * reserveOut == q * d + fee * reserveOut % d;
    assert reserveOut * d == reserveOut * base + reserveOut * fee;
    MulMono(1, reserveOut, base);
    CancelStrict(q, reserveOut, d);
    CancelStrict(-1, q, d);
  }

  // ---------- Optimality ----------

  /** Paying `out` keeps the fee-adjusted product at or above its value before the swap. */
  predicate Fair(amountIn: nat, reserveIn: nat, reserveOut: nat, out: int) {
    (1000 * reserveIn + 997 * amountIn) * (reserveOut - out) >= 1000 * reserveIn * reserveOut
  }

  /** `GetAmountOut` is the largest fair payout: an integer is fair exactly when it is no larger. */
  lemma Optimal(amountIn: nat, reserveIn: nat, reserveOut: nat, out: int)
    requires reserveIn > 0 && reserveOut > 0
    ensures Fair(amountIn, reserveIn, reserveOut, out) <==> out <= GetAmountOut(amountIn, reserveIn, reserveOut)
  {
    var d := 1000 * reserveIn + 997 * amountIn;
    var n := 997 * amountIn * reserveOut;
    var q := GetAmountOut(amountIn, reserveIn, reserveOut);
    assert q == n / d;
    assert n == q * d + n % d;
    assert d * (reserveOut - out) == d * reserveOut - out * d;
    assert d * reserveOut == 1000 * reserveIn * reserveOut + n;
    assert Fair(amountIn, reserveIn, reserveOut, out) <==> out * d <= n;
    if out <= q {
      MulMono(out, q, d);
    } else {
      MulMono(q + 1, out, d);
      assert (q + 1) * d == q * d + d;
    }
  }

  /** More input, a smaller input reserve or a larger output reserve never lowers the payout. */
  lemma Monotone(a: nat, b: nat, reserveIn: nat, reserveIn': nat, reserveOut: nat, reserveOut': nat)
    requires a <= b && 0 < reserveIn' <= reserveIn && 0 < reserveOut <= reserveOut'
    ensures GetAmountOut(a, reserveIn, reserveOut) <= GetAmountOut(b, reserveIn', reserveOut')
  {
    var out := GetAmountOut(a, reserveIn, reserveOut);
    Optimal(a, reserveIn, reserveOut, out);
    // fairness of `out` says 1000 * reserveIn * out <= 997 * a * (reserveOut - out)
    var left := reserveOut - out;
    assert (1000 * reserveIn + 997 * a) * left
           == 1000 * reserveIn * reserveOut - 1000 * reserveIn * out + 997 * a * left;
    assert 1000 * reserveIn * out <= 997 * a * left;
    MulMono(reserveIn', reserveIn, 1000 * out);
    MulMono(a, b, 997 * left);
    var left' := reserveOut' - out;
    MulMono(left, left', 997 * b);
    assert 1000 * reserveIn' * out <= 997 * b * left';
    assert (1000 * reserveIn' + 997 * b) * left'
           == 1000 * reserveIn' * reserveOut' - 1000 * reserveIn' * out + 997 * b * left';
    Optimal(b, reserveIn', reserveOut', out);
  }

  // ---------- Runs of swaps on one pool ----------

  datatype Pool = Pool(reserve0: nat, reserve1: nat) {
    predicate Live() { reserve0 > 0 && reserve1 > 0 }
    function In(zeroForOne: bool): nat { if zeroForOne then reserve0 else reserve1 }
    function Out(zeroForOne: bool): nat { In(!zeroForOne) }
    function K(): nat { reserve0 * reserve1 }
  }

  datatype Order = Order(zeroForOne: bool, amountIn: nat)

  function Quote(p: Pool, o: Order): nat {
    GetAmountOut(o.amountIn, p.In(o.zeroForOne), p.Out(o.zeroForOne))
  }

  /** The pool takes the whole input and pays the quoted output. */
  function Fill(p: Pool, o: Order): Pool
    requires p.Live()
  {
    if o.zeroForOne then Pool(p.reserve0 + o.amountIn, p.reserve1 - Quote(p, o))
    else Pool(p.reserve0 - Quote(p, o), p.reserve1 + o.amountIn)
  }

  /** The quote is the largest fair payout from the reserves on the two sides of the order. */
  lemma QuoteExactly(p: Pool, o: Order, out: int)
    requires p.Live()
    ensures Fair(o.amountIn, p.In(o.zeroForOne), p.Out(o.zeroForOne), out) <==> out <= Quote(p, o)
  {
    Optimal(o.amountIn, p.In(o.zeroForOne), p.Out(o.zeroForOne), out);
  }

  /** And so is what a fill really pays; the input stays in the pool whole. */
  lemma FillPaysExactly(p: Pool, o: Order, out: int)
    requires p.Live()
    ensures Fair(o.amountIn, p.In(o.zeroForOne), p.Out(o.zeroForOne), out)
       <==> out <= p.Out(o.zeroForOne) - Fill(p, o).Out(o.zeroForOne)
    ensures Fill(p, o).In(o.zeroForOne) == p.In(o.zeroForOne) + o.amountIn
    ensures p.In(true) == p.Out(false) == p.reserve0 && p.In(false) == p.Out(true) == p.reserve1
  {
    QuoteExactly(p, o, out);
  }

  function FillAll(p: Pool, os: seq<Order>): (p': Pool)
    requires p.Live()
    ensures p'.Live()
    decreases |os|
  {
    if os == [] then p else FillAll(Fill(p, os[0]), os[1..])
  }

  lemma ProductGrows(x: nat, y: nat, a: nat, left: nat)
    requires left > 0 && (1000 * x + 997 * a) * left >= 1000 * x * y
    ensures (x + a) * left >= x * y
    ensures a > 0 ==> (x + a) * left > x * y
  {
  }

  lemma FactorsCompare(x: nat, y: nat, x': nat, y': nat)
    requires x' * y' >= x * y && x' < x && y > 0
    ensures y' > y
  {
  }

  /** One swap raises the product strictly unless its input is zero. */
  lemma FillGrowsK(p: Pool, o: Order)
    requires p.Live()
    ensures if o.amountIn == 0 then Fill(p, o) == p else Fill(p, o).K() > p.K()
  {
    var x, y := p.In(o.zeroForOne), p.Out(o.zeroForOne);
    var out := Quote(p, o);
    Optimal(o.amountIn, x, y, out);
    ProductGrows(x, y, o.amountIn, y - out);
  }

  /** Over any run in both directions the product never falls, and stands still only if nothing was paid in. */
  lemma {:induction false} KNeverFalls(p: Pool, os: seq<Order>)
    requires p.Live()
    ensures FillAll(p, os).K() >= p.K()
    ensures FillAll(p, os).K() == p.K() <==> forall i :: 0 <= i < |os| ==> os[i].amountIn == 0
    decreases |os|
  {
    if os != [] {
      FillGrowsK(p, os[0]);
      KNeverFalls(Fill(p, os[0]), os[1..]);
      assert forall i :: 0 < i < |os| ==> os[i] == os[1..][i - 1];
      if forall i :: 0 <= i < |os[1..]| ==> os[1..][i].amountIn == 0 {
        assert forall i :: 0 <= i < |os| ==> i == 0 || os[i].amountIn == 0;
      }
    }
  }

  /** The same, read from the input side of either direction. */
  lemma ProductKept(p: Pool, os: seq<Order>, zero: bool)
    requires p.Live()
    ensures FillAll(p, os).In(zero) * FillAll(p, os).Out(zero) >= p.In(zero) * p.Out(zero)
  {
    KNeverFalls(p, os);
    Commute(p.reserve0, p.reserve1);
    Commute(FillAll(p, os).reserve0, FillAll(p, os).reserve1);
  }

  /**
   * No free lunch: if a run took token `t` out of the pool, it put the other token in; and a
   * run that paid anything in cannot return both reserves to where they were.
   */
  lemma NoRunGainsBoth(p: Pool, os: seq<Order>, zero: bool)
    requires p.Live()
    ensures FillAll(p, os).In(zero) < p.In(zero) ==> FillAll(p, os).Out(zero) > p.Out(zero)
    ensures FillAll(p, os) == p ==> forall i :: 0 <= i < |os| ==> os[i].amountIn == 0
  {
    KNeverFalls(p, os);
    var q := FillAll(p, os);
    ProductKept(p, os, zero);
    if q.In(zero) < p.In(zero) {
      FactorsCompare(p.In(zero), p.Out(zero), q.In(zero), q.Out(zero));
    }
  }

  // ---------- Splitting an order ----------

  function Sum(pieces: seq<nat>): nat {
    if pieces == [] then 0 else pieces[0] + Sum(pieces[1..])
  }

  function Split(zeroForOne: bool, pieces: seq<nat>): (os: seq<Order>)
    ensures |os| == |pieces|
    ensures forall i :: 0 <= i < |os| ==> os[i] == Order(zeroForOne, pieces[i])
  {
    seq(|pieces|, i requires 0 <= i < |pieces| => Order(zeroForOne, pieces[i]))
  }

  /** What a run pays out in total, when every order goes the same way. */
  function Received(p: Pool, zeroForOne: bool, pieces: seq<nat>): int
    requires p.Live()
  {
    p.Out(zeroForOne) - FillAll(p, Split(zeroForOne, pieces)).Out(zeroForOne)
  }

  lemma SplitCons(p: Pool, zeroForOne: bool, pieces: seq<nat>)
    requires p.Live() && pieces != []
    ensures FillAll(p, Split(zeroForOne, pieces))
         == FillAll(Fill(p, Order(zeroForOne, pieces[0])), Split(zeroForOne, pieces[1..]))
  {
    assert Split(zeroForOne, pieces)[1..] == Split(zeroForOne, pieces[1..]);
  }

  /** The input reserve collects exactly the sum of the pieces. */
  lemma {:induction false} PiecesArrive(p: Pool, zeroForOne: bool, pieces: seq<nat>)
    requires p.Live()
    ensures FillAll(p, Split(zeroForOne, pieces)).In(zeroForOne) == p.In(zeroForOne) + Sum(pieces)
    decreases |pieces|
  {
    if pieces != [] {
      SplitCons(p, zeroForOne, pieces);
      PiecesArrive(Fill(p, Order(zeroForOne, pieces[0])), zeroForOne, pieces[1..]);
    }
  }

  /**
   * The arithmetic step of splitting.  `x` and `y` are the reserves, `a` the first piece and
   * `b` the rest; `y1` is the output reserve after the first piece and `z` after all of them.
   */
  lemma TwoStepsFair(x: nat, y: nat, a: nat, b: nat, y1: nat, z: nat)
    requires x > 0
    requires (1000 * x + 997 * a) * y1 >= 1000 * x * y
    requires (1000 * (x + a) + 997 * b) * z >= 1000 * (x + a) * y1
    ensures (1000 * x + 997 * (a + b)) * z >= 1000 * x * y
  {
    Chain(1000 * x + 997 * a, 1000 * (x + a), 997 * b, 1000 * x * y, y1, z);
  }

  lemma Chain(u: nat, v: nat, w: nat, k: nat, y1: nat, z: nat)
    requires 0 < u <= v && u * y1 >= k && (v + w) * z >= v * y1
    ensures (u + w) * z >= k
  {
  }

  lemma {:induction false} SplitIsFair(p: Pool, zeroForOne: bool, pieces: seq<nat>)
    requires p.Live()
    ensures Fair(Sum(pieces), p.In(zeroForOne), p.Out(zeroForOne), Received(p, zeroForOne, pieces))
    decreases |pieces|
  {
    if pieces != [] {
      var o := Order(zeroForOne, pieces[0]);
      var p1 := Fill(p, o);
      SplitCons(p, zeroForOne, pieces);
      SplitIsFair(p1, zeroForOne, pieces[1..]);
      Optimal(o.amountIn, p.In(zeroForOne), p.Out(zeroForOne), Quote(p, o));
      var z := FillAll(p, Split(zeroForOne, pieces)).Out(zeroForOne);
      TwoStepsFair(p.In(zeroForOne), p.Out(zeroForOne), o.amountIn, Sum(pieces[1..]), p1.Out(zeroForOne), z);
    }
  }

  /** Cutting an order into pieces never pays more than one order for the whole amount. */
  lemma SplittingNeverHelps(p: Pool, zeroForOne: bool, pieces: seq<nat>)
    requires p.Live()
    ensures Received(p, zeroForOne, pieces) <= Quote(p, Order(zeroForOne, Sum(pieces)))
  {
    SplitIsFair(p, zeroForOne, pieces);
    Optimal(Sum(pieces), p.In(zeroForOne), p.Out(zeroForOne), Received(p, zeroForOne, pieces));
  }

  // ---------- Slippage ----------

  /** s = x + b is the input reserve after b came in; c the part of the quote that must survive. */
  lemma SquareBound(x: nat, b: nat, c: nat, bps: nat)
    requires c == 10_000 - bps && 20_000 * b <= bps * (x + b)
    ensures c * (x + b) * (x + b) <= 10_000 * (x * x)
  {
  }

  lemma ScaleDown(x: nat, s: nat, d: nat, d1: nat, c: nat)
    requires x > 0 && c * s * s <= 10_000 * (x * x) && x * d1 <= s * d
    ensures c * s * d1 <= 10_000 * x * d
  {
  }

  /** q <= n*y/d is the old payout, y1 >= x*y/s the new output reserve, m <= q*c/10000 the minimum. */
  lemma FloorChain(x: nat, y: nat, s: nat, d: nat, d1: nat, n: nat, c: nat, q: nat, y1: nat, m: nat)
    requires s > 0 && d > 0
    requires q * d <= n * y && x * y <= s * y1 && c * s * d1 <= 10_000 * x * d && 10_000 * m <= q * c
    ensures m * d1 <= n * y1
  {
  }

  /**
   * Reserves moved from (x, y) to (x + b, y1) without the product falling, and `q` was the
   * payout before.  The reduced payout `m` is then still fair.
   */
  lemma ReducedIsFair(x: nat, y: nat, a: nat, b: nat, y1: nat, q: nat, bps: nat, m: int)
    requires x > 0 && bps <= 10_000
    requires x * y <= (x + b) * y1
    requires Fair(a, x, y, q)
    requires 20_000 * b <= bps * (x + b)
    requires 10_000 * m <= q * (10_000 - bps)
    ensures Fair(a, x + b, y1, m)
  {
    var s, c, n := x + b, 10_000 - bps, 997 * a;
    var d, d1 := 1000 * x + n, 1000 * s + n;
    FairMeans(x, n, y, q);
    FairMeans(s, n, y1, m);
    if m > 0 {
      SquareBound(x, b, c, bps);
      CrossBound(x, s, n);
      ScaleDown(x, s, d, d1, c);
      FloorChain(x, y, s, d, d1, n, c, q, y1, m);
    } else {
      MulMono(m, 0, d1);
    }
  }

  lemma FairMeans(x: nat, n: nat, y: nat, q: int)
    ensures (1000 * x + n) * (y - q) >= 1000 * x * y <==> q * (1000 * x + n) <= n * y
  {
  }

  lemma CrossBound(x: nat, s: nat, n: nat)
    requires x <= s
    ensures x * (1000 * s + n) <= s * (1000 * x + n)
  {
  }

  lemma AfterRun(x: nat, y: nat, x1: nat, y1: nat, a: nat, q: nat, bps: nat, m: int)
    requires x > 0 && y > 0 && x1 > 0 && y1 > 0 && bps <= 10_000
    requires x * y <= x1 * y1 && q == GetAmountOut(a, x, y) && m == ApplySlippage(q, bps)
    requires 20_000 * (x1 - x) <= bps * x1
    ensures m <= GetAmountOut(a, x1, y1)
  {
    if x1 <= x {
      if x1 < x { FactorsCompare(x, y, x1, y1); } else { CancelRight(y, y1, x); }
      Monotone(a, a, x, x1, y, y1);
      MulMono(10_000 - bps, 10_000, q);
    } else {
      Optimal(a, x, y, q);
      ReducedIsFair(x, y, a, x1 - x, y1, q, bps, m);
      Optimal(a, x1, y1, m);
    }
  }

  /**
   * A slippage setting absorbs bounded front-running.  `before` is any run of other traders'
   * swaps, in both directions, between the quote and the order; `b` is the net amount it
   * left in the order's input reserve.  If 20000 * b <= bps * (reserve + b), the order still
   * pays at least the minimum computed from the old quote.
   */
  lemma SlippageAbsorbsFrontRunning(p: Pool, before: seq<Order>, o: Order, bps: nat)
    requires p.Live() && bps <= 10_000
    requires var x, x' := p.In(o.zeroForOne), FillAll(p, before).In(o.zeroForOne);
             20_000 * (x' - x) <= bps * x'
    ensures Quote(FillAll(p, before), o) >= ApplySlippage(Quote(p, o), bps)
  {
    var p1 := FillAll(p, before);
    var x, y, x1, y1 := p.In(o.zeroForOne), p.Out(o.zeroForOne), p1.In(o.zeroForOne), p1.Out(o.zeroForOne);
    var q := Quote(p, o);
    var m := ApplySlippage(q, bps);
    ProductKept(p, before, o.zeroForOne);
    AfterRun(x, y, x1, y1, o.amountIn, q, bps, m);
  }

  /** The same for one attacker who splits `b` over any number of swaps in the order's own direction. */
  lemma SlippageAbsorbsPieces(p: Pool, pieces: seq<nat>, o: Order, bps: nat)
    requires p.Live() && bps <= 10_000
    requires 20_000 * Sum(pieces) <= bps * (p.In(o.zeroForOne) + Sum(pieces))
    ensures Quote(FillAll(p, Split(o.zeroForOne, pieces)), o) >= ApplySlippage(Quote(p, o), bps)
  {
    PiecesArrive(p, o.zeroForOne, pieces);
    SlippageAbsorbsFrontRunning(p, Split(o.zeroForOne, pieces), o, bps);
  }
}
