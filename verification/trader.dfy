/** The first-round trader (trader.py): every listed product is priced by
    the VWAP of its last 1000 recorded market trades (at least 10 needed),
    and the trader takes liquidity on whichever side of the book crosses
    that fair value. */
module Trader {
  import opened DataModel
  import opened FairValue

  const MinSampleSize: nat := 10
  const MaxSampleSize: nat := 1000
  /** Decision margins applied to the fair value; both are 1 in this trader. */
  const BuyDiscount: real := 1.0
  const SellPremium: real := 1.0

  /** The window the estimator averages over: the last 1000 trades. */
  function Window(h: seq<Trade>): seq<Trade> {
    LastN(h, MaxSampleSize)
  }

  /** The estimator's division is defined: either it returns before dividing
      or the window's quantities do not sum to zero. */
  ghost predicate Priceable(h: seq<Trade>) {
    |h| < MinSampleSize || SumQ(Window(h)) != 0
  }

  /** The fair value `calculate_fair_value` returns for a stored history. */
  ghost function FairValueOf(h: seq<Trade>): Option<real>
    requires Priceable(h)
  {
    if |h| < MinSampleSize then None else Some(Vwap(Window(h)))
  }

  /** No fair value below the minimum sample size; otherwise the VWAP of
      the window. */
  lemma FairValueCases(h: seq<Trade>)
    requires Priceable(h)
    ensures FairValueOf(h).None? <==> |h| < MinSampleSize
    ensures |h| >= MinSampleSize ==> |Window(h)| == if |h| <= MaxSampleSize then |h| else MaxSampleSize
  {
  }

  /** Trades older than the last 1000 have no influence on the fair value. */
  lemma OlderTradesIgnored(older: seq<Trade>, h: seq<Trade>)
    requires |h| >= MaxSampleSize
    requires Priceable(h)
    ensures Priceable(older + h)
    ensures FairValueOf(older + h) == FairValueOf(h)
  {
    var all := older + h;
    assert all[|all| - MaxSampleSize..] == h[|h| - MaxSampleSize..];
  }

  /** A window traded at one price `p` has fair value exactly `p`. */
  lemma ConstantPriceFairValue(h: seq<Trade>, p: int)
    requires |h| >= MinSampleSize
    requires forall t :: t in Window(h) ==> t.price == p
    requires SumQ(Window(h)) != 0
    ensures FairValueOf(h) == Some(p as real)
  {
    ConstantPriceVwap(Window(h), p);
  }

  /** With positive quantities the fair value lies within the window's
      price range. */
  lemma FairValueWithinPriceRange(h: seq<Trade>, lo: int, hi: int)
    requires |h| >= MinSampleSize
    requires forall t :: t in Window(h) ==> lo <= t.price <= hi && t.quantity > 0
    ensures Priceable(h)
    ensures FairValueOf(h).Some? && lo as real <= FairValueOf(h).value <= hi as real
  {
    VwapBetweenPrices(Window(h), lo, hi);
  }

  /** The best ask is below the (discounted) fair value. */
  ghost predicate LiftsAsk(fv: real, d: OrderDepth) {
    |d.sellOrders| > 0 && (BestAsk(d) as real) < fv * BuyDiscount
  }

  /** The best bid is above the (marked-up) fair value. */
  ghost predicate HitsBid(fv: real, d: OrderDepth) {
    |d.buyOrders| > 0 && (BestBid(d) as real) > fv * SellPremium
  }

  /** Lift the whole best ask: buy at the best ask for the volume offered. */
  ghost function BuyAtBestAsk(product: Product, d: OrderDepth): Order
    requires |d.sellOrders| > 0
  {
    Order(product, BestAsk(d), -d.sellOrders[BestAsk(d)])
  }

  /** Hit the whole best bid: sell at the best bid for the volume bid. */
  ghost function SellAtBestBid(product: Product, d: OrderDepth): Order
    requires |d.buyOrders| > 0
  {
    Order(product, BestBid(d), -d.buyOrders[BestBid(d)])
  }

  /** The orders one product receives for a given fair value. */
  ghost function TakingOrders(product: Product, fv: real, d: OrderDepth): seq<Order> {
    (if LiftsAsk(fv, d) then [BuyAtBestAsk(product, d)] else [])
    + (if HitsBid(fv, d) then [SellAtBestBid(product, d)] else [])
  }

  /** At most two orders: one buy at the best ask exactly when the ask is
      below fair value, then one sell at the best bid exactly when the bid
      is above it. */
  lemma TakingOrdersShape(product: Product, fv: real, d: OrderDepth)
    ensures var r := TakingOrders(product, fv, d);
      && |r| == (if LiftsAsk(fv, d) then 1 else 0) + (if HitsBid(fv, d) then 1 else 0)
      && (LiftsAsk(fv, d) ==> r[0] == BuyAtBestAsk(product, d))
      && (HitsBid(fv, d) ==> r[|r| - 1] == SellAtBestBid(product, d))
      && (forall o :: o in r ==> o.product == product)
  {
  }

  /** A fair value of 10000 against a best ask of 9990 offering 5 lots
      buys those 5 lots, and a best bid of 10010 bidding 5 lots sells them. */
  lemma TakingOrdersExample()
    ensures TakingOrders("BANANAS", 10000.0, OrderDepth(map[10010 := 5], map[9990 := -5]))
         == [Order("BANANAS", 9990, 5), Order("BANANAS", 10010, -5)]
  {
    var d := OrderDepth(map[10010 := 5], map[9990 := -5]);
    assert d.sellOrders.Keys == {9990};
    assert d.buyOrders.Keys == {10010};
  }

  /** The order decisions of `run` for one priced product: lift the best
      ask when it is below fair value, then hit the best bid when it is
      above fair value. */
  method TakeLiquidity(product: Product, fv: real, orderDepth: OrderDepth) returns (orders: seq<Order>)
    ensures orders == TakingOrders(product, fv, orderDepth)
  {
    orders := [];
    if |orderDepth.sellOrders| > 0 {
      var bestAsk := MinKey(orderDepth.sellOrders);
      var bestAskVolume := orderDepth.sellOrders[bestAsk];
      assert bestAsk == BestAsk(orderDepth);
      if (bestAsk as real) < fv * BuyDiscount {
        orders := orders + [Order(product, bestAsk, -bestAskVolume)];
      }
    }
    if |orderDepth.buyOrders| != 0 {
      var bestBid := MaxKey(orderDepth.buyOrders);
      var bestBidVolume := orderDepth.buyOrders[bestBid];
      assert bestBid == BestBid(orderDepth);
      if (bestBid as real) > fv * SellPremium {
        orders := orders + [Order(product, bestBid, -bestBidVolume)];
      }
    }
  }

  /** What `run` relies on for one listed product: it has an order book
      and its fair-value division is not by zero. */
  ghost predicate Admissible(h: map<Product, seq<Trade>>, s: TradingState, p: Product) {
    p in s.orderDepths && Priceable(Extended(h, s.marketTrades, p))
  }

  /** Everything `run` may rely on: the listed products are distinct and
      each of them is admissible. */
  ghost predicate RunAdmissible(h: map<Product, seq<Trade>>, s: TradingState) {
    && Distinct(s.listings)
    && forall p {:trigger Admissible(h, s, p)} :: p in s.listings ==> Admissible(h, s, p)
  }

  /** The history of `q` once the products in `listed` have had this
      tick's market trades recorded. */
  function Recorded(h: map<Product, seq<Trade>>, trades: map<Product, seq<Trade>>, listed: seq<Product>, q: Product): seq<Trade> {
    if q in listed then Extended(h, trades, q) else HistoryOf(h, q)
  }

  /** Recording only appends: the earlier history stays a prefix, and a
      product that is not listed keeps its history unchanged. */
  lemma RecordedExtendsHistory(h: map<Product, seq<Trade>>, trades: map<Product, seq<Trade>>, listed: seq<Product>, q: Product)
    ensures HistoryOf(h, q) <= Recorded(h, trades, listed, q)
    ensures q !in listed ==> Recorded(h, trades, listed, q) == HistoryOf(h, q)
    ensures q !in trades ==> Recorded(h, trades, listed, q) == HistoryOf(h, q)
  {
  }

  /** The fair value `run` computes for a listed product. */
  ghost function RunFairValue(h: map<Product, seq<Trade>>, s: TradingState, p: Product): Option<real>
    requires Admissible(h, s, p)
  {
    FairValueOf(Extended(h, s.marketTrades, p))
  }

  /** Once the products in `listed` have had their trades recorded, `q`
      is stored exactly when it was before or is among them, and its stored
      history is the one `Recorded` describes. */
  ghost predicate RecordedAt(h: map<Product, seq<Trade>>, s: TradingState, listed: seq<Product>,
                             m: map<Product, seq<Trade>>, q: Product)
  {
    && (q in m <==> q in h || q in listed)
    && HistoryOf(m, q) == Recorded(h, s.marketTrades, listed, q)
  }

  /** After `run` has processed the first `i` listed products, exactly
      their trades are recorded and nothing else changed. */
  ghost predicate RecordedUpTo(h: map<Product, seq<Trade>>, s: TradingState, i: nat, m: map<Product, seq<Trade>>)
    requires i <= |s.listings|
  {
    forall q :: RecordedAt(h, s, s.listings[..i], m, q)
  }

  /** Once `run` has processed the first `i` listed products, `p` has
      orders exactly when it is among them and has a fair value, and they
      are its liquidity-taking orders. */
  ghost predicate OrderedAt(h: map<Product, seq<Trade>>, s: TradingState, i: nat,
                            result: map<Product, seq<Order>>, p: Product)
    requires RunAdmissible(h, s)
    requires i <= |s.listings|
  {
    && (p in result <==> p in s.listings[..i] && RunFairValue(h, s, p).Some?)
    && (p in result ==> result[p] == TakingOrders(p, RunFairValue(h, s, p).value, s.orderDepths[p]))
  }

  /** After `run` has processed the first `i` listed products, exactly those
      of them with a fair value have their liquidity-taking orders. */
  ghost predicate OrderedUpTo(h: map<Product, seq<Trade>>, s: TradingState, i: nat, result: map<Product, seq<Order>>)
    requires RunAdmissible(h, s)
    requires i <= |s.listings|
  {
    forall p :: OrderedAt(h, s, i, result, p)
  }

  /** The stored histories once `run` has processed the first `i` listed
      products. */
  ghost function HistoriesAfter(h: map<Product, seq<Trade>>, s: TradingState, i: nat): map<Product, seq<Trade>>
    requires i <= |s.listings|
  {
    if i == 0 then h else RecordStep(h, s, HistoriesAfter(h, s, i - 1), s.listings[i - 1])
  }

  /** One iteration of `run` on the stored histories `m`: the product's
      trades are recorded. */
  ghost function RecordStep(h: map<Product, seq<Trade>>, s: TradingState, m: map<Product, seq<Trade>>, p: Product)
    : map<Product, seq<Trade>>
  {
    m[p := Extended(h, s.marketTrades, p)]
  }

  /** One iteration of `run` on the collected orders `result`. */
  ghost function OrderStep(h: map<Product, seq<Trade>>, s: TradingState, result: map<Product, seq<Order>>, p: Product)
    : map<Product, seq<Order>>
    requires RunAdmissible(h, s)
    requires p in s.listings
  {
    var fv := RunFairValue(h, s, p);
    if fv.None? then result else result[p := TakingOrders(p, fv.value, s.orderDepths[p])]
  }

  /** The orders `run` has collected once it has processed the first `i`
      listed products. */
  ghost function OrdersAfter(h: map<Product, seq<Trade>>, s: TradingState, i: nat): map<Product, seq<Order>>
    requires RunAdmissible(h, s)
    requires i <= |s.listings|
  {
    if i == 0 then map[] else OrderStep(h, s, OrdersAfter(h, s, i - 1), s.listings[i - 1])
  }

  /** Recording the `i`-th listed product's trades keeps `RecordedUpTo`. */
  lemma RecordedStep(h: map<Product, seq<Trade>>, s: TradingState, i: nat, m: map<Product, seq<Trade>>)
    requires Distinct(s.listings)
    requires 0 < i <= |s.listings|
    requires RecordedUpTo(h, s, i - 1, m)
    ensures RecordedUpTo(h, s, i, RecordStep(h, s, m, s.listings[i - 1]))
  {
    var p := s.listings[i - 1];
    var m' := RecordStep(h, s, m, p);
    assert s.listings[..i] == s.listings[..i - 1] + [p];
    assert FirstOccurrence(s.listings, i - 1);
    forall q ensures RecordedAt(h, s, s.listings[..i], m', q) {
      assert RecordedAt(h, s, s.listings[..i - 1], m, q);
      if q != p {
        assert HistoryOf(m', q) == HistoryOf(m, q);
      }
    }
  }

  /** Pricing the `i`-th listed product keeps `OrderedUpTo`. */
  lemma OrderedStep(h: map<Product, seq<Trade>>, s: TradingState, i: nat, result: map<Product, seq<Order>>)
    requires RunAdmissible(h, s)
    requires 0 < i <= |s.listings|
    requires OrderedUpTo(h, s, i - 1, result)
    ensures OrderedUpTo(h, s, i, OrderStep(h, s, result, s.listings[i - 1]))
  {
    var p := s.listings[i - 1];
    var r' := OrderStep(h, s, result, p);
    assert s.listings[..i] == s.listings[..i - 1] + [p];
    assert FirstOccurrence(s.listings, i - 1);
    forall q ensures OrderedAt(h, s, i, r', q) {
      assert OrderedAt(h, s, i - 1, result, q);
      if q == p {
        assert p in s.listings[..i] && p !in s.listings[..i - 1];
      } else {
        assert q in r' <==> q in result;
        assert q in s.listings[..i] <==> q in s.listings[..i - 1];
        if q in r' {
          assert r'[q] == result[q];
        }
      }
    }
  }

  /** `HistoriesAfter` meets `RecordedUpTo`. */
  lemma {:induction false} HistoriesAfterSpec(h: map<Product, seq<Trade>>, s: TradingState, i: nat)
    requires Distinct(s.listings)
    requires i <= |s.listings|
    ensures RecordedUpTo(h, s, i, HistoriesAfter(h, s, i))
  {
    if i > 0 {
      var m := HistoriesAfter(h, s, i - 1);
      HistoriesAfterSpec(h, s, i - 1);
      RecordedStep(h, s, i, m);
    } else {
      assert s.listings[..0] == [];
    }
  }

  /** `OrdersAfter` meets `OrderedUpTo`. */
  lemma {:induction false} OrdersAfterSpec(h: map<Product, seq<Trade>>, s: TradingState, i: nat)
    requires RunAdmissible(h, s)
    requires i <= |s.listings|
    ensures OrderedUpTo(h, s, i, OrdersAfter(h, s, i))
  {
    if i > 0 {
      var result := OrdersAfter(h, s, i - 1);
      OrdersAfterSpec(h, s, i - 1);
      OrderedStep(h, s, i, result);
    } else {
      assert s.listings[..0] == [];
    }
  }

  /** When `run` reaches the `i`-th product, its stored history is still
      the one it had before the tick. */
  lemma PendingHistory(h: map<Product, seq<Trade>>, s: TradingState, i: nat)
    requires Distinct(s.listings)
    requires i < |s.listings|
    ensures HistoryOf(HistoriesAfter(h, s, i), s.listings[i]) == HistoryOf(h, s.listings[i])
  {
    HistoriesAfterSpec(h, s, i);
    assert FirstOccurrence(s.listings, i);
    assert RecordedAt(h, s, s.listings[..i], HistoriesAfter(h, s, i), s.listings[i]);
  }

  /** What the `i`-th iteration of `run` computes, stated on the histories
      it starts from: recording the product's trades gives its extended
      history, which is priceable, and the iteration leaves the histories
      and orders of `HistoriesAfter` and `OrdersAfter` at `i + 1`. */
  lemma IterationStep(h: map<Product, seq<Trade>>, s: TradingState, i: nat)
    requires RunAdmissible(h, s)
    requires i < |s.listings|
    ensures var p := s.listings[i];
      var rec := RecordTrades(HistoriesAfter(h, s, i), s.marketTrades, p);
      && Admissible(h, s, p)
      && p in s.orderDepths
      && HistoryOf(rec, p) == Extended(h, s.marketTrades, p)
      && Priceable(HistoryOf(rec, p))
      && HistoriesAfter(h, s, i + 1) == rec[p := HistoryOf(rec, p)]
      && OrdersAfter(h, s, i + 1) == OrderStep(h, s, OrdersAfter(h, s, i), p)
  {
    var p := s.listings[i];
    assert Admissible(h, s, p) by { assert p in s.listings; }
    var m := HistoriesAfter(h, s, i);
    PendingHistory(h, s, i);
    var rec := RecordTrades(m, s.marketTrades, p);
    assert HistoryOf(rec, p) == Extended(h, s.marketTrades, p);
    assert rec[p := HistoryOf(rec, p)] == m[p := Extended(h, s.marketTrades, p)];
  }

  class Trader {
    /** Per-product history of recorded market trades (a `defaultdict(list)`). */
    var tradePrices: map<Product, seq<Trade>>

    constructor ()
      ensures tradePrices == map[]
    {
      tradePrices := map[];
    }

    /** `calculate_fair_value`: reads the stored history (creating an empty
        entry, as a `defaultdict` does) and returns its fair value. */
    method CalculateFairValue(product: Product) returns (fv: Option<real>)
      requires Priceable(HistoryOf(tradePrices, product))
      modifies this
      ensures tradePrices == old(tradePrices)[product := HistoryOf(old(tradePrices), product)]
      ensures forall p :: HistoryOf(tradePrices, p) == HistoryOf(old(tradePrices), p)
      ensures fv == FairValueOf(HistoryOf(old(tradePrices), product))
    {
      var prevTrades := HistoryOf(tradePrices, product);
      tradePrices := tradePrices[product := prevTrades];
      if |prevTrades| < MinSampleSize {
        return None;
      }
      var totalVolume, totalQuantity := WeightedTotals(LastN(prevTrades, MaxSampleSize));
      return Some((totalVolume as real) / (totalQuantity as real));
    }

    /** `run`: records each listed product's market trades, prices it, and
        gives each product with a fair value its liquidity-taking orders. */
    method Run(state: TradingState) returns (result: map<Product, seq<Order>>)
      requires RunAdmissible(tradePrices, state)
      modifies this
      ensures forall q :: q in tradePrices <==> q in old(tradePrices) || q in state.listings
      ensures forall q :: HistoryOf(tradePrices, q) == Recorded(old(tradePrices), state.marketTrades, state.listings, q)
      ensures forall p :: p in result <==> p in state.listings && RunFairValue(old(tradePrices), state, p).Some?
      ensures forall p :: p in result ==>
        result[p] == TakingOrders(p, RunFairValue(old(tradePrices), state, p).value, state.orderDepths[p])
    {
      ghost var h0 := tradePrices;
      var listings := state.listings;
      result := map[];
      for i := 0 to |listings|
        invariant tradePrices == HistoriesAfter(h0, state, i)
        invariant result == OrdersAfter(h0, state, i)
      {
        var product := listings[i];
        IterationStep(h0, state, i);
        var orderDepth := state.orderDepths[product];
        if product in state.marketTrades {
          tradePrices := tradePrices[product := HistoryOf(tradePrices, product) + state.marketTrades[product]];
        }
        var fairValue := CalculateFairValue(product);
        if fairValue.None? {
          continue;
        }
        var orders := TakeLiquidity(product, fairValue.value, orderDepth);
        result := result[product := orders];
      }
      HistoriesAfterSpec(h0, state, |listings|);
      OrdersAfterSpec(h0, state, |listings|);
      assert listings[..|listings|] == listings;
      forall q
        ensures q in tradePrices <==> q in h0 || q in listings
        ensures HistoryOf(tradePrices, q) == Recorded(h0, state.marketTrades, listings, q)
      {
        assert RecordedAt(h0, state, listings[..|listings|], tradePrices, q);
      }
      forall p ensures p in result <==> p in listings && RunFairValue(h0, state, p).Some? {
        assert OrderedAt(h0, state, |listings|, result, p);
      }
      forall p | p in result
        ensures Admissible(h0, state, p)
        ensures result[p] == TakingOrders(p, RunFairValue(h0, state, p).value, state.orderDepths[p])
      {
        assert OrderedAt(h0, state, |listings|, result, p);
      }
    }
  }
}
