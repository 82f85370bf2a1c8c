/** The second trader (trader_j.py): the stored history of every product is
    trimmed in place to its last 100 trades whenever it is priced (at least
    5 needed for a VWAP fair value). PEARLS and BANANAS go to a separate
    order routine, and COCONUTS and PINA_COLADAS are traded against each
    other by comparing their fair values. */
module TraderJ {
  import opened DataModel
  import opened FairValue

  const MinSampleSize: nat := 5
  const MaxSampleSize: nat := 100

  const Pearls: Product := "PEARLS"
  const Bananas: Product := "BANANAS"
  const Coconuts: Product := "COCONUTS"
  const PinaColadas: Product := "PINA_COLADAS"

  /** The products `run` hands to the separate order routine. */
  const PearlsAndBananas: set<Product> := {Pearls, Bananas}

  /** The pair traded by fair-value comparison. */
  const Pairs: set<Product> := {Coconuts, PinaColadas}

  /** The two groups of products `run` dispatches share no product. */
  lemma ProductGroupsDisjoint()
    ensures PearlsAndBananas !! Pairs
  {
  }

  /** The stored history after the in-place trim: its last 100 trades. */
  function Trimmed(h: seq<Trade>): seq<Trade> {
    LastN(h, MaxSampleSize)
  }

  /** The estimator's division is defined: either it returns before dividing
      or the retained trades' quantities do not sum to zero. */
  ghost predicate Priceable(h: seq<Trade>) {
    |Trimmed(h)| < MinSampleSize || SumQ(Trimmed(h)) != 0
  }

  /** The fair value `calculate_fair_value` returns for a stored history. */
  ghost function FairValueOf(h: seq<Trade>): Option<real>
    requires Priceable(h)
  {
    if Sampled(h) then Some(Vwap(Trimmed(h))) else None
  }

  /** Enough trades are retained to price the history. */
  ghost predicate Sampled(h: seq<Trade>) {
    |Trimmed(h)| >= MinSampleSize
  }

  /** The trimmed history holds at most 100 trades and is a suffix of the
      history before the trim. */
  lemma TrimmedIsBoundedSuffix(h: seq<Trade>)
    ensures |Trimmed(h)| <= MaxSampleSize
    ensures |Trimmed(h)| == if |h| <= MaxSampleSize then |h| else MaxSampleSize
    ensures Trimmed(h) == h[|h| - |Trimmed(h)|..]
  {
  }

  /** Trimming twice keeps what trimming once keeps. */
  lemma TrimIdempotent(h: seq<Trade>)
    ensures Trimmed(Trimmed(h)) == Trimmed(h)
  {
  }

  /** Trimming a history, then appending trades and trimming again, keeps
      the same trades as appending to the untrimmed history and trimming
      once: an earlier trim never changes a later fair value. */
  lemma TrimAbsorbsEarlierTrim(h: seq<Trade>, t: seq<Trade>)
    ensures Trimmed(Trimmed(h) + t) == Trimmed(h + t)
  {
    var n := MaxSampleSize;
    if |h| > n {
      var k := |h| - n;
      assert h + t == h[..k] + (Trimmed(h) + t);
      var a := Trimmed(h) + t;
      if |a| > n {
        assert (h + t)[|h + t| - n..] == a[|a| - n..];
      }
    }
  }

  /** The price of a history depends only on the trades a trim keeps. */
  lemma SameTrimSamePrice(a: seq<Trade>, b: seq<Trade>)
    requires Trimmed(a) == Trimmed(b)
    ensures Priceable(a) == Priceable(b)
    ensures Priceable(a) ==> FairValueOf(a) == FairValueOf(b)
  {
  }

  /** No fair value exactly when fewer than 5 trades are stored; then the
      VWAP of all retained trades. */
  lemma FairValueNoneIff(h: seq<Trade>)
    requires Priceable(h)
    ensures FairValueOf(h).None? <==> |h| < MinSampleSize
    ensures FairValueOf(h).Some? ==> FairValueOf(h).value == Vwap(Trimmed(h))
  {
    TrimmedIsBoundedSuffix(h);
  }

  /** Pricing the trimmed history again gives the same value and leaves the
      same history: a second `calculate_fair_value` changes nothing. */
  lemma FairValueRepeatable(h: seq<Trade>)
    requires Priceable(h)
    ensures Trimmed(Trimmed(h)) == Trimmed(h)
    ensures Priceable(Trimmed(h)) && FairValueOf(Trimmed(h)) == FairValueOf(h)
  {
    TrimIdempotent(h);
    SameTrimSamePrice(Trimmed(h), h);
  }

  /** Retained trades all at one price `p` give fair value exactly `p`. */
  lemma ConstantPriceFairValue(h: seq<Trade>, p: int)
    requires |h| >= MinSampleSize
    requires forall t :: t in Trimmed(h) ==> t.price == p
    requires SumQ(Trimmed(h)) != 0
    ensures FairValueOf(h) == Some(p as real)
  {
    TrimmedIsBoundedSuffix(h);
    ConstantPriceVwap(Trimmed(h), p);
  }

  /** The product a pairs product is compared with. */
  function RelatedProduct(product: Product): Product {
    if product == PinaColadas then Coconuts else PinaColadas
  }

  /** COCONUTS and PINA_COLADAS are each other's related product. */
  lemma RelatedProductPairs(product: Product)
    ensures RelatedProduct(product) in Pairs
    ensures product in Pairs ==> RelatedProduct(product) != product
    ensures product in Pairs ==> RelatedProduct(RelatedProduct(product)) == product
  {
  }

  /** The single order of the pairs comparison once both fair values are
      known: buy the whole best ask when the product is priced below its
      partner, else sell the whole best bid when it is priced above, else
      nothing. */
  ghost function PairOrder(product: Product, fv: real, relatedFv: real, d: OrderDepth): seq<Order> {
    if fv < relatedFv && |d.sellOrders| > 0 then
      [Order(product, BestAsk(d), -d.sellOrders[BestAsk(d)])]
    else if fv > relatedFv && |d.buyOrders| > 0 then
      [Order(product, BestBid(d), -d.buyOrders[BestBid(d)])]
    else []
  }

  /** The orders of `process_statistical_arbitrage_orders`: none when the
      partner has no fair value, else the comparison against the product's
      own order book. */
  ghost function ArbOrders(product: Product, fv: real, relatedFv: Option<real>,
                           depths: map<Product, OrderDepth>): seq<Order>
    requires relatedFv.Some? ==> product in depths
  {
    if relatedFv.None? then [] else PairOrder(product, fv, relatedFv.value, depths[product])
  }

  /** At most one order; none without a partner fair value or when the two
      fair values are equal; a buy at the best ask for the offered volume
      when cheaper with asks present; a sell at the best bid for the bid
      volume when dearer with bids present. */
  lemma ArbOrdersShape(product: Product, fv: real, relatedFv: Option<real>, depths: map<Product, OrderDepth>)
    requires relatedFv.Some? ==> product in depths
    ensures var r := ArbOrders(product, fv, relatedFv, depths);
      && |r| <= 1
      && (relatedFv.None? ==> r == [])
      && (relatedFv.Some? && fv == relatedFv.value ==> r == [])
      && (relatedFv.Some? && fv < relatedFv.value ==>
            var d := depths[product];
            r == if |d.sellOrders| > 0 then [Order(product, BestAsk(d), -d.sellOrders[BestAsk(d)])] else [])
      && (relatedFv.Some? && fv > relatedFv.value ==>
            var d := depths[product];
            r == if |d.buyOrders| > 0 then [Order(product, BestBid(d), -d.buyOrders[BestBid(d)])] else [])
  {
  }

  /** `a` is listed strictly before `b`. */
  ghost predicate ListedBefore(xs: seq<Product>, a: Product, b: Product) {
    exists j, k :: 0 <= j < k < |xs| && xs[j] == a && xs[k] == b
  }

  /** Two positions that both hold the first occurrence of the same key
      are the same position. */
  lemma SameFirstOccurrence(xs: seq<Product>, i: nat, k: nat)
    requires i < |xs| && k < |xs|
    requires xs[i] == xs[k]
    ensures FirstOccurrence(xs, i) && FirstOccurrence(xs, k) ==> i == k
  {
    if k < i {
      assert xs[..i][k] == xs[i];
    } else if i < k {
      assert xs[..k][i] == xs[k];
    }
  }

  /** In distinct listings, what is listed before the `i`-th product is
      what occurs among the first `i`. */
  lemma ListedBeforeIndex(xs: seq<Product>, i: nat, a: Product)
    requires Distinct(xs)
    requires i < |xs|
    ensures ListedBefore(xs, a, xs[i]) <==> a in xs[..i]
  {
    if a in xs[..i] {
      var j :| 0 <= j < i && xs[..i][j] == a;
      assert xs[j] == a;
    }
    if ListedBefore(xs, a, xs[i]) {
      var j, k :| 0 <= j < k < |xs| && xs[j] == a && xs[k] == xs[i];
      SameFirstOccurrence(xs, i, k);
      assert xs[..i][j] == a;
    }
  }

  /** `run` reaches `process_statistical_arbitrage_orders` for `p`: a listed
      pairs product with a fair value. */
  ghost predicate ArbCalled(h: map<Product, seq<Trade>>, s: TradingState, p: Product) {
    && p in s.listings
    && p in Pairs
    && Priceable(Extended(h, s.marketTrades, p))
    && Sampled(Extended(h, s.marketTrades, p))
  }

  /** The history the partner of `p` is priced from when `run` reaches `p`
      (up to trimming): it holds this tick's trades only when the partner
      was listed, and so recorded, before `p`. */
  ghost function RelatedHistory(h: map<Product, seq<Trade>>, s: TradingState, p: Product): seq<Trade> {
    var r := RelatedProduct(p);
    if ListedBefore(s.listings, r, p) then Extended(h, s.marketTrades, r) else HistoryOf(h, r)
  }

  /** What `run` relies on for one listed product: it has an order book;
      no fair-value division is by zero; and the partner's book exists
      whenever the pairs comparison looks it up. */
  ghost predicate Admissible(h: map<Product, seq<Trade>>, s: TradingState, p: Product) {
    && p in s.orderDepths
    && Priceable(Extended(h, s.marketTrades, p))
    && (ArbCalled(h, s, p) ==>
          && Priceable(RelatedHistory(h, s, p))
          && (Sampled(RelatedHistory(h, s, p)) ==> RelatedProduct(p) in s.orderDepths))
  }

  /** Everything `run` may rely on: the listed products are distinct and
      each of them is admissible. */
  ghost predicate RunAdmissible(h: map<Product, seq<Trade>>, s: TradingState) {
    && Distinct(s.listings)
    && forall p {:trigger Admissible(h, s, p)} :: p in s.listings ==> Admissible(h, s, p)
  }

  /** The fair value `run` computes for a listed product. */
  ghost function RunFairValue(h: map<Product, seq<Trade>>, s: TradingState, p: Product): Option<real>
    requires Admissible(h, s, p)
  {
    FairValueOf(Extended(h, s.marketTrades, p))
  }

  /** The products `run` dispatches to an order routine. */
  const Handled: set<Product> := PearlsAndBananas + Pairs

  /** The orders `run` returns for a listed, handled product with a fair
      value; `processOrders` stands for the PEARLS/BANANAS routine. */
  ghost function RunOrders(h: map<Product, seq<Trade>>, s: TradingState,
                           processOrders: (real, OrderDepth) -> seq<Order>, p: Product): seq<Order>
    requires p in s.listings && Admissible(h, s, p)
    requires p in Handled && Sampled(Extended(h, s.marketTrades, p))
  {
    var fv := RunFairValue(h, s, p).value;
    if p in PearlsAndBananas then processOrders(fv, s.orderDepths[p])
    else ArbOrders(p, fv, FairValueOf(RelatedHistory(h, s, p)), s.orderDepths)
  }

  /** `q` is one of the pair and was trimmed as the partner by the pairs
      comparison of the other one, which is among `listed`. */
  ghost predicate TrimmedAsPartner(h: map<Product, seq<Trade>>, s: TradingState, listed: seq<Product>, q: Product) {
    || (q == Coconuts && PinaColadas in listed && ArbCalled(h, s, PinaColadas))
    || (q == PinaColadas && Coconuts in listed && ArbCalled(h, s, Coconuts))
  }

  /** The stored history of `q` once `run` has processed the products in
      `listed`: recorded and trimmed if `q` is among them, trimmed only if
      its partner's comparison priced it, else as before. */
  ghost function HistoryAfter(h: map<Product, seq<Trade>>, s: TradingState, listed: seq<Product>, q: Product): seq<Trade> {
    if q in listed then Trimmed(Extended(h, s.marketTrades, q))
    else if TrimmedAsPartner(h, s, listed, q) then Trimmed(HistoryOf(h, q))
    else HistoryOf(h, q)
  }

  /** Once `run` has processed the products in `listed`, `q` is stored
      exactly when it was stored before, is among them or was trimmed as a
      partner, and its stored history is the one `HistoryAfter` describes. */
  ghost predicate RecordedAt(h: map<Product, seq<Trade>>, s: TradingState, listed: seq<Product>,
                             m: map<Product, seq<Trade>>, q: Product)
  {
    && (q in m <==> q in h || q in listed || TrimmedAsPartner(h, s, listed, q))
    && HistoryOf(m, q) == HistoryAfter(h, s, listed, q)
  }

  /** After `run` has processed the first `i` listed products, the stored
      histories are exactly those `HistoryAfter` describes. */
  ghost predicate RecordedUpTo(h: map<Product, seq<Trade>>, s: TradingState, i: nat, m: map<Product, seq<Trade>>)
    requires i <= |s.listings|
  {
    forall q :: RecordedAt(h, s, s.listings[..i], m, q)
  }

  /** Once `run` has processed the first `i` listed products, `p` has
      orders exactly when it is among them, handled and sampled, and they
      are the orders `RunOrders` describes. */
  ghost predicate OrderedAt(h: map<Product, seq<Trade>>, s: TradingState,
                            processOrders: (real, OrderDepth) -> seq<Order>, i: nat,
                            result: map<Product, seq<Order>>, p: Product)
    requires RunAdmissible(h, s)
    requires i <= |s.listings|
  {
    && (p in result <==> p in s.listings[..i] && p in Handled && Sampled(Extended(h, s.marketTrades, p)))
    && (p in result ==> result[p] == RunOrders(h, s, processOrders, p))
  }

  /** After `run` has processed the first `i` listed products, exactly the
      handled ones with a fair value have their orders. */
  ghost predicate OrderedUpTo(h: map<Product, seq<Trade>>, s: TradingState,
                              processOrders: (real, OrderDepth) -> seq<Order>, i: nat,
                              result: map<Product, seq<Order>>)
    requires RunAdmissible(h, s)
    requires i <= |s.listings|
  {
    forall p :: OrderedAt(h, s, processOrders, i, result, p)
  }

  /** One iteration of `run` on the stored histories `m`: the product's
      history is recorded and trimmed and, when the pairs comparison runs,
      the partner's history is trimmed. */
  ghost function RecordStep(h: map<Product, seq<Trade>>, s: TradingState, m: map<Product, seq<Trade>>, p: Product)
    : map<Product, seq<Trade>>
  {
    var m1 := m[p := Trimmed(Extended(h, s.marketTrades, p))];
    var r := RelatedProduct(p);
    if ArbCalled(h, s, p) then m1[r := Trimmed(HistoryOf(m1, r))] else m1
  }

  /** The stored histories once `run` has processed the first `i` listed
      products. */
  ghost function HistoriesAfter(h: map<Product, seq<Trade>>, s: TradingState, i: nat): map<Product, seq<Trade>>
    requires i <= |s.listings|
  {
    if i == 0 then h else RecordStep(h, s, HistoriesAfter(h, s, i - 1), s.listings[i - 1])
  }

  /** One iteration of `run` on the collected orders `result`. */
  ghost function OrderStep(h: map<Product, seq<Trade>>, s: TradingState,
                           processOrders: (real, OrderDepth) -> seq<Order>,
                           result: map<Product, seq<Order>>, p: Product): map<Product, seq<Order>>
    requires p in s.listings && Admissible(h, s, p)
  {
    if p in Handled && Sampled(Extended(h, s.marketTrades, p))
    then result[p := RunOrders(h, s, processOrders, p)] else result
  }

  /** The orders `run` has collected once it has processed the first `i`
      listed products. */
  ghost function OrdersAfter(h: map<Product, seq<Trade>>, s: TradingState,
                             processOrders: (real, OrderDepth) -> seq<Order>, i: nat): map<Product, seq<Order>>
    requires RunAdmissible(h, s)
    requires i <= |s.listings|
  {
    if i == 0 then map[]
    else OrderStep(h, s, processOrders, OrdersAfter(h, s, processOrders, i - 1), s.listings[i - 1])
  }

  /** A product other than the `i`-th and other than the partner it prices
      keeps its recorded history across the `i`-th iteration. */
  lemma UntouchedAcrossStep(h: map<Product, seq<Trade>>, s: TradingState, i: nat, q: Product)
    requires i < |s.listings|
    requires q != s.listings[i]
    requires !(ArbCalled(h, s, s.listings[i]) && q == RelatedProduct(s.listings[i]))
    ensures q in s.listings[..i + 1] <==> q in s.listings[..i]
    ensures TrimmedAsPartner(h, s, s.listings[..i + 1], q) <==> TrimmedAsPartner(h, s, s.listings[..i], q)
    ensures HistoryAfter(h, s, s.listings[..i + 1], q) == HistoryAfter(h, s, s.listings[..i], q)
  {
    var p := s.listings[i];
    var before, after := s.listings[..i], s.listings[..i + 1];
    assert after == before + [p];
    if q in Pairs && RelatedProduct(q) == p {
      RelatedProductPairs(q);
    }
  }

  /** The partner priced in the `i`-th iteration ends up trimmed. */
  lemma PartnerAcrossStep(h: map<Product, seq<Trade>>, s: TradingState, i: nat)
    requires Distinct(s.listings)
    requires i < |s.listings|
    requires ArbCalled(h, s, s.listings[i])
    ensures var r := RelatedProduct(s.listings[i]);
      && r != s.listings[i]
      && TrimmedAsPartner(h, s, s.listings[..i + 1], r)
      && HistoryAfter(h, s, s.listings[..i + 1], r) == Trimmed(HistoryAfter(h, s, s.listings[..i], r))
  {
    var p := s.listings[i];
    var r := RelatedProduct(p);
    var before, after := s.listings[..i], s.listings[..i + 1];
    assert after == before + [p];
    RelatedProductPairs(p);
    if r in before {
      TrimIdempotent(Extended(h, s.marketTrades, r));
    } else if TrimmedAsPartner(h, s, before, r) {
      TrimIdempotent(HistoryOf(h, r));
    }
  }

  /** One iteration of `run` keeps `RecordedUpTo`: the product's history is
      recorded and trimmed, and its partner's is trimmed when compared. */
  lemma RecordedStep(h: map<Product, seq<Trade>>, s: TradingState, i: nat, m: map<Product, seq<Trade>>)
    requires Distinct(s.listings)
    requires 0 < i <= |s.listings|
    requires RecordedUpTo(h, s, i - 1, m)
    ensures RecordedUpTo(h, s, i, RecordStep(h, s, m, s.listings[i - 1]))
  {
    var p := s.listings[i - 1];
    var r := RelatedProduct(p);
    var m1 := m[p := Trimmed(Extended(h, s.marketTrades, p))];
    var m2 := RecordStep(h, s, m, p);
    var before, after := s.listings[..i - 1], s.listings[..i];
    assert after == before + [p];
    var called := ArbCalled(h, s, p);
    if called {
      PartnerAcrossStep(h, s, i - 1);
    }
    forall q ensures RecordedAt(h, s, after, m2, q) {
      if q == p {
        assert p in after;
        assert HistoryOf(m2, p) == HistoryOf(m1, p);
      } else if called && q == r {
        assert RecordedAt(h, s, before, m, r);
        assert HistoryOf(m1, r) == HistoryOf(m, r);
        assert HistoryOf(m2, r) == Trimmed(HistoryOf(m1, r));
      } else {
        assert RecordedAt(h, s, before, m, q);
        UntouchedAcrossStep(h, s, i - 1, q);
        assert HistoryOf(m2, q) == HistoryOf(m, q);
      }
    }
  }

  /** One iteration of `run` keeps `OrderedUpTo`. */
  lemma OrderedStep(h: map<Product, seq<Trade>>, s: TradingState,
                    processOrders: (real, OrderDepth) -> seq<Order>, i: nat,
                    result: map<Product, seq<Order>>)
    requires RunAdmissible(h, s)
    requires 0 < i <= |s.listings|
    requires OrderedUpTo(h, s, processOrders, i - 1, result)
    ensures OrderedUpTo(h, s, processOrders, i, OrderStep(h, s, processOrders, result, s.listings[i - 1]))
  {
    var p := s.listings[i - 1];
    var r' := OrderStep(h, s, processOrders, result, p);
    var before, after := s.listings[..i - 1], s.listings[..i];
    assert after == before + [p];
    assert FirstOccurrence(s.listings, i - 1);
    forall q ensures OrderedAt(h, s, processOrders, i, r', q) {
      assert OrderedAt(h, s, processOrders, i - 1, result, q);
      if q == p {
        assert p in after && p !in before;
      } else {
        assert q in r' <==> q in result;
        assert q in after <==> q in before;
        if q in r' {
          assert r'[q] == result[q];
        }
      }
    }
  }

  /** `HistoriesAfter` meets `RecordedUpTo`. */
  lemma {:induction false} HistoriesAfterSpec(h: map<Product, seq<Trade>>, s: TradingState, i: nat)
    requires Distinct(s.listings)
    requires i <= |s.listings|
    ensures RecordedUpTo(h, s, i, HistoriesAfter(h, s, i))
  {
    if i > 0 {
      var m := HistoriesAfter(h, s, i - 1);
      HistoriesAfterSpec(h, s, i - 1);
      RecordedStep(h, s, i, m);
    } else {
      assert s.listings[..0] == [];
      forall q ensures RecordedAt(h, s, [], h, q) {
        assert !TrimmedAsPartner(h, s, [], q);
      }
    }
  }

  /** `OrdersAfter` meets `OrderedUpTo`. */
  lemma {:induction false} OrdersAfterSpec(h: map<Product, seq<Trade>>, s: TradingState,
                                           processOrders: (real, OrderDepth) -> seq<Order>, i: nat)
    requires RunAdmissible(h, s)
    requires i <= |s.listings|
    ensures OrderedUpTo(h, s, processOrders, i, OrdersAfter(h, s, processOrders, i))
  {
    if i > 0 {
      var result := OrdersAfter(h, s, processOrders, i - 1);
      OrdersAfterSpec(h, s, processOrders, i - 1);
      OrderedStep(h, s, processOrders, i, result);
    } else {
      assert s.listings[..0] == [];
    }
  }

  /** When `run` reaches the `i`-th product, recording its trades and
      trimming gives the same trades as recording into the history it had
      before the tick and trimming, whatever earlier trims happened. */
  lemma PendingHistory(h: map<Product, seq<Trade>>, s: TradingState, i: nat)
    requires Distinct(s.listings)
    requires i < |s.listings|
    ensures var p := s.listings[i];
      Trimmed(HistoryOf(HistoriesAfter(h, s, i), p) + (if p in s.marketTrades then s.marketTrades[p] else []))
        == Trimmed(Extended(h, s.marketTrades, p))
  {
    var p := s.listings[i];
    var t := if p in s.marketTrades then s.marketTrades[p] else [];
    HistoriesAfterSpec(h, s, i);
    assert FirstOccurrence(s.listings, i);
    assert RecordedAt(h, s, s.listings[..i], HistoriesAfter(h, s, i), p);
    if TrimmedAsPartner(h, s, s.listings[..i], p) {
      TrimAbsorbsEarlierTrim(HistoryOf(h, p), t);
    }
  }

  /** When `run` compares the `i`-th product with its partner, the partner's
      stored history trims to the trades of `RelatedHistory`. */
  lemma PartnerHistory(h: map<Product, seq<Trade>>, s: TradingState, i: nat)
    requires Distinct(s.listings)
    requires i < |s.listings|
    requires s.listings[i] in Pairs
    ensures var p := s.listings[i];
      && RelatedProduct(p) != p
      && Trimmed(HistoryOf(HistoriesAfter(h, s, i), RelatedProduct(p))) == Trimmed(RelatedHistory(h, s, p))
  {
    var p := s.listings[i];
    var r := RelatedProduct(p);
    HistoriesAfterSpec(h, s, i);
    RelatedProductPairs(p);
    ListedBeforeIndex(s.listings, i, r);
    assert RecordedAt(h, s, s.listings[..i], HistoriesAfter(h, s, i), r);
    if r in s.listings[..i] {
      TrimIdempotent(Extended(h, s.marketTrades, r));
    }
  }

  /** When `run` reaches the `i`-th product, recording its trades and
      letting `calculate_fair_value` trim them leaves the histories
      `HistoriesAfter(h, s, i)` with the product's entry replaced by its
      trimmed extended history, and prices it at its run fair value. */
  lemma RecordAndPrice(h: map<Product, seq<Trade>>, s: TradingState, i: nat)
    requires RunAdmissible(h, s)
    requires i < |s.listings|
    ensures Admissible(h, s, s.listings[i])
    ensures var p := s.listings[i];
      var rec := RecordTrades(HistoriesAfter(h, s, i), s.marketTrades, p);
      && Priceable(HistoryOf(rec, p))
      && FairValueOf(HistoryOf(rec, p)) == RunFairValue(h, s, p)
      && rec[p := Trimmed(HistoryOf(rec, p))]
           == HistoriesAfter(h, s, i)[p := Trimmed(Extended(h, s.marketTrades, p))]
  {
    var p := s.listings[i];
    assert Admissible(h, s, p) by { assert p in s.listings; }
    var m := HistoriesAfter(h, s, i);
    var t := if p in s.marketTrades then s.marketTrades[p] else [];
    var rec := RecordTrades(m, s.marketTrades, p);
    PendingHistory(h, s, i);
    assert HistoryOf(rec, p) == HistoryOf(m, p) + t;
    SameTrimSamePrice(HistoryOf(rec, p), Extended(h, s.marketTrades, p));
  }

  /** What the `i`-th iteration of `run` computes when it does not compare
      pairs: it prices the recorded product at its run fair value, leaves
      the histories `HistoriesAfter(h, s, i + 1)`, and adds the orders
      `OrdersAfter` adds. */
  lemma IterationStep(h: map<Product, seq<Trade>>, s: TradingState,
                      processOrders: (real, OrderDepth) -> seq<Order>, i: nat)
    requires RunAdmissible(h, s)
    requires i < |s.listings|
    ensures Admissible(h, s, s.listings[i])
    ensures var p := s.listings[i];
      var rec := RecordTrades(HistoriesAfter(h, s, i), s.marketTrades, p);
      && Priceable(HistoryOf(rec, p))
      && FairValueOf(HistoryOf(rec, p)) == RunFairValue(h, s, p)
    ensures var p := s.listings[i];
      var rec := RecordTrades(HistoriesAfter(h, s, i), s.marketTrades, p);
      !(p in Pairs && Sampled(Extended(h, s.marketTrades, p))) ==>
        HistoriesAfter(h, s, i + 1) == rec[p := Trimmed(HistoryOf(rec, p))]
    ensures var p := s.listings[i];
      !(p in Handled && Sampled(Extended(h, s.marketTrades, p))) ==>
        OrdersAfter(h, s, processOrders, i + 1) == OrdersAfter(h, s, processOrders, i)
    ensures var p := s.listings[i];
      p in PearlsAndBananas && Sampled(Extended(h, s.marketTrades, p)) ==>
        OrdersAfter(h, s, processOrders, i + 1) ==
          OrdersAfter(h, s, processOrders, i)[p := processOrders(RunFairValue(h, s, p).value, s.orderDepths[p])]
  {
    RecordAndPrice(h, s, i);
    ProductGroupsDisjoint();
  }

  /** What the `i`-th iteration of `run` computes when it compares a
      sampled pairs product with its partner: the partner is priceable and
      has the order books the comparison reads, its trimmed history is
      stored as in `HistoriesAfter(h, s, i + 1)`, and the comparison's
      orders are those `OrdersAfter` adds. */
  lemma PairsIterationStep(h: map<Product, seq<Trade>>, s: TradingState,
                           processOrders: (real, OrderDepth) -> seq<Order>, i: nat)
    requires RunAdmissible(h, s)
    requires i < |s.listings|
    requires s.listings[i] in Pairs && Sampled(Extended(h, s.marketTrades, s.listings[i]))
    ensures Admissible(h, s, s.listings[i])
    ensures var p := s.listings[i];
      var rec := RecordTrades(HistoriesAfter(h, s, i), s.marketTrades, p);
      var m1 := rec[p := Trimmed(HistoryOf(rec, p))];
      var r := RelatedProduct(p);
      && Priceable(HistoryOf(m1, r))
      && (Sampled(HistoryOf(m1, r)) ==> p in s.orderDepths && r in s.orderDepths)
      && HistoriesAfter(h, s, i + 1) == m1[r := Trimmed(HistoryOf(m1, r))]
      && OrdersAfter(h, s, processOrders, i + 1) ==
           OrdersAfter(h, s, processOrders, i)[p := ArbOrders(p, RunFairValue(h, s, p).value,
                                                              FairValueOf(HistoryOf(m1, r)), s.orderDepths)]
  {
    var p := s.listings[i];
    var r := RelatedProduct(p);
    var m := HistoriesAfter(h, s, i);
    var m1 := m[p := Trimmed(Extended(h, s.marketTrades, p))];
    RecordAndPrice(h, s, i);
    ProductGroupsDisjoint();
    PartnerHistory(h, s, i);
    assert HistoryOf(m1, r) == HistoryOf(m, r);
    SameTrimSamePrice(HistoryOf(m1, r), RelatedHistory(h, s, p));
  }

  class Trader {
    /** Per-product history of recorded market trades (a `defaultdict(list)`). */
    var tradePrices: map<Product, seq<Trade>>

    constructor ()
      ensures tradePrices == map[]
    {
      tradePrices := map[];
    }

    /** `calculate_fair_value`: trims the stored history in place to its
        last 100 trades, then prices what is left. */
    method CalculateFairValue(product: Product) returns (fv: Option<real>)
      requires Priceable(HistoryOf(tradePrices, product))
      modifies this
      ensures tradePrices == old(tradePrices)[product := Trimmed(HistoryOf(old(tradePrices), product))]
      ensures fv == FairValueOf(HistoryOf(old(tradePrices), product))
    {
      tradePrices := tradePrices[product := LastN(HistoryOf(tradePrices, product), MaxSampleSize)];
      var prevTrades := tradePrices[product];
      if |prevTrades| < MinSampleSize {
        return None;
      }
      var totalVolume, totalQuantity := WeightedTotals(prevTrades);
      return Some((totalVolume as real) / (totalQuantity as real));
    }

    /** The comparison step of `process_statistical_arbitrage_orders`:
        takes the whole best ask when `product` is cheaper than its partner,
        else hits the whole best bid when it is dearer. */
    method OrderAgainstPartner(product: Product, fairValue: real, relatedFairValue: real, orderDepth: OrderDepth)
      returns (orders: seq<Order>)
      ensures orders == PairOrder(product, fairValue, relatedFairValue, orderDepth)
    {
      orders := [];
      if fairValue < relatedFairValue && |orderDepth.sellOrders| > 0 {
        var bestAsk := MinKey(orderDepth.sellOrders);
        var bestAskVolume := orderDepth.sellOrders[bestAsk];
        assert bestAsk == BestAsk(orderDepth);
        orders := orders + [Order(product, bestAsk, -bestAskVolume)];
      } else if fairValue > relatedFairValue && |orderDepth.buyOrders| > 0 {
        var bestBid := MaxKey(orderDepth.buyOrders);
        var bestBidVolume := orderDepth.buyOrders[bestBid];
        assert bestBid == BestBid(orderDepth);
        orders := orders + [Order(product, bestBid, -bestBidVolume)];
      }
    }

    /** `process_statistical_arbitrage_orders`: prices the partner product
        (trimming its history) and emits at most one order for `product`. */
    method ProcessStatisticalArbitrageOrders(state: TradingState, product: Product, fairValue: real)
      returns (orders: seq<Order>)
      requires Priceable(HistoryOf(tradePrices, RelatedProduct(product)))
      requires Sampled(HistoryOf(tradePrices, RelatedProduct(product))) ==>
                 product in state.orderDepths && RelatedProduct(product) in state.orderDepths
      modifies this
      ensures tradePrices == old(tradePrices)[RelatedProduct(product) :=
                               Trimmed(HistoryOf(old(tradePrices), RelatedProduct(product)))]
      ensures orders == ArbOrders(product, fairValue,
                                  FairValueOf(HistoryOf(old(tradePrices), RelatedProduct(product))),
                                  state.orderDepths)
    {
      orders := [];
      var relatedProduct := RelatedProduct(product);
      var relatedFairValue := CalculateFairValue(relatedProduct);
      if relatedFairValue.None? {
        return;
      }
      var orderDepth := state.orderDepths[product];
      // Unused, as in the source; kept because the lookup fails on a missing book.
      var relatedOrderDepth := state.orderDepths[relatedProduct];
      orders := OrderAgainstPartner(product, fairValue, relatedFairValue.value, orderDepth);
    }

    /** `run`: records each listed product's market trades, prices it, and
        dispatches the handled products with a fair value to their order
        routine. `processOrders` is the PEARLS/BANANAS routine. */
    method Run(state: TradingState, processOrders: (real, OrderDepth) -> seq<Order>)
      returns (result: map<Product, seq<Order>>)
      requires RunAdmissible(tradePrices, state)
      modifies this
      ensures forall q :: q in tradePrices <==>
        q in old(tradePrices) || q in state.listings || TrimmedAsPartner(old(tradePrices), state, state.listings, q)
      ensures forall q :: HistoryOf(tradePrices, q) == HistoryAfter(old(tradePrices), state, state.listings, q)
      ensures forall p :: p in result <==>
        p in state.listings && p in Handled && Sampled(Extended(old(tradePrices), state.marketTrades, p))
      ensures forall p :: p in result ==> result[p] == RunOrders(old(tradePrices), state, processOrders, p)
    {
      ghost var h0 := tradePrices;
      ProductGroupsDisjoint();
      var listings := state.listings;
      result := map[];
      for i := 0 to |listings|
        invariant tradePrices == HistoriesAfter(h0, state, i)
        invariant result == OrdersAfter(h0, state, processOrders, i)
      {
        var product := listings[i];
        IterationStep(h0, state, processOrders, i);
        var orderDepth := state.orderDepths[product];
        if product in state.marketTrades {
          tradePrices := tradePrices[product := HistoryOf(tradePrices, product) + state.marketTrades[product]];
        }
        var fairValue := CalculateFairValue(product);
        if fairValue.None? {
          continue;
        }
        if product in PearlsAndBananas {
          var orders := processOrders(fairValue.value, orderDepth);
          result := result[product := orders];
        } else if product in Pairs {
          PairsIterationStep(h0, state, processOrders, i);
          var orders := ProcessStatisticalArbitrageOrders(state, product, fairValue.value);
          result := result[product := orders];
        }
      }
      HistoriesAfterSpec(h0, state, |listings|);
      OrdersAfterSpec(h0, state, processOrders, |listings|);
      assert listings[..|listings|] == listings;
      forall q
        ensures q in tradePrices <==> q in h0 || q in listings || TrimmedAsPartner(h0, state, listings, q)
        ensures HistoryOf(tradePrices, q) == HistoryAfter(h0, state, listings, q)
      {
        assert RecordedAt(h0, state, listings[..|listings|], tradePrices, q);
      }
      forall p
        ensures p in result <==> p in listings && p in Handled && Sampled(Extended(h0, state.marketTrades, p))
        ensures p in result ==> result[p] == RunOrders(h0, state, processOrders, p)
      {
        assert OrderedAt(h0, state, processOrders, |listings|, result, p);
      }
    }
  }
}
