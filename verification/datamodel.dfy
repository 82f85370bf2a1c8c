/** The exchange's data model as the trading strategies see it: products,
    recorded trades, order books, orders and the per-tick trading state,
    together with the few builtin operations the strategies apply to them
    (reading a `defaultdict(list)`, `min`/`max` of an order book's prices,
    and the trailing slice `xs[-n:]`). */
module DataModel {

  /** A product is named by a string ("PEARLS", "BANANAS", ...). */
  type Product = string

  datatype Option<T> = None | Some(value: T)

  /** A market trade: only its price and quantity enter the strategies. */
  datatype Trade = Trade(price: int, quantity: int)

  /** An order request: a positive quantity buys, a negative one sells. */
  datatype Order = Order(product: Product, price: int, quantity: int)

  /** One product's order book: price -> volume. Bids carry positive
      volumes; asks carry negative volumes by the exchange's convention. */
  datatype OrderDepth = OrderDepth(buyOrders: map<int, int>, sellOrders: map<int, int>)

  /** The snapshot handed to `run` every tick. `listings` is the sequence of
      listed products in the dictionary's iteration order. */
  datatype TradingState = TradingState(
    listings: seq<Product>,
    orderDepths: map<Product, OrderDepth>,
    marketTrades: map<Product, seq<Trade>>)

  /** The `i`-th key does not occur among the keys before it. */
  ghost predicate FirstOccurrence(xs: seq<Product>, i: nat)
    requires i < |xs|
  {
    xs[i] !in xs[..i]
  }

  /** Dictionary keys are pairwise distinct: each occurs first where it is. */
  ghost predicate Distinct(xs: seq<Product>) {
    forall i :: 0 <= i < |xs| ==> FirstOccurrence(xs, i)
  }

  /** Reading a `defaultdict(list)`: a product never stored has no trades. */
  function HistoryOf(h: map<Product, seq<Trade>>, p: Product): seq<Trade>
  {
    if p in h then h[p] else []
  }

  /** The history of `p` once this tick's market trades for it are appended. */
  function Extended(h: map<Product, seq<Trade>>, trades: map<Product, seq<Trade>>, p: Product): seq<Trade>
  {
    HistoryOf(h, p) + (if p in trades then trades[p] else [])
  }

  /** Recording a tick's market trades for `p`, as `run` does: they are
      appended to the stored history when there are any, else the stored
      histories are left as they are. */
  function RecordTrades(h: map<Product, seq<Trade>>, trades: map<Product, seq<Trade>>, p: Product)
    : map<Product, seq<Trade>>
  {
    if p in trades then h[p := HistoryOf(h, p) + trades[p]] else h
  }

  /** The slice `s[-n:]` for a positive `n`: the last `n` elements, or all of
      `s` when it is shorter. */
  function LastN(s: seq<Trade>, n: nat): (r: seq<Trade>)
    requires n > 0
    ensures |r| <= n && |r| <= |s|
    ensures |s| <= n ==> r == s
    ensures |s| >= n ==> |r| == n
    ensures |s| > n ==> r == s[|s| - n..]
  {
    if |s| <= n then s else s[|s| - n..]
  }

  /** A non-empty set has an element to pick. */
  lemma Inhabited(s: set<int>)
    requires s != {}
    ensures exists x :: x in s
  {
    if forall x :: x !in s {
      assert false;
    }
  }

  /** The least element of a non-empty set of prices. */
  ghost function SetMin(s: set<int>): (m: int)
    requires s != {}
    ensures m in s && forall x :: x in s ==> m <= x
    decreases s
  {
    Inhabited(s);
    var x :| x in s;
    if s == {x} then x
    else
      var y := SetMin(s - {x});
      assert forall z :: z in s ==> z == x || z in s - {x};
      if x <= y then x else y
  }

  /** The greatest element of a non-empty set of prices. */
  ghost function SetMax(s: set<int>): (m: int)
    requires s != {}
    ensures m in s && forall x :: x in s ==> x <= m
    decreases s
  {
    Inhabited(s);
    var x :| x in s;
    if s == {x} then x
    else
      var y := SetMax(s - {x});
      assert forall z :: z in s ==> z == x || z in s - {x};
      if x >= y then x else y
  }

  /** Best ask: the lowest price a seller offers. */
  ghost function BestAsk(d: OrderDepth): int
    requires |d.sellOrders| > 0
  {
    SetMin(d.sellOrders.Keys)
  }

  /** Best bid: the highest price a buyer offers. */
  ghost function BestBid(d: OrderDepth): int
    requires |d.buyOrders| > 0
  {
    SetMax(d.buyOrders.Keys)
  }

  /** `min(book.keys())`: one pass over the prices keeping the lowest. */
  method MinKey(book: map<int, int>) returns (k: int)
    requires |book| > 0
    ensures k in book
    ensures forall x :: x in book ==> k <= x
  {
    var rest := book.Keys;
    Inhabited(rest);
    k :| k in rest;
    rest := rest - {k};
    while rest != {}
      invariant rest <= book.Keys
      invariant k in book
      invariant forall x :: x in book && x !in rest ==> k <= x
      decreases rest
    {
      Inhabited(rest);
      var x :| x in rest;
      if x < k {
        k := x;
      }
      rest := rest - {x};
    }
  }

  /** `max(book.keys())`: one pass over the prices keeping the highest. */
  method MaxKey(book: map<int, int>) returns (k: int)
    requires |book| > 0
    ensures k in book
    ensures forall x :: x in book ==> x <= k
  {
    var rest := book.Keys;
    Inhabited(rest);
    k :| k in rest;
    rest := rest - {k};
    while rest != {}
      invariant rest <= book.Keys
      invariant k in book
      invariant forall x :: x in book && x !in rest ==> x <= k
      decreases rest
    {
      Inhabited(rest);
      var x :| x in rest;
      if x > k {
        k := x;
      }
      rest := rest - {x};
    }
  }
}
