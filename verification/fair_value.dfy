/** The volume-weighted average price (VWAP) both traders use as a
    product's fair value: sum(price * quantity) / sum(quantity) over a
    window of recorded trades. The ratio is exact (a `real`); the caller
    guarantees that the window's quantities do not sum to zero, because
    neither trader guards that division. */
module FairValue {
  import opened DataModel

  /** sum(price * quantity) over the window (the traders' `total_volume`). */
  function SumPQ(w: seq<Trade>): int {
    if w == [] then 0 else SumPQ(w[..|w| - 1]) + w[|w| - 1].price * w[|w| - 1].quantity
  }

  /** sum(quantity) over the window (the traders' `total_quantity`). */
  function SumQ(w: seq<Trade>): int {
    if w == [] then 0 else SumQ(w[..|w| - 1]) + w[|w| - 1].quantity
  }

  /** The exact VWAP of a window whose quantities do not cancel out. */
  ghost function Vwap(w: seq<Trade>): real
    requires SumQ(w) != 0
  {
    (SumPQ(w) as real) / (SumQ(w) as real)
  }

  /** The accumulation loop of `calculate_fair_value`: one pass over the
      window adding up `price * quantity` and `quantity`. */
  method WeightedTotals(w: seq<Trade>) returns (totalVolume: int, totalQuantity: int)
    ensures totalVolume == SumPQ(w)
    ensures totalQuantity == SumQ(w)
  {
    totalVolume, totalQuantity := 0, 0;
    for i := 0 to |w|
      invariant totalVolume == SumPQ(w[..i])
      invariant totalQuantity == SumQ(w[..i])
    {
      assert w[..i + 1][..i] == w[..i];
      totalVolume := totalVolume + w[i].price * w[i].quantity;
      totalQuantity := totalQuantity + w[i].quantity;
    }
    assert w[..|w|] == w;
  }

  /** When every trade in the window has price `p`, the traded value is
      `p` times the traded quantity. */
  lemma {:induction false} ConstantPriceSum(w: seq<Trade>, p: int)
    requires forall t :: t in w ==> t.price == p
    ensures SumPQ(w) == p * SumQ(w)
  {
    if w != [] {
      var init := w[..|w| - 1];
      assert forall t :: t in init ==> t in w;
      ConstantPriceSum(init, p);
      assert w[|w| - 1] in w;
    }
  }

  /** A window of trades all at price `p` has VWAP exactly `p`. */
  lemma ConstantPriceVwap(w: seq<Trade>, p: int)
    requires forall t :: t in w ==> t.price == p
    requires SumQ(w) != 0
    ensures Vwap(w) == p as real
  {
    ConstantPriceSum(w, p);
    assert SumPQ(w) as real == (p as real) * (SumQ(w) as real);
  }

  /** With positive quantities the traded value is at least the lowest
      price times the traded quantity. */
  lemma {:induction false} SumAtLeastLowest(w: seq<Trade>, lo: int)
    requires forall t :: t in w ==> lo <= t.price && t.quantity > 0
    ensures lo * SumQ(w) <= SumPQ(w)
  {
    if w != [] {
      var init := w[..|w| - 1];
      var last := w[|w| - 1];
      assert forall t :: t in init ==> t in w;
      SumAtLeastLowest(init, lo);
      assert last in w;
      ScaleMonotone(lo, last.price, last.quantity);
      assert lo * SumQ(w) == lo * SumQ(init) + lo * last.quantity;
    }
  }

  /** With positive quantities the traded value is at most the highest
      price times the traded quantity. */
  lemma {:induction false} SumAtMostHighest(w: seq<Trade>, hi: int)
    requires forall t :: t in w ==> t.price <= hi && t.quantity > 0
    ensures SumPQ(w) <= hi * SumQ(w)
  {
    if w != [] {
      var init := w[..|w| - 1];
      var last := w[|w| - 1];
      assert forall t :: t in init ==> t in w;
      SumAtMostHighest(init, hi);
      assert last in w;
      ScaleMonotone(last.price, hi, last.quantity);
      assert hi * SumQ(w) == hi * SumQ(init) + hi * last.quantity;
    }
  }

  lemma ScaleMonotone(a: int, b: int, q: int)
    requires a <= b && q > 0
    ensures a * q <= b * q
  {
    assert b * q - a * q == (b - a) * q;
  }

  /** With positive quantities the VWAP lies between the lowest and the
      highest traded price of the window. */
  lemma VwapBetweenPrices(w: seq<Trade>, lo: int, hi: int)
    requires w != []
    requires forall t :: t in w ==> lo <= t.price <= hi && t.quantity > 0
    ensures SumQ(w) > 0
    ensures lo as real <= Vwap(w) <= hi as real
  {
    PositiveQuantities(w);
    SumAtLeastLowest(w, lo);
    SumAtMostHighest(w, hi);
    RatioBetween(SumPQ(w), SumQ(w), lo, hi);
  }

  lemma RatioBetween(v: int, q: int, lo: int, hi: int)
    requires q > 0 && lo * q <= v <= hi * q
    ensures lo as real <= (v as real) / (q as real) <= hi as real
  {
    var x, y := v as real, q as real;
    assert (lo as real) * y <= x <= (hi as real) * y;
    assert x / y - lo as real == (x - (lo as real) * y) / y;
    assert hi as real - x / y == ((hi as real) * y - x) / y;
  }

  /** Positive quantities make a non-empty window's total quantity positive. */
  lemma {:induction false} PositiveQuantities(w: seq<Trade>)
    requires w != []
    requires forall t :: t in w ==> t.quantity > 0
    ensures SumQ(w) > 0
  {
    var init := w[..|w| - 1];
    assert w[|w| - 1] in w;
    if init != [] {
      assert forall t :: t in init ==> t in w;
      PositiveQuantities(init);
    }
  }
}
