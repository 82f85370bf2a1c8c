# Trading decision core of the two `Trader` classes

This project models the per-tick decision logic of two trading bots. Each
one is a `Trader` class whose only persistent state is `trade_prices`: a
`defaultdict(list)` from product to the market trades recorded so far.

- `trader.py` (first round). `run` walks the listed products, appends each
  product's market trades to its history, and prices the product with
  `calculate_fair_value`: the volume-weighted average price (VWAP) of the
  last 1000 recorded trades, or `None` below 10 trades. A product with a
  fair value gets its liquidity-taking orders:
  - lift the whole best ask when it is below fair value;
  - then hit the whole best bid when it is above fair value.
  The stored histories are never trimmed: they grow every tick, and
  `calculate_fair_value` only reads the last 1000 trades through a slice.
- `trader_j.py`. `calculate_fair_value` first trims the stored history in
  place to its last 100 trades, then prices it (at least 5 trades needed).
  `run` hands PEARLS and BANANAS to a separate order routine. COCONUTS and
  PINA_COLADAS are compared with each other in
  `process_statistical_arbitrage_orders`, which emits at most one order:
  - buy the best ask when the product is priced below its partner;
  - sell the best bid when it is priced above its partner.
  Pricing the partner trims the partner's history too.

Modules:
- `DataModel` (`datamodel.dfy`): trades, orders, order books, the tick
  snapshot, the `defaultdict` read, `min`/`max` over book prices, and the
  slice `xs[-n:]`.
- `FairValue` (`fair_value.dfy`): the VWAP sums, the accumulation loop, and
  lemmas about the VWAP.
- `Trader` (`trader.dfy`): `trader.py`.
- `TraderJ` (`trader_j.dfy`): `trader_j.py`.

Each `Trader` is a class with a `tradePrices: map<Product, seq<Trade>>`
field. Its methods update the field in place and loop as the source does.
Each method is proved against ghost specification functions:
- `FairValueOf`, `TakingOrders`, `ArbOrders` describe single calls;
- `HistoriesAfter` and `OrdersAfter` describe `run` after its first `i`
  iterations.

The `run` postconditions are stated product by product. Each product's
stored history is the recorded one (`Recorded`, `HistoryAfter`). A product
has a result entry exactly when it is listed, handled and has a fair value,
and that entry holds the orders the decision rules give.

Every fair value is the exact rational `sum(price*quantity) / sum(quantity)`
(a `real`). Listed products are the snapshot dictionary's keys, in
iteration order, so they are assumed pairwise distinct.

## Model

| member | source | states |
|---|---|---|
| DataModel.LastN | trader.py:34 | the slice `s[-n:]` is a suffix of `s` of at most `n` elements: all of `s` when `s` is short, else exactly its last `n` |
| DataModel.SetMin | trader.py:72 | the chosen price is in the set and no greater than any other |
| DataModel.SetMax | trader.py:92 | the chosen price is in the set and no less than any other |
| DataModel.MinKey | trader.py:72 | `min(book.keys())`: the result is a price in the book and every price in the book is at least it |
| DataModel.MaxKey | trader.py:92 | `max(book.keys())`: the result is a price in the book and every price in the book is at most it |
| FairValue.WeightedTotals | trader.py:33-36 | the loop's `total_volume` and `total_quantity` equal sum(price*quantity) and sum(quantity) over the whole window |
| FairValue.ConstantPriceVwap | trader.py:33-38 | a window whose trades all have price P and whose quantities do not cancel has VWAP exactly P |
| FairValue.VwapBetweenPrices | trader.py:33-38 | with positive quantities the total quantity is positive and the VWAP lies between the lowest and highest price |
| FairValue.ConstantPriceSum | trader.py:35 | one-price windows: traded value is the price times the traded quantity |
| FairValue.SumAtLeastLowest | trader.py:35-36 | with positive quantities, traded value is at least the lowest price times the quantity |
| FairValue.SumAtMostHighest | trader.py:35-36 | with positive quantities, traded value is at most the highest price times the quantity |
| FairValue.PositiveQuantities | trader.py:36 | positive quantities in a non-empty window sum to a positive total |
| Trader.FairValueCases | trader.py:26-30 | the fair value is `None` exactly when fewer than 10 trades are stored; otherwise the window holds all trades up to 1000, else exactly 1000 |
| Trader.OlderTradesIgnored | trader.py:34 | with at least 1000 trades stored, prepending any older trades leaves the fair value unchanged |
| Trader.ConstantPriceFairValue | trader.py:33-38 | at least 10 trades, all in the window at price P, with non-cancelling quantities: the fair value is exactly P |
| Trader.FairValueWithinPriceRange | trader.py:33-38 | with positive quantities the division is defined and the fair value lies within the window's price range |
| Trader.TakingOrdersShape | trader.py:68-97 | one buy exactly when asks exist and the best ask is below fair value, one sell exactly when bids exist and the best bid is above it; buy before sell; every order for the product |
| Trader.TakingOrdersExample | trader.py:68-97 | fair value 10000, ask 9990 offering 5, bid 10010 for 5: buy 5 at 9990, then sell 5 at 10010 |
| Trader.TakeLiquidity | trader.py:68-97 | the orders built for one product are exactly `TakingOrders`: the whole best ask at `-volume` when below fair value, then the whole best bid at `-volume` when above it |
| Trader.RecordedExtendsHistory | trader.py:61-62 | recording keeps the old history as a prefix; an unlisted product, or one without market trades, keeps its history |
| Trader.RecordedStep | trader.py:61-62 | recording one more listed product's trades keeps every other product's history and appends this tick's trades to its own |
| Trader.OrderedStep | trader.py:63-100 | one more iteration adds an entry only for a product with a fair value, holding its taking orders, and keeps all other entries |
| Trader.HistoriesAfterSpec | trader.py:52-62 | after `i` iterations exactly the first `i` listed products have this tick's trades appended, and no other history changed |
| Trader.OrdersAfterSpec | trader.py:52-100 | after `i` iterations exactly the first `i` listed products that have a fair value have entries, each with its taking orders |
| Trader.PendingHistory | trader.py:61-62 | when the loop reaches a product, its stored history is the one it had before the tick |
| Trader.IterationStep | trader.py:55-100 | the `i`-th iteration finds an order book, prices the extended history without dividing by zero, and leaves the histories and orders of `i + 1` iterations |
| Trader.Trader.constructor | trader.py:22-23 | a new trader has no recorded trades |
| Trader.Trader.CalculateFairValue | trader.py:25-38 | every product's history stays unchanged, an empty entry is materialised for the read product, and the result is the VWAP of the last 1000 trades or `None` below 10 |
| Trader.Trader.Run | trader.py:40-103 | each listed product's history gains this tick's trades and nothing else changes; a product has an entry exactly when listed with a fair value, and the entry holds its taking orders |
| TraderJ.ProductGroupsDisjoint | trader_j.py:43-47 | PEARLS/BANANAS and COCONUTS/PINA_COLADAS share no product, so the branches of the dispatch never overlap |
| TraderJ.TrimmedIsBoundedSuffix | trader_j.py:14 | the trimmed history holds at most 100 trades, all of them if there were at most 100, and is a suffix of the history |
| TraderJ.TrimIdempotent | trader_j.py:14 | trimming a trimmed history changes nothing |
| TraderJ.TrimAbsorbsEarlierTrim | trader_j.py:14 | trimming, appending trades and trimming again keeps the same trades as appending and trimming once |
| TraderJ.SameTrimSamePrice | trader_j.py:14-25 | two histories that trim to the same trades are equally priceable and have the same fair value |
| TraderJ.FairValueNoneIff | trader_j.py:10-25 | the fair value is `None` exactly when fewer than 5 trades are stored; otherwise it is the VWAP of all retained trades |
| TraderJ.FairValueRepeatable | trader_j.py:14-25 | pricing again after a call leaves the same history and returns the same fair value |
| TraderJ.ConstantPriceFairValue | trader_j.py:19-25 | at least 5 trades, all retained ones at price P, quantities not cancelling: the fair value is exactly P |
| TraderJ.RelatedProductPairs | trader_j.py:57 | the related product is always COCONUTS or PINA_COLADAS; within the pair it is the other product, and relating twice returns the product |
| TraderJ.ArbOrdersShape | trader_j.py:59-79 | at most one order; none without a partner fair value or when the fair values are equal; if cheaper, a buy at the best ask for the offered volume when asks exist; if dearer, a sell at the best bid for the bid volume when bids exist |
| TraderJ.SameFirstOccurrence | trader_j.py:32 | two first occurrences of the same dictionary key are the same position |
| TraderJ.ListedBeforeIndex | trader_j.py:32 | among distinct keys, a product is iterated before the `i`-th exactly when it is among the first `i` |
| TraderJ.UntouchedAcrossStep | trader_j.py:34-48 | a product that is neither the current one nor its compared partner keeps its history across the iteration |
| TraderJ.PartnerAcrossStep | trader_j.py:60 | the partner priced in an iteration differs from the product and ends up trimmed |
| TraderJ.RecordedStep | trader_j.py:34-48 | one more iteration records and trims the product's history, trims the compared partner's, and keeps the rest |
| TraderJ.OrderedStep | trader_j.py:37-49 | one more iteration adds an entry only for a handled product with a fair value, and keeps all other entries |
| TraderJ.HistoriesAfterSpec | trader_j.py:32-49 | after `i` iterations every history is the one `HistoryAfter` gives for the first `i` listed products |
| TraderJ.OrdersAfterSpec | trader_j.py:32-49 | after `i` iterations exactly the first `i` listed, handled products with a fair value have entries, each holding their orders |
| TraderJ.PendingHistory | trader_j.py:34-37 | when the loop reaches a product, recording and trimming its history gives what recording into its pre-tick history gives, despite any earlier trim as a partner |
| TraderJ.PartnerHistory | trader_j.py:57-60 | when a pairs product is compared, its partner's stored history trims to the partner's history as of its place in the listing order |
| TraderJ.RecordAndPrice | trader_j.py:34-37 | recording and pricing the `i`-th product leaves its trimmed extended history and prices it at its fair value for the tick |
| TraderJ.IterationStep | trader_j.py:33-45 | an iteration that does not compare pairs leaves the histories and orders of `i + 1` iterations, with `processOrders`' orders for PEARLS/BANANAS |
| TraderJ.PairsIterationStep | trader_j.py:47-49 | an iteration comparing a pairs product leaves the partner trimmed and the comparison's orders as in `i + 1` iterations |
| TraderJ.Trader.constructor | trader_j.py:6-7 | a new trader has no recorded trades |
| TraderJ.Trader.CalculateFairValue | trader_j.py:9-25 | the product's history is replaced by its last 100 trades, even when the result is `None`; the result is `None` below 5 trades, else the VWAP of the retained trades |
| TraderJ.Trader.OrderAgainstPartner | trader_j.py:69-79 | the orders are exactly `PairOrder`: the whole best ask when cheaper, else the whole best bid when dearer, else none |
| TraderJ.Trader.ProcessStatisticalArbitrageOrders | trader_j.py:53-81 | only the partner's history changes (it is trimmed); the orders are `ArbOrders` for the partner's fair value before the call |
| TraderJ.Trader.Run | trader_j.py:29-51 | every history ends as `HistoryAfter` says; a product has an entry exactly when listed, handled and with a fair value; PEARLS/BANANAS entries are `processOrders`' orders, pairs entries are the comparison's |

## Left out

- `process_orders` (trader_j.py:44) is not defined in `trader_j.py`. `TraderJ.Trader.Run` takes it as a function parameter `processOrders`.
- TraderJ.Trader.Run: `process_orders` is assumed not to touch `trade_prices`; its orders depend only on the fair value and the product's order book. The history postcondition holds only under this assumption.
- The `datamodel` module is not part of this model. A trade keeps only price and quantity. An order book is two price-to-volume maps. Timestamps, positions, own trades and observations are not modelled.
- The `print` logging (trader.py:83, trader.py:95) is I/O and is not modelled.
- Floating-point arithmetic is not modelled. The fair value is the exact rational VWAP, and the comparisons with the integer prices are exact.
- Trader.Trader.CalculateFairValue: requires that the window's quantities do not sum to zero (`Priceable`). The source divides without a guard (trader.py:38), where Python would raise `ZeroDivisionError`.
- TraderJ.Trader.CalculateFairValue: requires that the retained quantities do not sum to zero, for the same reason (trader_j.py:25).
- Trader.Trader.Run: requires an order book for every listed product (trader.py:55, a `KeyError` in the source) and no zero-quantity division (`RunAdmissible`). These are preconditions, not error results.
- TraderJ.Trader.Run: requires the same (trader_j.py:33). When a pairs product is compared, it also requires that the partner is priceable and that the partner's order book exists when the partner has a fair value.
- TraderJ.Trader.ProcessStatisticalArbitrageOrders: requires the partner's order book whenever the partner has a fair value. The lookup at trader_j.py:67 is unused, but it can raise `KeyError`.
- Listed products are assumed distinct (`Distinct`), since they are the keys of a dictionary.
