# Single-instrument trading strategies, modelled in Dafny

This project models the three single-instrument traders of an algorithmic
trading repository. Each trader has a `run(state)` that reads one order-book
snapshot (two maps, price to quantity, for resting buy and sell interest) and
returns a map from the instrument name to a list of `Order(symbol, price,
quantity)`. A positive quantity buys and a negative one sells.

- `Pricing` (Pricing.dfy) holds the order-book, order and state datatypes and
  the pricing step all three traders share. The best bid is the largest buy
  price, or the constant 9995 if there are no bids. The best ask is the
  smallest sell price, or the constant 10005 if there are no asks. The mid is
  the floor of their average.
- `MarketMaker` (MarketMaker.dfy, PRODUCT1) keeps no state, so it is a pure
  function. It always quotes a buy of 10 at `mid - 1` and a sell of 10 at
  `mid + 1`.
- `MidHistory` (MidHistory.dfy) holds the bounded first-in-first-out history
  of mids that the two stateful traders keep, and the sums and floor average
  over it.
- `MeanReversion` (MeanReversion.dfy, PRODUCT2) is a class whose
  `recentMidPrices` field holds up to 10 mids. `Run` records the current mid.
  If the mid is more than 1 below the floor average of the history, it buys 10
  at the best ask. If the mid is more than 1 above it, it sells 10 at the best
  bid.
- `TrendFollowing` (TrendFollowing.dfy, PRODUCT3) is a class whose `midPrices`
  field holds up to 20 mids. It emits nothing until it has 20. After that it
  buys 10 at the ask when the average of the newest 5 mids is above the
  average of all 20, sells 10 at the bid when it is below, and does nothing
  when they are equal.

Each class `Run` is a method that updates its history field in place, like
the source's `append` and `pop(0)`. Its `ensures` ties the new history to
`MidHistory.Record` of the old one, and the orders it returns to the pure
`Decide` of its module. The lemmas about `Record`, `Replay` (several calls in
a row), `FloorAverage` and `Decide` state what the traders promise.

Three details of the code shape the model. A missing side of the book falls
back to the fixed prices 9995 (bid) and 10005 (ask), not to an offset from the
side that is present (see `Pricing.EmptyBookMid` and
`MarketMaker.OneSidedBookUsesConstantBid`). Every order has the fixed size 10,
and no trader checks its inventory or a position limit. The mean-reversion
average is the floor average `sum // len`, so nine mids of 100 followed by 102
average to 100, not 100.2 (see `MeanReversion.SpikeAboveAverageSells`).

## Model

| member | source | states |
|---|---|---|
| Pricing.MaxKey | product_1_strategy.py:13 | the result is a key of the map and no key is larger |
| Pricing.MinKey | product_1_strategy.py:18 | the result is a key of the map and no key is smaller |
| Pricing.BestBid | product_1_strategy.py:12-15 | a non-empty buy side gives its highest price; an empty one gives 9995 |
| Pricing.BestAsk | product_1_strategy.py:17-20 | a non-empty sell side gives its lowest price; an empty one gives 10005 |
| Pricing.FloorMid | product_1_strategy.py:22 | the result is the floor of (bid + ask) / 2, also for negative sums, and lies in [bid, ask] when bid <= ask |
| Pricing.MidPrice | product_2_strategy.py:13-23 | the mid of a snapshot is the floor average of its best bid and best ask and lies between them when the book is not crossed |
| Pricing.MidIgnoresQuantities | product_3_strategy.py:14-24 | two books with the same price levels give the same best bid, best ask and mid: quantities are never read |
| Pricing.EmptyBookMid | product_1_strategy.py:12-22 | with both sides empty the best bid is 9995, the best ask 10005 and the mid 10000 |
| MarketMaker.Run | product_1_strategy.py:8-32 | exactly two orders, both under and on PRODUCT1: a buy of 10 then a sell of 10; the sell is 2 above the buy, and the buy is one below the mid |
| MarketMaker.QuotesDoNotCross | product_1_strategy.py:22-26 | when the best bid does not exceed the best ask, the buy is below the ask and the sell above the bid, each at most one outside the touch |
| MarketMaker.EmptyBookQuotes | product_1_strategy.py:12-30 | an empty book gets a buy of 10 at 9999 and a sell of 10 at 10001 |
| MarketMaker.OneSidedBookUsesConstantBid | product_1_strategy.py:12-25 | with no bids, the buy quote is floor((9995 + best ask) / 2) - 1: the fallback is a constant, not an offset from the ask |
| MidHistory.Record | product_2_strategy.py:24-27 | the new history ends with the new mid and is the newest entries of old history + [mid]; from a history within capacity it grows by one until full and then stays at capacity |
| MidHistory.ReplayLength | product_3_strategy.py:25-28 | starting empty, after n calls the history holds min(n, capacity) mids |
| MidHistory.ReplayKeepsNewest | product_2_strategy.py:24-27 | starting empty, the history is exactly the newest min(n, capacity) mids seen, oldest first (first-in-first-out eviction) |
| MidHistory.ReplayStaysFull | product_3_strategy.py:27-28 | a history at capacity stays at capacity over any number of further calls |
| MidHistory.SumAppend | product_3_strategy.py:33-34 | the sum of a concatenation is the sum of the sums, so the whole window's sum splits into older part plus newest five |
| MidHistory.SumAtMost | product_3_strategy.py:34 | n mids that are all at most hi sum to at most n * hi |
| MidHistory.SumAtLeast | product_3_strategy.py:34 | n mids that are all at least lo sum to at least n * lo |
| MidHistory.FloorAverage | product_2_strategy.py:29 | on a non-empty history (so no division by zero) the result r satisfies r * n <= sum < r * n + n: the floor of the mean |
| MidHistory.AverageWithin | product_2_strategy.py:29 | the floor average of mids in [lo, hi] lies in [lo, hi] |
| MeanReversion.Decide | product_2_strategy.py:31-37 | at most one order, on PRODUCT2; an order exactly when mid < avg - 1 or mid > avg + 1; below the band it is exactly a buy of 10 at the best ask, above it exactly a sell of 10 at the best bid |
| MeanReversion.Trader.constructor | product_2_strategy.py:5-7 | a new trader starts with an empty history |
| MeanReversion.Trader.Run | product_2_strategy.py:9-37 | the history becomes Record(old history, mid, 10) and holds 1 to 10 mids; the result has the single key PRODUCT2, holding Decide of the mid, the floor average of the new history and the best prices |
| MeanReversion.CalmHistoryNeverTrades | product_2_strategy.py:29-35 | when every retained mid is within 1 of the current mid, no order is emitted |
| MeanReversion.FirstCallNeverTrades | product_2_strategy.py:24-35 | the first call, on an empty history, never trades |
| MeanReversion.SpikeAboveAverageSells | product_2_strategy.py:29-35 | nine mids of 100 then 102: the floor average is 100 and the trader sells 10 at the best bid |
| TrendFollowing.ShortSum | product_3_strategy.py:33 | the sum of the whole history is the sum of all but the newest five plus this result, the sum of the newest five |
| TrendFollowing.AveragesCompareLikeSums | product_3_strategy.py:33-40 | over the rationals, short sum / 5 is above (below) long sum / 20 exactly when 4 * short sum is above (below) the long sum |
| TrendFollowing.Decide | product_3_strategy.py:30-42 | at most one order, on PRODUCT3; none with fewer than 20 mids; a buy of 10 at the ask when 4 * short sum > long sum, a sell of 10 at the bid when it is less, none when equal |
| TrendFollowing.Trader.constructor | product_3_strategy.py:5-8 | a new trader starts with an empty history |
| TrendFollowing.Trader.Run | product_3_strategy.py:10-42 | the history becomes Record(old history, mid, 20), stays at most 20 and stays at 20 once full; the result has the single key PRODUCT3, holding Decide of the new history and the best prices |
| TrendFollowing.WarmUpNeverTrades | product_3_strategy.py:25-31 | from an empty history, each of the first 19 calls returns no order |
| TrendFollowing.FullAfterWarmUp | product_3_strategy.py:25-31 | from the 20th call on, the history holds exactly 20 mids |
| TrendFollowing.FlatHistoryNeverTrades | product_3_strategy.py:33-42 | twenty identical mids give equal averages and no order |
| TrendFollowing.BreakoutUpBuys | product_3_strategy.py:33-38 | if the newest five mids are all at or above a level that the fifteen before them are all below, the trader buys 10 at the ask |
| TrendFollowing.BreakoutDownSells | product_3_strategy.py:33-40 | if the newest five mids are all at or below a level that the fifteen before them are all above, the trader sells 10 at the bid |

## Left out

- TrendFollowing.Decide: compares `4 * sum(newest five)` with `sum(all twenty)` exactly, which over the rationals is the source's comparison of `sum / 5` with `sum / 20` (`TrendFollowing.AveragesCompareLikeSums`). The source divides in IEEE double precision (Python sums the integers exactly, then rounds each quotient). When every mid is below 2^48 in magnitude, so both averages are, the two agree: a non-zero difference between the exact averages is at least 1/20, while each rounded quotient is within 1/64 of its exact value. Above that bound they can disagree, and since rounding is monotone the only possible disagreement is that the model trades where the source, seeing two equal rounded averages, emits nothing. For example, newest five mids 306599190421068 (four times) and 306599190421070, and older fifteen 306599190421068 (fourteen times) and 306599190421073, give 4 * short = long + 1 exactly, so the model buys, while both double averages round to the same value. Rounding is not modelled.
- The backtester module that defines `Order`, `OrderBook` and the `state` object is not part of this model. They are plain datatypes here: a book is two `map<int, int>`, an order is symbol, price and quantity, and the state carries only the order depth, the one field the traders read.
- The quantities inside the order-book maps are never read by the traders, so nothing is stated about them beyond `Pricing.MidIgnoresQuantities`.
- Python integers are unbounded and so are Dafny's, so no overflow is modelled.
- `MarketMaker.Run` is a function of the snapshot alone, so two calls on the same snapshot give the same orders by construction; no separate lemma states it.
- Strategy (1).py is not part of this model: its position-limit sizing, tick-offset mid fallback, spread-adaptive quoting, basket arbitrage with hedge legs and the multi-instrument dispatcher do not occur in the three traders modelled here, which emit fixed sizes of 10 with no inventory check.
