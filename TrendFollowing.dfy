/**
 The trend-following trader for PRODUCT3. It keeps the last twenty mids and,
 once it has twenty, compares the average of the newest five with the average
 of all twenty: a higher short average buys 10 at the best ask, a lower one
 sells 10 at the best bid.

 The averages are `sum / 5` and `sum / 20` in floating point. Here they are
 compared exactly, as `4 * sum(last five)` against `sum(all twenty)`, which
 is the same comparison over the rationals.
 */
module TrendFollowing {
  import opened Pricing
  import opened MidHistory

  const Product: string := "PRODUCT3"
  /** Order size; no position limit is applied to it. */
  const TradeSize: int := 10
  const ShortWindow: nat := 5
  const LongWindow: nat := 20

  /** Sum of the newest five mids (`sum(mid_prices[-5:])`). */
  function ShortSum(history: seq<int>): (r: int)
    requires |history| >= ShortWindow
    ensures Sum(history) == Sum(history[..|history| - ShortWindow]) + r
  {
    var split := |history| - ShortWindow;
    assert history == history[..split] + history[split..];
    SumAppend(history[..split], history[split..]);
    Sum(history[split..])
  }

  /** Over the rationals, comparing the short average `sum / 5` with the long
      average `sum / 20` is comparing `4 * sum(newest five)` with the total. */
  lemma AveragesCompareLikeSums(history: seq<int>)
    requires |history| >= ShortWindow
    ensures ((ShortSum(history) as real) / 5.0 > (Sum(history) as real) / 20.0)
            <==> 4 * ShortSum(history) > Sum(history)
    ensures ((ShortSum(history) as real) / 5.0 < (Sum(history) as real) / 20.0)
            <==> 4 * ShortSum(history) < Sum(history)
  {
  }

  /** The orders for one call, from the history that already includes the
      current mid and the best prices. */
  function Decide(history: seq<int>, bid: int, ask: int): (r: seq<Order>)
    ensures |r| <= 1
    ensures forall i :: 0 <= i < |r| ==> r[i].symbol == Product
    // nothing until the history is full
    ensures |history| < LongWindow ==> r == []
    // short average above the long one: buy at the ask
    ensures |history| >= LongWindow && 4 * ShortSum(history) > Sum(history) ==>
              r == [Order(Product, ask, TradeSize)]
    // short average below the long one: sell at the bid
    ensures |history| >= LongWindow && 4 * ShortSum(history) < Sum(history) ==>
              r == [Order(Product, bid, -TradeSize)]
    // equal averages: no order
    ensures |history| >= LongWindow && 4 * ShortSum(history) == Sum(history) ==> r == []
  {
    if |history| < LongWindow then []
    else
      var shortTotal, longTotal := ShortSum(history), Sum(history);
      if 4 * shortTotal > longTotal then [Order(Product, ask, TradeSize)]
      else if 4 * shortTotal < longTotal then [Order(Product, bid, -TradeSize)]
      else []
  }

  class Trader {
    /** The most recent mids, oldest first. */
    var midPrices: seq<int>

    ghost predicate Valid()
      reads this
    {
      |midPrices| <= LongWindow
    }

    constructor ()
      ensures Valid()
      ensures midPrices == []
    {
      midPrices := [];
    }

    /** One call: record the current mid and, once twenty mids are held,
        follow the trend of the newest five against all twenty. */
    method Run(state: TradingState) returns (result: Orders)
      requires Valid()
      modifies this
      ensures Valid()
      ensures var mid := MidPrice(state.orderDepth);
              midPrices == Record(old(midPrices), mid, LongWindow)
      ensures |old(midPrices)| == LongWindow ==> |midPrices| == LongWindow
      ensures result.Keys == {Product}
      ensures result[Product] ==
                Decide(midPrices, BestBid(state.orderDepth), BestAsk(state.orderDepth))
    {
      var book := state.orderDepth;
      var bestBid := BestBid(book);
      var bestAsk := BestAsk(book);
      var midPrice := FloorMid(bestBid, bestAsk);
      midPrices := midPrices + [midPrice];
      if |midPrices| > LongWindow {
        midPrices := midPrices[1..];
      }
      assert midPrices == Record(old(midPrices), midPrice, LongWindow);
      if |midPrices| < LongWindow {
        return map[Product := []];
      }
      var shortTotal := Sum(midPrices[|midPrices| - ShortWindow..]);
      var longTotal := Sum(midPrices);
      var orders: seq<Order> := [];
      if 4 * shortTotal > longTotal {
        orders := orders + [Order(Product, bestAsk, TradeSize)];
      } else if 4 * shortTotal < longTotal {
        orders := orders + [Order(Product, bestBid, -TradeSize)];
      }
      result := map[Product := orders];
    }
  }

  /** Starting from an empty history, the call that records the n-th mid
      (n <= 19) trades nothing: the first nineteen calls never trade. */
  lemma WarmUpNeverTrades(mids: seq<int>, bid: int, ask: int)
    requires 0 < |mids| < LongWindow
    ensures Decide(Replay([], mids, LongWindow), bid, ask) == []
  {
    ReplayLength(mids, LongWindow);
  }

  /** From the twentieth call on, the history holds exactly twenty mids, so
      every later call is a trading decision. */
  lemma FullAfterWarmUp(mids: seq<int>)
    requires |mids| >= LongWindow
    ensures |Replay([], mids, LongWindow)| == LongWindow
  {
    ReplayLength(mids, LongWindow);
  }

  /** Twenty identical mids: the two averages agree and nothing is traded. */
  lemma FlatHistoryNeverTrades(history: seq<int>, bid: int, ask: int)
    requires |history| == LongWindow
    requires forall i :: 0 <= i < |history| ==> history[i] == history[0]
    ensures Decide(history, bid, ask) == []
  {
    var p := history[0];
    var older := history[..LongWindow - ShortWindow];
    var recent := history[LongWindow - ShortWindow..];
    SumAtMost(older, p);
    SumAtLeast(older, p);
    SumAtMost(recent, p);
    SumAtLeast(recent, p);
  }

  /** A breakout upwards: when each of the newest five mids is at or above a
      level that each of the fifteen before them is below, the trader buys. */
  lemma BreakoutUpBuys(history: seq<int>, level: int, bid: int, ask: int)
    requires |history| == LongWindow
    requires forall i :: 0 <= i < LongWindow - ShortWindow ==> history[i] < level
    requires forall i :: LongWindow - ShortWindow <= i < LongWindow ==> level <= history[i]
    ensures Decide(history, bid, ask) == [Order(Product, ask, TradeSize)]
  {
    var older := history[..LongWindow - ShortWindow];
    var recent := history[LongWindow - ShortWindow..];
    SumAtMost(older, level - 1);
    SumAtLeast(recent, level);
  }

  /** A breakout downwards: when each of the newest five mids is at or below
      a level that each of the fifteen before them is above, the trader sells. */
  lemma BreakoutDownSells(history: seq<int>, level: int, bid: int, ask: int)
    requires |history| == LongWindow
    requires forall i :: 0 <= i < LongWindow - ShortWindow ==> level < history[i]
    requires forall i :: LongWindow - ShortWindow <= i < LongWindow ==> history[i] <= level
    ensures Decide(history, bid, ask) == [Order(Product, bid, -TradeSize)]
  {
    var older := history[..LongWindow - ShortWindow];
    var recent := history[LongWindow - ShortWindow..];
    SumAtLeast(older, level + 1);
    SumAtMost(recent, level);
  }
}
