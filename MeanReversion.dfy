/**
 The mean-reversion trader for PRODUCT2. It keeps the last ten mids it has
 seen and, when the current mid is more than one below their floor average,
 buys 10 at the best ask; more than one above, sells 10 at the best bid.
 */
module MeanReversion {
  import opened Pricing
  import opened MidHistory

  const Product: string := "PRODUCT2"
  /** Order size; no position limit is applied to it. */
  const TradeSize: int := 10
  /** The dead band around the average inside which nothing is traded. */
  const Band: int := 1
  /** The capacity of the history. */
  const WindowSize: nat := 10

  /** The orders for one call, from the current mid, the floor average of the
      history that already includes it, and the best prices. */
  function Decide(mid: int, avg: int, bid: int, ask: int): (r: seq<Order>)
    ensures |r| <= 1
    ensures forall i :: 0 <= i < |r| ==> r[i].symbol == Product
    // trades exactly when the mid is outside the band [avg - 1, avg + 1]
    ensures |r| == 1 <==> (mid < avg - Band || avg + Band < mid)
    // below the band: buy at the ask; above it: sell at the bid
    ensures |r| == 1 && r[0].quantity > 0 <==> mid < avg - Band
    ensures |r| == 1 && r[0].quantity > 0 ==> r[0] == Order(Product, ask, TradeSize)
    ensures |r| == 1 && r[0].quantity < 0 ==> r[0] == Order(Product, bid, -TradeSize)
    ensures mid < avg - Band ==> r == [Order(Product, ask, TradeSize)]
    ensures avg + Band < mid ==> r == [Order(Product, bid, -TradeSize)]
  {
    if mid < avg - Band then [Order(Product, ask, TradeSize)]
    else if mid > avg + Band then [Order(Product, bid, -TradeSize)]
    else []
  }

  class Trader {
    /** The most recent mids, oldest first. */
    var recentMidPrices: seq<int>

    ghost predicate Valid()
      reads this
    {
      |recentMidPrices| <= WindowSize
    }

    constructor ()
      ensures Valid()
      ensures recentMidPrices == []
    {
      recentMidPrices := [];
    }

    /** One call: record the current mid, then trade against the average of
        the history that now includes it. */
    method Run(state: TradingState) returns (result: Orders)
      requires Valid()
      modifies this
      ensures Valid()
      ensures var mid := MidPrice(state.orderDepth);
              recentMidPrices == Record(old(recentMidPrices), mid, WindowSize)
      ensures 1 <= |recentMidPrices| <= WindowSize
      ensures result.Keys == {Product}
      ensures result[Product] ==
                Decide(MidPrice(state.orderDepth), FloorAverage(recentMidPrices),
                       BestBid(state.orderDepth), BestAsk(state.orderDepth))
    {
      var book := state.orderDepth;
      var bestBid := BestBid(book);
      var bestAsk := BestAsk(book);
      var midPrice := FloorMid(bestBid, bestAsk);
      recentMidPrices := recentMidPrices + [midPrice];
      if |recentMidPrices| > WindowSize {
        recentMidPrices := recentMidPrices[1..];
      }
      assert recentMidPrices == Record(old(recentMidPrices), midPrice, WindowSize);
      var avgPrice := Sum(recentMidPrices) / |recentMidPrices|;
      var orders: seq<Order> := [];
      if midPrice < avgPrice - Band {
        orders := orders + [Order(Product, bestAsk, TradeSize)];
      } else if midPrice > avgPrice + Band {
        orders := orders + [Order(Product, bestBid, -TradeSize)];
      }
      result := map[Product := orders];
    }
  }

  /** A history whose every entry is within one of the current mid never
      trades: its average lies within one of the mid too. */
  lemma CalmHistoryNeverTrades(history: seq<int>, mid: int, bid: int, ask: int)
    requires |history| > 0 && history[|history| - 1] == mid
    requires forall i :: 0 <= i < |history| ==> mid - 1 <= history[i] <= mid + 1
    ensures Decide(mid, FloorAverage(history), bid, ask) == []
  {
    AverageWithin(history, mid - 1, mid + 1);
  }

  /** The first call, on an empty history, never trades. */
  lemma FirstCallNeverTrades(mid: int, bid: int, ask: int)
    ensures Decide(mid, FloorAverage(Record([], mid, WindowSize)), bid, ask) == []
  {
    CalmHistoryNeverTrades(Record([], mid, WindowSize), mid, bid, ask);
  }

  /** Nine mids of 100 followed by 102: the floor average is 100 (the exact
      mean is 100.2), 102 is above 101, so the trader sells 10 at the best bid. */
  lemma SpikeAboveAverageSells(bid: int, ask: int)
    ensures var history := [100, 100, 100, 100, 100, 100, 100, 100, 100, 102];
            FloorAverage(history) == 100 &&
            Decide(102, FloorAverage(history), bid, ask) == [Order(Product, bid, -10)]
  {
  }
}
