/**
 The stateless market maker for PRODUCT1: on every call it quotes a buy of 10
 one below the mid and a sell of 10 one above it.
 */
module MarketMaker {
  import opened Pricing

  const Product: string := "PRODUCT1"
  /** Size of each of the two quotes. */
  const QuoteSize: int := 10

  /** One call of the trader. It reads no state of its own, so the orders are
      a function of the snapshot alone: the same snapshot always gets the same
      quotes. */
  function Run(state: TradingState): (r: Orders)
    ensures r.Keys == {Product}
    ensures |r[Product]| == 2
    // a buy first, then a sell, both of size 10 and both on PRODUCT1
    ensures r[Product][0].symbol == Product && r[Product][0].quantity == QuoteSize
    ensures r[Product][1].symbol == Product && r[Product][1].quantity == -QuoteSize
    // the sell sits exactly two above the buy, one either side of the mid
    ensures r[Product][1].price == r[Product][0].price + 2
    ensures r[Product][0].price + 1 == MidPrice(state.orderDepth)
  {
    var mid := MidPrice(state.orderDepth);
    var buyPrice := mid - 1;
    var sellPrice := mid + 1;
    map[Product := [Order(Product, buyPrice, QuoteSize), Order(Product, sellPrice, -QuoteSize)]]
  }

  /** On a book whose best bid does not exceed its best ask, neither quote
      crosses it: the buy is below the best ask and the sell above the best
      bid, and each is at most one tick outside the touch. */
  lemma QuotesDoNotCross(state: TradingState)
    requires BestBid(state.orderDepth) <= BestAsk(state.orderDepth)
    ensures var bid, ask := BestBid(state.orderDepth), BestAsk(state.orderDepth);
            var quotes := Run(state)[Product];
            bid - 1 <= quotes[0].price < ask && bid < quotes[1].price <= ask + 1
  {
  }

  /** With both sides of the book empty, the mid is 10000 and the quotes are
      a buy of 10 at 9999 and a sell of 10 at 10001. */
  lemma EmptyBookQuotes(state: TradingState)
    requires |state.orderDepth.buyOrders| == 0 && |state.orderDepth.sellOrders| == 0
    ensures Run(state) == map[Product := [Order(Product, 9999, 10), Order(Product, 10001, -10)]]
  {
    EmptyBookMid(state.orderDepth);
  }

  /** With only the sell side present, the missing bid is the constant 9995,
      not an offset from the ask: the mid is the floor of (9995 + ask) / 2. */
  lemma OneSidedBookUsesConstantBid(state: TradingState)
    requires |state.orderDepth.buyOrders| == 0 && |state.orderDepth.sellOrders| > 0
    ensures var ask := BestAsk(state.orderDepth);
            Run(state)[Product][0].price == (9995 + ask) / 2 - 1
  {
  }
}
