/**
 The order-book snapshot that every strategy reads, the orders it emits, and
 the pricing step shared by all three traders: best bid, best ask (each with a
 fixed fallback price when its side of the book is empty) and the floor mid.
 */
module Pricing {

  /** Resting interest on one instrument: price -> quantity on each side.
      Only the prices (the keys) are ever read. */
  datatype OrderBook = OrderBook(buyOrders: map<int, int>, sellOrders: map<int, int>)

  /** The per-call input of a trader; only the order depth is consulted. */
  datatype TradingState = TradingState(orderDepth: OrderBook)

  /** A quote instruction: positive quantity buys, negative quantity sells. */
  datatype Order = Order(symbol: string, price: int, quantity: int)

  /** What `run` returns: instrument name -> the orders for it. */
  type Orders = map<string, seq<Order>>

  /** Best bid used when the buy side is empty. */
  const FallbackBid: int := 9995
  /** Best ask used when the sell side is empty. */
  const FallbackAsk: int := 10005

  /** A set of positive size has an element. */
  lemma HasElement(s: set<int>)
    requires |s| > 0
    ensures exists x :: x in s
  {
    if forall x :: x !in s {
      // naming `s == {}` lets the solver relate the empty set to cardinality 0
      ghost var empty := s == {};
      assert false;
    }
  }

  /** Every finite, non-empty set of integers has a largest element. */
  lemma {:induction false} MaximumExists(s: set<int>)
    requires |s| > 0
    ensures exists m :: m in s && forall k :: k in s ==> k <= m
  {
    HasElement(s);
    var x :| x in s;
    var rest := s - {x};
    if rest == {} {
      assert s == {x};
      assert forall k :: k in s ==> k <= x;
    } else {
      assert |rest| == |s| - 1;
      MaximumExists(rest);
      var m :| m in rest && forall k :: k in rest ==> k <= m;
      var top := if x <= m then m else x;
      forall k | k in s ensures k <= top {
        if k != x { assert k in rest; }
      }
      assert top in s;
    }
  }

  /** Every finite, non-empty set of integers has a smallest element. */
  lemma {:induction false} MinimumExists(s: set<int>)
    requires |s| > 0
    ensures exists m :: m in s && forall k :: k in s ==> m <= k
  {
    HasElement(s);
    var x :| x in s;
    var rest := s - {x};
    if rest == {} {
      assert s == {x};
      assert forall k :: k in s ==> x <= k;
    } else {
      assert |rest| == |s| - 1;
      MinimumExists(rest);
      var m :| m in rest && forall k :: k in rest ==> m <= k;
      var low := if m <= x then m else x;
      forall k | k in s ensures low <= k {
        if k != x { assert k in rest; }
      }
      assert low in s;
    }
  }

  /** The largest key of a non-empty price map. */
  function MaxKey(m: map<int, int>): (r: int)
    requires |m| > 0
    ensures r in m
    ensures forall k :: k in m ==> k <= r
  {
    MaximumExists(m.Keys);
    var r :| r in m && forall k :: k in m ==> k <= r;
    r
  }

  /** The smallest key of a non-empty price map. */
  function MinKey(m: map<int, int>): (r: int)
    requires |m| > 0
    ensures r in m
    ensures forall k :: k in m ==> r <= k
  {
    MinimumExists(m.Keys);
    var r :| r in m && forall k :: k in m ==> r <= k;
    r
  }

  /** Highest price anyone is bidding, or FallbackBid on an empty buy side. */
  function BestBid(book: OrderBook): (r: int)
    ensures |book.buyOrders| > 0 ==>
              r in book.buyOrders && forall k :: k in book.buyOrders ==> k <= r
    ensures |book.buyOrders| == 0 ==> r == FallbackBid
  {
    if |book.buyOrders| > 0 then MaxKey(book.buyOrders) else FallbackBid
  }

  /** Lowest price anyone is offering, or FallbackAsk on an empty sell side. */
  function BestAsk(book: OrderBook): (r: int)
    ensures |book.sellOrders| > 0 ==>
              r in book.sellOrders && forall k :: k in book.sellOrders ==> r <= k
    ensures |book.sellOrders| == 0 ==> r == FallbackAsk
  {
    if |book.sellOrders| > 0 then MinKey(book.sellOrders) else FallbackAsk
  }

  /** Floor of the average of two prices (Python's `//`, which rounds toward
      minus infinity; Dafny's `/` by a positive divisor agrees with it). */
  function FloorMid(bid: int, ask: int): (r: int)
    ensures 2 * r <= bid + ask < 2 * r + 2
    ensures bid <= ask ==> bid <= r <= ask
  {
    (bid + ask) / 2
  }

  /** The mid price of a snapshot, from the best bid and best ask with their fallbacks. */
  function MidPrice(book: OrderBook): (r: int)
    ensures 2 * r <= BestBid(book) + BestAsk(book) < 2 * r + 2
    ensures BestBid(book) <= BestAsk(book) ==> BestBid(book) <= r <= BestAsk(book)
  {
    FloorMid(BestBid(book), BestAsk(book))
  }

  /** The best bid and best ask are determined by the prices alone: two books
      with the same price levels on each side give the same mid, whatever the
      quantities. */
  lemma MidIgnoresQuantities(b1: OrderBook, b2: OrderBook)
    requires b1.buyOrders.Keys == b2.buyOrders.Keys
    requires b1.sellOrders.Keys == b2.sellOrders.Keys
    ensures BestBid(b1) == BestBid(b2) && BestAsk(b1) == BestAsk(b2)
    ensures MidPrice(b1) == MidPrice(b2)
  {
  }

  /** With nothing on either side, the mid is the centre of the two fallbacks. */
  lemma EmptyBookMid(book: OrderBook)
    requires |book.buyOrders| == 0 && |book.sellOrders| == 0
    ensures BestBid(book) == 9995 && BestAsk(book) == 10005
    ensures MidPrice(book) == 10000
  {
  }
}
