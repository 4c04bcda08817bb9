/**
 * Top-of-book extraction: what `get_price` makes of one venue's order book.
 * The network call itself (`fetch_order_book`) is not modelled; its outcome
 * is an input, either a book or the exception it raised.
 */
module OrderBook {
  import opened Wrappers

  /** One order-book level as the exchange client returns it: `[price, amount]`. */
  datatype Level = Level(price: real, amount: real)

  /**
   * The outcome of fetching one symbol's book from one venue: the bid and ask
   * levels, or `Unavailable` when the fetch or the indexing into it raised.
   */
  datatype Fetch = Book(bids: seq<Level>, asks: seq<Level>) | Unavailable

  /** Best bid and best ask, each absent when unknown. */
  datatype TopOfBook = TopOfBook(bid: Option<real>, ask: Option<real>)

  /** Price of the first level of one side, absent when that side is empty. */
  function FirstPrice(side: seq<Level>): (p: Option<real>)
    ensures p.None? <==> side == []
    ensures p.Some? ==> p.value == side[0].price
  {
    if side == [] then None else Some(side[0].price)
  }

  /**
   * `get_price`: the first bid level's price and the first ask level's price,
   * each present exactly when its side is non-empty; a failed fetch yields
   * neither side.
   */
  function GetPrice(f: Fetch): (t: TopOfBook)
    ensures f.Unavailable? ==> t.bid.None? && t.ask.None?
    ensures f.Book? ==> (t.bid.Some? <==> f.bids != []) && (t.ask.Some? <==> f.asks != [])
    ensures t.bid.Some? ==> f.Book? && t.bid.value == f.bids[0].price
    ensures t.ask.Some? ==> f.Book? && t.ask.value == f.asks[0].price
  {
    match f
    case Unavailable => TopOfBook(None, None)
    case Book(bids, asks) => TopOfBook(FirstPrice(bids), FirstPrice(asks))
  }

  /** Exchanges list bids best (highest) first: prices never rise from one level to the next. */
  ghost predicate BidsSorted(bids: seq<Level>)
  {
    forall i :: 0 < i < |bids| ==> bids[i].price <= bids[i - 1].price
  }

  /** Exchanges list asks best (lowest) first: prices never fall from one level to the next. */
  ghost predicate AsksSorted(asks: seq<Level>)
  {
    forall i :: 0 < i < |asks| ==> asks[i - 1].price <= asks[i].price
  }

  lemma {:induction false} FirstBidIsHighest(bids: seq<Level>, k: nat)
    requires BidsSorted(bids)
    requires k < |bids|
    ensures bids[k].price <= bids[0].price
  {
    if k > 0 {
      FirstBidIsHighest(bids, k - 1);
    }
  }

  lemma {:induction false} FirstAskIsLowest(asks: seq<Level>, k: nat)
    requires AsksSorted(asks)
    requires k < |asks|
    ensures asks[0].price <= asks[k].price
  {
    if k > 0 {
      FirstAskIsLowest(asks, k - 1);
    }
  }

  /**
   * On a book sorted the way exchanges publish it, the first-level prices
   * `get_price` picks are the top of book: the highest bid and the lowest ask.
   */
  lemma TopOfBookIsBest(f: Fetch)
    requires f.Book? && BidsSorted(f.bids) && AsksSorted(f.asks)
    ensures GetPrice(f).bid.Some? ==>
      forall k :: 0 <= k < |f.bids| ==> f.bids[k].price <= GetPrice(f).bid.value
    ensures GetPrice(f).ask.Some? ==>
      forall k :: 0 <= k < |f.asks| ==> GetPrice(f).ask.value <= f.asks[k].price
  {
    forall k | 0 <= k < |f.bids| ensures f.bids[k].price <= f.bids[0].price {
      FirstBidIsHighest(f.bids, k);
    }
    forall k | 0 <= k < |f.asks| ensures f.asks[0].price <= f.asks[k].price {
      FirstAskIsLowest(f.asks, k);
    }
  }
}
