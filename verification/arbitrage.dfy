/**
 * The per-symbol decision of `check_arbitrage_and_execute`: from the top of
 * book on Binance (venue 1) and KuCoin (venue 2) decide whether buying on one
 * venue and selling on the other clears the minimum profit percentage.
 */
module Arbitrage {
  import opened Wrappers
  import opened OrderBook

  datatype Venue = Binance | KuCoin

  /** A detected opportunity: where to buy and sell, at what prices, and the margin. */
  datatype Decision = Decision(
    buyVenue: Venue,
    sellVenue: Venue,
    buyPrice: real,
    sellPrice: real,
    profit: real,
    profitPct: real)

  /** The four ways one symbol's evaluation can end without raising. */
  datatype Verdict =
    | NoData
    | NoArbitrage
    | BelowThreshold
    | Opportunity(decision: Decision)

  /** `profit / buy_price` raises ZeroDivisionError when the buy price is zero. */
  datatype Fault = ZeroDivision

  /** The hard-coded minimum profit percentage. */
  const MinProfitPct: real := 0.5

  /** All four prices are present. */
  predicate Complete(binance: TopOfBook, kucoin: TopOfBook)
  {
    binance.bid.Some? && binance.ask.Some? && kucoin.bid.Some? && kucoin.ask.Some?
  }

  /**
   * The profit `sellPrice - buyPrice` is at least `threshold` percent of the
   * buy price, stated by cross-multiplication instead of division (the
   * inequality flips when the buy price is negative).
   */
  predicate ReachesThreshold(buyPrice: real, sellPrice: real, threshold: real)
  {
    || (buyPrice > 0.0 && (sellPrice - buyPrice) * 100.0 >= threshold * buyPrice)
    || (buyPrice < 0.0 && (sellPrice - buyPrice) * 100.0 <= threshold * buyPrice)
  }

  lemma PercentageVersusThreshold(buyPrice: real, profit: real, threshold: real)
    requires buyPrice != 0.0
    ensures profit / buyPrice * 100.0 * buyPrice == profit * 100.0
    ensures profit / buyPrice * 100.0 >= threshold
        <==> ReachesThreshold(buyPrice, buyPrice + profit, threshold)
  {
    var pct := profit / buyPrice * 100.0;
    assert (buyPrice + profit) - buyPrice == profit;
    assert pct * buyPrice == profit * 100.0;
    assert (pct - threshold) * buyPrice == profit * 100.0 - threshold * buyPrice;
    ProductSign(pct - threshold, buyPrice);
    assert ((buyPrice + profit) - buyPrice) * 100.0 - threshold * buyPrice == (pct - threshold) * buyPrice;
  }

  lemma ProductSign(x: real, y: real)
    requires y != 0.0
    ensures y > 0.0 ==> (x >= 0.0 <==> x * y >= 0.0)
    ensures y < 0.0 ==> (x >= 0.0 <==> x * y <= 0.0)
  {
  }

  /**
   * The end of the loop body of `check_arbitrage_and_execute` once a
   * direction is chosen: profit and its percentage of the buy price, then
   * the inclusive threshold test.
   */
  function Settle(buyVenue: Venue, sellVenue: Venue, buyPrice: real, sellPrice: real, threshold: real)
    : (r: Result<Verdict, Fault>)
    ensures r == Failure(ZeroDivision) <==> buyPrice == 0.0
    ensures r == Success(BelowThreshold)
        <==> buyPrice != 0.0 && !ReachesThreshold(buyPrice, sellPrice, threshold)
    ensures buyPrice != 0.0 && ReachesThreshold(buyPrice, sellPrice, threshold) ==>
      r.Success? && r.value.Opportunity?
    ensures r.Success? && r.value.Opportunity? ==>
      && r.value.decision.buyVenue == buyVenue
      && r.value.decision.sellVenue == sellVenue
      && r.value.decision.buyPrice == buyPrice
      && r.value.decision.sellPrice == sellPrice
      && r.value.decision.profit == sellPrice - buyPrice
      && r.value.decision.profitPct * buyPrice == r.value.decision.profit * 100.0
      && r.value.decision.profitPct >= threshold
  {
    var profit := sellPrice - buyPrice;
    if buyPrice == 0.0 then
      Failure(ZeroDivision)
    else
      var pct := profit / buyPrice * 100.0;
      PercentageVersusThreshold(buyPrice, profit, threshold);
      if pct < threshold then Success(BelowThreshold)
      else Success(Opportunity(Decision(buyVenue, sellVenue, buyPrice, sellPrice, profit, pct)))
  }

  /**
   * The body of the per-symbol loop: no data when a price is missing; buy on
   * KuCoin and sell on Binance when Binance's bid beats KuCoin's ask, which
   * is compared first and wins even when the other direction is profitable too;
   * otherwise the reverse trade when KuCoin's bid beats Binance's ask; else no
   * arbitrage. Every decision sells strictly above its buy price.
   */
  function Evaluate(binance: TopOfBook, kucoin: TopOfBook, threshold: real): (r: Result<Verdict, Fault>)
    ensures r == Success(NoData) <==> !Complete(binance, kucoin)
    ensures Complete(binance, kucoin) && binance.bid.value > kucoin.ask.value ==>
      r == Settle(KuCoin, Binance, kucoin.ask.value, binance.bid.value, threshold)
    ensures (Complete(binance, kucoin) && binance.bid.value <= kucoin.ask.value
             && kucoin.bid.value > binance.ask.value) ==>
      r == Settle(Binance, KuCoin, binance.ask.value, kucoin.bid.value, threshold)
    ensures r == Success(NoArbitrage) <==>
      Complete(binance, kucoin) && binance.bid.value <= kucoin.ask.value
        && kucoin.bid.value <= binance.ask.value
    ensures r.Success? && r.value.Opportunity? ==>
      && r.value.decision.profit > 0.0
      && r.value.decision.sellPrice > r.value.decision.buyPrice
      && r.value.decision.buyVenue != r.value.decision.sellVenue
      && r.value.decision.profitPct >= threshold
  {
    if !Complete(binance, kucoin) then
      Success(NoData)
    else
      var bid1, ask1 := binance.bid.value, binance.ask.value;
      var bid2, ask2 := kucoin.bid.value, kucoin.ask.value;
      if bid1 > ask2 then Settle(KuCoin, Binance, ask2, bid1, threshold)
      else if bid2 > ask1 then Settle(Binance, KuCoin, ask1, bid2, threshold)
      else Success(NoArbitrage)
  }

  /** Neither venue's own book is crossed: its bid does not exceed its ask. */
  predicate Uncrossed(t: TopOfBook)
  {
    t.bid.Some? && t.ask.Some? && t.bid.value <= t.ask.value
  }

  function OtherVenue(v: Venue): Venue
  {
    match v
    case Binance => KuCoin
    case KuCoin => Binance
  }

  /** The same verdict with the two venue names exchanged. */
  function Mirror(r: Result<Verdict, Fault>): Result<Verdict, Fault>
  {
    match r
    case Success(Opportunity(d)) =>
      Success(Opportunity(d.(buyVenue := OtherVenue(d.buyVenue), sellVenue := OtherVenue(d.sellVenue))))
    case _ => r
  }

  /**
   * With uncrossed books at most one direction is profitable, so which venue
   * is compared first does not matter: evaluating with the venues' quotes
   * exchanged gives the same trade under exchanged names.
   */
  lemma UncrossedBooksAreSymmetric(binance: TopOfBook, kucoin: TopOfBook, threshold: real)
    requires Uncrossed(binance) && Uncrossed(kucoin)
    ensures Evaluate(kucoin, binance, threshold) == Mirror(Evaluate(binance, kucoin, threshold))
  {
    var bid1, ask1 := binance.bid.value, binance.ask.value;
    var bid2, ask2 := kucoin.bid.value, kucoin.ask.value;
    assert !(bid1 > ask2 && bid2 > ask1);
  }

  /** An opportunity at some threshold remains the same opportunity at any lower threshold. */
  lemma LowerThresholdKeepsOpportunity(binance: TopOfBook, kucoin: TopOfBook, threshold: real, lower: real)
    requires lower <= threshold
    requires Evaluate(binance, kucoin, threshold).Success?
    requires Evaluate(binance, kucoin, threshold).value.Opportunity?
    ensures Evaluate(binance, kucoin, lower) == Evaluate(binance, kucoin, threshold)
  {
  }

  /** When both venues' books are crossed against each other, the first test decides, not the larger spread. */
  lemma SourceOrderBeatsLargerSpread()
    ensures var binance := TopOfBook(Some(105.0), Some(100.0));
            var kucoin := TopOfBook(Some(110.0), Some(104.0));
            && kucoin.bid.value - binance.ask.value > binance.bid.value - kucoin.ask.value > 0.0
            && Evaluate(binance, kucoin, MinProfitPct).Success?
            && Evaluate(binance, kucoin, MinProfitPct).value.Opportunity?
            && Evaluate(binance, kucoin, MinProfitPct).value.decision.buyVenue == KuCoin
            && Evaluate(binance, kucoin, MinProfitPct).value.decision.profit == 1.0
  {
  }

  /** The threshold is inclusive: a margin of exactly 0.5 percent is an opportunity. */
  lemma ThresholdIsInclusive()
    ensures var r := Evaluate(TopOfBook(Some(201.0), Some(201.5)), TopOfBook(Some(199.0), Some(200.0)), MinProfitPct);
            r.Success? && r.value.Opportunity? && r.value.decision.profitPct == MinProfitPct
  {
  }

  /** Binance 100.00/100.10 against KuCoin 100.80/100.90: buy on Binance, sell on KuCoin, about 0.699 percent. */
  lemma ScenarioOpportunity()
    ensures var r := Evaluate(TopOfBook(Some(100.0), Some(100.1)), TopOfBook(Some(100.8), Some(100.9)), MinProfitPct);
            && r.Success? && r.value.Opportunity?
            && r.value.decision.buyVenue == Binance && r.value.decision.sellVenue == KuCoin
            && r.value.decision.buyPrice == 100.1 && r.value.decision.sellPrice == 100.8
            && r.value.decision.profit == 0.7
            && 0.699 < r.value.decision.profitPct < 0.7
  {
  }

  /** The same quotes against a 1 percent threshold fall short. */
  lemma ScenarioBelowThreshold()
    ensures Evaluate(TopOfBook(Some(100.0), Some(100.1)), TopOfBook(Some(100.8), Some(100.9)), 1.0)
         == Success(BelowThreshold)
  {
  }

  /**
   * Binance 100.1/100 against KuCoin 110/100: the first direction tested
   * (buy on KuCoin at 100, sell on Binance at 100.1) earns 0.1 percent and
   * ends the evaluation below threshold, so the reverse trade (buy on
   * Binance at 100, sell on KuCoin at 110), worth 10 percent, is never seen.
   */
  lemma FirstDirectionHidesSecond()
    ensures ReachesThreshold(100.0, 110.0, MinProfitPct)
    ensures Evaluate(TopOfBook(Some(100.1), Some(100.0)), TopOfBook(Some(110.0), Some(100.0)), MinProfitPct)
         == Success(BelowThreshold)
  {
  }
}
