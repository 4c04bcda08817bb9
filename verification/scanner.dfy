/**
 * One pass of `check_arbitrage_and_execute` over the configured symbols.
 * The exchange clients are replaced by `market`, the order-book fetch results
 * of the cycle; notification becomes the list of alerts the pass emits.
 */
module Scanner {
  import opened Wrappers
  import opened OrderBook
  import opened Arbitrage

  /** The symbols checked on every cycle, in order. */
  const Symbols: seq<string> := ["MATIC/USDT", "ETH/USDT", "BTC/USDT", "USDC/USDT", "DAI/USDT"]

  /** What `fetch_order_book` returned for each venue and symbol during one cycle. */
  type Market = (Venue, string) -> Fetch

  /** How the evaluation of one symbol ended. */
  datatype Outcome = Outcome(symbol: string, result: Result<Verdict, Fault>)

  /**
   * The loop body of `check_arbitrage_and_execute` for one symbol: Binance's
   * quote, KuCoin's quote, then the decision at 0.5 percent.
   */
  function EvaluateSymbol(market: Market, symbol: string): (r: Result<Verdict, Fault>)
    ensures market(Binance, symbol).Unavailable? || market(KuCoin, symbol).Unavailable? ==>
      r == Success(NoData)
    ensures r.Failure? ==>
      GetPrice(market(Binance, symbol)).ask == Some(0.0) || GetPrice(market(KuCoin, symbol)).ask == Some(0.0)
    ensures r.Success? && r.value.Opportunity? ==>
      r.value.decision.profit > 0.0 && r.value.decision.profitPct >= MinProfitPct
  {
    Evaluate(GetPrice(market(Binance, symbol)), GetPrice(market(KuCoin, symbol)), MinProfitPct)
  }

  /**
   * The loop as the source writes it. A skipped symbol (`continue`) moves on
   * to the next, but the ZeroDivisionError of a zero buy price escapes the
   * loop and ends the cycle: the outcomes are a prefix of the full scan,
   * cut short only just after a fault.
   */
  function ScanAsWritten(market: Market, symbols: seq<string>): (outcomes: seq<Outcome>)
    ensures outcomes <= Scan(market, symbols)
    ensures forall i :: 0 <= i < |outcomes| - 1 ==> outcomes[i].result.Success?
    ensures |outcomes| < |symbols| ==> |outcomes| > 0 && outcomes[|outcomes| - 1].result.Failure?
  {
    if symbols == [] then []
    else
      var first := Outcome(symbols[0], EvaluateSymbol(market, symbols[0]));
      var full := Scan(market, symbols);
      assert full == [first] + Scan(market, symbols[1..]);
      if first.result.Failure? then [first]
      else [first] + ScanAsWritten(market, symbols[1..])
  }

  /**
   * The loop with every symbol's failure contained: exactly one outcome per
   * symbol, in the order of `symbols`.
   */
  function Scan(market: Market, symbols: seq<string>): (outcomes: seq<Outcome>)
    ensures |outcomes| == |symbols|
    ensures forall i :: 0 <= i < |symbols| ==>
      outcomes[i] == Outcome(symbols[i], EvaluateSymbol(market, symbols[i]))
  {
    if symbols == [] then []
    else [Outcome(symbols[0], EvaluateSymbol(market, symbols[0]))] + Scan(market, symbols[1..])
  }

  /** When no symbol raises, the source's loop reaches every symbol. */
  lemma {:induction false} SkipsNeverStopTheScan(market: Market, symbols: seq<string>)
    requires forall i :: 0 <= i < |symbols| ==> EvaluateSymbol(market, symbols[i]).Success?
    ensures ScanAsWritten(market, symbols) == Scan(market, symbols)
  {
  }

  /** Scanning two symbol lists back to back is scanning their concatenation. */
  lemma {:induction false} ScanConcat(market: Market, first: seq<string>, second: seq<string>)
    ensures Scan(market, first + second) == Scan(market, first) + Scan(market, second)
  {
    var whole := Scan(market, first + second);
    var parts := Scan(market, first) + Scan(market, second);
    assert |whole| == |parts|;
    forall i | 0 <= i < |whole| ensures whole[i] == parts[i] {
      if i < |first| {
        assert (first + second)[i] == first[i];
      } else {
        assert (first + second)[i] == second[i - |first|];
      }
    }
  }

  /**
   * The opportunities a pass announces (`send_telegram_message`), in scan
   * order: exactly the outcomes that are opportunities.
   */
  function Alerts(outcomes: seq<Outcome>): (alerts: seq<(string, Decision)>)
    ensures |alerts| <= |outcomes|
    ensures forall a :: a in alerts ==> Outcome(a.0, Success(Opportunity(a.1))) in outcomes
    ensures forall o :: o in outcomes && o.result.Success? && o.result.value.Opportunity? ==>
      (o.symbol, o.result.value.decision) in alerts
  {
    if outcomes == [] then []
    else
      var rest := Alerts(outcomes[1..]);
      assert forall o :: o in outcomes[1..] ==> o in outcomes;
      match outcomes[0].result
      case Success(Opportunity(d)) => [(outcomes[0].symbol, d)] + rest
      case _ => rest
  }

  /** Alerts of consecutive stretches of outcomes come out back to back, in scan order. */
  lemma {:induction false} AlertsConcat(first: seq<Outcome>, second: seq<Outcome>)
    ensures Alerts(first + second) == Alerts(first) + Alerts(second)
  {
    if first == [] {
      assert first + second == second;
    } else {
      assert (first + second)[0] == first[0];
      assert (first + second)[1..] == first[1..] + second;
      AlertsConcat(first[1..], second);
    }
  }

  /** A single outcome is announced exactly when it is an opportunity, with its symbol and decision. */
  lemma {:induction false} AlertOfOne(o: Outcome)
    ensures Alerts([o]) ==
      if o.result.Success? && o.result.value.Opportunity? then [(o.symbol, o.result.value.decision)] else []
  {
    assert [o][1..] == [];
  }

  /** Every announced opportunity has a positive profit of at least 0.5 percent of its buy price. */
  lemma {:induction false} AlertsClearThreshold(market: Market, symbols: seq<string>)
    ensures forall a :: a in Alerts(Scan(market, symbols)) ==>
      a.1.profit > 0.0 && a.1.profitPct >= MinProfitPct && a.1.sellPrice > a.1.buyPrice
  {
    var c := Scan(market, symbols);
    forall a | a in Alerts(c)
      ensures a.1.profit > 0.0 && a.1.profitPct >= MinProfitPct && a.1.sellPrice > a.1.buyPrice
    {
      var i :| 0 <= i < |c| && c[i] == Outcome(a.0, Success(Opportunity(a.1)));
      assert EvaluateSymbol(market, symbols[i]) == Success(Opportunity(a.1));
    }
  }

  /** A market whose KuCoin MATIC/USDT book offers an ask at price zero; every other fetch fails. */
  function ZeroAskMarket(venue: Venue, symbol: string): Fetch
  {
    if symbol != "MATIC/USDT" then Unavailable
    else if venue == Binance then Book([Level(1.0, 10.0)], [Level(1.1, 10.0)])
    else Book([Level(0.9, 10.0)], [Level(0.0, 10.0)])
  }

  /**
   * A zero ask on the first symbol raises in `profit / buy_price` and the
   * source's pass never evaluates the remaining four symbols, while the
   * contained scan still reports all five.
   */
  lemma ZeroAskAbortsCycle()
    ensures ScanAsWritten(ZeroAskMarket, Symbols) == [Outcome("MATIC/USDT", Failure(ZeroDivision))]
    ensures |Scan(ZeroAskMarket, Symbols)| == |Symbols| == 5
    ensures forall i :: 1 <= i < 5 ==> Scan(ZeroAskMarket, Symbols)[i].result == Success(NoData)
  {
    assert EvaluateSymbol(ZeroAskMarket, Symbols[0]) == Failure(ZeroDivision);
    forall i | 1 <= i < 5 ensures EvaluateSymbol(ZeroAskMarket, Symbols[i]) == Success(NoData) {
      assert Symbols[i] != "MATIC/USDT";
    }
  }
}
