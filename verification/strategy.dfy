/** The strategy run (`implement_strategy`): early buyers from the trade feed,
    then the bundle analysis, the profitability scores with the profitable
    subset, and the interaction graph. The upstream services' answers for the
    run are given as one value; stage timings and the calendar rendering of the
    token's creation time are not part of this model. */
module Strategy {
  import opened Addresses
  import opened TradeFilter
  import opened BundleAnalyzer
  import opened Profitability
  import opened InteractionGraph

  /** What the upstream services answer during one run. */
  datatype Upstream = Upstream(
    tokenCreationTime: int,
    trades: seq<Trade>,
    creationTimeOf: Address -> int,
    pnlOf: Address -> PnlResponse,
    transactionsOf: Address -> seq<Transaction>)

  datatype StrategyReport = StrategyReport(
    tokenCreationTime: int,
    earlyBuyers: seq<Address>,
    bundleAnalysis: BundleReport,
    buyerPnls: map<Address, real>,
    goodBuyers: map<Address, real>,
    interactions: map<Pair, nat>)

  /** One run over fixed upstream answers. Everything but the order of the
      buyer list is a function of the early-buyer set, so two runs over the
      same answers agree on the bundle analysis, the scores and the graph even
      though `list(set)` may order the buyers differently. */
  method ImplementStrategy(upstream: Upstream, maxBuyers: int) returns (report: StrategyReport)
    ensures Distinct(report.earlyBuyers)
    ensures Elements(report.earlyBuyers) == EarlyBuyers(upstream.trades, maxBuyers)
    ensures report.bundleAnalysis
            == BundleSummary(EarlyBuyers(upstream.trades, maxBuyers), upstream.tokenCreationTime,
                             DefaultNewWalletThreshold, upstream.creationTimeOf)
    ensures report.buyerPnls == WalletPnls(EarlyBuyers(upstream.trades, maxBuyers), upstream.pnlOf)
    ensures report.goodBuyers == GoodBuyers(report.buyerPnls)
    ensures report.interactions == GraphOf(EarlyBuyers(upstream.trades, maxBuyers), upstream.transactionsOf)
  {
    var earlyBuyers := ExtractEarlyBuyers(upstream.trades, maxBuyers);
    var bundleAnalysis := AnalyzeBundleBuys(earlyBuyers, upstream.tokenCreationTime, DefaultNewWalletThreshold,
                                            upstream.creationTimeOf);
    CountNewOfDistinct(earlyBuyers, upstream.tokenCreationTime, DefaultNewWalletThreshold, upstream.creationTimeOf);
    DistinctCardinality(earlyBuyers);
    var buyerPnls := GetWalletPnl(earlyBuyers, DefaultBatchSize, upstream.pnlOf);
    var interactions := CheckWalletInteractions(earlyBuyers, upstream.transactionsOf);
    InteractionsOfDistinct(earlyBuyers, upstream.transactionsOf);
    var goodBuyers := GoodBuyers(buyerPnls);
    report := StrategyReport(upstream.tokenCreationTime, earlyBuyers, bundleAnalysis, buyerPnls, goodBuyers,
                             interactions);
  }
}
