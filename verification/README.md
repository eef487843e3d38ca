# Early-buyer analysis of a newly launched token — Dafny model

This project models the analysis pipeline of `sniper.py`. The pipeline
investigates the first buyers of a freshly created token. It looks for signs
of coordinated ("bundled") buying and for wallets that have made money before.
From a time-ordered list of trades it derives:

- the set of early buyer addresses, capped at `max_buyers` (`extract_early_buyers`);
- each buyer's wallet age relative to the token's creation, and how many buyers
  used brand-new wallets (`analyze_bundle_buys`);
- each buyer's net realized profit, and the strictly profitable buyers
  (`get_wallet_pnl`, `good_buyers`);
- a graph whose edges join two early buyers that appear in each other's
  transactions, weighted by how often they do (`check_wallet_interactions`).

The network fetchers become parameters:

- wallet creation time is a function `Address -> int`, 0 meaning unknown;
- the PnL breakdown is a function `Address -> PnlResponse`, either the token
  positions or `FetchFailed`;
- recent transactions are a function `Address -> seq<Transaction>`.

Because each fetcher is a function, two lookups of the same address always
get the same answer. The source sends one request per listing of a buyer, so a
buyer listed twice could get two different answers there. The result that a
twice-listed buyer counts twice (`PairCount`), and the later lookup winning when
an address is scored or aged twice, both rest on this assumption.

Each step that works by updating an accumulator in a loop is a method with
loop invariants. Each such method is proved against a specification function.
The properties the source promises are lemmas about those functions.

Files and modules:

- `lex_order.dfy` (`LexOrder`): Python's `<` on `str`. Dafny's `<` on sequences means "proper prefix", so this order is defined here.
- `addresses.dfy` (`Addresses`): the address type and list helpers.
- `trade_filter.dfy` (`TradeFilter`): the buyer extraction.
- `bundle_analyzer.dfy` (`BundleAnalyzer`): wallet age and the new-wallet count.
- `profitability.dfy` (`Profitability`): the PnL scores and the profitable subset.
- `interaction_graph.dfy` (`InteractionGraph`): the interaction graph.
- `strategy.dfy` (`Strategy`): the orchestration, without timing.

Modelling choices:

- An absent field of a trade or transaction record is the empty string. Python's
  `or` chain treats a missing key and `''` alike.
- `list(buyers)` is modelled by a method that drains the set with a
  nondeterministic choice. Its output order is unspecified, as in Python, where
  string hashing changes the order from one process to the next.
- The `float('inf')` age is the datatype variant `Unknown`.
- Amounts are `real`, percentages are `real`, times are `int`.

## Model

| member | source | states |
|---|---|---|
| `TradeFilter.ExtractEarlyBuyers` | sniper.py:41-53 | The result lists each address once. Its members are exactly `EarlyBuyers(trades, maxBuyers)`: the resolved buyers of the buy trades up to the first trade at which the cap fires. |
| `TradeFilter.StopIndex` | sniper.py:51-52 | The scan stops at the first buy trade after which the set holds at least `maxBuyers` addresses, or after the last trade. No earlier position fires the cap. |
| `TradeFilter.ListOf` | sniper.py:53 | `list(set)` returns every member of the set exactly once: the list is duplicate-free, has the same members, and has the same size. |
| `TradeFilter.BuySetMembers` | sniper.py:46-50 | An address is collected iff it is non-empty and is the `maker` (or, when `maker` is empty, the `buyer`) of some trade whose action is `buy`. |
| `TradeFilter.BuySetPrefix` | sniper.py:46-50 | Scanning further never removes a buyer. |
| `TradeFilter.EarlyBuyersAreBuyers` | sniper.py:45-50 | Every early buyer is a non-empty address resolved from some buy trade. Sell trades never contribute. |
| `TradeFilter.BelowCapBeforeStop` | sniper.py:51-52 | Before the scan stops, fewer than `max(maxBuyers, 1)` addresses have been collected. |
| `TradeFilter.EarlyBuyersBounded` | sniper.py:51-53 | The result has at most `maxBuyers` addresses, or at most one when `maxBuyers <= 0`, because the check follows the add. |
| `TradeFilter.EarlyBuyersUncapped` | sniper.py:46-53 | If the trades hold fewer than `maxBuyers` distinct buyers, the result is all of them. |
| `TradeFilter.EarlyBuyersFull` | sniper.py:46-53 | With a cap of at least 1 and at least that many distinct buyers, the result holds exactly `maxBuyers` addresses. Together with `EarlyBuyersBounded` and `EarlyBuyersUncapped`, its size is `min(|BuySet(ts)|, maxBuyers)`. |
| `TradeFilter.CapFiresWithin` | sniper.py:51-52 | Once a prefix holds `maxBuyers` buyers (cap at least 1), the cap has fired within it, and the scan stops there at the latest. |
| `TradeFilter.BuySetStep` | sniper.py:46-50 | Scanning one more trade adds exactly its resolved buyer, when it is a buy with a non-empty address, and nothing otherwise. |
| `TradeFilter.EarlyBuyersIgnoreLaterTrades` | sniper.py:51-52 | Once the cap has fired, including at the last trade, appending any further trades leaves the result unchanged. |
| `TradeFilter.StopIndexOfExtension` | sniper.py:51-52 | When the cap fires within `ts`, at its last trade or earlier, the stop position depends only on the trades up to it. |
| `TradeFilter.ExtractExample` | sniper.py:230-233 | buy addr1, sell addr2, buy addr1 with a cap of 1 gives `{addr1}`. |
| `BundleAnalyzer.AnalyzeBundleBuys` | sniper.py:105-122 | The age map's keys are exactly the buyers. Each age is `creation - tokenCreation` when `creation > 0`, `Unknown` otherwise. The new-wallet count is `CountNew`. The percentage is `100 * count / len`, 0 for an empty list, and always in [0, 100]. |
| `BundleAnalyzer.CountNew` | sniper.py:111-116 | Counts the list entries whose age satisfies `0 <= age <= threshold`. An unknown age never counts. The count is at most the length of the list. |
| `BundleAnalyzer.PercentageBounded` | sniper.py:117 | A count no larger than the total gives a percentage between 0 and 100. |
| `BundleAnalyzer.CountNewOfDistinct` | sniper.py:109-116 | On a duplicate-free list the count equals the number of distinct new wallets, so it does not depend on the order of the list. |
| `BundleAnalyzer.ThresholdInclusive` | sniper.py:113-115 | Age equal to the threshold is new. One second more is not new, nor is a negative age or an unknown creation time. |
| `BundleAnalyzer.AnalyzeExample` | sniper.py:244-247 | Creation 1690000000 against token 1689996400 gives age 3600 and one new wallet at threshold 3600. |
| `Profitability.GetWalletPnl` | sniper.py:81-103 | With a positive batch size, every input address gets an entry, whatever the batch size. The entry is the sum of its positions' realized profit, or 0.0 when its lookup failed. A negative batch size yields an empty map; zero is excluded because `range` raises. |
| `Profitability.TotalRealizedConcat` | sniper.py:98 | The sum over two groups of positions is the sum of the two sums. |
| `Profitability.TotalRealizedPermutation` | sniper.py:98 | The sum does not depend on the order in which the breakdown lists its positions. |
| `Profitability.GoodBuyersOfScores` | sniper.py:179 | A wallet is good iff it was scored, its lookup succeeded and its positions sum to more than 0. Its good value is that sum. A failed or zero entry is never good. |
| `Profitability.GoodBuyersIdempotent` | sniper.py:179 | Filtering the good buyers again changes nothing. The good buyers are a subset of the scored wallets. |
| `Profitability.PnlExamples` | sniper.py:235-242 | The unit test's `{tok1: 100}` scores 100. The model's own further examples: 100 and -30 score 70, a missing field adds 0, a failure scores 0.0. |
| `InteractionGraph.CheckWalletInteractions` | sniper.py:139-153 | The graph maps each key to the number of times it occurs among the hits. A hit is one `(buyer, tx)` whose counterparty is a different early buyer, recorded under the sorted pair. |
| `InteractionGraph.TallyStep` | sniper.py:148-152 | One transaction adds one to its sorted pair when its counterparty is another early buyer, and nothing otherwise. |
| `InteractionGraph.TallyAppend` | sniper.py:152 | `interactions.get(pair, 0) + 1` keeps the map equal to the multiset of hits. |
| `InteractionGraph.SortedPairCanonical` | sniper.py:151 | For two different addresses, both argument orders give the same key. Its first member is lexicographically smaller, and it holds exactly the two addresses. |
| `InteractionGraph.HitsOfWellFormed` | sniper.py:149-151 | Each hit from one buyer's scan joins that buyer to a different early buyer, smaller address first. |
| `InteractionGraph.HitsWellFormed` | sniper.py:145-151 | Every hit of the whole scan joins two different early buyers, smaller address first. |
| `InteractionGraph.InteractionKeys` | sniper.py:144-152 | Every key `(a, b)` of the graph has `a < b` lexicographically, both are early buyers, `a != b`, and its count is at least 1. |
| `InteractionGraph.HitsOfCount` | sniper.py:148-152 | One buyer's scan adds to the key of `{a, b}` exactly its transactions naming the other one. |
| `InteractionGraph.PairCount` | sniper.py:146-152 | Both directions accumulate on one key. The count for `{a, b}` is `a`'s transactions naming `b` plus `b`'s naming `a`, once per listing of each. |
| `InteractionGraph.EdgeWeight` | sniper.py:146-152 | For a duplicate-free list, the edge between two buyers is present iff its two-way count is positive, and then has that count. |
| `InteractionGraph.OutsideReceiversBlock` | sniper.py:149-150 | A non-empty `receiver` that is not an early buyer blocks `seller` and `buyer`. If every transaction has such a receiver, no edge is recorded. |
| `InteractionGraph.SumCountsRemove` | sniper.py:152 | The total of a graph's counts does not depend on the order the keys are summed in. |
| `InteractionGraph.SumCountsIncrement` | sniper.py:152 | Adding one to a key's count, or creating the key with count 1, raises the total of the counts by exactly one. |
| `InteractionGraph.TallySum` | sniper.py:152 | The counts of a tally add up to the number of hits. |
| `InteractionGraph.HitsOfLength` | sniper.py:148-152 | One buyer's scan records exactly one hit per transaction whose counterparty is a different early buyer. |
| `InteractionGraph.SightingsStep` | sniper.py:148-150 | The qualifying positions of a transaction list are those of its prefix, plus the last one when its counterparty is a different early buyer. |
| `InteractionGraph.HitsLength` | sniper.py:144-152 | The whole scan records as many hits as there are qualifying `(buyer, tx)` pairs, counted per listing of each buyer. |
| `InteractionGraph.InteractionsTotal` | sniper.py:144-153 | The graph's counts add up to `TotalSightings`: the sum, over the listed buyers, of the number of their transactions whose counterparty is a different early buyer. |
| `InteractionGraph.InteractionsOfDistinct` | sniper.py:144-153 | For a duplicate-free list the graph is `GraphOf` its set of buyers, so it does not depend on the order of the list. |
| `Strategy.ImplementStrategy` | sniper.py:155-199 | The report's buyer list is duplicate-free with members `EarlyBuyers`. Bundle analysis, scores, good buyers and graph are each functions of the early-buyer set alone (default threshold 3600, batch size 50). So two runs over the same upstream answers agree on them whatever order the buyers are listed in. |
| `LexOrder.LexLessIrreflexive` | sniper.py:151 | No string sorts before itself. |
| `LexOrder.LexLessAsymmetric` | sniper.py:151 | At most one of `a < b`, `b < a` holds. |
| `LexOrder.LexLessTotal` | sniper.py:151 | Two different strings are ordered one way or the other. |
| `LexOrder.LexLessTransitive` | sniper.py:151 | The string order is transitive. |

## Left out

- The HTTP fetchers `get_token_creation_time`, `get_early_trades` and `get_wallet_transactions` are network I/O. So are the request and JSON part of `get_wallet_pnl`. Their results are parameters.
- `get_wallet_creation_time` is left out and its result is a given parameter. It is an RPC pagination loop: it returns 0 on any non-200 response, stops when the remote end returns an empty page, and raises when the last entry of a page lacks its `signature`.
- A `null` time is not modelled. `get_wallet_creation_time` returns `None` when the RPC sends `blockTime: null`, and `get_token_creation_time` returns `None` for a `null` `created_at`. The comparison `creation_time > 0` in `analyze_bundle_buys` then raises `TypeError`, as does `datetime.fromtimestamp` in `implement_strategy`, and the run stops. The model's times are integers, so this failure cannot arise in it.
- Exceptions raised by fetchers other than the PnL lookup are not modelled, for example a network error inside `get_wallet_creation_time`. In the source they abort the whole run.
- The wall-clock timings and `datetime.fromtimestamp(...).isoformat()` in `implement_strategy` are left out. They depend on the clock and the local time zone. The report keeps the token creation time as epoch seconds.
- Floating-point behaviour is left out: rounding of the PnL sums and of `percentage_new`. Sums and the percentage are exact `real` values.
- The error `print` in `get_wallet_pnl` is left out.
- The unit-test harness is left out; its example values appear as lemmas.
- Profitability.GetWalletPnl: a batch size of 0 is excluded by a precondition. In Python `range(0, n, 0)` raises `ValueError`; the only caller passes 50.
- Profitability.GetWalletPnl: a realized-profit field that is present but not a number is not distinguished. In Python such a field makes `sum` raise, and the address gets 0.0. The model counts this as a failed lookup, `FetchFailed`.
