/** The profitability scorer: each wallet's net realized profit, summed over the
    token positions of its PnL breakdown (`get_wallet_pnl`), and the wallets
    whose net profit is strictly positive (`good_buyers`). The breakdown lookup
    is a parameter that either returns the wallet's positions or fails. */
module Profitability {
  import opened Addresses

  datatype Option<T> = None | Some(value: T)

  /** One token position of a breakdown; `None` when the entry carries no
      `pnl` object or no `realized_profit_usd` in it. */
  datatype TokenPosition = TokenPosition(realizedProfitUsd: Option<real>)

  /** The outcome of one breakdown lookup: the positions it listed (empty when
      the response had no `tokens`), or a failure of the request or its parsing. */
  datatype PnlResponse = Breakdown(tokens: seq<TokenPosition>) | FetchFailed

  const DefaultBatchSize: int := 50

  /** A position's realized profit, a missing field counting as 0. */
  function RealizedOf(p: TokenPosition): real
  {
    match p.realizedProfitUsd
    case Some(v) => v
    case None => 0.0
  }

  /** The `sum(...)` over a breakdown's positions. */
  function TotalRealized(tokens: seq<TokenPosition>): real
    decreases |tokens|
  {
    if tokens == [] then 0.0
    else TotalRealized(tokens[..|tokens| - 1]) + RealizedOf(tokens[|tokens| - 1])
  }

  /** The score stored for one wallet: the sum on success, 0.0 on failure. */
  function NetPnl(r: PnlResponse): real
  {
    match r
    case Breakdown(tokens) => TotalRealized(tokens)
    case FetchFailed => 0.0
  }

  /** The scores of a set of wallets, one entry per address. */
  function WalletPnls(addresses: set<Address>, fetch: Address -> PnlResponse): map<Address, real>
  {
    map a | a in addresses :: NetPnl(fetch(a))
  }

  /** `good_buyers`: the entries whose score is strictly positive. */
  function GoodBuyers(pnls: map<Address, real>): map<Address, real>
  {
    map b | b in pnls && pnls[b] > 0.0 :: pnls[b]
  }

  /** `get_wallet_pnl`: walk the addresses in slices of `batchSize`, score each
      address and keep going after a failed lookup. A zero batch size makes
      Python's `range` raise; a negative one gives an empty range. */
  method GetWalletPnl(walletAddresses: seq<Address>, batchSize: int, fetch: Address -> PnlResponse)
    returns (pnls: map<Address, real>)
    requires batchSize != 0
    ensures batchSize > 0 ==> pnls == WalletPnls(Elements(walletAddresses), fetch)
    ensures batchSize < 0 ==> pnls == map[]
  {
    pnls := map[];
    var n := |walletAddresses|;
    var i := 0;
    while batchSize > 0 && i < n
      invariant 0 <= i
      invariant batchSize < 0 ==> i == 0
      invariant pnls.Keys == Elements(walletAddresses[..if i < n then i else n])
      invariant forall a :: a in pnls ==> pnls[a] == NetPnl(fetch(a))
      decreases n - i
    {
      var end := if i + batchSize < n then i + batchSize else n;
      var batch := walletAddresses[i..end];
      for j := 0 to |batch|
        invariant pnls.Keys == Elements(walletAddresses[..i]) + Elements(batch[..j])
        invariant forall a :: a in pnls ==> pnls[a] == NetPnl(fetch(a))
      {
        var addr := batch[j];
        assert batch[..j + 1] == batch[..j] + [addr];
        assert Elements(batch[..j + 1]) == Elements(batch[..j]) + {addr};
        var response := fetch(addr);
        match response
        case Breakdown(tokens) =>
          pnls := pnls[addr := TotalRealized(tokens)];
        case FetchFailed =>
          pnls := pnls[addr := 0.0];
      }
      assert batch[..|batch|] == batch;
      assert walletAddresses[..end] == walletAddresses[..i] + batch;
      ElementsOfConcat(walletAddresses[..i], batch);
      i := i + batchSize;
    }
    if batchSize > 0 {
      assert walletAddresses[..n] == walletAddresses;
    } else {
      assert walletAddresses[..0] == [];
    }
  }

  lemma ElementsOfConcat(xs: seq<Address>, ys: seq<Address>)
    ensures Elements(xs + ys) == Elements(xs) + Elements(ys)
  {
  }

  /** The sum over a concatenation is the sum of the two parts. */
  lemma {:induction false} TotalRealizedConcat(xs: seq<TokenPosition>, ys: seq<TokenPosition>)
    ensures TotalRealized(xs + ys) == TotalRealized(xs) + TotalRealized(ys)
    decreases |ys|
  {
    if ys == [] {
      assert xs + ys == xs;
    } else {
      var init := ys[..|ys| - 1];
      assert (xs + ys)[..|xs + ys| - 1] == xs + init;
      assert (xs + ys)[|xs + ys| - 1] == ys[|ys| - 1];
      TotalRealizedConcat(xs, init);
    }
  }

  /** The total does not depend on the order in which the breakdown lists its
      positions (the order of a dictionary's values). */
  lemma {:induction false} TotalRealizedPermutation(xs: seq<TokenPosition>, ys: seq<TokenPosition>)
    requires multiset(xs) == multiset(ys)
    ensures TotalRealized(xs) == TotalRealized(ys)
    decreases |xs|
  {
    if xs != [] {
      var init := xs[..|xs| - 1];
      var last := xs[|xs| - 1];
      assert xs == init + [last];
      assert last in multiset(ys);
      var k :| 0 <= k < |ys| && ys[k] == last;
      var rest := ys[..k] + ys[k + 1..];
      assert ys == ys[..k] + [last] + ys[k + 1..];
      assert multiset(ys) == multiset(rest) + multiset{last};
      assert multiset(xs) == multiset(init) + multiset{last};
      assert multiset(init) == multiset(xs) - multiset{last};
      assert multiset(rest) == multiset(ys) - multiset{last};
      TotalRealizedPermutation(init, rest);
      TotalRealizedConcat(ys[..k] + [last], ys[k + 1..]);
      TotalRealizedConcat(ys[..k], [last]);
      TotalRealizedConcat(ys[..k], ys[k + 1..]);
      assert [last][..0] == [];
    }
  }

  /** A wallet is good exactly when it is listed, its lookup succeeded and its
      positions sum to a strictly positive profit; a failed lookup or a zero
      total never makes a wallet good. */
  lemma GoodBuyersOfScores(addresses: set<Address>, fetch: Address -> PnlResponse)
    ensures forall a :: a in GoodBuyers(WalletPnls(addresses, fetch)) <==>
              a in addresses && fetch(a).Breakdown? && TotalRealized(fetch(a).tokens) > 0.0
    ensures forall a :: a in GoodBuyers(WalletPnls(addresses, fetch)) ==>
              GoodBuyers(WalletPnls(addresses, fetch))[a] == TotalRealized(fetch(a).tokens)
  {
  }

  /** Keeping the good entries of a map of good entries changes nothing. */
  lemma GoodBuyersIdempotent(pnls: map<Address, real>)
    ensures GoodBuyers(GoodBuyers(pnls)) == GoodBuyers(pnls)
    ensures GoodBuyers(pnls).Keys <= pnls.Keys
  {
  }

  /** The unit test `test_get_wallet_pnl`: one position of 100 scores 100.
      Further examples of this model: positions of 100 and -30 score 70, a
      position without the field adds nothing, and a failed lookup scores 0. */
  lemma PnlExamples()
    ensures NetPnl(Breakdown([TokenPosition(Some(100.0))])) == 100.0
    ensures NetPnl(Breakdown([TokenPosition(Some(100.0)), TokenPosition(Some(-30.0))])) == 70.0
    ensures NetPnl(Breakdown([TokenPosition(None), TokenPosition(Some(5.0))])) == 5.0
    ensures NetPnl(FetchFailed) == 0.0
  {
    var one := [TokenPosition(Some(100.0))];
    assert one[..0] == [];
    var two := [TokenPosition(Some(100.0)), TokenPosition(Some(-30.0))];
    assert two[..1] == one;
    var missing := [TokenPosition(None), TokenPosition(Some(5.0))];
    assert missing[..1][..0] == [];
  }
}
