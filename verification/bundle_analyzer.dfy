/** The bundle analyzer: for each early buyer, the wallet's age relative to the
    token's creation, and how many of the buyers used brand-new wallets
    (`analyze_bundle_buys`). The wallet-creation lookup is a parameter: it maps
    an address to its first-activity time in epoch seconds, 0 when unknown. */
module BundleAnalyzer {
  import opened Addresses

  /** A wallet's age in seconds relative to the token's creation; `Unknown`
      replaces the floating-point infinity used when the creation time is not known. */
  datatype WalletAge = Age(seconds: int) | Unknown

  const DefaultNewWalletThreshold: int := 3600

  datatype BundleReport = BundleReport(
    numNewWallets: nat,
    percentageNew: real,
    buyerAges: map<Address, WalletAge>)

  function WalletAgeOf(creationTime: int, tokenCreationTime: int): WalletAge
  {
    if creationTime > 0 then Age(creationTime - tokenCreationTime) else Unknown
  }

  /** New means created no earlier than the token and at most `threshold`
      seconds after it; an unknown age is never new. */
  predicate IsNewWallet(age: WalletAge, threshold: int)
  {
    age.Age? && 0 <= age.seconds <= threshold
  }

  predicate BuyerIsNew(buyer: Address, tokenCreationTime: int, threshold: int, creationTimeOf: Address -> int)
  {
    IsNewWallet(WalletAgeOf(creationTimeOf(buyer), tokenCreationTime), threshold)
  }

  /** The number of entries of the list whose wallet is new (a buyer listed
      twice is counted twice). */
  function CountNew(buyers: seq<Address>, tokenCreationTime: int, threshold: int, creationTimeOf: Address -> int): (n: nat)
    ensures n <= |buyers|
    decreases |buyers|
  {
    if buyers == [] then 0
    else
      CountNew(buyers[..|buyers| - 1], tokenCreationTime, threshold, creationTimeOf)
      + (if BuyerIsNew(buyers[|buyers| - 1], tokenCreationTime, threshold, creationTimeOf) then 1 else 0)
  }

  /** The new wallets among a set of buyers. */
  function NewWallets(buyers: set<Address>, tokenCreationTime: int, threshold: int, creationTimeOf: Address -> int): set<Address>
  {
    set b | b in buyers && BuyerIsNew(b, tokenCreationTime, threshold, creationTimeOf)
  }

  /** The report for a set of distinct buyers, stated without a scan order. */
  function BundleSummary(buyers: set<Address>, tokenCreationTime: int, threshold: int,
                         creationTimeOf: Address -> int): BundleReport
  {
    var n := |NewWallets(buyers, tokenCreationTime, threshold, creationTimeOf)|;
    BundleReport(
      n,
      if buyers == {} then 0.0 else n as real / |buyers| as real * 100.0,
      map b | b in buyers :: WalletAgeOf(creationTimeOf(b), tokenCreationTime))
  }

  /** `analyze_bundle_buys`: one lookup per buyer, every buyer's age recorded,
      new wallets counted, and the share of new wallets as a percentage. */
  method AnalyzeBundleBuys(earlyBuyers: seq<Address>, tokenCreationTime: int, newWalletThreshold: int,
                           creationTimeOf: Address -> int)
    returns (report: BundleReport)
    ensures report.numNewWallets == CountNew(earlyBuyers, tokenCreationTime, newWalletThreshold, creationTimeOf)
    ensures report.buyerAges.Keys == Elements(earlyBuyers)
    ensures forall b :: b in report.buyerAges ==>
              report.buyerAges[b] == WalletAgeOf(creationTimeOf(b), tokenCreationTime)
    ensures report.percentageNew ==
              if earlyBuyers == [] then 0.0
              else report.numNewWallets as real / |earlyBuyers| as real * 100.0
    ensures 0.0 <= report.percentageNew <= 100.0
  {
    var newWallets: nat := 0;
    var buyerAges: map<Address, WalletAge> := map[];
    for i := 0 to |earlyBuyers|
      invariant newWallets == CountNew(earlyBuyers[..i], tokenCreationTime, newWalletThreshold, creationTimeOf)
      invariant buyerAges.Keys == Elements(earlyBuyers[..i])
      invariant forall b :: b in buyerAges ==> buyerAges[b] == WalletAgeOf(creationTimeOf(b), tokenCreationTime)
    {
      var buyer := earlyBuyers[i];
      assert earlyBuyers[..i + 1] == earlyBuyers[..i] + [buyer];
      assert Elements(earlyBuyers[..i + 1]) == Elements(earlyBuyers[..i]) + {buyer};
      var creationTime := creationTimeOf(buyer);
      var ageDiff := if creationTime > 0 then Age(creationTime - tokenCreationTime) else Unknown;
      buyerAges := buyerAges[buyer := ageDiff];
      if ageDiff.Age? && 0 <= ageDiff.seconds <= newWalletThreshold {
        newWallets := newWallets + 1;
      }
    }
    assert earlyBuyers[..|earlyBuyers|] == earlyBuyers;
    var percentageNew := 0.0;
    if earlyBuyers != [] {
      percentageNew := newWallets as real / |earlyBuyers| as real * 100.0;
      PercentageBounded(newWallets, |earlyBuyers|);
    }
    report := BundleReport(newWallets, percentageNew, buyerAges);
  }

  lemma PercentageBounded(count: nat, total: nat)
    requires 0 < total && count <= total
    ensures 0.0 <= count as real / total as real * 100.0 <= 100.0
  {
    assert count as real / total as real <= 1.0;
  }

  /** On a list without repeats the count is the number of distinct new
      wallets, so it does not depend on the order the buyers are listed in. */
  lemma {:induction false} CountNewOfDistinct(buyers: seq<Address>, tokenCreationTime: int, threshold: int,
                                              creationTimeOf: Address -> int)
    requires Distinct(buyers)
    ensures CountNew(buyers, tokenCreationTime, threshold, creationTimeOf)
            == |NewWallets(Elements(buyers), tokenCreationTime, threshold, creationTimeOf)|
    decreases |buyers|
  {
    if buyers != [] {
      var init := buyers[..|buyers| - 1];
      var last := buyers[|buyers| - 1];
      assert Distinct(init);
      CountNewOfDistinct(init, tokenCreationTime, threshold, creationTimeOf);
      assert buyers == init + [last];
      assert last !in Elements(init);
      assert Elements(buyers) == Elements(init) + {last};
      var before := NewWallets(Elements(init), tokenCreationTime, threshold, creationTimeOf);
      var after := NewWallets(Elements(buyers), tokenCreationTime, threshold, creationTimeOf);
      if BuyerIsNew(last, tokenCreationTime, threshold, creationTimeOf) {
        assert after == before + {last};
      } else {
        assert after == before;
      }
    }
  }

  /** The threshold is inclusive: a wallet created exactly `threshold` seconds
      after the token is new, one second later it is not, and one created
      before the token is not new either. */
  lemma ThresholdInclusive(tokenCreationTime: int, threshold: int)
    requires threshold >= 0 && tokenCreationTime > 0
    ensures IsNewWallet(WalletAgeOf(tokenCreationTime + threshold, tokenCreationTime), threshold)
    ensures !IsNewWallet(WalletAgeOf(tokenCreationTime + threshold + 1, tokenCreationTime), threshold)
    ensures !IsNewWallet(WalletAgeOf(tokenCreationTime - 1, tokenCreationTime), threshold)
    ensures !IsNewWallet(WalletAgeOf(0, tokenCreationTime), threshold)
  {
  }

  /** The unit test `test_analyze_bundle_buys`: a wallet created at 1690000000 for a token
      created at 1689996400 is exactly 3600 seconds old and counts as new. */
  lemma AnalyzeExample()
    ensures CountNew(["addr1"], 1689996400, 3600, b => 1690000000) == 1
    ensures WalletAgeOf(1690000000, 1689996400) == Age(3600)
  {
    var buyers: seq<Address> := ["addr1"];
    assert buyers[..0] == [];
  }
}
