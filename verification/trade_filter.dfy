/** The trade filter: from a time-ordered list of swaps, the distinct addresses
    that bought, stopping as soon as the configured number of buyers is reached
    (`extract_early_buyers`). */
module TradeFilter {
  import opened Addresses

  /** One swap as the trade feed reports it; `""` stands for an absent field. */
  datatype Trade = Trade(tradeAction: string, maker: Address, buyer: Address)

  predicate IsBuy(t: Trade)
  {
    t.tradeAction == "buy"
  }

  /** The buyer of a trade: `maker`, falling back to `buyer` when `maker` is empty. */
  function ResolvedBuyer(t: Trade): Address
  {
    if t.maker != "" then t.maker else t.buyer
  }

  /** What one trade adds to the buyer set: its resolved buyer, if it is a buy
      and that address is not empty. */
  function Contribution(t: Trade): set<Address>
  {
    if IsBuy(t) && ResolvedBuyer(t) != "" then {ResolvedBuyer(t)} else {}
  }

  /** All buyer addresses of the buy trades in `ts`, ignoring any cap. */
  function BuySet(ts: seq<Trade>): set<Address>
    decreases |ts|
  {
    if ts == [] then {} else BuySet(ts[..|ts| - 1]) + Contribution(ts[|ts| - 1])
  }

  /** The cap fires after the `j`-th trade: that trade is a buy and the buyers
      collected so far number at least `maxBuyers`. */
  predicate CapReached(ts: seq<Trade>, maxBuyers: int, j: int)
  {
    0 < j <= |ts| && IsBuy(ts[j - 1]) && |BuySet(ts[..j])| >= maxBuyers
  }

  /** How many trades the scan examines when it starts checking the cap after
      trade `from`: the first position where the cap fires, or all of them. */
  function StopIndex(ts: seq<Trade>, maxBuyers: int, from: nat): (k: nat)
    requires from <= |ts|
    ensures from <= k <= |ts|
    ensures k == |ts| || CapReached(ts, maxBuyers, k)
    ensures forall j :: from < j < k ==> !CapReached(ts, maxBuyers, j)
    decreases |ts| - from
  {
    if from == |ts| then from
    else if CapReached(ts, maxBuyers, from + 1) then from + 1
    else StopIndex(ts, maxBuyers, from + 1)
  }

  /** The early buyers: every buyer of the trades up to the point where the cap fires. */
  function EarlyBuyers(ts: seq<Trade>, maxBuyers: int): set<Address>
  {
    BuySet(ts[..StopIndex(ts, maxBuyers, 0)])
  }

  /** `extract_early_buyers`: scan in order, keep buy trades, resolve and
      deduplicate the buyer, stop once the set reaches `maxBuyers`. */
  method ExtractEarlyBuyers(trades: seq<Trade>, maxBuyers: int) returns (result: seq<Address>)
    ensures Distinct(result)
    ensures Elements(result) == EarlyBuyers(trades, maxBuyers)
  {
    var buyers: set<Address> := {};
    for i := 0 to |trades|
      invariant buyers == BuySet(trades[..i])
      invariant StopIndex(trades, maxBuyers, i) == StopIndex(trades, maxBuyers, 0)
    {
      var trade := trades[i];
      BuySetStep(trades, i);
      if trade.tradeAction == "buy" {
        var buyer := if trade.maker != "" then trade.maker else trade.buyer;
        if buyer != "" {
          buyers := buyers + {buyer};
        }
        if |buyers| >= maxBuyers {
          assert CapReached(trades, maxBuyers, i + 1);
          break;
        }
      }
    }
    assert buyers == EarlyBuyers(trades, maxBuyers);
    result := ListOf(buyers);
  }

  /** Scanning one more trade adds its contribution to the buyer set. */
  lemma BuySetStep(ts: seq<Trade>, i: nat)
    requires i < |ts|
    ensures BuySet(ts[..i + 1]) == BuySet(ts[..i]) + Contribution(ts[i])
  {
    assert ts[..i + 1][..i] == ts[..i];
  }

  /** `list(buyers)`: the set's members in an unspecified order, each once. */
  method ListOf(s: set<Address>) returns (xs: seq<Address>)
    ensures Distinct(xs)
    ensures Elements(xs) == s
    ensures |xs| == |s|
  {
    xs := [];
    var rest := s;
    while rest != {}
      invariant rest <= s
      invariant Distinct(xs)
      invariant Elements(xs) == s - rest
      decreases rest
    {
      var x :| x in rest;
      assert Elements(xs + [x]) == Elements(xs) + {x};
      xs := xs + [x];
      rest := rest - {x};
    }
    DistinctCardinality(xs);
  }

  /** Membership in the buyer set: exactly the non-empty resolved buyers of buy trades. */
  lemma {:induction false} BuySetMembers(ts: seq<Trade>, a: Address)
    ensures a in BuySet(ts) <==>
              a != "" && exists i :: 0 <= i < |ts| && IsBuy(ts[i]) && ResolvedBuyer(ts[i]) == a
    decreases |ts|
  {
    if ts != [] {
      var n := |ts| - 1;
      var init := ts[..n];
      BuySetMembers(init, a);
      assert forall i :: 0 <= i < n ==> init[i] == ts[i];
      if a in BuySet(ts) && a !in BuySet(init) {
        assert IsBuy(ts[n]) && ResolvedBuyer(ts[n]) == a;
      }
      if a != "" && (exists i :: 0 <= i < |ts| && IsBuy(ts[i]) && ResolvedBuyer(ts[i]) == a) {
        var i :| 0 <= i < |ts| && IsBuy(ts[i]) && ResolvedBuyer(ts[i]) == a;
        if i < n {
          assert IsBuy(init[i]) && ResolvedBuyer(init[i]) == a;
        }
      }
    }
  }

  /** A longer scan never loses a buyer. */
  lemma BuySetPrefix(ts: seq<Trade>, k: nat)
    requires k <= |ts|
    ensures BuySet(ts[..k]) <= BuySet(ts)
  {
    forall a | a in BuySet(ts[..k])
      ensures a in BuySet(ts)
    {
      BuySetMembers(ts[..k], a);
      BuySetMembers(ts, a);
      var i :| 0 <= i < k && IsBuy(ts[..k][i]) && ResolvedBuyer(ts[..k][i]) == a;
      assert ts[..k][i] == ts[i];
    }
  }

  /** Every early buyer is a non-empty address that resolved from some buy
      trade; sell trades never contribute. */
  lemma EarlyBuyersAreBuyers(ts: seq<Trade>, maxBuyers: int, a: Address)
    requires a in EarlyBuyers(ts, maxBuyers)
    ensures a != ""
    ensures exists i :: 0 <= i < |ts| && IsBuy(ts[i]) && ResolvedBuyer(ts[i]) == a
  {
    BuySetPrefix(ts, StopIndex(ts, maxBuyers, 0));
    BuySetMembers(ts, a);
  }

  /** Before the scan stops, fewer than `max(maxBuyers, 1)` buyers have been
      collected: with a cap of zero or below the scan ends at the first buy. */
  lemma {:induction false} BelowCapBeforeStop(ts: seq<Trade>, maxBuyers: int, i: nat)
    requires i < StopIndex(ts, maxBuyers, 0)
    ensures |BuySet(ts[..i])| < (if maxBuyers >= 1 then maxBuyers else 1)
    decreases i
  {
    if i > 0 {
      BelowCapBeforeStop(ts, maxBuyers, i - 1);
      assert ts[..i][..i - 1] == ts[..i - 1];
      assert !CapReached(ts, maxBuyers, i);
    }
  }

  /** The result never holds more than `maxBuyers` addresses (at most one when
      the cap is zero or negative, since the check follows the first add). */
  lemma EarlyBuyersBounded(ts: seq<Trade>, maxBuyers: int)
    ensures |EarlyBuyers(ts, maxBuyers)| <= (if maxBuyers >= 1 then maxBuyers else 1)
  {
    var k := StopIndex(ts, maxBuyers, 0);
    if k > 0 {
      BelowCapBeforeStop(ts, maxBuyers, k - 1);
      assert ts[..k][..k - 1] == ts[..k - 1];
    }
  }

  /** When the cap never fires, the result is every buyer of every buy trade. */
  lemma EarlyBuyersUncapped(ts: seq<Trade>, maxBuyers: int)
    requires |BuySet(ts)| < maxBuyers
    ensures EarlyBuyers(ts, maxBuyers) == BuySet(ts)
  {
    var k := StopIndex(ts, maxBuyers, 0);
    BuySetPrefix(ts, k);
    if k < |ts| {
      SubsetCardinality(BuySet(ts[..k]), BuySet(ts));
      assert false;
    }
    assert ts[..k] == ts;
  }

  /** With a cap of at least one and at least that many distinct buyers in the
      feed, the result holds exactly `maxBuyers` addresses: the first ones met. */
  lemma EarlyBuyersFull(ts: seq<Trade>, maxBuyers: int)
    requires maxBuyers >= 1 && |BuySet(ts)| >= maxBuyers
    ensures |EarlyBuyers(ts, maxBuyers)| == maxBuyers
  {
    assert ts[..|ts|] == ts;
    CapFiresWithin(ts, maxBuyers, |ts|);
    EarlyBuyersBounded(ts, maxBuyers);
  }

  /** Once a prefix of `n` trades holds `maxBuyers` buyers, the cap has fired
      at one of its trades, so the scan stops there at the latest. */
  lemma {:induction false} CapFiresWithin(ts: seq<Trade>, maxBuyers: int, n: nat)
    requires maxBuyers >= 1 && n <= |ts| && |BuySet(ts[..n])| >= maxBuyers
    ensures StopIndex(ts, maxBuyers, 0) <= n
    ensures CapReached(ts, maxBuyers, StopIndex(ts, maxBuyers, 0))
    decreases n
  {
    assert n > 0;
    assert ts[..n][..n - 1] == ts[..n - 1];
    if |BuySet(ts[..n - 1])| >= maxBuyers {
      CapFiresWithin(ts, maxBuyers, n - 1);
    } else {
      assert BuySet(ts[..n]) != BuySet(ts[..n - 1]);
      assert CapReached(ts, maxBuyers, n);
    }
  }

  /** Once the cap has fired within `ts`, possibly at its last trade, trades
      that come after it are never examined: appending any trades leaves the
      result unchanged. */
  lemma EarlyBuyersIgnoreLaterTrades(ts: seq<Trade>, later: seq<Trade>, maxBuyers: int)
    requires CapReached(ts, maxBuyers, StopIndex(ts, maxBuyers, 0))
    ensures EarlyBuyers(ts + later, maxBuyers) == EarlyBuyers(ts, maxBuyers)
  {
    var k := StopIndex(ts, maxBuyers, 0);
    StopIndexOfExtension(ts, later, maxBuyers, 0);
    assert (ts + later)[..k] == ts[..k];
  }

  /** When the cap fires within `ts`, the stop position depends only on the
      trades up to it: appending trades does not move it. */
  lemma {:induction false} StopIndexOfExtension(ts: seq<Trade>, later: seq<Trade>, maxBuyers: int, from: nat)
    requires from < StopIndex(ts, maxBuyers, 0) <= |ts|
    requires CapReached(ts, maxBuyers, StopIndex(ts, maxBuyers, 0))
    ensures StopIndex(ts + later, maxBuyers, from) == StopIndex(ts, maxBuyers, from)
    decreases |ts| - from
  {
    var k := StopIndex(ts, maxBuyers, 0);
    forall j | 0 < j <= |ts|
      ensures CapReached(ts + later, maxBuyers, j) == CapReached(ts, maxBuyers, j)
    {
      assert (ts + later)[..j] == ts[..j];
    }
    if !CapReached(ts, maxBuyers, from + 1) {
      assert from + 1 < k;
      StopIndexOfExtension(ts, later, maxBuyers, from + 1);
    }
  }

  /** The unit test `test_extract_early_buyers`: buy addr1, sell addr2, buy addr1 with a cap
      of one gives just addr1. */
  lemma ExtractExample()
    ensures EarlyBuyers([Trade("buy", "addr1", ""), Trade("sell", "addr2", ""), Trade("buy", "addr1", "")], 1)
            == {"addr1"}
  {
    var ts := [Trade("buy", "addr1", ""), Trade("sell", "addr2", ""), Trade("buy", "addr1", "")];
    assert ts[..1][..0] == [];
    assert BuySet(ts[..1]) == {"addr1"};
    assert CapReached(ts, 1, 1);
  }
}
