/** The interaction graph: for every early buyer, scan its recent transactions
    for a counterparty that is another early buyer, and count such sightings per
    unordered pair of buyers (`check_wallet_interactions`). The transaction
    lookup is a parameter from an address to its transaction list. */
module InteractionGraph {
  import opened Addresses
  import opened LexOrder

  /** The fields of a transaction record the scan reads; `""` stands for absent. */
  datatype Transaction = Transaction(receiver: Address, seller: Address, buyer: Address)

  /** A graph key, `tuple(sorted([a, b]))`: the lexicographically smaller address first. */
  datatype Pair = Pair(lo: Address, hi: Address)

  /** The first non-empty of `receiver`, `seller`, `buyer`. */
  function Counterparty(tx: Transaction): Address
  {
    if tx.receiver != "" then tx.receiver
    else if tx.seller != "" then tx.seller
    else tx.buyer
  }

  function SortedPair(a: Address, b: Address): Pair
  {
    if LexLess(b, a) then Pair(b, a) else Pair(a, b)
  }

  /** The keys one buyer's transactions increment, in scan order: one per
      transaction whose counterparty is a different early buyer. */
  function HitsOf(buyer: Address, txs: seq<Transaction>, buyerSet: set<Address>): seq<Pair>
    decreases |txs|
  {
    if txs == [] then []
    else
      var other := Counterparty(txs[|txs| - 1]);
      HitsOf(buyer, txs[..|txs| - 1], buyerSet)
      + (if other in buyerSet && other != buyer then [SortedPair(buyer, other)] else [])
  }

  /** The keys incremented while scanning the buyers of `scanned` in order. */
  function Hits(scanned: seq<Address>, buyerSet: set<Address>, transactionsOf: Address -> seq<Transaction>): seq<Pair>
    decreases |scanned|
  {
    if scanned == [] then []
    else
      var buyer := scanned[|scanned| - 1];
      Hits(scanned[..|scanned| - 1], buyerSet, transactionsOf) + HitsOf(buyer, transactionsOf(buyer), buyerSet)
  }

  /** How many times each key occurs among the hits. */
  function Tally(hits: seq<Pair>): map<Pair, nat>
  {
    map p | p in hits :: multiset(hits)[p]
  }

  /** The graph the scan of `earlyBuyers` produces. */
  function Interactions(earlyBuyers: seq<Address>, transactionsOf: Address -> seq<Transaction>): map<Pair, nat>
  {
    Tally(Hits(earlyBuyers, Elements(earlyBuyers), transactionsOf))
  }

  /** `check_wallet_interactions`: for each buyer and each of its transactions,
      resolve the counterparty and, when it is another early buyer, add one to
      the count of the sorted pair. */
  method CheckWalletInteractions(earlyBuyers: seq<Address>, transactionsOf: Address -> seq<Transaction>)
    returns (interactions: map<Pair, nat>)
    ensures interactions == Interactions(earlyBuyers, transactionsOf)
  {
    interactions := map[];
    var buyerSet := Elements(earlyBuyers);
    for i := 0 to |earlyBuyers|
      invariant interactions == Tally(Hits(earlyBuyers[..i], buyerSet, transactionsOf))
    {
      var buyer := earlyBuyers[i];
      var txs := transactionsOf(buyer);
      ghost var before := Hits(earlyBuyers[..i], buyerSet, transactionsOf);
      for j := 0 to |txs|
        invariant interactions == Tally(before + HitsOf(buyer, txs[..j], buyerSet))
      {
        var tx := txs[j];
        var other := Counterparty(tx);
        TallyStep(interactions, before, buyer, txs, j, buyerSet);
        if other in buyerSet && other != buyer {
          var pair := SortedPair(buyer, other);
          interactions := interactions[pair := (if pair in interactions then interactions[pair] else 0) + 1];
        }
      }
      assert txs[..|txs|] == txs;
      HitsStep(earlyBuyers, i, buyerSet, transactionsOf);
    }
    assert earlyBuyers[..|earlyBuyers|] == earlyBuyers;
  }

  lemma HitsOfStep(buyer: Address, txs: seq<Transaction>, j: nat, buyerSet: set<Address>)
    requires j < |txs|
    ensures HitsOf(buyer, txs[..j + 1], buyerSet)
            == HitsOf(buyer, txs[..j], buyerSet)
               + (if Counterparty(txs[j]) in buyerSet && Counterparty(txs[j]) != buyer
                  then [SortedPair(buyer, Counterparty(txs[j]))] else [])
  {
    assert txs[..j + 1][..j] == txs[..j];
  }

  lemma HitsStep(scanned: seq<Address>, i: nat, buyerSet: set<Address>, transactionsOf: Address -> seq<Transaction>)
    requires i < |scanned|
    ensures Hits(scanned[..i + 1], buyerSet, transactionsOf)
            == Hits(scanned[..i], buyerSet, transactionsOf) + HitsOf(scanned[i], transactionsOf(scanned[i]), buyerSet)
  {
    assert scanned[..i + 1][..i] == scanned[..i];
  }

  /** `interactions[pair] = interactions.get(pair, 0) + 1` */
  function Increment(m: map<Pair, nat>, p: Pair): map<Pair, nat>
  {
    m[p := (if p in m then m[p] else 0) + 1]
  }

  /** One transaction's effect on the graph: one more on the sorted pair when
      its counterparty is another early buyer, nothing otherwise. */
  lemma TallyStep(m: map<Pair, nat>, before: seq<Pair>, buyer: Address, txs: seq<Transaction>, j: nat,
                  buyerSet: set<Address>)
    requires j < |txs|
    requires m == Tally(before + HitsOf(buyer, txs[..j], buyerSet))
    ensures Counterparty(txs[j]) in buyerSet && Counterparty(txs[j]) != buyer ==>
              Tally(before + HitsOf(buyer, txs[..j + 1], buyerSet)) == Increment(m, SortedPair(buyer, Counterparty(txs[j])))
    ensures !(Counterparty(txs[j]) in buyerSet && Counterparty(txs[j]) != buyer) ==>
              Tally(before + HitsOf(buyer, txs[..j + 1], buyerSet)) == m
  {
    HitsOfStep(buyer, txs, j, buyerSet);
    var other := Counterparty(txs[j]);
    var done := HitsOf(buyer, txs[..j], buyerSet);
    if other in buyerSet && other != buyer {
      var pair := SortedPair(buyer, other);
      assert HitsOf(buyer, txs[..j + 1], buyerSet) == done + [pair];
      assert before + (done + [pair]) == (before + done) + [pair];
      TallyAppend(before + done, pair);
    } else {
      assert HitsOf(buyer, txs[..j + 1], buyerSet) == done;
    }
  }

  /** One more hit adds one to its key's count, starting from zero. */
  lemma TallyAppend(hits: seq<Pair>, p: Pair)
    ensures Tally(hits + [p]) == Increment(Tally(hits), p)
  {
    var t := Tally(hits);
    var u := Tally(hits + [p]);
    var v := Increment(t, p);
    assert multiset(hits + [p]) == multiset(hits) + multiset{p};
    assert u.Keys == v.Keys by {
      forall q | q in u
        ensures q in v
      {
        if q != p {
          assert q in hits;
        }
      }
    }
    forall q | q in u
      ensures u[q] == v[q]
    {
    }
  }

  /** The two orders of a pair of different addresses give the same key, whose
      first member is lexicographically smaller than its second. */
  lemma SortedPairCanonical(a: Address, b: Address)
    requires a != b
    ensures SortedPair(a, b) == SortedPair(b, a)
    ensures LexLess(SortedPair(a, b).lo, SortedPair(a, b).hi)
    ensures {SortedPair(a, b).lo, SortedPair(a, b).hi} == {a, b}
  {
    LexLessTotal(a, b);
    if LexLess(a, b) {
      LexLessAsymmetric(a, b);
    } else {
      LexLessAsymmetric(b, a);
    }
  }

  /** Every hit joins two different early buyers, smaller address first, as
      long as the scanned buyers are early buyers themselves. */
  lemma {:induction false} HitsOfWellFormed(buyer: Address, txs: seq<Transaction>, buyerSet: set<Address>, p: Pair)
    requires buyer in buyerSet
    requires p in HitsOf(buyer, txs, buyerSet)
    ensures p.lo in buyerSet && p.hi in buyerSet && p.lo != p.hi && LexLess(p.lo, p.hi)
    ensures p.lo == buyer || p.hi == buyer
    decreases |txs|
  {
    var init := txs[..|txs| - 1];
    var other := Counterparty(txs[|txs| - 1]);
    if p in HitsOf(buyer, init, buyerSet) {
      HitsOfWellFormed(buyer, init, buyerSet, p);
    } else {
      SortedPairCanonical(buyer, other);
    }
  }

  lemma {:induction false} HitsWellFormed(scanned: seq<Address>, buyerSet: set<Address>,
                                          transactionsOf: Address -> seq<Transaction>, p: Pair)
    requires Elements(scanned) <= buyerSet
    requires p in Hits(scanned, buyerSet, transactionsOf)
    ensures p.lo in buyerSet && p.hi in buyerSet && p.lo != p.hi && LexLess(p.lo, p.hi)
    decreases |scanned|
  {
    var init := scanned[..|scanned| - 1];
    var buyer := scanned[|scanned| - 1];
    assert Elements(init) <= Elements(scanned);
    if p in Hits(init, buyerSet, transactionsOf) {
      HitsWellFormed(init, buyerSet, transactionsOf, p);
    } else {
      HitsOfWellFormed(buyer, transactionsOf(buyer), buyerSet, p);
    }
  }

  /** Every key of the graph is a canonically ordered pair of two different
      early buyers, and every count is at least one. */
  lemma InteractionKeys(earlyBuyers: seq<Address>, transactionsOf: Address -> seq<Transaction>, p: Pair)
    requires p in Interactions(earlyBuyers, transactionsOf)
    ensures p.lo in earlyBuyers && p.hi in earlyBuyers
    ensures p.lo != p.hi && LexLess(p.lo, p.hi)
    ensures Interactions(earlyBuyers, transactionsOf)[p] >= 1
  {
    HitsWellFormed(earlyBuyers, Elements(earlyBuyers), transactionsOf, p);
  }

  /** The number of transactions whose counterparty is `other`. */
  function CountTo(txs: seq<Transaction>, other: Address): nat
    decreases |txs|
  {
    if txs == [] then 0
    else CountTo(txs[..|txs| - 1], other) + (if Counterparty(txs[|txs| - 1]) == other then 1 else 0)
  }

  lemma SortedPairMatches(x: Address, y: Address, a: Address, b: Address)
    requires x != y && a != b
    ensures SortedPair(x, y) == SortedPair(a, b) <==> (x == a && y == b) || (x == b && y == a)
  {
    SortedPairCanonical(x, y);
    SortedPairCanonical(a, b);
  }

  /** What one buyer's scan adds to the key of `a` and `b`: the transactions
      of `a` whose counterparty is `b` when the buyer is `a`, and symmetrically. */
  lemma {:induction false} HitsOfCount(x: Address, txs: seq<Transaction>, buyerSet: set<Address>, a: Address, b: Address)
    requires a != b && a in buyerSet && b in buyerSet
    ensures multiset(HitsOf(x, txs, buyerSet))[SortedPair(a, b)]
            == if x == a then CountTo(txs, b) else if x == b then CountTo(txs, a) else 0
    decreases |txs|
  {
    if txs != [] {
      var init := txs[..|txs| - 1];
      var other := Counterparty(txs[|txs| - 1]);
      HitsOfCount(x, init, buyerSet, a, b);
      if other in buyerSet && other != x {
        SortedPairMatches(x, other, a, b);
      }
    }
  }

  /** Both scan directions add onto the same key: the count for `a` and `b` is
      the transactions of `a` naming `b` plus those of `b` naming `a`, once per
      time each is listed among the scanned buyers. */
  lemma {:induction false} PairCount(scanned: seq<Address>, buyerSet: set<Address>,
                                     transactionsOf: Address -> seq<Transaction>, a: Address, b: Address)
    requires a != b && a in buyerSet && b in buyerSet
    ensures multiset(Hits(scanned, buyerSet, transactionsOf))[SortedPair(a, b)]
            == multiset(scanned)[a] * CountTo(transactionsOf(a), b) + multiset(scanned)[b] * CountTo(transactionsOf(b), a)
    decreases |scanned|
  {
    if scanned != [] {
      var init := scanned[..|scanned| - 1];
      var x := scanned[|scanned| - 1];
      var p := SortedPair(a, b);
      PairCount(init, buyerSet, transactionsOf, a, b);
      HitsOfCount(x, transactionsOf(x), buyerSet, a, b);
      var before := Hits(init, buyerSet, transactionsOf);
      var added := HitsOf(x, transactionsOf(x), buyerSet);
      assert Hits(scanned, buyerSet, transactionsOf) == before + added;
      assert multiset(before + added)[p] == multiset(before)[p] + multiset(added)[p];
      ListingsStep(scanned, a, b);
      ScanCountArith(multiset(init)[a], multiset(init)[b], CountTo(transactionsOf(a), b), CountTo(transactionsOf(b), a),
                     x == a, x == b);
    }
  }

  /** Listing one more address raises its count in the list by one. */
  lemma ListingsStep(scanned: seq<Address>, a: Address, b: Address)
    requires scanned != [] && a != b
    ensures multiset(scanned)[a] == multiset(scanned[..|scanned| - 1])[a] + if scanned[|scanned| - 1] == a then 1 else 0
    ensures multiset(scanned)[b] == multiset(scanned[..|scanned| - 1])[b] + if scanned[|scanned| - 1] == b then 1 else 0
  {
    assert scanned == scanned[..|scanned| - 1] + [scanned[|scanned| - 1]];
  }

  /** The arithmetic step of PairCount: one more listing of `a` (or of `b`)
      adds that buyer's sightings once more. */
  lemma ScanCountArith(na: nat, nb: nat, ca: nat, cb: nat, isA: bool, isB: bool)
    requires !(isA && isB)
    ensures na * ca + nb * cb + (if isA then ca else if isB then cb else 0)
            == (na + if isA then 1 else 0) * ca + (nb + if isB then 1 else 0) * cb
  {
    if isA {
      MulSucc(na, ca);
    } else if isB {
      MulSucc(nb, cb);
    }
  }

  lemma MulSucc(n: nat, c: nat)
    ensures (n + 1) * c == n * c + c
  {
  }

  /** For a list of distinct early buyers, the weight of the edge between two of
      them is the sum of the sightings in either direction. */
  lemma EdgeWeight(earlyBuyers: seq<Address>, transactionsOf: Address -> seq<Transaction>, a: Address, b: Address)
    requires Distinct(earlyBuyers)
    requires a != b && a in earlyBuyers && b in earlyBuyers
    ensures CountTo(transactionsOf(a), b) + CountTo(transactionsOf(b), a) > 0 ==>
              SortedPair(a, b) in Interactions(earlyBuyers, transactionsOf)
              && Interactions(earlyBuyers, transactionsOf)[SortedPair(a, b)]
                 == CountTo(transactionsOf(a), b) + CountTo(transactionsOf(b), a)
    ensures CountTo(transactionsOf(a), b) + CountTo(transactionsOf(b), a) == 0 ==>
              SortedPair(a, b) !in Interactions(earlyBuyers, transactionsOf)
  {
    PairCount(earlyBuyers, Elements(earlyBuyers), transactionsOf, a, b);
    DistinctOccursOnce(earlyBuyers, a);
    DistinctOccursOnce(earlyBuyers, b);
  }

  lemma {:induction false} DistinctOccursOnce(xs: seq<Address>, a: Address)
    requires Distinct(xs) && a in xs
    ensures multiset(xs)[a] == 1
    decreases |xs|
  {
    var init := xs[..|xs| - 1];
    var last := xs[|xs| - 1];
    assert xs == init + [last];
    assert Distinct(init);
    if a == last {
      assert a !in init;
    } else {
      DistinctOccursOnce(init, a);
    }
  }

  /** A non-empty `receiver` decides the counterparty even when it is not an
      early buyer: if every scanned transaction names an outside receiver, no
      edge is recorded, whatever its `seller` and `buyer` fields hold. */
  lemma {:induction false} OutsideReceiversBlock(scanned: seq<Address>, buyerSet: set<Address>,
                                                 transactionsOf: Address -> seq<Transaction>)
    requires forall b, k :: b in scanned && 0 <= k < |transactionsOf(b)| ==>
               transactionsOf(b)[k].receiver != "" && transactionsOf(b)[k].receiver !in buyerSet
    ensures Hits(scanned, buyerSet, transactionsOf) == []
    decreases |scanned|
  {
    if scanned != [] {
      var init := scanned[..|scanned| - 1];
      var buyer := scanned[|scanned| - 1];
      OutsideReceiversBlock(init, buyerSet, transactionsOf);
      OutsideReceiversBlockOne(buyer, transactionsOf(buyer), buyerSet);
    }
  }

  lemma {:induction false} OutsideReceiversBlockOne(buyer: Address, txs: seq<Transaction>, buyerSet: set<Address>)
    requires forall k :: 0 <= k < |txs| ==> txs[k].receiver != "" && txs[k].receiver !in buyerSet
    ensures HitsOf(buyer, txs, buyerSet) == []
    decreases |txs|
  {
    if txs != [] {
      OutsideReceiversBlockOne(buyer, txs[..|txs| - 1], buyerSet);
    }
  }

  /** The total of a graph's counts. */
  ghost function SumCounts(m: map<Pair, nat>): nat
    decreases |m.Keys|
  {
    if m.Keys == {} then 0
    else
      var k :| k in m.Keys;
      assert (m - {k}).Keys == m.Keys - {k};
      m[k] + SumCounts(m - {k})
  }

  /** The total does not depend on which key is taken out first. */
  lemma {:induction false} SumCountsRemove(m: map<Pair, nat>, k: Pair)
    requires k in m
    ensures SumCounts(m) == m[k] + SumCounts(m - {k})
    decreases |m.Keys|
  {
    var j :| j in m.Keys && SumCounts(m) == m[j] + SumCounts(m - {j});
    if j != k {
      assert (m - {j}).Keys == m.Keys - {j};
      assert (m - {k}).Keys == m.Keys - {k};
      SumCountsRemove(m - {j}, k);
      SumCountsRemove(m - {k}, j);
      assert m - {j} - {k} == m - {k} - {j};
    }
  }

  /** Adding one to a key adds one to the total. */
  lemma SumCountsIncrement(m: map<Pair, nat>, p: Pair)
    ensures SumCounts(Increment(m, p)) == SumCounts(m) + 1
  {
    var u := Increment(m, p);
    SumCountsRemove(u, p);
    if p in m {
      SumCountsRemove(m, p);
      assert u - {p} == m - {p};
    } else {
      assert u - {p} == m;
    }
  }

  /** The counts of a tally add up to the number of hits. */
  lemma {:induction false} TallySum(hits: seq<Pair>)
    ensures SumCounts(Tally(hits)) == |hits|
    decreases |hits|
  {
    if hits == [] {
      assert Tally(hits) == map[];
    } else {
      var init := hits[..|hits| - 1];
      var p := hits[|hits| - 1];
      assert hits == init + [p];
      TallySum(init);
      TallyAppend(init, p);
      SumCountsIncrement(Tally(init), p);
    }
  }

  /** The positions in `txs` whose counterparty is an early buyer other than `buyer`. */
  function Sightings(buyer: Address, txs: seq<Transaction>, buyerSet: set<Address>): set<nat>
  {
    set k | 0 <= k < |txs| && Counterparty(txs[k]) in buyerSet && Counterparty(txs[k]) != buyer
  }

  /** The number of sightings over the listed buyers, one term per listing. */
  function TotalSightings(scanned: seq<Address>, buyerSet: set<Address>,
                          transactionsOf: Address -> seq<Transaction>): nat
    decreases |scanned|
  {
    if scanned == [] then 0
    else
      var buyer := scanned[|scanned| - 1];
      TotalSightings(scanned[..|scanned| - 1], buyerSet, transactionsOf)
      + |Sightings(buyer, transactionsOf(buyer), buyerSet)|
  }

  /** One buyer's scan records one hit per sighting. */
  lemma {:induction false} HitsOfLength(buyer: Address, txs: seq<Transaction>, buyerSet: set<Address>)
    ensures |HitsOf(buyer, txs, buyerSet)| == |Sightings(buyer, txs, buyerSet)|
    decreases |txs|
  {
    if txs != [] {
      HitsOfLength(buyer, txs[..|txs| - 1], buyerSet);
      SightingsStep(buyer, txs, buyerSet);
    }
  }

  /** The sightings in `txs` are those in its prefix, plus its last position
      when that one is a sighting. */
  lemma SightingsStep(buyer: Address, txs: seq<Transaction>, buyerSet: set<Address>)
    requires txs != []
    ensures var last := |txs| - 1;
            var other := Counterparty(txs[last]);
            Sightings(buyer, txs, buyerSet)
            == Sightings(buyer, txs[..last], buyerSet) + (if other in buyerSet && other != buyer then {last} else {})
  {
    var last := |txs| - 1;
    var init := txs[..last];
    forall k | 0 <= k < last
      ensures init[k] == txs[k]
    {
    }
  }

  /** The whole scan records one hit per sighting. */
  lemma {:induction false} HitsLength(scanned: seq<Address>, buyerSet: set<Address>,
                                      transactionsOf: Address -> seq<Transaction>)
    ensures |Hits(scanned, buyerSet, transactionsOf)| == TotalSightings(scanned, buyerSet, transactionsOf)
    decreases |scanned|
  {
    if scanned != [] {
      var buyer := scanned[|scanned| - 1];
      HitsLength(scanned[..|scanned| - 1], buyerSet, transactionsOf);
      HitsOfLength(buyer, transactionsOf(buyer), buyerSet);
    }
  }

  /** The counts of the graph add up to the number of (buyer, transaction)
      sightings of another early buyer, each direction counted separately. */
  lemma InteractionsTotal(earlyBuyers: seq<Address>, transactionsOf: Address -> seq<Transaction>)
    ensures SumCounts(Interactions(earlyBuyers, transactionsOf))
            == TotalSightings(earlyBuyers, Elements(earlyBuyers), transactionsOf)
  {
    TallySum(Hits(earlyBuyers, Elements(earlyBuyers), transactionsOf));
    HitsLength(earlyBuyers, Elements(earlyBuyers), transactionsOf);
  }

  /** The weight the scan gives the edge between two buyers: the sightings in
      either direction. */
  function EdgeWeightOf(p: Pair, transactionsOf: Address -> seq<Transaction>): nat
  {
    CountTo(transactionsOf(p.lo), p.hi) + CountTo(transactionsOf(p.hi), p.lo)
  }

  /** The graph described without reference to scan order: every sorted pair of
      two different buyers whose edge weight is positive, with that weight. */
  function GraphOf(buyers: set<Address>, transactionsOf: Address -> seq<Transaction>): map<Pair, nat>
  {
    var pairs := set a, b | a in buyers && b in buyers && a != b :: SortedPair(a, b);
    map p | p in pairs && EdgeWeightOf(p, transactionsOf) > 0 :: EdgeWeightOf(p, transactionsOf)
  }

  /** Scanning a list of distinct buyers yields the order-free graph of its
      members, so the graph does not depend on the order of the list. */
  lemma InteractionsOfDistinct(earlyBuyers: seq<Address>, transactionsOf: Address -> seq<Transaction>)
    requires Distinct(earlyBuyers)
    ensures Interactions(earlyBuyers, transactionsOf) == GraphOf(Elements(earlyBuyers), transactionsOf)
  {
    var scanned := Interactions(earlyBuyers, transactionsOf);
    var graph := GraphOf(Elements(earlyBuyers), transactionsOf);
    forall p | p in scanned
      ensures p in graph && graph[p] == scanned[p]
    {
      InteractionKeys(earlyBuyers, transactionsOf, p);
      LexLessAsymmetric(p.lo, p.hi);
      assert p == SortedPair(p.lo, p.hi);
      EdgeWeight(earlyBuyers, transactionsOf, p.lo, p.hi);
    }
    forall p | p in graph
      ensures p in scanned
    {
      var a, b :| a in earlyBuyers && b in earlyBuyers && a != b && p == SortedPair(a, b);
      SortedPairCanonical(a, b);
      EdgeWeight(earlyBuyers, transactionsOf, a, b);
    }
  }
}
