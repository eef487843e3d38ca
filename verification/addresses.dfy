/** Wallet addresses and the list helpers the pipeline stages share. An address
    is an opaque string compared by exact equality; the empty string stands for
    a field the upstream record did not carry. */
module Addresses {

  type Address = string

  /** The addresses a list holds, as Python's `set(xs)`. */
  function Elements(xs: seq<Address>): set<Address>
  {
    set x | x in xs
  }

  predicate Distinct(xs: seq<Address>)
  {
    forall i, j :: 0 <= i < j < |xs| ==> xs[i] != xs[j]
  }

  /** A duplicate-free list has as many entries as it has distinct addresses. */
  lemma {:induction false} DistinctCardinality(xs: seq<Address>)
    requires Distinct(xs)
    ensures |Elements(xs)| == |xs|
    decreases |xs|
  {
    if xs != [] {
      var init := xs[..|xs| - 1];
      var last := xs[|xs| - 1];
      assert Distinct(init);
      DistinctCardinality(init);
      assert xs == init + [last];
      assert last !in Elements(init);
      assert Elements(xs) == Elements(init) + {last};
    }
  }

  lemma {:induction false} SubsetCardinality(a: set<Address>, b: set<Address>)
    requires a <= b
    ensures |a| <= |b|
    decreases |a|
  {
    if a != {} {
      var x :| x in a;
      SubsetCardinality(a - {x}, b - {x});
    }
  }
}
