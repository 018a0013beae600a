/**
 * The generic filter and the two hand-written legacy filters. A returned
 * reference to products[i] is modelled as the index i.
 */
module Filters {
  import opened Products
  import opened Specifications

  /** The indices, in increasing order, of the first n products that satisfy spec. */
  function MatchesBefore(products: seq<Product>, spec: Spec, n: nat): (r: seq<nat>)
    requires n <= |products|
    ensures |r| <= n
    ensures forall k :: 0 <= k < |r| ==> r[k] < n
  {
    if n == 0 then []
    else MatchesBefore(products, spec, n - 1) + (if IsSatisfied(spec, products[n - 1]) then [n - 1] else [])
  }

  /** The indices of all products that satisfy spec: what every filter returns. */
  function Matches(products: seq<Product>, spec: Spec): (r: seq<nat>)
    ensures |r| <= |products|
    ensures forall k :: 0 <= k < |r| ==> r[k] < |products|
  {
    MatchesBefore(products, spec, |products|)
  }

  predicate StrictlyIncreasing(r: seq<nat>)
  {
    forall j, k :: 0 <= j < k < |r| ==> r[j] < r[k]
  }

  /** The products that the indices in idx designate, in the order of idx. */
  function Select(products: seq<Product>, idx: seq<nat>): (selected: seq<Product>)
    requires forall k :: 0 <= k < |idx| ==> idx[k] < |products|
  {
    seq(|idx|, k requires 0 <= k < |idx| => products[idx[k]])
  }

  /** The generic filter: one scan in order, keeping each product that satisfies spec. */
  method Filter(products: seq<Product>, spec: Spec) returns (result: seq<nat>)
    ensures result == Matches(products, spec)
  {
    result := [];
    for i := 0 to |products|
      invariant result == MatchesBefore(products, spec, i)
    {
      var v := products[i];
      if IsSatisfied(spec, v) {
        result := result + [i];
      }
    }
  }

  /** The legacy colour filter; it returns what the generic filter returns for a colour specification. */
  method FilterByColor(products: seq<Product>, color: Color) returns (result: seq<nat>)
    ensures result == Matches(products, ColorSpec(color))
  {
    result := [];
    for i := 0 to |products|
      invariant result == MatchesBefore(products, ColorSpec(color), i)
    {
      if products[i].color == color {
        result := result + [i];
      }
    }
  }

  /** The legacy size filter; it returns what the generic filter returns for a size specification. */
  method FilterBySize(products: seq<Product>, size: Size) returns (result: seq<nat>)
    ensures result == Matches(products, SizeSpec(size))
  {
    result := [];
    for i := 0 to |products|
      invariant result == MatchesBefore(products, SizeSpec(size), i)
    {
      if products[i].size == size {
        result := result + [i];
      }
    }
  }

  /** An index is kept exactly when it is in range and its product satisfies spec. */
  lemma {:induction false} MatchesBeforeMembership(products: seq<Product>, spec: Spec, n: nat)
    requires n <= |products|
    ensures forall i :: i in MatchesBefore(products, spec, n) <==> 0 <= i < n && IsSatisfied(spec, products[i])
  {
    if n > 0 {
      MatchesBeforeMembership(products, spec, n - 1);
    }
  }

  lemma {:induction false} MatchesBeforeIncreasing(products: seq<Product>, spec: Spec, n: nat)
    requires n <= |products|
    ensures StrictlyIncreasing(MatchesBefore(products, spec, n))
  {
    if n > 0 {
      MatchesBeforeIncreasing(products, spec, n - 1);
    }
  }

  /** Soundness and completeness: the result holds every matching index and no other. */
  lemma MatchesMembership(products: seq<Product>, spec: Spec)
    ensures forall i :: i in Matches(products, spec) <==> 0 <= i < |products| && IsSatisfied(spec, products[i])
  {
    MatchesBeforeMembership(products, spec, |products|);
  }

  /** Every returned index designates a product that satisfies spec. */
  lemma MatchesSound(products: seq<Product>, spec: Spec)
    ensures forall k :: 0 <= k < |Matches(products, spec)| ==>
              IsSatisfied(spec, products[Matches(products, spec)[k]])
  {
    MatchesMembership(products, spec);
  }

  /** The result lists the indices in catalogue order, each once. */
  lemma MatchesIncreasing(products: seq<Product>, spec: Spec)
    ensures StrictlyIncreasing(Matches(products, spec))
  {
    MatchesBeforeIncreasing(products, spec, |products|);
  }

  /** Two strictly increasing sequences with the same elements are the same sequence. */
  lemma {:induction false} IncreasingDeterminedByElements(a: seq<nat>, b: seq<nat>)
    requires StrictlyIncreasing(a) && StrictlyIncreasing(b)
    requires forall x :: x in a <==> x in b
    ensures a == b
  {
    assert a != [] ==> a[0] in b;
    assert b != [] ==> b[0] in a;
    if a != [] {
      assert a[0] == b[0];
      forall x
        ensures x in a[1..] <==> x in b[1..]
      {
        if x in a[1..] {
          assert x in a && x != a[0];
        }
        if x in b[1..] {
          assert x in b && x != b[0];
        }
      }
      IncreasingDeterminedByElements(a[1..], b[1..]);
      assert a == [a[0]] + a[1..];
      assert b == [b[0]] + b[1..];
    }
  }

  /**
   * The filter's result is characterised by what it promises: an
   * increasing sequence that holds exactly the matching indices.
   */
  lemma MatchesCharacterization(products: seq<Product>, spec: Spec, r: seq<nat>)
    ensures r == Matches(products, spec) <==>
              StrictlyIncreasing(r) &&
              forall i :: i in r <==> 0 <= i < |products| && IsSatisfied(spec, products[i])
  {
    MatchesMembership(products, spec);
    MatchesIncreasing(products, spec);
    if StrictlyIncreasing(r) && forall i :: i in r <==> 0 <= i < |products| && IsSatisfied(spec, products[i]) {
      IncreasingDeterminedByElements(r, Matches(products, spec));
    }
  }

  /** Filtering an empty catalogue gives an empty result. */
  lemma EmptyCatalogue(spec: Spec)
    ensures Matches([], spec) == []
  {
  }

  /** Specifications that accept the same products select the same indices. */
  lemma MatchesRespectsEquivalence(products: seq<Product>, a: Spec, b: Spec)
    requires Equivalent(a, b)
    ensures Matches(products, a) == Matches(products, b)
  {
    MatchesCharacterization(products, a, Matches(products, a));
    MatchesCharacterization(products, b, Matches(products, a));
  }

  /** Swapping the two parts of a conjunction does not change the filter's result. */
  lemma AndOrderImmaterial(products: seq<Product>, a: Spec, b: Spec)
    ensures Matches(products, And(a, b)) == Matches(products, And(b, a))
  {
    AndCommutes(a, b);
    MatchesRespectsEquivalence(products, And(a, b), And(b, a));
  }

  /** Filtering the filtered products again with the same specification keeps them all. */
  lemma FilterIdempotent(products: seq<Product>, spec: Spec)
    ensures var kept := Select(products, Matches(products, spec));
            Select(kept, Matches(kept, spec)) == kept
  {
    var kept := Select(products, Matches(products, spec));
    MatchesSound(products, spec);
    assert forall i :: 0 <= i < |kept| ==> IsSatisfied(spec, kept[i]);
    var all := seq(|kept|, i requires 0 <= i < |kept| => i as nat);
    assert forall i :: i in all <==> 0 <= i < |kept| by {
      forall i
        ensures i in all <==> 0 <= i < |kept|
      {
        if 0 <= i < |kept| {
          assert all[i] == i;
        }
      }
    }
    MatchesCharacterization(kept, spec, all);
    assert all == Matches(kept, spec);
  }
}
