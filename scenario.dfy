/** The sample catalogue that the demonstration driver filters. */
module Scenario {
  import opened Products
  import opened Specifications
  import opened Filters

  const Apple := Product("Apple", Green, Small)
  const Tree := Product("Tree", Green, Large)
  const House := Product("House", Blue, Large)
  const Catalogue := [Apple, Tree, House]

  /** The names of the products that idx designates, in order. */
  function Names(products: seq<Product>, idx: seq<nat>): (names: seq<string>)
    requires forall k :: 0 <= k < |idx| ==> idx[k] < |products|
  {
    var selected := Select(products, idx);
    seq(|selected|, k requires 0 <= k < |selected| => selected[k].name)
  }

  lemma GreenProducts()
    ensures Matches(Catalogue, ColorSpec(Green)) == [0, 1]
    ensures Select(Catalogue, Matches(Catalogue, ColorSpec(Green))) == [Apple, Tree]
  {
    var spec := ColorSpec(Green);
    assert MatchesBefore(Catalogue, spec, 1) == [0];
    assert MatchesBefore(Catalogue, spec, 2) == [0, 1];
    assert MatchesBefore(Catalogue, spec, 3) == [0, 1];
  }

  lemma LargeBlueProducts()
    ensures Matches(Catalogue, And(SizeSpec(Large), ColorSpec(Blue))) == [2]
    ensures Select(Catalogue, Matches(Catalogue, And(SizeSpec(Large), ColorSpec(Blue)))) == [House]
  {
    var spec := And(SizeSpec(Large), ColorSpec(Blue));
    assert MatchesBefore(Catalogue, spec, 1) == [];
    assert MatchesBefore(Catalogue, spec, 2) == [];
    assert MatchesBefore(Catalogue, spec, 3) == [2];
  }

  lemma RedProducts()
    ensures Matches(Catalogue, ColorSpec(Red)) == []
  {
    var spec := ColorSpec(Red);
    assert MatchesBefore(Catalogue, spec, 1) == [];
    assert MatchesBefore(Catalogue, spec, 2) == [];
  }

  /**
   * The demonstration driver without its console output: the names it
   * lists under each of its three headers.
   */
  method Demonstration() returns (greenOld: seq<string>, greenNew: seq<string>, largeBlue: seq<string>)
    ensures greenOld == ["Apple", "Tree"]
    ensures greenNew == ["Apple", "Tree"]
    ensures largeBlue == ["House"]
  {
    var products := Catalogue;
    var r1 := FilterByColor(products, Green);
    GreenProducts();
    greenOld := Names(products, r1);
    var r2 := Filter(products, ColorSpec(Green));
    greenNew := Names(products, r2);
    var r3 := Filter(products, And(SizeSpec(Large), ColorSpec(Blue)));
    LargeBlueProducts();
    largeBlue := Names(products, r3);
  }
}
