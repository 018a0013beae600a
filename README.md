# Specification pattern: product filters

A Dafny model of `ocp.go`, a small Go program that shows the open/closed
principle through the Specification pattern. Products carry a name, a colour
and a size. Two legacy filters (`Filter.FilterByColor`, `Filter.FilterBySize`)
each scan the product slice for one hard-coded attribute. A `Specification`
interface has three implementations: a colour test, a size test, and the
conjunction of two specifications. A generic filter (`BetterFilter.Filter`)
scans the slice once and keeps every product that satisfies any specification.

Modelling choices:

- `products.dfy` (module `Products`): `Color` and `Size` as three-constructor
  datatypes, `Product` as an immutable record.
- `specifications.dfy` (module `Specifications`): the interface and its three
  implementations become `datatype Spec = ColorSpec | SizeSpec | And`.
  Dynamic dispatch becomes the recursive predicate `IsSatisfied`.
- `filters.dfy` (module `Filters`): every filter returns a pointer
  `&products[i]`; the model returns the index `i` instead. So a result is a
  `seq<nat>` of indices into the input. The three filter loops are methods.
  Each is proved equal to the pure function `Matches`, which is defined by
  recursion over a prefix of the input exactly as the loop grows its result.
  The properties of the filter are lemmas about `Matches`.
- `scenario.dfy` (module `Scenario`): the sample catalogue that `main` builds,
  and what each of `main`'s three filter calls returns. `main` never filters
  by red; `RedProducts` adds the empty-result case on the same catalogue.

The Go receivers `Filter{}` and `BetterFilter{}` are empty structs that carry
no state, so their methods become module-level methods.

## Model

| member | source | states |
|---|---|---|
| `Specifications.ColorSpecMeansEqualColor` | ocp.go:65-71 | a colour specification accepts a product exactly when the product has that colour |
| `Specifications.SizeSpecMeansEqualSize` | ocp.go:73-79 | a size specification accepts a product exactly when the product has that size |
| `Specifications.AndSpecMeansBoth` | ocp.go:81-87 | a conjunction accepts a product exactly when both of its parts accept it |
| `Specifications.SatisfiedIffAllRequirementsMet` | ocp.go:61-87 | however conjunctions nest, a product satisfies a specification exactly when its colour is the only colour and its size the only size the specification's tests ask for |
| `Specifications.AndCommutes` | ocp.go:85-87 | swapping the two parts of a conjunction accepts the same products |
| `Filters.MatchesBefore` | ocp.go:94-98 | after the first n iterations the partial result has at most n entries, each an index below n |
| `Filters.Matches` | ocp.go:91-101 | the full result is no longer than the input and every entry is a valid index into it |
| `Filters.Filter` | ocp.go:91-101 | the generic filter's loop returns exactly `Matches(products, spec)` |
| `Filters.FilterByColor` | ocp.go:34-44 | the legacy colour filter returns exactly what the generic filter returns for `ColorSpec(color)` |
| `Filters.FilterBySize` | ocp.go:46-56 | the legacy size filter returns exactly what the generic filter returns for `SizeSpec(size)` |
| `Filters.MatchesBeforeMembership` | ocp.go:94-98 | after n iterations an index is in the partial result exactly when it is below n and its product satisfies the specification |
| `Filters.MatchesBeforeIncreasing` | ocp.go:94-98 | after n iterations the partial result is strictly increasing |
| `Filters.MatchesMembership` | ocp.go:94-98 | soundness and completeness: an index is in the result exactly when it is in range and its product satisfies the specification |
| `Filters.MatchesSound` | ocp.go:95-96 | every returned index designates a product that satisfies the specification |
| `Filters.MatchesIncreasing` | ocp.go:94-98 | the result lists indices in input order with no duplicates, so it selects an order-preserving subsequence |
| `Filters.MatchesCharacterization` | ocp.go:91-101 | a sequence is the filter's result if and only if it is strictly increasing and holds exactly the matching indices |
| `Filters.EmptyCatalogue` | ocp.go:92-100 | filtering an empty product list gives an empty result |
| `Filters.MatchesRespectsEquivalence` | ocp.go:91-101 | two specifications that accept the same products select the same indices |
| `Filters.AndOrderImmaterial` | ocp.go:85-87 | swapping the parts of a conjunction does not change the filter's result |
| `Filters.FilterIdempotent` | ocp.go:91-101 | filtering the selected products again with the same specification keeps all of them, in the same order |
| `Scenario.GreenProducts` | ocp.go:104-120 | on the sample catalogue, filtering by green selects indices 0 and 1, that is Apple and Tree |
| `Scenario.LargeBlueProducts` | ocp.go:122-128 | on the sample catalogue, filtering by large and blue selects index 2, that is House |
| `Scenario.RedProducts` | ocp.go:104-108 | on the sample catalogue, filtering by red selects nothing |
| `Scenario.Demonstration` | ocp.go:103-129 | the driver's three listings name Apple and Tree (legacy green filter), Apple and Tree (generic green filter) and House (large and blue) |

## Left out

- Console output of `main` (ocp.go:110-128): `Scenario.Demonstration` returns the listed names instead of printing them.
- Pointer identity and aliasing: a returned `&products[i]` is modelled as the index `i`. The Go loop tests the copy `v` of `products[i]`; the model tests `products[i]`, which has the same value.
- Slice capacity and `append` reallocation: they do not affect the contents of a result.
- `Color` and `Size` are Go `int` types, so other integer values could be converted to them; the program only uses the three declared constants of each, which are the datatype constructors here.
- The `Specification` interface is open: Go code elsewhere could add implementations. The model is the closed set of the three implementations in `ocp.go`.
- Nil and self-referencing specifications: Go also accepts values the `Spec` datatype cannot express. A nil `Specification` passed to `BetterFilter.Filter` panics at ocp.go:95 on the first product; an `AndSpecification` whose part is nil (its zero value `AndSpecification{}` included) panics at ocp.go:86 when that part is reached; a `*AndSpecification` that contains itself recurses without end. Every `Spec` value here is finite and has no nil part, so the model promises nothing about these inputs.
- Short-circuit evaluation of the conjunction: for the specifications modelled here, evaluation has no side effects and always terminates, so the order is not observable, and `AndOrderImmaterial` states that the result does not depend on it. With a nil part the order does matter in Go: `AndSpecification{ColorSpecification{red}, nil}` returns false on a green product but panics on a red one.
