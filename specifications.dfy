/** The Specification pattern: composable conditions over products. */
module Specifications {
  import opened Products

  /**
   * The three implementations of the specification interface: an equality
   * test on the colour, one on the size, and the conjunction of two
   * specifications.
   */
  datatype Spec =
    | ColorSpec(color: Color)
    | SizeSpec(size: Size)
    | And(first: Spec, second: Spec)

  /** Dispatches to the variant's own test. */
  predicate IsSatisfied(spec: Spec, p: Product)
  {
    match spec
    case ColorSpec(c) => p.color == c
    case SizeSpec(s) => p.size == s
    case And(a, b) => IsSatisfied(a, p) && IsSatisfied(b, p)
  }

  lemma ColorSpecMeansEqualColor(c: Color, p: Product)
    ensures IsSatisfied(ColorSpec(c), p) <==> p.color == c
  {
  }

  lemma SizeSpecMeansEqualSize(s: Size, p: Product)
    ensures IsSatisfied(SizeSpec(s), p) <==> p.size == s
  {
  }

  lemma AndSpecMeansBoth(a: Spec, b: Spec, p: Product)
    ensures IsSatisfied(And(a, b), p) <==> IsSatisfied(a, p) && IsSatisfied(b, p)
  {
  }

  /** Every colour some colour test inside spec asks for. */
  function RequiredColors(spec: Spec): (colors: set<Color>)
  {
    match spec
    case ColorSpec(c) => {c}
    case SizeSpec(_) => {}
    case And(a, b) => RequiredColors(a) + RequiredColors(b)
  }

  /** Every size some size test inside spec asks for. */
  function RequiredSizes(spec: Spec): (sizes: set<Size>)
  {
    match spec
    case ColorSpec(_) => {}
    case SizeSpec(s) => {s}
    case And(a, b) => RequiredSizes(a) + RequiredSizes(b)
  }

  /**
   * A flat reading of a specification: however the conjunctions are nested,
   * a product satisfies it exactly when its colour is the only colour and
   * its size the only size that the specification's tests ask for.
   */
  lemma {:induction false} SatisfiedIffAllRequirementsMet(spec: Spec, p: Product)
    ensures IsSatisfied(spec, p) <==> RequiredColors(spec) <= {p.color} && RequiredSizes(spec) <= {p.size}
  {
    match spec
    case ColorSpec(_) =>
    case SizeSpec(_) =>
    case And(a, b) =>
      SatisfiedIffAllRequirementsMet(a, p);
      SatisfiedIffAllRequirementsMet(b, p);
  }

  /** Two specifications that accept the same products. */
  ghost predicate Equivalent(a: Spec, b: Spec)
  {
    forall p :: IsSatisfied(a, p) == IsSatisfied(b, p)
  }

  /** The order in which a conjunction evaluates its two parts is immaterial. */
  lemma AndCommutes(a: Spec, b: Spec)
    ensures Equivalent(And(a, b), And(b, a))
  {
  }
}
