/**
 * The two Roslyn enumerations the generator reads: `Accessibility`, whose declaration order the
 * `<= Accessibility.Protected` tests rely on, and the keyword subset of `SyntaxKind`.
 */
module CodeAnalysis {

  /** Roslyn's `Accessibility`, in declaration order. */
  datatype Accessibility =
    | NotApplicable
    | Private
    | ProtectedAndInternal
    | Protected
    | Internal
    | ProtectedOrInternal
    | Public

  /** The underlying enum value, which fixes the order used by `<`, `<=` and `Min`. */
  function Rank(a: Accessibility): (r: nat)
    ensures r <= 6
    ensures a == NotApplicable <==> r == 0
  {
    match a
    case NotApplicable => 0
    case Private => 1
    case ProtectedAndInternal => 2
    case Protected => 3
    case Internal => 4
    case ProtectedOrInternal => 5
    case Public => 6
  }

  lemma RankInjective(a: Accessibility, b: Accessibility)
    requires Rank(a) == Rank(b)
    ensures a == b
  {
  }

  predicate Less(a: Accessibility, b: Accessibility) { Rank(a) < Rank(b) }

  predicate AtMost(a: Accessibility, b: Accessibility) { Rank(a) <= Rank(b) }

  /** `accessibility <= Accessibility.Protected`: protected, private or narrower. */
  predicate AtMostProtected(a: Accessibility)
  {
    AtMost(a, Protected)
  }

  lemma AtMostProtectedCases(a: Accessibility)
    ensures AtMostProtected(a) <==> a in {NotApplicable, Private, ProtectedAndInternal, Protected}
  {
  }

  /** LINQ `Min` over a non-empty sequence of accessibilities. */
  function MinAccessibility(xs: seq<Accessibility>): (m: Accessibility)
    requires |xs| > 0
    ensures m in xs
    ensures forall x <- xs :: AtMost(m, x)
  {
    if |xs| == 1 then xs[0]
    else
      var rest := MinAccessibility(xs[1..]);
      assert forall x <- xs :: x == xs[0] || x in xs[1..];
      if Less(rest, xs[0]) then rest else xs[0]
  }

  /** The least accessibility is at most `Protected` exactly when one of them is. */
  lemma MinAtMostProtected(xs: seq<Accessibility>)
    requires |xs| > 0
    ensures AtMostProtected(MinAccessibility(xs)) <==> exists x <- xs :: AtMostProtected(x)
  {
  }

  /** The keyword subset of Roslyn's `SyntaxKind`. */
  datatype SyntaxKind =
    | PublicKeyword
    | InternalKeyword
    | PrivateKeyword
    | ProtectedKeyword
    | PartialKeyword
    | StaticKeyword
}
