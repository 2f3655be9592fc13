/** `RoslynExtensions.GetAccessibilityTokens`: the modifier keywords that spell an accessibility. */
module RoslynExtensions {
  import opened CodeAnalysis

  /** The keyword tokens written for an accessibility; `NotApplicable` writes none. */
  function GetAccessibilityTokens(accessibility: Accessibility): (tokens: seq<SyntaxKind>)
    ensures |tokens| <= 2
    ensures forall i, j :: 0 <= i < j < |tokens| ==> tokens[i] != tokens[j]
    ensures PartialKeyword !in tokens && StaticKeyword !in tokens
    ensures tokens == [] <==> accessibility == NotApplicable
  {
    match accessibility
    case Public => [PublicKeyword]
    case Internal => [InternalKeyword]
    case Private => [PrivateKeyword]
    case NotApplicable => []
    case ProtectedAndInternal => [PrivateKeyword, ProtectedKeyword]
    case Protected => [ProtectedKeyword]
    case ProtectedOrInternal => [ProtectedKeyword, InternalKeyword]
  }

  /** The keywords determine the accessibility: no two accessibilities are spelled alike. */
  lemma TokensDetermineAccessibility(a: Accessibility, b: Accessibility)
    requires GetAccessibilityTokens(a) == GetAccessibilityTokens(b)
    ensures a == b
  {
  }

  /** The combined accessibilities are spelled with two keywords, the simple ones with one. */
  lemma TokenCount(a: Accessibility)
    ensures |GetAccessibilityTokens(a)| == 2 <==> a == ProtectedAndInternal || a == ProtectedOrInternal
    ensures |GetAccessibilityTokens(a)| == 1 <==> a in {Public, Internal, Private, Protected}
  {
  }
}
