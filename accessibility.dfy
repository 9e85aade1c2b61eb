/**
 * DocsAccessibilityLevel and DocsAccessibilityHelper: the six C# access
 * levels plus Unknown, their keywords, and the restrictiveness order used to
 * compare them.
 */
module Accessibility {

  datatype Level = Public | Protected | Internal | ProtectedInternal | Private | PrivateProtected | Unknown

  /** DocsAccessibilityHelper.ToString: the C# keyword(s) of a level, "???" for Unknown. */
  function Keyword(level: Level): (r: string)
    ensures r == "???" <==> level == Unknown
  {
    match level
    case Public => "public"
    case Internal => "internal"
    case Private => "private"
    case Protected => "protected"
    case ProtectedInternal => "protected internal"
    case PrivateProtected => "private protected"
    case Unknown => "???"
  }

  /** Distinct levels print differently, so the keyword identifies the level. */
  lemma {:induction false} KeywordInjective(a: Level, b: Level)
    requires Keyword(a) == Keyword(b)
    ensures a == b
  {
  }

  /** GetRestrictivenessValue: Internal and Protected share a rank; Unknown ranks with Public. */
  function Rank(level: Level): (r: nat)
    ensures r <= 4
    ensures r == 4 <==> level == Private
    ensures r == 0 <==> level == Public || level == Unknown
  {
    match level
    case Public => 0
    case Internal => 2
    case Private => 4
    case Protected => 2
    case ProtectedInternal => 1
    case PrivateProtected => 3
    case Unknown => 0
  }

  /** IsMoreRestrictive: a strictly higher rank. */
  predicate IsMoreRestrictive(value: Level, other: Level)
  {
    Rank(value) > Rank(other)
  }

  /** The relation is a strict order: irreflexive, asymmetric and transitive. */
  lemma {:induction false} StrictOrder(a: Level, b: Level, c: Level)
    ensures !IsMoreRestrictive(a, a)
    ensures IsMoreRestrictive(a, b) ==> !IsMoreRestrictive(b, a)
    ensures IsMoreRestrictive(a, b) && IsMoreRestrictive(b, c) ==> IsMoreRestrictive(a, c)
  {
  }

  /** Two levels are incomparable exactly when they share a rank, as Internal and Protected do. */
  lemma {:induction false} Incomparable(a: Level, b: Level)
    ensures (!IsMoreRestrictive(a, b) && !IsMoreRestrictive(b, a)) <==> Rank(a) == Rank(b)
    ensures !IsMoreRestrictive(Internal, Protected) && !IsMoreRestrictive(Protected, Internal)
  {
  }

  /** Nothing is more restrictive than Private; Public and Unknown are more restrictive than nothing. */
  lemma {:induction false} Extremes(a: Level)
    ensures !IsMoreRestrictive(a, Private)
    ensures !IsMoreRestrictive(Public, a) && !IsMoreRestrictive(Unknown, a)
    ensures a != Private ==> IsMoreRestrictive(Private, a)
  {
  }
}
