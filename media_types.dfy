/**
 * Media types as the response classifier compares them: a main type and a subtype,
 * either of which may be the wildcard `*`.
 */
module MediaTypes {

  const Wildcard: string := "*"

  datatype MediaType = MediaType(mainType: string, subtype: string) {

    predicate IsWildcardType() { mainType == Wildcard }

    predicate IsWildcardSubtype() { subtype == Wildcard }

    /**
     * Compatibility of two media types: a wildcard main type on either side matches
     * anything; otherwise the main types must agree and the subtypes must agree or one
     * of them must be the wildcard.
     */
    predicate IsCompatibleWith(other: MediaType)
    {
      || IsWildcardType()
      || other.IsWildcardType()
      || (mainType == other.mainType &&
          (subtype == other.subtype || IsWildcardSubtype() || other.IsWildcardSubtype()))
    }
  }

  const ApplicationXml: MediaType := MediaType("application", "xml")
  const TextXml: MediaType := MediaType("text", "xml")
  const TextHtml: MediaType := MediaType("text", "html")
  // The all-matching media type (written with a wildcard main type and subtype).
  const All: MediaType := MediaType(Wildcard, Wildcard)

  // The all-matching media type is compatible with every media type, in both directions.
  lemma AllIsCompatibleWithEverything(m: MediaType)
    ensures All.IsCompatibleWith(m) && m.IsCompatibleWith(All)
  {
  }

  /** Compatibility is reflexive and symmetric. */
  lemma CompatibilityIsSymmetric(a: MediaType, b: MediaType)
    ensures a.IsCompatibleWith(a)
    ensures a.IsCompatibleWith(b) <==> b.IsCompatibleWith(a)
  {
  }

  // text/html is compatible with neither XML media type, only with the all-matching one.
  lemma HtmlIsNotXml()
    ensures !ApplicationXml.IsCompatibleWith(TextHtml)
    ensures !TextXml.IsCompatibleWith(TextHtml)
    ensures All.IsCompatibleWith(TextHtml)
  {
  }
}
