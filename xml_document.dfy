/**
 * A parsed XML document, reduced to what the node decoder looks at: every element of the
 * document in document order, each with its tag name and its attributes.
 */
module XmlDocuments {
  import opened Wrappers

  datatype Element = Element(name: string, attributes: map<string, string>) {

    /** The value of the named attribute, or None when the element does not carry it. */
    function Attribute(key: string): (r: Option<string>)
      ensures r.Some? <==> key in attributes
      ensures r.Some? ==> r.value == attributes[key]
    {
      if key in attributes then Some(attributes[key]) else None
    }
  }

  /** Every element of a document, in document order (a pre-order walk of the tree). */
  type Document = seq<Element>

  /** The elements with the given tag name, in document order (getElementsByTagName). */
  function ElementsByTagName(doc: Document, name: string): (r: seq<Element>)
    ensures |r| <= |doc|
    ensures forall e :: e in r ==> e in doc && e.name == name
    ensures forall i :: 0 <= i < |doc| && doc[i].name == name ==> doc[i] in r
  {
    if doc == [] then []
    else
      var last := doc[|doc| - 1];
      ElementsByTagName(doc[..|doc| - 1], name) + (if last.name == name then [last] else [])
  }

  /** The first element the lookup returns is the first element of that name in document order. */
  lemma {:induction false} FirstByTagName(doc: Document, name: string, i: nat)
    requires i < |doc| && doc[i].name == name
    requires forall j :: 0 <= j < i ==> doc[j].name != name
    ensures ElementsByTagName(doc, name) != []
    ensures ElementsByTagName(doc, name)[0] == doc[i]
  {
    var init := doc[..|doc| - 1];
    if i < |doc| - 1 {
      FirstByTagName(init, name, i);
    }
  }

  /**
   * The lookup keeps document order: the lookup on a prefix of the document is a prefix of
   * the lookup on the whole document.
   */
  lemma {:induction false} LookupOfPrefix(doc: Document, name: string, i: nat)
    requires i <= |doc|
    ensures ElementsByTagName(doc[..i], name) <= ElementsByTagName(doc, name)
    decreases |doc| - i
  {
    if i < |doc| {
      var init := doc[..|doc| - 1];
      LookupOfPrefix(init, name, i);
      assert init[..i] == doc[..i];
    } else {
      assert doc[..i] == doc;
    }
  }

  /** The lookup comes back empty exactly when no element has that name. */
  lemma NoneByTagName(doc: Document, name: string)
    ensures ElementsByTagName(doc, name) == [] <==> forall i :: 0 <= i < |doc| ==> doc[i].name != name
  {
  }
}
