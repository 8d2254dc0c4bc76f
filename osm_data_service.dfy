/**
 * The OpenStreetMap node import: classify the HTTP response for a requested node id, decode
 * an XML body into an OsmNode, and collapse every failure into "node not found" for the
 * requested id.
 *
 * The transport call and the XML and number parsers are inputs: an `Exchange` says what the
 * HTTP exchange produced, and `Parsers` supplies the XML parser (a document or a parse failure)
 * and the floating-point parser (a coordinate or a parse failure).
 */
module OsmDataService {
  import opened Wrappers
  import opened OsmNodes
  import opened MediaTypes
  import opened XmlDocuments

  const HttpOk: int := 200
  const HttpNotFound: int := 404

  /** Lengths of the body excerpts written to the diagnostics log. */
  const NonXmlExcerptLength: nat := 1000
  const ErrorExcerptLength: nat := 200

  const NodeElement: string := "node"
  const TagElement: string := "tag"
  const LatAttribute: string := "lat"
  const LonAttribute: string := "lon"
  const KeyAttribute: string := "k"
  const ValueAttribute: string := "v"

  /** The Content-Type header of a response: absent, a media type, or a value that is not one. */
  datatype ContentTypeHeader = NoContentType | ContentType(mediaType: MediaType) | InvalidContentType

  /** What the HTTP exchange did: it returned a response, or it threw. */
  datatype Exchange =
    | Responded(status: int, contentType: ContentTypeHeader, body: Option<string>)
    | ThrewNotFound    // the transport reported a 404 as an exception
    | ThrewOther       // any other transport exception (connection, timeout, other error status)

  /** The two parsers the decoder calls: XML text to a document, and text to a coordinate. */
  datatype Parsers<D> = Parsers(parseXml: string -> Option<Document>, parseDouble: string -> Option<D>)

  /** Why a fetch failed; all of these reach the caller as the same not-found outcome. */
  datatype Cause =
    | MissingContentType    // 200 with a body but no content type, the only case the guard rejects
    | MalformedContentType  // the Content-Type header could not be read as a media type
    | NotFoundStatus        // a response with status 404
    | UnexpectedStatus(status: int)  // any other status, or a 200 without a body
    | NotFoundThrown        // the transport threw its 404 exception
    | TransportFailure      // the transport threw anything else
    | MalformedXml          // the body did not parse as XML
    | NoNodeElement         // the document has no `node` element
    | BadCoordinate         // a `lat` or `lon` attribute is present but not a number

  /** What the caller of the import sees: the node, or not-found for an id. */
  datatype FetchResult<D> = Found(node: OsmNode<D>) | NotFound(nodeId: Long)

  /** The response classifier's decision: hand this body to the decoder, or fail. */
  datatype Verdict = Decode(body: string) | Reject(cause: Cause)

  // ---------------------------------------------------------------------------------------
  // Response classification
  // ---------------------------------------------------------------------------------------

  /**
   * The content-type guard of the classifier: reject when the content type is absent or
   * compatible with none of application/xml, text/xml and the all-matching type. Because the
   * all-matching type is compatible with every media type, the guard rejects exactly the
   * absent content type.
   */
  function RejectsContentType(contentType: Option<MediaType>): (rejected: bool)
    ensures rejected <==> contentType.None?
  {
    || contentType.None?
    || (&& !ApplicationXml.IsCompatibleWith(contentType.value)
        && !TextXml.IsCompatibleWith(contentType.value)
        && !All.IsCompatibleWith(contentType.value))
  }

  /**
   * Classify the outcome of the HTTP exchange. The body reaches the decoder exactly when the
   * status is 200, the body is present and the Content-Type header holds a media type, of
   * whatever kind.
   */
  function Classify(exchange: Exchange): (v: Verdict)
    ensures v.Decode? <==>
      && exchange.Responded?
      && exchange.status == HttpOk
      && exchange.body.Some?
      && exchange.contentType.ContentType?
    ensures v.Decode? ==> v.body == exchange.body.value
    ensures exchange.ThrewNotFound? ==> v == Reject(NotFoundThrown)
    ensures exchange.ThrewOther? ==> v == Reject(TransportFailure)
    ensures exchange.Responded? && exchange.status == HttpNotFound ==> v == Reject(NotFoundStatus)
  {
    match exchange
    case ThrewNotFound => Reject(NotFoundThrown)
    case ThrewOther => Reject(TransportFailure)
    case Responded(status, header, body) =>
      if status == HttpOk && body.Some? then
        if header.InvalidContentType? then Reject(MalformedContentType)
        else
          var contentType := if header.ContentType? then Some(header.mediaType) else None;
          if RejectsContentType(contentType) then Reject(MissingContentType) else Decode(body.value)
      else if status == HttpNotFound then
        Reject(NotFoundStatus)
      else
        Reject(UnexpectedStatus(status))
  }

  // ---------------------------------------------------------------------------------------
  // Decoding
  // ---------------------------------------------------------------------------------------

  /**
   * A coordinate from an attribute that may be absent: no attribute gives no coordinate,
   * a value the number parser accepts gives that number, any other value fails the decode.
   */
  function ParseCoordinate<D>(parseDouble: string -> Option<D>, value: Option<string>): (r: Result<Option<D>, Cause>)
    ensures r.Failure? <==> value.Some? && parseDouble(value.value).None?
    ensures r.Failure? ==> r.error == BadCoordinate
    ensures r.Success? ==> (r.value.None? <==> value.None?)
    ensures r.Success? && value.Some? ==> r.value == parseDouble(value.value)
  {
    match value
    case None => Success(None)
    case Some(text) =>
      match parseDouble(text)
      case None => Failure(BadCoordinate)
      case Some(coordinate) => Success(Some(coordinate))
  }

  /** True when the element contributes to the tag map: it carries both `k` and `v`. */
  predicate HasKeyAndValue(tag: Element)
  {
    KeyAttribute in tag.attributes && ValueAttribute in tag.attributes
  }

  /** The tag map built from the `tag` elements in order; a later key overwrites an earlier one. */
  function TagMap(tagNodes: seq<Element>): map<string, string>
  {
    if tagNodes == [] then map[]
    else
      var tags := TagMap(tagNodes[..|tagNodes| - 1]);
      var tag := tagNodes[|tagNodes| - 1];
      if HasKeyAndValue(tag) then tags[tag.attributes[KeyAttribute] := tag.attributes[ValueAttribute]]
      else tags
  }

  /** The tag map of a document: from every `tag` element anywhere in it, not only inside a node. */
  function DocumentTags(doc: Document): map<string, string>
  {
    TagMap(ElementsByTagName(doc, TagElement))
  }

  /** The element at this position is a `tag` element with both attributes and this key. */
  predicate SetsTag(e: Element, key: string)
  {
    e.name == TagElement && HasKeyAndValue(e) && e.attributes[KeyAttribute] == key
  }

  /**
   * Decode an XML body for the requested id: parse it, take the first `node` element, read its
   * optional `lat` and `lon`, collect the document's tags, and build the node with the
   * requested id (the XML never supplies the id).
   */
  function Decoded<D>(nodeId: Long, xml: string, parsers: Parsers<D>): (r: Result<OsmNode<D>, Cause>)
    ensures r.Success? ==> r.value.nodeId == nodeId
    ensures parsers.parseXml(xml).None? ==> r == Failure(MalformedXml)
    ensures r.Failure? ==> r.error in {MalformedXml, NoNodeElement, BadCoordinate}
  {
    match parsers.parseXml(xml)
    case None => Failure(MalformedXml)
    case Some(doc) =>
      var nodes := ElementsByTagName(doc, NodeElement);
      if nodes == [] then Failure(NoNodeElement)
      else
        var lat := ParseCoordinate(parsers.parseDouble, nodes[0].Attribute(LatAttribute));
        var lon := ParseCoordinate(parsers.parseDouble, nodes[0].Attribute(LonAttribute));
        if lat.Failure? || lon.Failure? then Failure(BadCoordinate)
        else Success(OsmNode(nodeId, lat.value, lon.value, DocumentTags(doc)))
  }

  /** The loop that fills the tag map, one `tag` element at a time. */
  method CollectTags(tagNodes: seq<Element>) returns (tags: map<string, string>)
    ensures tags == TagMap(tagNodes)
  {
    tags := map[];
    var i := 0;
    while i < |tagNodes|
      invariant i <= |tagNodes|
      invariant tags == TagMap(tagNodes[..i])
    {
      var tag := tagNodes[i];
      var k := tag.Attribute(KeyAttribute);
      var v := tag.Attribute(ValueAttribute);
      if k.Some? && v.Some? {
        tags := tags[k.value := v.value];
      }
      assert tagNodes[..i + 1][..i] == tagNodes[..i];
      i := i + 1;
    }
    assert tagNodes[..i] == tagNodes;
  }

  /** The decoder as the program runs it; its result is `Decoded`. */
  method ParseOsmNodeXml<D>(nodeId: Long, xml: string, parsers: Parsers<D>) returns (r: Result<OsmNode<D>, Cause>)
    ensures r == Decoded(nodeId, xml, parsers)
  {
    var parsed := parsers.parseXml(xml);
    if parsed.None? {
      return Failure(MalformedXml);
    }
    var doc := parsed.value;
    var nodeList := ElementsByTagName(doc, NodeElement);
    if |nodeList| == 0 {
      return Failure(NoNodeElement);
    }
    var nodeElem := nodeList[0];
    var lat := ParseCoordinate(parsers.parseDouble, nodeElem.Attribute(LatAttribute));
    var lon := ParseCoordinate(parsers.parseDouble, nodeElem.Attribute(LonAttribute));
    if lat.Failure? || lon.Failure? {
      return Failure(BadCoordinate);
    }
    var tags := CollectTags(ElementsByTagName(doc, TagElement));
    return Success(OsmNode(nodeId, lat.value, lon.value, tags));
  }

  // ---------------------------------------------------------------------------------------
  // The whole fetch
  // ---------------------------------------------------------------------------------------

  /** The fetch with its failure cause: classify, then decode the body the classifier admits. */
  function Fetched<D>(nodeId: Long, exchange: Exchange, parsers: Parsers<D>): (r: Result<OsmNode<D>, Cause>)
    ensures r.Success? ==> r.value.nodeId == nodeId
    ensures r.Success? ==>
      && exchange.Responded?
      && exchange.status == HttpOk
      && exchange.body.Some?
      && exchange.contentType.ContentType?
  {
    match Classify(exchange)
    case Reject(cause) => Failure(cause)
    case Decode(body) => Decoded(nodeId, body, parsers)
  }

  /**
   * What the caller of the import sees: every failure, whatever its cause, is not-found for
   * the requested id, and a found node always carries the requested id.
   */
  function FetchOutcome<D>(nodeId: Long, exchange: Exchange, parsers: Parsers<D>): (r: FetchResult<D>)
    ensures r.Found? ==> r.node.nodeId == nodeId
    ensures r.NotFound? ==> r.nodeId == nodeId
    ensures r.Found? <==> Fetched(nodeId, exchange, parsers).Success?
  {
    match Fetched(nodeId, exchange, parsers)
    case Success(node) => Found(node)
    case Failure(_) => NotFound(nodeId)
  }

  /** The import as the program runs it: the response decision tree, then the decoder. */
  method FetchNode<D>(nodeId: Long, exchange: Exchange, parsers: Parsers<D>) returns (r: FetchResult<D>)
    ensures r == FetchOutcome(nodeId, exchange, parsers)
  {
    match exchange {
      case ThrewNotFound =>
        return NotFound(nodeId);
      case ThrewOther =>
        return NotFound(nodeId);
      case Responded(status, header, body) =>
        if status == HttpOk && body.Some? {
          if header.InvalidContentType? {
            return NotFound(nodeId);
          }
          var contentType := if header.ContentType? then Some(header.mediaType) else None;
          if RejectsContentType(contentType) {
            return NotFound(nodeId);
          }
          var decoded := ParseOsmNodeXml(nodeId, body.value, parsers);
          if decoded.Failure? {
            return NotFound(nodeId);
          }
          return Found(decoded.value);
        } else if status == HttpNotFound {
          return NotFound(nodeId);
        } else {
          return NotFound(nodeId);
        }
    }
  }

  // ---------------------------------------------------------------------------------------
  // Diagnostics excerpts
  // ---------------------------------------------------------------------------------------

  function Min(a: nat, b: nat): nat { if a < b then a else b }

  /** The start of a body, at most `limit` characters long. */
  function Excerpt(body: string, limit: nat): (r: string)
    ensures r <= body
    ensures |r| == Min(|body|, limit)
  {
    body[..Min(|body|, limit)]
  }

  /** The excerpt logged when the content-type guard rejects a 200 response. */
  function NonXmlExcerpt(body: string): (r: string)
    ensures r <= body
    ensures |r| == Min(|body|, NonXmlExcerptLength)
  {
    Excerpt(body, NonXmlExcerptLength)
  }

  /**
   * The excerpt logged by the catch-all handler: present exactly when the exchange returned a
   * response that has a body (a throwing exchange leaves no response to quote).
   */
  function ErrorExcerpt(exchange: Exchange): (r: Option<string>)
    ensures r.Some? <==> exchange.Responded? && exchange.body.Some?
    ensures r.Some? ==> r.value <= exchange.body.value
    ensures r.Some? ==> |r.value| == Min(|exchange.body.value|, ErrorExcerptLength)
  {
    if exchange.Responded? && exchange.body.Some? then Some(Excerpt(exchange.body.value, ErrorExcerptLength))
    else None
  }

  // ---------------------------------------------------------------------------------------
  // Properties
  // ---------------------------------------------------------------------------------------

  /** Appending one element to a document adds at most one entry to its tag map. */
  lemma DocumentTagsSnoc(doc: Document)
    requires doc != []
    ensures
      var last := doc[|doc| - 1];
      var before := DocumentTags(doc[..|doc| - 1]);
      DocumentTags(doc) ==
        if last.name == TagElement && HasKeyAndValue(last)
        then before[last.attributes[KeyAttribute] := last.attributes[ValueAttribute]]
        else before
  {
    var init := doc[..|doc| - 1];
    var last := doc[|doc| - 1];
    var tagNodes := ElementsByTagName(init, TagElement);
    if last.name == TagElement {
      assert ElementsByTagName(doc, TagElement) == tagNodes + [last];
      assert (tagNodes + [last])[..|tagNodes|] == tagNodes;
    } else {
      assert ElementsByTagName(doc, TagElement) == tagNodes;
    }
  }

  /**
   * The tag map has an entry for a key exactly when some `tag` element of the document carries
   * both attributes with that key; in particular it is empty when no `tag` element qualifies.
   */
  lemma {:induction false} DocumentTagsKeys(doc: Document, key: string)
    ensures key in DocumentTags(doc) <==> exists i :: 0 <= i < |doc| && SetsTag(doc[i], key)
  {
    if doc != [] {
      var init := doc[..|doc| - 1];
      DocumentTagsSnoc(doc);
      DocumentTagsKeys(init, key);
      if exists i :: 0 <= i < |init| && SetsTag(init[i], key) {
        var i :| 0 <= i < |init| && SetsTag(init[i], key);
        assert doc[i] == init[i];
      }
      if exists i :: 0 <= i < |doc| && SetsTag(doc[i], key) {
        var i :| 0 <= i < |doc| && SetsTag(doc[i], key);
        if i < |init| {
          assert init[i] == doc[i];
        }
      }
    }
  }

  /** For a key, the tag map holds the value of the last `tag` element that sets that key. */
  lemma {:induction false} DocumentTagsLastWins(doc: Document, key: string, i: nat)
    requires i < |doc| && SetsTag(doc[i], key)
    requires forall j :: i < j < |doc| ==> !SetsTag(doc[j], key)
    ensures key in DocumentTags(doc)
    ensures DocumentTags(doc)[key] == doc[i].attributes[ValueAttribute]
  {
    var init := doc[..|doc| - 1];
    DocumentTagsSnoc(doc);
    if i < |doc| - 1 {
      forall j | i < j < |init|
        ensures !SetsTag(init[j], key)
      {
        assert init[j] == doc[j];
      }
      DocumentTagsLastWins(init, key, i);
    }
  }

  /**
   * Decoding a parsed document whose first `node` element sits at position i: the coordinates
   * come from that element only, each independently absent when its attribute is absent; a
   * present but unparsable coordinate fails the decode; the tags are those of the whole
   * document; the id is the requested one.
   */
  lemma DecodedFromFirstNode<D>(nodeId: Long, xml: string, parsers: Parsers<D>, doc: Document, i: nat)
    requires parsers.parseXml(xml) == Some(doc)
    requires i < |doc| && doc[i].name == NodeElement
    requires forall j :: 0 <= j < i ==> doc[j].name != NodeElement
    ensures
      var r := Decoded(nodeId, xml, parsers);
      var lat := ParseCoordinate(parsers.parseDouble, doc[i].Attribute(LatAttribute));
      var lon := ParseCoordinate(parsers.parseDouble, doc[i].Attribute(LonAttribute));
      && (r.Success? <==> lat.Success? && lon.Success?)
      && (r.Failure? ==> r.error == BadCoordinate)
      && (r.Success? ==> r.value == OsmNode(nodeId, lat.value, lon.value, DocumentTags(doc)))
  {
    FirstByTagName(doc, NodeElement, i);
  }

  /**
   * A document without any `node` element decodes to the no-node failure, and a 200 response
   * carrying it, whatever its media type, makes the import return not-found for the requested id.
   */
  lemma DecodedWithoutNode<D>(nodeId: Long, mediaType: MediaType, xml: string, parsers: Parsers<D>, doc: Document)
    requires parsers.parseXml(xml) == Some(doc)
    requires forall j :: 0 <= j < |doc| ==> doc[j].name != NodeElement
    ensures Decoded(nodeId, xml, parsers) == Failure(NoNodeElement)
    ensures FetchOutcome(nodeId, Responded(HttpOk, ContentType(mediaType), Some(xml)), parsers) == NotFound(nodeId)
  {
  }

  /**
   * Every exchange that does not return a 200 response with a body and a readable content
   * type fails, with the cause the classifier's branch gives it.
   */
  lemma FailurePaths<D>(nodeId: Long, exchange: Exchange, parsers: Parsers<D>)
    ensures exchange.ThrewNotFound? ==> Fetched(nodeId, exchange, parsers) == Failure(NotFoundThrown)
    ensures exchange.ThrewOther? ==> Fetched(nodeId, exchange, parsers) == Failure(TransportFailure)
    ensures exchange.Responded? && exchange.status == HttpNotFound ==>
      Fetched(nodeId, exchange, parsers) == Failure(NotFoundStatus)
    ensures exchange.Responded? && exchange.status != HttpOk && exchange.status != HttpNotFound ==>
      Fetched(nodeId, exchange, parsers) == Failure(UnexpectedStatus(exchange.status))
    ensures exchange.Responded? && exchange.body.None? && exchange.status != HttpNotFound ==>
      Fetched(nodeId, exchange, parsers) == Failure(UnexpectedStatus(exchange.status))
    ensures exchange.Responded? && exchange.status == HttpOk && exchange.body.Some? ==>
      && (exchange.contentType.NoContentType? ==> Fetched(nodeId, exchange, parsers) == Failure(MissingContentType))
      && (exchange.contentType.InvalidContentType? ==> Fetched(nodeId, exchange, parsers) == Failure(MalformedContentType))
  {
  }

  /**
   * A 200 response with any content type, text/html included, goes to the decoder: the
   * content-type guard does not stop it, and an HTML page that does not parse as XML fails
   * in the decoder rather than at the guard.
   */
  lemma AnyContentTypeReachesDecoder<D>(nodeId: Long, mediaType: MediaType, body: string, parsers: Parsers<D>)
    ensures Fetched(nodeId, Responded(HttpOk, ContentType(mediaType), Some(body)), parsers) == Decoded(nodeId, body, parsers)
    ensures parsers.parseXml(body).None? ==>
      Fetched(nodeId, Responded(HttpOk, ContentType(TextHtml), Some(body)), parsers) == Failure(MalformedXml)
  {
  }

  /**
   * End to end: for a 200 response with a content type and a body that parses to a document
   * whose first `node` element is at position i, the import finds a node exactly when both
   * coordinates parse, and that node has the requested id, the coordinates of that element
   * and the tags of the whole document.
   */
  lemma FetchOutcomeOfDocument<D>(nodeId: Long, mediaType: MediaType, body: string, parsers: Parsers<D>, doc: Document, i: nat)
    requires parsers.parseXml(body) == Some(doc)
    requires i < |doc| && doc[i].name == NodeElement
    requires forall j :: 0 <= j < i ==> doc[j].name != NodeElement
    ensures
      var r := FetchOutcome(nodeId, Responded(HttpOk, ContentType(mediaType), Some(body)), parsers);
      var lat := ParseCoordinate(parsers.parseDouble, doc[i].Attribute(LatAttribute));
      var lon := ParseCoordinate(parsers.parseDouble, doc[i].Attribute(LonAttribute));
      && (r.Found? <==> lat.Success? && lon.Success?)
      && (r.NotFound? ==> r == NotFound(nodeId))
      && (r.Found? ==> r.node == OsmNode(nodeId, lat.value, lon.value, DocumentTags(doc)))
  {
    AnyContentTypeReachesDecoder(nodeId, mediaType, body, parsers);
    DecodedFromFirstNode(nodeId, body, parsers, doc, i);
  }
}
