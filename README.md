# OpenStreetMap node import, modelled in Dafny

This project models the OpenStreetMap node import of the CampusCoffee application. The import
does two things:

- **Fetch and classify.** `OsmDataServiceImpl.fetchNode` requests one node by id from the
  OpenStreetMap API and classifies the HTTP outcome by status, body, content type and thrown
  exception.
- **Decode.** `parseOsmNodeXml` decodes an admitted XML body into an `OsmNode` record. The
  record holds the requested id, an optional latitude, an optional longitude and a key/value
  tag map.

Every failure reaches the caller as one outcome: "node not found" for the requested id.

Files:

- `wrappers.dfy`: `Option` (Java's nullable references) and `Result` (a value or the cause of
  an exception).
- `osm_node.dfy`: the `OsmNode` record as an immutable datatype. The types state the record's
  constraints:
  - `nodeId` is a required `Long` (a 64-bit newtype).
  - `lat` and `lon` are separate `Option`s, so each can be absent on its own.
  - `tags` is a `map<string, string>`, so each key has exactly one value.
  - A datatype value has no mutators, which matches the builder-made immutable record.
- `media_types.dfy`: media types with the compatibility relation used by the content-type
  guard. The wildcard main type is compatible with everything.
- `xml_document.dfy`: a parsed XML document, held as its elements in document order. Each
  element has a name and its attributes; an attribute lookup returns an optional value.
  `ElementsByTagName` gives the elements with one name, in document order.
- `osm_data_service.dfy` holds the service itself:
  - the response classifier (`Classify`);
  - the decoder specification (`Decoded`, `TagMap`, `DocumentTags`);
  - the whole fetch (`Fetched`, with its internal failure `Cause`, and `FetchOutcome`, which
    collapses every cause into not-found);
  - the diagnostic excerpts;
  - the methods that run the source's steps: `CollectTags` (the tag loop), `ParseOsmNodeXml`
    and `FetchNode`. Each is proved equal to its specification function.

External inputs are parameters:

- An `Exchange` says what the HTTP exchange produced: a response (status, Content-Type header,
  optional body), a thrown 404 or another thrown fault.
- `Parsers` supplies the XML parser (a document, or a parse failure) and the number parser for
  coordinates (a value of the opaque coordinate type `D`, or a failure).

Where the behaviour could be described differently, the model follows the code:

- **The content-type guard rejects only a missing content type.** The guard also accepts any
  type compatible with the all-matching media type, and that is every media type. So a 200
  response typed `text/html` is not stopped at the guard. Its body goes to the XML parser, and
  it fails there if it is not XML (`RejectsContentType`, `AnyContentTypeReachesDecoder`). A
  200 response with no content type is rejected.
- **An unparsable coordinate fails the whole fetch.** A `lat` or `lon` attribute that is
  present but not a number makes the import return not-found. The coordinate is not treated
  as absent.
- **A 200 response without a body counts as an unexpected status.** It takes the "other
  status" branch.

Coordinates come only from the first `node` element in document order. Tags come from every
`tag` element in the whole document, not only those inside that node.

## Model

| member | source | states |
|---|---|---|
| `MediaTypes.AllIsCompatibleWithEverything` | data/src/main/java/de/seuhd/campuscoffee/data/impl/OsmDataServiceImpl.java:55 | the all-matching media type is compatible with every media type, in both directions |
| `MediaTypes.CompatibilityIsSymmetric` | data/src/main/java/de/seuhd/campuscoffee/data/impl/OsmDataServiceImpl.java:55 | media-type compatibility is reflexive and symmetric |
| `MediaTypes.HtmlIsNotXml` | data/src/main/java/de/seuhd/campuscoffee/data/impl/OsmDataServiceImpl.java:55 | text/html is compatible with neither application/xml nor text/xml, only with the all-matching type |
| `XmlDocuments.Element.Attribute` | data/src/main/java/de/seuhd/campuscoffee/data/impl/OsmDataServiceImpl.java:101-102 | an attribute lookup is present exactly when the element carries the attribute, and then it gives the attribute's value |
| `XmlDocuments.ElementsByTagName` | data/src/main/java/de/seuhd/campuscoffee/data/impl/OsmDataServiceImpl.java:93 | the lookup returns only elements of the document that have the given name, and it returns every such element |
| `XmlDocuments.FirstByTagName` | data/src/main/java/de/seuhd/campuscoffee/data/impl/OsmDataServiceImpl.java:99 | item 0 of the lookup is the first element with that name in document order |
| `XmlDocuments.LookupOfPrefix` | data/src/main/java/de/seuhd/campuscoffee/data/impl/OsmDataServiceImpl.java:108 | the lookup keeps document order: on any prefix of the document it gives a prefix of the lookup on the whole document |
| `XmlDocuments.NoneByTagName` | data/src/main/java/de/seuhd/campuscoffee/data/impl/OsmDataServiceImpl.java:93-94 | the lookup is empty exactly when no element of the document has that name |
| `OsmDataService.RejectsContentType` | data/src/main/java/de/seuhd/campuscoffee/data/impl/OsmDataServiceImpl.java:55 | the content-type guard rejects a content type exactly when it is absent; any present media type passes |
| `OsmDataService.Classify` | data/src/main/java/de/seuhd/campuscoffee/data/impl/OsmDataServiceImpl.java:49-75 | the body is decoded exactly when the status is 200, the body is present and the Content-Type header holds a media type. The decoded body is the response body. A thrown 404, another thrown fault and a 404 status each get their own rejection |
| `OsmDataService.ParseCoordinate` | data/src/main/java/de/seuhd/campuscoffee/data/impl/OsmDataServiceImpl.java:101-105 | an absent attribute gives an absent coordinate. A present one gives the number parser's value. Decoding fails exactly when the attribute is present and does not parse |
| `OsmDataService.Decoded` | data/src/main/java/de/seuhd/campuscoffee/data/impl/OsmDataServiceImpl.java:88-125 | a decoded node carries the requested id. A body that is not XML fails as malformed XML. The decoder fails only as malformed XML, no node element or a bad coordinate |
| `OsmDataService.CollectTags` | data/src/main/java/de/seuhd/campuscoffee/data/impl/OsmDataServiceImpl.java:107-117 | the loop over the `tag` elements builds exactly the tag map `TagMap` of those elements |
| `OsmDataService.ParseOsmNodeXml` | data/src/main/java/de/seuhd/campuscoffee/data/impl/OsmDataServiceImpl.java:88-125 | the step-by-step decoder returns exactly the decoder specification `Decoded` |
| `OsmDataService.Fetched` | data/src/main/java/de/seuhd/campuscoffee/data/impl/OsmDataServiceImpl.java:36-86 | a successful fetch carries the requested id. It happens only for a 200 response with a body and a Content-Type header holding a media type |
| `OsmDataService.FetchOutcome` | data/src/main/java/de/seuhd/campuscoffee/data/impl/OsmDataServiceImpl.java:74-84 | every failure cause becomes not-found for the requested id, never a partial node. A found node has the requested id. A node is found exactly when the fetch succeeds |
| `OsmDataService.FetchNode` | data/src/main/java/de/seuhd/campuscoffee/data/impl/OsmDataServiceImpl.java:36-86 | the decision tree over the response, followed by the decoder, returns exactly `FetchOutcome` |
| `OsmDataService.Excerpt` | data/src/main/java/de/seuhd/campuscoffee/data/impl/OsmDataServiceImpl.java:59 | an excerpt is a prefix of the body whose length is the smaller of the body's length and the limit |
| `OsmDataService.NonXmlExcerpt` | data/src/main/java/de/seuhd/campuscoffee/data/impl/OsmDataServiceImpl.java:56-60 | the excerpt logged for a rejected content type is the prefix of the body of length min(body length, 1000) |
| `OsmDataService.ErrorExcerpt` | data/src/main/java/de/seuhd/campuscoffee/data/impl/OsmDataServiceImpl.java:78-83 | the catch-all handler logs an excerpt exactly when the exchange returned a response with a body. The excerpt is the prefix of that body of length min(body length, 200) |
| `OsmDataService.DocumentTagsSnoc` | data/src/main/java/de/seuhd/campuscoffee/data/impl/OsmDataServiceImpl.java:114-116 | one more element in the document changes the tag map only if it is a `tag` element with both `k` and `v`, and then by writing that key's value |
| `OsmDataService.DocumentTagsKeys` | data/src/main/java/de/seuhd/campuscoffee/data/impl/OsmDataServiceImpl.java:107-117 | the tag map has a key exactly when some `tag` element anywhere in the document has both attributes and that key. Elements missing either attribute are skipped, and with no such element the map is empty |
| `OsmDataService.DocumentTagsLastWins` | data/src/main/java/de/seuhd/campuscoffee/data/impl/OsmDataServiceImpl.java:109-117 | for a key, the map holds the `v` of the last `tag` element in document order that sets that key |
| `OsmDataService.DecodedFromFirstNode` | data/src/main/java/de/seuhd/campuscoffee/data/impl/OsmDataServiceImpl.java:99-124 | the coordinates come from the first `node` element only, and each is absent exactly when its attribute is absent. Decoding succeeds exactly when both coordinates parse, and otherwise fails as a bad coordinate. The node has the requested id and the whole document's tags |
| `OsmDataService.DecodedWithoutNode` | data/src/main/java/de/seuhd/campuscoffee/data/impl/OsmDataServiceImpl.java:93-97 | a document without any `node` element decodes to the no-node failure, and a 200 response carrying it, with any media type, makes the fetch return not-found for the requested id |
| `OsmDataService.FailurePaths` | data/src/main/java/de/seuhd/campuscoffee/data/impl/OsmDataServiceImpl.java:49-84 | each failure path fails with its own cause: a thrown 404, another thrown fault, a 404 status, any other status, a response without a body, a 200 with no content type, a 200 with an unreadable content type |
| `OsmDataService.AnyContentTypeReachesDecoder` | data/src/main/java/de/seuhd/campuscoffee/data/impl/OsmDataServiceImpl.java:55-64 | a 200 response with a body and any media type, text/html included, is decoded. An HTML body that does not parse fails as malformed XML, not at the content-type guard |
| `OsmDataService.FetchOutcomeOfDocument` | data/src/main/java/de/seuhd/campuscoffee/data/impl/OsmDataServiceImpl.java:49-124 | end to end, for a 200 response whose body parses to a document with a `node` element: the import finds a node exactly when both coordinates of the first `node` element parse. Otherwise it returns not-found for the requested id. The node found has the requested id, that element's coordinates and the whole document's tags |

## Left out

- HTTP transport: the URL template, the formatting of the id into it, the `User-Agent` and
  `Accept` request headers and the request itself are not modelled. They are network I/O
  through a library. The exchange's result is an input (`Exchange`).
- XML parsing: the JAXP document builder, the byte encoding of the body before parsing and
  the DOM traversal are a foreign library. The parser is an input function that gives the
  document's elements in document order or a parse failure.
- Floating point: `Double.parseDouble` and the coordinate values are not modelled. Coordinates
  have an opaque type `D`, and the number parser is an input partial function.
- Media types: compatibility is modelled with wildcard main types, wildcard subtypes and exact
  matches. Subtype-suffix patterns (such as `*+xml`), case folding and media-type parameters
  are not modelled. None of them changes the guard's verdict, because any present media type
  passes.
- Logging: log records are not modelled, only the body excerpts they quote. Excerpts count
  characters of `seq<char>`, where Java counts UTF-16 code units.
- Exception types: the not-found exceptions thrown inside the `try` block pass through the
  catch-all handler. That handler throws a fresh not-found exception for the same id, so the
  caller's outcome is unchanged. The exception class itself is not part of this model.
- Tag map storage: the record holds the mutable `HashMap` the decoder filled. The model holds
  an immutable `map`, so aliasing of that map is not captured.
- Framework annotations (`@Service`, `@Builder`, `@Slf4j`, `@NonNull`) carry no behaviour and
  are not modelled.
