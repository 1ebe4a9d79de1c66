# Portlet adapters for Spring's HTTP abstraction

This project models the two adapters that let Spring's `ServerHttpRequest` and
`ServerHttpResponse` run on top of a JSR 286 portlet container.

**`PortletServerHttpRequest`** (`request.dfy`, `form_body.dfy`):
- `getMethod` resolves the HTTP method. An `EventRequest`'s method overrides a `ClientDataRequest`'s, even when it is null.
- `getHeaders` derives the header collection and memoises it. It copies the portlet properties, then fills in the container's content type, merges in the container's character encoding as a `charset` parameter, and fills in the container's content length.
- `getBody` returns one of two bodies. A form POST gets a body reconstructed from the decoded parameter map (`getBodyFromServletRequestParameters`). Any other request gets the container's input stream.
- The operations a portlet cannot answer are refused.

**`PortletServerHttpResponse`** (`response.dfy`):
- Headers collect in the adapter until the first `getBody`, `flush` or `close`.
- That first call commits them once, through `writeHeaders`:
  - every header value becomes a portlet property;
  - on a `ResourceResponse`, a `Content-Length` value instead becomes the response's content length;
  - a MIME response that reports no content type receives the headers' content type.
- After that, `getHeaders` hands out a read-only view.
- `setStatusCode` reaches the container only on a `ResourceResponse`, through the `portlet.http-status-code` property.

The portlet container appears in two forms:
- The request side is a value: the property enumeration, plus what the client-data and event facets report.
- The response side is a class that records, in order, every call the adapter makes on it.

Three library pieces are parameters of the model:
- the media-type parser and printer, and `Charset.forName`: a `MediaCodec` in `headers.dfy`;
- `URLEncoder.encode(_, "UTF-8")`: an `encode` function.

The header collection (`HttpHeaders`) is an ordered list of entries (`headers.dfy`). The JDK's decimal printing and parsing is in `decimal.dfy`.

Three behaviours of the code are easy to miss, and the model keeps each as written:

- **Content length.** The container's content length is copied into the headers whenever it is not `-1`, not only when it is at least 0 (request line 130).
- **A parameter with no values.** It writes nothing at all: not even its name. The `&` around it is still written, so `a=1` and `b=2` around such a parameter give `a=1&&b=2`. `FormBody.BodyIsJoinOfRuns` states this.
- **An unparseable Content-Type property.** It makes `getHeaders` fail while reading the content type, before the container's content type is parsed (request line 117). `PortletRequestAdapter.BadInputFailsDerivation` states this.

## Model

| member | source | states |
|---|---|---|
| `PortletRequestAdapter.MethodValueOf` | spring-web/src/main/java/org/springframework/http/server/PortletServerHttpRequest.java:83-85 | `HttpMethod.valueOf` is an exact match: a result names the text exactly, and no result means no constant has that name |
| `PortletRequestAdapter.GetMethod` | spring-web/src/main/java/org/springframework/http/server/PortletServerHttpRequest.java:72-88 | succeeds exactly when a method is reported and names a constant, and then names that constant; no reported method is Unsupported("getMethod"); an unknown name is the valueOf failure for that name |
| `PortletRequestAdapter.EventMethodOverridesClientData` | spring-web/src/main/java/org/springframework/http/server/PortletServerHttpRequest.java:73-81 | the method string is the event facet's when there is one, null included, and the client-data facet's otherwise: with an event facet the result does not depend on the client-data facet, and a null event method is refused |
| `PortletRequestAdapter.RefusalsNameTheirOperation` | spring-web/src/main/java/org/springframework/http/server/PortletServerHttpRequest.java:91-155 | `getURI`, `getLocalAddress`, `getRemoteAddress` and `getAsyncRequestControl` each raise a distinct refusal, none equal to `getMethod`'s or `getBody`'s |
| `PortletRequestAdapter.ContainsOccurs` | spring-web/src/main/java/org/springframework/http/server/PortletServerHttpRequest.java:174 | `String.contains` holds exactly when the text occurs at some offset |
| `PortletRequestAdapter.EqualsIgnoreCaseUpper` | spring-web/src/main/java/org/springframework/http/server/PortletServerHttpRequest.java:175 | equality ignoring case holds exactly when the upper-case forms are equal |
| `PortletRequestAdapter.LowerCasePostIsFormPost` | spring-web/src/main/java/org/springframework/http/server/PortletServerHttpRequest.java:173-176 | `post` in lower case, with a form content type that carries parameters, is a form post |
| `PortletRequestAdapter.FormPostMethodIsPost` | spring-web/src/main/java/org/springframework/http/server/PortletServerHttpRequest.java:173-176 | a form post's method is `POST` up to letter case |
| `PortletRequestAdapter.PropertiesCopied` | spring-web/src/main/java/org/springframework/http/server/PortletServerHttpRequest.java:99-106 | after the property loops each name holds the values of every property of that name, in enumeration order |
| `PortletRequestAdapter.CopyProperties` | spring-web/src/main/java/org/springframework/http/server/PortletServerHttpRequest.java:99-106 | the nested loops build the collection the property copy specifies, with the same values per name |
| `PortletRequestAdapter.AddValues` | spring-web/src/main/java/org/springframework/http/server/PortletServerHttpRequest.java:101-105 | the inner loop adds one property's values in order |
| `PortletRequestAdapter.WithCharset` | spring-web/src/main/java/org/springframework/http/server/PortletServerHttpRequest.java:123-127 | the new media type keeps type, subtype and every other parameter, and adds or overwrites `charset` |
| `PortletRequestAdapter.ContentTypeStep` | spring-web/src/main/java/org/springframework/http/server/PortletServerHttpRequest.java:117-120 | touches only Content-Type, and not at all when a Content-Type header exists |
| `PortletRequestAdapter.CharsetStep` | spring-web/src/main/java/org/springframework/http/server/PortletServerHttpRequest.java:121-129 | touches only Content-Type, and not at all without a container encoding |
| `PortletRequestAdapter.LengthStep` | spring-web/src/main/java/org/springframework/http/server/PortletServerHttpRequest.java:130-132 | touches only Content-Length, and fails exactly when the Content-Length header is not a number; a header length other than -1, or a container length of -1, keeps the headers as they are; a header length of -1 with a container length other than -1 sets Content-Length to exactly the container length's decimal text, and that is the only change it makes |
| `PortletRequestAdapter.DerivedKeepsProperties` | spring-web/src/main/java/org/springframework/http/server/PortletServerHttpRequest.java:97-132 | whether the derivation succeeds or fails, every name other than Content-Type and Content-Length holds exactly its property values |
| `PortletRequestAdapter.HeaderContentTypeWins` | spring-web/src/main/java/org/springframework/http/server/PortletServerHttpRequest.java:117-129 | a Content-Type property is kept as given when it already has a charset or there is no encoding to merge |
| `PortletRequestAdapter.ContainerContentTypeUsed` | spring-web/src/main/java/org/springframework/http/server/PortletServerHttpRequest.java:108-120 | without a Content-Type property, the container's content type is set and reads back as the parsed media type |
| `PortletRequestAdapter.CharsetMerged` | spring-web/src/main/java/org/springframework/http/server/PortletServerHttpRequest.java:121-129 | a content type without charset, plus a known container encoding, reads back as that type with `charset` set to the encoding's canonical name and all other parameters kept |
| `PortletRequestAdapter.HeaderLengthWins` | spring-web/src/main/java/org/springframework/http/server/PortletServerHttpRequest.java:130-132 | a Content-Length property that reads as a number other than -1 is kept as the only Content-Length values, and the derivation does not fail on the length |
| `PortletRequestAdapter.ContainerLengthUsed` | spring-web/src/main/java/org/springframework/http/server/PortletServerHttpRequest.java:108-132 | without a Content-Length property, or with one that reads as -1, a successful derivation reads back the container's length (-1 when there is none), and a container length other than -1 is the only Content-Length value, as its decimal text |
| `PortletRequestAdapter.DerivationFailureNamesInput` | spring-web/src/main/java/org/springframework/http/server/PortletServerHttpRequest.java:117-132 | a failure is one of three, each naming the bad input: an unparseable content type from the header or the container, an unknown container encoding, or a non-numeric Content-Length header |
| `PortletRequestAdapter.BadInputFailsDerivation` | spring-web/src/main/java/org/springframework/http/server/PortletServerHttpRequest.java:117-132 | the converse of the row above: an unparseable Content-Type property fails with only the properties copied; an unparseable container content type fails when there is no such property; an unknown container encoding fails when a charset is to be merged; a non-numeric Content-Length property makes the derivation fail |
| `PortletRequestAdapter.PortletServerHttpRequest.GetHeaders` | spring-web/src/main/java/org/springframework/http/server/PortletServerHttpRequest.java:96-135 | the first call memoises the derived collection, partial when a step fails, and returns or raises the derivation's outcome; later calls return the memoised collection unchanged |
| `PortletRequestAdapter.FailureIsMemoised` | spring-web/src/main/java/org/springframework/http/server/PortletServerHttpRequest.java:97-98 | after a failing first `getHeaders`, the second returns the partial collection without failing |
| `PortletRequestAdapter.PortletServerHttpRequest.GetBody` | spring-web/src/main/java/org/springframework/http/server/PortletServerHttpRequest.java:158-171 | without client data the call is refused; a form post gets the reconstructed body; any other request gets the input stream |
| `FormBody.WriteValue` | spring-web/src/main/java/org/springframework/http/server/PortletServerHttpRequest.java:193-201 | one pass writes the encoded name, then `=` and the encoded value for a non-null value, then `&` when a non-null value has more values after it |
| `FormBody.WriteValues` | spring-web/src/main/java/org/springframework/http/server/PortletServerHttpRequest.java:191-202 | the inner loop appends one name's run of values to the buffer |
| `FormBody.BodyFromParameters` | spring-web/src/main/java/org/springframework/http/server/PortletServerHttpRequest.java:184-210 | the nested loops write the body: one run per name in map order, with `&` between names |
| `FormBody.ValueRunAppend` | spring-web/src/main/java/org/springframework/http/server/PortletServerHttpRequest.java:192-202 | two runs of values concatenate, with an `&` between them exactly when the earlier run ends in a non-null value |
| `FormBody.NullValueWritesNameOnly` | spring-web/src/main/java/org/springframework/http/server/PortletServerHttpRequest.java:194-201 | a null value writes the encoded name alone, with no `=` and no `&` after it |
| `FormBody.BodyIsJoinOfRuns` | spring-web/src/main/java/org/springframework/http/server/PortletServerHttpRequest.java:189-206 | the body is the `&`-join of one run per name, and a name without values has an empty run |
| `FormBody.BodyMatchesFixedBody` | spring-web/src/main/java/org/springframework/http/server/PortletServerHttpRequest.java:189-206 | when every name has a value and nulls come only last, the body is the `&`-join of `name=value` (or `name` for null) over all pairs |
| `FormBody.NoNullsArePairs` | spring-web/src/main/java/org/springframework/http/server/PortletServerHttpRequest.java:194-199 | when there are no nulls and every name has a value, the body is the `&`-join of the pairs' segments and each segment is `encode(name)=encode(value)` |
| `FormBody.SplitJoin` | spring-web/src/main/java/org/springframework/http/server/PortletServerHttpRequest.java:199-204 | splitting on `&` recovers the segments a join of `&`-free segments was made of |
| `FormBody.BodyRoundTrip` | spring-web/src/main/java/org/springframework/http/server/PortletServerHttpRequest.java:184-210 | with an encoder whose output holds no `&` or `=` and that decodes back (`EncoderInvertible`), for a map that is `Separable` (every name has a value and only a name's last value may be null) and is not a `LoneEmptySegment` (one pair that writes nothing), the body decodes to the parameter map's pairs: names in map order, values in array order, nulls kept |
| `FormBody.FixedBodyRoundTrip` | spring-web/src/main/java/org/springframework/http/server/PortletServerHttpRequest.java:184-210 | with an `EncoderInvertible` encoder, the intended serialisation decodes back to the pairs for every parameter map except a `LoneEmptySegment`: a single pair that writes nothing |
| `FormBody.LoneEmptySegmentIsLost` | spring-web/src/main/java/org/springframework/http/server/PortletServerHttpRequest.java:184-210 | the one map the round trips exclude is lost: a lone null value under a name that encodes to nothing gives an empty body, which decodes to no pairs |
| `FormBody.NullBeforeValueMergesPairs` | spring-web/src/main/java/org/springframework/http/server/PortletServerHttpRequest.java:195-200 | a null value followed by another value of the same name merges two pairs into one segment that decodes as a single pair |
| `FormBody.NullBeforeValueExample` | spring-web/src/main/java/org/springframework/http/server/PortletServerHttpRequest.java:195-200 | `a -> [null, "2"]` is written as `aa=2` |
| `Headers.AddAppendsValue` | spring-web/src/main/java/org/springframework/http/server/PortletServerHttpRequest.java:104 | `add` appends the value under its name, leaves every other name alone, and adds a new name last |
| `Headers.SetReplacesValues` | spring-web/src/main/java/org/springframework/http/server/PortletServerHttpRequest.java:119 | `setContentType` and `setContentLength` replace the name's values by one value and leave other names alone |
| `Headers.SetContentTypeReadsBack` | spring-web/src/main/java/org/springframework/http/server/PortletServerHttpRequest.java:117-121 | after `setContentType`, `getContentType` reads back the media type that was set, given a codec whose printing parses back |
| `Headers.SetContentLengthReadsBack` | spring-web/src/main/java/org/springframework/http/server/PortletServerHttpRequest.java:130-132 | after `setContentLength` with a `long`, `getContentLength` reads back that length |
| `Headers.ContentLengthOf` | spring-web/src/main/java/org/springframework/http/server/PortletServerHttpRequest.java:130 | `getContentLength` is -1 without the header; it fails exactly when the first value is no number, with a `NumberFormat` failure naming that value; otherwise it is the `long` that value parses to |
| `Headers.FlattenPosition` | spring-web/src/main/java/org/springframework/http/server/PortletServerHttpResponse.java:107-109 | value j of entry i comes right after the values of the earlier entries in iteration order |
| `Decimal.FormatParseLong` | spring-web/src/main/java/org/springframework/http/server/PortletServerHttpRequest.java:131 | a length written with `Long.toString` parses back to the same `long` |
| `Decimal.FormatParseInt` | spring-web/src/main/java/org/springframework/http/server/PortletServerHttpResponse.java:70 | a status code written with `String.valueOf` reads back with `Integer.valueOf` |
| `PortletResponseAdapter.PortletServerHttpResponse.SetStatusCode` | spring-web/src/main/java/org/springframework/http/server/PortletServerHttpResponse.java:68-72 | a resource response gets the status code's decimal text as the `portlet.http-status-code` property; other responses get no call |
| `PortletResponseAdapter.HeadersReadOnlyAfterClose` | spring-web/src/main/java/org/springframework/http/server/PortletServerHttpResponse.java:75-77 | after a successful `close`, `getHeaders` hands out a read-only view holding the headers from before the commit, and adding through it is refused with the headers unchanged; before any commit, a failing close leaves them writable |
| `PortletResponseAdapter.PortletServerHttpResponse.AddHeader` | spring-web/src/main/java/org/springframework/http/server/PortletServerHttpResponse.java:76 | adding through the view works until the headers are written, and is refused afterwards with the headers unchanged |
| `PortletResponseAdapter.PortletServerHttpResponse.SetHeader` | spring-web/src/main/java/org/springframework/http/server/PortletServerHttpResponse.java:76 | setting through the view works until the headers are written, and is refused afterwards with the headers unchanged |
| `PortletResponseAdapter.PortletServerHttpResponse.WriteHeaders` | spring-web/src/main/java/org/springframework/http/server/PortletServerHttpResponse.java:104-132 | makes exactly the commit plan's calls and leaves the content type they set. Latches only on success. A failure leaves the calls made so far. Once latched it does nothing |
| `PortletResponseAdapter.PortletServerHttpResponse.RouteHeaders` | spring-web/src/main/java/org/springframework/http/server/PortletServerHttpResponse.java:107-120 | the loops route every value of every entry in iteration order and stop at the first failure |
| `PortletResponseAdapter.PortletServerHttpResponse.RouteEntry` | spring-web/src/main/java/org/springframework/http/server/PortletServerHttpResponse.java:109-119 | the inner loop routes one entry's values, which sit at consecutive positions of the flattened headers: without a failure the calls are those of every pair up to the entry's end; on a failure (a malformed resource Content-Length) they are the whole commit's calls and the failure is the commit's; the content type is untouched |
| `PortletResponseAdapter.PortletServerHttpResponse.RouteValue` | spring-web/src/main/java/org/springframework/http/server/PortletServerHttpResponse.java:110-118 | a resource response's Content-Length becomes `setContentLength` of the parsed `int`, failing with no call on text that is not an `int`; every other value becomes one property call |
| `PortletResponseAdapter.RoutedInOrder` | spring-web/src/main/java/org/springframework/http/server/PortletServerHttpResponse.java:107-120 | one call per value in order, each that value's route, up to the first value whose route fails; that failure is the commit's |
| `PortletResponseAdapter.RoutingStops` | spring-web/src/main/java/org/springframework/http/server/PortletServerHttpResponse.java:113 | after a failing value, no later value is routed |
| `PortletResponseAdapter.CommitRoutesEveryValue` | spring-web/src/main/java/org/springframework/http/server/PortletServerHttpResponse.java:105-128 | a successful commit routes every value and then makes exactly the content-type calls |
| `PortletResponseAdapter.ResourceLengthNeverAProperty` | spring-web/src/main/java/org/springframework/http/server/PortletServerHttpResponse.java:110-116 | on a resource response no Content-Length value is sent as a property |
| `PortletResponseAdapter.OtherResponsesSendProperties` | spring-web/src/main/java/org/springframework/http/server/PortletServerHttpResponse.java:110-118 | on other responses every value, Content-Length included, is a property, no content length is set, and only an unreadable content type fails |
| `PortletResponseAdapter.ContentTypeCommitted` | spring-web/src/main/java/org/springframework/http/server/PortletServerHttpResponse.java:122-128 | a MIME response without its own content type gets the headers' type last; a response with its own type, or a non-MIME one, gets none |
| `PortletResponseAdapter.NoContentTypeNotCommitted` | spring-web/src/main/java/org/springframework/http/server/PortletServerHttpResponse.java:122-128 | headers without a content type give the response no `setContentType` call, and a successful commit then makes only the routing calls |
| `PortletResponseAdapter.ContentLengthExample` | spring-web/src/main/java/org/springframework/http/server/PortletServerHttpResponse.java:110-118 | `Content-Length: 42` becomes `setContentLength(42)` on a resource response and a property on a render response; `4x2` fails with a number-format error |
| `PortletResponseAdapter.PortletServerHttpResponse.GetBody` | spring-web/src/main/java/org/springframework/http/server/PortletServerHttpResponse.java:80-88 | writes the headers; then a MIME response hands out its output stream, and any other response is refused |
| `PortletResponseAdapter.PortletServerHttpResponse.Flush` | spring-web/src/main/java/org/springframework/http/server/PortletServerHttpResponse.java:91-97 | writes the headers, then flushes a MIME response's buffer |
| `PortletResponseAdapter.PortletServerHttpResponse.Close` | spring-web/src/main/java/org/springframework/http/server/PortletServerHttpResponse.java:100-102 | writes the headers |
| `PortletResponseAdapter.CloseTwice` | spring-web/src/main/java/org/springframework/http/server/PortletServerHttpResponse.java:105-130 | after a successful close a second close succeeds and makes no further call |

## Left out

- Streams and I/O: the request's input stream and the response's output stream are tokens. `IOException` is not modelled. The reconstructed body is text, not UTF-8 bytes; the encoder's output is ASCII, so the two agree.
- `getPrincipal`, `getPortletRequest` and `getPortletResponse` pass a container object through unchanged. Principals are not part of this model. The adapters' `request` and `response` fields stand for the other two.
- The constructors' null checks: Dafny references cannot be null.
- `HttpHeaders`:
  - header names are compared exactly, not case-insensitively;
  - `setContentType`'s wildcard assertions are not checked;
  - media-type parameter names are compared exactly;
  - a quoted `charset` value is not unquoted.
- The library calls are opaque functions of a `MediaCodec`: media-type parsing and printing, and `Charset.forName`. Properties that need "printing then parsing gives the type back" assume that outright, as a precondition.
- `URLEncoder.encode` is a parameter. The round-trip lemmas assume it never outputs `&` or `=` and that decoding undoes it.
- Number parsing and case folding:
  - `Long.parseLong` and `Integer.valueOf` accept ASCII digits only (the JDK also accepts other Unicode digits);
  - `equalsIgnoreCase` folds ASCII letters only.
- Aliasing of the header collections:
  - A response collection obtained from `getHeaders` before the headers are written stays writable after that in Java. The model's `AddHeader` and `SetHeader` go through the current view only.
  - The request's memoised collection is returned by value, so a caller's later changes to it are not modelled.
- `HttpStatus` is its numeric value only.

## Findings

| source | as written | input that shows it | evidently intended | confidence | as-written member | corrected member |
|---|---|---|---|---|---|---|
| spring-web/src/main/java/org/springframework/http/server/PortletServerHttpRequest.java:195-200 | the `&` after a value is written only inside `if (value != null)`, so a null value that has more values after it gets no separator | parameter `a -> [null, "2"]` gives the body `aa=2`, which reads back as one pair `aa = 2` instead of `a` and `a=2` | an `&` between every two values of a name, null or not, so the body decodes back to the parameter map | not executed | `FormBody.NullBeforeValueMergesPairs` | `FormBody.FixedBodyRoundTrip` |

`getBody` keeps the serialiser as written (`FormBody.Body`). `FormBody.BodyMatchesFixedBody` proves that it coincides with the corrected serialisation (`FormBody.FixedBody`) whenever every name has at least one value and a null is only ever a name's last value (`FormBody.Separable`). That covers every parameter map without nulls whose names all have a value. A name with no values still leaves its `&` separators in the body as written, so there the two differ.
