/**
 * `PortletServerHttpRequest`: a portlet request seen as a Spring `ServerHttpRequest`.
 *
 * The portlet request is a value: its properties (the container's view of the request headers),
 * and what its two optional facets report, the client-data facet (`ClientDataRequest`: action and
 * resource requests) and the event facet (`EventRequest`). A request may have either, both or
 * neither. The adapter is a class whose one mutable field is the memoised header collection.
 */
module PortletRequestAdapter {
  import opened Wrappers
  import Decimal
  import opened Headers
  import FormBody

  const FormContentType: string := "application/x-www-form-urlencoded"
  const MethodPost: string := "POST"
  const CharsetParameter: string := "charset"

  /** What `ClientDataRequest` reports; a Java null is None. */
  datatype ClientData = ClientData(
    httpMethod: Option<string>,
    contentType: Option<string>,
    characterEncoding: Option<string>,
    contentLength: Decimal.Int32,
    parameters: FormBody.FormParams)

  /** What `EventRequest` reports. */
  datatype EventData = EventData(httpMethod: Option<string>)

  /**
   * A portlet request: the property names in enumeration order, each with its values in
   * enumeration order, and the facets the request object implements.
   */
  datatype PortletRequest = PortletRequest(
    properties: seq<(string, seq<string>)>,
    clientData: Option<ClientData>,
    event: Option<EventData>)

  // ---------------------------------------------------------------------------------------------
  // Method

  /** Spring's `HttpMethod`. */
  datatype HttpMethod = GET | HEAD | POST | PUT | PATCH | DELETE | OPTIONS | TRACE

  function MethodName(m: HttpMethod): string
  {
    match m
    case GET => "GET"
    case HEAD => "HEAD"
    case POST => "POST"
    case PUT => "PUT"
    case PATCH => "PATCH"
    case DELETE => "DELETE"
    case OPTIONS => "OPTIONS"
    case TRACE => "TRACE"
  }

  /** `HttpMethod.valueOf`: an exact, case-sensitive match on the constant's name. */
  function MethodValueOf(s: string): (r: Option<HttpMethod>)
    ensures r.Some? ==> MethodName(r.value) == s
    ensures r.None? ==> forall m :: MethodName(m) != s
  {
    if s == "GET" then Some(GET)
    else if s == "HEAD" then Some(HEAD)
    else if s == "POST" then Some(POST)
    else if s == "PUT" then Some(PUT)
    else if s == "PATCH" then Some(PATCH)
    else if s == "DELETE" then Some(DELETE)
    else if s == "OPTIONS" then Some(OPTIONS)
    else if s == "TRACE" then Some(TRACE)
    else None
  }

  lemma MethodNameValueOf(m: HttpMethod)
    ensures MethodValueOf(MethodName(m)) == Some(m)
  {
  }

  /**
   * The method string the adapter ends up with: the client-data facet's is read first, then the
   * event facet's, which replaces it even when it is null.
   */
  function ReportedMethod(request: PortletRequest): (r: Option<string>)
    ensures request.event.Some? ==> r == request.event.value.httpMethod
    ensures request.event.None? && request.clientData.Some? ==> r == request.clientData.value.httpMethod
    ensures request.event.None? && request.clientData.None? ==> r == None
  {
    var fromClientData := if request.clientData.Some? then request.clientData.value.httpMethod else None;
    if request.event.Some? then request.event.value.httpMethod else fromClientData
  }

  /**
   * `getMethod`: the reported method as an `HttpMethod`; Unsupported when no facet reports one, and
   * the `valueOf` failure when the text names no constant.
   */
  function GetMethod(request: PortletRequest): (r: Result<HttpMethod, Failure>)
    ensures r.Ok? <==> ReportedMethod(request).Some? && MethodValueOf(ReportedMethod(request).value).Some?
    ensures r.Ok? ==> ReportedMethod(request) == Some(MethodName(r.value))
    ensures ReportedMethod(request).None? ==> r == Err(Unsupported("getMethod"))
    ensures ReportedMethod(request).Some? && r.Err? ==> r.error == NoEnumConstant(ReportedMethod(request).value)
  {
    match ReportedMethod(request)
    case None => Err(Unsupported("getMethod"))
    case Some(s) =>
      match MethodValueOf(s)
      case Some(m) => Ok(m)
      case None => Err(NoEnumConstant(s))
  }

  /** An event facet decides the method on its own: the client-data facet is then never consulted. */
  lemma EventMethodOverridesClientData(request: PortletRequest, other: Option<ClientData>)
    requires request.event.Some?
    ensures GetMethod(request) == GetMethod(request.(clientData := other))
    ensures request.event.value.httpMethod.None? ==> GetMethod(request) == Err(Unsupported("getMethod"))
  {
  }

  /** The operations the adapter refuses whatever the request: `getURI`, the two addresses, async control. */
  datatype RefusedOperation = GetURI | GetLocalAddress | GetRemoteAddress | GetAsyncRequestControl

  function RefusedName(op: RefusedOperation): string
  {
    match op
    case GetURI => "getURI"
    case GetLocalAddress => "getLocalAddress"
    case GetRemoteAddress => "getRemoteAddress"
    case GetAsyncRequestControl => "getAsyncRequestControl"
  }

  /** Each refused operation raises UnsupportedOperationException naming itself. */
  function Refuse(op: RefusedOperation): (f: Failure)
    ensures f.Unsupported? && f.operation == RefusedName(op)
  {
    Unsupported(RefusedName(op))
  }

  /** The four refusals are told apart by the operation they name, and none is `getMethod`'s or `getBody`'s. */
  lemma RefusalsNameTheirOperation(op: RefusedOperation, other: RefusedOperation)
    ensures Refuse(op) == Refuse(other) <==> op == other
    ensures Refuse(op) != Unsupported("getMethod") && Refuse(op) != Unsupported("getBody")
  {
  }

  // ---------------------------------------------------------------------------------------------
  // Form posts

  /** `String.contains`. */
  function Contains(s: string, t: string): bool
    decreases |s|
  {
    t <= s || (s != [] && Contains(s[1..], t))
  }

  predicate OccursAt(s: string, t: string, k: int)
  {
    0 <= k && k + |t| <= |s| && s[k..k + |t|] == t
  }

  /** Contains finds `t` exactly when `t` occurs at some offset of `s`. */
  lemma ContainsOccurs(s: string, t: string)
    ensures Contains(s, t) <==> exists k :: OccursAt(s, t, k)
  {
    if Contains(s, t) {
      var k := ContainsWitness(s, t);
    }
    if k :| OccursAt(s, t, k) {
      OccursContains(s, t, k);
    }
  }

  lemma {:induction false} ContainsWitness(s: string, t: string) returns (k: nat)
    requires Contains(s, t)
    ensures OccursAt(s, t, k)
    decreases |s|
  {
    if t <= s {
      k := 0;
      assert s[..|t|] == t;
    } else {
      var j := ContainsWitness(s[1..], t);
      k := j + 1;
      assert s[k..k + |t|] == s[1..][j..j + |t|];
    }
  }

  lemma {:induction false} OccursContains(s: string, t: string, k: int)
    requires OccursAt(s, t, k)
    ensures Contains(s, t)
    decreases k
  {
    if k == 0 {
      assert t <= s;
    } else {
      assert s[1..][k - 1..k - 1 + |t|] == s[k..k + |t|];
      OccursContains(s[1..], t, k - 1);
    }
  }

  function UpperAscii(c: char): char
  {
    if 'a' <= c <= 'z' then (c as int - 32) as char else c
  }

  /** `String.equalsIgnoreCase` on ASCII text: same length, characters equal up to case. */
  predicate EqualsIgnoreCase(a: string, b: string)
  {
    |a| == |b| && forall k :: 0 <= k < |a| ==> UpperAscii(a[k]) == UpperAscii(b[k])
  }

  function ToUpperAscii(s: string): (u: string)
    ensures |u| == |s|
    ensures forall k :: 0 <= k < |s| ==> u[k] == UpperAscii(s[k])
  {
    seq(|s|, k requires 0 <= k < |s| => UpperAscii(s[k]))
  }

  /** Two strings are equal ignoring case exactly when their upper-case forms are equal. */
  lemma EqualsIgnoreCaseUpper(a: string, b: string)
    ensures EqualsIgnoreCase(a, b) <==> ToUpperAscii(a) == ToUpperAscii(b)
  {
    if ToUpperAscii(a) == ToUpperAscii(b) {
      assert |a| == |ToUpperAscii(a)|;
      forall k | 0 <= k < |a| ensures UpperAscii(a[k]) == UpperAscii(b[k]) {
        assert ToUpperAscii(a)[k] == ToUpperAscii(b)[k];
      }
    }
  }

  /**
   * `isFormPost`: the client data carries a content type containing the form media type, and a
   * method that is `POST` in any letter case.
   */
  predicate IsFormPost(data: ClientData)
  {
    data.contentType.Some? && Contains(data.contentType.value, FormContentType)
    && data.httpMethod.Some? && EqualsIgnoreCase(MethodPost, data.httpMethod.value)
  }

  /** A lower-case `post` with a content type carrying parameters still counts as a form post. */
  lemma LowerCasePostIsFormPost(data: ClientData)
    requires data.httpMethod == Some("post")
    requires data.contentType == Some(FormContentType + "; charset=UTF-8")
    ensures IsFormPost(data)
  {
    assert FormContentType <= data.contentType.value;
  }

  /** Only a method spelt P, O, S, T in some letter case makes a form post. */
  lemma FormPostMethodIsPost(data: ClientData)
    requires IsFormPost(data)
    ensures ToUpperAscii(data.httpMethod.value) == MethodPost
  {
    EqualsIgnoreCaseUpper(MethodPost, data.httpMethod.value);
    assert ToUpperAscii(MethodPost) == MethodPost;
  }

  // ---------------------------------------------------------------------------------------------
  // Header derivation: the specification of `getHeaders`

  /** The header collection after adding the first `j` values under `name`. */
  function AddValuesUpTo(h: HeaderMap, name: string, values: seq<string>, j: nat): HeaderMap
    requires j <= |values|
    decreases j
  {
    if j == 0 then h else Add(AddValuesUpTo(h, name, values, j - 1), name, values[j - 1])
  }

  /** The header collection after copying the first `i` properties. */
  function AddPropertiesUpTo(properties: seq<(string, seq<string>)>, i: nat): HeaderMap
    requires i <= |properties|
    decreases i
  {
    if i == 0 then []
    else AddValuesUpTo(AddPropertiesUpTo(properties, i - 1), properties[i - 1].0, properties[i - 1].1, |properties[i - 1].1|)
  }

  /** The header collection copied from the properties. */
  function PropertyHeaders(properties: seq<(string, seq<string>)>): HeaderMap
  {
    AddPropertiesUpTo(properties, |properties|)
  }

  /** Every value the first `i` properties give `name`, in enumeration order. */
  function PropertyValuesUpTo(properties: seq<(string, seq<string>)>, name: string, i: nat): seq<string>
    requires i <= |properties|
    decreases i
  {
    if i == 0 then []
    else PropertyValuesUpTo(properties, name, i - 1) + (if properties[i - 1].0 == name then properties[i - 1].1 else [])
  }

  function PropertyValues(properties: seq<(string, seq<string>)>, name: string): seq<string>
  {
    PropertyValuesUpTo(properties, name, |properties|)
  }

  lemma AddValuesUpToValues(h: HeaderMap, name: string, values: seq<string>, j: nat)
    requires j <= |values|
    ensures forall n :: Values(AddValuesUpTo(h, name, values, j), n) == Values(h, n) + (if n == name then values[..j] else [])
  {
    forall n ensures Values(AddValuesUpTo(h, name, values, j), n) == Values(h, n) + (if n == name then values[..j] else []) {
      if n == name {
        AddValuesUpToSameName(h, name, values, j);
      } else {
        AddValuesUpToOtherName(h, name, values, j, n);
        assert Values(h, n) + [] == Values(h, n);
      }
    }
  }

  /** Adding the first `j` values of a name appends them to that name's values. */
  lemma {:induction false} AddValuesUpToSameName(h: HeaderMap, name: string, values: seq<string>, j: nat)
    requires j <= |values|
    ensures Values(AddValuesUpTo(h, name, values, j), name) == Values(h, name) + values[..j]
    decreases j
  {
    if j == 0 {
      assert Values(h, name) + values[..0] == Values(h, name);
    } else {
      var before, value := AddValuesUpTo(h, name, values, j - 1), values[j - 1];
      AddValuesUpToSameName(h, name, values, j - 1);
      Headers.AddValues(before, name, value);
      assert values[..j] == values[..j - 1] + [value];
      assert Values(Add(before, name, value), name) == (Values(h, name) + values[..j - 1]) + [value];
    }
  }

  /** Adding values to a name leaves every other name's values as they were. */
  lemma {:induction false} AddValuesUpToOtherName(h: HeaderMap, name: string, values: seq<string>, j: nat, n: string)
    requires j <= |values| && n != name
    ensures Values(AddValuesUpTo(h, name, values, j), n) == Values(h, n)
    decreases j
  {
    if j > 0 {
      var before, value := AddValuesUpTo(h, name, values, j - 1), values[j - 1];
      AddValuesUpToOtherName(h, name, values, j - 1, n);
      Headers.AddValues(before, name, value);
      assert Values(Add(before, name, value), n) == Values(before, n) + [];
    }
  }

  lemma {:induction false} AddPropertiesUpToValues(properties: seq<(string, seq<string>)>, i: nat)
    requires i <= |properties|
    ensures forall n :: Values(AddPropertiesUpTo(properties, i), n) == PropertyValuesUpTo(properties, n, i)
    decreases i
  {
    if i > 0 {
      var name, values := properties[i - 1].0, properties[i - 1].1;
      AddPropertiesUpToValues(properties, i - 1);
      AddValuesUpToValues(AddPropertiesUpTo(properties, i - 1), name, values, |values|);
      assert values[..|values|] == values;
    }
  }

  /**
   * Copying the properties keeps every value: under each name the collection holds the values of
   * every property of that name, in enumeration order; a property with no values adds nothing.
   */
  lemma PropertiesCopied(properties: seq<(string, seq<string>)>)
    ensures forall n :: Values(PropertyHeaders(properties), n) == PropertyValues(properties, n)
  {
    AddPropertiesUpToValues(properties, |properties|);
  }

  /** The container's content type: reported by the client-data facet only. */
  function ContainerContentType(request: PortletRequest): Option<string>
  {
    if request.clientData.Some? then request.clientData.value.contentType else None
  }

  function ContainerEncoding(request: PortletRequest): Option<string>
  {
    if request.clientData.Some? then request.clientData.value.characterEncoding else None
  }

  /** The container's content length; -1 without a client-data facet. */
  function ContainerLength(request: PortletRequest): int
  {
    if request.clientData.Some? then request.clientData.value.contentLength else -1
  }

  /** `media` with its `charset` parameter set to `charset`, everything else kept. */
  function WithCharset(media: MediaType, charset: string): (r: MediaType)
    ensures r.mainType == media.mainType && r.subtype == media.subtype
    ensures r.parameters.Keys == media.parameters.Keys + {CharsetParameter}
    ensures r.parameters[CharsetParameter] == charset
    ensures forall p :: p in media.parameters && p != CharsetParameter ==> r.parameters[p] == media.parameters[p]
  {
    MediaType(media.mainType, media.subtype, media.parameters[CharsetParameter := charset])
  }

  /**
   * The content-type step: without a Content-Type header, the container's content type is parsed
   * and set. Reading the header's content type fails when its text does not parse.
   */
  function ContentTypeStep(h: HeaderMap, codec: MediaCodec, containerType: Option<string>): (r: Result<HeaderMap, Failure>)
    ensures r.Ok? ==> forall n :: n != ContentType ==> Values(r.value, n) == Values(h, n)
    ensures r.Ok? && Values(h, ContentType) != [] ==> r.value == h
  {
    match ContentTypeOf(h, codec)
    case Err(f) => Err(f)
    case Ok(Some(_)) => Ok(h)
    case Ok(None) =>
      match containerType
      case None => Ok(h)
      case Some(t) =>
        match codec.parse(t)
        case None => Err(InvalidMediaType(t))
        case Some(m) =>
          SetReplacesValues(h, ContentType, codec.format(m));
          Ok(Set(h, ContentType, codec.format(m)))
  }

  /**
   * The charset step: a content type without a `charset` parameter, with a container encoding,
   * is replaced by the same type with `charset` set to the encoding's canonical name.
   */
  function CharsetStep(h: HeaderMap, codec: MediaCodec, encoding: Option<string>): (r: Result<HeaderMap, Failure>)
    ensures r.Ok? ==> forall n :: n != ContentType ==> Values(r.value, n) == Values(h, n)
    ensures encoding.None? && r.Ok? ==> r.value == h
  {
    match ContentTypeOf(h, codec)
    case Err(f) => Err(f)
    case Ok(None) => Ok(h)
    case Ok(Some(m)) =>
      if CharsetParameter in m.parameters || encoding.None? then Ok(h)
      else
        match codec.charsetName(encoding.value)
        case None => Err(UnsupportedCharset(encoding.value))
        case Some(c) =>
          SetReplacesValues(h, ContentType, codec.format(WithCharset(m, c)));
          Ok(Set(h, ContentType, codec.format(WithCharset(m, c))))
  }

  /**
   * The length step: a Content-Length header that reads as anything but -1 is kept as it is;
   * otherwise a container length other than -1 is set, as its decimal text.
   */
  function LengthStep(h: HeaderMap, length: int): (r: Result<HeaderMap, Failure>)
    ensures r.Ok? ==> forall n :: n != ContentLength ==> Values(r.value, n) == Values(h, n)
    ensures r.Err? <==> ContentLengthOf(h).Err?
    ensures r.Ok? && (ContentLengthOf(h).value != -1 || length == -1) ==> r.value == h
    ensures r.Ok? && r.value != h ==>
      ContentLengthOf(h).value == -1 && length != -1 && Values(r.value, ContentLength) == [Decimal.Format(length)]
    ensures r.Ok? && ContentLengthOf(h).value == -1 && length != -1 ==>
      r.value == Set(h, ContentLength, Decimal.Format(length))
  {
    match ContentLengthOf(h)
    case Err(f) => Err(f)
    case Ok(n) =>
      if n == -1 && length != -1 then
        SetReplacesValues(h, ContentLength, Decimal.Format(length));
        Ok(Set(h, ContentLength, Decimal.Format(length)))
      else Ok(h)
  }

  /**
   * The outcome of the first `getHeaders`: the header collection as far as it got (it is memoised
   * before it is filled, so a failing step leaves it as the earlier steps made it) and the failure.
   */
  datatype Derivation = Derivation(headers: HeaderMap, failure: Option<Failure>)

  function Derive(request: PortletRequest, codec: MediaCodec): Derivation
  {
    var copied := PropertyHeaders(request.properties);
    match ContentTypeStep(copied, codec, ContainerContentType(request))
    case Err(f) => Derivation(copied, Some(f))
    case Ok(typed) =>
      match CharsetStep(typed, codec, ContainerEncoding(request))
      case Err(f) => Derivation(typed, Some(f))
      case Ok(charset) =>
        match LengthStep(charset, ContainerLength(request))
        case Err(f) => Derivation(charset, Some(f))
        case Ok(complete) => Derivation(complete, None)
  }

  /** What `getHeaders` returns or throws given the derivation. */
  function Outcome(d: Derivation): Result<HeaderMap, Failure>
  {
    if d.failure.Some? then Err(d.failure.value) else Ok(d.headers)
  }

  /**
   * Every property survives into the header collection, failure or not, except under
   * Content-Type and Content-Length, which the container's values may fill in.
   */
  lemma DerivedKeepsProperties(request: PortletRequest, codec: MediaCodec)
    ensures forall n :: n != ContentType && n != ContentLength ==>
      Values(Derive(request, codec).headers, n) == PropertyValues(request.properties, n)
  {
    PropertiesCopied(request.properties);
  }

  /**
   * A Content-Type property wins over the container's content type, and when it already has a
   * charset (or there is no container encoding) it is kept exactly as the property gave it.
   */
  lemma HeaderContentTypeWins(request: PortletRequest, codec: MediaCodec, m: MediaType)
    requires PropertyValues(request.properties, ContentType) != []
    requires codec.parse(PropertyValues(request.properties, ContentType)[0]) == Some(m)
    requires CharsetParameter in m.parameters || ContainerEncoding(request).None?
    ensures Values(Derive(request, codec).headers, ContentType) == PropertyValues(request.properties, ContentType)
  {
    PropertiesCopied(request.properties);
  }

  /**
   * Without a Content-Type property the container's content type is used: parsed, set, and read
   * back as the same media type (given a media-type library whose printing parses back).
   */
  lemma ContainerContentTypeUsed(request: PortletRequest, codec: MediaCodec, t: string, m: MediaType)
    requires FormatRoundTrips(codec)
    requires PropertyValues(request.properties, ContentType) == []
    requires ContainerContentType(request) == Some(t) && codec.parse(t) == Some(m)
    requires CharsetParameter in m.parameters || ContainerEncoding(request).None?
    ensures Values(Derive(request, codec).headers, ContentType) == [codec.format(m)]
    ensures ContentTypeOf(Derive(request, codec).headers, codec) == Ok(Some(m))
  {
    var typed := TypedHeaders(request, codec, m);
    assert CharsetStep(typed, codec, ContainerEncoding(request)) == Ok(typed);
    var d := Derive(request, codec);
    assert d.headers == typed || d.headers == LengthStep(typed, ContainerLength(request)).value;
  }

  /**
   * The charset merge: when the content type in force (from the property, or else from the
   * container) has no charset and the container reports an encoding the platform knows, the
   * header ends up as that media type with `charset` added and all other parameters kept.
   */
  lemma CharsetMerged(request: PortletRequest, codec: MediaCodec, m: MediaType, encoding: string, charset: string)
    requires FormatRoundTrips(codec)
    requires
      || (PropertyValues(request.properties, ContentType) != []
          && codec.parse(PropertyValues(request.properties, ContentType)[0]) == Some(m))
      || (PropertyValues(request.properties, ContentType) == []
          && ContainerContentType(request).Some? && codec.parse(ContainerContentType(request).value) == Some(m))
    requires CharsetParameter !in m.parameters
    requires ContainerEncoding(request) == Some(encoding) && codec.charsetName(encoding) == Some(charset)
    ensures ContentTypeOf(Derive(request, codec).headers, codec) == Ok(Some(WithCharset(m, charset)))
  {
    var copied := PropertyHeaders(request.properties);
    var typed := TypedHeaders(request, codec, m);
    var merged := Set(typed, ContentType, codec.format(WithCharset(m, charset)));
    assert CharsetStep(typed, codec, ContainerEncoding(request)) == Ok(merged);
    SetReplacesValues(typed, ContentType, codec.format(WithCharset(m, charset)));
    assert Values(merged, ContentType) == [codec.format(WithCharset(m, charset))];
    assert ContentTypeOf(merged, codec) == Ok(Some(WithCharset(m, charset)));
    var d := Derive(request, codec);
    assert d.headers == merged || d.headers == LengthStep(merged, ContainerLength(request)).value;
    assert Values(d.headers, ContentType) == Values(merged, ContentType);
  }

  /** The header collection after the content-type step, when the content type in force parses to `m`. */
  lemma TypedHeaders(request: PortletRequest, codec: MediaCodec, m: MediaType) returns (typed: HeaderMap)
    requires FormatRoundTrips(codec)
    requires
      || (PropertyValues(request.properties, ContentType) != []
          && codec.parse(PropertyValues(request.properties, ContentType)[0]) == Some(m))
      || (PropertyValues(request.properties, ContentType) == []
          && ContainerContentType(request).Some? && codec.parse(ContainerContentType(request).value) == Some(m))
    ensures ContentTypeStep(PropertyHeaders(request.properties), codec, ContainerContentType(request)) == Ok(typed)
    ensures ContentTypeOf(typed, codec) == Ok(Some(m))
    ensures PropertyValues(request.properties, ContentType) == [] ==> Values(typed, ContentType) == [codec.format(m)]
  {
    PropertiesCopied(request.properties);
    var copied := PropertyHeaders(request.properties);
    if PropertyValues(request.properties, ContentType) != [] {
      typed := copied;
    } else {
      typed := Set(copied, ContentType, codec.format(m));
      SetReplacesValues(copied, ContentType, codec.format(m));
      assert Values(typed, ContentType) == [codec.format(m)];
    }
  }

  /**
   * Without a Content-Length property, or with one that reads as -1, a derivation that succeeds
   * reads back the container's content length: the number it set as its decimal text, or -1 when
   * the container reports -1 or has no client data.
   */
  lemma ContainerLengthUsed(request: PortletRequest, codec: MediaCodec)
    requires var property := PropertyValues(request.properties, ContentLength);
      property == [] || Decimal.ParseLong(property[0]) == Some(-1)
    ensures Derive(request, codec).failure.None? ==>
      ContentLengthOf(Derive(request, codec).headers) == Ok(ContainerLength(request))
    ensures Derive(request, codec).failure.None? && ContainerLength(request) != -1 ==>
      Values(Derive(request, codec).headers, ContentLength) == [Decimal.Format(ContainerLength(request))]
  {
    PropertiesCopied(request.properties);
    var d := Derive(request, codec);
    if d.failure.None? {
      var copied := PropertyHeaders(request.properties);
      var typed := ContentTypeStep(copied, codec, ContainerContentType(request)).value;
      var merged := CharsetStep(typed, codec, ContainerEncoding(request)).value;
      assert Values(merged, ContentLength) == PropertyValues(request.properties, ContentLength);
      assert ContentLengthOf(merged) == Ok(-1);
      var length := ContainerLength(request);
      if length != -1 {
        SetReplacesValues(merged, ContentLength, Decimal.Format(length));
        Decimal.FormatParseLong(length);
      }
    }
  }

  /**
   * A Content-Length property that reads as a number other than -1 wins over the container's
   * length: the header keeps exactly the property's values, and the length step cannot fail.
   */
  lemma HeaderLengthWins(request: PortletRequest, codec: MediaCodec, n: int)
    requires PropertyValues(request.properties, ContentLength) != []
    requires Decimal.ParseLong(PropertyValues(request.properties, ContentLength)[0]) == Some(n)
    requires n != -1
    ensures Values(Derive(request, codec).headers, ContentLength) == PropertyValues(request.properties, ContentLength)
    ensures Derive(request, codec).failure.Some? ==> !Derive(request, codec).failure.value.NumberFormat?
  {
    PropertiesCopied(request.properties);
    var copied := PropertyHeaders(request.properties);
    var d := Derive(request, codec);
    match ContentTypeStep(copied, codec, ContainerContentType(request))
    case Err(f) =>
    case Ok(typed) =>
      assert Values(typed, ContentLength) == Values(copied, ContentLength);
      match CharsetStep(typed, codec, ContainerEncoding(request))
      case Err(f) =>
      case Ok(merged) =>
        assert Values(merged, ContentLength) == Values(copied, ContentLength);
        assert ContentLengthOf(merged) == Ok(n);
        assert LengthStep(merged, ContainerLength(request)) == Ok(merged);
  }

  /**
   * The derivation fails only on bad input, and the failure names it: a content type that does not
   * parse, an encoding the platform does not know, or a Content-Length property that is no number.
   */
  lemma DerivationFailureNamesInput(request: PortletRequest, codec: MediaCodec)
    requires FormatRoundTrips(codec)
    ensures Derive(request, codec).failure.Some? ==>
      match Derive(request, codec).failure.value
      case InvalidMediaType(t) =>
        codec.parse(t).None?
        && (Some(t) == First(PropertyHeaders(request.properties), ContentType) || Some(t) == ContainerContentType(request))
      case UnsupportedCharset(e) => codec.charsetName(e).None? && ContainerEncoding(request) == Some(e)
      case NumberFormat(v) =>
        Decimal.ParseLong(v).None? && Some(v) == First(PropertyHeaders(request.properties), ContentLength)
      case _ => false
  {
    var copied := PropertyHeaders(request.properties);
    match ContentTypeStep(copied, codec, ContainerContentType(request))
    case Err(f) =>
    case Ok(typed) =>
      assert First(typed, ContentType).Some? ==> codec.parse(First(typed, ContentType).value).Some? by {
        if Values(copied, ContentType) == [] && ContainerContentType(request).Some? {
          var m := codec.parse(ContainerContentType(request).value);
          if m.Some? {
            SetReplacesValues(copied, ContentType, codec.format(m.value));
          }
        }
      }
      match CharsetStep(typed, codec, ContainerEncoding(request))
      case Err(f) =>
      case Ok(merged) =>
        assert Values(merged, ContentLength) == Values(copied, ContentLength);
  }

  /**
   * The content type the charset step reads: the parse of the Content-Type property when there is
   * one, otherwise the parse of the container's content type, otherwise none.
   */
  function EffectiveContentType(request: PortletRequest, codec: MediaCodec): Option<MediaType>
  {
    var property := PropertyValues(request.properties, ContentType);
    if property != [] then codec.parse(property[0])
    else if ContainerContentType(request).Some? then codec.parse(ContainerContentType(request).value)
    else None
  }

  /**
   * Each bad input makes the derivation fail: a Content-Type property that does not parse (the
   * copy of the properties is then all that is memoised), a container content type that does not
   * parse when there is no such property, an encoding the platform does not know when a charset
   * is to be merged, and a Content-Length property that is no number.
   */
  lemma BadInputFailsDerivation(request: PortletRequest, codec: MediaCodec)
    requires FormatRoundTrips(codec)
    ensures var property := PropertyValues(request.properties, ContentType);
      property != [] && codec.parse(property[0]).None? ==>
        Derive(request, codec) == Derivation(PropertyHeaders(request.properties), Some(InvalidMediaType(property[0])))
    ensures var container := ContainerContentType(request);
      PropertyValues(request.properties, ContentType) == [] && container.Some? && codec.parse(container.value).None? ==>
        Derive(request, codec) == Derivation(PropertyHeaders(request.properties), Some(InvalidMediaType(container.value)))
    ensures var m, e := EffectiveContentType(request, codec), ContainerEncoding(request);
      m.Some? && CharsetParameter !in m.value.parameters && e.Some? && codec.charsetName(e.value).None? ==>
        Derive(request, codec).failure == Some(UnsupportedCharset(e.value))
    ensures var property := PropertyValues(request.properties, ContentLength);
      property != [] && Decimal.ParseLong(property[0]).None? ==> Derive(request, codec).failure.Some?
  {
    PropertiesCopied(request.properties);
    var copied := PropertyHeaders(request.properties);
    match ContentTypeStep(copied, codec, ContainerContentType(request))
    case Err(f) =>
    case Ok(typed) =>
      EffectiveContentTypeRead(request, codec, typed);
      match CharsetStep(typed, codec, ContainerEncoding(request))
      case Err(f) =>
      case Ok(merged) =>
        assert Values(merged, ContentLength) == Values(copied, ContentLength);
  }

  /** After a successful content-type step, the header's content type reads as the effective one. */
  lemma EffectiveContentTypeRead(request: PortletRequest, codec: MediaCodec, typed: HeaderMap)
    requires FormatRoundTrips(codec)
    requires ContentTypeStep(PropertyHeaders(request.properties), codec, ContainerContentType(request)) == Ok(typed)
    ensures ContentTypeOf(typed, codec) == Ok(EffectiveContentType(request, codec))
    ensures Values(typed, ContentLength) == PropertyValues(request.properties, ContentLength)
  {
    PropertiesCopied(request.properties);
    var copied := PropertyHeaders(request.properties);
    if PropertyValues(request.properties, ContentType) == [] && ContainerContentType(request).Some? {
      var m := codec.parse(ContainerContentType(request).value);
      if m.Some? {
        SetContentTypeReadsBack(copied, codec, m.value);
      }
    }
  }

  // ---------------------------------------------------------------------------------------------
  // The adapter

  /** What `getBody` hands back: the reconstructed form body, or the container's input stream. */
  datatype RequestBody = ReconstructedForm(content: string) | PortletInputStream

  class PortletServerHttpRequest {
    const request: PortletRequest
    /** The media-type library. */
    const codec: MediaCodec
    /** `URLEncoder.encode(_, "UTF-8")`. */
    const encode: string -> string
    /** The memoised header collection; None until the first `getHeaders`. */
    var headers: Option<HeaderMap>

    constructor(request: PortletRequest, codec: MediaCodec, encode: string -> string)
      ensures this.request == request && this.codec == codec && this.encode == encode
      ensures headers.None?
    {
      this.request := request;
      this.codec := codec;
      this.encode := encode;
      headers := None;
    }

    /**
     * `getHeaders`: the first call derives the collection and memoises it (memoised even when a
     * step fails, as far as it got); later calls return the memoised collection unchanged.
     */
    method GetHeaders() returns (r: Result<HeaderMap, Failure>)
      modifies this
      ensures old(headers).Some? ==> headers == old(headers) && r == Ok(old(headers).value)
      ensures old(headers).None? ==>
        headers == Some(Derive(request, codec).headers) && r == Outcome(Derive(request, codec))
    {
      if headers.Some? {
        return Ok(headers.value);
      }
      var h := CopyProperties(request.properties);
      headers := Some(h);
      var containerType, encoding, length := None, None, -1;
      if request.clientData.Some? {
        containerType := request.clientData.value.contentType;
        encoding := request.clientData.value.characterEncoding;
        length := request.clientData.value.contentLength;
      }

      var current := ContentTypeOf(h, codec);
      if current.Err? {
        return Err(current.error);
      }
      if current.value.None? && containerType.Some? {
        var parsed := codec.parse(containerType.value);
        if parsed.None? {
          return Err(InvalidMediaType(containerType.value));
        }
        h := Set(h, ContentType, codec.format(parsed.value));
        headers := Some(h);
      }

      current := ContentTypeOf(h, codec);
      if current.Err? {
        return Err(current.error);
      }
      if current.value.Some? && CharsetParameter !in current.value.value.parameters && encoding.Some? {
        var charset := codec.charsetName(encoding.value);
        if charset.None? {
          return Err(UnsupportedCharset(encoding.value));
        }
        h := Set(h, ContentType, codec.format(WithCharset(current.value.value, charset.value)));
        headers := Some(h);
      }

      var declared := ContentLengthOf(h);
      if declared.Err? {
        return Err(declared.error);
      }
      if declared.value == -1 && length != -1 {
        h := Set(h, ContentLength, Decimal.Format(length));
        headers := Some(h);
      }
      r := Ok(h);
    }

    /**
     * `getBody`: refused without a client-data facet; the reconstructed body for a form post;
     * otherwise the container's input stream.
     */
    method GetBody() returns (r: Result<RequestBody, Failure>)
      ensures request.clientData.None? ==> r == Err(Unsupported("getBody"))
      ensures request.clientData.Some? && IsFormPost(request.clientData.value) ==>
        r == Ok(ReconstructedForm(FormBody.Body(encode, request.clientData.value.parameters)))
      ensures request.clientData.Some? && !IsFormPost(request.clientData.value) ==> r == Ok(PortletInputStream)
    {
      if request.clientData.None? {
        return Err(Unsupported("getBody"));
      }
      var data := request.clientData.value;
      if IsFormPost(data) {
        var content := FormBody.BodyFromParameters(data.parameters, encode);
        r := Ok(ReconstructedForm(content));
      } else {
        r := Ok(PortletInputStream);
      }
    }
  }

  /** The property loops of `getHeaders`: every value of every property, added in enumeration order. */
  method CopyProperties(properties: seq<(string, seq<string>)>) returns (h: HeaderMap)
    ensures h == PropertyHeaders(properties)
    ensures forall n :: Values(h, n) == PropertyValues(properties, n)
  {
    h := [];
    var i := 0;
    while i < |properties|
      invariant 0 <= i <= |properties|
      invariant h == AddPropertiesUpTo(properties, i)
    {
      h := AddValues(h, properties[i].0, properties[i].1);
      i := i + 1;
    }
    PropertiesCopied(properties);
  }

  /** The inner property loop: every value of one property, in enumeration order. */
  method AddValues(start: HeaderMap, name: string, values: seq<string>) returns (h: HeaderMap)
    ensures h == AddValuesUpTo(start, name, values, |values|)
  {
    h := start;
    var j := 0;
    while j < |values|
      invariant 0 <= j <= |values|
      invariant h == AddValuesUpTo(start, name, values, j)
    {
      h := Add(h, name, values[j]);
      j := j + 1;
    }
  }

  /**
   * A first `getHeaders` that fails leaves its partial collection memoised: the second call
   * returns that collection without failing.
   */
  method FailureIsMemoised(adapter: PortletServerHttpRequest) returns (first: Result<HeaderMap, Failure>, second: Result<HeaderMap, Failure>)
    requires adapter.headers.None?
    modifies adapter
    ensures first == Outcome(Derive(adapter.request, adapter.codec))
    ensures second == Ok(Derive(adapter.request, adapter.codec).headers)
  {
    first := adapter.GetHeaders();
    second := adapter.GetHeaders();
  }
}
