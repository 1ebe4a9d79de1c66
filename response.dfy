/**
 * `PortletServerHttpResponse`: a portlet response seen as a Spring `ServerHttpResponse`.
 *
 * The headers collect in the adapter until the first `getBody`, `flush` or `close`, which commits
 * them to the portlet response once; after that the adapter hands out only a read-only view.
 * The portlet response is a class that records the calls it receives, in order.
 */
module PortletResponseAdapter {
  import opened Wrappers
  import Decimal
  import opened Headers

  /** `ResourceResponse.HTTP_STATUS_CODE`. */
  const HttpStatusCodeProperty: string := "portlet.http-status-code"

  /**
   * The portlet response types: `ResourceResponse` and `RenderResponse` are `MimeResponse`s,
   * action and event responses (`StateAwareResponse`) are not.
   */
  datatype ResponseKind = Resource | Render | StateAware

  predicate IsMime(kind: ResponseKind)
  {
    kind == Resource || kind == Render
  }

  /** A call the adapter makes on the portlet response. */
  datatype ContainerCall =
    | SetProperty(key: string, value: string)
    | SetContentLength(length: Decimal.Int32)
    | SetContentType(contentType: string)
    | GetPortletOutputStream
    | FlushBuffer

  /** The content type a sequence of calls leaves, starting from `initial`. */
  function TypeAfter(initial: Option<string>, calls: seq<ContainerCall>): Option<string>
    decreases |calls|
  {
    if calls == [] then initial
    else
      var last := calls[|calls| - 1];
      if last.SetContentType? then Some(last.contentType) else TypeAfter(initial, calls[..|calls| - 1])
  }

  /** The portlet response: its kind, the content type it reports, and the calls made on it. */
  class PortletResponse {
    const kind: ResponseKind
    var contentType: Option<string>
    var calls: seq<ContainerCall>

    constructor(kind: ResponseKind, contentType: Option<string>)
      ensures this.kind == kind && this.contentType == contentType && calls == []
    {
      this.kind := kind;
      this.contentType := contentType;
      calls := [];
    }

    method SetProperty(key: string, value: string)
      modifies this
      ensures calls == old(calls) + [ContainerCall.SetProperty(key, value)]
      ensures contentType == old(contentType)
    {
      calls := calls + [ContainerCall.SetProperty(key, value)];
    }

    /** `ResourceResponse.setContentLength`. */
    method SetContentLength(length: Decimal.Int32)
      requires kind == Resource
      modifies this
      ensures calls == old(calls) + [ContainerCall.SetContentLength(length)]
      ensures contentType == old(contentType)
    {
      calls := calls + [ContainerCall.SetContentLength(length)];
    }

    /** `MimeResponse.setContentType`: the response reports the new type from then on. */
    method SetContentType(t: string)
      requires IsMime(kind)
      modifies this
      ensures calls == old(calls) + [ContainerCall.SetContentType(t)]
      ensures contentType == Some(t)
    {
      calls := calls + [ContainerCall.SetContentType(t)];
      contentType := Some(t);
    }

    method GetPortletOutputStream()
      requires IsMime(kind)
      modifies this
      ensures calls == old(calls) + [ContainerCall.GetPortletOutputStream]
      ensures contentType == old(contentType)
    {
      calls := calls + [ContainerCall.GetPortletOutputStream];
    }

    method FlushBuffer()
      requires IsMime(kind)
      modifies this
      ensures calls == old(calls) + [ContainerCall.FlushBuffer]
      ensures contentType == old(contentType)
    {
      calls := calls + [ContainerCall.FlushBuffer];
    }
  }

  // ---------------------------------------------------------------------------------------------
  // The specification of writing the headers

  /**
   * Where one header value goes: a Content-Length value on a resource response becomes the
   * response's content length (`Integer.valueOf`, which fails on text that is no `int`); every
   * other value, Content-Length on other responses included, becomes a property.
   */
  function Route(kind: ResponseKind, name: string, value: string): Result<ContainerCall, Failure>
  {
    if name == ContentLength && kind == Resource then
      match Decimal.ParseInt(value)
      case Some(n) => Ok(ContainerCall.SetContentLength(n))
      case None => Err(NumberFormat(value))
    else Ok(ContainerCall.SetProperty(name, value))
  }

  /** The calls made for a run of header values, and the failure that stopped it, if one did. */
  datatype Commit = Commit(calls: seq<ContainerCall>, failure: Option<Failure>)

  /** Routing the first `k` pairs in order, stopping at the first that fails. */
  function RouteUpTo(kind: ResponseKind, pairs: seq<(string, string)>, k: nat): Commit
    requires k <= |pairs|
    decreases k
  {
    if k == 0 then Commit([], None)
    else
      var done := RouteUpTo(kind, pairs, k - 1);
      if done.failure.Some? then done
      else
        match Route(kind, pairs[k - 1].0, pairs[k - 1].1)
        case Ok(call) => Commit(done.calls + [call], None)
        case Err(f) => Commit(done.calls, Some(f))
  }

  /**
   * The content-type step: a MIME response that reports no content type of its own is given the
   * headers' content type, printed by the media-type library; reading it fails on text that does
   * not parse.
   */
  function ContentTypeCalls(kind: ResponseKind, containerType: Option<string>, h: HeaderMap, codec: MediaCodec)
    : Result<seq<ContainerCall>, Failure>
  {
    if !IsMime(kind) || containerType.Some? then Ok([])
    else
      match ContentTypeOf(h, codec)
      case Err(f) => Err(f)
      case Ok(None) => Ok([])
      case Ok(Some(m)) => Ok([ContainerCall.SetContentType(codec.format(m))])
  }

  /** Everything the first commit of `h` does to the portlet response. */
  function CommitPlan(kind: ResponseKind, containerType: Option<string>, h: HeaderMap, codec: MediaCodec): Commit
  {
    var pairs := Flatten(h);
    var routed := RouteUpTo(kind, pairs, |pairs|);
    if routed.failure.Some? then routed
    else
      match ContentTypeCalls(kind, containerType, h, codec)
      case Err(f) => Commit(routed.calls, Some(f))
      case Ok(more) => Commit(routed.calls + more, None)
  }

  /** What a call to `writeHeaders` does: nothing once the headers are written. */
  function WriteOutcome(kind: ResponseKind, containerType: Option<string>, h: HeaderMap, written: bool, codec: MediaCodec): Commit
  {
    if written then Commit([], None) else CommitPlan(kind, containerType, h, codec)
  }

  // ---------------------------------------------------------------------------------------------
  // Properties of the commit

  /**
   * Routing a run of pairs makes one call per pair, in order, each the pair's route, up to the
   * first pair whose route fails; that failure is the run's.
   */
  lemma {:induction false} RoutedInOrder(kind: ResponseKind, pairs: seq<(string, string)>, k: nat)
    requires k <= |pairs|
    ensures |RouteUpTo(kind, pairs, k).calls| <= k
    ensures forall i :: 0 <= i < |RouteUpTo(kind, pairs, k).calls| ==>
      Route(kind, pairs[i].0, pairs[i].1) == Ok(RouteUpTo(kind, pairs, k).calls[i])
    ensures RouteUpTo(kind, pairs, k).failure.None? ==> |RouteUpTo(kind, pairs, k).calls| == k
    ensures RouteUpTo(kind, pairs, k).failure.Some? ==>
      var stop := |RouteUpTo(kind, pairs, k).calls|;
      stop < k && Route(kind, pairs[stop].0, pairs[stop].1) == Err(RouteUpTo(kind, pairs, k).failure.value)
    decreases k
  {
    if k > 0 {
      RoutedInOrder(kind, pairs, k - 1);
    }
  }

  /** One more pair, routed after a run that has not failed: its call is appended, or its failure recorded. */
  lemma RouteStep(kind: ResponseKind, pairs: seq<(string, string)>, k: nat)
    requires k < |pairs|
    requires RouteUpTo(kind, pairs, k).failure.None?
    ensures var r := Route(kind, pairs[k].0, pairs[k].1);
      RouteUpTo(kind, pairs, k + 1)
        == if r.Ok? then Commit(RouteUpTo(kind, pairs, k).calls + [r.value], None)
           else Commit(RouteUpTo(kind, pairs, k).calls, Some(r.error))
  {
  }

  /** The number of values in the first `i` entries: where entry `i`'s pairs start. */
  function Offset(h: HeaderMap, i: nat): nat
    requires i <= |h|
    decreases i
  {
    if i == 0 then 0 else Offset(h, i - 1) + |h[i - 1].1|
  }

  lemma {:induction false} OffsetIsFlattenLength(h: HeaderMap, i: nat)
    requires i <= |h|
    ensures Offset(h, i) == |FlattenUpTo(h, i)|
    decreases i
  {
    if i > 0 {
      OffsetIsFlattenLength(h, i - 1);
    }
  }

  /**
   * Entry `i`'s pairs sit in the flattened collection right after those of the entries before it,
   * at positions `Offset(h, i)` to `Offset(h, i + 1)`.
   */
  lemma EntryBounds(h: HeaderMap, i: nat, pairs: seq<(string, string)>)
    requires i < |h| && pairs == Flatten(h)
    ensures Offset(h, i + 1) <= |pairs|
    ensures forall j :: 0 <= j < |h[i].1| ==> pairs[Offset(h, i) + j] == (h[i].0, h[i].1[j])
  {
    OffsetIsFlattenLength(h, i);
    OffsetIsFlattenLength(h, i + 1);
    FlattenUpToPrefix(h, i + 1, |h|);
    forall j | 0 <= j < |h[i].1|
      ensures pairs[Offset(h, i) + j] == (h[i].0, h[i].1[j])
    {
      FlattenPosition(h, i, j);
    }
  }

  /** Once a pair fails, routing more pairs changes nothing. */
  lemma {:induction false} RoutingStops(kind: ResponseKind, pairs: seq<(string, string)>, k: nat, n: nat)
    requires k <= n <= |pairs|
    requires RouteUpTo(kind, pairs, k).failure.Some?
    ensures RouteUpTo(kind, pairs, n) == RouteUpTo(kind, pairs, k)
    decreases n
  {
    if n > k {
      RoutingStops(kind, pairs, k, n - 1);
    }
  }

  /** A commit without failure routes every header value, in order, then sets the content type. */
  lemma CommitRoutesEveryValue(kind: ResponseKind, containerType: Option<string>, h: HeaderMap, codec: MediaCodec)
    ensures var plan, pairs := CommitPlan(kind, containerType, h, codec), Flatten(h);
      plan.failure.None? ==>
        |pairs| <= |plan.calls|
        && (forall i :: 0 <= i < |pairs| ==> Route(kind, pairs[i].0, pairs[i].1) == Ok(plan.calls[i]))
        && plan.calls[|pairs|..] == ContentTypeCalls(kind, containerType, h, codec).value
  {
    var pairs := Flatten(h);
    RoutedInOrder(kind, pairs, |pairs|);
    var plan := CommitPlan(kind, containerType, h, codec);
    if plan.failure.None? {
      assert plan.calls == RouteUpTo(kind, pairs, |pairs|).calls + ContentTypeCalls(kind, containerType, h, codec).value;
    }
  }

  /**
   * On a resource response no Content-Length value is ever sent as a property: each becomes the
   * response's content length.
   */
  lemma ResourceLengthNeverAProperty(containerType: Option<string>, h: HeaderMap, codec: MediaCodec)
    ensures forall c :: c in CommitPlan(Resource, containerType, h, codec).calls ==>
      !(c.SetProperty? && c.key == ContentLength)
  {
    var pairs := Flatten(h);
    RoutedInOrder(Resource, pairs, |pairs|);
    var routed := RouteUpTo(Resource, pairs, |pairs|);
    forall c | c in routed.calls ensures !(c.SetProperty? && c.key == ContentLength) {
      var i :| 0 <= i < |routed.calls| && routed.calls[i] == c;
      assert Route(Resource, pairs[i].0, pairs[i].1) == Ok(c);
    }
  }

  /**
   * On any other response every header value, Content-Length included, is sent as a property, no
   * content length is set, and only an unreadable content type can make the commit fail.
   */
  lemma OtherResponsesSendProperties(kind: ResponseKind, containerType: Option<string>, h: HeaderMap, codec: MediaCodec)
    requires kind != Resource
    ensures var plan, pairs := CommitPlan(kind, containerType, h, codec), Flatten(h);
      && (plan.failure.Some? ==> plan.failure.value.InvalidMediaType?)
      && |pairs| <= |plan.calls|
      && (forall i :: 0 <= i < |pairs| ==> plan.calls[i] == ContainerCall.SetProperty(pairs[i].0, pairs[i].1))
      && (forall c :: c in plan.calls ==> !c.SetContentLength?)
  {
    var pairs := Flatten(h);
    RoutedInOrder(kind, pairs, |pairs|);
    var routed := RouteUpTo(kind, pairs, |pairs|);
    assert routed.failure.None?;
  }

  /**
   * A MIME response that reports no content type gets the headers' content type as the last
   * call of a successful commit; one that reports its own never gets a content type from the headers.
   */
  lemma ContentTypeCommitted(kind: ResponseKind, containerType: Option<string>, h: HeaderMap, codec: MediaCodec, m: MediaType)
    requires ContentTypeOf(h, codec) == Ok(Some(m))
    ensures var plan := CommitPlan(kind, containerType, h, codec);
      && (IsMime(kind) && containerType.None? && plan.failure.None? ==>
            plan.calls[|plan.calls| - 1] == ContainerCall.SetContentType(codec.format(m)))
      && (containerType.Some? || !IsMime(kind) ==> forall c :: c in plan.calls ==> !c.SetContentType?)
  {
    var pairs := Flatten(h);
    RoutedInOrder(kind, pairs, |pairs|);
    var routed := RouteUpTo(kind, pairs, |pairs|);
    forall c | c in routed.calls ensures !c.SetContentType? {
      var i :| 0 <= i < |routed.calls| && routed.calls[i] == c;
      assert Route(kind, pairs[i].0, pairs[i].1) == Ok(c);
    }
  }

  /**
   * Headers without a content type give the response none: the commit makes no `setContentType`
   * call, and a successful commit makes only the routing calls.
   */
  lemma NoContentTypeNotCommitted(kind: ResponseKind, containerType: Option<string>, h: HeaderMap, codec: MediaCodec)
    requires Values(h, ContentType) == []
    ensures forall c :: c in CommitPlan(kind, containerType, h, codec).calls ==> !c.SetContentType?
    ensures CommitPlan(kind, containerType, h, codec).failure.None? ==>
      CommitPlan(kind, containerType, h, codec).calls == RouteUpTo(kind, Flatten(h), |Flatten(h)|).calls
  {
    var pairs := Flatten(h);
    RoutedInOrder(kind, pairs, |pairs|);
    var routed := RouteUpTo(kind, pairs, |pairs|);
    forall c | c in routed.calls ensures !c.SetContentType? {
      var i :| 0 <= i < |routed.calls| && routed.calls[i] == c;
      assert Route(kind, pairs[i].0, pairs[i].1) == Ok(c);
    }
    assert routed.failure.None? ==> CommitPlan(kind, containerType, h, codec).calls == routed.calls + [];
  }

  /** `Content-Length: 42` becomes `setContentLength(42)` on a resource response, a property elsewhere. */
  lemma ContentLengthExample(codec: MediaCodec)
    ensures CommitPlan(Resource, None, [(ContentLength, ["42"])], codec) == Commit([ContainerCall.SetContentLength(42)], None)
    ensures CommitPlan(Render, None, [(ContentLength, ["42"])], codec)
         == Commit([ContainerCall.SetProperty(ContentLength, "42")], None)
    ensures CommitPlan(Resource, None, [(ContentLength, ["4x2"])], codec) == Commit([], Some(NumberFormat("4x2")))
  {
    var h: HeaderMap := [(ContentLength, ["42"])];
    assert Flatten(h) == [] + Tagged(ContentLength, ["42"]);
    assert Flatten(h) == [(ContentLength, "42")];
    assert Decimal.DigitsValue("42") == 42 by {
      assert "42"[..1] == "4" && "4"[..0] == [];
    }
    assert Decimal.ParseInt("42") == Some(42);
    assert Route(Resource, ContentLength, "42") == Ok(ContainerCall.SetContentLength(42));
    assert Values(h, ContentType) == [] by {
      assert h[1..] == [];
    }
    assert ContentTypeCalls(Resource, None, h, codec) == Ok([]);
    assert ContentTypeCalls(Render, None, h, codec) == Ok([]);
    assert RouteUpTo(Resource, Flatten(h), 1) == Commit([] + [ContainerCall.SetContentLength(42)], None);
    var bad: HeaderMap := [(ContentLength, ["4x2"])];
    assert Flatten(bad) == [] + Tagged(ContentLength, ["4x2"]);
    assert Flatten(bad) == [(ContentLength, "4x2")];
    assert !Decimal.IsDigit("4x2"[1]);
  }

  // ---------------------------------------------------------------------------------------------
  // The adapter

  /** What `getHeaders` hands out: the live collection, or a read-only view of it once written. */
  datatype HeadersView = HeadersView(entries: HeaderMap, readOnly: bool)

  /** What `getBody` hands back. */
  datatype ResponseBody = PortletOutputStream

  class PortletServerHttpResponse {
    const response: PortletResponse
    /** The media-type library. */
    const codec: MediaCodec
    var headers: HeaderMap
    var headersWritten: bool

    constructor(response: PortletResponse, codec: MediaCodec)
      ensures this.response == response && this.codec == codec
      ensures headers == [] && !headersWritten
    {
      this.response := response;
      this.codec := codec;
      headers := [];
      headersWritten := false;
    }

    /** `setStatusCode`: a resource response gets the code as the status property; others ignore it. */
    method SetStatusCode(status: Decimal.Int32)
      modifies response
      ensures response.kind == Resource ==>
        response.calls == old(response.calls) + [ContainerCall.SetProperty(HttpStatusCodeProperty, Decimal.Format(status))]
      ensures response.kind != Resource ==> response.calls == old(response.calls)
      ensures response.contentType == old(response.contentType)
    {
      if response.kind == Resource {
        response.SetProperty(HttpStatusCodeProperty, Decimal.Format(status));
      }
    }

    /** `getHeaders`: the collection itself until the headers are written, then a read-only view. */
    method GetHeaders() returns (view: HeadersView)
      ensures view.entries == headers
      ensures view.readOnly <==> headersWritten
    {
      view := HeadersView(headers, headersWritten);
    }

    /** `add` through the view `getHeaders` hands out: refused once the headers are written. */
    method AddHeader(name: string, value: string) returns (r: Result<(), Failure>)
      modifies this
      ensures old(headersWritten) ==> r == Err(ReadOnlyHeaders) && headers == old(headers)
      ensures !old(headersWritten) ==> r == Ok(()) && headers == Add(old(headers), name, value)
      ensures headersWritten == old(headersWritten)
    {
      if headersWritten {
        return Err(ReadOnlyHeaders);
      }
      headers := Add(headers, name, value);
      r := Ok(());
    }

    /** `set` through the view `getHeaders` hands out: refused once the headers are written. */
    method SetHeader(name: string, value: string) returns (r: Result<(), Failure>)
      modifies this
      ensures old(headersWritten) ==> r == Err(ReadOnlyHeaders) && headers == old(headers)
      ensures !old(headersWritten) ==> r == Ok(()) && headers == Set(old(headers), name, value)
      ensures headersWritten == old(headersWritten)
    {
      if headersWritten {
        return Err(ReadOnlyHeaders);
      }
      headers := Set(headers, name, value);
      r := Ok(());
    }

    /**
     * `writeHeaders`: the first successful call commits the headers (values in order, then the
     * content type) and latches; a failing call leaves the calls made so far and does not latch;
     * once latched it does nothing.
     */
    method WriteHeaders() returns (r: Result<(), Failure>)
      modifies this, response
      ensures var w := WriteOutcome(response.kind, old(response.contentType), old(headers), old(headersWritten), codec);
        && response.calls == old(response.calls) + w.calls
        && response.contentType == TypeAfter(old(response.contentType), w.calls)
        && r == (if w.failure.Some? then Err(w.failure.value) else Ok(()))
        && headersWritten == (old(headersWritten) || w.failure.None?)
      ensures headers == old(headers)
    {
      if headersWritten {
        return Ok(());
      }
      var h := headers;
      ghost var base := response.calls;
      ghost var pairs := Flatten(h);
      var failure := RouteHeaders(h, base);
      ghost var routed := RouteUpTo(response.kind, pairs, |pairs|);
      TypeAfterSkipsRouted(response.kind, pairs, old(response.contentType), |pairs|);
      if failure.Some? {
        return Err(failure.value);
      }
      if IsMime(response.kind) && response.contentType.None? {
        var current := ContentTypeOf(h, codec);
        if current.Err? {
          return Err(current.error);
        }
        if current.value.Some? {
          response.SetContentType(codec.format(current.value.value));
          assert TypeAfter(old(response.contentType), routed.calls + [ContainerCall.SetContentType(codec.format(current.value.value))])
              == Some(codec.format(current.value.value));
        } else {
          assert routed.calls + [] == routed.calls;
        }
      } else {
        assert routed.calls + [] == routed.calls;
      }
      headersWritten := true;
      r := Ok(());
    }

    /** The loops of `writeHeaders`: every value of every entry routed in order, stopping at a failure. */
    method RouteHeaders(h: HeaderMap, ghost base: seq<ContainerCall>) returns (failure: Option<Failure>)
      requires response.calls == base
      modifies response
      ensures response.calls == base + RouteUpTo(response.kind, Flatten(h), |Flatten(h)|).calls
      ensures failure == RouteUpTo(response.kind, Flatten(h), |Flatten(h)|).failure
      ensures response.contentType == old(response.contentType)
    {
      ghost var pairs := Flatten(h);
      var i := 0;
      while i < |h|
        invariant 0 <= i <= |h|
        invariant Offset(h, i) <= |pairs|
        invariant response.calls == base + RouteUpTo(response.kind, pairs, Offset(h, i)).calls
        invariant RouteUpTo(response.kind, pairs, Offset(h, i)).failure.None?
        invariant response.contentType == old(response.contentType)
      {
        EntryBounds(h, i, pairs);
        failure := RouteEntry(h[i].0, h[i].1, pairs, Offset(h, i), base);
        if failure.Some? {
          return;
        }
        i := i + 1;
      }
      OffsetIsFlattenLength(h, |h|);
      return None;
    }

    /**
     * The inner loop of `writeHeaders`: the values of one entry, which sit at positions `start` on
     * in the flattened `pairs`, routed in order until one fails.
     */
    method RouteEntry(name: string, values: seq<string>, ghost pairs: seq<(string, string)>, ghost start: nat,
                      ghost base: seq<ContainerCall>) returns (failure: Option<Failure>)
      requires start + |values| <= |pairs|
      requires forall j :: 0 <= j < |values| ==> pairs[start + j] == (name, values[j])
      requires RouteUpTo(response.kind, pairs, start).failure.None?
      requires response.calls == base + RouteUpTo(response.kind, pairs, start).calls
      modifies response
      ensures failure.None? ==>
        RouteUpTo(response.kind, pairs, start + |values|).failure.None?
        && response.calls == base + RouteUpTo(response.kind, pairs, start + |values|).calls
      ensures failure.Some? ==>
        response.calls == base + RouteUpTo(response.kind, pairs, |pairs|).calls
        && failure == RouteUpTo(response.kind, pairs, |pairs|).failure
      ensures response.contentType == old(response.contentType)
    {
      var j := 0;
      while j < |values|
        invariant 0 <= j <= |values|
        invariant RouteUpTo(response.kind, pairs, start + j).failure.None?
        invariant response.calls == base + RouteUpTo(response.kind, pairs, start + j).calls
        invariant response.contentType == old(response.contentType)
      {
        var value := values[j];
        assert pairs[start + j] == (name, value);
        RouteStep(response.kind, pairs, start + j);
        failure := RouteValue(name, value);
        if failure.Some? {
          RoutingStops(response.kind, pairs, start + j + 1, |pairs|);
          return;
        }
        j := j + 1;
      }
      failure := None;
    }

    /**
     * One value of the inner loop: a resource response's Content-Length goes to `setContentLength`,
     * failing on text that is no `int`; every other value becomes a property.
     */
    method RouteValue(name: string, value: string) returns (failure: Option<Failure>)
      modifies response
      ensures var r := Route(response.kind, name, value);
        && (r.Ok? ==> failure.None? && response.calls == old(response.calls) + [r.value])
        && (r.Err? ==> failure == Some(r.error) && response.calls == old(response.calls))
      ensures response.contentType == old(response.contentType)
    {
      if name == ContentLength && response.kind == Resource {
        var length := Decimal.ParseInt(value);
        if length.None? {
          return Some(NumberFormat(value));
        }
        response.SetContentLength(length.value);
      } else {
        response.SetProperty(name, value);
      }
      failure := None;
    }

    /** `getBody`: write the headers, then the output stream of a MIME response; refused otherwise. */
    method GetBody() returns (r: Result<ResponseBody, Failure>)
      modifies this, response
      ensures var w := WriteOutcome(response.kind, old(response.contentType), old(headers), old(headersWritten), codec);
        && headersWritten == (old(headersWritten) || w.failure.None?)
        && (w.failure.Some? ==> r == Err(w.failure.value) && response.calls == old(response.calls) + w.calls)
        && (w.failure.None? && IsMime(response.kind) ==>
              r == Ok(PortletOutputStream)
              && response.calls == old(response.calls) + w.calls + [ContainerCall.GetPortletOutputStream])
        && (w.failure.None? && !IsMime(response.kind) ==>
              r == Err(Unsupported("getBody")) && response.calls == old(response.calls) + w.calls)
      ensures headers == old(headers)
    {
      var written := WriteHeaders();
      if written.Err? {
        return Err(written.error);
      }
      if IsMime(response.kind) {
        response.GetPortletOutputStream();
        return Ok(PortletOutputStream);
      }
      r := Err(Unsupported("getBody"));
    }

    /** `flush`: write the headers, then flush a MIME response's buffer. */
    method Flush() returns (r: Result<(), Failure>)
      modifies this, response
      ensures var w := WriteOutcome(response.kind, old(response.contentType), old(headers), old(headersWritten), codec);
        && headersWritten == (old(headersWritten) || w.failure.None?)
        && r == (if w.failure.Some? then Err(w.failure.value) else Ok(()))
        && response.calls == old(response.calls) + w.calls
             + (if w.failure.None? && IsMime(response.kind) then [ContainerCall.FlushBuffer] else [])
      ensures headers == old(headers)
    {
      r := WriteHeaders();
      if r.Ok? && IsMime(response.kind) {
        response.FlushBuffer();
      }
    }

    /** `close`: write the headers. */
    method Close() returns (r: Result<(), Failure>)
      modifies this, response
      ensures var w := WriteOutcome(response.kind, old(response.contentType), old(headers), old(headersWritten), codec);
        && headersWritten == (old(headersWritten) || w.failure.None?)
        && r == (if w.failure.Some? then Err(w.failure.value) else Ok(()))
        && response.calls == old(response.calls) + w.calls
      ensures headers == old(headers)
    {
      r := WriteHeaders();
    }
  }

  /** The routed calls never set a content type, so the response's content type is unaffected by them. */
  lemma {:induction false} TypeAfterSkipsRouted(kind: ResponseKind, pairs: seq<(string, string)>, initial: Option<string>, k: nat)
    requires k <= |pairs|
    ensures TypeAfter(initial, RouteUpTo(kind, pairs, k).calls) == initial
    decreases k
  {
    if k > 0 {
      TypeAfterSkipsRouted(kind, pairs, initial, k - 1);
      TypeAfterRouteStep(kind, pairs, initial, k);
    }
  }

  /** Routing one more pair adds at most a call that is not a content type. */
  lemma TypeAfterRouteStep(kind: ResponseKind, pairs: seq<(string, string)>, initial: Option<string>, k: nat)
    requires 0 < k <= |pairs|
    requires TypeAfter(initial, RouteUpTo(kind, pairs, k - 1).calls) == initial
    ensures TypeAfter(initial, RouteUpTo(kind, pairs, k).calls) == initial
  {
    var done := RouteUpTo(kind, pairs, k - 1);
    if done.failure.None? {
      match Route(kind, pairs[k - 1].0, pairs[k - 1].1)
      case Ok(call) =>
        assert !call.SetContentType?;
        var calls := done.calls + [call];
        assert calls[..|calls| - 1] == done.calls;
      case Err(_) =>
    }
  }

  /** Closing twice: the second close finds the headers written and makes no call. */
  method CloseTwice(adapter: PortletServerHttpResponse) returns (first: Result<(), Failure>, second: Result<(), Failure>)
    modifies adapter, adapter.response
    ensures first.Ok? ==> second.Ok? && adapter.headersWritten
    ensures first.Ok? ==>
      adapter.response.calls
        == old(adapter.response.calls)
           + WriteOutcome(adapter.response.kind, old(adapter.response.contentType), old(adapter.headers),
                          old(adapter.headersWritten), adapter.codec).calls
  {
    first := adapter.Close();
    second := adapter.Close();
  }

  /**
   * After a successful close, `getHeaders` hands out the headers held before the commit as a
   * read-only view, and adding a header through it is refused with the headers left as they were.
   */
  method HeadersReadOnlyAfterClose(adapter: PortletServerHttpResponse, name: string, value: string)
    returns (closed: Result<(), Failure>, view: HeadersView, added: Result<(), Failure>)
    modifies adapter, adapter.response
    ensures closed.Ok? ==> view.readOnly && view.entries == old(adapter.headers)
    ensures closed.Ok? ==> added == Err(ReadOnlyHeaders) && adapter.headers == old(adapter.headers)
    ensures closed.Err? && !old(adapter.headersWritten) ==>
      !view.readOnly && added == Ok(()) && adapter.headers == Add(old(adapter.headers), name, value)
  {
    closed := adapter.Close();
    view := adapter.GetHeaders();
    added := adapter.AddHeader(name, value);
  }
}
