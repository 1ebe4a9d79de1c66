/**
 * The header collection both adapters work on (Spring's `HttpHeaders`), as an ordered list of
 * entries `(name, values)` in insertion order, plus the media type and the parsers that the
 * adapters call but do not implement.
 *
 * Names are compared exactly; the collection's case-insensitive lookup is not part of this model.
 */
module Headers {
  import opened Wrappers
  import Decimal

  const ContentType: string := "Content-Type"
  const ContentLength: string := "Content-Length"

  /** Entries in iteration order; each entry carries the values added under its name, in order. */
  type HeaderMap = seq<(string, seq<string>)>

  /** A media type: type, subtype and parameters such as `charset`. */
  datatype MediaType = MediaType(mainType: string, subtype: string, parameters: map<string, string>)

  /**
   * The library calls the adapters depend on, left opaque: `MediaType.parseMediaType` (None where it
   * throws), `MediaType.toString`, and `Charset.forName(name).toString()` (None where it throws).
   */
  datatype MediaCodec = MediaCodec(
    parse: string -> Option<MediaType>,
    format: MediaType -> string,
    charsetName: string -> Option<string>)

  /** What the media-type library is relied on for: parsing what it printed gives the type back. */
  ghost predicate FormatRoundTrips(codec: MediaCodec) {
    forall m :: codec.parse(codec.format(m)) == Some(m)
  }

  /** The exceptions the two adapters can raise. */
  datatype Failure =
    | Unsupported(operation: string)
    | InvalidMediaType(mediaType: string)
    | UnsupportedCharset(charsetName: string)
    | NumberFormat(text: string)
    | NoEnumConstant(constant: string)
    | ReadOnlyHeaders

  function Names(h: HeaderMap): seq<string>
  {
    seq(|h|, i requires 0 <= i < |h| => h[i].0)
  }

  /** The values stored under `name` (`HttpHeaders.get`), empty when there is no such entry. */
  function Values(h: HeaderMap, name: string): seq<string>
  {
    if h == [] then [] else if h[0].0 == name then h[0].1 else Values(h[1..], name)
  }

  /** `HttpHeaders.getFirst`. */
  function First(h: HeaderMap, name: string): (r: Option<string>)
    ensures r.Some? <==> Values(h, name) != []
    ensures r.Some? ==> r.value == Values(h, name)[0]
  {
    var vs := Values(h, name);
    if vs == [] then None else Some(vs[0])
  }

  /** `HttpHeaders.add`: the value goes after the ones already stored under the name. */
  function Add(h: HeaderMap, name: string, value: string): HeaderMap
  {
    if h == [] then [(name, [value])]
    else if h[0].0 == name then [(name, h[0].1 + [value])] + h[1..]
    else [h[0]] + Add(h[1..], name, value)
  }

  /** Adding appends the value under its name, leaves every other name alone, and adds a new name last. */
  lemma AddAppendsValue(h: HeaderMap, name: string, value: string)
    ensures forall n :: Values(Add(h, name, value), n) == Values(h, n) + (if n == name then [value] else [])
    ensures Names(Add(h, name, value)) == if name in Names(h) then Names(h) else Names(h) + [name]
  {
    AddValues(h, name, value);
    AddNames(h, name, value);
  }

  lemma {:induction false} AddValues(h: HeaderMap, name: string, value: string)
    ensures forall n :: Values(Add(h, name, value), n) == Values(h, n) + (if n == name then [value] else [])
    decreases |h|
  {
    if h != [] && h[0].0 != name {
      AddValues(h[1..], name, value);
    }
  }

  lemma {:induction false} AddNames(h: HeaderMap, name: string, value: string)
    ensures Names(Add(h, name, value)) == if name in Names(h) then Names(h) else Names(h) + [name]
    decreases |h|
  {
    var r := Add(h, name, value);
    if h == [] {
    } else if h[0].0 == name {
      assert Names(h)[0] == name && Names(r) == Names(h);
    } else {
      AddNames(h[1..], name, value);
      assert Names(h) == [h[0].0] + Names(h[1..]);
      assert Names(r) == [h[0].0] + Names(Add(h[1..], name, value));
    }
  }

  /** `HttpHeaders.set`: the name's values are replaced by the one value, in the entry's place. */
  function Set(h: HeaderMap, name: string, value: string): HeaderMap
  {
    if h == [] then [(name, [value])]
    else if h[0].0 == name then [(name, [value])] + h[1..]
    else [h[0]] + Set(h[1..], name, value)
  }

  /** Setting replaces the name's values by the one value and leaves every other name alone. */
  lemma SetReplacesValues(h: HeaderMap, name: string, value: string)
    ensures forall n :: Values(Set(h, name, value), n) == if n == name then [value] else Values(h, n)
    ensures Names(Set(h, name, value)) == if name in Names(h) then Names(h) else Names(h) + [name]
  {
    SetValues(h, name, value);
    SetNames(h, name, value);
  }

  lemma {:induction false} SetValues(h: HeaderMap, name: string, value: string)
    ensures forall n :: Values(Set(h, name, value), n) == if n == name then [value] else Values(h, n)
    decreases |h|
  {
    if h != [] && h[0].0 != name {
      SetValues(h[1..], name, value);
    }
  }

  lemma {:induction false} SetNames(h: HeaderMap, name: string, value: string)
    ensures Names(Set(h, name, value)) == if name in Names(h) then Names(h) else Names(h) + [name]
    decreases |h|
  {
    var r := Set(h, name, value);
    if h == [] {
    } else if h[0].0 == name {
      assert Names(h)[0] == name && Names(r) == Names(h);
    } else {
      SetNames(h[1..], name, value);
      assert Names(h) == [h[0].0] + Names(h[1..]);
      assert Names(r) == [h[0].0] + Names(Set(h[1..], name, value));
    }
  }

  /**
   * `HttpHeaders.getContentType`: no content type when the header is absent, otherwise the parse
   * of its first value, which fails for text the media-type parser rejects.
   */
  function ContentTypeOf(h: HeaderMap, codec: MediaCodec): (r: Result<Option<MediaType>, Failure>)
    ensures First(h, ContentType).None? ==> r == Ok(None)
    ensures First(h, ContentType).Some? ==>
      r == match codec.parse(First(h, ContentType).value)
           case Some(m) => Ok(Some(m))
           case None => Err(InvalidMediaType(First(h, ContentType).value))
  {
    match First(h, ContentType)
    case None => Ok(None)
    case Some(v) =>
      match codec.parse(v)
      case Some(m) => Ok(Some(m))
      case None => Err(InvalidMediaType(v))
  }

  /** `HttpHeaders.getContentLength`: -1 when the header is absent, else `Long.parseLong` of its first value. */
  function ContentLengthOf(h: HeaderMap): (r: Result<int, Failure>)
    ensures First(h, ContentLength).None? ==> r == Ok(-1)
    ensures r.Ok? && First(h, ContentLength).Some? ==>
      Decimal.ParseLong(First(h, ContentLength).value) == Some(r.value)
    ensures r.Err? <==> First(h, ContentLength).Some? && Decimal.ParseLong(First(h, ContentLength).value).None?
    ensures r.Err? ==> r.error == NumberFormat(First(h, ContentLength).value)
  {
    match First(h, ContentLength)
    case None => Ok(-1)
    case Some(v) =>
      match Decimal.ParseLong(v)
      case Some(n) => Ok(n)
      case None => Err(NumberFormat(v))
  }

  /** Reading the content type back after `setContentType` gives the media type that was set. */
  lemma SetContentTypeReadsBack(h: HeaderMap, codec: MediaCodec, m: MediaType)
    requires FormatRoundTrips(codec)
    ensures ContentTypeOf(Set(h, ContentType, codec.format(m)), codec) == Ok(Some(m))
  {
    SetReplacesValues(h, ContentType, codec.format(m));
  }

  /** Reading the content length back after `setContentLength` gives the `long` that was set. */
  lemma SetContentLengthReadsBack(h: HeaderMap, n: int)
    requires Decimal.MinLong <= n <= Decimal.MaxLong
    ensures ContentLengthOf(Set(h, ContentLength, Decimal.Format(n))) == Ok(n)
  {
    SetReplacesValues(h, ContentLength, Decimal.Format(n));
    Decimal.FormatParseLong(n);
  }

  /** The pairs of one entry: its name with each of its values, in order. */
  function Tagged<V>(name: string, values: seq<V>): (pairs: seq<(string, V)>)
    ensures |pairs| == |values|
    ensures forall j :: 0 <= j < |values| ==> pairs[j] == (name, values[j])
  {
    seq(|values|, j requires 0 <= j < |values| => (name, values[j]))
  }

  /** The (name, value) pairs of the first `i` entries. */
  function FlattenUpTo<V>(h: seq<(string, seq<V>)>, i: nat): seq<(string, V)>
    requires i <= |h|
    decreases i
  {
    if i == 0 then [] else FlattenUpTo(h, i - 1) + Tagged(h[i - 1].0, h[i - 1].1)
  }

  /** Every (name, value) pair in iteration order: entries in order, values in order within each. */
  function Flatten<V>(h: seq<(string, seq<V>)>): seq<(string, V)>
  {
    FlattenUpTo(h, |h|)
  }

  /** The pairs of the first `i` entries come first among those of the first `k`. */
  lemma {:induction false} FlattenUpToPrefix<V>(h: seq<(string, seq<V>)>, i: nat, k: nat)
    requires i <= k <= |h|
    ensures |FlattenUpTo(h, i)| <= |FlattenUpTo(h, k)|
    ensures FlattenUpTo(h, k)[..|FlattenUpTo(h, i)|] == FlattenUpTo(h, i)
    decreases k
  {
    if i < k {
      FlattenUpToPrefix(h, i, k - 1);
      var p, q := FlattenUpTo(h, i), FlattenUpTo(h, k - 1);
      assert FlattenUpTo(h, k) == q + Tagged(h[k - 1].0, h[k - 1].1);
      assert FlattenUpTo(h, k)[..|p|] == q[..|p|];
    } else {
      assert FlattenUpTo(h, k)[..|FlattenUpTo(h, k)|] == FlattenUpTo(h, k);
    }
  }

  /** Value `j` of entry `i` sits in the flattened sequence right after the pairs of earlier entries. */
  lemma {:induction false} FlattenPosition<V>(h: seq<(string, seq<V>)>, i: nat, j: nat)
    requires i < |h| && j < |h[i].1|
    ensures |FlattenUpTo(h, i)| + j < |Flatten(h)|
    ensures Flatten(h)[|FlattenUpTo(h, i)| + j] == (h[i].0, h[i].1[j])
  {
    FlattenUpToPrefix(h, i + 1, |h|);
    var all, before, next := Flatten(h), FlattenUpTo(h, i), FlattenUpTo(h, i + 1);
    var tagged := Tagged(h[i].0, h[i].1);
    assert next == before + tagged;
    var at := |before| + j;
    assert next[at] == tagged[j];
    assert all[..|next|] == next;
    assert all[at] == all[..|next|][at];
  }
}
