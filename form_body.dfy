/**
 * Reconstruction of an `application/x-www-form-urlencoded` request body from the container's
 * decoded parameter map, as `PortletServerHttpRequest.getBodyFromServletRequestParameters` does it
 * for a form POST (the encoding of section 17.13.4.1 of HTML 4.01).
 *
 * `URLEncoder.encode(_, "UTF-8")` is a parameter `encode`; the body is kept as text (the encoder
 * only produces ASCII, so its UTF-8 bytes are its characters).
 */
module FormBody {
  import opened Wrappers
  import opened Headers

  /**
   * `getParameterMap()`: names in the map's iteration order, each with its value array; a null
   * array element is None.
   */
  type FormParams = seq<(string, seq<Option<string>>)>

  /** One name with one of its values. */
  type Pair = (string, Option<string>)

  const Separator: char := '&'
  const Assign: char := '='

  /** What follows the encoded name for one value: `=` and the encoded value, or nothing for null. */
  function ValueText(encode: string -> string, value: Option<string>): string
  {
    match value
    case None => ""
    case Some(v) => [Assign] + encode(v)
  }

  /** The `&` written before value `j` of a name: there is one only after a non-null value. */
  function SeparatorBefore(values: seq<Option<string>>, j: nat): string
    requires j < |values|
  {
    if j > 0 && values[j - 1].Some? then [Separator] else []
  }

  /** What the inner loop has produced for the first `j` values of a name. */
  function RunUpTo(encode: string -> string, name: string, values: seq<Option<string>>, j: nat): string
    requires j <= |values|
    decreases j
  {
    if j == 0 then ""
    else RunUpTo(encode, name, values, j - 1) + SeparatorBefore(values, j - 1)
         + (encode(name) + ValueText(encode, values[j - 1]))
  }

  /**
   * What the inner loop writes for one name: for each value the encoded name and its ValueText;
   * an `&` comes between two values exactly when the earlier one is not null.
   */
  function ValueRun(encode: string -> string, name: string, values: seq<Option<string>>): string
  {
    RunUpTo(encode, name, values, |values|)
  }

  /** The body after the first `i` names: their runs with an `&` between consecutive names. */
  function BodyUpTo(encode: string -> string, form: FormParams, i: nat): string
    requires i <= |form|
    decreases i
  {
    if i == 0 then ""
    else BodyUpTo(encode, form, i - 1) + (if i > 1 then [Separator] else [])
         + ValueRun(encode, form[i - 1].0, form[i - 1].1)
  }

  /** The body as written. */
  function Body(encode: string -> string, form: FormParams): string
  {
    BodyUpTo(encode, form, |form|)
  }

  // ---------------------------------------------------------------------------------------------
  // The serialiser's loops

  /** The `&` still owed after `j` values of a name have been written. */
  function Pending(values: seq<Option<string>>, j: nat): string
    requires j <= |values|
  {
    if 0 < j < |values| && values[j - 1].Some? then [Separator] else []
  }

  lemma WrittenStep(encode: string -> string, name: string, values: seq<Option<string>>, j: nat,
                    piece: string, body: string, out: string)
    requires j < |values|
    requires piece == encode(name) + ValueText(encode, values[j]) + Pending(values, j + 1)
    requires out == body + (RunUpTo(encode, name, values, j) + Pending(values, j))
    ensures out + piece == body + (RunUpTo(encode, name, values, j + 1) + Pending(values, j + 1))
  {
    var run, sep, tail, owed := RunUpTo(encode, name, values, j), SeparatorBefore(values, j),
      encode(name) + ValueText(encode, values[j]), Pending(values, j + 1);
    assert Pending(values, j) == sep;
    assert RunUpTo(encode, name, values, j + 1) == run + sep + tail;
    RegroupMiddle(body, run + sep, tail, owed);
  }

  /** `(a + b) + (c + d)` regrouped around its two middle parts. */
  lemma RegroupMiddle(a: string, b: string, c: string, d: string)
    ensures (a + b) + (c + d) == a + ((b + c) + d)
  {
  }

  /**
   * One pass of the inner loop: the encoded name; for a non-null value `=` and the encoded value,
   * then `&` if more values follow.
   */
  method WriteValue(encode: string -> string, name: string, values: seq<Option<string>>, j: nat)
    returns (piece: string)
    requires j < |values|
    ensures piece == encode(name) + ValueText(encode, values[j]) + Pending(values, j + 1)
  {
    piece := encode(name);
    if values[j].Some? {
      piece := piece + [Assign] + encode(values[j].value);
      if j + 1 < |values| {
        piece := piece + [Separator];
      }
    }
  }

  /** The inner loop: every value of one name, appended to the writer's buffer. */
  method WriteValues(body: string, encode: string -> string, name: string, values: seq<Option<string>>)
    returns (out: string)
    ensures out == body + ValueRun(encode, name, values)
  {
    out := body;
    var j := 0;
    while j < |values|
      invariant 0 <= j <= |values|
      invariant out == body + (RunUpTo(encode, name, values, j) + Pending(values, j))
    {
      var piece := WriteValue(encode, name, values, j);
      WrittenStep(encode, name, values, j, piece, body, out);
      out := out + piece;
      j := j + 1;
    }
  }

  /** The nested iterator loops of the serialiser: names in map order, `&` between names. */
  method BodyFromParameters(form: FormParams, encode: string -> string) returns (body: string)
    ensures body == Body(encode, form)
  {
    body := "";
    var i := 0;
    while i < |form|
      invariant 0 <= i <= |form|
      invariant body == BodyUpTo(encode, form, i) + (if 0 < i < |form| then [Separator] else [])
    {
      var written := WriteValues(body, encode, form[i].0, form[i].1);
      WrittenName(encode, form, i, body, written);
      body := written;
      if i + 1 < |form| {
        body := body + [Separator];
      }
      i := i + 1;
    }
  }

  /** After the `&` owed before it, name `i`'s run completes the body of the first `i + 1` names. */
  lemma WrittenName(encode: string -> string, form: FormParams, i: nat, body: string, written: string)
    requires i < |form|
    requires body == BodyUpTo(encode, form, i) + (if 0 < i < |form| then [Separator] else [])
    requires written == body + ValueRun(encode, form[i].0, form[i].1)
    ensures written == BodyUpTo(encode, form, i + 1)
  {
  }

  // ---------------------------------------------------------------------------------------------
  // Joining and splitting on `&`

  function Join(parts: seq<string>): string
    decreases |parts|
  {
    if |parts| == 0 then ""
    else if |parts| == 1 then parts[0]
    else parts[0] + [Separator] + Join(parts[1..])
  }

  function Split(s: string): (parts: seq<string>)
    ensures |parts| >= 1
    decreases |s|
  {
    if s == [] then [""]
    else
      var rest := Split(s[1..]);
      if s[0] == Separator then [""] + rest else [[s[0]] + rest[0]] + rest[1..]
  }

  lemma {:induction false} JoinSnoc(parts: seq<string>, x: string)
    ensures Join(parts + [x]) == if parts == [] then x else Join(parts) + [Separator] + x
    decreases |parts|
  {
    if |parts| >= 2 {
      assert (parts + [x])[1..] == parts[1..] + [x];
      JoinSnoc(parts[1..], x);
    } else if |parts| == 1 {
      assert (parts + [x])[1..] == [x];
    }
  }

  /** Joining one more part of a sequence appends it, after an `&` unless it is the first. */
  lemma JoinPrefixStep(parts: seq<string>, i: nat)
    requires 0 < i <= |parts|
    ensures Join(parts[..i]) == if i == 1 then parts[0] else Join(parts[..i - 1]) + [Separator] + parts[i - 1]
  {
    assert parts[..i] == parts[..i - 1] + [parts[i - 1]];
    JoinSnoc(parts[..i - 1], parts[i - 1]);
  }

  lemma {:induction false} JoinConcat(a: seq<string>, b: seq<string>)
    requires a != [] && b != []
    ensures Join(a + b) == Join(a) + [Separator] + Join(b)
    decreases |a|
  {
    if |a| == 1 {
      assert (a + b)[1..] == b;
    } else {
      assert (a + b)[1..] == a[1..] + b;
      JoinConcat(a[1..], b);
    }
  }

  lemma {:induction false} SplitWithoutSeparator(s: string)
    requires Separator !in s
    ensures Split(s) == [s]
    decreases |s|
  {
    if s != [] {
      assert forall k :: 0 <= k < |s[1..]| ==> s[1..][k] == s[k + 1];
      SplitWithoutSeparator(s[1..]);
      assert [s[0]] + s[1..] == s;
    }
  }

  lemma {:induction false} SplitAtSeparator(a: string, b: string)
    requires Separator !in a
    ensures Split(a + [Separator] + b) == [a] + Split(b)
    decreases |a|
  {
    if a == [] {
      assert (a + [Separator] + b)[1..] == b;
    } else {
      var s := a + [Separator] + b;
      assert s[0] == a[0] && s[1..] == a[1..] + [Separator] + b;
      assert Separator !in a[1..] by {
        assert forall k :: 0 <= k < |a[1..]| ==> a[1..][k] == a[k + 1];
      }
      SplitAtSeparator(a[1..], b);
      assert [a[0]] + a[1..] == a;
    }
  }

  /** Splitting a join of `&`-free parts gives the parts back. */
  lemma {:induction false} SplitJoin(parts: seq<string>)
    requires parts != []
    requires forall i :: 0 <= i < |parts| ==> Separator !in parts[i]
    ensures Split(Join(parts)) == parts
    decreases |parts|
  {
    if |parts| == 1 {
      SplitWithoutSeparator(parts[0]);
    } else {
      SplitJoin(parts[1..]);
      SplitAtSeparator(parts[0], Join(parts[1..]));
      assert [parts[0]] + parts[1..] == parts;
    }
  }

  // ---------------------------------------------------------------------------------------------
  // The meaning of the body: name/value pairs, and a decoder that reads them back

  /** The text of one pair: the encoded name, then `=` and the encoded value unless it is null. */
  function Segment(encode: string -> string, pair: Pair): string
  {
    encode(pair.0) + ValueText(encode, pair.1)
  }

  function Segments(encode: string -> string, pairs: seq<Pair>): (segments: seq<string>)
    ensures |segments| == |pairs|
    ensures forall k :: 0 <= k < |pairs| ==> segments[k] == Segment(encode, pairs[k])
  {
    seq(|pairs|, k requires 0 <= k < |pairs| => Segment(encode, pairs[k]))
  }

  /** The serialisation the encoding intends: one segment per pair, segments joined by `&`. */
  function FixedBody(encode: string -> string, form: FormParams): string
  {
    Join(Segments(encode, Flatten(form)))
  }

  function FirstIndex(s: string, c: char): (k: nat)
    requires c in s
    ensures k < |s| && s[k] == c && c !in s[..k]
    decreases |s|
  {
    if s[0] == c then 0
    else
      var k := FirstIndex(s[1..], c);
      assert s[..k + 1] == [s[0]] + s[1..][..k];
      k + 1
  }

  /** Reading one segment back: the part before the first `=` is the name, the rest the value. */
  function DecodeSegment(decode: string -> string, segment: string): Pair
  {
    if Assign in segment then
      var k := FirstIndex(segment, Assign);
      (decode(segment[..k]), Some(decode(segment[k + 1..])))
    else (decode(segment), None)
  }

  /**
   * Form decoding with the null/empty distinction kept: a segment without `=` reads as a null
   * value, so that the reconstruction can be compared with the parameter map exactly.
   */
  function Decode(decode: string -> string, body: string): seq<Pair>
  {
    if body == [] then []
    else
      var segments := Split(body);
      seq(|segments|, k requires 0 <= k < |segments| => DecodeSegment(decode, segments[k]))
  }

  /**
   * What the URL encoder is relied on for: its output never holds `&` or `=` (both are always
   * percent-escaped), and the decoder undoes it.
   */
  ghost predicate EncoderInvertible(encode: string -> string, decode: string -> string)
  {
    forall s :: Separator !in encode(s) && Assign !in encode(s) && decode(encode(s)) == s
  }

  /**
   * The one map whose pairs an empty body cannot carry: a lone pair that writes nothing (an empty
   * encoded name with a null value). Every other map with pairs gives a non-empty body.
   */
  predicate LoneEmptySegment(encode: string -> string, form: FormParams)
  {
    |Flatten(form)| == 1 && Segment(encode, Flatten(form)[0]) == ""
  }

  /** Only the last value of a name may be null. */
  predicate NullOnlyLast(values: seq<Option<string>>)
  {
    forall j :: 0 <= j < |values| - 1 ==> values[j].Some?
  }

  /** Every name has at least one value, and only a name's last value may be null. */
  predicate Separable(form: FormParams)
  {
    forall i :: 0 <= i < |form| ==> form[i].1 != [] && NullOnlyLast(form[i].1)
  }

  // ---------------------------------------------------------------------------------------------
  // Properties of the body as written

  lemma {:induction false} RunUpToPrefix(encode: string -> string, name: string, a: seq<Option<string>>,
                                         b: seq<Option<string>>, j: nat)
    requires j <= |a|
    ensures RunUpTo(encode, name, a + b, j) == RunUpTo(encode, name, a, j)
    decreases j
  {
    if j > 0 {
      var ab := a + b;
      RunUpToPrefix(encode, name, a, b, j - 1);
      assert ab[j - 1] == a[j - 1];
      assert SeparatorBefore(ab, j - 1) == SeparatorBefore(a, j - 1) by {
        if j > 1 {
          assert ab[j - 2] == a[j - 2];
        }
      }
      assert RunUpTo(encode, name, ab, j)
        == RunUpTo(encode, name, ab, j - 1) + SeparatorBefore(ab, j - 1) + (encode(name) + ValueText(encode, a[j - 1]));
    }
  }

  lemma {:induction false} RunUpToAppend(encode: string -> string, name: string, a: seq<Option<string>>,
                                         b: seq<Option<string>>, k: nat)
    requires k <= |b|
    ensures RunUpTo(encode, name, a + b, |a| + k)
      == ValueRun(encode, name, a)
         + (if a != [] && k > 0 && a[|a| - 1].Some? then [Separator] else [])
         + RunUpTo(encode, name, b, k)
    decreases k
  {
    if k == 0 {
      RunUpToAppendNone(encode, name, a, b);
    } else {
      RunUpToAppend(encode, name, a, b, k - 1);
      RunUpToAppendStep(encode, name, a, b, k);
    }
  }

  /** Before any value of `b`, the run over `a + b` is the run over `a`. */
  lemma RunUpToAppendNone(encode: string -> string, name: string, a: seq<Option<string>>, b: seq<Option<string>>)
    ensures RunUpTo(encode, name, a + b, |a|) == ValueRun(encode, name, a) + [] + RunUpTo(encode, name, b, 0)
  {
    RunUpToPrefix(encode, name, a, b, |a|);
    assert ValueRun(encode, name, a) + [] + "" == ValueRun(encode, name, a);
  }

  lemma RunUpToAppendStep(encode: string -> string, name: string, a: seq<Option<string>>,
                          b: seq<Option<string>>, k: nat)
    requires 0 < k <= |b|
    requires RunUpTo(encode, name, a + b, |a| + (k - 1))
      == ValueRun(encode, name, a)
         + (if a != [] && k - 1 > 0 && a[|a| - 1].Some? then [Separator] else [])
         + RunUpTo(encode, name, b, k - 1)
    ensures RunUpTo(encode, name, a + b, |a| + k)
      == ValueRun(encode, name, a)
         + (if a != [] && a[|a| - 1].Some? then [Separator] else [])
         + RunUpTo(encode, name, b, k)
  {
    var ab := a + b;
    var tail := encode(name) + ValueText(encode, b[k - 1]);
    assert ab[|a| + k - 1] == b[k - 1];
    if k == 1 {
      RunUpToAppendFirst(encode, name, a, b, tail);
    } else {
      assert ab[|a| + k - 2] == b[k - 2];
      assert SeparatorBefore(ab, |a| + k - 1) == SeparatorBefore(b, k - 1);
      RegroupLastThree(ValueRun(encode, name, a), if a != [] && a[|a| - 1].Some? then [Separator] else [],
                       RunUpTo(encode, name, b, k - 1), SeparatorBefore(b, k - 1), tail);
    }
  }

  lemma RunUpToAppendFirst(encode: string -> string, name: string, a: seq<Option<string>>,
                           b: seq<Option<string>>, tail: string)
    requires 0 < |b| && tail == encode(name) + ValueText(encode, b[0])
    requires RunUpTo(encode, name, a + b, |a|) == ValueRun(encode, name, a) + [] + RunUpTo(encode, name, b, 0)
    ensures RunUpTo(encode, name, a + b, |a| + 1)
      == ValueRun(encode, name, a)
         + (if a != [] && a[|a| - 1].Some? then [Separator] else [])
         + RunUpTo(encode, name, b, 1)
  {
    assert (a + b)[|a|] == b[0];
    assert RunUpTo(encode, name, a + b, |a|) == ValueRun(encode, name, a);
    assert RunUpTo(encode, name, b, 1) == "" + "" + tail;
    assert RunUpTo(encode, name, b, 1) == tail;
  }

  /** `(a + b + c) + d + e` with its last three parts grouped together. */
  lemma RegroupLastThree(a: string, b: string, c: string, d: string, e: string)
    ensures (a + b + c) + d + e == a + b + (c + d + e)
  {
  }

  /**
   * Appending values to a name: the runs are concatenated, with an `&` between them exactly when
   * the last earlier value is not null. So a null value contributes no `&` after it, and a
   * non-null value is followed by `&` whenever another value comes.
   */
  lemma ValueRunAppend(encode: string -> string, name: string, a: seq<Option<string>>, b: seq<Option<string>>)
    ensures ValueRun(encode, name, a + b)
      == ValueRun(encode, name, a)
         + (if a != [] && b != [] && a[|a| - 1].Some? then [Separator] else [])
         + ValueRun(encode, name, b)
  {
    RunUpToAppend(encode, name, a, b, |b|);
  }

  /** A null value writes the encoded name alone: no `=`, and no `&` before the next value. */
  lemma NullValueWritesNameOnly(encode: string -> string, name: string, a: seq<Option<string>>, b: seq<Option<string>>)
    ensures ValueRun(encode, name, a + [None] + b)
      == ValueRun(encode, name, a)
         + (if a != [] && a[|a| - 1].Some? then [Separator] else [])
         + encode(name)
         + ValueRun(encode, name, b)
  {
    var withNull := a + [None];
    NullLastRun(encode, name, a);
    AfterNullRun(encode, name, withNull, b);
    ReplaceLeftOperand(ValueRun(encode, name, withNull + b), ValueRun(encode, name, withNull), ValueRun(encode, name, b),
                       ValueRun(encode, name, a), if a != [] && a[|a| - 1].Some? then [Separator] else [], encode(name));
  }

  /** A trailing null value adds the encoded name, after an `&` when the value before it is not null. */
  lemma NullLastRun(encode: string -> string, name: string, a: seq<Option<string>>)
    ensures ValueRun(encode, name, a + [None])
      == ValueRun(encode, name, a) + (if a != [] && a[|a| - 1].Some? then [Separator] else []) + encode(name)
  {
    ValueRunAppend(encode, name, a, [None]);
    assert RunUpTo(encode, name, [None], 1) == "" + "" + (encode(name) + "");
  }

  /** After a null value the next run follows with no `&`. */
  lemma AfterNullRun(encode: string -> string, name: string, a: seq<Option<string>>, b: seq<Option<string>>)
    requires a != [] && a[|a| - 1] == None
    ensures ValueRun(encode, name, a + b) == ValueRun(encode, name, a) + ValueRun(encode, name, b)
  {
    ValueRunAppend(encode, name, a, b);
  }

  /** `left + right`, with `left` replaced by the three parts it equals. */
  lemma ReplaceLeftOperand(whole: string, left: string, right: string, p: string, q: string, r: string)
    requires whole == left + right && left == p + q + r
    ensures whole == p + q + r + right
  {
  }

  function Runs(encode: string -> string, form: FormParams): (runs: seq<string>)
    ensures |runs| == |form|
    ensures forall i :: 0 <= i < |form| ==> runs[i] == ValueRun(encode, form[i].0, form[i].1)
  {
    seq(|form|, i requires 0 <= i < |form| => ValueRun(encode, form[i].0, form[i].1))
  }

  /** One more name appends its run, after an `&` unless it is the first name. */
  lemma BodyUpToStep(encode: string -> string, form: FormParams, i: nat)
    requires 0 < i <= |form|
    ensures BodyUpTo(encode, form, i)
      == if i == 1 then ValueRun(encode, form[0].0, form[0].1)
         else BodyUpTo(encode, form, i - 1) + [Separator] + ValueRun(encode, form[i - 1].0, form[i - 1].1)
  {
    if i == 1 {
      assert BodyUpTo(encode, form, 1) == "" + "" + ValueRun(encode, form[0].0, form[0].1);
    }
  }

  lemma {:induction false} BodyUpToIsJoin(encode: string -> string, form: FormParams, i: nat)
    requires i <= |form|
    ensures BodyUpTo(encode, form, i) == Join(Runs(encode, form)[..i])
    decreases i
  {
    if i > 0 {
      BodyUpToIsJoin(encode, form, i - 1);
      BodyUpToIsJoinStep(encode, form, i);
    }
  }

  lemma BodyUpToIsJoinStep(encode: string -> string, form: FormParams, i: nat)
    requires 0 < i <= |form|
    requires BodyUpTo(encode, form, i - 1) == Join(Runs(encode, form)[..i - 1])
    ensures BodyUpTo(encode, form, i) == Join(Runs(encode, form)[..i])
  {
    var runs := Runs(encode, form);
    BodyUpToStep(encode, form, i);
    JoinPrefixStep(runs, i);
    assert runs[i - 1] == ValueRun(encode, form[i - 1].0, form[i - 1].1);
  }

  /**
   * The body is the `&`-join of one run per name, whatever the runs are: a name with no values
   * contributes an empty run, so only the `&` around it remains.
   */
  lemma BodyIsJoinOfRuns(encode: string -> string, form: FormParams)
    ensures Body(encode, form) == Join(Runs(encode, form))
    ensures forall i :: 0 <= i < |form| && form[i].1 == [] ==> Runs(encode, form)[i] == ""
  {
    BodyUpToIsJoin(encode, form, |form|);
    assert Runs(encode, form)[..|form|] == Runs(encode, form);
  }

  lemma {:induction false} RunUpToIsJoin(encode: string -> string, name: string, values: seq<Option<string>>, j: nat)
    requires NullOnlyLast(values)
    requires j <= |values|
    ensures RunUpTo(encode, name, values, j) == Join(Segments(encode, Tagged(name, values))[..j])
    decreases j
  {
    if j > 0 {
      var segs := Segments(encode, Tagged(name, values));
      RunUpToIsJoin(encode, name, values, j - 1);
      RunUpToStep(encode, name, values, j);
      JoinPrefixStep(segs, j);
      assert segs[j - 1] == Segment(encode, (name, values[j - 1]));
    }
  }

  /** Without a null before the last value, value `j` adds its segment, after an `&` unless it is the first. */
  lemma RunUpToStep(encode: string -> string, name: string, values: seq<Option<string>>, j: nat)
    requires NullOnlyLast(values)
    requires 0 < j <= |values|
    ensures RunUpTo(encode, name, values, j)
      == if j == 1 then Segment(encode, (name, values[0]))
         else RunUpTo(encode, name, values, j - 1) + [Separator] + Segment(encode, (name, values[j - 1]))
  {
    if j == 1 {
      assert RunUpTo(encode, name, values, 1) == "" + "" + Segment(encode, (name, values[0]));
    } else {
      assert values[j - 2].Some?;
    }
  }

  lemma RunIsJoinOfSegments(encode: string -> string, name: string, values: seq<Option<string>>)
    requires NullOnlyLast(values)
    ensures ValueRun(encode, name, values) == Join(Segments(encode, Tagged(name, values)))
  {
    RunUpToIsJoin(encode, name, values, |values|);
    assert Segments(encode, Tagged(name, values))[..|values|] == Segments(encode, Tagged(name, values));
  }

  lemma SegmentsConcat(encode: string -> string, p: seq<Pair>, q: seq<Pair>)
    ensures Segments(encode, p + q) == Segments(encode, p) + Segments(encode, q)
  {
  }

  lemma {:induction false} BodyUpToMatches(encode: string -> string, form: FormParams, i: nat)
    requires Separable(form)
    requires i <= |form|
    ensures BodyUpTo(encode, form, i) == Join(Segments(encode, FlattenUpTo(form, i)))
    ensures i > 0 ==> FlattenUpTo(form, i) != []
    decreases i
  {
    if i > 0 {
      var name, values := form[i - 1].0, form[i - 1].1;
      BodyUpToMatches(encode, form, i - 1);
      BodyUpToStep(encode, form, i);
      assert NullOnlyLast(values);
      RunIsJoinOfSegments(encode, name, values);
      SegmentsStep(encode, form, i);
      JoinAppend(Segments(encode, FlattenUpTo(form, i - 1)), Segments(encode, Tagged(name, values)));
    }
  }

  /** The segments of the first `i` names: those of the first `i - 1`, then name `i`'s own. */
  lemma SegmentsStep(encode: string -> string, form: FormParams, i: nat)
    requires 0 < i <= |form| && form[i - 1].1 != []
    ensures FlattenUpTo(form, i) != []
    ensures Segments(encode, FlattenUpTo(form, i))
         == Segments(encode, FlattenUpTo(form, i - 1)) + Segments(encode, Tagged(form[i - 1].0, form[i - 1].1))
    ensures Segments(encode, Tagged(form[i - 1].0, form[i - 1].1)) != []
    ensures i == 1 ==> Segments(encode, FlattenUpTo(form, i - 1)) == []
  {
    SegmentsConcat(encode, FlattenUpTo(form, i - 1), Tagged(form[i - 1].0, form[i - 1].1));
  }

  /** Joining two lists of parts one after the other: an `&` between them unless the first is empty. */
  lemma JoinAppend(a: seq<string>, b: seq<string>)
    requires b != []
    ensures Join(a + b) == if a == [] then Join(b) else Join(a) + [Separator] + Join(b)
  {
    if a == [] {
      assert a + b == b;
    } else {
      JoinConcat(a, b);
    }
  }

  /**
   * When every name has a value and a null is only ever a name's last value, the body as written
   * is the intended one: the `&`-join of `encode(name)=encode(value)` (or `encode(name)` for a null)
   * over the pairs, names in map order and values in array order.
   */
  lemma BodyMatchesFixedBody(encode: string -> string, form: FormParams)
    requires Separable(form)
    ensures Body(encode, form) == FixedBody(encode, form)
  {
    BodyUpToMatches(encode, form, |form|);
  }

  lemma {:induction false} FlattenUpToValuesPresent(form: FormParams, i: nat)
    requires forall n, j :: 0 <= n < |form| && 0 <= j < |form[n].1| ==> form[n].1[j].Some?
    requires i <= |form|
    ensures forall k :: 0 <= k < |FlattenUpTo(form, i)| ==> FlattenUpTo(form, i)[k].1.Some?
    decreases i
  {
    if i > 0 {
      FlattenUpToValuesPresent(form, i - 1);
    }
  }

  /** With no null values at all, every segment of the body is `encode(name)=encode(value)`. */
  lemma NoNullsArePairs(encode: string -> string, form: FormParams)
    requires forall i, j :: 0 <= i < |form| && 0 <= j < |form[i].1| ==> form[i].1[j].Some?
    requires forall i :: 0 <= i < |form| ==> form[i].1 != []
    ensures Body(encode, form) == Join(Segments(encode, Flatten(form)))
    ensures forall k :: 0 <= k < |Flatten(form)| ==>
      Flatten(form)[k].1.Some? &&
      Segments(encode, Flatten(form))[k]
        == encode(Flatten(form)[k].0) + [Assign] + encode(Flatten(form)[k].1.value)
  {
    assert Separable(form);
    BodyMatchesFixedBody(encode, form);
    FlattenUpToValuesPresent(form, |form|);
  }

  // ---------------------------------------------------------------------------------------------
  // Round trips

  lemma DecodeSegmentOfSegment(encode: string -> string, decode: string -> string, pair: Pair)
    requires EncoderInvertible(encode, decode)
    ensures DecodeSegment(decode, Segment(encode, pair)) == pair
  {
    var name := encode(pair.0);
    assert Assign !in name && decode(name) == pair.0;
    match pair.1
    case None =>
      assert Segment(encode, pair) == name;
    case Some(v) =>
      var segment := name + [Assign] + encode(v);
      assert Segment(encode, pair) == segment;
      assert segment[|name|] == Assign;
      var k := FirstIndex(segment, Assign);
      assert k == |name|;
      assert segment[..k] == name && segment[k + 1..] == encode(v);
      assert decode(encode(v)) == v;
  }

  /** The intended serialisation decodes back to exactly the pairs of the parameter map. */
  lemma FixedBodyRoundTrip(encode: string -> string, decode: string -> string, form: FormParams)
    requires EncoderInvertible(encode, decode)
    requires !LoneEmptySegment(encode, form)
    ensures Decode(decode, FixedBody(encode, form)) == Flatten(form)
  {
    var pairs := Flatten(form);
    var segments := Segments(encode, pairs);
    if pairs != [] {
      forall k | 0 <= k < |segments| ensures Separator !in segments[k] {
        assert Separator !in encode(pairs[k].0);
        match pairs[k].1
        case None =>
        case Some(v) => assert Separator !in encode(v);
      }
      SplitJoin(segments);
      JoinNonEmpty(segments);
      forall k | 0 <= k < |segments| ensures DecodeSegment(decode, segments[k]) == pairs[k] {
        DecodeSegmentOfSegment(encode, decode, pairs[k]);
      }
    }
  }

  /** A join of two or more parts holds an `&`, and a join of one part is that part. */
  lemma JoinNonEmpty(parts: seq<string>)
    requires parts != [] && (|parts| > 1 || parts[0] != "")
    ensures Join(parts) != ""
  {
    if |parts| > 1 {
      assert Join(parts) == parts[0] + [Separator] + Join(parts[1..]);
    }
  }

  /**
   * The body as written decodes back to the parameter map's pairs whenever every name has a value
   * and a null is only ever a name's last value.
   */
  lemma BodyRoundTrip(encode: string -> string, decode: string -> string, form: FormParams)
    requires EncoderInvertible(encode, decode)
    requires !LoneEmptySegment(encode, form)
    requires Separable(form)
    ensures Decode(decode, Body(encode, form)) == Flatten(form)
  {
    BodyMatchesFixedBody(encode, form);
    FixedBodyRoundTrip(encode, decode, form);
  }

  /**
   * The map the round trips exclude: a lone null value under a name that encodes to nothing writes
   * an empty body, which reads back as no pairs at all.
   */
  lemma LoneEmptySegmentIsLost(encode: string -> string, decode: string -> string, name: string)
    requires encode(name) == ""
    ensures LoneEmptySegment(encode, [(name, [None])])
    ensures Body(encode, [(name, [None])]) == ""
    ensures Decode(decode, Body(encode, [(name, [None])])) == []
  {
    var values: seq<Option<string>> := [None];
    var form: FormParams := [(name, values)];
    assert Flatten(form) == [] + Tagged(name, values);
    assert Segment(encode, (name, None)) == "";
    assert RunUpTo(encode, name, values, 1) == "" + "" + ("" + "");
    assert Body(encode, form) == "" + [] + ValueRun(encode, name, values);
  }

  /**
   * The serialiser as written loses a pair when a null value comes before another value of the
   * same name: `[null, v]` under `name` gives `encode(name)encode(name)=encode(v)`, one segment,
   * which reads back as a single pair with a doubled name.
   */
  lemma NullBeforeValueMergesPairs(encode: string -> string, decode: string -> string, name: string, v: string)
    requires EncoderInvertible(encode, decode)
    ensures Body(encode, [(name, [None, Some(v)])]) == encode(name) + encode(name) + [Assign] + encode(v)
    ensures |Flatten([(name, [None, Some(v)])])| == 2
    ensures |Decode(decode, Body(encode, [(name, [None, Some(v)])]))| == 1
    ensures Body(encode, [(name, [None, Some(v)])]) != FixedBody(encode, [(name, [None, Some(v)])])
  {
    var form: FormParams := [(name, [None, Some(v)])];
    var n, ev := encode(name), encode(v);
    var body := n + n + [Assign] + ev;
    NullThenValueBody(encode, name, v);
    NullThenValueFixedBody(encode, name, v);
    assert Separator !in n && Separator !in ev;
    assert Separator !in body;
    SplitWithoutSeparator(body);
    assert body[|n| + |n|] == Assign;
    assert FixedBody(encode, form)[|n|] == Separator;
  }

  lemma NullThenValueBody(encode: string -> string, name: string, v: string)
    ensures Body(encode, [(name, [None, Some(v)])]) == encode(name) + encode(name) + [Assign] + encode(v)
  {
    var values: seq<Option<string>> := [None, Some(v)];
    var form: FormParams := [(name, values)];
    NullThenValueRun(encode, name, v);
    assert form[0].0 == name && form[0].1 == values && |form| == 1;
    assert BodyUpTo(encode, form, 1) == "" + [] + ValueRun(encode, name, values);
  }

  lemma NullThenValueRun(encode: string -> string, name: string, v: string)
    ensures ValueRun(encode, name, [None, Some(v)]) == encode(name) + encode(name) + [Assign] + encode(v)
  {
    var values: seq<Option<string>> := [None, Some(v)];
    var n, ev := encode(name), encode(v);
    assert ValueText(encode, values[0]) == "";
    assert ValueText(encode, values[1]) == [Assign] + ev;
    assert RunUpTo(encode, name, values, 1) == n by {
      assert RunUpTo(encode, name, values, 1) == "" + "" + (n + "");
    }
    assert SeparatorBefore(values, 1) == [];
    assert ValueRun(encode, name, values) == n + [] + (n + ([Assign] + ev));
    assert n + [] + (n + ([Assign] + ev)) == n + n + [Assign] + ev;
  }

  lemma NullThenValueFixedBody(encode: string -> string, name: string, v: string)
    ensures |Flatten([(name, [None, Some(v)])])| == 2
    ensures FixedBody(encode, [(name, [None, Some(v)])])
         == encode(name) + [Separator] + (encode(name) + [Assign] + encode(v))
  {
    var values: seq<Option<string>> := [None, Some(v)];
    var form: FormParams := [(name, values)];
    var n, ev := encode(name), encode(v);
    assert Flatten(form) == [] + Tagged(name, values);
    assert Tagged(name, values) == [(name, None), (name, Some(v))];
    assert Segment(encode, (name, None)) == n;
    assert Segment(encode, (name, Some(v))) == n + [Assign] + ev;
    var fixed := Segments(encode, Flatten(form));
    assert fixed == [n, n + [Assign] + ev];
    assert fixed[1..] == [n + [Assign] + ev];
    assert Join(fixed[1..]) == n + [Assign] + ev;
    assert Join(fixed) == fixed[0] + [Separator] + Join(fixed[1..]);
  }

  /** The example `a -> [null, "2"]` with an identity encoder: the body is `aa=2`. */
  lemma NullBeforeValueExample()
    ensures Body(s => s, [("a", [None, Some("2")])]) == "aa=2"
  {
    var values: seq<Option<string>> := [None, Some("2")];
    assert RunUpTo(s => s, "a", values, 1) == "a";
    assert RunUpTo(s => s, "a", values, 2) == "a" + "" + ("a" + "=2");
  }
}
