/**
 * `TracingParts`: the trace context of one request, and its two wire forms
 * from OpenZipkin's B3 propagation, "single header" (`b3: T-S-f-P`) and
 * "multiple headers" (`X-B3-TraceId`, `X-B3-SpanId`, ...).
 */
module Tracing {
  import opened Wrappers
  import opened Ids

  const B3_HEADER: string := "b3"
  const TRACE_ID_HEADER: string := "X-B3-TraceId"
  const SPAN_ID_HEADER: string := "X-B3-SpanId"
  const PARENT_SPAN_ID_HEADER: string := "X-B3-ParentSpanId"
  const SAMPLED_HEADER: string := "X-B3-Sampled"
  const DEBUG_HEADER: string := "X-B3-Flags"

  /** The sampling decision; `Defer` means no decision has been made yet. */
  datatype Sampled = Accept | Deny | Debug | Defer

  /** The sampling state as the flag segment of a `b3` header. */
  function Flag(s: Sampled): string
  {
    match s
    case Accept => "1"
    case Deny => "0"
    case Debug => "d"
    case Defer => ""
  }

  /** Reads a flag segment back; the four flags are the only ones accepted. */
  function SampledOfFlag(f: string): (r: Option<Sampled>)
    ensures r.Some? <==> (f == "1" || f == "0" || f == "d" || f == "")
    ensures r.Some? ==> Flag(r.value) == f
  {
    if f == "1" then Some(Accept)
    else if f == "0" then Some(Deny)
    else if f == "d" then Some(Debug)
    else if f == "" then Some(Defer)
    else None
  }

  lemma FlagRoundTrip(s: Sampled)
    ensures SampledOfFlag(Flag(s)) == Some(s)
  {
  }

  /**
   * The trace context. `useB3Header` is true for a context read from a `b3`
   * header and false for one read from `X-B3-*` headers; it selects the
   * style the context is written back in.
   */
  datatype TracingParts = TracingParts(
    useB3Header: bool,
    traceId: Option<string>,
    spanId: Option<string>,
    parentSpanId: Option<string>,
    sampled: Sampled)

  /** A trace identifier: 64 or 128 bits in lower-case hexadecimal. */
  predicate IsTraceId(s: string)
  {
    (|s| == 16 || |s| == 32) && IsLowerHex(s)
  }

  /** A span identifier: 64 bits in lower-case hexadecimal. */
  predicate IsSpanId(s: string)
  {
    |s| == 16 && IsLowerHex(s)
  }

  /**
   * The contexts the B3 format can express: trace and span identifiers
   * together, a parent only beside them, and without identifiers only the
   * decision not to sample.
   */
  predicate Valid(c: TracingParts)
  {
    match (c.traceId, c.spanId)
    case (Some(t), Some(s)) =>
      IsTraceId(t) && IsSpanId(s) && (c.parentSpanId.Some? ==> IsSpanId(c.parentSpanId.value))
    case (None, None) => c.parentSpanId.None? && c.sampled == Deny
    case _ => false
  }

  datatype Reason =
    | EmptyHeader
    | SegmentCount(count: nat)
    | InvalidTraceId
    | InvalidSpanId
    | InvalidParentSpanId
    | InvalidFlag
    | MissingId

  /** A rejected header: the offending text and why. */
  datatype ParseError = ParseError(input: string, reason: Reason)

  // ---------------------------------------------------------------------
  // Splitting on and joining with a separator, as Kotlin's `split` and
  // `joinToString` do.

  predicate NoSep(parts: seq<string>, sep: char)
  {
    forall i :: 0 <= i < |parts| ==> sep !in parts[i]
  }

  function Join(parts: seq<string>, sep: char): string
    requires |parts| >= 1
  {
    if |parts| == 1 then parts[0] else parts[0] + [sep] + Join(parts[1..], sep)
  }

  /** The pieces between separators, empty ones included; "" gives [""]. */
  function Split(s: string, sep: char): (parts: seq<string>)
    ensures |parts| >= 1 && NoSep(parts, sep)
    ensures Join(parts, sep) == s
  {
    if s == [] then [""]
    else
      var rest := Split(s[1..], sep);
      if s[0] == sep then
        assert ([""] + rest)[1..] == rest;
        [""] + rest
      else
        var parts := [[s[0]] + rest[0]] + rest[1..];
        assert parts[1..] == rest[1..];
        assert |rest| > 1 ==> Join(rest, sep) == rest[0] + [sep] + Join(rest[1..], sep);
        assert s == [s[0]] + s[1..];
        parts
  }

  /** Splitting text that begins with a separator-free word. */
  lemma {:induction false} SplitAfterWord(w: string, s: string, sep: char)
    requires sep !in w
    ensures Split(w + s, sep) == [w + Split(s, sep)[0]] + Split(s, sep)[1..]
  {
    if w != [] {
      assert (w + s)[1..] == w[1..] + s;
      assert (w + s)[0] == w[0];
      SplitAfterWord(w[1..], s, sep);
      assert [w[0]] + (w[1..] + Split(s, sep)[0]) == w + Split(s, sep)[0];
    } else {
      assert w + s == s;
      assert w + Split(s, sep)[0] == Split(s, sep)[0];
      assert [Split(s, sep)[0]] + Split(s, sep)[1..] == Split(s, sep);
    }
  }

  /** Splitting undoes joining when no piece holds the separator. */
  lemma {:induction false} SplitJoin(parts: seq<string>, sep: char)
    requires |parts| >= 1 && NoSep(parts, sep)
    ensures Split(Join(parts, sep), sep) == parts
  {
    if |parts| == 1 {
      SplitAfterWord(parts[0], "", sep);
      assert parts[0] + "" == parts[0];
    } else {
      var tail := Join(parts[1..], sep);
      SplitJoin(parts[1..], sep);
      assert ([sep] + tail)[1..] == tail;
      assert Split([sep] + tail, sep) == [""] + parts[1..];
      assert parts[0] + [sep] + tail == parts[0] + ([sep] + tail);
      SplitAfterWord(parts[0], [sep] + tail, sep);
      assert parts[0] + "" == parts[0];
    }
  }

  // ---------------------------------------------------------------------
  // The single `b3` header.

  /** The dash-separated segments of the canonical `b3` value. */
  function Segments(c: TracingParts): seq<string>
  {
    match (c.traceId, c.spanId, c.parentSpanId)
    case (Some(t), Some(s), None) => if c.sampled == Defer then [t, s] else [t, s, Flag(c.sampled)]
    case (Some(t), Some(s), Some(p)) => [t, s, Flag(c.sampled), p]
    case _ => [Flag(c.sampled)]
  }

  /** The canonical segments of an expressible context hold no dash, and the first is not empty. */
  lemma SegmentsSplit(c: TracingParts)
    ensures Valid(c) ==> Split(Join(Segments(c), '-'), '-') == Segments(c)
    ensures Valid(c) ==> Join(Segments(c), '-') != ""
  {
    if Valid(c) {
      var segs := Segments(c);
      forall i | 0 <= i < |segs| ensures '-' !in segs[i] {
        if c.traceId.Some? && !(i == 2 && |segs| >= 3) { HexHasNoDash(segs[i]); }
      }
      SplitJoin(segs, '-');
      assert |segs[0]| > 0;
    }
  }

  /**
   * `asB3Header()`: the context as the value of a `b3` header. For an
   * expressible context the value is never empty and its dash-separated
   * segments are exactly the canonical ones.
   */
  function AsB3Header(c: TracingParts): (h: string)
    ensures Valid(c) ==> h != "" && Split(h, '-') == Segments(c)
  {
    SegmentsSplit(c);
    Join(Segments(c), '-')
  }

  /** Decodes the segments of a non-empty `b3` value. */
  function FromSegments(input: string, p: seq<string>): Result<TracingParts, ParseError>
    requires |p| >= 1
  {
    if |p| > 4 then Err(ParseError(input, SegmentCount(|p|)))
    else if |p| == 1 then
      if p[0] == "0" then Ok(TracingParts(true, None, None, None, Deny))
      else Err(ParseError(p[0], InvalidFlag))
    else if !IsTraceId(p[0]) then Err(ParseError(p[0], InvalidTraceId))
    else if !IsSpanId(p[1]) then Err(ParseError(p[1], InvalidSpanId))
    else if |p| == 2 then Ok(TracingParts(true, Some(p[0]), Some(p[1]), None, Defer))
    else
      var flag := SampledOfFlag(p[2]);
      if flag.None? || (|p| == 3 && flag.value == Defer) then Err(ParseError(p[2], InvalidFlag))
      else if |p| == 3 then Ok(TracingParts(true, Some(p[0]), Some(p[1]), None, flag.value))
      else if !IsSpanId(p[3]) then Err(ParseError(p[3], InvalidParentSpanId))
      else Ok(TracingParts(true, Some(p[0]), Some(p[1]), Some(p[3]), flag.value))
  }

  /**
   * `TracingParts.parse(b3)`: `0`, `T-S`, `T-S-f` or `T-S-f-P`, where the
   * flag `f` is `0`, `1` or `d`, and may also be empty in the four-segment
   * form. A context read this way is always in the `b3` style.
   */
  function Parse(b3: string): (r: Result<TracingParts, ParseError>)
    ensures r.Ok? ==> Valid(r.value) && r.value.useB3Header
  {
    if b3 == "" then Err(ParseError(b3, EmptyHeader))
    else FromSegments(b3, Split(b3, '-'))
  }

  lemma HexHasNoDash(s: string)
    requires IsLowerHex(s)
    ensures '-' !in s
  {
  }

  /** Every context the format can express survives writing and reading back. */
  lemma B3RoundTrip(c: TracingParts)
    requires Valid(c)
    ensures Parse(AsB3Header(c)) == Ok(c.(useB3Header := true))
  {
    assert Split(AsB3Header(c), '-') == Segments(c);
  }

  /**
   * The `b3` value is canonical: whatever `Parse` accepts is exactly what
   * `AsB3Header` writes for the result, so the two are mutual inverses.
   */
  lemma ParseCanonical(b3: string, c: TracingParts)
    requires Parse(b3) == Ok(c)
    ensures Valid(c) && c.useB3Header
    ensures AsB3Header(c) == b3
  {
    var p := Split(b3, '-');
    assert Segments(c) == p;
  }

  lemma JoinTwo(a: string, b: string, sep: char)
    ensures Join([a, b], sep) == a + [sep] + b
  {
    assert [a, b][1..] == [b];
  }

  lemma JoinFour(a: string, b: string, f: string, p: string, sep: char)
    ensures Join([a, b, f, p], sep) == a + [sep] + b + [sep] + f + [sep] + p
  {
    assert [a, b, f, p][1..] == [b, f, p];
    assert [b, f, p][1..] == [f, p];
    JoinTwo(f, p, sep);
  }

  /** `T-S` reads as trace and span identifiers, no parent, sampling deferred. */
  lemma ParseTraceSpan(t: string, s: string)
    requires IsTraceId(t) && IsSpanId(s)
    ensures Parse(t + "-" + s) == Ok(TracingParts(true, Some(t), Some(s), None, Defer))
  {
    var c := TracingParts(true, Some(t), Some(s), None, Defer);
    JoinTwo(t, s, '-');
    B3RoundTrip(c);
  }

  /**
   * `T-S-f-P` reads the parent and the flag: `0` denies, `1` accepts, `d`
   * is debug, and an empty flag (`T-S--P`) defers.
   */
  lemma ParseFullForm(t: string, s: string, sampled: Sampled, p: string)
    requires IsTraceId(t) && IsSpanId(s) && IsSpanId(p)
    ensures Parse(t + "-" + s + "-" + Flag(sampled) + "-" + p)
         == Ok(TracingParts(true, Some(t), Some(s), Some(p), sampled))
  {
    var c := TracingParts(true, Some(t), Some(s), Some(p), sampled);
    JoinFour(t, s, Flag(sampled), p, '-');
    B3RoundTrip(c);
  }

  /** `0` alone is the decision not to sample, with no identifiers. */
  lemma ParseDenyOnly()
    ensures Parse("0") == Ok(TracingParts(true, None, None, None, Deny))
  {
    B3RoundTrip(TracingParts(true, None, None, None, Deny));
  }

  /** The canonical `b3` forms: minimal, with the empty flag kept only before a parent. */
  lemma B3HeaderForms(c: TracingParts)
    requires Valid(c)
    ensures c.traceId.Some? && c.parentSpanId.None? && c.sampled == Defer ==>
      AsB3Header(c) == c.traceId.value + "-" + c.spanId.value
    ensures c.traceId.Some? && c.parentSpanId.None? && c.sampled != Defer ==>
      AsB3Header(c) == c.traceId.value + "-" + c.spanId.value + "-" + Flag(c.sampled)
    ensures c.traceId.Some? && c.parentSpanId.Some? ==>
      AsB3Header(c) == c.traceId.value + "-" + c.spanId.value + "-" + Flag(c.sampled) + "-" + c.parentSpanId.value
    ensures c.traceId.None? ==> AsB3Header(c) == "0"
  {
    if c.traceId.Some? {
      var t, s := c.traceId.value, c.spanId.value;
      if c.parentSpanId.Some? {
        JoinFour(t, s, Flag(c.sampled), c.parentSpanId.value, '-');
      } else if c.sampled == Defer {
        JoinTwo(t, s, '-');
      } else {
        var f := Flag(c.sampled);
        assert [t, s, f][1..] == [s, f];
        JoinTwo(s, f, '-');
      }
    }
  }

  // ---------------------------------------------------------------------
  // The multiple `X-B3-*` headers.

  /** The value under `k`, if any. */
  function Get(m: map<string, string>, k: string): Option<string>
  {
    if k in m then Some(m[k]) else None
  }

  /** Adds `k` to `m` when there is a value for it. */
  function Put(m: map<string, string>, k: string, v: Option<string>): map<string, string>
  {
    if v.Some? then m[k := v.value] else m
  }

  predicate IsTracingHeaderName(k: string)
  {
    k == TRACE_ID_HEADER || k == SPAN_ID_HEADER || k == PARENT_SPAN_ID_HEADER
    || k == SAMPLED_HEADER || k == DEBUG_HEADER
  }

  /** The `X-B3-Sampled` value for a sampling state: only accept and deny have one. */
  function SampledHeaderValue(s: Sampled): Option<string>
  {
    match s
    case Accept => Some("1")
    case Deny => Some("0")
    case _ => None
  }

  /** `asHeaders()`: the context as separate `X-B3-*` headers. */
  function AsHeaders(c: TracingParts): (m: map<string, string>)
    ensures Get(m, TRACE_ID_HEADER) == c.traceId
    ensures Get(m, SPAN_ID_HEADER) == c.spanId
    ensures Get(m, PARENT_SPAN_ID_HEADER) == c.parentSpanId
    ensures Get(m, SAMPLED_HEADER) == (if c.sampled == Accept then Some("1")
                                      else if c.sampled == Deny then Some("0") else None)
    ensures Get(m, DEBUG_HEADER) == (if c.sampled == Debug then Some("1") else None)
    ensures forall k :: k in m ==> IsTracingHeaderName(k)
  {
    var debug := DebugHeaderValue(c.sampled);
    Put(Put(Put(Put(Put(map[], TRACE_ID_HEADER, c.traceId), SPAN_ID_HEADER, c.spanId),
      PARENT_SPAN_ID_HEADER, c.parentSpanId), SAMPLED_HEADER, SampledHeaderValue(c.sampled)),
      DEBUG_HEADER, debug)
  }

  /** A request header line: name and value. */
  type Header = (string, string)

  function Lower(c: char): char
  {
    if 'A' <= c <= 'Z' then (c as int - 'A' as int + 'a' as int) as char else c
  }

  /** Header names compare without regard to ASCII case. */
  predicate SameName(a: string, b: string)
  {
    |a| == |b| && forall i :: 0 <= i < |a| ==> Lower(a[i]) == Lower(b[i])
  }

  /** The value of the first request line whose name matches `name`. */
  function Lookup(lines: seq<Header>, name: string): (r: Option<string>)
    ensures r.None? <==> forall i :: 0 <= i < |lines| ==> !SameName(lines[i].0, name)
    ensures r.Some? ==> exists i :: 0 <= i < |lines| && SameName(lines[i].0, name) && lines[i].1 == r.value
                                 && forall j :: 0 <= j < i ==> !SameName(lines[j].0, name)
  {
    if lines == [] then None
    else if SameName(lines[0].0, name) then Some(lines[0].1)
    else
      var r := Lookup(lines[1..], name);
      assert forall i :: 1 <= i < |lines| ==> lines[i] == lines[1..][i - 1];
      if r.Some? then
        var i :| 0 <= i < |lines| - 1 && SameName(lines[1..][i].0, name) && lines[1..][i].1 == r.value
                 && forall j :: 0 <= j < i ==> !SameName(lines[1..][j].0, name);
        assert SameName(lines[i + 1].0, name) && lines[i + 1].1 == r.value;
        assert forall j :: 0 <= j < i + 1 ==> !SameName(lines[j].0, name);
        r
      else r
  }

  /** The `X-B3-Flags` value for a sampling state: only debug has one. */
  function DebugHeaderValue(s: Sampled): Option<string>
  {
    if s == Debug then Some("1") else None
  }

  /**
   * The sampling state from `X-B3-Flags` and `X-B3-Sampled`, inverting
   * `DebugHeaderValue` and `SampledHeaderValue`; the debug flag wins.
   */
  function SampledFromHeaders(flags: Option<string>, sampled: Option<string>): (r: Result<Sampled, ParseError>)
    ensures r.Ok? ==> (r.value == Debug <==> flags == Some("1"))
    ensures r.Ok? && r.value != Debug ==> sampled == SampledHeaderValue(r.value)
    ensures r.Err? <==> flags != Some("1") && sampled.Some? && sampled.value != "1" && sampled.value != "0"
  {
    if flags == Some("1") then Ok(Debug)
    else match sampled
      case None => Ok(Defer)
      case Some(v) => if v == "1" then Ok(Accept) else if v == "0" then Ok(Deny)
                      else Err(ParseError(v, InvalidFlag))
  }

  /** The sampling headers written for a state read back as that state. */
  lemma SampledHeadersRoundTrip(s: Sampled)
    ensures SampledFromHeaders(DebugHeaderValue(s), SampledHeaderValue(s)) == Ok(s)
  {
  }

  /**
   * Reads a context from the values of the `X-B3-*` headers. Identifiers
   * are taken verbatim when well formed; trace and span come together; a
   * context without them can only deny sampling. Such a context is never in
   * the `b3` style.
   */
  function FromValues(t: Option<string>, s: Option<string>, p: Option<string>,
                      flags: Option<string>, sampledValue: Option<string>): (r: Result<TracingParts, ParseError>)
    ensures r.Ok? ==> Valid(r.value) && !r.value.useB3Header
    ensures r.Ok? ==> r.value.traceId == t && r.value.spanId == s && r.value.parentSpanId == p
    ensures r.Ok? && t.None? ==> sampledValue == Some("0")
    ensures r.Ok? ==> SampledFromHeaders(flags, sampledValue) == Ok(r.value.sampled)
  {
    var sampled :- SampledFromHeaders(flags, sampledValue);
    match (t, s)
    case (Some(tv), Some(sv)) =>
      if !IsTraceId(tv) then Err(ParseError(tv, InvalidTraceId))
      else if !IsSpanId(sv) then Err(ParseError(sv, InvalidSpanId))
      else if p.Some? && !IsSpanId(p.value) then Err(ParseError(p.value, InvalidParentSpanId))
      else Ok(TracingParts(false, t, s, p, sampled))
    case (None, None) =>
      if p.Some? then Err(ParseError(p.value, MissingId))
      else if sampled == Deny then Ok(TracingParts(false, None, None, None, Deny))
      else Err(ParseError("", MissingId))
    case (Some(tv), None) => Err(ParseError(tv, MissingId))
    case (None, Some(sv)) => Err(ParseError(sv, MissingId))
  }

  /** Reads a context from `X-B3-*` request headers. */
  function FromHeaders(lines: seq<Header>): (r: Result<TracingParts, ParseError>)
    ensures r.Ok? ==> Valid(r.value) && !r.value.useB3Header
    ensures r.Ok? ==> (&& r.value.traceId == Lookup(lines, TRACE_ID_HEADER)
                       && r.value.spanId == Lookup(lines, SPAN_ID_HEADER)
                       && r.value.parentSpanId == Lookup(lines, PARENT_SPAN_ID_HEADER))
    ensures r.Ok? && r.value.traceId.None? ==> Lookup(lines, SAMPLED_HEADER) == Some("0")
    ensures r.Ok? ==>
      SampledFromHeaders(Lookup(lines, DEBUG_HEADER), Lookup(lines, SAMPLED_HEADER)) == Ok(r.value.sampled)
  {
    FromValues(Lookup(lines, TRACE_ID_HEADER), Lookup(lines, SPAN_ID_HEADER),
      Lookup(lines, PARENT_SPAN_ID_HEADER), Lookup(lines, DEBUG_HEADER), Lookup(lines, SAMPLED_HEADER))
  }

  /** The header values `AsHeaders` writes read back as the same context. */
  lemma ValuesRoundTrip(c: TracingParts)
    requires Valid(c) && !c.useB3Header
    ensures FromValues(c.traceId, c.spanId, c.parentSpanId,
                       DebugHeaderValue(c.sampled), SampledHeaderValue(c.sampled)) == Ok(c)
  {
    SampledHeadersRoundTrip(c.sampled);
  }

  /** The request presents `m`'s value, or its absence, under tracing header `k`. */
  predicate Carried(lines: seq<Header>, m: map<string, string>, k: string)
  {
    Lookup(lines, k) == Get(m, k)
  }

  /** The request presents exactly the tracing headers of `m`, in any order and case. */
  predicate Carries(lines: seq<Header>, m: map<string, string>)
  {
    && Carried(lines, m, TRACE_ID_HEADER)
    && Carried(lines, m, SPAN_ID_HEADER)
    && Carried(lines, m, PARENT_SPAN_ID_HEADER)
    && Carried(lines, m, SAMPLED_HEADER)
    && Carried(lines, m, DEBUG_HEADER)
  }

  /** Headers written by `AsHeaders` read back as the same context. */
  lemma MultiRoundTrip(c: TracingParts, lines: seq<Header>)
    requires Valid(c) && !c.useB3Header
    requires Carries(lines, AsHeaders(c))
    ensures FromHeaders(lines) == Ok(c)
  {
    var m := AsHeaders(c);
    assert Carried(lines, m, TRACE_ID_HEADER) && Carried(lines, m, SPAN_ID_HEADER);
    assert Carried(lines, m, PARENT_SPAN_ID_HEADER);
    assert Carried(lines, m, DEBUG_HEADER) && Carried(lines, m, SAMPLED_HEADER);
    ValuesRoundTrip(c);
  }

  /** With only trace and span set, exactly those two headers are written. */
  lemma AsHeadersTraceSpan(t: string, s: string)
    ensures AsHeaders(TracingParts(false, Some(t), Some(s), None, Defer))
         == map[TRACE_ID_HEADER := t, SPAN_ID_HEADER := s]
  {
    var m := AsHeaders(TracingParts(false, Some(t), Some(s), None, Defer));
    var e := map[TRACE_ID_HEADER := t, SPAN_ID_HEADER := s];
    forall k | k in m ensures k in e && m[k] == e[k] {
      assert IsTracingHeaderName(k);
    }
    assert m.Keys == e.Keys;
  }

  /** Denied sampling without identifiers is the single header `X-B3-Sampled: 0`. */
  lemma AsHeadersDenyOnly()
    ensures AsHeaders(TracingParts(false, None, None, None, Deny)) == map[SAMPLED_HEADER := "0"]
  {
    var m := AsHeaders(TracingParts(false, None, None, None, Deny));
    var e := map[SAMPLED_HEADER := "0"];
    forall k | k in m ensures k in e && m[k] == e[k] {
      assert IsTracingHeaderName(k);
    }
    assert m.Keys == e.Keys;
  }
}
