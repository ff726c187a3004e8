/**
 * The `ZipkinIds` feature, without the web framework around it: for each
 * request whose path starts with a configured prefix it reads the incoming
 * B3 headers (or starts a new trace), stores the context in the call and
 * writes the context back onto the response in its own header style.
 */
module ZipkinIds {
  import opened Wrappers
  import opened Ids
  import opened Tracing

  /** `ZipkinIds.Configuration`: the header style for new traces, and where traces start. */
  datatype Configuration = Configuration(b3Header: bool, initiateTracePathPrefixes: seq<string>)

  /** The defaults: separate `X-B3-*` headers, every path. */
  const DefaultConfiguration: Configuration := Configuration(false, ["/"])

  /** Whether `path` starts with any of `prefixes`. */
  function StartsWithAny(prefixes: seq<string>, path: string): (r: bool)
    ensures r <==> exists i :: 0 <= i < |prefixes| && prefixes[i] <= path
  {
    if prefixes == [] then false
    else
      var r := StartsWithAny(prefixes[1..], path);
      assert forall i :: 1 <= i < |prefixes| ==> prefixes[i] == prefixes[1..][i - 1];
      assert r ==> exists i :: 1 <= i < |prefixes| && prefixes[i] <= path;
      prefixes[0] <= path || r
  }

  /** Whether the request carries any of the separate `X-B3-*` headers. */
  predicate HasMultiHeaders(lines: seq<Header>)
  {
    || Lookup(lines, TRACE_ID_HEADER).Some?
    || Lookup(lines, SPAN_ID_HEADER).Some?
    || Lookup(lines, PARENT_SPAN_ID_HEADER).Some?
    || Lookup(lines, SAMPLED_HEADER).Some?
    || Lookup(lines, DEBUG_HEADER).Some?
  }

  /**
   * The context the request propagates, decoded, if it has tracing headers:
   * a `b3` header takes precedence over the separate ones. A context that
   * decodes is well formed, in `b3` style exactly when it came from a `b3`
   * header, and then writes back as that very header value; one read from
   * `X-B3-*` headers holds their ids.
   */
  function Incoming(lines: seq<Header>): (r: Option<Result<TracingParts, ParseError>>)
    ensures r.None? <==> Lookup(lines, B3_HEADER).None? && !HasMultiHeaders(lines)
    ensures r.Some? && r.value.Ok? ==>
      Valid(r.value.value) && (r.value.value.useB3Header <==> Lookup(lines, B3_HEADER).Some?)
    ensures r.Some? && r.value.Ok? && Lookup(lines, B3_HEADER).Some? ==>
      AsB3Header(r.value.value) == Lookup(lines, B3_HEADER).value
    ensures r.Some? && r.value.Ok? && Lookup(lines, B3_HEADER).None? ==>
      && r.value.value.traceId == Lookup(lines, TRACE_ID_HEADER)
      && r.value.value.spanId == Lookup(lines, SPAN_ID_HEADER)
      && r.value.value.parentSpanId == Lookup(lines, PARENT_SPAN_ID_HEADER)
  {
    match Lookup(lines, B3_HEADER)
    case Some(b3) =>
      var p := Parse(b3);
      if p.Ok? then ParseCanonical(b3, p.value); Some(p) else Some(p)
    case None => if HasMultiHeaders(lines) then Some(FromHeaders(lines)) else None
  }

  /** A newly initiated trace: fresh 64-bit trace and span identifiers, in the configured style. */
  function Fresh(config: Configuration, traceDraw: Long, spanDraw: Long): (c: TracingParts)
    ensures Valid(c) && c.useB3Header == config.b3Header
    ensures c.traceId.Some? && |c.traceId.value| == 16 && HexValue(c.traceId.value) == Unsigned(traceDraw)
    ensures c.spanId.Some? && |c.spanId.value| == 16 && HexValue(c.spanId.value) == Unsigned(spanDraw)
    ensures c.parentSpanId.None? && c.sampled == Defer
  {
    TracingParts(config.b3Header, Some(NextId(Id64Bits, [traceDraw])), Some(NextId(Id64Bits, [spanDraw])),
      None, Defer)
  }

  /**
   * The context stored for a request: none off the configured paths; else
   * the incoming one, or a fresh one when there is none or it does not
   * decode.
   */
  function Decide(config: Configuration, path: string, lines: seq<Header>, traceDraw: Long, spanDraw: Long)
    : (r: Option<TracingParts>)
    ensures r.Some? <==> StartsWithAny(config.initiateTracePathPrefixes, path)
    ensures r.Some? ==> Valid(r.value)
  {
    if !StartsWithAny(config.initiateTracePathPrefixes, path) then None
    else match Incoming(lines)
      case Some(Ok(c)) => Some(c)
      case _ => Some(Fresh(config, traceDraw, spanDraw))
  }

  /**
   * The response headers for a context, in the context's own style: the
   * single `b3` header, which reads back as the context, or only `X-B3-*`
   * headers.
   */
  function ResponseHeaders(c: TracingParts): (m: map<string, string>)
    ensures c.useB3Header ==> m.Keys == {B3_HEADER}
    ensures c.useB3Header && Valid(c) ==> Parse(m[B3_HEADER]) == Ok(c)
    ensures !c.useB3Header ==> m == AsHeaders(c) && B3_HEADER !in m
  {
    if !c.useB3Header then AsHeaders(c)
    else if Valid(c) then B3RoundTrip(c); map[B3_HEADER := AsB3Header(c)]
    else map[B3_HEADER := AsB3Header(c)]
  }

  /** One request being handled: its path and headers, and what the feature records on it. */
  class Call {
    const path: string
    const requestHeaders: seq<Header>
    /** The context stored under `tracingPartsKey` in the call's attributes. */
    var tracingParts: Option<TracingParts>
    var responseHeaders: map<string, string>

    constructor (path: string, requestHeaders: seq<Header>)
      ensures this.path == path && this.requestHeaders == requestHeaders
      ensures tracingParts.None? && responseHeaders == map[]
    {
      this.path := path;
      this.requestHeaders := requestHeaders;
      tracingParts := None;
      responseHeaders := map[];
    }
  }

  /** Sets each of `headers` on the response, leaving the other response headers as they were. */
  method SetResponseHeaders(call: Call, headers: map<string, string>)
    modifies call
    ensures call.responseHeaders == old(call.responseHeaders) + headers
    ensures call.tracingParts == old(call.tracingParts)
  {
    var pending := headers.Keys;
    while pending != {}
      invariant pending <= headers.Keys
      invariant call.tracingParts == old(call.tracingParts)
      invariant call.responseHeaders
             == old(call.responseHeaders) + map k | k in headers.Keys - pending :: headers[k]
      decreases pending
    {
      var k :| k in pending;
      call.responseHeaders := call.responseHeaders[k := headers[k]];
      pending := pending - {k};
    }
    assert (map k | k in headers.Keys - pending :: headers[k]) == headers;
  }

  /**
   * The feature's interception of one call: decides the context, stores it
   * in the call and sets its headers on the response.
   */
  method Intercept(config: Configuration, call: Call, traceDraw: Long, spanDraw: Long)
    modifies call
    ensures var d := Decide(config, call.path, call.requestHeaders, traceDraw, spanDraw);
      call.tracingParts == if d.Some? then d else old(call.tracingParts)
    ensures var d := Decide(config, call.path, call.requestHeaders, traceDraw, spanDraw);
      call.responseHeaders == old(call.responseHeaders) + if d.Some? then ResponseHeaders(d.value) else map[]
  {
    var d := Decide(config, call.path, call.requestHeaders, traceDraw, spanDraw);
    if d.Some? {
      call.tracingParts := d;
      SetResponseHeaders(call, ResponseHeaders(d.value));
    } else {
      assert old(call.responseHeaders) + map[] == call.responseHeaders;
    }
  }

  // ---------------------------------------------------------------------
  // What the feature promises.

  /** With prefixes `["/api"]`, `/api/v1/premium-sms` gets a context and `/health` does not. */
  lemma ApiPrefixScenario(lines: seq<Header>, traceDraw: Long, spanDraw: Long)
    ensures Decide(Configuration(false, ["/api"]), "/api/v1/premium-sms", lines, traceDraw, spanDraw).Some?
    ensures Decide(Configuration(false, ["/api"]), "/health", lines, traceDraw, spanDraw).None?
  {
    assert "/api" <= "/api/v1/premium-sms";
    assert !("/api" <= "/health") by { assert "/api"[1] != "/health"[1]; }
  }

  /** The default configuration initiates traces on every path. */
  lemma DefaultInitiatesEverywhere(path: string, lines: seq<Header>, traceDraw: Long, spanDraw: Long)
    requires |path| > 0 && path[0] == '/'
    ensures Decide(DefaultConfiguration, path, lines, traceDraw, spanDraw).Some?
  {
    assert DefaultConfiguration.initiateTracePathPrefixes[0] <= path;
  }

  /** An incoming `b3` header that decodes is echoed unchanged, whatever the configuration. */
  lemma EchoB3Header(config: Configuration, path: string, lines: seq<Header>, b3: string,
                     traceDraw: Long, spanDraw: Long)
    requires StartsWithAny(config.initiateTracePathPrefixes, path)
    requires Lookup(lines, B3_HEADER) == Some(b3) && Parse(b3).Ok?
    ensures Decide(config, path, lines, traceDraw, spanDraw) == Some(Parse(b3).value)
    ensures ResponseHeaders(Parse(b3).value) == map[B3_HEADER := b3]
  {
    ParseCanonical(b3, Parse(b3).value);
  }

  /** The default configuration and an incoming `b3: T-S` store `T` and `S` and echo `b3: T-S`. */
  lemma B3TraceSpanScenario(path: string, lines: seq<Header>, t: string, s: string,
                            traceDraw: Long, spanDraw: Long)
    requires |path| > 0 && path[0] == '/'
    requires IsTraceId(t) && IsSpanId(s)
    requires Lookup(lines, B3_HEADER) == Some(t + "-" + s)
    ensures Decide(DefaultConfiguration, path, lines, traceDraw, spanDraw)
         == Some(TracingParts(true, Some(t), Some(s), None, Defer))
    ensures ResponseHeaders(TracingParts(true, Some(t), Some(s), None, Defer)) == map[B3_HEADER := t + "-" + s]
  {
    DefaultInitiatesEverywhere(path, lines, traceDraw, spanDraw);
    ParseTraceSpan(t, s);
    EchoB3Header(DefaultConfiguration, path, lines, t + "-" + s, traceDraw, spanDraw);
  }

  /**
   * Incoming `X-B3-*` headers that decode are stored and echoed as
   * `X-B3-*` headers with the same identifiers, even when the configured
   * style is `b3`.
   */
  lemma EchoMultiHeaders(config: Configuration, path: string, lines: seq<Header>, c: TracingParts,
                         traceDraw: Long, spanDraw: Long)
    requires StartsWithAny(config.initiateTracePathPrefixes, path)
    requires Lookup(lines, B3_HEADER).None? && FromHeaders(lines) == Ok(c)
    ensures Decide(config, path, lines, traceDraw, spanDraw) == Some(c)
    ensures ResponseHeaders(c) == AsHeaders(c)
    ensures Get(ResponseHeaders(c), TRACE_ID_HEADER) == Lookup(lines, TRACE_ID_HEADER)
    ensures Get(ResponseHeaders(c), SPAN_ID_HEADER) == Lookup(lines, SPAN_ID_HEADER)
    ensures Get(ResponseHeaders(c), PARENT_SPAN_ID_HEADER) == Lookup(lines, PARENT_SPAN_ID_HEADER)
    ensures B3_HEADER !in ResponseHeaders(c)
  {
    assert HasMultiHeaders(lines) by {
      if c.traceId.None? {
        assert c.sampled == Deny;
        assert Lookup(lines, SAMPLED_HEADER).Some?;
      }
    }
    assert !IsTracingHeaderName(B3_HEADER);
  }

  /** `X-B3-TraceId` and `X-B3-SpanId` alone, of 128 and 64 bits, are stored verbatim. */
  lemma StoredVerbatim(config: Configuration, path: string, lines: seq<Header>, t: string, s: string,
                       traceDraw: Long, spanDraw: Long)
    requires StartsWithAny(config.initiateTracePathPrefixes, path)
    requires IsTraceId(t) && IsSpanId(s)
    requires Lookup(lines, B3_HEADER).None?
    requires Lookup(lines, TRACE_ID_HEADER) == Some(t) && Lookup(lines, SPAN_ID_HEADER) == Some(s)
    requires Lookup(lines, PARENT_SPAN_ID_HEADER).None?
    requires Lookup(lines, SAMPLED_HEADER).None? && Lookup(lines, DEBUG_HEADER).None?
    ensures Decide(config, path, lines, traceDraw, spanDraw) == Some(TracingParts(false, Some(t), Some(s), None, Defer))
  {
    assert FromHeaders(lines) == Ok(TracingParts(false, Some(t), Some(s), None, Defer));
  }

  /**
   * Without tracing headers a trace is initiated, and only then does the
   * configured style decide the response: `b3` alone, or `X-B3-TraceId`
   * and `X-B3-SpanId` without `b3`.
   */
  lemma FreshUsesConfiguredStyle(config: Configuration, path: string, lines: seq<Header>,
                                 traceDraw: Long, spanDraw: Long)
    requires StartsWithAny(config.initiateTracePathPrefixes, path)
    requires Lookup(lines, B3_HEADER).None? && !HasMultiHeaders(lines)
    ensures Decide(config, path, lines, traceDraw, spanDraw) == Some(Fresh(config, traceDraw, spanDraw))
    ensures var h := ResponseHeaders(Fresh(config, traceDraw, spanDraw));
      if config.b3Header then h.Keys == {B3_HEADER}
      else h.Keys == {TRACE_ID_HEADER, SPAN_ID_HEADER}
  {
    var c := Fresh(config, traceDraw, spanDraw);
    var h := ResponseHeaders(c);
    if !config.b3Header {
      forall k | k in h ensures k == TRACE_ID_HEADER || k == SPAN_ID_HEADER {
        assert IsTracingHeaderName(k);
      }
    }
  }

  /** A `b3` header that does not decode is replaced by a freshly initiated trace. */
  lemma FreshOnMalformedB3(config: Configuration, path: string, lines: seq<Header>, b3: string,
                           traceDraw: Long, spanDraw: Long)
    requires StartsWithAny(config.initiateTracePathPrefixes, path)
    requires Lookup(lines, B3_HEADER) == Some(b3) && Parse(b3).Err?
    ensures Decide(config, path, lines, traceDraw, spanDraw) == Some(Fresh(config, traceDraw, spanDraw))
  {
  }

  /**
   * Separate `X-B3-*` headers that do not decode, with no `b3` header, are
   * replaced by a freshly initiated trace too.
   */
  lemma FreshOnMalformedMultiHeaders(config: Configuration, path: string, lines: seq<Header>,
                                     traceDraw: Long, spanDraw: Long)
    requires StartsWithAny(config.initiateTracePathPrefixes, path)
    requires Lookup(lines, B3_HEADER).None? && HasMultiHeaders(lines) && FromHeaders(lines).Err?
    ensures Decide(config, path, lines, traceDraw, spanDraw) == Some(Fresh(config, traceDraw, spanDraw))
  {
  }
}
