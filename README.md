# B3 trace-context propagation for a Ktor server, in Dafny

This project models the core of `ktor-features-zipkin`. That is a Ktor
server feature, `ZipkinIds`, that carries Zipkin trace identifiers through
HTTP requests using OpenZipkin's B3 propagation format. It models three
things:

- `Ids`: the formatting half of `nextId`. Random signed 64-bit values
  become zero-padded lower-case hexadecimal: 16 characters for
  `ID_64_BITS`, 32 for `ID_128_BITS`.
- `Tracing`: the `TracingParts` record and its B3 codec. `Parse` reads the
  single `b3` header (`0`, `T-S`, `T-S-f`, `T-S-f-P`). `AsB3Header` writes
  it. `AsHeaders` writes the separate `X-B3-TraceId`, `X-B3-SpanId`,
  `X-B3-ParentSpanId`, `X-B3-Sampled` and `X-B3-Flags` headers.
  `FromHeaders` reads them back from the request's header lines.
- `ZipkinIds`: the per-request decision with Ktor's pipeline removed.
  `Decide` maps the configuration, the request path, the request headers
  and the random draws to the context stored for the call, or none.
  `ResponseHeaders` gives the headers written back. The `Call` class holds
  the stored context (Ktor's `call.attributes[tracingPartsKey]`) and the
  response header map. `Intercept` updates both.

The behaviour of `TracingParts` and `ZipkinIds` is modelled from what
`test/TracingPartsTest.kt` and `test/ZipkinIdsTest.kt` assert, and from the
B3 format where those tests are silent.
Choices made where the tests fix nothing:

- The leading Boolean of `TracingParts` is named `useB3Header`. The field
  could be read as "initiated here", but the tests do not fit that reading:
  parsing a `b3` header gives `true`, and a context read from `X-B3-*`
  headers is echoed as `X-B3-*` even with `b3Header = true`
  (test/ZipkinIdsTest.kt:80-95). So the flag selects the output style. A
  freshly initiated trace takes `b3Header` from the configuration.
- The `b3` grammar accepts `0` alone, `T-S`, `T-S-f` with a non-empty flag,
  and `T-S-f-P` with a flag that may be empty. The trace id is 16 or 32
  lower-case hex characters. Span and parent ids are 16. Anything else is a
  `ParseError` naming the segment and the reason. With this grammar,
  `Parse` and `AsB3Header` are inverse on well-formed `b3`-style contexts:
  `B3RoundTrip` and `ParseCanonical`. How malformed input is rejected is the B3 format's
  grammar as this model states it. The tests do not pin it down.
- `X-B3-Flags: 1` means debug and wins over `X-B3-Sampled`.
  `X-B3-Sampled` is `1` (accept) or `0` (deny), and is absent when
  sampling is deferred. Trace and span ids come together. Without them, the
  headers can only say "deny".
- Request headers are a sequence of `(name, value)` lines. Lookup takes
  the first line whose name matches, ignoring ASCII case, as Ktor's
  request headers do. A `b3` header takes precedence over `X-B3-*`
  headers.
- The path prefixes gate the whole interception. Off the configured paths,
  no context is stored and no header is written. The default prefix list
  is `["/"]`: the tests expect a context on `/` with the default
  configuration.
- An incoming header that does not decode is treated like no header: a
  new trace is initiated.

## Model

| member | source | states |
|---|---|---|
| Ids.NextId | test/ZipkinIdsTest.kt:19-27 | `nextId` with its random draws given: 16 characters for 64 bits and 32 for 128 bits, all lower-case hex, denoting the unsigned draws with the first one most significant |
| Ids.NextIdInjective | test/ZipkinIdsTest.kt:19-27 | distinct random draws never give the same identifier |
| Ids.FixedHexValue | test/ZipkinIdsTest.kt:19-22 | zero-padded hex formatting of a value that fits is read back as the same value |
| Tracing.SampledOfFlag | test/TracingPartsTest.kt:26-43 | the `b3` flag is `1`, `0`, `d` or empty and reads back as the sampling state whose flag it is |
| Tracing.FlagRoundTrip | test/TracingPartsTest.kt:26-43 | the inverse law: the flag written for each sampling state reads back as that state |
| Tracing.Parse | test/TracingPartsTest.kt:19-50 | whatever the `b3` parser accepts is a well-formed context in `b3` style |
| Tracing.AsB3Header | test/TracingPartsTest.kt:56-81 | for every well-formed context the written `b3` value is non-empty and splits at its dashes into exactly the canonical segments; `B3RoundTrip` and `ParseCanonical` prove it inverse to `Parse`, `B3HeaderForms` gives its four shapes |
| Tracing.B3RoundTrip | test/TracingPartsTest.kt:18-81 | every well-formed context, written as `b3` and parsed, comes back unchanged except that it is now in `b3` style |
| Tracing.ParseCanonical | test/TracingPartsTest.kt:18-81 | every accepted `b3` value is exactly what `AsB3Header` writes for the parsed context |
| Tracing.ParseTraceSpan | test/TracingPartsTest.kt:19-22 | `T-S` parses to `(true, T, S, null, DEFER)` |
| Tracing.ParseFullForm | test/TracingPartsTest.kt:26-43 | `T-S-f-P` parses to parent `P` with `0` deny, `1` accept, `d` debug, and an empty flag deferring |
| Tracing.ParseDenyOnly | test/TracingPartsTest.kt:46-50 | `0` parses to `(true, null, null, null, DENY)` |
| Tracing.B3HeaderForms | test/TracingPartsTest.kt:56-81 | the canonical `b3` forms: `T-S` when deferred without a parent, `T-S-f` with a decision and no parent, `T-S-f-P` with a parent (empty flag when deferred), `0` without ids |
| Tracing.AsHeaders | test/TracingPartsTest.kt:87-135 | trace, span and parent headers appear exactly when those ids are set, with their values; `X-B3-Sampled` is `1` only for ACCEPT and `0` only for DENY; `X-B3-Flags: 1` only for DEBUG; no other keys |
| Tracing.AsHeadersTraceSpan | test/TracingPartsTest.kt:87-91 | trace and span ids alone give exactly `{X-B3-TraceId: T, X-B3-SpanId: S}` |
| Tracing.AsHeadersDenyOnly | test/TracingPartsTest.kt:129-135 | `(false, null, null, null, DENY)` gives exactly `{X-B3-Sampled: "0"}` |
| Tracing.Lookup | test/ZipkinIdsTest.kt:86-92 | a request header is the value of the first line whose name matches ignoring case, and is absent only when no line matches |
| Tracing.SampledFromHeaders | test/ZipkinIdsTest.kt:80-95 | the decoder of the sampling headers inverts their encoder: a decoded state is DEBUG exactly when `X-B3-Flags` is `1`, any other decoded state is the one whose `X-B3-Sampled` value was sent, and decoding fails exactly when neither flag is `1` nor the sampled value `1`, `0` or absent (test/TracingPartsTest.kt:94-126 tests the encoder `asHeaders`, not this decoder) |
| Tracing.SampledHeadersRoundTrip | test/TracingPartsTest.kt:94-126 | the `X-B3-Flags` and `X-B3-Sampled` values written for every sampling state decode back to that state |
| Tracing.FromHeaders | test/ZipkinIdsTest.kt:140-153 | a context read from `X-B3-*` headers is well formed, not in `b3` style, holds the request's ids verbatim, and its sampling state is what the request's sampling headers decode to |
| Tracing.MultiRoundTrip | test/TracingPartsTest.kt:87-135 | a request carrying the headers `AsHeaders` writes, in any order and case, reads back as the same context |
| ZipkinIds.StartsWithAny | test/ZipkinIdsTest.kt:30-51 | true exactly when some configured prefix is a prefix of the path |
| ZipkinIds.Incoming | test/ZipkinIdsTest.kt:66-95 | tracing headers are absent exactly when there is neither a `b3` header nor any `X-B3-*` header; a decoded context is well formed and in `b3` style exactly when a `b3` header was sent, which then takes precedence and is what the context writes back; otherwise the context holds the `X-B3-*` ids; `EchoB3Header` and `EchoMultiHeaders` build on it |
| ZipkinIds.Fresh | test/ZipkinIdsTest.kt:100-125 | a new trace has 16-character trace and span ids from the two draws, no parent, deferred sampling and the configured style |
| ZipkinIds.Decide | test/ZipkinIdsTest.kt:30-51 | a context is stored exactly when the path starts with a configured prefix, and a stored context is always well formed |
| ZipkinIds.ResponseHeaders | test/ZipkinIdsTest.kt:66-125 | a `b3`-style context is answered with the single `b3` header, which reads back as the context; any other context with exactly the `X-B3-*` headers of `AsHeaders` and no `b3`; `EchoB3Header`, `EchoMultiHeaders` and `FreshUsesConfiguredStyle` apply it to the tests' requests |
| ZipkinIds.ApiPrefixScenario | test/ZipkinIdsTest.kt:33-50 | with prefixes `["/api"]`, `/api/v1/premium-sms` gets a context and `/health` gets none |
| ZipkinIds.DefaultInitiatesEverywhere | test/ZipkinIdsTest.kt:140-153 | the default configuration stores a context on every path starting with `/` |
| ZipkinIds.EchoB3Header | test/ZipkinIdsTest.kt:66-77 | a decodable incoming `b3` header is stored and echoed unchanged as the only response header, whatever the configuration |
| ZipkinIds.B3TraceSpanScenario | test/ZipkinIdsTest.kt:66-77 | with the default configuration, `b3: T-S` stores `(true, T, S, null, DEFER)` and the response has `b3: T-S` |
| ZipkinIds.EchoMultiHeaders | test/ZipkinIdsTest.kt:80-95 | decodable incoming `X-B3-*` headers are stored and echoed as `X-B3-*` headers with the same ids and no `b3`, even when `b3Header` is set |
| ZipkinIds.StoredVerbatim | test/ZipkinIdsTest.kt:140-153 | a 32-character trace id and a 16-character span id from `X-B3-*` headers are stored verbatim, sampling deferred |
| ZipkinIds.FreshUsesConfiguredStyle | test/ZipkinIdsTest.kt:100-125 | without tracing headers a new trace is started; the response has only `b3` when `b3Header` is set, else exactly `X-B3-TraceId` and `X-B3-SpanId` |
| ZipkinIds.FreshOnMalformedB3 | test/ZipkinIdsTest.kt:66-77 | a `b3` header that does not decode gives a freshly initiated trace |
| ZipkinIds.FreshOnMalformedMultiHeaders | test/ZipkinIdsTest.kt:80-95 | with no `b3` header, `X-B3-*` headers that do not decode give a freshly initiated trace |
| ZipkinIds.SetResponseHeaders | test/ZipkinIdsTest.kt:100-108 | setting the headers one at a time leaves the response map equal to the old map overridden by the new headers, and the stored context unchanged |
| ZipkinIds.Intercept | test/ZipkinIdsTest.kt:30-153 | the call's stored context becomes `Decide`'s result and its response headers gain `ResponseHeaders` of it; off the configured paths nothing changes |
| ZipkinIds.Call.constructor | test/ZipkinIdsTest.kt:133-137 | a new call has no stored context and no response headers |

## Left out

- The random source and its thread safety: the random 64-bit draws are parameters of `NextId`, `Fresh`, `Decide` and `Intercept`.
- Ktor itself: installing the feature, the pipeline phase, `withTestApplication` and `handleRequest`. `Call` stands for the request and its attribute bag.
- The "feature not installed" cases (test/ZipkinIdsTest.kt:56-63, 133-137): without the feature, nothing runs.
- HTTP methods: no behaviour depends on them.
- Span reporting, sampling policy and timestamps: nothing in the core touches them.
- Repeated response headers: Ktor's `response.header` appends a value. The model writes into a map, so a second value for a name replaces the first. The feature never writes a name twice.
- The build and test-framework configuration (build.gradle.kts, src/test/kotlin/ProjectConfig.kt): they contain no logic.
