# Meeta MCP proxy: frame assembler and protocol translator

A Dafny model of the two pieces of logic in `index.js` of the Meeta MCP HTTP
proxy. The proxy reads JSON-RPC 2.0 requests line by line on standard input,
answers `initialize` itself, forwards everything else as one HTTPS POST, and
writes each answer to standard output as `Content-Length: N\r\n\r\n<json>`.

- `json.dfy` (module `JsonValue`): JSON values and JavaScript property
  reads on them. Reading a property of `undefined` or `null` throws V8's
  TypeError. Reading a missing member gives `undefined`. The model leaves
  `undefined` members out when it builds an object, as JSON.stringify does;
  the proxy only ever serialises these objects.
  JSON.parse, JSON.stringify and the pretty-printing JSON.stringify are the
  three functions of a `Codec`. Their behaviour is outside the model.
- `decimal.dfy` (module `Decimal`): the decimal numeral that the
  Content-Length header carries, and how it is read back.
- `http.dfy` (module `Http`): how a call of `sendHttpRequest` settles. It
  resolves with the parsed reply, or it rejects with one of three errors:
  the reply did not parse, the request timed out, or the socket failed.
- `translator.dfy` (module `Translator`): `handleMcpRequest`. `Dispatch` is
  the ordered if-chain on `method`. `Envelope` is the body that would be
  POSTed. `Respond` is the handler's fate: a `Response`, or a rejection
  for a request that is `null`.
- `framing.dfy` (module `Framing`): the `line` handler over the
  module-level `buffer`. `Step` and `Feed` are its specification for one
  line and for a run of lines. `Assembler` is a class with a `buffer` field
  and a ghost log `output` of the frames written. `Assembler.OnLine` is
  proved against `Step`.

Three behaviours of the code are easy to miss; the model follows the code:

- Header lines are not ignored. A line starting with `Content-Length:` is
  appended to the buffer before the check that skips it. So a
  header-framed body is parsed together with its header text
  (`HeaderFramedBodyUnanswered`).
- The 10,000-character ceiling is checked only after a failed parse.
  Header lines return before that check, so they can grow the buffer
  without bound (`HeadersAccumulate`).
- The Content-Length count is the JavaScript string length of the
  response. It is not a byte count.

## Model

| member | source | states |
|---|---|---|
| JsonValue.Lookup | index.js:93 | reading a member gives its last binding in the object; the read gives undefined exactly when no member has that key |
| JsonValue.Defined | index.js:129-134 | an object literal built with possibly-undefined values is serialised without its undefined members, and every member read gives what the literal gave |
| JsonValue.Get | index.js:93 | `base.key` throws V8's TypeError exactly when `base` is undefined or null, naming which and the key; otherwise it gives the member of that name, and undefined for a missing member or a non-object |
| Decimal.NatToString | index.js:202 | the `${responseStr.length}` numeral is non-empty, made only of digits, and starts with 0 only for zero |
| Decimal.ParseNatToString | index.js:202 | the length numeral reads back as the length |
| Http.Settle | index.js:61-78 | the call resolves exactly when a complete body parses, with the parsed value; an unparseable body rejects carrying that body; a timeout rejects as a timeout; a socket error rejects with the socket's message |
| Http.RejectionMessage | index.js:61-78 | a rejection's message is "Failed to parse response: " followed by the whole body for an unparseable reply, "Request timeout" for a timeout, and the socket's own message for a socket error |
| Translator.Dispatch | index.js:93-153 | the if-chain answers locally exactly for `initialize`; it throws exactly for a `null` request and for `tools/call` whose params are undefined or null; `tools/list` sends the fixed envelope; every other request, object or not, is sent as it is |
| Translator.Envelope | index.js:93-153 | nothing is POSTed exactly for a `null` request, for `initialize`, and for `tools/call` whose params are undefined or null |
| Translator.CallEnvelope | index.js:129-135 | building the `tools/call` body throws exactly when params are undefined or null; otherwise the body has only method "tools/call" and params, and params is an object with exactly the name and arguments of the request's params, each left out when undefined, so `{}` when it has neither |
| Translator.Reshape | index.js:118-158 | only a `null` reply to `tools/list` throws, reading 'tools'; `tools/list` gives {tools: reply.tools} when that is truthy and {tools: []} otherwise; `tools/call` gives one text block holding the reply if it is a string and the pretty-printed reply otherwise; any other method gives the reply as it is |
| Translator.Catch | index.js:160-171 | the catch block answers error -32603 "Internal error" on the request's id with the thrown message as data, and itself throws, reading 'id' of null, exactly for a `null` request |
| Translator.Respond | index.js:88-172 | every request except `null` is answered; every answer carries the request's id; every error answer has code -32603 and message "Internal error" |
| Translator.InitializeAnsweredLocally | index.js:93-109 | `initialize` sends nothing and, whatever the network or the params, answers protocolVersion "2024-11-05", serverInfo {name "meeta-mcp-proxy", version "1.0.0"}, capabilities {tools:{}, resources:{}} on the request's id |
| Translator.ToolsListForwarded | index.js:112-125 | `tools/list` sends exactly {method:"tools/list", params:{}}; the result is {tools: reply.tools} when that is truthy and {tools: []} otherwise; a null reply gives the internal error for reading 'tools' of null |
| Translator.ToolsCallForwarded | index.js:128-150 | `tools/call` whose params are neither undefined nor null sends only method and params, and params is an object with exactly the name and arguments of the request's params (the empty object `{}` when it has neither, as for a string, number, boolean or array); the result is one text block holding the reply if it is a string and the pretty-printed reply otherwise |
| Translator.ToolsCallWithoutParams | index.js:128-135 | `tools/call` whose params are undefined or null sends nothing and answers the internal error for reading 'name' of undefined or null |
| Translator.OtherMethodsPassThrough | index.js:152-158 | any other method, or a request that is not an object, is sent unchanged, and the reply becomes the result unchanged |
| Translator.FailedCallIsInternalError | index.js:160-171 | a call that is sent and does not resolve is answered with error -32603 "Internal error" whose data is the rejection's message ("Failed to parse response: " + body, "Request timeout", or the socket's message), never with a result |
| Translator.NetworkEventAnswered | index.js:61-78 | for a request that is sent, a delivered body that parses is handled as that reply; an unparseable body is answered with error -32603 "Internal error" whose data is "Failed to parse response: " followed by the body; a timeout with data "Request timeout"; a socket error with the socket's message |
| Translator.NullRequestEscapes | index.js:160-171 | a `null` request sends nothing, and the catch block throws again reading 'id', so the handler rejects and gives no answer |
| Translator.ResponseObjectShape | index.js:154-170 | the object serialised for any answer has jsonrpc "2.0", the request's id, and exactly one of result and error, with the error's code, message and data |
| Framing.Frame | index.js:202 | the written text starts with "Content-Length: ", and reading its count and body gives back exactly the serialised response |
| Framing.FrameRoundTrip | index.js:199-202 | reading the written frame's header count and body gives back exactly the serialised response |
| Framing.Step | index.js:177-212 | after a line the buffer is empty or the old buffer followed by the line; a line that is neither a header nor empty leaves at most 10000 characters buffered; for a line that is neither a header nor empty, whenever the buffer plus line parses, the buffer becomes empty, whether or not the request is answered; a frame is written exactly when the line is neither a header nor empty, the buffer plus line parses and the request is answered, then the buffer is empty and the frame is well formed |
| Framing.Feed | index.js:175-212 | over any run of lines, at most one frame is written per line and every frame is well formed |
| Framing.Assembler.constructor | index.js:175 | the assembler uses the codec it is given, and starts with an empty buffer and nothing written |
| Framing.Assembler.OnLine | index.js:177-212 | one line event changes the buffer and the output log exactly as Step says, and appends at most one well-formed frame |
| Framing.SkippedLineOnlyBuffers | index.js:178-188 | a Content-Length line or an empty line is appended to the buffer, nothing is parsed and nothing is written |
| Framing.ParsedBufferAnswered | index.js:190-202 | for a line that is neither a header nor empty, when the buffer plus line parses and the request is answered, the buffer becomes empty and the one frame written is "Content-Length: " + its length + "\r\n\r\n" + the serialised answer |
| Framing.UnparsedBufferKeptOrDropped | index.js:204-211 | when the buffer plus line does not parse, nothing is written, and the buffer is dropped if it is over 10000 characters and kept otherwise |
| Framing.SplitRequestAnsweredOnce | index.js:177-202 | a request split over two lines is answered once, after the second line; its first half alone is never answered |
| Framing.OverflowThenRecover | index.js:204-211 | after an unparseable buffer over the ceiling is dropped, a complete request on the next line is parsed on its own and answered |
| Framing.HeadersAccumulate | index.js:178-183 | any run of header or empty lines writes nothing and leaves the old buffer followed by all those lines, with no ceiling applied |
| Framing.HeaderFramedBodyUnanswered | index.js:178-192 | for header, empty line, body, the parser sees the header text followed by the body; when that does not parse, nothing is written, even if the body alone would parse |
| Framing.SerialisedRequestHandled | index.js:190-202 | a request written on one line by a serialiser that the parser inverts is handled as that same request, and its answer is the frame written |

## Left out

- The socket work of `sendHttpRequest` is not modelled: the HTTPS request, the 30-second timer, and URL and port resolution. What the network did is the input `Transport`, or directly an `HttpOutcome`. The HTTP status code is never checked by the source, and the model does not check it either.
- The decoding of response chunks into a string is not modelled. A multi-byte character split across two chunks is one such case.
- JSON text parsing and printing are not modelled. They are the `Codec` functions. Numbers are reals, not IEEE doubles.
- The overlap between a pending HTTP call and newly arriving lines is not modelled. Each line is handled to completion before the next. With the overlap, a rejection can reach the handler's `catch` while later lines have already refilled the buffer.
- Line splitting by `readline` is not modelled: the lines are the input.
- Endpoint selection from the environment and the arguments is not modelled, and neither is debug logging, the SIGINT and SIGTERM handlers, or the `--test` self-check. All of these are process plumbing around the core.
- The difference between UTF-16 code units and Unicode scalar values is not modelled. A Dafny `string` counts the second, so for characters outside the Basic Multilingual Plane the modelled count is smaller than the JavaScript length.
- The thrown messages for property reads on `undefined` and `null` are written as V8 words them. Another engine would word them differently.
