/** `handleMcpRequest`: one parsed JSON-RPC 2.0 request in, one response out
    (or, for a request that is `null`, a rejection). The single HTTP call is
    an input, its `HttpOutcome`. */
module Translator {
  import opened JsonValue
  import opened Http

  const ProtocolVersion := "2024-11-05"

  /** JSON-RPC 2.0's "Internal error" code (section 5.1 of the JSON-RPC 2.0
      specification). */
  const InternalError := -32603

  /** A JSON-RPC 2.0 response. `id` is copied from the request and is None
      when the request has none. */
  datatype Response =
    | Success(id: Option<Json>, result: Json)
    | Error(id: Option<Json>, code: int, message: string, data: string)

  /** The object JSON.stringify is given for a response: `jsonrpc`, `id`
      (left out when undefined), then `result` or `error`. */
  function ToJson(r: Response): Json {
    match r
    case Success(id, result) =>
      JObj(Defined([("jsonrpc", Some(JStr("2.0"))), ("id", id), ("result", Some(result))]))
    case Error(id, code, message, data) =>
      var error := JObj([("code", JNum(code as real)), ("message", JStr(message)), ("data", JStr(data))]);
      JObj(Defined([("jsonrpc", Some(JStr("2.0"))), ("id", id), ("error", Some(error))]))
  }

  /** The local answer to `initialize`. */
  function InitializeResult(): Json {
    JObj([("protocolVersion", JStr(ProtocolVersion)),
          ("serverInfo", JObj([("name", JStr("meeta-mcp-proxy")), ("version", JStr("1.0.0"))])),
          ("capabilities", JObj([("tools", JObj([])), ("resources", JObj([]))]))])
  }

  /** What `tools/list` sends, whatever the request's params. */
  function ListEnvelope(): Json {
    JObj([("method", JStr("tools/list")), ("params", JObj([]))])
  }

  /** What `tools/call` sends: `request.params.name` and
      `request.params.arguments`, each left out when undefined; throws when
      `request.params` is undefined or null. */
  function CallEnvelope(req: Json): (c: Completion<Json>)
    ensures c.Throw? <==> ParamsMissing(req)
    ensures c.Normal? ==>
              && Member(c.value, "method") == Some(JStr("tools/call"))
              && Member(c.value, "params").Some?
              && (forall key :: Member(c.value, key).Some? ==> key == "method" || key == "params")
    ensures c.Normal? ==>
              var sent := Member(c.value, "params").value;
              var params := Member(req, "params").value;
              && sent.JObj?
              && forall key :: Member(sent, key) ==
                            if key == "name" || key == "arguments" then Member(params, key) else None
  {
    CallEnvelopeMembers(req);
    var params :- Get(Some(req), "params");
    var name :- Get(params, "name");
    // `params` has just been read from without a throw, so this read cannot throw
    var args := Get(params, "arguments").value;
    Normal(JObj([("method", JStr("tools/call")),
                 ("params", JObj(Defined([("name", name), ("arguments", args)])))]))
  }

  /** The members of a `tools/call` envelope, read one by one. */
  lemma CallEnvelopeMembers(req: Json)
    ensures Member(req, "params").Some? && Member(req, "params") != Some(JNull) ==>
            var params := Member(req, "params").value;
            var props := [("name", Member(params, "name")), ("arguments", Member(params, "arguments"))];
            var env := JObj([("method", JStr("tools/call")), ("params", JObj(Defined(props)))]);
            && Member(env, "method") == Some(JStr("tools/call"))
            && (forall key :: Member(env, key).Some? ==> key == "method" || key == "params")
            && forall key :: LookupProp(props, key) ==
                             if key == "name" || key == "arguments" then Member(params, key) else None
  {
    if Member(req, "params").Some? && Member(req, "params") != Some(JNull) {
      var params := Member(req, "params").value;
      var props := [("name", Member(params, "name")), ("arguments", Member(params, "arguments"))];
      var env := JObj([("method", JStr("tools/call")), ("params", JObj(Defined(props)))]);
      assert Lookup(env.fields[..1], "method") == Some(JStr("tools/call"));
    }
  }

  /** A `tools/call` result: one content block of type "text". */
  function TextContent(text: string): Json {
    JObj([("content", JArr([JObj([("type", JStr("text")), ("text", JStr(text))])]))])
  }

  /** How a forwarded request's reply is turned into its result. */
  datatype Shape = ToolList | ToolCall | Verbatim

  /** The part of the handler before the HTTP call: answer locally, send an
      envelope and reshape the reply, or throw. */
  datatype Plan = Local | Forward(envelope: Json, shape: Shape) | Fault(message: string)

  predicate MethodIs(req: Json, name: string) {
    Member(req, "method") == Some(JStr(name))
  }

  /** `request.params` is undefined or null, so reading from it throws. */
  predicate ParamsMissing(req: Json) {
    Member(req, "params").None? || Member(req, "params") == Some(JNull)
  }

  /** The ordered if-chain on `request.method`. */
  function Dispatch(req: Json): (p: Plan)
    ensures p.Local? <==> MethodIs(req, "initialize")
    ensures p.Fault? <==> req == JNull || (MethodIs(req, "tools/call") && ParamsMissing(req))
    ensures req == JNull ==> p == Fault(CannotRead("null", "method"))
    ensures MethodIs(req, "tools/list") ==> p == Forward(ListEnvelope(), ToolList)
    ensures MethodIs(req, "tools/call") && !ParamsMissing(req) ==> p.Forward? && p.shape == ToolCall
    ensures p.Forward? && p.shape == Verbatim <==>
              req != JNull && !MethodIs(req, "initialize") && !MethodIs(req, "tools/list") && !MethodIs(req, "tools/call")
    ensures p.Forward? && p.shape == Verbatim ==> p.envelope == req
  {
    match Get(Some(req), "method")
    case Throw(e) => Fault(e)
    case Normal(m) =>
      if m == Some(JStr("initialize")) then Local
      else if m == Some(JStr("tools/list")) then Forward(ListEnvelope(), ToolList)
      else if m == Some(JStr("tools/call")) then
        (match CallEnvelope(req)
         case Throw(e) => Fault(e)
         case Normal(env) => Forward(env, ToolCall))
      else Forward(req, Verbatim)
  }

  /** The body that would be POSTed for `req`, if any. */
  function Envelope(req: Json): (e: Option<Json>)
    ensures e.None? <==>
              req == JNull || MethodIs(req, "initialize") || (MethodIs(req, "tools/call") && ParamsMissing(req))
  {
    match Dispatch(req)
    case Forward(env, _) => Some(env)
    case _ => None
  }

  /** The result built from a successful reply: `{tools: reply.tools || []}`,
      a text block holding the reply (itself if it is a string, otherwise
      pretty-printed), or the reply as it is. */
  function Reshape(shape: Shape, reply: Json, pretty: Json -> string): (r: Completion<Json>)
    ensures r.Throw? <==> shape == ToolList && reply == JNull
    ensures r.Throw? ==> r.message == CannotRead("null", "tools")
    ensures shape == ToolList && reply != JNull ==>
              var tools := Member(reply, "tools");
              r == Normal(JObj([("tools", if tools.Some? && Truthy(tools.value) then tools.value else JArr([]))]))
    ensures shape == ToolCall ==> r == Normal(TextContent(if reply.JStr? then reply.s else pretty(reply)))
    ensures shape == Verbatim ==> r == Normal(reply)
  {
    match shape
    case ToolList =>
      var tools :- Get(Some(reply), "tools");
      Normal(JObj([("tools", if tools.Some? && Truthy(tools.value) then tools.value else JArr([]))]))
    case ToolCall => Normal(TextContent(if reply.JStr? then reply.s else pretty(reply)))
    case Verbatim => Normal(reply)
  }

  /** The handler's fate: a response, or a rejection of its promise. */
  datatype Handled = Responded(response: Response) | Rejected(message: string)

  /** The `catch` block: an internal-error response on `request.id`; the
      read of `request.id` can itself throw, and that escapes. */
  function Catch(req: Json, message: string): (h: Handled)
    ensures h.Rejected? <==> req == JNull
    ensures h.Rejected? ==> h.message == CannotRead("null", "id")
    ensures h.Responded? ==> h.response == Error(Member(req, "id"), InternalError, "Internal error", message)
  {
    match Get(Some(req), "id")
    case Throw(e) => Rejected(e)
    case Normal(id) => Responded(Error(id, InternalError, "Internal error", message))
  }

  /** The `return` of a successful branch, `{jsonrpc, id: request.id, result}`. */
  function Finish(req: Json, result: Completion<Json>): Handled {
    match result
    case Throw(e) => Catch(req, e)
    case Normal(r) =>
      (match Get(Some(req), "id")
       case Throw(e) => Catch(req, e)
       case Normal(id) => Responded(Success(id, r)))
  }

  /** `handleMcpRequest(req)` when the HTTP call, if one is made, settles as
      `outcome`; `pretty` is JSON.stringify(_, null, 2). Every request but
      `null` is answered, on its own `id`, and every error answer is the
      internal error. */
  function Respond(req: Json, outcome: HttpOutcome, pretty: Json -> string): (h: Handled)
    ensures h.Rejected? <==> req == JNull
    ensures h.Responded? ==> h.response.id == Member(req, "id")
    ensures h.Responded? && h.response.Error? ==>
              h.response.code == InternalError && h.response.message == "Internal error"
  {
    match Dispatch(req)
    case Fault(e) => Catch(req, e)
    case Local => Finish(req, Normal(InitializeResult()))
    case Forward(_, shape) =>
      if outcome.Ok? then Finish(req, Reshape(shape, outcome.reply, pretty))
      else Catch(req, RejectionMessage(outcome))
  }


  /** `initialize` is answered locally with the fixed server description,
      whatever its params and whatever the network would do. */
  lemma InitializeAnsweredLocally(req: Json, outcome: HttpOutcome, pretty: Json -> string)
    requires MethodIs(req, "initialize")
    ensures Envelope(req) == None
    ensures Respond(req, outcome, pretty) == Responded(Success(Member(req, "id"), InitializeResult()))
    ensures var r := InitializeResult();
            && Member(r, "protocolVersion") == Some(JStr("2024-11-05"))
            && Member(r, "serverInfo") == Some(JObj([("name", JStr("meeta-mcp-proxy")), ("version", JStr("1.0.0"))]))
            && Member(r, "capabilities") == Some(JObj([("tools", JObj([])), ("resources", JObj([]))]))
  {
    var fields := InitializeResult().fields;
    assert Lookup(fields[..1], "protocolVersion") == Some(JStr(ProtocolVersion));
  }

  /** `tools/list` sends the fixed envelope and answers `{tools: reply.tools}`,
      or an empty list when that is absent or falsy; a `null` reply makes the
      read of `tools` throw. */
  lemma ToolsListForwarded(req: Json, outcome: HttpOutcome, pretty: Json -> string)
    requires MethodIs(req, "tools/list")
    ensures Envelope(req) == Some(JObj([("method", JStr("tools/list")), ("params", JObj([]))]))
    ensures outcome.Ok? && outcome.reply != JNull ==>
              var tools := Member(outcome.reply, "tools");
              Respond(req, outcome, pretty) ==
                Responded(Success(Member(req, "id"),
                  JObj([("tools", if tools.Some? && Truthy(tools.value) then tools.value else JArr([]))])))
    ensures outcome == Ok(JNull) ==>
              Respond(req, outcome, pretty) ==
                Responded(Error(Member(req, "id"), InternalError, "Internal error",
                                "Cannot read properties of null (reading 'tools')"))
  {
    assert Dispatch(req) == Forward(ListEnvelope(), ToolList);
    assert req != JNull;
    if outcome.Ok? {
      var reshaped := Reshape(ToolList, outcome.reply, pretty);
      assert Respond(req, outcome, pretty) == Finish(req, reshaped);
    }
  }

  /** `tools/call` sends exactly `name` and `arguments` from the request's
      params and wraps the reply in one text block. */
  lemma ToolsCallForwarded(req: Json, outcome: HttpOutcome, pretty: Json -> string)
    requires MethodIs(req, "tools/call")
    requires Member(req, "params").Some? && Member(req, "params") != Some(JNull)
    ensures Envelope(req).Some?
    ensures var env := Envelope(req).value;
            && Member(env, "method") == Some(JStr("tools/call"))
            && Member(env, "params").Some?
            && (forall key :: Member(env, key).Some? ==> key == "method" || key == "params")
    ensures var sent := Member(Envelope(req).value, "params").value;
            var params := Member(req, "params").value;
            && sent.JObj?
            && forall key :: Member(sent, key) ==
                          if key == "name" || key == "arguments" then Member(params, key) else None
    ensures outcome.Ok? ==>
              var text := if outcome.reply.JStr? then outcome.reply.s else pretty(outcome.reply);
              Respond(req, outcome, pretty) == Responded(Success(Member(req, "id"), TextContent(text)))
  {
    var params := Member(req, "params").value;
    var props := [("name", Member(params, "name")), ("arguments", Member(params, "arguments"))];
    var env := JObj([("method", JStr("tools/call")), ("params", JObj(Defined(props)))]);
    assert CallEnvelope(req) == Normal(env);
    assert Lookup(env.fields[..1], "method") == Some(JStr("tools/call"));
    forall key
      ensures LookupProp(props, key) ==
              if key == "name" || key == "arguments" then Member(params, key) else None
    {
    }
  }

  /** `tools/call` whose params are undefined or null throws before anything
      is sent, and the throw becomes an internal-error response. */
  lemma ToolsCallWithoutParams(req: Json, outcome: HttpOutcome, pretty: Json -> string)
    requires MethodIs(req, "tools/call")
    requires ParamsMissing(req)
    ensures Envelope(req) == None
    ensures var what := if Member(req, "params").None? then "undefined" else "null";
            Respond(req, outcome, pretty) ==
              Responded(Error(Member(req, "id"), InternalError, "Internal error",
                              "Cannot read properties of " + what + " (reading 'name')"))
  {
  }

  /** Every other method, and every request that is not an object, is sent
      as it is, and the reply is the result as it is. */
  lemma OtherMethodsPassThrough(req: Json, outcome: HttpOutcome, pretty: Json -> string)
    requires req != JNull
    requires !MethodIs(req, "initialize") && !MethodIs(req, "tools/list") && !MethodIs(req, "tools/call")
    ensures Envelope(req) == Some(req)
    ensures outcome.Ok? ==> Respond(req, outcome, pretty) == Responded(Success(Member(req, "id"), outcome.reply))
  {
  }

  /** A call that does not resolve is answered with the internal error whose
      data is the rejection's message, and never with a result. */
  lemma FailedCallIsInternalError(req: Json, outcome: HttpOutcome, pretty: Json -> string)
    requires Envelope(req).Some? && !outcome.Ok?
    ensures Respond(req, outcome, pretty) ==
              Responded(Error(Member(req, "id"), InternalError, "Internal error", RejectionMessage(outcome)))
    ensures outcome.ParseFail? ==> RejectionMessage(outcome) == "Failed to parse response: " + outcome.body
    ensures outcome.Timeout? ==> RejectionMessage(outcome) == "Request timeout"
  {
  }

  /** A sent request, from what the network did to the answer: a body that
      parses is handled as the resolved reply; an unparseable body, a
      timeout and a socket error each become the internal error carrying
      the rejection's message. */
  lemma NetworkEventAnswered(req: Json, t: Transport, parse: string -> Option<Json>, pretty: Json -> string)
    requires Envelope(req).Some?
    ensures t.Delivered? && parse(t.body).Some? ==>
              Respond(req, Settle(t, parse), pretty) == Respond(req, Ok(parse(t.body).value), pretty)
    ensures t.Delivered? && parse(t.body).None? ==>
              Respond(req, Settle(t, parse), pretty) ==
                Responded(Error(Member(req, "id"), InternalError, "Internal error", "Failed to parse response: " + t.body))
    ensures t.TimedOut? ==>
              Respond(req, Settle(t, parse), pretty) ==
                Responded(Error(Member(req, "id"), InternalError, "Internal error", "Request timeout"))
    ensures t.SocketError? ==>
              Respond(req, Settle(t, parse), pretty) ==
                Responded(Error(Member(req, "id"), InternalError, "Internal error", t.message))
  {
    var outcome := Settle(t, parse);
    if !outcome.Ok? {
      FailedCallIsInternalError(req, outcome, pretty);
    }
  }

  /** A request that parsed as `null` throws reading `method`, and the
      `catch` block throws again reading `id`: nothing is sent and nothing is
      answered. */
  lemma NullRequestEscapes(outcome: HttpOutcome, pretty: Json -> string)
    ensures Envelope(JNull) == None
    ensures Respond(JNull, outcome, pretty) == Rejected("Cannot read properties of null (reading 'id')")
  {
  }

  /** The object written for any response carries `jsonrpc: "2.0"`, the
      request's `id`, and exactly one of `result` and `error`. */
  lemma ResponseObjectShape(r: Response)
    ensures var j := ToJson(r);
            && Member(j, "jsonrpc") == Some(JStr("2.0"))
            && Member(j, "id") == r.id
            && (Member(j, "result").Some? <==> r.Success?)
            && (Member(j, "error").Some? <==> r.Error?)
    ensures r.Success? ==> Member(ToJson(r), "result") == Some(r.result)
    ensures r.Error? ==>
              Member(ToJson(r), "error") == Some(JObj([("code", JNum(r.code as real)), ("message", JStr(r.message)), ("data", JStr(r.data))]))
  {
    match r
    case Success(id, result) =>
      ResponseMembers(id, "result", result);
    case Error(id, code, message, data) =>
      var error := JObj([("code", JNum(code as real)), ("message", JStr(message)), ("data", JStr(data))]);
      assert ToJson(r) == JObj(Defined([("jsonrpc", Some(JStr("2.0"))), ("id", id), ("error", Some(error))]));
      ResponseMembers(id, "error", error);
  }

  /** The members of a response object literal, read one by one. */
  lemma ResponseMembers(id: Option<Json>, last: string, v: Json)
    requires last == "result" || last == "error"
    ensures var props := [("jsonrpc", Some(JStr("2.0"))), ("id", id), (last, Some(v))];
            && LookupProp(props, "jsonrpc") == Some(JStr("2.0"))
            && LookupProp(props, "id") == id
            && LookupProp(props, last) == Some(v)
            && LookupProp(props, if last == "result" then "error" else "result") == None
  {
    var props := [("jsonrpc", Some(JStr("2.0"))), ("id", id), (last, Some(v))];
    assert props[..2] == [("jsonrpc", Some(JStr("2.0"))), ("id", id)];
    assert props[..2][..1] == [("jsonrpc", Some(JStr("2.0")))];
    assert LookupProp(props[..2], "jsonrpc") == LookupProp(props[..2][..1], "jsonrpc");
  }
}
