/** How one call of `sendHttpRequest` settles. The socket, the chunked body,
    the timer and the URL resolution are outside the model: what the network
    did is an input (`Transport`), and the promise's fate is an
    `HttpOutcome`. */
module Http {
  import opened JsonValue

  /** What the network delivered for one POST. */
  datatype Transport =
    | Delivered(body: string)      // the response ended; `body` is all its chunks
    | TimedOut                     // 30 seconds passed without a response
    | SocketError(message: string) // the request emitted 'error'

  /** The settled promise: resolved with the parsed body, or rejected with
      one of three kinds of error. */
  datatype HttpOutcome =
    | Ok(reply: Json)
    | ParseFail(body: string)
    | Timeout
    | TransportError(message: string)

  /** The promise settles on the first event: a complete body resolves when
      it parses and rejects when it does not, a timeout rejects, a socket
      error rejects with the socket's error. The status code is not looked
      at. */
  function Settle(t: Transport, parse: string -> Option<Json>): (o: HttpOutcome)
    ensures o.Ok? <==> t.Delivered? && parse(t.body).Some?
    ensures o.Ok? ==> parse(t.body) == Some(o.reply)
    ensures o.ParseFail? <==> t.Delivered? && parse(t.body).None?
    ensures o.ParseFail? ==> o.body == t.body
    ensures o.Timeout? <==> t.TimedOut?
    ensures o.TransportError? <==> t.SocketError?
    ensures o.TransportError? ==> o.message == t.message
  {
    match t
    case Delivered(body) => if parse(body).Some? then Ok(parse(body).value) else ParseFail(body)
    case TimedOut => Timeout
    case SocketError(m) => TransportError(m)
  }

  /** The `message` of the error a rejected call carries. */
  function RejectionMessage(o: HttpOutcome): (m: string)
    requires !o.Ok?
    ensures o.ParseFail? ==> |m| >= 26 && m[..26] == "Failed to parse response: " && m[26..] == o.body
    ensures o.Timeout? ==> m == "Request timeout"
    ensures o.TransportError? ==> m == o.message
  {
    match o
    case ParseFail(body) => "Failed to parse response: " + body
    case Timeout => "Request timeout"
    case TransportError(m) => m
  }
}
