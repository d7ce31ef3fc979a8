/** `create_request`: the synthetic request the worker hands to the completion handler. */
module RequestScope {
  import opened Wrappers
  import opened Wire

  /** The ASGI scope dictionary; `body` is present only when the request body is non-empty. */
  datatype Scope = Scope(
    scopeType: string,
    httpVersion: string,
    httpMethod: string,
    path: string,
    headers: HeaderItems,
    body: Option<string>)

  /** What `receive()` yields for the body: the JSON text stored in the scope, or `b''`. */
  datatype BodyValue = Text(text: string) | Raw(bytes: Bytes)

  datatype ReceiveMessage = ReceiveMessage(messageType: string, body: BodyValue)

  /** The request object; its `send` callback does nothing and so is not represented. */
  datatype Request = Request(scope: Scope)

  /**
   * Builds the scope for a request on `path` with `httpMethod`, the decoded JSON `body`
   * (the members of a dict) and the header items.
   */
  function CreateRequest(f: Foreign, path: string, httpMethod: string,
                         body: seq<(string, Json)>, headers: HeaderItems): (r: Request)
    ensures r.scope.scopeType == "http" && r.scope.httpVersion == "1.1"
    ensures r.scope.httpMethod == httpMethod && r.scope.path == path
    ensures r.scope.headers == headers
    ensures r.scope.body.Some? <==> body != []
  {
    // `list(headers.items()) if headers else []`: an empty header set lists as [] either way
    var scope := Scope("http", "1.1", httpMethod, path, if |headers| > 0 then headers else [], None);
    Request(if body != [] then scope.(body := Some(f.jsonDumps(Object(body)))) else scope)
  }

  /** The one message `receive()` returns. */
  function Receive(r: Request): ReceiveMessage {
    ReceiveMessage("http.request",
      match r.scope.body
      case Some(text) => Text(text)
      case None => Raw([]))
  }

  /**
   * `receive()` on a created request hands back the body it was built from: an empty
   * body as `b''`, any other as JSON text that loads to the same object.
   */
  lemma ReceiveYieldsBody(f: Foreign, path: string, httpMethod: string,
                          body: seq<(string, Json)>, headers: HeaderItems)
    requires Lawful(f)
    requires DistinctKeys(Object(body))
    ensures Receive(CreateRequest(f, path, httpMethod, body, headers)).messageType == "http.request"
    ensures body == [] ==> Receive(CreateRequest(f, path, httpMethod, body, headers)).body == Raw([])
    ensures body != [] ==>
      var m := Receive(CreateRequest(f, path, httpMethod, body, headers));
      m.body.Text? && f.jsonLoads(m.body.text) == Some(Object(body))
  {
  }
}
