/** The completion handler as the worker sees it, and `create_completion`'s dispatch. */
module Completion {
  import opened Wrappers
  import opened Wire
  import opened RequestScope

  /** The fields of `ErrorResponse`, in the order `model_dump_json` writes them. */
  datatype ErrorResponse = ErrorResponse(message: string, errType: string, param: Option<string>, code: int)

  /** A validated `CompletionRequest`, kept as the body members it was built from. */
  datatype CompletionRequest = CompletionRequest(fields: seq<(string, Json)>)

  /**
   * What the handler returns: an error response, a `CompletionResponse` (kept as its
   * `model_dump()`), or an async generator of text chunks. `raises` says whether the
   * generator raises once its `chunks` have been produced.
   */
  datatype HandlerResult =
    | Error(error: ErrorResponse)
    | Unary(body: Json)
    | Stream(chunks: seq<string>, raises: bool)

  /** Awaiting the handler either raises or returns a result. */
  datatype HandlerCall = Raised | Returned(result: HandlerResult)

  type Handler = (CompletionRequest, Request) -> HandlerCall

  /** The application state the worker reads: the completion serving object, if any. */
  datatype App = App(completion: Option<Handler>)

  const NotSupportedMessage: string := "The model does not support Completions API"

  /** The error `create_error_response` builds from the message alone. */
  function NotSupported(): ErrorResponse {
    ErrorResponse(NotSupportedMessage, "BadRequestError", None, 400)
  }

  /** The JSON object `json.loads(e.model_dump_json())` gives. */
  function ErrorFields(e: ErrorResponse): seq<(string, Json)> {
    [("object", Str("error")),
     ("message", Str(e.message)),
     ("type", Str(e.errType)),
     ("param", match e.param case Some(p) => Str(p) case None => Null),
     ("code", Number(e.code))]
  }

  /**
   * Without a completion handler the answer is the "not supported" error and no handler
   * is called; with one, the answer is whatever the handler gives for this request.
   */
  function CreateCompletion(app: App, request: CompletionRequest, raw: Request): (r: HandlerCall)
    ensures app.completion.None? ==>
      r == Returned(Error(ErrorResponse(NotSupportedMessage, "BadRequestError", None, 400)))
    ensures app.completion.Some? ==> r == app.completion.value(request, raw)
  {
    match app.completion
    case None => Returned(Error(NotSupported()))
    case Some(handler) => handler(request, raw)
  }
}
