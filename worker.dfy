/**
 * `worker_routine`: pull one four-part request, build the request, ask the completion
 * handler, and send its answer back as three-part frames, one request at a time,
 * until something raises.
 */
module Worker {
  import opened Wrappers
  import opened Wire
  import opened RequestScope
  import opened Completion
  import opened Identity

  /** The libraries and the application state one worker runs against. */
  datatype Env = Env(foreign: Foreign, app: App)

  /**
   * How the error branch behaves: `AsWritten` raises before sending (the dict has no
   * `append`), `Intended` sends the error's fields with a `status_code` member added.
   */
  datatype ErrorBranch = AsWritten | Intended

  /** The frames one request produces, and whether handling it raised and so ended the loop. */
  datatype Step = Step(frames: seq<Frame>, fatal: bool)

  /** What the socket sees, in order: the receipt of request `request`, or a frame sent for it. */
  datatype Event = Received(request: nat) | Sent(request: nat, frame: Frame)

  /** The events of a run, how many messages it consumed, and whether it ended by raising. */
  datatype Outcome = Outcome(log: seq<Event>, consumed: nat, crashed: bool)

  /** What lines 67-77 have built by the time the handler is called. */
  datatype Prepared = Prepared(identity: Bytes, completionRequest: CompletionRequest, request: Request)

  /** `bytes_to_headers`: decode, parse as JSON, hand to `httpx.Headers`; any of the three may raise. */
  function BytesToHeaders(f: Foreign, data: Bytes): (r: Option<HeaderItems>)
    ensures r.Some? <==>
      && f.utf8Decode(data).Some?
      && f.jsonLoads(f.utf8Decode(data).value).Some?
      && f.toHeaders(f.jsonLoads(f.utf8Decode(data).value).value).Some?
  {
    var text :- f.utf8Decode(data);
    var json :- f.jsonLoads(text);
    f.toHeaders(json)
  }

  /**
   * Unpacks and decodes one inbound message and builds the handler's inputs; `None` when
   * any step raises: a message of other than four parts, an identity or URL that is not
   * UTF-8, a header block `bytes_to_headers` rejects, a body that is not UTF-8 JSON, a
   * body that is not a JSON object (`**` needs a mapping), or one pydantic rejects.
   */
  function Prepare(f: Foreign, parts: seq<Bytes>): (r: Option<Prepared>)
    ensures r.Some? <==>
      && |parts| == 4
      && f.utf8Decode(parts[0]).Some?
      && f.utf8Decode(parts[1]).Some?
      && BytesToHeaders(f, parts[2]).Some?
      && f.utf8Decode(parts[3]).Some?
      && f.jsonLoads(f.utf8Decode(parts[3]).value).Some?
      && f.jsonLoads(f.utf8Decode(parts[3]).value).value.Object?
      && f.isCompletionRequest(f.jsonLoads(f.utf8Decode(parts[3]).value).value.members)
    ensures r.Some? ==>
      var members := f.jsonLoads(f.utf8Decode(parts[3]).value).value.members;
      && r.value.identity == parts[0]
      && r.value.completionRequest == CompletionRequest(members)
      && r.value.request
         == CreateRequest(f, f.utf8Decode(parts[1]).value, "POST", members, BytesToHeaders(f, parts[2]).value)
  {
    if |parts| != 4 then None
    else
      var identity, url, header, body := parts[0], parts[1], parts[2], parts[3];
      // the log line after the receive decodes the identity, and raises if it cannot
      var _ :- f.utf8Decode(identity);
      var path :- f.utf8Decode(url);
      var headers :- BytesToHeaders(f, header);
      var bodyText :- f.utf8Decode(body);
      var bodyJson :- f.jsonLoads(bodyText);
      if !bodyJson.Object? || !f.isCompletionRequest(bodyJson.members) then None
      else
        Some(Prepared(identity, CompletionRequest(bodyJson.members),
                      CreateRequest(f, path, "POST", bodyJson.members, headers)))
  }

  /** The frame a `CompletionResponse` is sent as. */
  function UnaryFrame(f: Foreign, identity: Bytes, body: Json): Frame {
    Frame(identity, ApplicationJson, f.utf8Encode(f.jsonDumps(body)))
  }

  /** The frame one stream chunk is sent as. */
  function ChunkFrame(f: Foreign, identity: Bytes, chunk: string): Frame {
    Frame(identity, EventStream, f.utf8Encode(chunk))
  }

  /** The JSON the error branch means to send: the error's own fields, then `status_code`. */
  function ErrorPayload(e: ErrorResponse): Json {
    Object(ErrorFields(e) + [("status_code", Number(e.code))])
  }

  /** The frame the error branch means to send. */
  function ErrorFrame(f: Foreign, identity: Bytes, e: ErrorResponse): Frame {
    Frame(identity, ApplicationJson, f.utf8Encode(f.jsonDumps(ErrorPayload(e))))
  }

  /** The frames of a stream, one per chunk in the order the generator yields them. */
  function ChunkFrames(f: Foreign, identity: Bytes, chunks: seq<string>): (frames: seq<Frame>)
    ensures |frames| == |chunks|
    ensures forall k :: 0 <= k < |chunks| ==> frames[k] == ChunkFrame(f, identity, chunks[k])
    decreases |chunks|
  {
    if chunks == [] then []
    else ChunkFrames(f, identity, chunks[..|chunks| - 1]) + [ChunkFrame(f, identity, chunks[|chunks| - 1])]
  }

  /** Classifies the handler's result and frames it for the client `identity`. */
  function FrameResult(f: Foreign, identity: Bytes, result: HandlerResult, mode: ErrorBranch): (s: Step)
    ensures forall k :: 0 <= k < |s.frames| ==> s.frames[k].identity == identity
    ensures forall k :: 0 <= k < |s.frames| ==>
      s.frames[k].contentType == (if result.Stream? then EventStream else ApplicationJson)
    ensures s.fatal <==> (result.Error? && mode == AsWritten) || (result.Stream? && result.raises)
  {
    match result
    case Error(e) =>
      if mode == AsWritten then Step([], true) else Step([ErrorFrame(f, identity, e)], false)
    case Unary(body) => Step([UnaryFrame(f, identity, body)], false)
    case Stream(chunks, raises) => Step(ChunkFrames(f, identity, chunks), raises)
  }

  /** One pass of the loop body on the message `parts`. */
  function Handle(env: Env, mode: ErrorBranch, parts: seq<Bytes>): (s: Step)
    ensures |parts| != 4 ==> s == Step([], true)
    ensures forall k :: 0 <= k < |s.frames| ==> |parts| == 4 && s.frames[k].identity == parts[0]
    ensures Prepare(env.foreign, parts).None? ==> s == Step([], true)
    ensures Prepare(env.foreign, parts).Some? ==>
      var p := Prepare(env.foreign, parts).value;
      match CreateCompletion(env.app, p.completionRequest, p.request)
      case Raised => s == Step([], true)
      case Returned(result) => s == FrameResult(env.foreign, parts[0], result, mode)
  {
    match Prepare(env.foreign, parts)
    case None => Step([], true)
    case Some(p) =>
      match CreateCompletion(env.app, p.completionRequest, p.request)
      case Raised => Step([], true)
      case Returned(result) => FrameResult(env.foreign, p.identity, result, mode)
  }

  /** The frames sent for request `n`, as events. */
  function Tag(n: nat, frames: seq<Frame>): seq<Event> {
    seq(|frames|, k requires 0 <= k < |frames| => Sent(n, frames[k]))
  }

  /** The events of request `n`: its receipt, then its frames. */
  function Block(n: nat, frames: seq<Frame>): seq<Event> {
    [Received(n)] + Tag(n, frames)
  }

  /** What the loop body does with each message of `inbox`, message by message. */
  function Steps(env: Env, mode: ErrorBranch, inbox: seq<seq<Bytes>>): (steps: seq<Step>)
    ensures |steps| == |inbox|
    ensures forall j :: 0 <= j < |inbox| ==> steps[j] == Handle(env, mode, inbox[j])
  {
    seq(|inbox|, j requires 0 <= j < |inbox| => Handle(env, mode, inbox[j]))
  }

  /**
   * The run of the loop from the `n`-th message on, given what the body does with each
   * message: it stops after the first step that raises, and messages after that one are
   * never received.
   */
  function Run(steps: seq<Step>, n: nat): (o: Outcome)
    requires n <= |steps|
    ensures n + o.consumed <= |steps|
    decreases |steps| - n
  {
    if n == |steps| then Outcome([], 0, false)
    else
      var s := steps[n];
      if s.fatal then Outcome(Block(n, s.frames), 1, true)
      else
        var rest := Run(steps, n + 1);
        Outcome(Block(n, s.frames) + rest.log, 1 + rest.consumed, rest.crashed)
  }

  /** The run of the loop over everything the dispatcher sends. */
  function Serve(env: Env, mode: ErrorBranch, inbox: seq<seq<Bytes>>): Outcome {
    Run(Steps(env, mode, inbox), 0)
  }

  /** A run that has logged `log` and consumed `consumed` messages, then goes on as `rest`. */
  function Resume(log: seq<Event>, consumed: nat, rest: Outcome): Outcome {
    Outcome(log + rest.log, consumed + rest.consumed, rest.crashed)
  }

  /**
   * One turn of the loop, seen from a run that has already logged `log`: message `n` is
   * received and answered with `sent`, and the run either ends there or goes on with the rest.
   */
  lemma RunStep(steps: seq<Step>, n: nat, log: seq<Event>, sent: seq<Event>, fatal: bool)
    requires n < |steps|
    requires sent == Tag(n, steps[n].frames) && fatal == steps[n].fatal
    ensures fatal ==> Resume(log, n, Run(steps, n)) == Outcome(log + ([Received(n)] + sent), n + 1, true)
    ensures !fatal ==>
      Resume(log, n, Run(steps, n)) == Resume(log + ([Received(n)] + sent), n + 1, Run(steps, n + 1))
  {
    if !fatal {
      var rest := Run(steps, n + 1);
      assert log + (([Received(n)] + sent) + rest.log) == log + ([Received(n)] + sent) + rest.log;
    }
  }

  /** The `async for` over a stream: one send per chunk, in the order the chunks come. */
  method SendChunks(f: Foreign, n: nat, identity: Bytes, chunks: seq<string>) returns (sent: seq<Event>)
    ensures sent == Tag(n, ChunkFrames(f, identity, chunks))
  {
    sent := [];
    var k := 0;
    while k < |chunks|
      invariant k <= |chunks|
      invariant sent == Tag(n, ChunkFrames(f, identity, chunks[..k]))
    {
      ghost var sofar := ChunkFrames(f, identity, chunks[..k]);
      var frame := ChunkFrame(f, identity, chunks[k]);
      sent := sent + [Sent(n, frame)];
      assert chunks[..k + 1][..k] == chunks[..k];
      assert ChunkFrames(f, identity, chunks[..k + 1]) == sofar + [frame];
      k := k + 1;
    }
    assert chunks[..k] == chunks;
  }

  /** The loop body after the receive, for request number `n`: what it sends, and whether it raised. */
  method Answer(env: Env, mode: ErrorBranch, n: nat, parts: seq<Bytes>) returns (sent: seq<Event>, fatal: bool)
    ensures sent == Tag(n, Handle(env, mode, parts).frames)
    ensures fatal == Handle(env, mode, parts).fatal
  {
    sent, fatal := [], false;
    var prepared := Prepare(env.foreign, parts);
    if prepared.None? {
      fatal := true;
      return;
    }
    var p := prepared.value;
    var call := CreateCompletion(env.app, p.completionRequest, p.request);
    if call.Raised? {
      fatal := true;
      return;
    }
    match call.result
    case Error(e) =>
      if mode == AsWritten {
        fatal := true;
      } else {
        sent := [Sent(n, ErrorFrame(env.foreign, p.identity, e))];
      }
    case Unary(body) =>
      sent := [Sent(n, UnaryFrame(env.foreign, p.identity, body))];
    case Stream(chunks, raises) =>
      sent := SendChunks(env.foreign, n, p.identity, chunks);
      fatal := raises;
  }

  /**
   * The worker: takes the identity `worker-<index>-<token>` once, then receives, handles
   * and answers the messages of `inbox` one at a time, and stops for good at the first
   * message whose handling raises. When `inbox` runs out without a failure the worker is
   * waiting for its next message.
   */
  method WorkerRoutine(env: Env, mode: ErrorBranch, index: int, token: string, inbox: seq<seq<Bytes>>)
    returns (identity: string, log: seq<Event>, consumed: nat, crashed: bool)
    ensures identity == WorkerIdentity(index, token)
    ensures Outcome(log, consumed, crashed) == Serve(env, mode, inbox)
  {
    identity := WorkerIdentity(index, token);
    ghost var steps := Steps(env, mode, inbox);
    ghost var whole := Run(steps, 0);
    log, consumed, crashed := [], 0, false;
    while consumed < |inbox| && !crashed
      invariant consumed <= |inbox|
      invariant crashed ==> whole == Outcome(log, consumed, true)
      invariant !crashed ==> whole == Resume(log, consumed, Run(steps, consumed))
      decreases |inbox| - consumed
    {
      var n := consumed;
      var parts := inbox[n];
      var sent, fatal := Answer(env, mode, n, parts);
      RunStep(steps, n, log, sent, fatal);
      log := log + ([Received(n)] + sent);
      consumed := consumed + 1;
      crashed := fatal;
    }
    if !crashed {
      assert log + [] == log;
    }
  }
}
