# ZeroMQ completion worker, modelled in Dafny

This project models the worker in `vllm/entrypoints/openai/connect_worker.py` that bridges
vLLM's OpenAI completion handler to a ZeroMQ dispatcher. A worker connects a DEALER socket
under the identity `worker-<index>-<uuid4>`. It then loops: it receives a four-part message
`(client identity, url, header JSON, body JSON)`, decodes it, builds a synthetic FastAPI
request (`create_request`) and asks the completion handler for a result (`create_completion`).
It sends that result back as three-part frames `(client identity, content type, payload)`:
- one `application/json` frame for a `CompletionResponse`;
- one `text/event-stream` frame per chunk for a streamed result;
- for an `ErrorResponse`, nothing (see Findings).

Requests are handled strictly one at a time. The first exception ends the loop for good.

Modules, one per component:
- `Wrappers`: the `Option` type used for every step that can raise.
- `Wire`: bytes, JSON values, frames, and the foreign library calls (`Foreign`) as function values. `Lawful` states the two round-trips the proofs rely on: UTF-8 decode after encode, and `json.loads` after `json.dumps` for values whose objects never repeat a key (`DistinctKeys`; `json.loads` keeps only the last of repeated keys).
- `RequestScope`: `create_request` and the `receive()` it installs.
- `Completion`: the handler's result type and `create_completion`'s dispatch.
- `Identity`: the worker identity string and a parser that reads it back.
- `Worker`: the loop body (`Prepare`, `FrameResult`, `Handle`) and the loop as a specification function (`Run`, `Serve`). Also the imperative `WorkerRoutine` method, with the inner chunk loop `SendChunks`, proved equal to `Serve`.
- `WorkerProperties`: what the dispatcher can rely on (identity echo, framing per result kind, one-at-a-time ordering, stop-on-first-failure).

The socket is replaced by sequences:
- inbound traffic is a `seq` of multipart messages;
- outbound traffic is an event log of `Received(n)` and `Sent(n, frame)` events.

The loop's outcome is that log, the number of messages consumed and whether the loop ended by raising. When the inbound sequence runs out and nothing has failed, the worker is idle: the real coroutine would wait in `recv_multipart`.

The line-83 bug is modelled both ways, through the parameter `ErrorBranch`:
- `AsWritten`: the error branch raises before sending anything.
- `Intended`: the branch sends the error's fields plus a `status_code` member.

The loop lemmas `FramesEchoIdentity`, `EachRequestAnsweredByItsFrames`, `UnaryRequestAnsweredInServe`, `RequestsHandledOneAtATime`, `ConsumedUpToFirstFailure` and `NothingAfterFailure` take the mode as a parameter and hold for both. So do the framing lemmas for unary and stream results. The two no-handler lemmas and the two error-frame lemmas are each about one mode.

In three places the code does not do what a reader might expect; the model follows the code:
- An `ErrorResponse` produces no frame and ends the worker. It does not produce one error frame.
- Malformed headers or body end the worker. They are not answered with an error response.
- `receive()` yields the body re-serialised by `json.dumps` as text, or `b''` for an empty body. It does not yield the original body bytes.

## Model

| member | source | states |
|---|---|---|
| `Identity.WorkerIdentityRoundTrip` | vllm/entrypoints/openai/connect_worker.py:62 | The identity `worker-<i>-<token>` determines both the index (of either sign) and the token: parsing it back returns exactly `(i, token)`. |
| `Worker.WorkerRoutine` | vllm/entrypoints/openai/connect_worker.py:56-93 | The worker sets its identity once, to `WorkerIdentity(index, token)`, before the loop. Its loop produces exactly the log, consumed count and crash flag of the specification `Serve`. |
| `Worker.Answer` | vllm/entrypoints/openai/connect_worker.py:69-90 | For one received message, the sends and the raise of the loop body are exactly those of `Handle`: frames in order, tagged with the request number. |
| `Worker.SendChunks` | vllm/entrypoints/openai/connect_worker.py:88-90 | The `async for` sends one frame per chunk, in the order the chunks come. |
| `Worker.ChunkFrames` | vllm/entrypoints/openai/connect_worker.py:87-90 | A stream of k chunks gives exactly k frames. Frame k is the event-stream frame of chunk k. |
| `Worker.FrameResult` | vllm/entrypoints/openai/connect_worker.py:80-90 | Every frame carries the given client identity. The content type is `text/event-stream` exactly for stream results and `application/json` otherwise. The step raises exactly for an error result as written, or for a stream whose generator raises. |
| `Worker.BytesToHeaders` | vllm/entrypoints/openai/connect_worker.py:52-54 | A header block is read exactly when it decodes as UTF-8, the text loads as JSON, and `httpx.Headers` accepts that JSON; otherwise `bytes_to_headers` raises. |
| `WorkerProperties.HeaderBlockRoundTrip` | vllm/entrypoints/openai/connect_worker.py:52-54 | A header block that is the UTF-8 encoding of dumped JSON (without repeated keys) is read back as exactly what `httpx.Headers` makes of that JSON. |
| `Worker.Prepare` | vllm/entrypoints/openai/connect_worker.py:67-77 | A message is prepared exactly when it has four parts, its identity, URL, header block and body decode, the header block loads to JSON that `httpx.Headers` accepts, and the body loads to a JSON object that `CompletionRequest` accepts; otherwise the loop body raises. A prepared message keeps its identity. Its completion request holds the body's members, and its request is `create_request` of the decoded URL, method POST, those members and the headers. |
| `Worker.Handle` | vllm/entrypoints/openai/connect_worker.py:67-90 | An unreadable message sends nothing and raises. For a readable one, a raising handler sends nothing and raises; otherwise the step is exactly `FrameResult` of the message's identity and the handler's result. Every frame sent for a message carries that message's first part. |
| `Worker.Run` | vllm/entrypoints/openai/connect_worker.py:66-67 | A run never consumes more messages than the dispatcher sent. |
| `RequestScope.CreateRequest` | vllm/entrypoints/openai/connect_worker.py:107-116 | The scope has type `http`, version `1.1`, and the given method, path and header items (the empty-headers branch agrees). It has a body exactly when the body dict is non-empty. |
| `RequestScope.ReceiveYieldsBody` | vllm/entrypoints/openai/connect_worker.py:117-121 | `receive()` yields `b''` for an empty body. Otherwise, for a body without repeated keys, it yields JSON text that loads back to the body object. |
| `Completion.CreateCompletion` | vllm/entrypoints/openai/connect_worker.py:95-104 | Without a completion handler, the result is the error "The model does not support Completions API" and no handler is called. With one, the result is the handler's own. |
| `WorkerProperties.UnaryAnsweredByOneJsonFrame` | vllm/entrypoints/openai/connect_worker.py:85-86 | A `CompletionResponse` yields exactly one `application/json` frame with the client identity. For a response without repeated keys, its payload decodes and loads back to the response. The loop goes on. |
| `WorkerProperties.StreamAnsweredChunkByChunk` | vllm/entrypoints/openai/connect_worker.py:87-90 | A stream of k chunks yields exactly k `text/event-stream` frames, and none for k = 0. The frames have the client identity and payloads equal to the chunks in order. The loop ends afterwards exactly when the generator raises. |
| `WorkerProperties.ErrorResponseEndsWorker` | vllm/entrypoints/openai/connect_worker.py:80-84 | As written, an `ErrorResponse` yields zero frames and ends the loop. |
| `WorkerProperties.IntendedErrorFrame` | vllm/entrypoints/openai/connect_worker.py:80-84 | As intended, an `ErrorResponse` yields one `application/json` frame whose payload loads to an object holding the message and `status_code` equal to the error code. The loop goes on. |
| `WorkerProperties.UnreadableMessageEndsWorker` | vllm/entrypoints/openai/connect_worker.py:67-73 | A message without four parts, with malformed header JSON, or with malformed body JSON is answered with nothing and ends the loop. |
| `WorkerProperties.FramesEchoIdentity` | vllm/entrypoints/openai/connect_worker.py:67-90 | Every frame the worker sends answers a four-part message it received and carries, unchanged, that message's identity. |
| `WorkerProperties.EachRequestAnsweredByItsFrames` | vllm/entrypoints/openai/connect_worker.py:66-90 | The frames the worker's log sends for message j are, in order, exactly the frames the loop body produces for message j when j was consumed, and none otherwise. |
| `WorkerProperties.UnaryRequestAnsweredInServe` | vllm/entrypoints/openai/connect_worker.py:67-86 | A readable message the worker reaches, whose handler returns a completion response, is answered in the log by exactly one `application/json` frame with that message's identity, whose payload loads back to the response (one without repeated keys). The worker then receives the next message, if there is one. |
| `WorkerProperties.RunIsOneAtATime` | vllm/entrypoints/openai/connect_worker.py:66-90 | The log opens with receipt of the first request. Each later event is a frame for the current request or the receipt of the next one. The last event belongs to the last message consumed. |
| `WorkerProperties.RequestsHandledOneAtATime` | vllm/entrypoints/openai/connect_worker.py:66-90 | For every frame and every receipt, the receipt comes before the frame exactly when its request number is at most the frame's. So every frame of request n is sent after n is received and before n+1 is received. |
| `WorkerProperties.RunStopsAtFirstFailure` | vllm/entrypoints/openai/connect_worker.py:59-93 | Of the steps consumed, a step raises exactly when it is the last one and the run crashed. A run that did not crash consumed every message. |
| `WorkerProperties.ConsumedUpToFirstFailure` | vllm/entrypoints/openai/connect_worker.py:59-93 | The same for the worker: of the messages consumed, exactly the last one failed if the worker crashed. A worker that did not crash consumed all of them. |
| `WorkerProperties.NothingAfterFailure` | vllm/entrypoints/openai/connect_worker.py:66-93 | After the first failing message, nothing further is consumed or sent. Whatever follows that message, the run is the same: it consumed exactly up to the failing message and ended by raising. |
| `WorkerProperties.NoHandlerAsWrittenDiesAtFirstRequest` | vllm/entrypoints/openai/connect_worker.py:67-84 | As written, a worker whose app has no completion handler dies at its first request, readable or not: it receives it, sends nothing and stops. |
| `WorkerProperties.NoHandlerIntendedAnswersEveryRequest` | vllm/entrypoints/openai/connect_worker.py:96-100 | As intended, such a worker answers every readable request with one "not supported" error frame and keeps serving: receipts and answers alternate. |
| `WorkerProperties.RunOneFrameEach` | vllm/entrypoints/openai/connect_worker.py:66-90 | When no step raises and each sends one frame, the log alternates between receipt of request k and its single frame, for every k. |

## Left out

- Socket creation, options, connect, `recv_multipart` and `send_multipart` are replaced by the inbound sequence and the outbound event log. A failing send or receive is therefore not modelled. Neither is back-pressure.
- The `async`/`await` scheduling: the model is sequential, like each worker's loop.
- Logging calls and the `__main__` demo. The one log line with an effect on the outcome is kept: the log after the receive decodes the identity, so a non-UTF-8 identity raises.
- The `app.state` accessors (`base`, `models`, `chat`, `completion`, `tokenization`) are replaced by `App.completion`.
- `create_error_response` is part of serving_engine.py, which is not part of this model. `NotSupported` uses its default error type and code (`BadRequestError`, 400).
- The field list of `ErrorResponse` (object, message, type, param, code) follows protocol.py, which is not part of this model.
- `json.loads`, `json.dumps`, `bytes.decode`, `str.encode`, `httpx.Headers` and pydantic's `CompletionRequest` validation are foreign libraries. They are taken as function values (`Foreign`), with their round-trips as the `Lawful` assumption. httpx header normalisation is therefore not modelled, and JSON numbers are integers only.
- The completion handler's internals are a function value returning a result or a raise.
- The request's no-op `send` callback is not represented.
- A pool of workers: this file starts no pool. Each `WorkerRoutine` call is one worker.
- A header-block encoder and its round-trip: the source has no encoder.
- The default `i = 0` of `worker_routine`: Dafny has no default arguments, so `WorkerRoutine` always takes `index` explicitly.
- The JSON round-trip is assumed only for values without repeated object keys (`DistinctKeys`). Bodies with repeated keys are loaded by keeping the last value, and the lemmas that load a payload back require distinct keys.
- `benchmarks/disagg_benchmarks/zmq/visualize_benchmark_results_zmq_http.py` and `visualize_benchmark_results_zmq_http_chunked.py`: they only read files, reshape data, average floats and plot.
- `Worker.Run`: its own contract states only the consumption bound. Its ordering and stopping behaviour is stated by the `WorkerProperties` lemmas about it.

## Findings

| source | as written | input that shows it | evidently intended | confidence | as-written member | corrected member |
|---|---|---|---|---|---|---|
| vllm/entrypoints/openai/connect_worker.py:83 | The error branch calls `append` on the dict loaded from the error's JSON. Dicts have no `append`, so the branch raises before its send: no error frame reaches the client and the worker stops for good. | Any `ErrorResponse` result, e.g. any readable request to an app without a completion handler (`NoHandlerAsWrittenDiesAtFirstRequest`). | One `application/json` frame holding the error's fields plus `status_code`, after which the worker keeps serving (`NoHandlerIntendedAnswersEveryRequest`). | high; not executed | `WorkerProperties.ErrorResponseEndsWorker` | `WorkerProperties.IntendedErrorFrame` |
