/** What the worker loop promises its dispatcher, proved of the model in `Worker`. */
module WorkerProperties {
  import opened Wrappers
  import opened Wire
  import opened RequestScope
  import opened Completion
  import opened Worker

  // ---------------------------------------------------------------------------
  // Classification and framing of one handler result

  /** A `CompletionResponse` is answered by exactly one JSON frame that loads back to the response. */
  lemma UnaryAnsweredByOneJsonFrame(f: Foreign, identity: Bytes, body: Json, mode: ErrorBranch)
    requires Lawful(f)
    requires DistinctKeys(body)
    ensures var s := FrameResult(f, identity, Unary(body), mode);
      && !s.fatal && |s.frames| == 1
      && s.frames[0].identity == identity
      && s.frames[0].contentType == ApplicationJson
      && f.utf8Decode(s.frames[0].payload).Some?
      && f.jsonLoads(f.utf8Decode(s.frames[0].payload).value) == Some(body)
  {
    var text := f.jsonDumps(body);
    assert f.utf8Decode(f.utf8Encode(text)) == Some(text);
  }

  /**
   * A header block written as the UTF-8 encoding of dumped JSON is read back by
   * `bytes_to_headers` as exactly what `httpx.Headers` makes of that JSON.
   */
  lemma HeaderBlockRoundTrip(f: Foreign, j: Json)
    requires Lawful(f) && DistinctKeys(j)
    ensures BytesToHeaders(f, f.utf8Encode(f.jsonDumps(j))) == f.toHeaders(j)
  {
    assert f.utf8Decode(f.utf8Encode(f.jsonDumps(j))) == Some(f.jsonDumps(j));
  }

  /**
   * A stream of k chunks is answered by exactly k event-stream frames, whose payloads are
   * the chunks in the order produced; none at all for k = 0. The loop ends after them
   * exactly when the generator raises.
   */
  lemma StreamAnsweredChunkByChunk(f: Foreign, identity: Bytes, chunks: seq<string>, raises: bool,
                                   mode: ErrorBranch)
    requires Lawful(f)
    ensures var s := FrameResult(f, identity, Stream(chunks, raises), mode);
      && s.fatal == raises
      && |s.frames| == |chunks|
      && (chunks == [] ==> s.frames == [])
      && forall k :: 0 <= k < |chunks| ==>
           && s.frames[k].identity == identity
           && s.frames[k].contentType == EventStream
           && f.utf8Decode(s.frames[k].payload) == Some(chunks[k])
  {
    var s := FrameResult(f, identity, Stream(chunks, raises), mode);
    forall k | 0 <= k < |chunks|
      ensures f.utf8Decode(s.frames[k].payload) == Some(chunks[k])
    {
      assert s.frames[k] == ChunkFrame(f, identity, chunks[k]);
    }
  }

  /**
   * As written, an `ErrorResponse` sends nothing: the dict decoded from the error's JSON
   * has no `append`, so the branch raises before its send and the loop ends.
   */
  lemma ErrorResponseEndsWorker(f: Foreign, identity: Bytes, e: ErrorResponse)
    ensures FrameResult(f, identity, Error(e), AsWritten) == Step([], true)
  {
  }

  /** The error object the intended branch sends names each of its keys once. */
  lemma ErrorPayloadHasDistinctKeys(e: ErrorResponse)
    ensures DistinctKeys(ErrorPayload(e))
  {
  }

  /**
   * As intended, an `ErrorResponse` is answered by one JSON frame holding the error's
   * message and, under `status_code`, its code, and the loop goes on.
   */
  lemma IntendedErrorFrame(f: Foreign, identity: Bytes, e: ErrorResponse)
    requires Lawful(f)
    ensures var s := FrameResult(f, identity, Error(e), Intended);
      && !s.fatal && |s.frames| == 1
      && s.frames[0].identity == identity
      && s.frames[0].contentType == ApplicationJson
      && f.utf8Decode(s.frames[0].payload).Some?
      && var loaded := f.jsonLoads(f.utf8Decode(s.frames[0].payload).value);
         && loaded.Some? && loaded.value.Object?
         && ("message", Str(e.message)) in loaded.value.members
         && ("status_code", Number(e.code)) in loaded.value.members
  {
    var payload := ErrorPayload(e);
    ErrorPayloadHasDistinctKeys(e);
    var text := f.jsonDumps(payload);
    assert f.utf8Decode(f.utf8Encode(text)) == Some(text);
    assert f.jsonLoads(text) == Some(payload);
    assert payload.members[1] == ("message", Str(e.message));
    assert payload.members[5] == ("status_code", Number(e.code));
  }

  // ---------------------------------------------------------------------------
  // Failures while reading a request

  /**
   * A message the worker cannot read -- not four parts, headers that do not decode,
   * a body that is not JSON -- is answered with nothing and ends the loop.
   */
  lemma UnreadableMessageEndsWorker(env: Env, mode: ErrorBranch, parts: seq<Bytes>)
    requires || |parts| != 4
             || BytesToHeaders(env.foreign, parts[2]).None?
             || (env.foreign.utf8Decode(parts[3]).Some?
                 && env.foreign.jsonLoads(env.foreign.utf8Decode(parts[3]).value).None?)
    ensures Handle(env, mode, parts) == Step([], true)
  {
  }

  // ---------------------------------------------------------------------------
  // The loop: identities, ordering, stopping

  /**
   * Every frame in `log` answers a four-part message of `inbox` numbered `n` or later,
   * and carries that message's identity.
   */
  ghost predicate EchoesIdentity(log: seq<Event>, inbox: seq<seq<Bytes>>, n: nat) {
    forall p :: 0 <= p < |log| && log[p].Sent? ==>
      && n <= log[p].request < |inbox|
      && |inbox[log[p].request]| == 4
      && log[p].frame.identity == inbox[log[p].request][0]
  }

  /** Each step answers its own message: every frame it sends carries that message's identity. */
  ghost predicate StepsEcho(steps: seq<Step>, inbox: seq<seq<Bytes>>) {
    && |steps| == |inbox|
    && forall j, k :: 0 <= j < |steps| && 0 <= k < |steps[j].frames| ==>
         |inbox[j]| == 4 && steps[j].frames[k].identity == inbox[j][0]
  }

  lemma {:induction false} RunEchoesIdentity(steps: seq<Step>, inbox: seq<seq<Bytes>>, n: nat)
    requires n <= |steps| && StepsEcho(steps, inbox)
    ensures EchoesIdentity(Run(steps, n).log, inbox, n)
    decreases |steps| - n
  {
    if n < |steps| {
      var s := steps[n];
      var block := Block(n, s.frames);
      var o := Run(steps, n);
      if !s.fatal {
        RunEchoesIdentity(steps, inbox, n + 1);
      }
      forall p | 0 <= p < |o.log| && o.log[p].Sent?
        ensures && n <= o.log[p].request < |inbox|
                && |inbox[o.log[p].request]| == 4
                && o.log[p].frame.identity == inbox[o.log[p].request][0]
      {
        if p < |block| {
          assert o.log[p] == block[p] == Sent(n, s.frames[p - 1]);
        } else {
          assert !s.fatal;
          var rest := Run(steps, n + 1);
          assert o.log == block + rest.log;
          assert EchoesIdentity(rest.log, inbox, n + 1);
          assert o.log[p] == rest.log[p - |block|];
        }
      }
    }
  }

  /** Every frame the worker sends carries the identity of the four-part message it answers. */
  lemma FramesEchoIdentity(env: Env, mode: ErrorBranch, inbox: seq<seq<Bytes>>)
    ensures EchoesIdentity(Serve(env, mode, inbox).log, inbox, 0)
  {
    var steps := Steps(env, mode, inbox);
    forall j, k | 0 <= j < |steps| && 0 <= k < |steps[j].frames|
      ensures |inbox[j]| == 4 && steps[j].frames[k].identity == inbox[j][0]
    {
      assert steps[j] == Handle(env, mode, inbox[j]);
    }
    RunEchoesIdentity(steps, inbox, 0);
  }

  /**
   * The shape of a log in which requests are handled one at a time: it opens with the
   * receipt of request `n`, and each later event is either a frame for the request
   * before it or the receipt of the next request.
   */
  ghost predicate OneAtATime(log: seq<Event>, n: nat) {
    && (|log| > 0 ==> log[0] == Received(n))
    && forall p :: 0 < p < |log| ==>
         || (log[p].Received? && log[p].request == log[p - 1].request + 1)
         || (log[p].Sent? && log[p].request == log[p - 1].request)
  }

  lemma BlockThen(n: nat, frames: seq<Frame>, rest: seq<Event>)
    requires OneAtATime(rest, n + 1)
    ensures OneAtATime(Block(n, frames) + rest, n)
  {
    var block := Block(n, frames);
    var log := block + rest;
    forall p | 0 < p < |log|
      ensures || (log[p].Received? && log[p].request == log[p - 1].request + 1)
              || (log[p].Sent? && log[p].request == log[p - 1].request)
    {
      if p < |block| {
        assert log[p] == Sent(n, frames[p - 1]);
        assert log[p - 1].request == n;
      } else if p == |block| {
        assert log[p] == rest[0];
        assert log[p - 1] == block[|block| - 1];
      } else {
        assert log[p] == rest[p - |block|] && log[p - 1] == rest[p - 1 - |block|];
      }
    }
  }

  /**
   * A run's log has the one-at-a-time shape: requests are received in order from `n`,
   * each answered in full before the next is received; and its last event belongs to
   * the last message consumed.
   */
  lemma {:induction false} RunIsOneAtATime(steps: seq<Step>, n: nat)
    requires n <= |steps|
    ensures var o := Run(steps, n);
      && OneAtATime(o.log, n)
      && (o.log == [] <==> o.consumed == 0)
      && (o.log != [] ==> o.log[|o.log| - 1].request == n + o.consumed - 1)
    decreases |steps| - n
  {
    if n < |steps| {
      var s := steps[n];
      var block := Block(n, s.frames);
      assert block[|block| - 1].request == n;
      if s.fatal {
        BlockThen(n, s.frames, []);
        assert block + [] == block;
      } else {
        RunIsOneAtATime(steps, n + 1);
        var rest := Run(steps, n + 1).log;
        BlockThen(n, s.frames, rest);
        assert rest != [] ==> (block + rest)[|block + rest| - 1] == rest[|rest| - 1];
      }
    }
  }

  lemma {:induction false} OneAtATimeMonotone(log: seq<Event>, n: nat, p: nat, q: nat)
    requires OneAtATime(log, n)
    requires p < q < |log|
    ensures log[p].request <= log[q].request
    ensures log[q].Received? ==> log[p].request < log[q].request
    decreases q - p
  {
    if p < q - 1 {
      OneAtATimeMonotone(log, n, p, q - 1);
    }
  }

  /**
   * Strictly sequential handling: a frame for request k is sent after request k is
   * received and before any later request is received.
   */
  lemma RequestsHandledOneAtATime(env: Env, mode: ErrorBranch, inbox: seq<seq<Bytes>>)
    ensures var log := Serve(env, mode, inbox).log;
      forall p, q :: 0 <= p < |log| && 0 <= q < |log| && log[p].Sent? && log[q].Received? ==>
        (log[q].request <= log[p].request <==> q < p)
  {
    var log := Serve(env, mode, inbox).log;
    RunIsOneAtATime(Steps(env, mode, inbox), 0);
    forall p, q | 0 <= p < |log| && 0 <= q < |log| && log[p].Sent? && log[q].Received?
      ensures log[q].request <= log[p].request <==> q < p
    {
      if q < p {
        OneAtATimeMonotone(log, 0, q, p);
      } else if p < q {
        OneAtATimeMonotone(log, 0, p, q);
      }
    }
  }

  /** The frames `log` sends for request `j`, in the order they are sent. */
  function FramesFor(log: seq<Event>, j: nat): seq<Frame>
    decreases |log|
  {
    if log == [] then []
    else (if log[0].Sent? && log[0].request == j then [log[0].frame] else []) + FramesFor(log[1..], j)
  }

  lemma {:induction false} FramesForConcat(a: seq<Event>, b: seq<Event>, j: nat)
    ensures FramesFor(a + b, j) == FramesFor(a, j) + FramesFor(b, j)
    decreases |a|
  {
    if a != [] {
      assert (a + b)[1..] == a[1..] + b;
      FramesForConcat(a[1..], b, j);
    } else {
      assert a + b == b;
    }
  }

  /** The block of request `n` sends its own frames for `n` and nothing for any other request. */
  lemma {:induction false} FramesForTag(n: nat, frames: seq<Frame>, j: nat)
    ensures FramesFor(Tag(n, frames), j) == if j == n then frames else []
    decreases |frames|
  {
    if frames != [] {
      var tag := Tag(n, frames);
      assert tag[0] == Sent(n, frames[0]);
      assert tag[1..] == Tag(n, frames[1..]);
      FramesForTag(n, frames[1..], j);
      assert frames == [frames[0]] + frames[1..];
    }
  }

  lemma FramesForBlock(n: nat, frames: seq<Frame>, j: nat)
    ensures FramesFor(Block(n, frames), j) == if j == n then frames else []
  {
    FramesForTag(n, frames, j);
    assert Block(n, frames)[1..] == Tag(n, frames);
  }

  /**
   * In a run from message `n`, the frames sent for each consumed message are exactly those
   * its step sends, and no frame is sent for any other request.
   */
  lemma {:induction false} RunFramesFor(steps: seq<Step>, n: nat, j: nat)
    requires n <= |steps|
    ensures var o := Run(steps, n);
      FramesFor(o.log, j) == if n <= j < n + o.consumed then steps[j].frames else []
    decreases |steps| - n
  {
    if n < |steps| {
      var s := steps[n];
      FramesForBlock(n, s.frames, j);
      if !s.fatal {
        var rest := Run(steps, n + 1);
        FramesForConcat(Block(n, s.frames), rest.log, j);
        RunFramesFor(steps, n + 1, j);
      }
    }
  }

  /**
   * Each message the worker consumes is answered by exactly the frames its loop body sends
   * for it, in order; no frame is ever sent for a message that was not consumed.
   */
  lemma EachRequestAnsweredByItsFrames(env: Env, mode: ErrorBranch, inbox: seq<seq<Bytes>>, j: nat)
    ensures var o := Serve(env, mode, inbox);
      && (j < o.consumed ==> FramesFor(o.log, j) == Handle(env, mode, inbox[j]).frames)
      && (o.consumed <= j ==> FramesFor(o.log, j) == [])
  {
    var steps := Steps(env, mode, inbox);
    RunFramesFor(steps, 0, j);
    if j < |inbox| {
      assert steps[j] == Handle(env, mode, inbox[j]);
    }
  }

  /**
   * A readable message that the worker reaches and whose handler returns a completion
   * response `b` is answered, in the worker's log, by exactly one `application/json` frame
   * addressed to the message's client, whose payload loads back to `b`; the worker then
   * goes on to the next message.
   */
  lemma UnaryRequestAnsweredInServe(env: Env, mode: ErrorBranch, inbox: seq<seq<Bytes>>, j: nat, b: Json)
    requires Lawful(env.foreign) && DistinctKeys(b)
    requires j < Serve(env, mode, inbox).consumed
    requires Prepare(env.foreign, inbox[j]).Some?
    requires CreateCompletion(env.app, Prepare(env.foreign, inbox[j]).value.completionRequest,
                              Prepare(env.foreign, inbox[j]).value.request) == Returned(Unary(b))
    ensures var o := Serve(env, mode, inbox);
      var fs := FramesFor(o.log, j);
      && |fs| == 1
      && fs[0].identity == inbox[j][0]
      && fs[0].contentType == ApplicationJson
      && env.foreign.utf8Decode(fs[0].payload).Some?
      && env.foreign.jsonLoads(env.foreign.utf8Decode(fs[0].payload).value) == Some(b)
      && (j + 1 < |inbox| ==> j + 1 < o.consumed)
  {
    var f := env.foreign;
    var parts := inbox[j];
    var s := Handle(env, mode, parts);
    assert s == FrameResult(f, parts[0], Unary(b), mode);
    UnaryAnsweredByOneJsonFrame(f, parts[0], b, mode);
    EachRequestAnsweredByItsFrames(env, mode, inbox, j);
    ConsumedUpToFirstFailure(env, mode, inbox);
  }

  lemma {:induction false} RunStopsAtFirstFailure(steps: seq<Step>, n: nat)
    requires n <= |steps|
    ensures var o := Run(steps, n);
      && (o.crashed ==> o.consumed > 0)
      && (!o.crashed ==> n + o.consumed == |steps|)
      && forall j :: n <= j < n + o.consumed ==> (steps[j].fatal <==> o.crashed && j == n + o.consumed - 1)
    decreases |steps| - n
  {
    if n < |steps| && !steps[n].fatal {
      RunStopsAtFirstFailure(steps, n + 1);
    }
  }

  /**
   * The loop stops at the first failure: among the messages consumed, exactly the last
   * one failed if the run crashed, and none did otherwise; a run that did not crash
   * consumed every message.
   */
  lemma ConsumedUpToFirstFailure(env: Env, mode: ErrorBranch, inbox: seq<seq<Bytes>>)
    ensures var o := Serve(env, mode, inbox);
      && (o.crashed ==> o.consumed > 0)
      && (!o.crashed ==> o.consumed == |inbox|)
      && forall j :: 0 <= j < o.consumed ==>
           (Handle(env, mode, inbox[j]).fatal <==> o.crashed && j == o.consumed - 1)
  {
    var steps := Steps(env, mode, inbox);
    RunStopsAtFirstFailure(steps, 0);
    var o := Run(steps, 0);
    forall j | 0 <= j < o.consumed
      ensures Handle(env, mode, inbox[j]).fatal <==> o.crashed && j == o.consumed - 1
    {
      assert steps[j] == Handle(env, mode, inbox[j]);
    }
  }

  lemma {:induction false} RunPrefixDecides(steps: seq<Step>, more: seq<Step>, n: nat)
    requires n < |steps|
    requires steps[|steps| - 1].fatal
    requires forall j :: 0 <= j < |steps| - 1 ==> !steps[j].fatal
    ensures Run(steps + more, n) == Run(steps, n)
    decreases |steps| - n
  {
    assert (steps + more)[n] == steps[n];
    if n < |steps| - 1 {
      RunPrefixDecides(steps, more, n + 1);
    }
  }

  /**
   * Once a message fails, nothing after it is consumed or answered: whatever follows the
   * failing message, the run is the same, it consumed exactly up to that message, and it
   * ended by raising.
   */
  lemma NothingAfterFailure(env: Env, mode: ErrorBranch, prefix: seq<seq<Bytes>>, rest: seq<seq<Bytes>>)
    requires prefix != []
    requires Handle(env, mode, prefix[|prefix| - 1]).fatal
    requires forall j :: 0 <= j < |prefix| - 1 ==> !Handle(env, mode, prefix[j]).fatal
    ensures Serve(env, mode, prefix + rest) == Serve(env, mode, prefix)
    ensures Serve(env, mode, prefix).crashed && Serve(env, mode, prefix).consumed == |prefix|
  {
    var steps := Steps(env, mode, prefix);
    var more := Steps(env, mode, rest);
    assert Steps(env, mode, prefix + rest) == steps + more;
    RunPrefixDecides(steps, more, 0);
    RunStopsAtFirstFailure(steps, 0);
    var o := Run(steps, 0);
    var last := |prefix| - 1;
    assert o.consumed >= 1;
    var k := o.consumed - 1;
    var failedAtK := steps[k].fatal;
    assert failedAtK <==> o.crashed;
    assert k < last ==> !failedAtK;
    assert last < o.consumed ==> (steps[last].fatal <==> o.crashed && last == k);
  }

  // ---------------------------------------------------------------------------
  // A worker whose application has no completion handler

  /**
   * As written, a worker without a completion handler dies at its first request, readable
   * or not: an unreadable one raises while it is read, and a readable one gets the "not
   * supported" error, whose branch raises before sending.
   */
  lemma NoHandlerAsWrittenDiesAtFirstRequest(env: Env, inbox: seq<seq<Bytes>>)
    requires env.app.completion.None?
    requires inbox != []
    ensures Serve(env, AsWritten, inbox) == Outcome([Received(0)], 1, true)
  {
    assert Steps(env, AsWritten, inbox)[0] == Step([], true);
    assert Block(0, []) == [Received(0)];
  }

  lemma {:induction false} RunOneFrameEach(steps: seq<Step>, n: nat)
    requires n <= |steps|
    requires forall j :: n <= j < |steps| ==> !steps[j].fatal && |steps[j].frames| == 1
    ensures var o := Run(steps, n);
      && !o.crashed && o.consumed == |steps| - n && |o.log| == 2 * (|steps| - n)
      && forall p :: 0 <= p < |o.log| ==>
           o.log[p] == if p % 2 == 0 then Received(n + p / 2) else Sent(n + p / 2, steps[n + p / 2].frames[0])
    decreases |steps| - n
  {
    if n < |steps| {
      var frame := steps[n].frames[0];
      var block := Block(n, steps[n].frames);
      assert block == [Received(n), Sent(n, frame)];
      RunOneFrameEach(steps, n + 1);
      var o := Run(steps, n);
      var rest := Run(steps, n + 1);
      assert o.log == block + rest.log;
      forall p | 2 <= p < |o.log|
        ensures o.log[p] == rest.log[p - 2]
        ensures n + 1 + (p - 2) / 2 == n + p / 2 && (p - 2) % 2 == p % 2
      {
      }
    }
  }

  /**
   * As intended, a worker without a completion handler answers every readable request
   * with one "not supported" error frame and keeps serving: receipt and answer alternate.
   */
  lemma NoHandlerIntendedAnswersEveryRequest(env: Env, inbox: seq<seq<Bytes>>)
    requires env.app.completion.None?
    requires forall j :: 0 <= j < |inbox| ==> Prepare(env.foreign, inbox[j]).Some?
    ensures var o := Serve(env, Intended, inbox);
      && !o.crashed && o.consumed == |inbox| && |o.log| == 2 * |inbox|
      && forall p :: 0 <= p < |o.log| ==>
           o.log[p] == if p % 2 == 0 then Received(p / 2)
                       else Sent(p / 2, ErrorFrame(env.foreign, inbox[p / 2][0], NotSupported()))
  {
    var steps := Steps(env, Intended, inbox);
    forall j | 0 <= j < |inbox|
      ensures steps[j] == Step([ErrorFrame(env.foreign, inbox[j][0], NotSupported())], false)
    {
      assert steps[j] == Handle(env, Intended, inbox[j]);
    }
    RunOneFrameEach(steps, 0);
  }
}
