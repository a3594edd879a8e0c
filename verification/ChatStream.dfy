/** One streamed chat completion: forwarding job chunks as frames, and deciding what to
    meter and what to store (internal/httpapi/chat.go streamChat). */
module ChatStream {
  import opened Prelude
  import opened SseStream

  datatype JobError = JobError(code: string, message: string)

  datatype Usage = Usage(prompt: nat, completion: nat, total: nat)

  /** drawn are the random texts for the ids of tool calls that come without one. */
  datatype JobChunk = JobChunk(
    delta: string, done: bool, err: Option<JobError>, calls: seq<ToolCall>, finish: string, usage: Usage,
    drawn: seq<string>)

  /** streamErrorBody: the client gets the worker's code, never its message. */
  function ErrorBody(e: JobError): Envelope {
    Envelope("inference failed", if e.code == "" then "internal_error" else e.code, "server_error")
  }

  // ----- the stream, on values -----

  /** The position of the first failed chunk, or the length when none fails. */
  function FirstError(chunks: seq<JobChunk>): (n: nat)
    ensures n <= |chunks|
    ensures forall i :: 0 <= i < n ==> chunks[i].err.None?
    ensures n < |chunks| ==> chunks[n].err.Some?
  {
    if chunks == [] || chunks[0].err.Some? then 0
    else
      var n := FirstError(chunks[1..]) + 1;
      assert forall i :: 1 <= i < n ==> chunks[i] == chunks[1..][i - 1];
      n
  }

  predicate Failed(chunks: seq<JobChunk>) { exists i :: 0 <= i < |chunks| && chunks[i].err.Some? }

  /** The chunks that are forwarded. */
  function Sent(chunks: seq<JobChunk>): seq<JobChunk> { chunks[..FirstError(chunks)] }

  function Reply(chunks: seq<JobChunk>): string {
    if chunks == [] then "" else Reply(chunks[..|chunks| - 1]) + chunks[|chunks| - 1].delta
  }

  function Calls(chunks: seq<JobChunk>): seq<ToolCall> {
    if chunks == [] then [] else Calls(chunks[..|chunks| - 1]) + chunks[|chunks| - 1].calls
  }

  /** The token counts of the last terminal chunk, if there was one. */
  function TerminalUsage(chunks: seq<JobChunk>): Option<Usage> {
    if chunks == [] then None
    else if chunks[|chunks| - 1].done then Some(chunks[|chunks| - 1].usage)
    else TerminalUsage(chunks[..|chunks| - 1])
  }

  function FinishOrStop(r: string): string { if r == "" then "stop" else r }

  /** A tool call as the client gets it: with an id and a type, made up if need be. */
  function WireCall(c: ToolCall, drawn: string): ToolCall {
    ToolCall(if c.id == "" then "call_" + drawn else c.id, if c.kind == "" then "function" else c.kind, c.name, c.arguments)
  }

  function WireCalls(calls: seq<ToolCall>, drawn: seq<string>): (r: seq<ToolCall>)
    ensures |r| == |calls|
    ensures forall i :: 0 <= i < |calls| ==> r[i] == WireCall(calls[i], if i < |drawn| then drawn[i] else "")
  {
    seq(|calls|, i requires 0 <= i < |calls| => WireCall(calls[i], if i < |drawn| then drawn[i] else ""))
  }

  function DeltaFrame(c: JobChunk, first: bool): Frame {
    Delta(if first then "assistant" else "", c.delta, WireCalls(c.calls, c.drawn), if c.done then Some(FinishOrStop(c.finish)) else None)
  }

  function DeltaFrames(chunks: seq<JobChunk>): (fs: seq<Frame>)
    ensures |fs| == |chunks|
    ensures forall i :: 0 <= i < |chunks| ==> fs[i] == DeltaFrame(chunks[i], i == 0)
  {
    seq(|chunks|, i requires 0 <= i < |chunks| => DeltaFrame(chunks[i], i == 0))
  }

  /** Every frame of the response: the forwarded chunks and, after a failure, its envelope. */
  function Frames(chunks: seq<JobChunk>): seq<Frame> {
    var n := FirstError(chunks);
    DeltaFrames(Sent(chunks)) + (if n < |chunks| then [Failure(ErrorBody(chunks[n].err.value))] else [])
  }

  /** What streamChat does besides writing the response. */
  datatype Effects = Effects(reply: string, calls: seq<ToolCall>, metered: Option<Usage>, persist: bool)

  /** Tokens are metered for a stream that saw a terminal chunk and no error; the turn is
      stored if, besides, the client is still there. */
  function EffectsOf(chunks: seq<JobChunk>, cancelled: bool): Effects {
    var sent := Sent(chunks);
    var usage := if Failed(chunks) then None else TerminalUsage(sent);
    Effects(Reply(sent), Calls(sent), usage, usage.Some? && !cancelled)
  }

  // ----- the chunk loop -----

  /** What has been gathered of the chunks forwarded so far. */
  predicate Gathered(chunks: seq<JobChunk>, content: string, calls: seq<ToolCall>, usage: Usage, sawDone: bool) {
    && content == Reply(chunks) && calls == Calls(chunks)
    && TerminalUsage(chunks) == if sawDone then Some(usage) else None
  }

  lemma BodyNext(c: Codec, chunks: seq<JobChunk>, i: nat)
    requires i < |chunks|
    ensures Body(c, DeltaFrames(chunks[..i + 1])) == Body(c, DeltaFrames(chunks[..i])) + Event(c, DeltaFrame(chunks[i], i == 0))
  {
    PrefixStep(chunks, i);
    BodySnoc(c, DeltaFrames(chunks[..i]), DeltaFrame(chunks[i], i == 0));
  }

  /** Forwards chunks until the channel closes or one carries an error. */
  method ForwardChunks(w: Writer, chunks: seq<JobChunk>)
    returns (content: string, calls: seq<ToolCall>, usage: Usage, sawDone: bool, failed: bool)
    requires w.out == ""
    modifies w
    ensures w.out == Body(w.codec, Frames(chunks))
    ensures content == Reply(Sent(chunks)) && calls == Calls(Sent(chunks))
    ensures TerminalUsage(Sent(chunks)) == if sawDone then Some(usage) else None
    ensures failed <==> Failed(chunks)
  {
    var roleSent := false;
    content, calls, usage, sawDone, failed := "", [], Usage(0, 0, 0), false, false;
    var i := 0;
    while i < |chunks|
      invariant 0 <= i <= FirstError(chunks)
      invariant w.out == Body(w.codec, DeltaFrames(chunks[..i]))
      invariant roleSent == (i > 0) && !failed
      invariant Gathered(chunks[..i], content, calls, usage, sawDone)
    {
      var chunk := chunks[i];
      if chunk.err.Some? {
        BrokenStream(chunks, i);
        w.WriteData(Failure(ErrorBody(chunk.err.value)));
        BodySnoc(w.codec, DeltaFrames(chunks[..i]), Failure(ErrorBody(chunk.err.value)));
        failed := true;
        return;
      }
      PrefixStep(chunks, i);
      BodyNext(w.codec, chunks, i);
      content := content + chunk.delta;
      calls := calls + chunk.calls;
      if chunk.done {
        sawDone, usage := true, chunk.usage;
      }
      SendDelta(w, chunk, !roleSent);
      roleSent := true;
      i := i + 1;
    }
    assert chunks[..i] == chunks;
    CleanStream(chunks);
  }

  lemma CleanStream(chunks: seq<JobChunk>)
    requires FirstError(chunks) == |chunks|
    ensures Sent(chunks) == chunks && Frames(chunks) == DeltaFrames(chunks) && !Failed(chunks)
  {
    assert chunks[..|chunks|] == chunks;
  }

  lemma BrokenStream(chunks: seq<JobChunk>, i: nat)
    requires i == FirstError(chunks) < |chunks|
    ensures Sent(chunks) == chunks[..i] && Failed(chunks)
    ensures Frames(chunks) == DeltaFrames(chunks[..i]) + [Failure(ErrorBody(chunks[i].err.value))]
  {
  }

  method SendDelta(w: Writer, chunk: JobChunk, first: bool)
    modifies w
    ensures w.out == old(w.out) + Event(w.codec, DeltaFrame(chunk, first))
  {
    var role, finish := "", None;
    if first { role := "assistant"; }
    if chunk.done { finish := Some(FinishOrStop(chunk.finish)); }
    var calls := FromDomainToolCalls(chunk.calls, chunk.drawn);
    w.WriteData(Delta(role, chunk.delta, calls, finish));
  }

  method FromDomainToolCalls(calls: seq<ToolCall>, drawn: seq<string>) returns (out: seq<ToolCall>)
    ensures out == WireCalls(calls, drawn)
  {
    out := [];
    for i := 0 to |calls|
      invariant |out| == i && forall k :: 0 <= k < i ==> out[k] == WireCalls(calls, drawn)[k]
    {
      var id, kind := calls[i].id, calls[i].kind;
      if id == "" { id := "call_" + (if i < |drawn| then drawn[i] else ""); }
      if kind == "" { kind := "function"; }
      out := out + [ToolCall(id, kind, calls[i].name, calls[i].arguments)];
    }
  }

  lemma PrefixStep(chunks: seq<JobChunk>, i: nat)
    requires i < |chunks|
    ensures var now, next := chunks[..i], chunks[..i + 1];
            && Reply(next) == Reply(now) + chunks[i].delta
            && Calls(next) == Calls(now) + chunks[i].calls
            && TerminalUsage(next) == (if chunks[i].done then Some(chunks[i].usage) else TerminalUsage(now))
            && DeltaFrames(next) == DeltaFrames(now) + [DeltaFrame(chunks[i], i == 0)]
  {
    assert chunks[..i + 1][..i] == chunks[..i];
  }

  method StreamChat(w: Writer, chunks: seq<JobChunk>, cancelled: bool) returns (e: Effects)
    requires w.out == ""
    modifies w
    ensures w.out == Wire(w.codec, Frames(chunks))
    ensures e == EffectsOf(chunks, cancelled)
  {
    var content, calls, usage, sawDone, failed := ForwardChunks(w, chunks);
    w.WriteDone();
    WireIsBody(w.codec, Frames(chunks));
    e := Effects(content, calls, None, false);
    if sawDone && !failed {
      e := e.(metered := Some(usage));
    }
    if !failed && sawDone && !cancelled {
      e := e.(persist := true);
    }
  }

  /** The body so far, without its terminator. */
  function Body(c: Codec, frames: seq<Frame>): string {
    if frames == [] then "" else Event(c, frames[0]) + Body(c, frames[1..])
  }

  lemma {:induction false} BodySnoc(c: Codec, frames: seq<Frame>, f: Frame)
    ensures Body(c, frames + [f]) == Body(c, frames) + Event(c, f)
  {
    if frames == [] {
      assert Body(c, [f]) == Event(c, f) + "";
    } else {
      assert (frames + [f])[1..] == frames[1..] + [f];
      BodySnoc(c, frames[1..], f);
    }
  }

  lemma {:induction false} WireIsBody(c: Codec, frames: seq<Frame>)
    ensures Wire(c, frames) == Body(c, frames) + (DATA + DONE + BLANK)
  {
    if frames == [] {
      assert "" + (DATA + DONE + BLANK) == DATA + DONE + BLANK;
    } else {
      WireIsBody(c, frames[1..]);
    }
  }

  // ----- what the client sees of it -----

  function NonEmptyDeltas(chunks: seq<JobChunk>): seq<string> {
    if chunks == [] then []
    else if chunks[0].delta == "" then NonEmptyDeltas(chunks[1..])
    else [chunks[0].delta] + NonEmptyDeltas(chunks[1..])
  }

  predicate AllFit(c: Codec, frames: seq<Frame>) { forall f :: f in frames ==> Fits(c, f) }

  /** How the client's parse should end. */
  function ExpectedEnding(chunks: seq<JobChunk>): Ending {
    var n := FirstError(chunks);
    if n < |chunks| then ApiError(ErrorBody(chunks[n].err.value)) else Clean
  }

  /** For every chunk sequence, the client parses the response to exactly the non-empty deltas
      before the first error, in order, and to an API error with that chunk's code exactly
      when there was one; this holds if and only if every frame fits the client's line
      buffer. */
  lemma ClientSeesTheStream(c: Codec, chunks: seq<JobChunk>)
    requires c.Faithful()
    ensures var seen := Parse(c, Wire(c, Frames(chunks)));
            && (seen == Seen(NonEmptyDeltas(Sent(chunks)), ExpectedEnding(chunks)) <==> AllFit(c, Frames(chunks)))
            && (AllFit(c, Frames(chunks)) || seen.ending == LineTooLong)
  {
    var frames := Frames(chunks);
    ParseInvertsWire(c, frames);
    var sent, n := Sent(chunks), FirstError(chunks);
    var tail := frames[|sent|..];
    assert frames == DeltaFrames(sent) + tail;
    ContentsAreDeltas(sent, DeltaFrames(sent));
    ShownFrames(c, DeltaFrames(sent), tail);
    FailedTail(c, tail);
  }

  /** The non-empty contents of delta frames. */
  function Contents(frames: seq<Frame>): seq<string>
    requires forall i :: 0 <= i < |frames| ==> frames[i].Delta?
  {
    if frames == [] then []
    else if frames[0].content == "" then Contents(frames[1..])
    else [frames[0].content] + Contents(frames[1..])
  }

  lemma {:induction false} ContentsAreDeltas(chunks: seq<JobChunk>, frames: seq<Frame>)
    requires |frames| == |chunks| && forall i :: 0 <= i < |frames| ==> frames[i].Delta? && frames[i].content == chunks[i].delta
    ensures Contents(frames) == NonEmptyDeltas(chunks)
  {
    if chunks != [] { ContentsAreDeltas(chunks[1..], frames[1..]); }
  }

  lemma FailedTail(c: Codec, tail: seq<Frame>)
    requires |tail| <= 1 && forall f :: f in tail ==> f.Failure?
    ensures AllFit(c, tail) ==> Shown(c, tail) == Seen([], if tail == [] then Clean else ApiError(tail[0].env))
    ensures !AllFit(c, tail) ==> Shown(c, tail).ending == LineTooLong
  {
  }

  lemma {:induction false} ShownFrames(c: Codec, frames: seq<Frame>, tail: seq<Frame>)
    requires forall i :: 0 <= i < |frames| ==> frames[i].Delta?
    ensures AllFit(c, frames) ==>
      Shown(c, frames + tail) == Seen(Contents(frames) + Shown(c, tail).deltas, Shown(c, tail).ending)
    ensures !AllFit(c, frames) ==> Shown(c, frames + tail).ending == LineTooLong
  {
    if frames == [] {
      assert frames + tail == tail;
    } else {
      var f, rest := frames[0], frames[1..];
      assert frames == [f] + rest;
      assert frames + tail == [f] + (rest + tail);
      ShownFrames(c, rest, tail);
      AllFitCons(c, f, rest);
      ShownCons(c, f, rest + tail);
    }
  }

  lemma AllFitCons(c: Codec, f: Frame, rest: seq<Frame>)
    ensures AllFit(c, [f] + rest) <==> Fits(c, f) && AllFit(c, rest)
  {
    assert f in [f] + rest;
    assert forall x :: x in [f] + rest <==> x == f || x in rest;
  }

  lemma ShownCons(c: Codec, f: Frame, rest: seq<Frame>)
    requires f.Delta?
    ensures var later := Shown(c, rest);
            Shown(c, [f] + rest) ==
              if !Fits(c, f) then Seen([], LineTooLong)
              else if f.content == "" then later
              else Seen([f.content] + later.deltas, later.ending)
  {
    assert ([f] + rest)[1..] == rest;
  }

  /** What is stored for a turn is what the client was sent: the reply is the concatenation of
      the deltas, and nothing of it came after an error. */
  lemma StoredReplyWasSent(c: Codec, chunks: seq<JobChunk>, cancelled: bool)
    requires c.Faithful() && AllFit(c, Frames(chunks))
    ensures var seen := Parse(c, Wire(c, Frames(chunks)));
            var e := EffectsOf(chunks, cancelled);
            && e.reply == Concat(seen.deltas)
            && (e.persist <==> seen.ending == Clean && e.metered.Some? && !cancelled)
            && (e.metered.Some? <==> seen.ending == Clean && exists i :: 0 <= i < |chunks| && chunks[i].done)
  {
    ClientSeesTheStream(c, chunks);
    var sent, n := Sent(chunks), FirstError(chunks);
    ReplyIsConcat(sent);
    TerminalIff(sent);
    if n == |chunks| {
      assert sent == chunks;
      assert !Failed(chunks);
    }
  }

  function Concat(parts: seq<string>): string {
    if parts == [] then "" else parts[0] + Concat(parts[1..])
  }

  lemma {:induction false} ConcatSnoc(parts: seq<string>, p: string)
    ensures Concat(parts + [p]) == Concat(parts) + p
  {
    if parts == [] {
      assert Concat([p]) == p + "";
    } else {
      assert (parts + [p])[1..] == parts[1..] + [p];
      ConcatSnoc(parts[1..], p);
    }
  }

  lemma {:induction false} NonEmptySnoc(chunks: seq<JobChunk>, c: JobChunk)
    ensures NonEmptyDeltas(chunks + [c]) == NonEmptyDeltas(chunks) + (if c.delta == "" then [] else [c.delta])
  {
    if chunks != [] {
      assert (chunks + [c])[1..] == chunks[1..] + [c];
      NonEmptySnoc(chunks[1..], c);
    }
  }

  lemma {:induction false} ReplyIsConcat(chunks: seq<JobChunk>)
    ensures Reply(chunks) == Concat(NonEmptyDeltas(chunks))
  {
    if chunks != [] {
      var init, c := chunks[..|chunks| - 1], chunks[|chunks| - 1];
      assert chunks == init + [c];
      ReplyIsConcat(init);
      NonEmptySnoc(init, c);
      if c.delta == "" {
        assert Reply(init) + "" == Reply(init);
        assert NonEmptyDeltas(init) + [] == NonEmptyDeltas(init);
      } else {
        ConcatSnoc(NonEmptyDeltas(init), c.delta);
      }
    }
  }

  lemma {:induction false} TerminalIff(chunks: seq<JobChunk>)
    ensures TerminalUsage(chunks).Some? <==> exists i :: 0 <= i < |chunks| && chunks[i].done
  {
    if chunks != [] {
      var init := chunks[..|chunks| - 1];
      TerminalIff(init);
      assert forall i :: 0 <= i < |init| ==> init[i] == chunks[i];
    }
  }

  // ----- tool calls -----

  /** The tool calls of the frames, in order. */
  function SentCalls(frames: seq<Frame>): seq<ToolCall> {
    if frames == [] then []
    else
      var f := frames[|frames| - 1];
      SentCalls(frames[..|frames| - 1]) + (if f.Delta? then f.calls else [])
  }

  predicate Complete(c: ToolCall) { c.id != "" && c.kind != "" }

  predicate CallsComplete(calls: seq<ToolCall>) { forall j :: 0 <= j < |calls| ==> Complete(calls[j]) }

  predicate AllComplete(chunks: seq<JobChunk>) { forall i :: 0 <= i < |chunks| ==> CallsComplete(chunks[i].calls) }

  lemma WireCallsKept(calls: seq<ToolCall>, drawn: seq<string>)
    ensures |WireCalls(calls, drawn)| == |calls|
    ensures WireCalls(calls, drawn) == calls <==> CallsComplete(calls)
  {
    var r := WireCalls(calls, drawn);
    forall j | 0 <= j < |calls| ensures r[j] == calls[j] <==> Complete(calls[j]) {
      assert r[j] == WireCall(calls[j], if j < |drawn| then drawn[j] else "");
    }
  }

  lemma SentCallsNext(frames: seq<Frame>, f: Frame)
    ensures SentCalls(frames + [f]) == SentCalls(frames) + (if f.Delta? then f.calls else [])
  {
    assert (frames + [f])[..|frames|] == frames;
  }

  lemma FramesNext(init: seq<JobChunk>, last: JobChunk)
    ensures DeltaFrames(init + [last]) == DeltaFrames(init) + [DeltaFrame(last, init == [])]
  {
  }

  lemma CallsNext(init: seq<JobChunk>, last: JobChunk)
    ensures Calls(init + [last]) == Calls(init) + last.calls
  {
    assert (init + [last])[..|init|] == init;
  }

  lemma CompleteNext(init: seq<JobChunk>, last: JobChunk)
    ensures AllComplete(init + [last]) <==> AllComplete(init) && CallsComplete(last.calls)
  {
    var all := init + [last];
    assert all[|init|] == last && forall i :: 0 <= i < |init| ==> all[i] == init[i];
  }

  lemma {:induction false} DeltaCalls(chunks: seq<JobChunk>)
    ensures |SentCalls(DeltaFrames(chunks))| == |Calls(chunks)|
    ensures SentCalls(DeltaFrames(chunks)) == Calls(chunks) <==> AllComplete(chunks)
  {
    if chunks != [] {
      var n := |chunks| - 1;
      var init, last := chunks[..n], chunks[n];
      DeltaCalls(init);
      assert chunks == init + [last];
      FramesNext(init, last);
      SentCallsNext(DeltaFrames(init), DeltaFrame(last, init == []));
      CallsNext(init, last);
      CompleteNext(init, last);
      WireCallsKept(last.calls, last.drawn);
      SplitEqual(SentCalls(DeltaFrames(init)), Calls(init), WireCalls(last.calls, last.drawn), last.calls);
    }
  }

  lemma SplitEqual<T>(a: seq<T>, b: seq<T>, x: seq<T>, y: seq<T>)
    requires |a| == |b| && |x| == |y|
    ensures a + x == b + y <==> a == b && x == y
  {
    if a + x == b + y {
      assert a == (a + x)[..|a|] && b == (b + y)[..|a|];
      assert x == (a + x)[|a|..] && y == (b + y)[|a|..];
    }
  }

  /** The tool calls kept for the history are those the client was sent exactly when each came with
      an id and a type: what is made up for the client is not kept. */
  lemma StoredCallsWereSentExactlyWhen(chunks: seq<JobChunk>, cancelled: bool)
    ensures EffectsOf(chunks, cancelled).calls == SentCalls(Frames(chunks)) <==> AllComplete(Sent(chunks))
  {
    var n := FirstError(chunks);
    DeltaCalls(Sent(chunks));
    if n < |chunks| {
      SentCallsNext(DeltaFrames(Sent(chunks)), Failure(ErrorBody(chunks[n].err.value)));
    } else {
      CleanStream(chunks);
    }
  }
}
