/** What a streamed completion looks like from outside, read off the job's chunks alone
    (internal/httpapi/chat.go streamChat, internal/httpapi/response.go streamErrorBody,
    examples/go-client/client.go parseSSE). */
module ChatClient {
  import opened Prelude
  import opened Text
  import opened SseStream
  import opened ChatStream

  // ----- how it ends -----

  /** The first chunk that failed. */
  predicate FailsFirstAt(chunks: seq<JobChunk>, n: nat) {
    n < |chunks| && chunks[n].err.Some? && forall i :: 0 <= i < n ==> chunks[i].err.None?
  }

  lemma FirstErrorIs(chunks: seq<JobChunk>, n: nat)
    requires FailsFirstAt(chunks, n)
    ensures FirstError(chunks) == n
  {
  }

  /** When every frame fits the client's buffer, it ends with an API error exactly when some chunk
      failed. The error has the code of the first that did, or internal_error if that has none, and is
      of type server_error. */
  lemma ClientGetsTheWorkersCode(c: Codec, chunks: seq<JobChunk>)
    requires c.Faithful() && AllFit(c, Frames(chunks))
    ensures var ending := Parse(c, Wire(c, Frames(chunks))).ending;
            && (ending.ApiError? <==> exists i :: 0 <= i < |chunks| && chunks[i].err.Some?)
            && (!ending.ApiError? ==> ending == Clean)
            && forall n: nat :: FailsFirstAt(chunks, n) ==>
                 var code := chunks[n].err.value.code;
                 && ending.ApiError? && ending.env.kind == "server_error" && ending.env.message == "inference failed"
                 && (code != "" ==> ending.env.code == code)
                 && (code == "" ==> ending.env.code == "internal_error")
  {
    ClientSeesTheStream(c, chunks);
    forall n: nat | FailsFirstAt(chunks, n) ensures FirstError(chunks) == n { FirstErrorIs(chunks, n); }
  }

  /** The same chunks, save for what a worker wrote into its error messages. */
  predicate SameButMessages(a: seq<JobChunk>, b: seq<JobChunk>) {
    |a| == |b| && forall i :: 0 <= i < |a| ==> SameChunk(a[i], b[i])
  }

  predicate SameChunk(a: JobChunk, b: JobChunk) {
    && a == b.(err := a.err)
    && (a.err.Some? <==> b.err.Some?)
    && (a.err.Some? && b.err.Some? ==> a.err.value.code == b.err.value.code)
  }

  lemma SameFirstError(a: seq<JobChunk>, b: seq<JobChunk>)
    requires SameButMessages(a, b)
    ensures FirstError(a) == FirstError(b)
  {
    var n := FirstError(a);
    assert forall i :: 0 <= i < |a| ==> SameChunk(a[i], b[i]);
    if n < |b| {
      FirstErrorIs(b, n);
    }
  }

  /** A worker's message never leaves the server: streams that differ in nothing else are the same
      bytes on the wire. */
  lemma MessagesStayInside(c: Codec, a: seq<JobChunk>, b: seq<JobChunk>)
    requires SameButMessages(a, b)
    ensures Wire(c, Frames(a)) == Wire(c, Frames(b))
  {
    SameFirstError(a, b);
    var n := FirstError(a);
    assert forall i :: 0 <= i < |a| ==> SameChunk(a[i], b[i]);
    forall i | 0 <= i < n ensures a[i] == b[i] { assert SameChunk(a[i], b[i]); }
    assert a[..n] == b[..n];
    if n < |a| { assert SameChunk(a[n], b[n]); }
    assert Frames(a) == Frames(b);
  }

  // ----- what each frame carries -----

  /** A tool call as the client gets it: name and arguments as they came, and never without an id or
      a type; those it came with are kept. */
  predicate Presents(call: ToolCall, wire: ToolCall) {
    && wire.name == call.name && wire.arguments == call.arguments
    && wire.id != "" && wire.kind != ""
    && (call.id != "" ==> wire.id == call.id)
    && (call.kind != "" ==> wire.kind == call.kind)
    && (call.kind == "" ==> wire.kind == "function")
  }

  predicate PresentsAll(calls: seq<ToolCall>, wires: seq<ToolCall>) {
    |wires| == |calls| && forall j :: 0 <= j < |calls| ==> Presents(calls[j], wires[j])
  }

  /** The frame of a chunk that did not fail: the role goes out with the first one only, the finish
      reason with a terminal one only, as the worker gave it or as stop. */
  predicate Carries(chunk: JobChunk, first: bool, f: Frame) {
    && f.Delta? && f.content == chunk.delta
    && (f.role == "assistant" <==> first) && (f.role == "" <==> !first)
    && (f.finish.Some? <==> chunk.done)
    && (f.finish.Some? ==> f.finish.value == if chunk.finish != "" then chunk.finish else "stop")
    && PresentsAll(chunk.calls, f.calls)
  }

  lemma WireCallsPresent(calls: seq<ToolCall>, drawn: seq<string>)
    ensures PresentsAll(calls, WireCalls(calls, drawn))
  {
    var wires := WireCalls(calls, drawn);
    forall j | 0 <= j < |calls| ensures Presents(calls[j], wires[j]) {
      assert wires[j] == WireCall(calls[j], if j < |drawn| then drawn[j] else "");
    }
  }

  /** There is one frame for each chunk before the first that failed, and one more if there is such. */
  lemma OneFrameAChunk(chunks: seq<JobChunk>, i: nat)
    requires i < |chunks| && forall k :: 0 <= k <= i ==> chunks[k].err.None?
    ensures i < |Frames(chunks)| && Carries(chunks[i], i == 0, Frames(chunks)[i])
  {
    assert i < FirstError(chunks);
    assert Frames(chunks)[i] == DeltaFrame(chunks[i], i == 0);
    WireCallsPresent(chunks[i].calls, chunks[i].drawn);
  }

  lemma NoFrameAfterAFailure(chunks: seq<JobChunk>, n: nat)
    requires FailsFirstAt(chunks, n)
    ensures |Frames(chunks)| == n + 1 && Frames(chunks)[n].Failure?
  {
    FirstErrorIs(chunks, n);
  }

  // ----- what is metered -----

  /** The last terminal chunk. */
  predicate LastTerminal(chunks: seq<JobChunk>, n: nat) {
    n < |chunks| && chunks[n].done && forall i :: n < i < |chunks| ==> !chunks[i].done
  }

  lemma {:induction false} TerminalUsageIs(chunks: seq<JobChunk>, n: nat)
    requires LastTerminal(chunks, n)
    ensures TerminalUsage(chunks) == Some(chunks[n].usage)
  {
    if n < |chunks| - 1 {
      var init := chunks[..|chunks| - 1];
      assert init[n] == chunks[n];
      TerminalUsageIs(init, n);
    }
  }

  /** A stream without a failure is metered by the token counts of its last terminal chunk, and not at
      all if it has none; one with a failure is not metered. */
  lemma MeteredByLastTerminal(chunks: seq<JobChunk>, cancelled: bool, n: nat)
    ensures var clean := forall i :: 0 <= i < |chunks| ==> chunks[i].err.None?;
            && (LastTerminal(chunks, n) && clean ==> EffectsOf(chunks, cancelled).metered == Some(chunks[n].usage))
            && (!clean ==> EffectsOf(chunks, cancelled).metered == None)
            && ((forall i :: 0 <= i < |chunks| ==> !chunks[i].done) ==> EffectsOf(chunks, cancelled).metered == None)
  {
    if FirstError(chunks) == |chunks| {
      CleanStream(chunks);
      if LastTerminal(chunks, n) { TerminalUsageIs(chunks, n); }
      TerminalIff(chunks);
    }
  }

  // ----- lines the server does not write -----

  /** A line that is not data is passed over: a comment that keeps the connection alive, an event name. */
  lemma OtherLinesAreSkipped(c: Codec, line: string, rest: string)
    requires Free(line, '\n') && !(DATA <= line) && ByteLen(line) <= MAX_LINE
    ensures Parse(c, line + "\n" + rest) == Parse(c, rest)
  {
    FirstLine(line, rest);
    assert !(DATA <= DropCR(line));
  }

  /** A carriage return before the newline makes no difference. */
  lemma CarriageReturnsAreDropped(c: Codec, line: string, rest: string)
    requires Free(line, '\n') && (line == "" || line[|line| - 1] != '\r') && ByteLen(line + "\r") <= MAX_LINE
    ensures Parse(c, line + "\r" + "\n" + rest) == Parse(c, line + "\n" + rest)
  {
    var cr := line + "\r";
    assert cr[..|line|] == line && cr[|line|] == '\r';
    ByteLenNext(line, '\r');
    FirstLine(line, rest);
    FirstLine(cr, rest);
    assert DropCR(cr) == line && DropCR(line) == line;
  }

  lemma ByteLenNext(s: string, ch: char)
    ensures ByteLen(s + [ch]) == ByteLen(s) + Width(ch)
  {
    assert (s + [ch])[..|s|] == s;
  }

  /** Nor does a missing newline at the end. */
  lemma LastNewlineIsOptional(c: Codec, line: string)
    requires Free(line, '\n') && line != ""
    ensures Parse(c, line) == Parse(c, line + "\n")
  {
    FirstLine(line, "");
    assert line + "\n" + "" == line + "\n";
    IndexOfNone(line, '\n');
    assert line[..|line|] == line;
  }

  /** A line of up to 1048575 bytes is read; a longer one ends the stream. */
  lemma LongestLine(c: Codec, line: string, rest: string)
    requires Free(line, '\n')
    ensures ByteLen(line) > 1_048_575 ==> Parse(c, line + "\n" + rest) == Seen([], LineTooLong)
    ensures ByteLen(line) <= 1_048_575 && !(DATA <= line) ==> Parse(c, line + "\n" + rest) == Parse(c, rest)
  {
    FirstLine(line, rest);
    if ByteLen(line) <= 1_048_575 && !(DATA <= line) { OtherLinesAreSkipped(c, line, rest); }
  }

  /** Of a chunk with several choices the client reads the first. */
  lemma FirstChoiceIsRead(c: Codec, payload: string, rest: string, choices: seq<string>)
    requires Free(payload, '\n') && payload != "" && payload[|payload| - 1] != '\r' && payload != DONE
    requires c.decodeError(payload).None? && c.decodeChunk(payload) == Some(choices) && ByteLen(DATA + payload) <= MAX_LINE
    ensures var later := Parse(c, rest);
            Parse(c, DATA + payload + BLANK + rest) ==
              if choices == [] || choices[0] == "" then later else Seen([choices[0]] + later.deltas, later.ending)
  {
    ParseLine(c, payload, rest);
    assert (DATA + payload)[|DATA|..] == payload;
  }
}
