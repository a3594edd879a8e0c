/** Server-Sent Events: the server's frame writer and the example client's parser
    (internal/httpapi/sse.go, examples/go-client/client.go). */
module SseStream {
  import opened Prelude
  import opened Text

  const DATA := "data: "
  const DONE := "[DONE]"
  const BLANK := "\n\n"

  /** The most bytes of a line, without its newline, that the client's scanner buffer can hold. */
  const MAX_LINE := 1024 * 1024 - 1

  datatype Envelope = Envelope(message: string, code: string, kind: string)

  datatype ToolCall = ToolCall(id: string, kind: string, name: string, arguments: string)

  /** A frame the server writes: a chat completion chunk, or the error envelope. */
  datatype Frame =
    | Delta(role: string, content: string, calls: seq<ToolCall>, finish: Option<string>)
    | Failure(env: Envelope)

  /** JSON: the server's encoder and the client's two decoders. decodeChunk yields the delta
      content of every choice. */
  datatype Codec = Codec(
    encode: Frame -> string,
    decodeError: string -> Option<Envelope>,
    decodeChunk: string -> Option<seq<string>>)
  {
    /** Encoded objects sit on one line, are not the terminator, and decode to what they were:
        an error frame to its envelope, a chunk to one choice and no error message. */
    ghost predicate Faithful() {
      forall f :: FrameFaithful(f)
    }

    ghost predicate FrameFaithful(f: Frame) {
      var text := encode(f);
      && Free(text, '\n') && text != DONE && text != "" && text[|text| - 1] != '\r'
      && match f
         case Failure(env) => decodeError(text) == Some(env)
         case Delta(_, content, _, _) =>
           && (decodeError(text).Some? ==> decodeError(text).value.message == "")
           && decodeChunk(text) == Some([content])
    }
  }

  // ----- writing -----

  class Writer {
    const codec: Codec
    var out: string

    constructor (codec: Codec)
      ensures this.codec == codec && out == ""
    {
      this.codec, out := codec, "";
    }

    method WriteData(f: Frame)
      modifies this
      ensures out == old(out) + Event(codec, f)
    {
      var buf := codec.encode(f);
      out := out + DATA;
      out := out + buf;
      out := out + BLANK;
    }

    method WriteDone()
      modifies this
      ensures out == old(out) + (DATA + DONE + BLANK)
    {
      out := out + (DATA + DONE + BLANK);
    }
  }

  function Event(c: Codec, f: Frame): string { DATA + c.encode(f) + BLANK }

  /** A whole response body. */
  function Wire(c: Codec, frames: seq<Frame>): string {
    if frames == [] then DATA + DONE + BLANK else Event(c, frames[0]) + Wire(c, frames[1..])
  }

  // ----- parsing -----

  datatype Ending = Clean | ApiError(env: Envelope) | BadChunk | LineTooLong

  /** What the client saw: the deltas given to its callback, and how the stream ended. */
  datatype Seen = Seen(deltas: seq<string>, ending: Ending)

  datatype LineStep = Skip | Emit(delta: string) | Stop(ending: Ending)

  function HandleLine(c: Codec, line: string): LineStep {
    if !(DATA <= line) then Skip
    else
      var payload := line[|DATA|..];
      if payload == DONE then Stop(Clean)
      else
        var env := c.decodeError(payload);
        if env.Some? && env.value.message != "" then Stop(ApiError(env.value))
        else
          match c.decodeChunk(payload)
          case None => Stop(BadChunk)
          case Some(choices) =>
            if choices == [] || choices[0] == "" then Skip else Emit(choices[0])
  }

  /** bufio.ScanLines drops one carriage return before the newline. */
  function DropCR(line: string): string {
    if line != [] && line[|line| - 1] == '\r' then line[..|line| - 1] else line
  }

  function Parse(c: Codec, input: string): Seen
    decreases |input|
  {
    if input == [] then Seen([], Clean)
    else
      var i := IndexOf(input, '\n');
      if ByteLen(input[..i]) > MAX_LINE then Seen([], LineTooLong)
      else
        var rest := if i < |input| then input[i + 1..] else [];
        match HandleLine(c, DropCR(input[..i]))
        case Stop(ending) => Seen([], ending)
        case Skip => Parse(c, rest)
        case Emit(delta) =>
          var later := Parse(c, rest);
          Seen([delta] + later.deltas, later.ending)
  }

  /** What is still to be seen, after what was seen already. */
  function After(deltas: seq<string>, later: Seen): Seen { Seen(deltas + later.deltas, later.ending) }

  /** What one line does to what the rest shows. */
  function Then(step: LineStep, later: Seen): Seen {
    match step
    case Stop(ending) => Seen([], ending)
    case Skip => later
    case Emit(delta) => Seen([delta] + later.deltas, later.ending)
  }

  lemma ParseLineByLine(c: Codec, rest: string)
    requires rest != [] && ByteLen(rest[..IndexOf(rest, '\n')]) <= MAX_LINE
    ensures var i := IndexOf(rest, '\n');
            Parse(c, rest) == Then(HandleLine(c, DropCR(rest[..i])), Parse(c, if i < |rest| then rest[i + 1..] else []))
  {
  }

  lemma AfterThen(deltas: seq<string>, step: LineStep, later: Seen)
    ensures After(deltas, Then(step, later)) ==
              match step
              case Stop(ending) => Seen(deltas, ending)
              case Skip => After(deltas, later)
              case Emit(delta) => After(deltas + [delta], later)
  {
    if step.Emit? { assert deltas + ([step.delta] + later.deltas) == deltas + [step.delta] + later.deltas; }
  }

  /** parseSSE. */
  method ParseSSE(c: Codec, input: string) returns (seen: Seen)
    ensures seen == Parse(c, input)
  {
    var rest, deltas := input, [];
    while rest != []
      invariant Parse(c, input) == After(deltas, Parse(c, rest))
      decreases |rest|
    {
      var i := IndexOf(rest, '\n');
      if ByteLen(rest[..i]) > MAX_LINE { return Seen(deltas, LineTooLong); }
      var line := DropCR(rest[..i]);
      ParseLineByLine(c, rest);
      AfterThen(deltas, HandleLine(c, line), Parse(c, if i < |rest| then rest[i + 1..] else []));
      rest := if i < |rest| then rest[i + 1..] else [];
      if !(DATA <= line) { continue; }
      var payload := line[|DATA|..];
      if payload == DONE { return Seen(deltas, Clean); }
      var env := c.decodeError(payload);
      if env.Some? && env.value.message != "" { return Seen(deltas, ApiError(env.value)); }
      var chunk := c.decodeChunk(payload);
      if chunk.None? { return Seen(deltas, BadChunk); }
      if chunk.value == [] || chunk.value[0] == "" { continue; }
      deltas := deltas + [chunk.value[0]];
    }
    seen := Seen(deltas, Clean);
  }

  // ----- the parser undoes the writer -----

  predicate Fits(c: Codec, f: Frame) { ByteLen(DATA + c.encode(f)) <= MAX_LINE }

  /** What a client should see of a list of frames. */
  function Shown(c: Codec, frames: seq<Frame>): Seen {
    if frames == [] then Seen([], Clean)
    else if !Fits(c, frames[0]) then Seen([], LineTooLong)
    else if frames[0].Failure? then Seen([], ApiError(frames[0].env))
    else
      var later := Shown(c, frames[1..]);
      if frames[0].content == "" then later else Seen([frames[0].content] + later.deltas, later.ending)
  }

  /** The first line of a text, and what follows it. */
  lemma FirstLine(line: string, rest: string)
    requires Free(line, '\n')
    ensures var s := line + "\n" + rest;
            IndexOf(s, '\n') == |line| && s[..|line|] == line && s[|line| + 1..] == rest
  {
    IndexOfUnique(line, '\n', rest);
  }

  lemma ParseBlank(c: Codec, rest: string)
    ensures Parse(c, "\n" + rest) == Parse(c, rest)
  {
    FirstLine("", rest);
    assert "" + "\n" + rest == "\n" + rest;
    assert !(DATA <= DropCR(""));
  }

  /** One event is one line of data and one blank line. */
  lemma ParseLine(c: Codec, payload: string, rest: string)
    requires Free(payload, '\n') && payload != "" && payload[|payload| - 1] != '\r'
    ensures var s := DATA + payload + BLANK + rest;
            Parse(c, s) ==
            if ByteLen(DATA + payload) > MAX_LINE then Seen([], LineTooLong)
            else match HandleLine(c, DATA + payload)
                 case Stop(ending) => Seen([], ending)
                 case Skip => Parse(c, rest)
                 case Emit(delta) => Seen([delta] + Parse(c, rest).deltas, Parse(c, rest).ending)
  {
    var line := DATA + payload;
    assert Free(line, '\n');
    var s := DATA + payload + BLANK + rest;
    assert s == line + "\n" + ("\n" + rest);
    FirstLine(line, "\n" + rest);
    assert DropCR(line) == line;
    ParseBlank(c, rest);
  }

  /** Parsing what the server wrote shows the client exactly the frames. */
  lemma {:induction false} ParseInvertsWire(c: Codec, frames: seq<Frame>)
    requires c.Faithful() && forall f :: f in frames && f.Failure? ==> f.env.message != ""
    ensures Parse(c, Wire(c, frames)) == Shown(c, frames)
  {
    if frames == [] {
      assert DATA + DONE + BLANK == DATA + DONE + BLANK + "";
      ByteLenBound(DATA + DONE);
      ParseLine(c, DONE, "");
      assert (DATA + DONE)[|DATA|..] == DONE;
    } else {
      var f, rest := frames[0], Wire(c, frames[1..]);
      assert c.FrameFaithful(f);
      var text := c.encode(f);
      assert Wire(c, frames) == DATA + text + BLANK + rest;
      ParseLine(c, text, rest);
      assert (DATA + text)[|DATA|..] == text;
      assert f in frames;
      ParseInvertsWire(c, frames[1..]);
    }
  }
}
