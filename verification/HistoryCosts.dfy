/** What the caps of a conversation count: the bytes of its texts and the words in them
    (internal/session/store.go turnBytes, turnTokens, exceedsCap). */
module HistoryCosts {
  import opened Prelude
  import opened Text
  import opened SseStream
  import opened ChatStream
  import opened SessionHistory
  import opened ChatSession

  // ----- bytes -----

  lemma {:induction false} ByteLenAdds(a: string, b: string)
    ensures ByteLen(a + b) == ByteLen(a) + ByteLen(b)
  {
    if b == [] {
      assert a + b == a;
    } else {
      var n := |b| - 1;
      assert (a + b)[..|a| + n] == a + b[..n];
      ByteLenAdds(a, b[..n]);
    }
  }

  /** Everything of a tool call that a user or a model wrote. */
  function CallText(c: ToolCall): string { c.id + c.kind + c.name + c.arguments }

  function CallsText(calls: seq<ToolCall>): string {
    if calls == [] then "" else CallText(calls[0]) + CallsText(calls[1..])
  }

  /** And of a message. */
  function MessageText(m: Message): string { m.role + m.content + m.toolCallId + m.name + CallsText(m.calls) }

  function HistoryText(turns: seq<Message>): string {
    if turns == [] then "" else MessageText(turns[0]) + HistoryText(turns[1..])
  }

  lemma CallBytesAre(c: ToolCall)
    ensures ByteLen(CallText(c)) == ByteLen(c.id) + ByteLen(c.kind) + ByteLen(c.name) + ByteLen(c.arguments)
  {
    ByteLenAdds(c.id, c.kind);
    ByteLenAdds(c.id + c.kind, c.name);
    ByteLenAdds(c.id + c.kind + c.name, c.arguments);
  }

  lemma {:induction false} CallsBytesAre(calls: seq<ToolCall>)
    ensures CallBytes(calls) == ByteLen(CallsText(calls))
  {
    if calls != [] {
      CallBytesAre(calls[0]);
      CallsBytesAre(calls[1..]);
      ByteLenAdds(CallText(calls[0]), CallsText(calls[1..]));
    }
  }

  lemma MessageBytesAre(m: Message)
    ensures TurnBytes(m) == ByteLen(MessageText(m))
  {
    CallsBytesAre(m.calls);
    ByteLenAdds(m.role, m.content);
    ByteLenAdds(m.role + m.content, m.toolCallId);
    ByteLenAdds(m.role + m.content + m.toolCallId, m.name);
    ByteLenAdds(m.role + m.content + m.toolCallId + m.name, CallsText(m.calls));
  }

  /** The byte cost of a history is the length of all its texts put together. */
  lemma {:induction false} BytesAreTheText(turns: seq<Message>)
    ensures Bytes(turns) == ByteLen(HistoryText(turns))
  {
    if turns != [] {
      MessageBytesAre(turns[0]);
      BytesAreTheText(turns[1..]);
      ByteLenAdds(MessageText(turns[0]), HistoryText(turns[1..]));
    }
  }

  // ----- words -----

  /** A run of characters without white space. */
  predicate Word(s: string) { s != "" && forall c :: c in s ==> !IsSpace(c) }

  predicate EndsInWord(s: string) { s != "" && !IsSpace(s[|s| - 1]) }

  lemma {:induction false} BlankAddsNothing(s: string, gap: string)
    requires Blank(gap)
    ensures Fields(s + gap) == Fields(s)
  {
    if gap == "" {
      assert s + gap == s;
    } else {
      var n := |gap| - 1;
      assert gap[n] in gap && forall c :: c in gap[..n] ==> c in gap;
      assert (s + gap)[..|s| + n] == s + gap[..n];
      BlankAddsNothing(s, gap[..n]);
    }
  }

  lemma {:induction false} WordAddsOne(s: string, word: string)
    requires !EndsInWord(s) && Word(word)
    ensures Fields(s + word) == Fields(s) + 1 && EndsInWord(s + word)
  {
    var n := |word| - 1;
    var all := s + word;
    assert word[n] in word && all[|all| - 1] == word[n];
    assert all[..|s| + n] == s + word[..n];
    if n == 0 {
      assert s + word[..n] == s;
    } else {
      assert forall c :: c in word[..n] ==> c in word;
      WordAddsOne(s, word[..n]);
      assert word[n - 1] in word;
    }
  }

  /** Words with white space between them: gaps[i] comes before words[i]. */
  function Spaced(gaps: seq<string>, words: seq<string>): string
    requires |gaps| == |words|
  {
    if words == [] then ""
    else
      var n := |words| - 1;
      Spaced(gaps[..n], words[..n]) + gaps[n] + words[n]
  }

  /** All the gaps are white space, and none but the first may be empty. */
  predicate Separate(gaps: seq<string>, words: seq<string>) {
    && |gaps| == |words|
    && (forall i :: 0 <= i < |words| ==> Word(words[i]) && Blank(gaps[i]))
    && (forall i :: 1 <= i < |gaps| ==> gaps[i] != "")
  }

  lemma BlankEnds(s: string, gap: string)
    requires Blank(gap) && (gap != "" || s == "")
    ensures !EndsInWord(s + gap)
  {
    if gap != "" { assert gap[|gap| - 1] in gap && (s + gap)[|s + gap| - 1] == gap[|gap| - 1]; }
  }

  /** Fields counts the words, whatever separates them and whatever follows the last. */
  lemma {:induction false} FieldsCountWords(gaps: seq<string>, words: seq<string>, trailing: string)
    requires Separate(gaps, words) && Blank(trailing)
    ensures Fields(Spaced(gaps, words) + trailing) == |words|
  {
    WordsOf(gaps, words);
    BlankAddsNothing(Spaced(gaps, words), trailing);
  }

  lemma {:induction false} WordsOf(gaps: seq<string>, words: seq<string>)
    requires Separate(gaps, words)
    ensures Fields(Spaced(gaps, words)) == |words|
  {
    if words != [] {
      var n := |words| - 1;
      var before := Spaced(gaps[..n], words[..n]);
      WordsOf(gaps[..n], words[..n]);
      BlankAddsNothing(before, gaps[n]);
      BlankEnds(before, gaps[n]);
      WordAddsOne(before + gaps[n], words[n]);
    }
  }

  /** Every text is of that form, so this says what Fields is. */
  lemma {:induction false} EveryTextIsSpaced(s: string) returns (gaps: seq<string>, words: seq<string>, trailing: string)
    ensures Separate(gaps, words) && Blank(trailing) && s == Spaced(gaps, words) + trailing
  {
    if s == "" {
      gaps, words, trailing := [], [], "";
    } else {
      var n := |s| - 1;
      var c := s[n];
      gaps, words, trailing := EveryTextIsSpaced(s[..n]);
      assert s == s[..n] + [c];
      if IsSpace(c) {
        trailing := trailing + [c];
        assert s == Spaced(gaps, words) + trailing;
      } else if trailing != "" || words == [] {
        SpacedNext(gaps, words, trailing, [c]);
        gaps, words, trailing := gaps + [trailing], words + [[c]], "";
        assert s == Spaced(gaps, words) + trailing;
      } else {
        var k := |words| - 1;
        LongerWord(gaps, words, c);
        words := words[..k] + [words[k] + [c]];
        assert s == Spaced(gaps, words) + trailing;
      }
    }
  }

  lemma SpacedNext(gaps: seq<string>, words: seq<string>, gap: string, word: string)
    requires |gaps| == |words|
    ensures Spaced(gaps + [gap], words + [word]) == Spaced(gaps, words) + gap + word
  {
    assert (gaps + [gap])[..|words|] == gaps && (words + [word])[..|words|] == words;
  }

  lemma LongerWord(gaps: seq<string>, words: seq<string>, c: char)
    requires Separate(gaps, words) && words != [] && !IsSpace(c)
    ensures var k := |words| - 1;
            var longer := words[..k] + [words[k] + [c]];
            Separate(gaps, longer) && Spaced(gaps, longer) == Spaced(gaps, words) + [c]
  {
    var k := |words| - 1;
    var longer := words[..k] + [words[k] + [c]];
    assert longer[..k] == words[..k];
  }

  /** Across a line break words are counted apart. */
  lemma {:induction false} FieldsAdd(a: string, b: string)
    ensures Fields(a + "\n" + b) == Fields(a) + Fields(b)
  {
    var line := a + "\n";
    if b == "" {
      assert line + b == line;
      BlankAddsNothing(a, "\n");
    } else {
      var n := |b| - 1;
      FieldsAdd(a, b[..n]);
      var all := line + b;
      assert all[..|line| + n] == line + b[..n];
      assert all[|all| - 1] == b[n];
      assert n > 0 ==> all[|all| - 2] == b[n - 1];
      assert n == 0 ==> all[|all| - 2] == '\n';
    }
  }

  // ----- tokens -----

  /** The texts of a message whose words are counted, a line for each. */
  function CallLines(calls: seq<ToolCall>): string {
    if calls == [] then "" else calls[0].name + "\n" + (calls[0].arguments + "\n" + CallLines(calls[1..]))
  }

  function MessageLines(m: Message): string { m.content + "\n" + (m.name + "\n" + CallLines(m.calls)) }

  function HistoryLines(turns: seq<Message>): string {
    if turns == [] then "" else MessageLines(turns[0]) + "\n" + HistoryLines(turns[1..])
  }

  lemma {:induction false} CallTokensAre(calls: seq<ToolCall>)
    ensures CallTokens(calls) == Fields(CallLines(calls))
  {
    if calls != [] {
      CallTokensAre(calls[1..]);
      var rest := CallLines(calls[1..]);
      FieldsAdd(calls[0].arguments, rest);
      FieldsAdd(calls[0].name, calls[0].arguments + "\n" + rest);
    }
  }

  lemma MessageTokensAre(m: Message)
    ensures TurnTokens(m) == Fields(MessageLines(m))
  {
    CallTokensAre(m.calls);
    FieldsAdd(m.name, CallLines(m.calls));
    FieldsAdd(m.content, m.name + "\n" + CallLines(m.calls));
  }

  /** The token cost of a history is the number of words in the contents, the names and the names and
      arguments of the tool calls. */
  lemma {:induction false} TokensAreTheWords(turns: seq<Message>)
    ensures Tokens(turns) == Fields(HistoryLines(turns))
  {
    if turns != [] {
      MessageTokensAre(turns[0]);
      TokensAreTheWords(turns[1..]);
      FieldsAdd(MessageLines(turns[0]), HistoryLines(turns[1..]));
    }
  }

  // ----- the caps -----

  /** Within every cap that is a cap at all; at the cap is within it. */
  predicate Within(caps: Caps, turns: seq<Message>) {
    && (caps.maxTurns <= 0 || |turns| <= caps.maxTurns)
    && (caps.maxBytes <= 0 || ByteLen(HistoryText(turns)) <= caps.maxBytes)
    && (caps.maxTokens <= 0 || Fields(HistoryLines(turns)) <= caps.maxTokens)
  }

  lemma OverMeans(caps: Caps, turns: seq<Message>)
    ensures Over(caps, turns) <==> !Within(caps, turns)
  {
    BytesAreTheText(turns);
    TokensAreTheWords(turns);
  }

  /** The contents of the messages, put together. */
  function Contents(turns: seq<Message>): string {
    if turns == [] then "" else turns[0].content + Contents(turns[1..])
  }

  lemma {:induction false} ContentsAreCounted(turns: seq<Message>)
    ensures ByteLen(Contents(turns)) <= Bytes(turns)
  {
    if turns != [] {
      ContentsAreCounted(turns[1..]);
      ByteLenAdds(turns[0].content, Contents(turns[1..]));
    }
  }

  /** In every run, right after a turn is stored the history is within every cap in force, measured on
      its texts, or a single message the trim policy keeps; so the contents alone are within a positive
      byte cap. */
  lemma StoredTextWithinCaps(caps: Caps, events: seq<Event>, t: Turn)
    requires |Books(caps, events + [Request(t)]).stored| > |Books(caps, events).stored|
    ensures var s := Run(caps, events + [Request(t)]);
            && (Within(s.caps, s.history) || (!s.caps.reject && |s.history| == 1))
            && (s.caps.maxBytes > 0 ==> ByteLen(Contents(s.history)) <= s.caps.maxBytes || |s.history| == 1)
  {
    StoredWithinCaps(caps, events, t);
    var s := Run(caps, events + [Request(t)]);
    OverMeans(s.caps, s.history);
    ContentsAreCounted(s.history);
  }

  /** Under a reject policy a request is refused before it is dispatched exactly when its messages would
      take the texts of the history beyond a cap. */
  lemma RefusedExactlyWhenBeyond(caps: Caps, history: seq<Message>, messages: seq<Message>)
    ensures Appended(caps, history, messages).None? <==> caps.reject && messages != [] && !Within(caps, history + messages)
  {
    OverMeans(caps, history + messages);
  }

  // ----- what a stored turn says -----

  /** A stored turn is the client's messages and one message of the assistant's with the reply and its
      tool calls. */
  lemma StoredTurnIsTheExchange(t: Turn)
    ensures var turn, n := WholeTurn(t), |t.messages|;
            && |turn| == n + 1 && turn[..n] == t.messages
            && turn[n].role == "assistant" && turn[n].name == "" && turn[n].toolCallId == ""
            && turn[n].content == Outcome(t.answer).reply && turn[n].calls == Outcome(t.answer).calls
            && (t.answer.Whole? ==> turn[n].content == t.answer.output && turn[n].calls == t.answer.calls)
  {
  }

  /** And what was streamed and stored is what the client read, delta by delta. */
  lemma StoredReplyIsWhatTheClientRead(c: Codec, t: Turn)
    requires c.Faithful() && t.answer.Streamed? && AllFit(c, Frames(t.answer.chunks))
    ensures WholeTurn(t)[|t.messages|].content == Concat(Parse(c, Wire(c, Frames(t.answer.chunks))).deltas)
  {
    StoredReplyWasSent(c, t.answer.chunks, t.answer.cancelled);
  }
}
