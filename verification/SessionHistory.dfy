/** The per-session conversation history with its caps and overflow policy
    (internal/session/store.go). */
module SessionHistory {
  import opened Prelude
  import opened Text
  import opened SseStream

  datatype Message = Message(role: string, content: string, name: string, toolCallId: string, calls: seq<ToolCall>)

  /** A cap that is not positive is no cap. */
  datatype Caps = Caps(maxTurns: int, maxBytes: int, maxTokens: int, reject: bool)

  // ----- costs -----

  /** len(strings.Fields(s)). */
  function Fields(s: string): nat {
    if s == [] then 0
    else
      Fields(s[..|s| - 1]) +
      (if !IsSpace(s[|s| - 1]) && (|s| == 1 || IsSpace(s[|s| - 2])) then 1 else 0)
  }

  function CallBytes(calls: seq<ToolCall>): nat {
    if calls == [] then 0
    else
      ByteLen(calls[0].id) + ByteLen(calls[0].kind) + ByteLen(calls[0].name) + ByteLen(calls[0].arguments)
      + CallBytes(calls[1..])
  }

  function CallTokens(calls: seq<ToolCall>): nat {
    if calls == [] then 0 else Fields(calls[0].name) + Fields(calls[0].arguments) + CallTokens(calls[1..])
  }

  function TurnBytes(m: Message): nat {
    ByteLen(m.role) + ByteLen(m.content) + ByteLen(m.toolCallId) + ByteLen(m.name) + CallBytes(m.calls)
  }

  function TurnTokens(m: Message): nat { Fields(m.content) + Fields(m.name) + CallTokens(m.calls) }

  function Bytes(turns: seq<Message>): nat {
    if turns == [] then 0 else TurnBytes(turns[0]) + Bytes(turns[1..])
  }

  function Tokens(turns: seq<Message>): nat {
    if turns == [] then 0 else TurnTokens(turns[0]) + Tokens(turns[1..])
  }

  /** exceedsCap. */
  predicate Over(caps: Caps, turns: seq<Message>) {
    || (caps.maxTurns > 0 && |turns| > caps.maxTurns)
    || (caps.maxBytes > 0 && Bytes(turns) > caps.maxBytes)
    || (caps.maxTokens > 0 && Tokens(turns) > caps.maxTokens)
  }

  lemma {:induction false} CostsAdd(a: seq<Message>, b: seq<Message>)
    ensures Bytes(a + b) == Bytes(a) + Bytes(b)
    ensures Tokens(a + b) == Tokens(a) + Tokens(b)
  {
    if a == [] {
      assert a + b == b;
    } else {
      assert (a + b)[1..] == a[1..] + b;
      CostsAdd(a[1..], b);
    }
  }

  // ----- the reference: the longest suffix that fits -----

  /** Drop the oldest turns one by one until every cap holds; the newest one always stays. */
  function LongestFit(caps: Caps, turns: seq<Message>): seq<Message> {
    if |turns| <= 1 || !Over(caps, turns) then turns else LongestFit(caps, turns[1..])
  }

  /** It is a suffix, it fits or is a single turn, and every longer suffix is over a cap. */
  lemma {:induction false} LongestFitIsLongest(caps: Caps, turns: seq<Message>)
    ensures var kept := LongestFit(caps, turns);
            var dropped := |turns| - |kept|;
            && dropped >= 0 && kept == turns[dropped..]
            && (turns != [] ==> kept != [])
            && (!Over(caps, kept) || |kept| == 1)
            && forall i :: 0 <= i < dropped ==> Over(caps, turns[i..])
  {
    assert turns[0..] == turns;
    if |turns| > 1 && Over(caps, turns) {
      LongestFitIsLongest(caps, turns[1..]);
      var dropped := |turns| - |LongestFit(caps, turns)|;
      assert turns[1..][dropped - 1..] == turns[dropped..];
      forall i | 0 <= i < dropped ensures Over(caps, turns[i..]) {
        assert if i == 0 then turns[i..] == turns else turns[i..] == turns[1..][i - 1..];
      }
    }
  }

  /** Trimming early does not change what trimming late keeps. */
  lemma {:induction false} FitAbsorbs(caps: Caps, a: seq<Message>, b: seq<Message>)
    requires b != []
    ensures LongestFit(caps, LongestFit(caps, a) + b) == LongestFit(caps, a + b)
  {
    if |a| > 1 && Over(caps, a) {
      CostsAdd(a, b);
      assert Over(caps, a + b);
      assert (a + b)[1..] == a[1..] + b;
      FitAbsorbs(caps, a[1..], b);
    }
  }

  /** How many of the oldest turns do not fit. */
  function Cut(caps: Caps, turns: seq<Message>): (n: nat)
    ensures n <= |turns| && LongestFit(caps, turns) == turns[n..]
    ensures turns != [] ==> n < |turns|
  {
    LongestFitIsLongest(caps, turns);
    |turns| - |LongestFit(caps, turns)|
  }

  lemma SuffixNotOver(caps: Caps, turns: seq<Message>, p: nat)
    requires p <= |turns| && !Over(caps, turns)
    ensures !Over(caps, turns[p..])
  {
    CostsAdd(turns[..p], turns[p..]);
    assert turns == turns[..p] + turns[p..];
  }

  /** What fits of a history that has lost its oldest turns is what fits of the whole, less those. */
  lemma {:induction false} CutOfSuffix(caps: Caps, turns: seq<Message>, p: nat)
    requires p < |turns|
    ensures LongestFit(caps, turns[p..]) == turns[if p < Cut(caps, turns) then Cut(caps, turns) else p..]
  {
    if p == 0 {
      assert turns[0..] == turns;
    } else if |turns| <= 1 || !Over(caps, turns) {
      SuffixNotOver(caps, turns, p);
    } else {
      CutOfSuffix(caps, turns[1..], p - 1);
      assert turns[1..][p - 1..] == turns[p..];
      var n := Cut(caps, turns[1..]);
      assert Cut(caps, turns) == n + 1;
      assert turns[1..][if p - 1 < n then n else p - 1..] == turns[if p < n + 1 then n + 1 else p..];
    }
  }

  // ----- the store -----

  /** The history after a batch, or None when the batch is rejected. */
  function Appended(caps: Caps, history: seq<Message>, turns: seq<Message>): Option<seq<Message>> {
    if turns == [] then Some(history)
    else if caps.reject && Over(caps, history + turns) then None
    else Some(LongestFit(caps, history + turns))
  }

  function HistoryOf(store: map<string, seq<Message>>, id: string): seq<Message> {
    if id in store then store[id] else []
  }

  class HistoryStore {
    var caps: Caps
    var history: map<string, seq<Message>>

    constructor (caps: Caps)
      ensures this.caps == caps && history == map[]
    {
      this.caps, history := caps, map[];
    }

    /** SetCaps takes effect at the next append; what is stored is not touched. */
    method SetCaps(caps: Caps)
      modifies this
      ensures this.caps == caps && history == old(history)
    {
      this.caps := caps;
    }

    /** AppendBatch: all of the turns or, under the reject policy, none of them. */
    method AppendBatch(id: string, turns: seq<Message>) returns (ok: bool)
      modifies this
      ensures caps == old(caps)
      ensures var next := Appended(caps, HistoryOf(old(history), id), turns);
              && ok == next.Some?
              && history == if ok && turns != [] then old(history)[id := next.value] else old(history)
    {
      if turns == [] { return true; }
      var combined := HistoryOf(history, id) + turns;
      if caps.reject && Over(caps, combined) { return false; }
      var kept := TrimTurns(combined);
      history := history[id := kept];
      ok := true;
    }

    /** WouldReject: the check made before a turn is dispatched. */
    method WouldReject(id: string, turns: seq<Message>) returns (r: bool)
      ensures r <==> Appended(caps, HistoryOf(history, id), turns).None?
    {
      if !caps.reject || turns == [] { return false; }
      r := Over(caps, HistoryOf(history, id) + turns);
    }

    /** trim works in three passes, one per cap, over running totals; together they keep
        exactly the longest suffix that fits. */
    method TrimTurns(all: seq<Message>) returns (turns: seq<Message>)
      ensures turns == LongestFit(caps, all)
    {
      turns := all;
      if caps.maxTurns > 0 && |turns| > caps.maxTurns {
        DropToCount(caps, turns, caps.maxTurns);
        turns := turns[|turns| - caps.maxTurns..];
      }
      if caps.maxBytes > 0 {
        var total := Bytes(turns);
        while total > caps.maxBytes && |turns| > 1
          invariant total == Bytes(turns)
          invariant LongestFit(caps, turns) == LongestFit(caps, all)
          invariant caps.maxTurns > 0 ==> |turns| <= caps.maxTurns
          decreases |turns|
        {
          total := total - TurnBytes(turns[0]);
          turns := turns[1..];
        }
      }
      if caps.maxTokens > 0 {
        var total := Tokens(turns);
        while total > caps.maxTokens && |turns| > 1
          invariant total == Tokens(turns)
          invariant LongestFit(caps, turns) == LongestFit(caps, all)
          invariant caps.maxTurns > 0 ==> |turns| <= caps.maxTurns
          invariant caps.maxBytes > 0 && |turns| > 1 ==> Bytes(turns) <= caps.maxBytes
          decreases |turns|
        {
          total := total - TurnTokens(turns[0]);
          turns := turns[1..];
        }
      }
    }
  }

  lemma {:induction false} DropToCount(caps: Caps, turns: seq<Message>, n: int)
    requires 0 < n == caps.maxTurns <= |turns|
    ensures LongestFit(caps, turns[|turns| - n..]) == LongestFit(caps, turns)
  {
    if n == |turns| {
      assert turns[0..] == turns;
    } else {
      DropToCount(caps, turns[1..], n);
      assert turns[1..][|turns| - 1 - n..] == turns[|turns| - n..];
    }
  }

  // ----- what the documentation promises of a batch -----

  function AppendEach(caps: Caps, history: seq<Message>, turns: seq<Message>): seq<Message>
    decreases turns
  {
    if turns == [] then history
    else AppendEach(caps, LongestFit(caps, history + [turns[0]]), turns[1..])
  }

  /** Under the trim policy a batch is equivalent to appending its turns one at a time. */
  lemma {:induction false} BatchIsOneByOne(caps: Caps, history: seq<Message>, turns: seq<Message>)
    requires turns != []
    ensures AppendEach(caps, history, turns) == LongestFit(caps, history + turns)
    decreases turns
  {
    var first, rest := turns[0], turns[1..];
    if rest == [] {
      assert turns == [first];
    } else {
      BatchIsOneByOne(caps, LongestFit(caps, history + [first]), rest);
      FitAbsorbs(caps, history + [first], rest);
      assert history + [first] + rest == history + turns;
    }
  }
}
