/** A stateful conversation: reconstructing the prompt from stored history and storing each
    completed turn (internal/httpapi/chat.go handleChatCompletions, persistTurn). */
module ChatSession {
  import opened Prelude
  import opened SseStream
  import opened ChatStream
  import opened SessionHistory

  /** One stateful request. alive says whether the session is found, owned and unexpired, when
      the request arrives and when the turn is stored; recap holds the caps set while it ran. */
  datatype Turn = Turn(
    messages: seq<Message>, answer: Answer, aliveAtStart: bool, aliveAtEnd: bool, recap: Option<Caps>)

  /** The inference: streamed chunks and whether the client was gone when they ended, or one
      result, or a submission that failed before any byte. */
  datatype Answer =
    | Streamed(chunks: seq<JobChunk>, cancelled: bool)
    | Whole(output: string, calls: seq<ToolCall>, usage: Usage)
    | Refused

  /** A request, or a change of the caps between requests. */
  datatype Event = Request(turn: Turn) | SetCaps(caps: Caps)

  /** prompts are the messages of the dispatched jobs, in order. */
  datatype Session = Session(caps: Caps, history: seq<Message>, metered: seq<Usage>, prompts: seq<seq<Message>>)

  function Assistant(content: string, calls: seq<ToolCall>): Message {
    Message("assistant", content, "", "", calls)
  }

  function Outcome(a: Answer): Effects {
    match a
    case Streamed(chunks, cancelled) => EffectsOf(chunks, cancelled)
    case Whole(output, calls, usage) => Effects(output, calls, Some(usage), true)
    case Refused => Effects("", [], None, false)
  }

  /** The messages a finished turn stores: what the client sent, then the reply. */
  function WholeTurn(t: Turn): seq<Message> {
    var e := Outcome(t.answer);
    t.messages + [Assistant(e.reply, e.calls)]
  }

  /** The caps in force when a turn is stored. */
  function Recapped(caps: Caps, t: Turn): Caps { if t.recap.Some? then t.recap.value else caps }

  predicate Dispatched(s: Session, t: Turn) {
    t.aliveAtStart && Appended(s.caps, s.history, t.messages).Some?
  }

  function Step(s: Session, e: Event): Session {
    match e
    case SetCaps(caps) => s.(caps := caps)
    case Request(t) =>
      var caps := Recapped(s.caps, t);
      if !Dispatched(s, t) then s.(caps := caps)
      else
        var e := Outcome(t.answer);
        var stored := if e.persist && t.aliveAtEnd then Appended(caps, s.history, WholeTurn(t)) else None;
        Session(
          caps,
          if stored.Some? then stored.value else s.history,
          if e.metered.Some? then s.metered + [e.metered.value] else s.metered,
          s.prompts + [s.history + t.messages])
  }

  function Run(caps: Caps, events: seq<Event>): Session {
    if events == [] then Session(caps, [], [], []) else Step(Run(caps, events[..|events| - 1]), events[|events| - 1])
  }

  // ----- the handler object -----

  class Handler {
    const store: HistoryStore
    const id: string
    var metered: seq<Usage>
    var prompts: seq<seq<Message>>

    ghost function Now(): Session
      reads this, store
    {
      Session(store.caps, HistoryOf(store.history, id), metered, prompts)
    }

    constructor (store: HistoryStore, id: string)
      requires HistoryOf(store.history, id) == []
      ensures this.store == store && this.id == id && Now() == Session(store.caps, [], [], [])
    {
      this.store, this.id, metered, prompts := store, id, [], [];
    }

    /** recap is carried out by another goroutine while the inference runs. */
    method HandleTurn(t: Turn, w: Writer)
      requires w.out == ""
      modifies this, store, w
      ensures Now() == Step(old(Now()), Request(t))
    {
      var refused := true;
      if t.aliveAtStart {
        refused := store.WouldReject(id, t.messages);
        if !refused { prompts := prompts + [HistoryOf(store.history, id) + t.messages]; }
      }
      if t.recap.Some? { store.SetCaps(t.recap.value); }
      if refused { return; }
      var e: Effects;
      match t.answer {
        case Refused => return;
        case Streamed(chunks, cancelled) => e := StreamChat(w, chunks, cancelled);
        case Whole(output, calls, usage) => e := Effects(output, calls, Some(usage), true);
      }
      if e.metered.Some? { metered := metered + [e.metered.value]; }
      if e.persist && t.aliveAtEnd {
        var _ := store.AppendBatch(id, t.messages + [Assistant(e.reply, e.calls)]);
      }
    }
  }

  // ----- what every run stores, whatever the caps were -----

  /** The inference finished: a terminal chunk, no error, no disconnect. */
  predicate Finished(t: Turn) { t.aliveAtStart && t.aliveAtEnd && Outcome(t.answer).persist }

  /** What one would write down of a run: the caps in force, the turns that were stored, each with
      the caps it was stored under, and the latest point at which storing one of them had to cut
      their messages. */
  datatype Ledger = Ledger(caps: Caps, stored: seq<seq<Message>>, under: seq<Caps>, start: nat)

  predicate Sound(l: Ledger) { l.start <= |Flatten(l.stored)| && |l.under| == |l.stored| }

  function Kept(l: Ledger): seq<Message>
    requires Sound(l)
  {
    Flatten(l.stored)[l.start..]
  }

  /** A reject policy in force admits only messages that leave the caps intact. */
  predicate Admits(caps: Caps, kept: seq<Message>, messages: seq<Message>) {
    caps.reject && messages != [] ==> !Over(caps, kept + messages)
  }

  /** The turn is stored: it finished, and a reject policy in force admitted it before and after. */
  predicate Storable(l: Ledger, t: Turn)
    requires Sound(l)
  {
    Finished(t) && Admits(l.caps, Kept(l), t.messages) && Admits(Recapped(l.caps, t), Kept(l), WholeTurn(t))
  }

  function Book(l: Ledger, e: Event): (r: Ledger)
    requires Sound(l)
    ensures Sound(r)
  {
    match e
    case SetCaps(caps) => l.(caps := caps)
    case Request(t) =>
      var caps := Recapped(l.caps, t);
      if !Storable(l, t) then l.(caps := caps)
      else
        var stored := l.stored + [WholeTurn(t)];
        FlattenNext(l.stored, WholeTurn(t));
        Ledger(caps, stored, l.under + [caps], Max(l.start, Cut(caps, Flatten(stored))))
  }

  function Max(a: nat, b: nat): nat { if a < b then b else a }

  function Books(caps: Caps, events: seq<Event>): (l: Ledger)
    ensures Sound(l)
  {
    if events == [] then Ledger(caps, [], [], 0) else Book(Books(caps, events[..|events| - 1]), events[|events| - 1])
  }

  lemma StoredIsCut(caps: Caps, l: Ledger, turn: seq<Message>)
    requires Sound(l) && turn != []
    ensures var all := Flatten(l.stored + [turn]);
            && |all| >= Max(l.start, Cut(caps, all))
            && LongestFit(caps, Kept(l) + turn) == all[Max(l.start, Cut(caps, all))..]
  {
    var all := Flatten(l.stored) + turn;
    FlattenNext(l.stored, turn);
    CutOfSuffix(caps, all, l.start);
    assert all[l.start..] == Kept(l) + turn;
  }

  lemma StepAgrees(s: Session, l: Ledger, e: Event)
    requires Sound(l) && s.caps == l.caps && s.history == Kept(l)
    ensures Step(s, e).caps == Book(l, e).caps && Step(s, e).history == Kept(Book(l, e))
  {
    if e.Request? {
      if Storable(l, e.turn) { StoredIsCut(Recapped(l.caps, e.turn), l, WholeTurn(e.turn)); }
    }
  }

  /** For every run of requests and cap changes, the history is the stored turns put together,
      from the latest point at which storing one of them had to cut. An unfinished turn and one a
      reject policy refused leave no trace. */
  lemma {:induction false} HistoryIsUncutTurns(caps: Caps, events: seq<Event>)
    ensures Run(caps, events).caps == Books(caps, events).caps
    ensures Run(caps, events).history == Kept(Books(caps, events))
  {
    if events != [] {
      var before := events[..|events| - 1];
      HistoryIsUncutTurns(caps, before);
      StepAgrees(Run(caps, before), Books(caps, before), events[|events| - 1]);
    }
  }

  // ----- while the caps stay the same -----

  predicate Constant(events: seq<Event>) {
    forall i :: 0 <= i < |events| ==> events[i].Request? && events[i].turn.recap.None?
  }

  function FinishedTurns(events: seq<Event>): seq<seq<Message>> {
    if events == [] then []
    else
      var e := events[|events| - 1];
      FinishedTurns(events[..|events| - 1]) + (if e.Request? && Finished(e.turn) then [WholeTurn(e.turn)] else [])
  }

  /** Under the trim policy the stored history is the longest fitting suffix of all finished
      turns put together: trimming turn by turn loses nothing that trimming once would keep. */
  lemma {:induction false} TrimmedHistory(caps: Caps, events: seq<Event>)
    requires !caps.reject && Constant(events)
    ensures Run(caps, events).caps == caps
    ensures Run(caps, events).history == LongestFit(caps, Flatten(FinishedTurns(events)))
  {
    if events != [] {
      var before, t := events[..|events| - 1], events[|events| - 1].turn;
      TrimmedHistory(caps, before);
      if Finished(t) {
        FlattenNext(FinishedTurns(before), WholeTurn(t));
        FitAbsorbs(caps, Flatten(FinishedTurns(before)), WholeTurn(t));
      } else {
        assert FinishedTurns(events) == FinishedTurns(before);
      }
    }
  }

  predicate Intact(caps: Caps, l: Ledger) { l.caps == caps && l.start == 0 && !Over(caps, Flatten(l.stored)) }

  lemma RejectKeepsIntact(caps: Caps, l: Ledger, t: Turn)
    requires caps.reject && Sound(l) && Intact(caps, l) && t.recap.None?
    ensures Intact(caps, Book(l, Request(t)))
  {
    FlattenNext(l.stored, WholeTurn(t));
    assert Kept(l) == Flatten(l.stored);
  }

  /** Under the reject policy it is all stored turns, whole, and never exceeds a cap. */
  lemma {:induction false} RejectingHistory(caps: Caps, events: seq<Event>)
    requires caps.reject && Constant(events)
    ensures Intact(caps, Books(caps, events))
    ensures Run(caps, events).history == Flatten(Books(caps, events).stored)
    ensures !Over(caps, Run(caps, events).history)
  {
    if events != [] {
      RejectingHistory(caps, events[..|events| - 1]);
      RejectKeepsIntact(caps, Books(caps, events[..|events| - 1]), events[|events| - 1].turn);
    }
    HistoryIsUncutTurns(caps, events);
    assert Kept(Books(caps, events)) == Flatten(Books(caps, events).stored);
  }

  // ----- when the history is made of whole turns -----

  predicate NoneEmpty(ts: seq<seq<Message>>) { forall i :: 0 <= i < |ts| ==> ts[i] != [] }

  function Last(t: seq<Message>): Message
    requires t != []
  {
    t[|t| - 1]
  }

  /** What trimming leaves as it is: it fits, or is the single message that always stays. */
  predicate Stays(caps: Caps, turns: seq<Message>) { !Over(caps, turns) || |turns| == 1 }

  lemma {:induction false} FlattenSplit(ts: seq<seq<Message>>, k: nat)
    requires k <= |ts|
    ensures Flatten(ts) == Flatten(ts[..k]) + Flatten(ts[k..])
  {
    if k == |ts| {
      assert ts[..k] == ts && ts[k..] == [];
    } else {
      var init := ts[..|ts| - 1];
      FlattenSplit(init, k);
      assert init[..k] == ts[..k] && ts[k..][..|ts[k..]| - 1] == init[k..];
    }
  }

  lemma {:induction false} FlattenNonEmpty(ts: seq<seq<Message>>)
    requires NoneEmpty(ts) && ts != []
    ensures Flatten(ts) != [] && Last(Flatten(ts)) == Last(ts[|ts| - 1])
  {
  }

  /** Trimming a + b cuts no further than a exactly when b stays, and takes all of a exactly when b
      with one message more is over a cap. */
  lemma CutAround(caps: Caps, a: seq<Message>, b: seq<Message>)
    requires b != []
    ensures Cut(caps, a + b) <= |a| <==> Stays(caps, b)
    ensures Cut(caps, a + b) >= |a| <==> a == [] || Over(caps, [Last(a)] + b)
  {
    var all, cut := a + b, Cut(caps, a + b);
    LongestFitIsLongest(caps, all);
    assert all[|a|..] == b;
    if cut <= |a| && !Over(caps, all[cut..]) {
      SuffixNotOver(caps, all[cut..], |a| - cut);
      assert all[cut..][|a| - cut..] == b;
    }
    if a != [] {
      assert all[|a| - 1..] == [Last(a)] + b;
      if cut < |a| && !Over(caps, all[cut..]) {
        SuffixNotOver(caps, all[cut..], |a| - 1 - cut);
        assert all[cut..][|a| - 1 - cut..] == [Last(a)] + b;
      }
    }
  }

  /** Where storing the j-th turn would cut all that has been stored up to it. */
  function CutBy(l: Ledger, j: nat): nat
    requires Sound(l) && j < |l.stored|
  {
    Cut(l.under[j], Flatten(l.stored[..j + 1]))
  }

  /** The history starts at the furthest of these cuts. */
  predicate Furthest(l: Ledger)
    requires Sound(l)
  {
    && NoneEmpty(l.stored)
    && (forall j :: 0 <= j < |l.stored| ==> CutBy(l, j) <= l.start)
    && (l.start == 0 || exists j :: 0 <= j < |l.stored| && CutBy(l, j) == l.start)
  }

  lemma CutByKept(l: Ledger, r: Ledger, j: nat)
    requires Sound(l) && Sound(r) && l.stored <= r.stored && l.under <= r.under && j < |l.stored|
    ensures CutBy(r, j) == CutBy(l, j)
  {
    assert r.stored[..j + 1] == l.stored[..j + 1];
  }

  lemma StoringKeepsFurthest(l: Ledger, r: Ledger, turn: seq<Message>, caps: Caps)
    requires Sound(l) && Sound(r) && Furthest(l) && turn != []
    requires r.stored == l.stored + [turn] && r.under == l.under + [caps]
    requires r.start == Max(l.start, Cut(caps, Flatten(r.stored)))
    ensures Furthest(r)
  {
    var n := |l.stored|;
    assert r.stored[..n + 1] == r.stored;
    assert CutBy(r, n) == Cut(caps, Flatten(r.stored));
    forall j: nat | j < n { CutByKept(l, r, j); }
    if r.start == l.start && l.start != 0 {
      var j :| 0 <= j < n && CutBy(l, j) == l.start;
      assert CutBy(r, j) == r.start;
    }
  }

  lemma BookKeepsFurthest(l: Ledger, e: Event)
    requires Sound(l) && Furthest(l)
    ensures Furthest(Book(l, e))
  {
    var r := Book(l, e);
    if e.Request? && Storable(l, e.turn) {
      StoringKeepsFurthest(l, r, WholeTurn(e.turn), r.caps);
    } else {
      forall j: nat | j < |l.stored| { CutByKept(l, r, j); }
    }
  }

  lemma {:induction false} StartIsFurthest(caps: Caps, events: seq<Event>)
    ensures Furthest(Books(caps, events))
  {
    if events != [] {
      StartIsFurthest(caps, events[..|events| - 1]);
      BookKeepsFurthest(Books(caps, events[..|events| - 1]), events[|events| - 1]);
    }
  }

  /** The turns from k on, as far as turn j. */
  function Span(l: Ledger, k: nat, j: nat): seq<Message>
    requires k <= j < |l.stored|
  {
    Flatten(l.stored[k..j + 1])
  }

  /** Storing turn j left the turns from k on alone. */
  predicate Spares(l: Ledger, k: nat, j: nat)
    requires Sound(l) && k <= j < |l.stored|
  {
    Stays(l.under[j], Span(l, k, j))
  }

  /** Storing turn j took everything before turn k: with one message more they would be over a cap. */
  predicate Sheds(l: Ledger, k: nat, j: nat)
    requires Sound(l) && NoneEmpty(l.stored) && 0 < k <= j < |l.stored|
  {
    Over(l.under[j], [Last(l.stored[k - 1])] + Span(l, k, j))
  }

  /** Each turn from k on was stored without cutting into turn k, and unless k is the first turn, one
      of them was stored at the expense of all before it. */
  predicate WholeFrom(l: Ledger, k: nat)
    requires Sound(l) && NoneEmpty(l.stored)
  {
    && k <= |l.stored| && (k == |l.stored| ==> l.stored == [])
    && (forall j :: k <= j < |l.stored| ==> Spares(l, k, j))
    && (k > 0 ==> exists j :: k <= j < |l.stored| && Sheds(l, k, j))
  }

  lemma CutBeforeTurn(l: Ledger, k: nat, j: nat)
    requires Sound(l) && NoneEmpty(l.stored) && j < k <= |l.stored|
    ensures CutBy(l, j) < |Flatten(l.stored[..k])|
  {
    FlattenNonEmpty(l.stored[..j + 1]);
    FlattenSplit(l.stored[..k], j + 1);
    assert l.stored[..k][..j + 1] == l.stored[..j + 1];
  }

  /** Turn j's cut, seen from the start of an earlier turn k. */
  lemma CutAtTurn(l: Ledger, k: nat, j: nat)
    requires Sound(l) && NoneEmpty(l.stored) && k <= j < |l.stored|
    ensures CutBy(l, j) <= |Flatten(l.stored[..k])| <==> Spares(l, k, j)
    ensures 0 < k ==> (CutBy(l, j) >= |Flatten(l.stored[..k])| <==> Sheds(l, k, j))
  {
    SpanSplits(l, k, j);
    FlattenNonEmpty(l.stored[k..j + 1]);
    if k > 0 { FlattenNonEmpty(l.stored[..k]); }
    CutAround(l.under[j], Flatten(l.stored[..k]), Span(l, k, j));
  }

  lemma SpanSplits(l: Ledger, k: nat, j: nat)
    requires k <= j < |l.stored|
    ensures Flatten(l.stored[..j + 1]) == Flatten(l.stored[..k]) + Span(l, k, j)
  {
    var upTo := l.stored[..j + 1];
    FlattenSplit(upTo, k);
    assert upTo[..k] == l.stored[..k] && upTo[k..] == l.stored[k..j + 1];
  }

  lemma StartsAtTurn(l: Ledger, k: nat)
    requires Sound(l) && Furthest(l) && k <= |l.stored|
    ensures l.start == |Flatten(l.stored[..k])| <==> WholeFrom(l, k)
  {
    var p := |Flatten(l.stored[..k])|;
    forall j: nat | j < k { CutBeforeTurn(l, k, j); }
    forall j: nat | k <= j < |l.stored| { CutAtTurn(l, k, j); }
    if k > 0 { FlattenNonEmpty(l.stored[..k]); }
    if WholeFrom(l, k) {
      if k > 0 {
        var j :| k <= j < |l.stored| && Sheds(l, k, j);
        assert CutBy(l, j) >= p;
      }
      assert forall j :: 0 <= j < |l.stored| ==> CutBy(l, j) <= p;
    }
  }

  /** In every run, whatever the caps were and became, the history is the stored turns from the k-th
      on, whole, exactly when each of them was stored without cutting into turn k and one of them
      at the expense of all before it. */
  lemma WholeTurnsExactlyWhen(caps: Caps, events: seq<Event>, k: nat)
    requires k <= |Books(caps, events).stored|
    ensures var l := Books(caps, events);
            && NoneEmpty(l.stored)
            && (Run(caps, events).history == Flatten(l.stored[k..]) <==> WholeFrom(l, k))
  {
    var l := Books(caps, events);
    HistoryIsUncutTurns(caps, events);
    StartIsFurthest(caps, events);
    StartsAtTurn(l, k);
    FlattenSplit(l.stored, k);
  }

  /** The history starts in the middle of a turn. */
  ghost predicate HalfATurn(caps: Caps, events: seq<Event>) {
    var ts := Books(caps, events).stored;
    forall k: nat :: k <= |ts| ==> Run(caps, events).history != Flatten(ts[k..])
  }

  /** So half a turn is kept exactly when this holds of no turn. */
  lemma HalfATurnExactlyWhen(caps: Caps, events: seq<Event>)
    ensures var l := Books(caps, events);
            && NoneEmpty(l.stored)
            && (HalfATurn(caps, events) <==> forall k: nat :: k <= |l.stored| ==> !WholeFrom(l, k))
  {
    var l := Books(caps, events);
    StartIsFurthest(caps, events);
    forall k: nat | k <= |l.stored|
      ensures Run(caps, events).history == Flatten(l.stored[k..]) <==> WholeFrom(l, k)
    {
      WholeTurnsExactlyWhen(caps, events, k);
    }
  }

  // ----- and while the caps stay the same -----

  /** Trimming turns to the caps leaves exactly the turns from k on: these fit (or are a single
      message), and with the last message of the turn before them they would not. */
  predicate CutsBefore(caps: Caps, ts: seq<seq<Message>>, k: nat)
    requires NoneEmpty(ts)
  {
    && k <= |ts| && (k == |ts| ==> ts == [])
    && Stays(caps, Flatten(ts[k..]))
    && (k > 0 ==> Over(caps, [Last(ts[k - 1])] + Flatten(ts[k..])))
  }

  predicate Under(caps: Caps, l: Ledger) { forall j :: 0 <= j < |l.under| ==> l.under[j] == caps }

  lemma {:induction false} ConstantBooks(caps: Caps, events: seq<Event>)
    requires !caps.reject && Constant(events)
    ensures var l := Books(caps, events);
            l.caps == caps && l.stored == FinishedTurns(events) && Under(caps, l)
  {
    if events != [] { ConstantBooks(caps, events[..|events| - 1]); }
  }

  lemma PrefixNotOver(caps: Caps, turns: seq<Message>, p: nat)
    requires p <= |turns| && !Over(caps, turns)
    ensures !Over(caps, turns[..p])
  {
    CostsAdd(turns[..p], turns[p..]);
    assert turns == turns[..p] + turns[p..];
  }

  lemma PrefixDecides(caps: Caps, head: seq<Message>, span: seq<Message>, rest: seq<Message>)
    requires span <= rest
    ensures Over(caps, head + span) ==> Over(caps, head + rest)
    ensures head == [] ==> head + span == span && head + rest == rest
  {
    assert (head + rest)[..|head + span|] == head + span;
    if !Over(caps, head + rest) { PrefixNotOver(caps, head + rest, |head + span|); }
  }

  /** Under unchanging caps the last turn decides: what it spares, every earlier one did, and what
      any of them shed, it sheds. */
  lemma LastDecides(caps: Caps, l: Ledger, k: nat, j: nat)
    requires Sound(l) && NoneEmpty(l.stored) && Under(caps, l) && k <= j < |l.stored|
    ensures Stays(caps, Flatten(l.stored[k..])) ==> Spares(l, k, j)
    ensures 0 < k && Sheds(l, k, j) ==> Over(caps, [Last(l.stored[k - 1])] + Flatten(l.stored[k..]))
  {
    var rest, span := Flatten(l.stored[k..]), Span(l, k, j);
    FlattenSplit(l.stored[k..], j + 1 - k);
    assert l.stored[k..][..j + 1 - k] == l.stored[k..j + 1];
    FlattenNonEmpty(l.stored[k..j + 1]);
    PrefixDecides(caps, [], span, rest);
    if k > 0 { PrefixDecides(caps, [Last(l.stored[k - 1])], span, rest); }
  }

  lemma ConstantWhole(caps: Caps, l: Ledger, k: nat)
    requires Sound(l) && NoneEmpty(l.stored) && Under(caps, l) && k <= |l.stored|
    ensures WholeFrom(l, k) <==> CutsBefore(caps, l.stored, k)
  {
    forall j: nat | k <= j < |l.stored| { LastDecides(caps, l, k, j); }
    if k < |l.stored| {
      var n := |l.stored| - 1;
      assert l.stored[k..n + 1] == l.stored[k..];
      assert Spares(l, k, n) <==> Stays(caps, Flatten(l.stored[k..]));
      if k > 0 { assert Sheds(l, k, n) <==> Over(caps, [Last(l.stored[k - 1])] + Flatten(l.stored[k..])); }
    } else {
      assert l.stored[k..] == [];
    }
  }

  /** Under a trim policy that stays in force the history is the finished turns from the k-th on,
      whole, exactly when they fit, or are a single message, and with one message more they would not. */
  lemma TrimmedTurnsExactlyWhen(caps: Caps, events: seq<Event>, k: nat)
    requires !caps.reject && Constant(events) && k <= |FinishedTurns(events)|
    ensures NoneEmpty(FinishedTurns(events))
    ensures Run(caps, events).history == Flatten(FinishedTurns(events)[k..]) <==>
            CutsBefore(caps, FinishedTurns(events), k)
  {
    ConstantBooks(caps, events);
    WholeTurnsExactlyWhen(caps, events, k);
    ConstantWhole(caps, Books(caps, events), k);
  }

  /** So it then starts in the middle of a turn exactly when no turn boundary is such a point. */
  lemma TrimmedHalfATurnExactlyWhen(caps: Caps, events: seq<Event>)
    requires !caps.reject && Constant(events)
    ensures NoneEmpty(FinishedTurns(events))
    ensures HalfATurn(caps, events) <==>
            forall k: nat :: k <= |FinishedTurns(events)| ==> !CutsBefore(caps, FinishedTurns(events), k)
  {
    ConstantBooks(caps, events);
    var ts := FinishedTurns(events);
    forall k: nat | k <= |ts|
      ensures NoneEmpty(ts) && (Run(caps, events).history == Flatten(ts[k..]) <==> CutsBefore(caps, ts, k))
    {
      TrimmedTurnsExactlyWhen(caps, events, k);
    }
    TrimmedTurnsExactlyWhen(caps, events, 0);
  }

  lemma OneTurnOfTwo(ts: seq<seq<Message>>, k: nat)
    requires |ts| == 1 && |ts[0]| == 2 && k <= 1
    ensures |Flatten(ts[k..])| != 1
  {
    if k == 0 {
      assert ts[k..] == ts && ts[..0] == [];
    } else {
      assert ts[k..] == [];
    }
  }

  /** It can happen: with room for one message, the reply stays and the question it answers goes. */
  lemma TrimMayKeepHalfATurn(question: Message, output: string, usage: Usage)
    ensures var t := Turn([question], Whole(output, [], usage), true, true, None);
            && Run(Caps(1, 0, 0, false), [Request(t)]).history == [Assistant(output, [])]
            && HalfATurn(Caps(1, 0, 0, false), [Request(t)])
  {
    var t := Turn([question], Whole(output, [], usage), true, true, None);
    var caps, events, all := Caps(1, 0, 0, false), [Request(t)], [question, Assistant(output, [])];
    assert events[..0] == [];
    var ts := FinishedTurns(events);
    assert ts == [WholeTurn(t)] && WholeTurn(t) == all;
    assert ts[..0] == [] && Flatten(ts) == all;
    TrimmedHistory(caps, events);
    ConstantBooks(caps, events);
    OneFits(caps, all);
    forall k: nat | k <= |ts| ensures Run(caps, events).history != Flatten(ts[k..]) { OneTurnOfTwo(ts, k); }
  }

  lemma OneFits(caps: Caps, two: seq<Message>)
    requires caps == Caps(1, 0, 0, false) && |two| == 2
    ensures LongestFit(caps, two) == two[1..]
  {
    assert Over(caps, two);
  }

  // ----- when the caps change -----

  /** Right after a turn is stored the history is within the caps in force, or a single message
      that the trim policy never gives up. */
  lemma StoredWithinCaps(caps: Caps, events: seq<Event>, t: Turn)
    requires |Books(caps, events + [Request(t)]).stored| > |Books(caps, events).stored|
    ensures var s := Run(caps, events + [Request(t)]);
            !Over(s.caps, s.history) || (!s.caps.reject && |s.history| == 1)
  {
    var all := events + [Request(t)];
    assert all[..|events|] == events;
    HistoryIsUncutTurns(caps, events);
    HistoryIsUncutTurns(caps, all);
    var s, l := Run(caps, events), Books(caps, events);
    LongestFitIsLongest(Recapped(s.caps, t), s.history + WholeTurn(t));
  }

  /** A change of caps leaves the history alone, so it is over the new caps exactly when the turns
      kept so far are. */
  lemma OverAfterNewCaps(caps: Caps, events: seq<Event>, next: Caps)
    ensures var s := Run(caps, events + [SetCaps(next)]);
            && s.history == Run(caps, events).history
            && (Over(s.caps, s.history) <==> Over(next, Kept(Books(caps, events))))
  {
    assert (events + [SetCaps(next)])[..|events|] == events;
    HistoryIsUncutTurns(caps, events);
  }

  /** Nor does it complete or break a turn: half a turn outlives a switch to the reject policy. */
  lemma HalfATurnOutlivesNewCaps(caps: Caps, events: seq<Event>, next: Caps)
    ensures HalfATurn(caps, events + [SetCaps(next)]) <==> HalfATurn(caps, events)
    ensures Run(caps, events + [SetCaps(next)]).caps == next
  {
    assert (events + [SetCaps(next)])[..|events|] == events;
  }

  /** As in the run that kept a reply without its question. */
  lemma HalfATurnUnderReject(question: Message, output: string, usage: Usage, next: Caps)
    requires next.reject
    ensures var t := Turn([question], Whole(output, [], usage), true, true, None);
            var events := [Request(t)] + [SetCaps(next)];
            && Run(Caps(1, 0, 0, false), events).caps.reject
            && Run(Caps(1, 0, 0, false), events).history == [Assistant(output, [])]
            && HalfATurn(Caps(1, 0, 0, false), events)
  {
    var t := Turn([question], Whole(output, [], usage), true, true, None);
    TrimMayKeepHalfATurn(question, output, usage);
    HalfATurnOutlivesNewCaps(Caps(1, 0, 0, false), [Request(t)], next);
    OverAfterNewCaps(Caps(1, 0, 0, false), [Request(t)], next);
  }

  /** So "never over a cap" fails under the reject policy once a cap is tightened: a stored turn of
      two messages is over a cap of one. */
  lemma TightenedCapIsExceeded(question: Message, output: string, usage: Usage)
    ensures var t := Turn([question], Whole(output, [], usage), true, true, Some(Caps(0, 0, 0, true)));
            var s := Run(Caps(0, 0, 0, true), [Request(t)] + [SetCaps(Caps(1, 0, 0, true))]);
            s.history == [question, Assistant(output, [])] && Over(s.caps, s.history)
  {
    var t := Turn([question], Whole(output, [], usage), true, true, Some(Caps(0, 0, 0, true)));
    var caps, events := Caps(0, 0, 0, true), [Request(t)];
    assert events[..0] == [];
    assert [] + WholeTurn(t) == [question, Assistant(output, [])];
    assert Run(caps, events).history == WholeTurn(t);
    assert (events + [SetCaps(Caps(1, 0, 0, true))])[..1] == events;
  }

  // ----- what is dispatched -----

  /** For each request that reaches a worker, the history kept by then and the messages it brings. */
  function Prompts(caps: Caps, events: seq<Event>): seq<seq<Message>> {
    if events == [] then []
    else
      var l, e := Books(caps, events[..|events| - 1]), events[|events| - 1];
      Prompts(caps, events[..|events| - 1]) +
      (if e.Request? && e.turn.aliveAtStart && Admits(l.caps, Kept(l), e.turn.messages)
       then [Kept(l) + e.turn.messages] else [])
  }

  /** Every prompt is the stored turns from the latest cut on, followed by what the client sent. */
  lemma {:induction false} PromptsAreKeptTurns(caps: Caps, events: seq<Event>)
    ensures Run(caps, events).prompts == Prompts(caps, events)
  {
    if events != [] {
      var before := events[..|events| - 1];
      PromptsAreKeptTurns(caps, before);
      HistoryIsUncutTurns(caps, before);
    }
  }

  // ----- metering -----

  predicate EndedCleanly(a: Answer) {
    match a
    case Streamed(chunks, _) =>
      && (exists i :: 0 <= i < |chunks| && chunks[i].done)
      && (forall i :: 0 <= i < |chunks| ==> chunks[i].err.None?)
    case Whole(_, _, _) => true
    case Refused => false
  }

  /** The tokens of every dispatched turn that ended cleanly, in order. */
  function CleanUsages(caps: Caps, events: seq<Event>): seq<Usage> {
    if events == [] then []
    else
      var l, e := Books(caps, events[..|events| - 1]), events[|events| - 1];
      CleanUsages(caps, events[..|events| - 1]) +
      (if e.Request? && e.turn.aliveAtStart && Admits(l.caps, Kept(l), e.turn.messages) && EndedCleanly(e.turn.answer)
       then [ReportedUsage(e.turn.answer)] else [])
  }

  function ReportedUsage(a: Answer): Usage
    requires EndedCleanly(a)
  {
    match a
    case Streamed(chunks, _) => TerminalIff(chunks); TerminalUsage(chunks).value
    case Whole(_, _, usage) => usage
  }

  /** Tokens are metered exactly once for each dispatched turn that ended with a terminal
      chunk and no error, whether or not the turn could be stored. */
  lemma {:induction false} MeteredExactlyOnce(caps: Caps, events: seq<Event>)
    ensures Run(caps, events).metered == CleanUsages(caps, events)
  {
    if events != [] {
      var before, e := events[..|events| - 1], events[|events| - 1];
      MeteredExactlyOnce(caps, before);
      HistoryIsUncutTurns(caps, before);
      if e.Request? { MeteredIffClean(e.turn.answer); }
    }
  }

  lemma MeteredIffClean(a: Answer)
    ensures Outcome(a).metered == if EndedCleanly(a) then Some(ReportedUsage(a)) else None
  {
    if a.Streamed? {
      var chunks := a.chunks;
      TerminalIff(chunks);
      if FirstError(chunks) == |chunks| { CleanStream(chunks); }
    }
  }
}
