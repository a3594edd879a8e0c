/** The live tail of the log ring: a cursor protocol that polls while producers append
    (internal/httpapi/admin_logs.go). */
module LogTail {
  import opened Prelude
  import opened Arithmetic
  import opened Text
  import opened LogRing

  // ----- the record filter -----

  type Time = int

  /** attrs holds each attribute value as attrString renders it. */
  datatype LogRecord = LogRecord(time: Time, level: string, message: string, attrs: map<string, string>)

  datatype LogFilter = LogFilter(minLevel: int, attrMatch: map<string, string>, since: Option<Time>, until: Option<Time>)

  function LevelRank(name: string, unknown: int): int {
    var n := Normal(name);
    if n == "debug" then -4
    else if n == "info" then 0
    else if n == "warn" || n == "warning" then 4
    else if n == "error" then 8
    else unknown
  }

  /** slog renders an offset level as WARN+1 or INFO-2: only the first separator found, plus
      before minus, is cut, and only when a name precedes it. An odd name ranks as an error. */
  function RecordLevelRank(level: string): int {
    var plus, minus := IndexOf(level, '+'), IndexOf(level, '-');
    var base :=
      if 0 < plus < |level| then level[..plus]
      else if 0 < minus < |level| then level[..minus]
      else level;
    LevelRank(base, 8)
  }

  predicate Matches(f: LogFilter, rec: LogRecord) {
    && RecordLevelRank(rec.level) >= f.minLevel
    && (forall k :: k in f.attrMatch ==> k in rec.attrs && rec.attrs[k] == f.attrMatch[k])
    && (f.since.Some? ==> f.since.value <= rec.time)
    && (f.until.Some? ==> rec.time < f.until.value)
  }

  function Keep(f: LogFilter): LogRecord -> bool { rec => Matches(f, rec) }

  // ----- one poll -----

  /** What one poll of a ring of capacity cap emits, and where it leaves the cursor. */
  function Poll<T>(cap: nat, keep: T -> bool, log: seq<T>, cursor: nat): (seq<T>, nat) {
    var snap, count := Suffix(log, cap), |log|;
    if count <= cursor then ([], count)
    else
      var newN := if count - cursor > |snap| then |snap| else count - cursor;
      (Filter(keep, snap[|snap| - newN..]), count)
  }

  lemma FilterNext<T>(keep: T -> bool, s: seq<T>, i: nat)
    requires i < |s|
    ensures Filter(keep, s[..i + 1]) == Filter(keep, s[..i]) + (if keep(s[i]) then [s[i]] else [])
  {
    FilterAppend(keep, s[..i], [s[i]]);
    assert s[..i + 1] == s[..i] + [s[i]];
    assert Filter(keep, [s[i]]) == if keep(s[i]) then [s[i]] else [];
  }

  lemma PollSends<T>(cap: nat, keep: T -> bool, log: seq<T>, cursor: nat, snap: seq<T>, newN: nat)
    requires cursor < |log| && snap == Suffix(log, cap)
    requires newN == if |log| - cursor > |snap| then |snap| else |log| - cursor
    ensures Poll(cap, keep, log, cursor) == (Filter(keep, snap[|snap| - newN..]), |log|)
  {
  }

  /** One open stream: its cursor starts at the ring's current count. */
  class Connection {
    const ring: Ring<LogRecord>
    const filter: LogFilter
    var lastCount: nat
    var frames: seq<LogRecord>

    constructor (ring: Ring<LogRecord>, filter: LogFilter)
      requires ring.Valid()
      ensures this.ring == ring && this.filter == filter
      ensures lastCount == |ring.log| % TWO_64 && frames == []
    {
      this.ring, this.filter := ring, filter;
      var n := ring.Count();
      lastCount := n;
      frames := [];
    }

    method EmitNewLogs()
      requires ring.Valid()
      modifies this
      ensures |ring.log| < TWO_64 ==>
        (frames, lastCount) ==
          var (sent, cursor) := Poll(ring.cap, Keep(filter), ring.log, old(lastCount));
          (old(frames) + sent, cursor)
      ensures lastCount == |ring.log| % TWO_64
      ensures |ring.log| % TWO_64 <= old(lastCount) ==> frames == old(frames)
    {
      var snap, count := ring.SnapshotCount();
      if |ring.log| < TWO_64 { ModSmall(|ring.log|, TWO_64); }
      if count <= lastCount {
        lastCount := count;
        assert frames == old(frames) + [];
        return;
      }
      var newN := count - lastCount;
      if newN > |snap| { newN := |snap|; }
      if |ring.log| < TWO_64 { PollSends(ring.cap, Keep(filter), ring.log, lastCount, snap, newN); }
      Send(snap[|snap| - newN..]);
      lastCount := count;
    }

    /** The matching records go out as frames. */
    method Send(records: seq<LogRecord>)
      modifies this`frames
      ensures frames == old(frames) + Filter(Keep(filter), records)
    {
      ghost var keep := Keep(filter);
      var i := 0;
      while i < |records|
        invariant 0 <= i <= |records|
        invariant frames == old(frames) + Filter(keep, records[..i])
      {
        FilterNext(keep, records, i);
        if Matches(filter, records[i]) {
          frames := frames + [records[i]];
        }
        i := i + 1;
      }
      assert records[..i] == records;
    }
  }

  // ----- every interleaving of producers and polls -----

  datatype Action<T> = Append(rec: T) | Tick

  datatype Tail<T> = Tail(log: seq<T>, cursor: nat, sent: seq<T>)

  function Next<T>(cap: nat, keep: T -> bool, t: Tail<T>, a: Action<T>): Tail<T> {
    match a
    case Append(rec) => if cap == 0 then t else t.(log := t.log + [rec])
    case Tick =>
      var (out, cursor) := Poll(cap, keep, t.log, t.cursor);
      Tail(t.log, cursor, t.sent + out)
  }

  /** A connection opened on log0, after the given actions. */
  function Run<T>(cap: nat, keep: T -> bool, log0: seq<T>, actions: seq<Action<T>>): Tail<T> {
    if actions == [] then Tail(log0, |log0|, [])
    else Next(cap, keep, Run(cap, keep, log0, actions[..|actions| - 1]), actions[|actions| - 1])
  }

  /** The ring's count at each tick of the run: all that the protocol's losses depend on. */
  function TickCounts<T>(cap: nat, keep: T -> bool, log0: seq<T>, actions: seq<Action<T>>): seq<nat> {
    if actions == [] then []
    else
      var before := actions[..|actions| - 1];
      TickCounts(cap, keep, log0, before) +
      (if actions[|actions| - 1].Tick? then [|Run(cap, keep, log0, before).log|] else [])
  }

  /** The count at the first tick that could see record i. */
  function FirstSeen(counts: seq<nat>, i: nat): Option<nat> {
    if counts == [] then None
    else
      var earlier := FirstSeen(counts[..|counts| - 1], i);
      if earlier.Some? then earlier
      else if counts[|counts| - 1] > i then Some(counts[|counts| - 1])
      else None
  }

  /** Record i is kept by the filter, a tick has come since, and at the first such tick the
      record had not scrolled off. */
  predicate Delivered<T>(cap: nat, keep: T -> bool, log: seq<T>, counts: seq<nat>, i: nat)
    requires i < |log|
  {
    var seen := FirstSeen(counts, i);
    keep(log[i]) && seen.Some? && seen.value - i <= cap
  }

  /** The delivered records among log[lo..hi], in log order, each once. */
  function DeliveredIn<T>(cap: nat, keep: T -> bool, log: seq<T>, counts: seq<nat>, lo: nat, hi: nat): seq<T>
    requires hi <= |log|
    decreases hi
  {
    if hi <= lo then []
    else
      DeliveredIn(cap, keep, log, counts, lo, hi - 1) +
      (if Delivered(cap, keep, log, counts, hi - 1) then [log[hi - 1]] else [])
  }

  /** For every interleaving, the stream has sent exactly the delivered records at or after
      its start, in order and never twice. */
  lemma {:induction false} TailIsExact<T>(cap: nat, keep: T -> bool, log0: seq<T>, actions: seq<Action<T>>)
    requires cap == 0 ==> log0 == []
    ensures var t := Run(cap, keep, log0, actions);
            var counts := TickCounts(cap, keep, log0, actions);
            && log0 <= t.log
            && |log0| <= t.cursor <= |t.log|
            && t.sent == DeliveredIn(cap, keep, t.log, counts, |log0|, |t.log|)
  {
    TailInvariant(cap, keep, log0, actions);
    var t := Run(cap, keep, log0, actions);
    UnseenNotDelivered(cap, keep, t.log, TickCounts(cap, keep, log0, actions), |log0|, t.cursor, |t.log|);
  }

  lemma {:induction false} TailInvariant<T>(cap: nat, keep: T -> bool, log0: seq<T>, actions: seq<Action<T>>)
    requires cap == 0 ==> log0 == []
    ensures var t := Run(cap, keep, log0, actions);
            var counts := TickCounts(cap, keep, log0, actions);
            && log0 <= t.log && (cap == 0 ==> t.log == [])
            && |log0| <= t.cursor <= |t.log|
            && CursorCovers(|log0|, t.cursor, counts)
            && t.sent == DeliveredIn(cap, keep, t.log, counts, |log0|, t.cursor)
  {
    if actions != [] {
      var before := actions[..|actions| - 1];
      TailInvariant(cap, keep, log0, before);
      var t := Run(cap, keep, log0, before);
      var counts := TickCounts(cap, keep, log0, before);
      match actions[|actions| - 1] {
        case Append(rec) =>
          if cap > 0 { LogGrows(cap, keep, t.log, rec, counts, |log0|, t.cursor); }
          assert TickCounts(cap, keep, log0, actions) == counts;
        case Tick =>
          assert TickCounts(cap, keep, log0, actions) == counts + [|t.log|];
          CoversAfterTick(|log0|, t.cursor, counts, |t.log|);
          SeenStaysSeen(cap, keep, t.log, counts, |t.log|, |log0|, t.cursor);
          GapDelivered(cap, keep, t.log, counts, |log0|, t.cursor, |t.log|);
      }
    }
  }

  /** Ticks have seen the records from start up to the cursor, and none beyond it. */
  ghost predicate CursorCovers(start: nat, cursor: nat, counts: seq<nat>) {
    forall i :: start <= i ==> (FirstSeen(counts, i).Some? <==> i < cursor)
  }

  lemma CoversAfterTick(start: nat, cursor: nat, counts: seq<nat>, count: nat)
    requires CursorCovers(start, cursor, counts) && cursor <= count
    ensures CursorCovers(start, count, counts + [count])
  {
    assert (counts + [count])[..|counts|] == counts;
  }

  lemma {:induction false} LogGrows<T>(cap: nat, keep: T -> bool, log: seq<T>, rec: T, counts: seq<nat>, lo: nat, hi: nat)
    requires hi <= |log|
    ensures DeliveredIn(cap, keep, log + [rec], counts, lo, hi) == DeliveredIn(cap, keep, log, counts, lo, hi)
    decreases hi
  {
    if lo < hi { LogGrows(cap, keep, log, rec, counts, lo, hi - 1); }
  }

  /** A later tick does not change what was already settled. */
  lemma {:induction false} SeenStaysSeen<T>(cap: nat, keep: T -> bool, log: seq<T>, counts: seq<nat>, count: nat, lo: nat, hi: nat)
    requires hi <= |log|
    requires forall i :: lo <= i < hi ==> FirstSeen(counts, i).Some?
    ensures DeliveredIn(cap, keep, log, counts + [count], lo, hi) == DeliveredIn(cap, keep, log, counts, lo, hi)
    decreases hi
  {
    if lo < hi {
      assert (counts + [count])[..|counts|] == counts;
      SeenStaysSeen(cap, keep, log, counts, count, lo, hi - 1);
    }
  }

  lemma {:induction false} UnseenNotDelivered<T>(cap: nat, keep: T -> bool, log: seq<T>, counts: seq<nat>, lo: nat, mid: nat, hi: nat)
    requires lo <= mid <= hi <= |log|
    requires CursorCovers(lo, mid, counts)
    ensures DeliveredIn(cap, keep, log, counts, lo, hi) == DeliveredIn(cap, keep, log, counts, lo, mid)
    decreases hi
  {
    if mid < hi { UnseenNotDelivered(cap, keep, log, counts, lo, mid, hi - 1); }
  }

  /** A poll emits what is new since its cursor, short of what no longer fits in the ring. */
  lemma PollTakesTail<T>(cap: nat, keep: T -> bool, log: seq<T>, cursor: nat)
    requires cursor <= |log|
    ensures Poll(cap, keep, log, cursor).0
         == Filter(keep, log[if |log| - cursor > cap then |log| - cap else cursor..])
  {
    var from := if |log| - cursor > cap then |log| - cap else cursor;
    var snap := Suffix(log, cap);
    if cursor < |log| {
      assert snap[|snap| - (|log| - from)..] == log[from..];
    }
  }

  /** A tick at count delivers, of the gap since the cursor, exactly what is still buffered. */
  lemma GapDelivered<T>(cap: nat, keep: T -> bool, log: seq<T>, counts: seq<nat>, lo: nat, cursor: nat, count: nat)
    requires lo <= cursor <= count == |log|
    requires CursorCovers(lo, cursor, counts)
    ensures DeliveredIn(cap, keep, log, counts + [count], lo, count)
         == DeliveredIn(cap, keep, log, counts + [count], lo, cursor) + Poll(cap, keep, log, cursor).0
  {
    var from := if count - cursor > cap then count - cap else cursor;
    PollTakesTail(cap, keep, log, cursor);
    assert log[from..count] == log[from..];
    GapUpTo(cap, keep, log, counts, lo, cursor, count, from, count);
  }

  lemma {:induction false} GapUpTo<T>(cap: nat, keep: T -> bool, log: seq<T>, counts: seq<nat>, lo: nat, cursor: nat, count: nat, from: nat, hi: nat)
    requires lo <= cursor <= hi <= count == |log|
    requires CursorCovers(lo, cursor, counts)
    requires from == if count - cursor > cap then count - cap else cursor
    ensures DeliveredIn(cap, keep, log, counts + [count], lo, hi)
         == DeliveredIn(cap, keep, log, counts + [count], lo, cursor) + (if from <= hi then Filter(keep, log[from..hi]) else [])
    decreases hi
  {
    if cursor < hi {
      GapUpTo(cap, keep, log, counts, lo, cursor, count, from, hi - 1);
      assert (counts + [count])[..|counts|] == counts;
      assert FirstSeen(counts, hi - 1).None?;
      if from < hi {
        assert log[from..hi] == log[from..hi - 1] + [log[hi - 1]];
        FilterAppend(keep, log[from..hi - 1], [log[hi - 1]]);
      }
    }
  }

  /** At every tick of the run, no more records are new than the ring holds. */
  predicate KeepsUp<T>(cap: nat, keep: T -> bool, log0: seq<T>, actions: seq<Action<T>>) {
    actions != [] ==>
      var before := actions[..|actions| - 1];
      var t := Run(cap, keep, log0, before);
      && KeepsUp(cap, keep, log0, before)
      && (actions[|actions| - 1].Tick? ==> |t.log| - t.cursor <= cap)
  }

  /** The stream so far is the filtered log from start to the cursor. */
  ghost predicate Complete<T>(keep: T -> bool, start: nat, t: Tail<T>) {
    start <= t.cursor <= |t.log| && t.sent == Filter(keep, t.log[start..t.cursor])
  }

  lemma FilterSpan<T>(keep: T -> bool, log: seq<T>, start: nat, cursor: nat)
    requires start <= cursor <= |log|
    ensures Filter(keep, log[start..|log|]) == Filter(keep, log[start..cursor]) + Filter(keep, log[cursor..])
  {
    FilterAppend(keep, log[start..cursor], log[cursor..]);
    assert log[start..cursor] + log[cursor..] == log[start..|log|];
  }

  lemma TickStaysComplete<T>(cap: nat, keep: T -> bool, start: nat, t: Tail<T>)
    requires Complete(keep, start, t) && |t.log| - t.cursor <= cap
    ensures Complete(keep, start, Next(cap, keep, t, Tick))
  {
    PollTakesTail(cap, keep, t.log, t.cursor);
    FilterSpan(keep, t.log, start, t.cursor);
  }

  lemma AppendStaysComplete<T>(cap: nat, keep: T -> bool, start: nat, t: Tail<T>, rec: T)
    requires Complete(keep, start, t)
    ensures Complete(keep, start, Next(cap, keep, t, Append(rec)))
  {
    assert (t.log + [rec])[start..t.cursor] == t.log[start..t.cursor];
  }

  /** While every tick keeps up, nothing at all is lost: the stream is the filtered log from
      its start to the last tick. */
  lemma {:induction false} NothingLostWhenKeepingUp<T>(cap: nat, keep: T -> bool, log0: seq<T>, actions: seq<Action<T>>)
    requires KeepsUp(cap, keep, log0, actions)
    ensures Complete(keep, |log0|, Run(cap, keep, log0, actions))
  {
    if actions != [] {
      var before := actions[..|actions| - 1];
      NothingLostWhenKeepingUp(cap, keep, log0, before);
      var t := Run(cap, keep, log0, before);
      match actions[|actions| - 1] {
        case Tick => TickStaysComplete(cap, keep, |log0|, t);
        case Append(rec) => AppendStaysComplete(cap, keep, |log0|, t, rec);
      }
    }
  }

  // ----- a client that comes back -----

  lemma {:induction false} DeliveredInPrefix<T>(cap: nat, keep: T -> bool, log: seq<T>, longer: seq<T>, counts: seq<nat>, lo: nat, hi: nat)
    requires hi <= |log| && log <= longer
    ensures DeliveredIn(cap, keep, longer, counts, lo, hi) == DeliveredIn(cap, keep, log, counts, lo, hi)
    decreases hi
  {
    if lo < hi { DeliveredInPrefix(cap, keep, log, longer, counts, lo, hi - 1); }
  }

  /** A client reads, loses its connection, and opens another after some more records were appended.
      Of the log as it is in the end, it has got what the first stream delivered of the records up to
      its cursor and what the second delivered from its own start on: those in between, which no poll
      of either could see, are gone. */
  lemma ReconnectDelivers<T>(cap: nat, keep: T -> bool, log0: seq<T>, first: seq<Action<T>>, gap: seq<T>, second: seq<Action<T>>)
    requires cap == 0 ==> log0 == [] && gap == []
    ensures var t1 := Run(cap, keep, log0, first);
            var reopened := t1.log + gap;
            var t2 := Run(cap, keep, reopened, second);
            && reopened <= t2.log && |log0| <= t1.cursor <= |reopened| <= t2.cursor <= |t2.log|
            && t1.sent == DeliveredIn(cap, keep, t2.log, TickCounts(cap, keep, log0, first), |log0|, t1.cursor)
            && t2.sent == DeliveredIn(cap, keep, t2.log, TickCounts(cap, keep, reopened, second), |reopened|, t2.cursor)
  {
    TailInvariant(cap, keep, log0, first);
    var t1 := Run(cap, keep, log0, first);
    var reopened := t1.log + gap;
    TailInvariant(cap, keep, reopened, second);
    var t2 := Run(cap, keep, reopened, second);
    assert t2.log[..|reopened|] == reopened && t2.log[..|t1.log|] == t1.log;
    DeliveredInPrefix(cap, keep, t1.log, t2.log, TickCounts(cap, keep, log0, first), |log0|, t1.cursor);
  }

  lemma {:induction false} FilterEmpty<T>(keep: T -> bool, s: seq<T>)
    ensures Filter(keep, s) == [] <==> forall i :: 0 <= i < |s| ==> !keep(s[i])
  {
    if s != [] {
      FilterEmpty(keep, s[1..]);
      assert s == [s[0]] + s[1..];
      if Filter(keep, s) == [] {
        forall i | 0 <= i < |s| ensures !keep(s[i]) { assert i == 0 || s[i] == s[1..][i - 1]; }
      } else if !keep(s[0]) {
        var i :| 0 <= i < |s[1..]| && keep(s[1..][i]);
        assert s[i + 1] == s[1..][i];
      }
    }
  }

  lemma FilterThree<T>(keep: T -> bool, log: seq<T>, a: nat, b: nat, c: nat, e: nat)
    requires a <= b <= c <= e <= |log|
    ensures Filter(keep, log[a..e]) == Filter(keep, log[a..b]) + Filter(keep, log[b..c]) + Filter(keep, log[c..e])
  {
    FilterAppend(keep, log[a..b], log[b..c]);
    FilterAppend(keep, log[a..b] + log[b..c], log[c..e]);
    assert log[a..b] + log[b..c] + log[c..e] == log[a..e];
  }

  /** While both streams keep up, the two together lack exactly the matching records between the
      first one's cursor and the second one's start; so coming back is seamless exactly when none of
      those matches. */
  lemma SeamlessExactlyWhen<T>(cap: nat, keep: T -> bool, log0: seq<T>, first: seq<Action<T>>, gap: seq<T>, second: seq<Action<T>>)
    requires cap == 0 ==> log0 == [] && gap == []
    requires KeepsUp(cap, keep, log0, first) && KeepsUp(cap, keep, Run(cap, keep, log0, first).log + gap, second)
    ensures var t1 := Run(cap, keep, log0, first);
            var start := |t1.log + gap|;
            var t2 := Run(cap, keep, t1.log + gap, second);
            && |log0| <= t1.cursor <= start <= t2.cursor <= |t2.log|
            && Filter(keep, t2.log[|log0|..t2.cursor]) == t1.sent + Filter(keep, t2.log[t1.cursor..start]) + t2.sent
            && (Filter(keep, t2.log[|log0|..t2.cursor]) == t1.sent + t2.sent <==>
                forall i :: t1.cursor <= i < start ==> !keep(t2.log[i]))
  {
    var t1 := Run(cap, keep, log0, first);
    var start := |t1.log + gap|;
    var t2 := Run(cap, keep, t1.log + gap, second);
    ReconnectDelivers(cap, keep, log0, first, gap, second);
    NothingLostWhenKeepingUp(cap, keep, log0, first);
    NothingLostWhenKeepingUp(cap, keep, t1.log + gap, second);
    SliceOfPrefix(t1.log, gap, t2.log, |log0|, t1.cursor);
    FilterThree(keep, t2.log, |log0|, t1.cursor, start, t2.cursor);
    GapIsEmpty(keep, t2.log, t1.cursor, start);
    Insert(t1.sent, Filter(keep, t2.log[t1.cursor..start]), t2.sent);
  }

  lemma SliceOfPrefix<T>(a: seq<T>, more: seq<T>, longer: seq<T>, lo: nat, hi: nat)
    requires lo <= hi <= |a| && a + more <= longer
    ensures a[lo..hi] == longer[lo..hi]
  {
    assert forall i :: 0 <= i < |a| ==> a[i] == (a + more)[i] == longer[i];
  }

  lemma GapIsEmpty<T>(keep: T -> bool, log: seq<T>, lo: nat, hi: nat)
    requires lo <= hi <= |log|
    ensures Filter(keep, log[lo..hi]) == [] <==> forall i :: lo <= i < hi ==> !keep(log[i])
  {
    var s := log[lo..hi];
    FilterEmpty(keep, s);
    if Filter(keep, s) == [] {
      forall i | lo <= i < hi ensures !keep(log[i]) { assert s[i - lo] == log[i]; }
    }
  }

  lemma Insert<T>(a: seq<T>, b: seq<T>, c: seq<T>)
    ensures a + b + c == a + c <==> b == []
  {
    assert |a + b + c| == |a| + |b| + |c|;
  }
}
