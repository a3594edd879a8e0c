/** The append-only audit log: rolling window, newest-first query, checkpoint and capped reload
    (internal/audit/audit.go, internal/audit/checkpoint.go). */
module AuditLog {
  import opened Prelude

  type Time = int

  datatype Entry = Entry(time: Time, actor: string, op: string, target: string, detail: string)

  /** An empty text or an absent bound does not filter. */
  datatype Filter = Filter(actor: string, op: string, target: string, since: Option<Time>, until: Option<Time>)

  predicate Matches(f: Filter, e: Entry) {
    && (f.actor != "" ==> e.actor == f.actor)
    && (f.op != "" ==> e.op == f.op)
    && (f.target != "" ==> e.target == f.target)
    && (f.since.Some? ==> f.since.value <= e.time)
    && (f.until.Some? ==> e.time < f.until.value)
  }

  function Selected(f: Filter, entries: seq<Entry>): seq<Entry> { Prelude.Filter(e => Matches(f, e), entries) }

  // ----- stable newest-first order -----

  function InsertNewest(e: Entry, sorted: seq<Entry>): (r: seq<Entry>)
    ensures multiset(r) == multiset{e} + multiset(sorted)
  {
    if sorted == [] || sorted[0].time <= e.time then [e] + sorted
    else
      assert sorted == [sorted[0]] + sorted[1..];
      [sorted[0]] + InsertNewest(e, sorted[1..])
  }

  /** sort.SliceStable by descending time: entries of the same instant keep their order. */
  function NewestFirst(entries: seq<Entry>): seq<Entry> {
    if entries == [] then [] else InsertNewest(entries[0], NewestFirst(entries[1..]))
  }

  predicate Descending(s: seq<Entry>) { forall i, j :: 0 <= i < j < |s| ==> s[i].time >= s[j].time }

  /** The entries of one instant, in the order they have in s. */
  function At(s: seq<Entry>, t: Time): seq<Entry> {
    if s == [] then []
    else if s[0].time == t then [s[0]] + At(s[1..], t)
    else At(s[1..], t)
  }

  lemma ConsDescending(e: Entry, s: seq<Entry>)
    requires Descending(s) && (s == [] || e.time >= s[0].time)
    ensures Descending([e] + s)
  {
  }

  lemma {:induction false} InsertNewestSorted(e: Entry, s: seq<Entry>)
    requires Descending(s)
    ensures Descending(InsertNewest(e, s))
  {
    if s == [] || s[0].time <= e.time {
      ConsDescending(e, s);
    } else {
      var r := InsertNewest(e, s[1..]);
      InsertNewestSorted(e, s[1..]);
      assert r[0] == e || (|s| > 1 && r[0] == s[1]);
      ConsDescending(s[0], r);
    }
  }

  lemma {:induction false} InsertNewestStable(e: Entry, s: seq<Entry>, t: Time)
    ensures At(InsertNewest(e, s), t) == (if e.time == t then [e] else []) + At(s, t)
  {
    if s == [] || s[0].time <= e.time {
      assert ([e] + s)[1..] == s;
    } else {
      var r := InsertNewest(e, s[1..]);
      InsertNewestStable(e, s[1..], t);
      assert ([s[0]] + r)[1..] == r;
    }
  }

  lemma AtNext(s: seq<Entry>, t: Time)
    requires s != []
    ensures At(s, t) == (if s[0].time == t then [s[0]] else []) + At(s[1..], t)
  {
  }

  lemma {:induction false} NewestFirstDescends(s: seq<Entry>)
    ensures Descending(NewestFirst(s)) && multiset(NewestFirst(s)) == multiset(s)
  {
    if s != [] {
      NewestFirstDescends(s[1..]);
      InsertNewestSorted(s[0], NewestFirst(s[1..]));
      assert s == [s[0]] + s[1..];
    }
  }

  lemma {:induction false} NewestFirstStable(s: seq<Entry>, t: Time)
    ensures At(NewestFirst(s), t) == At(s, t)
  {
    if s != [] {
      NewestFirstStable(s[1..], t);
      InsertNewestStable(s[0], NewestFirst(s[1..]), t);
      AtNext(s, t);
    }
  }

  /** The query order is descending in time, holds exactly the entries, and keeps the order of
      each instant. */
  lemma NewestFirstIsStableSort(s: seq<Entry>)
    ensures Descending(NewestFirst(s))
    ensures multiset(NewestFirst(s)) == multiset(s)
    ensures forall t :: At(NewestFirst(s), t) == At(s, t)
  {
    NewestFirstDescends(s);
    forall t ensures At(NewestFirst(s), t) == At(s, t) { NewestFirstStable(s, t); }
  }

  /** And nothing else has those properties: the stable sort is unique. */
  lemma {:induction false} StableSortIsUnique(a: seq<Entry>, b: seq<Entry>)
    requires Descending(a) && Descending(b)
    requires forall t :: At(a, t) == At(b, t)
    ensures a == b
  {
    assert b != [] ==> At(a, b[0].time) == At(b, b[0].time);
    if a != [] {
      assert At(a, a[0].time) == At(b, a[0].time);
      NoneAboveHead(b, a[0].time);
      NoneAboveHead(a, b[0].time);
      assert a[0].time == b[0].time;
      assert a[0] == At(a, a[0].time)[0];
      forall t ensures At(a[1..], t) == At(b[1..], t) {
        assert At(a, t) == At(b, t);
        if t == a[0].time {
          assert At(a[1..], t) == At(a, t)[1..];
          assert At(b[1..], t) == At(b, t)[1..];
        }
      }
      StableSortIsUnique(a[1..], b[1..]);
      assert a == [a[0]] + a[1..] && b == [b[0]] + b[1..];
    }
  }

  lemma {:induction false} NoneAboveHead(s: seq<Entry>, t: Time)
    requires Descending(s)
    ensures s == [] || t > s[0].time ==> At(s, t) == []
  {
    if s != [] && t > s[0].time {
      assert s[1..] != [] ==> s[1..][0].time <= s[0].time;
      NoneAboveHead(s[1..], t);
    }
  }

  // ----- time windows -----

  /** A query split at an instant is the later part followed by the earlier part. */
  lemma WindowsConcatenate(f: Filter, entries: seq<Entry>, s: Time, m: Time, u: Time)
    requires s <= m <= u
    ensures Listed(f.(since := Some(s), until := Some(u)), entries, 0)
         == Listed(f.(since := Some(m), until := Some(u)), entries, 0)
          + Listed(f.(since := Some(s), until := Some(m)), entries, 0)
  {
    var whole, late, early :=
      f.(since := Some(s), until := Some(u)), f.(since := Some(m), until := Some(u)), f.(since := Some(s), until := Some(m));
    var a, b := NewestFirst(Selected(late, entries)), NewestFirst(Selected(early, entries));
    NewestFirstIsStableSort(Selected(whole, entries));
    NewestFirstIsStableSort(Selected(late, entries));
    NewestFirstIsStableSort(Selected(early, entries));
    forall t ensures At(a + b, t) == At(Selected(whole, entries), t) {
      AtConcat(a, b, t);
      SelectedAt(whole, entries, t);
      SelectedAt(late, entries, t);
      SelectedAt(early, entries, t);
    }
    assert Descending(a + b) by {
      forall e | e in a ensures e.time >= m { SortedMembers(late, entries, e); }
      forall e | e in b ensures e.time < m { SortedMembers(early, entries, e); }
    }
    StableSortIsUnique(NewestFirst(Selected(whole, entries)), a + b);
  }

  lemma {:induction false} AtConcat(a: seq<Entry>, b: seq<Entry>, t: Time)
    ensures At(a + b, t) == At(a, t) + At(b, t)
  {
    if a == [] {
      assert a + b == b;
    } else {
      assert (a + b)[1..] == a[1..] + b;
      AtConcat(a[1..], b, t);
    }
  }

  predicate InWindow(f: Filter, t: Time) {
    (f.since.Some? ==> f.since.value <= t) && (f.until.Some? ==> t < f.until.value)
  }

  /** A time window keeps all or nothing of an instant. */
  lemma {:induction false} SelectedAt(f: Filter, entries: seq<Entry>, t: Time)
    ensures At(Selected(f, entries), t) ==
            if InWindow(f, t) then At(Selected(f.(since := None, until := None), entries), t) else []
  {
    if entries != [] {
      var g := f.(since := None, until := None);
      SelectedAt(f, entries[1..], t);
      SelectedStep(f, entries);
      SelectedStep(g, entries);
    }
  }

  lemma SelectedStep(f: Filter, entries: seq<Entry>)
    requires entries != []
    ensures Selected(f, entries) == (if Matches(f, entries[0]) then [entries[0]] else []) + Selected(f, entries[1..])
  {
  }

  lemma SortedMembers(f: Filter, entries: seq<Entry>, e: Entry)
    requires e in NewestFirst(Selected(f, entries))
    ensures Matches(f, e)
  {
    var s := Selected(f, entries);
    NewestFirstIsStableSort(s);
    assert e in multiset(NewestFirst(s));
    SelectedMembers(f, entries, e);
  }

  lemma {:induction false} SelectedMembers(f: Filter, entries: seq<Entry>, e: Entry)
    ensures e in Selected(f, entries) <==> e in entries && Matches(f, e)
  {
    if entries != [] {
      SelectedStep(f, entries);
      SelectedMembers(f, entries[1..], e);
      assert entries == [entries[0]] + entries[1..];
    }
  }

  // ----- the store -----

  /** What List returns: a limit keeps a prefix, and one that is not positive keeps all. */
  function Listed(f: Filter, entries: seq<Entry>, limit: int): (r: seq<Entry>)
    ensures r <= NewestFirst(Selected(f, entries))
    ensures limit <= 0 ==> |r| == |Selected(f, entries)|
    ensures limit > 0 ==> |r| == if limit < |Selected(f, entries)| then limit else |Selected(f, entries)|
  {
    NewestFirstIsStableSort(Selected(f, entries));
    assert |NewestFirst(Selected(f, entries))| == |multiset(Selected(f, entries))|;
    var out := NewestFirst(Selected(f, entries));
    if 0 < limit < |out| then out[..limit] else out
  }

  /** The rolling window; a cap that is not positive is no cap. */
  function Window(s: seq<Entry>, max: int): seq<Entry> { if max > 0 then Suffix(s, max) else s }

  /** An entry keeps the time it came with; one that has none gets the clock's, and nothing else of it
      changes. */
  function Stamped(e: Entry, timed: bool, now: Time): (r: Entry)
    ensures timed ==> r == e
    ensures !timed ==> r.time == now
    ensures r.actor == e.actor && r.op == e.op && r.target == e.target && r.detail == e.detail
  {
    if timed then e else e.(time := now)
  }

  class MemoryStore {
    var entries: seq<Entry>
    const max: int

    constructor (max: int)
      ensures this.max == max && entries == []
    {
      this.max, entries := max, [];
    }

    /** now stamps an entry that has no time of its own. */
    method Append(e: Entry, timed: bool, now: Time)
      modifies this
      ensures entries == Window(old(entries) + [Stamped(e, timed, now)], max)
    {
      var stored := e;
      if !timed { stored := stored.(time := now); }
      entries := entries + [stored];
      if max > 0 && |entries| > max {
        var drop := |entries| - max;
        entries := entries[drop..];
      }
    }

    method List(f: Filter, limit: int) returns (out: seq<Entry>)
      ensures out == Listed(f, entries, limit)
    {
      out := [];
      for i := 0 to |entries|
        invariant out == Selected(f, entries[..i])
      {
        assert entries[..i + 1] == entries[..i] + [entries[i]];
        FilterAppend(e => Matches(f, e), entries[..i], [entries[i]]);
        if Matches(f, entries[i]) {
          out := out + [entries[i]];
        }
      }
      assert entries[..|entries|] == entries;
      out := NewestFirst(out);
      if limit > 0 && |out| > limit {
        out := out[..limit];
      }
    }

    /** Checkpoint writes a copy of every entry, oldest first. */
    method Checkpoint() returns (snapshot: seq<Entry>)
      ensures snapshot == entries
    {
      snapshot := [];
      for i := 0 to |entries|
        invariant snapshot == entries[..i]
      {
        snapshot := snapshot + [entries[i]];
      }
    }

    /** LoadCheckpoint: a file replaces the entries, the newest max of it. */
    method LoadCheckpoint(file: Option<seq<Entry>>)
      modifies this
      ensures entries == if file.Some? then Window(file.value, max) else old(entries)
    {
      if file.None? { return; }
      var loaded := file.value;
      if max > 0 && |loaded| > max {
        loaded := loaded[|loaded| - max..];
      }
      entries := loaded;
    }
  }

  // ----- the other criteria -----

  lemma {:induction false} FilterAt(p: Entry -> bool, s: seq<Entry>, t: Time)
    ensures At(Prelude.Filter(p, s), t) == Prelude.Filter(p, At(s, t))
  {
    if s != [] {
      FilterAt(p, s[1..], t);
      var rest := Prelude.Filter(p, s[1..]);
      assert ([s[0]] + rest)[1..] == rest;
      assert ([s[0]] + At(s[1..], t))[1..] == At(s[1..], t);
    }
  }

  lemma {:induction false} FilterDescends(p: Entry -> bool, s: seq<Entry>)
    requires Descending(s)
    ensures Descending(Prelude.Filter(p, s))
    ensures forall e :: e in Prelude.Filter(p, s) ==> e in s
  {
    if s != [] {
      FilterDescends(p, s[1..]);
      assert s == [s[0]] + s[1..];
      assert forall e :: e in s[1..] ==> e.time <= s[0].time;
    }
  }

  /** Selecting and sorting can be done in either order. */
  lemma SelectAfterSorting(p: Entry -> bool, s: seq<Entry>)
    ensures NewestFirst(Prelude.Filter(p, s)) == Prelude.Filter(p, NewestFirst(s))
  {
    var a, b := NewestFirst(Prelude.Filter(p, s)), Prelude.Filter(p, NewestFirst(s));
    NewestFirstIsStableSort(s);
    NewestFirstIsStableSort(Prelude.Filter(p, s));
    FilterDescends(p, NewestFirst(s));
    forall t ensures At(a, t) == At(b, t) {
      FilterAt(p, s, t);
      FilterAt(p, NewestFirst(s), t);
    }
    StableSortIsUnique(a, b);
  }

  lemma {:induction false} SelectedTwice(both: Filter, one: Filter, other: Entry -> bool, entries: seq<Entry>)
    requires forall e :: e in entries ==> (Matches(both, e) <==> Matches(one, e) && other(e))
    ensures Selected(both, entries) == Prelude.Filter(other, Selected(one, entries))
  {
    if entries != [] {
      assert entries[0] in entries && forall e :: e in entries[1..] ==> e in entries;
      SelectedTwice(both, one, other, entries[1..]);
      SelectedStep(both, entries);
      SelectedStep(one, entries);
      FilterAppend(other, if Matches(one, entries[0]) then [entries[0]] else [], Selected(one, entries[1..]));
    }
  }

  lemma ListedTwice(both: Filter, one: Filter, other: Entry -> bool, entries: seq<Entry>)
    requires forall e :: e in entries ==> (Matches(both, e) <==> Matches(one, e) && other(e))
    ensures Listed(both, entries, 0) == Prelude.Filter(other, Listed(one, entries, 0))
  {
    SelectedTwice(both, one, other, entries);
    SelectAfterSorting(other, Selected(one, entries));
  }

  /** Naming an actor, an operation or a target selects exactly the entries with that text in that
      field, of what the query would list without. */
  lemma CriterionSelects(f: Filter, text: string, entries: seq<Entry>)
    requires text != ""
    ensures f.actor == "" ==>
      Listed(f.(actor := text), entries, 0) == Prelude.Filter((e: Entry) => e.actor == text, Listed(f, entries, 0))
    ensures f.op == "" ==>
      Listed(f.(op := text), entries, 0) == Prelude.Filter((e: Entry) => e.op == text, Listed(f, entries, 0))
    ensures f.target == "" ==>
      Listed(f.(target := text), entries, 0) == Prelude.Filter((e: Entry) => e.target == text, Listed(f, entries, 0))
  {
    if f.actor == "" { ListedTwice(f.(actor := text), f, (e: Entry) => e.actor == text, entries); }
    if f.op == "" { ListedTwice(f.(op := text), f, (e: Entry) => e.op == text, entries); }
    if f.target == "" { ListedTwice(f.(target := text), f, (e: Entry) => e.target == text, entries); }
  }

  /** A query without criteria lists everything, newest first. */
  lemma NoCriterionListsAll(entries: seq<Entry>)
    ensures Listed(Filter("", "", "", None, None), entries, 0) == NewestFirst(entries)
  {
    EverythingMatches(entries);
  }

  lemma {:induction false} EverythingMatches(entries: seq<Entry>)
    ensures Selected(Filter("", "", "", None, None), entries) == entries
  {
    if entries != [] {
      EverythingMatches(entries[1..]);
      SelectedStep(Filter("", "", "", None, None), entries);
      assert entries == [entries[0]] + entries[1..];
    }
  }

  // ----- restarts -----

  datatype Event =
    | Record(entry: Entry)
    | Save(ok: bool)
    | Restart(max: int)

  datatype Log = Log(entries: seq<Entry>, max: int, file: Option<seq<Entry>>)

  function Step(l: Log, e: Event): Log {
    match e
    case Record(entry) => l.(entries := Window(l.entries + [entry], l.max))
    case Save(ok) => if ok then l.(file := Some(l.entries)) else l
    case Restart(max) => Log(if l.file.Some? then Window(l.file.value, max) else [], max, l.file)
  }

  function Run(max: int, events: seq<Event>): Log {
    if events == [] then Log([], max, None) else Step(Run(max, events[..|events| - 1]), events[|events| - 1])
  }

  /** Everything recorded and not lost to a crash: the history so far, and as of the last
      checkpoint that worked. A restart falls back to the latter. */
  function Surviving(events: seq<Event>): (seq<Entry>, seq<Entry>) {
    if events == [] then ([], [])
    else
      var (now, saved) := Surviving(events[..|events| - 1]);
      match events[|events| - 1]
      case Record(entry) => (now + [entry], saved)
      case Save(ok) => (now, if ok then now else saved)
      case Restart(_) => (saved, saved)
  }

  // ----- how much of it the log holds -----

  /** The smaller of n and a cap. */
  function Capped(n: nat, max: int): nat { if 0 < max < n then max else n }

  /** Sizes only: of the surviving history and of its last save, and how much of each is held. */
  datatype Tally = Tally(total: nat, kept: nat, savedTotal: nat, savedKept: nat, max: int)

  function TallyOf(max: int, events: seq<Event>): (t: Tally)
    ensures t.kept <= t.total && t.savedKept <= t.savedTotal
  {
    if events == [] then Tally(0, 0, 0, 0, max)
    else
      var t := TallyOf(max, events[..|events| - 1]);
      match events[|events| - 1]
      case Record(_) => t.(total := t.total + 1, kept := Capped(t.kept + 1, t.max))
      case Save(ok) => if ok then t.(savedTotal := t.total, savedKept := t.kept) else t
      case Restart(next) => t.(total := t.savedTotal, kept := Capped(t.savedKept, next), max := next)
  }

  lemma SuffixAppend(s: seq<Entry>, n: nat, e: Entry, max: int)
    requires n <= |s|
    ensures Window(Suffix(s, n) + [e], max) == Suffix(s + [e], Capped(n + 1, max))
  {
  }

  lemma SuffixCapped(s: seq<Entry>, n: nat, max: int)
    requires n <= |s|
    ensures Window(Suffix(s, n), max) == Suffix(s, Capped(n, max))
  {
  }

  /** After every run of records, checkpoints, crashes and restarts under any caps, the log is
      the newest part of everything that survived, and so is the file of what was saved. How
      much of it is there depends on the caps and on the number of records alone. */
  lemma {:induction false} LogIsNewestOfSurvivors(max: int, events: seq<Event>)
    ensures var l, t := Run(max, events), TallyOf(max, events);
            var (now, saved) := Surviving(events);
            && l.max == t.max && |now| == t.total && |saved| == t.savedTotal
            && l.entries == Suffix(now, t.kept)
            && (if l.file.Some? then l.file.value else []) == Suffix(saved, t.savedKept)
  {
    if events != [] {
      var before := events[..|events| - 1];
      LogIsNewestOfSurvivors(max, before);
      var l, t := Run(max, before), TallyOf(max, before);
      var (now, saved) := Surviving(before);
      match events[|events| - 1] {
        case Record(entry) => SuffixAppend(now, t.kept, entry, l.max);
        case Save(_) =>
        case Restart(next) => SuffixCapped(saved, t.savedKept, next);
      }
    }
  }

  /** So it is the full window, the newest max of everything that survived, exactly when the
      tally is at the cap. */
  lemma FullWindowExactlyWhen(max: int, events: seq<Event>)
    ensures var l, t := Run(max, events), TallyOf(max, events);
            l.entries == Window(Surviving(events).0, l.max) <==> t.kept == Capped(t.total, t.max)
  {
    LogIsNewestOfSurvivors(max, events);
    var now, t := Surviving(events).0, TallyOf(max, events);
    assert |Suffix(now, t.kept)| == t.kept && |Window(now, t.max)| == Capped(t.total, t.max);
  }

  /** A cap no looser than another. */
  predicate NoLooser(next: int, max: int) { max <= 0 || 0 < next <= max }

  predicate NeverLoosened(max: int, events: seq<Event>) {
    events != [] ==>
      var before, e := events[..|events| - 1], events[|events| - 1];
      NeverLoosened(max, before) && (e.Restart? ==> NoLooser(e.max, TallyOf(max, before).max))
  }

  lemma {:induction false} UnloosenedTally(max: int, events: seq<Event>)
    requires NeverLoosened(max, events)
    ensures var t := TallyOf(max, events);
            t.kept == Capped(t.total, t.max) && Capped(t.savedKept, t.max) == Capped(t.savedTotal, t.max)
  {
    if events != [] { UnloosenedTally(max, events[..|events| - 1]); }
  }

  /** Under caps that are never loosened it always is. */
  lemma LogIsWindowOfSurvivors(max: int, events: seq<Event>)
    requires NeverLoosened(max, events)
    ensures Run(max, events).entries == Window(Surviving(events).0, Run(max, events).max)
  {
    UnloosenedTally(max, events);
    FullWindowExactlyWhen(max, events);
  }

  lemma RunNext(max: int, events: seq<Event>, e: Event)
    ensures Run(max, events + [e]) == Step(Run(max, events), e)
    ensures Surviving(events + [e]) ==
      var (now, saved) := Surviving(events);
      match e
      case Record(entry) => (now + [entry], saved)
      case Save(ok) => (now, if ok then now else saved)
      case Restart(_) => (saved, saved)
  {
    assert (events + [e])[..|events|] == events;
  }

  /** A looser cap after a restart cannot bring back what the file no longer holds. */
  lemma LooserCapRestoresNothing(a: Entry, b: Entry)
    ensures var events := [Record(a)] + [Record(b)] + [Save(true)] + [Restart(2)];
            Run(1, events).entries == [b] && Window(Surviving(events).0, 2) == [a, b]
  {
    var e := [Record(a)];
    assert e == [] + [Record(a)];
    RunNext(1, [], Record(a));
    RunNext(1, e, Record(b));
    RunNext(1, e + [Record(b)], Save(true));
    RunNext(1, e + [Record(b)] + [Save(true)], Restart(2));
  }
}
