/** The idempotency cache and middleware for admin writes (internal/httpapi/idempotency.go). */
module Idempotency {
  import opened Prelude
  import opened Text

  type Time = int

  datatype Response = Response(status: int, body: string, contentType: string)

  datatype Entry = Entry(resp: Response, expires: Time)

  const MAX_KEY := 255

  // ----- the cache -----

  type Entries = map<string, Entry>

  predicate Live(e: Entry, now: Time) { now < e.expires }

  /** What a lookup leaves behind: an expired entry is evicted on access. */
  function AfterGet(entries: Entries, key: string, now: Time): Entries {
    if key in entries && !Live(entries[key], now) then entries - {key} else entries
  }

  function Unexpired(entries: Entries, now: Time): Entries {
    map k | k in entries && Live(entries[k], now) :: entries[k]
  }

  /** A put at the cap first drops the expired entries, and if that is not enough all of them. */
  function AfterPut(entries: Entries, max: int, ttl: int, key: string, resp: Response, now: Time, sweep: Time): Entries {
    var kept :=
      if max > 0 && |entries| >= max then
        var live := Unexpired(entries, sweep);
        if |live| >= max then map[] else live
      else entries;
    kept[key := Entry(resp, now + ttl)]
  }

  class Cache {
    var entries: Entries
    const ttl: int
    const max: int

    constructor (ttl: int, max: int)
      ensures entries == map[] && this.max == max
      ensures this.ttl == if ttl <= 0 then 24 * 3600 * 1_000_000_000 else ttl
    {
      entries, this.max := map[], max;
      this.ttl := if ttl <= 0 then 24 * 3600 * 1_000_000_000 else ttl;
    }

    method Get(key: string, now: Time) returns (r: Option<Response>)
      modifies this
      ensures entries == AfterGet(old(entries), key, now)
      ensures r == if key in entries then Some(entries[key].resp) else None
      ensures key in entries ==> Live(entries[key], now)
    {
      if key !in entries { return None; }
      var e := entries[key];
      if !(now < e.expires) {
        entries := entries - {key};
        return None;
      }
      return Some(e.resp);
    }

    /** now stamps the new entry; sweep is the later clock reading that expiry is judged by. */
    method Put(key: string, resp: Response, now: Time, sweep: Time)
      modifies this
      ensures entries == AfterPut(old(entries), max, ttl, key, resp, now, sweep)
    {
      if max > 0 && |entries| >= max {
        var left := entries.Keys;
        while left != {}
          invariant left <= entries.Keys
          invariant forall k :: k in entries <==> k in old(entries) && (k in left || Live(old(entries)[k], sweep))
          invariant forall k :: k in entries ==> entries[k] == old(entries)[k]
        {
          var k :| k in left;
          left := left - {k};
          if !(sweep < entries[k].expires) {
            entries := entries - {k};
          }
        }
        assert entries == Unexpired(old(entries), sweep);
        if |entries| >= max {
          entries := map[];
        }
      }
      entries := entries[key := Entry(resp, now + ttl)];
    }
  }

  /** With a positive cap the cache never holds more than max entries. */
  lemma CapHolds(entries: Entries, max: int, ttl: int, key: string, resp: Response, now: Time, sweep: Time)
    requires max > 0 && |entries| <= max
    ensures |AfterPut(entries, max, ttl, key, resp, now, sweep)| <= max
    ensures |AfterGet(entries, key, now)| <= max
  {
    var live := Unexpired(entries, sweep);
    assert live.Keys <= entries.Keys;
    SubsetSize(live.Keys, entries.Keys);
    SubsetSize((entries - {key}).Keys, entries.Keys);
    UpdateSize(entries, key, Entry(resp, now + ttl));
    UpdateSize(live, key, Entry(resp, now + ttl));
    UpdateSize(map[], key, Entry(resp, now + ttl));
  }

  /** An unexpired entry of another key goes away exactly when a put finds the cap already
      taken up by unexpired entries. */
  lemma UnexpiredLostExactlyWhenFull(entries: Entries, max: int, ttl: int, key: string, resp: Response, now: Time, sweep: Time, k: string)
    requires k in entries && Live(entries[k], sweep) && k != key
    ensures k !in AfterPut(entries, max, ttl, key, resp, now, sweep) <==>
            max > 0 && |Unexpired(entries, sweep)| >= max
  {
    assert Unexpired(entries, sweep).Keys <= entries.Keys;
    SubsetSize(Unexpired(entries, sweep).Keys, entries.Keys);
  }

  lemma UpdateSize<K, V>(m: map<K, V>, k: K, v: V)
    ensures |m[k := v]| <= |m| + 1
  {
    assert m[k := v].Keys == m.Keys + {k};
  }

  // ----- the composite key -----

  const NUL: char := '\U{0000}'

  datatype Request = Request(actor: Option<string>, verb: string, path: string, header: string)

  function CompositeKey(actor: string, verb: string, path: string, header: string): string {
    actor + [NUL] + verb + [NUL] + path + [NUL] + header
  }

  lemma SplitsAtFirst(a: string, x: string, b: string, y: string)
    requires Free(a, NUL) && Free(b, NUL)
    requires a + [NUL] + x == b + [NUL] + y
    ensures a == b && x == y
  {
    var s := a + [NUL] + x;
    IndexOfUnique(a, NUL, x);
    IndexOfUnique(b, NUL, y);
    assert a == s[..|a|] && x == s[|a| + 1..];
    assert b == s[..|b|] && y == s[|b| + 1..];
  }

  lemma SplitsAtLast(x: string, a: string, y: string, b: string)
    requires Free(a, NUL) && Free(b, NUL)
    requires x + [NUL] + a == y + [NUL] + b
    ensures x == y && a == b
  {
    var s := x + [NUL] + a;
    assert s[|x|] == NUL && s[|y|] == NUL;
    assert forall k :: |x| < k < |s| ==> s[k] == a[k - |x| - 1];
    assert forall k :: |y| < k < |s| ==> s[k] == b[k - |y| - 1];
    assert x == s[..|x|] && y == s[..|x|];
    assert a == s[|x| + 1..] && b == s[|x| + 1..];
  }

  /** The key tells actors, methods, paths and headers apart, whatever the path holds, as long
      as the other three have no NUL. */
  lemma CompositeKeyInjective(a1: string, v1: string, p1: string, h1: string, a2: string, v2: string, p2: string, h2: string)
    requires Free(a1, NUL) && Free(v1, NUL) && Free(h1, NUL) && Free(a2, NUL) && Free(v2, NUL) && Free(h2, NUL)
    requires CompositeKey(a1, v1, p1, h1) == CompositeKey(a2, v2, p2, h2)
    ensures a1 == a2 && v1 == v2 && p1 == p2 && h1 == h2
  {
    var r1, r2 := v1 + [NUL] + (p1 + [NUL] + h1), v2 + [NUL] + (p2 + [NUL] + h2);
    assert CompositeKey(a1, v1, p1, h1) == a1 + [NUL] + r1;
    assert CompositeKey(a2, v2, p2, h2) == a2 + [NUL] + r2;
    SplitsAtFirst(a1, r1, a2, r2);
    SplitsAtFirst(v1, p1 + [NUL] + h1, v2, p2 + [NUL] + h2);
    SplitsAtLast(p1, h1, p2, h2);
  }

  // ----- the middleware, request by request -----

  /** One request: what its handler would answer, and the clock at the lookup, at the put and
      at the sweep. */
  datatype Call = Call(req: Request, answer: Response, lookup: Time, put: Time, sweep: Time)

  /** executed says the handler ran. */
  datatype Event = Event(call: Call, executed: bool, reply: Response)

  datatype State = State(entries: Entries, log: seq<Event>)

  /** Whether the middleware applies at all. */
  predicate Keyed(r: Request) { r.header != "" && ByteLen(r.header) <= MAX_KEY && r.actor.Some? }

  function KeyOf(r: Request): string
    requires Keyed(r)
  {
    CompositeKey(r.actor.value, r.verb, r.path, r.header)
  }

  predicate Committed(resp: Response) { 200 <= resp.status < 300 }

  /** One request: what it leaves in the cache, and what became of it. */
  function Serve(max: int, ttl: int, held: Entries, c: Call): (Entries, Event) {
    if !Keyed(c.req) then (held, Event(c, true, c.answer))
    else
      var key := KeyOf(c.req);
      var entries := AfterGet(held, key, c.lookup);
      if key in entries then (entries, Event(c, false, entries[key].resp))
      else if !Committed(c.answer) then (entries, Event(c, true, c.answer))
      else (AfterPut(entries, max, ttl, key, c.answer, c.put, c.sweep), Event(c, true, c.answer))
  }

  function Step(max: int, ttl: int, st: State, c: Call): State {
    var (entries, e) := Serve(max, ttl, st.entries, c);
    State(entries, st.log + [e])
  }

  function Run(max: int, ttl: int, calls: seq<Call>): State {
    if calls == [] then State(map[], []) else Step(max, ttl, Run(max, ttl, calls[..|calls| - 1]), calls[|calls| - 1])
  }

  /** In every run the cache stays within a positive cap. */
  lemma {:induction false} CapHoldsInEveryRun(max: int, ttl: int, calls: seq<Call>)
    requires max > 0
    ensures |Run(max, ttl, calls).entries| <= max
  {
    if calls != [] {
      CapHoldsInEveryRun(max, ttl, calls[..|calls| - 1]);
      var st, c := Run(max, ttl, calls[..|calls| - 1]), calls[|calls| - 1];
      if Keyed(c.req) {
        var key := KeyOf(c.req);
        CapHolds(st.entries, max, ttl, key, c.answer, c.lookup, c.sweep);
        CapHolds(AfterGet(st.entries, key, c.lookup), max, ttl, key, c.answer, c.put, c.sweep);
      }
    }
  }

  /** The clock never goes back, within a call or between calls. */
  predicate Ordered(calls: seq<Call>) {
    && (forall i :: 0 <= i < |calls| ==> calls[i].lookup <= calls[i].put <= calls[i].sweep)
    && (forall i :: 0 < i < |calls| ==> calls[i - 1].sweep <= calls[i].lookup)
  }

  method Idempotent(cache: Cache, c: Call) returns (reply: Response, executed: bool)
    modifies cache
    ensures (cache.entries, Event(c, executed, reply)) == Serve(cache.max, cache.ttl, old(cache.entries), c)
  {
    if c.req.header == "" || ByteLen(c.req.header) > MAX_KEY || c.req.actor.None? {
      return c.answer, true;
    }
    var key := CompositeKey(c.req.actor.value, c.req.verb, c.req.path, c.req.header);
    var cached := cache.Get(key, c.lookup);
    if cached.Some? { return cached.value, false; }
    reply, executed := c.answer, true;
    if reply.status >= 200 && reply.status < 300 {
      cache.Put(key, reply, c.put, c.sweep);
    }
  }

  /** The middleware applies to the request, and its answer is one to keep. */
  predicate Replayable(c: Call) {
    c.req.actor.Some? && c.req.header != "" && ByteLen(c.req.header) <= 255 && 200 <= c.answer.status <= 299
  }

  /** A request whose answer is not kept, whatever it is. */
  predicate Passing(c: Call) { !Keyed(c.req) || c.answer.status < 200 || c.answer.status > 299 }

  lemma RunNext(max: int, ttl: int, calls: seq<Call>, c: Call)
    ensures Run(max, ttl, calls + [c]) == Step(max, ttl, Run(max, ttl, calls), c)
  {
    assert (calls + [c])[..|calls|] == calls;
  }

  lemma OrderedNext(before: seq<Call>, last: Call)
    requires Ordered(before + [last])
    ensures Ordered(before) && last.lookup <= last.put <= last.sweep
    ensures before != [] ==> before[|before| - 1].sweep <= last.lookup
  {
    var all := before + [last];
    assert all[|before|] == last && forall i :: 0 <= i < |before| ==> all[i] == before[i];
  }

  /** The entry of c, or none once it has expired. */
  ghost predicate HoldsOnly(ttl: int, entries: Entries, c: Call, clock: Time)
    requires Keyed(c.req)
  {
    && (KeyOf(c.req) in entries ==> Replayable(c) && entries[KeyOf(c.req)] == Entry(c.answer, c.put + ttl))
    && (KeyOf(c.req) !in entries ==> !Replayable(c) || c.put + ttl <= clock)
  }

  lemma PassingKeeps(max: int, ttl: int, st: State, c: Call, clock: Time, next: Call)
    requires Keyed(c.req) && HoldsOnly(ttl, st.entries, c, clock) && Passing(next)
    requires clock <= next.lookup <= next.sweep
    ensures HoldsOnly(ttl, Step(max, ttl, st, next).entries, c, next.sweep)
  {
  }

  lemma {:induction false} StillHolds(max: int, ttl: int, calls: seq<Call>, c: Call, mid: seq<Call>)
    requires Ordered(calls + [c] + mid) && Keyed(c.req) && Serve(max, ttl, Run(max, ttl, calls).entries, c).1.executed
    requires forall i :: 0 <= i < |mid| ==> Passing(mid[i])
    ensures HoldsOnly(ttl, Run(max, ttl, calls + [c] + mid).entries, c, (if mid == [] then c else mid[|mid| - 1]).sweep)
  {
    var first := calls + [c];
    RunNext(max, ttl, calls, c);
    if mid == [] {
      assert first + mid == first;
    } else {
      var n := |mid| - 1;
      var all, before := first + mid, first + mid[..n];
      assert all == before + [mid[n]];
      OrderedNext(before, mid[n]);
      assert before[|before| - 1] == if n == 0 then c else mid[n - 1];
      StillHolds(max, ttl, calls, c, mid[..n]);
      RunNext(max, ttl, before, mid[n]);
      PassingKeeps(max, ttl, Run(max, ttl, before), c, before[|before| - 1].sweep, mid[n]);
    }
  }

  lemma AgainstHeld(max: int, ttl: int, entries: Entries, c: Call, clock: Time, again: Call)
    requires Keyed(c.req) && again.req == c.req && HoldsOnly(ttl, entries, c, clock) && clock <= again.lookup
    ensures var e := Serve(max, ttl, entries, again).1;
            && (!e.executed <==> Replayable(c) && again.lookup < c.put + ttl)
            && e.reply == if e.executed then again.answer else c.answer
  {
  }

  /** A request that is made again, after others that leave nothing behind, is answered from the cache
      exactly when it has an actor and a header of 1 to 255 bytes, its first answer was a 2xx, and less
      than one lifetime has passed since that; the answer is then the first one. */
  lemma RetryIsReplayedExactlyWhen(max: int, ttl: int, calls: seq<Call>, c: Call, mid: seq<Call>, again: Call)
    requires Ordered(calls + [c] + mid + [again]) && again.req == c.req
    requires Serve(max, ttl, Run(max, ttl, calls).entries, c).1.executed && forall i :: 0 <= i < |mid| ==> Passing(mid[i])
    ensures var e := Serve(max, ttl, Run(max, ttl, calls + [c] + mid).entries, again).1;
            && (!e.executed <==> Replayable(c) && again.lookup < c.put + ttl)
            && e.reply == if e.executed then again.answer else c.answer
  {
    var before := calls + [c] + mid;
    OrderedNext(before, again);
    assert before[|before| - 1] == if mid == [] then c else mid[|mid| - 1];
    if Keyed(c.req) {
      StillHolds(max, ttl, calls, c, mid);
      AgainstHeld(max, ttl, Run(max, ttl, before).entries, c, before[|before| - 1].sweep, again);
    }
  }

  // ----- what the log says is held -----

  /** An event that stored its answer, and one that stored it under key. */
  predicate StoresAny(e: Event) { Keyed(e.call.req) && e.executed && Committed(e.call.answer) }

  predicate Stores(e: Event, key: string) { StoresAny(e) && KeyOf(e.call.req) == key }

  function StoredKeys(log: seq<Event>): set<string> {
    set e | e in log && StoresAny(e) :: KeyOf(e.call.req)
  }

  /** The entry held for key: that of the last executed committed request with this key, unless
      a later one with another key found the cache full and emptied it. */
  ghost function Held(max: int, ttl: int, log: seq<Event>, key: string): Option<Entry>
    decreases |log|, 0
  {
    if log == [] then None
    else
      var before, e := log[..|log| - 1], log[|log| - 1];
      if Stores(e, key) then Some(Entry(e.call.answer, e.call.put + ttl))
      else if StoresAny(e) && Full(max, ttl, before, e.call.sweep) then None
      else Held(max, ttl, before, key)
  }

  /** The keys with a held entry that is unexpired at now. */
  ghost function LiveKeys(max: int, ttl: int, log: seq<Event>, now: Time): set<string>
    decreases |log|, 2
  {
    set key | key in StoredKeys(log) && HeldLive(max, ttl, log, key, now)
  }

  ghost predicate HeldLive(max: int, ttl: int, log: seq<Event>, key: string, now: Time)
    decreases |log|, 1
  {
    var h := Held(max, ttl, log, key);
    h.Some? && Live(h.value, now)
  }

  /** A positive cap is taken up by unexpired entries. */
  ghost predicate Full(max: int, ttl: int, log: seq<Event>, now: Time)
    decreases |log|, 3
  {
    max > 0 && |LiveKeys(max, ttl, log, now)| >= max
  }

  lemma {:induction false} HeldIsStored(max: int, ttl: int, log: seq<Event>, key: string)
    requires Held(max, ttl, log, key).Some?
    ensures key in StoredKeys(log)
  {
    var before, e := log[..|log| - 1], log[|log| - 1];
    assert e in log;
    if !Stores(e, key) {
      HeldIsStored(max, ttl, before, key);
      assert forall x :: x in before ==> x in log;
    }
  }

  // ----- the cache follows the log -----

  /** The cache holds nothing but held entries, and misses none that is unexpired. */
  ghost predicate Tracks(max: int, ttl: int, st: State, clock: Option<Time>, key: string) {
    && (key in st.entries ==> Held(max, ttl, st.log, key) == Some(st.entries[key]))
    && (key !in st.entries ==>
        var h := Held(max, ttl, st.log, key);
        h.Some? ==> clock.Some? && h.value.expires <= clock.value)
  }

  ghost predicate TracksAll(max: int, ttl: int, st: State, clock: Option<Time>) {
    forall key :: Tracks(max, ttl, st, clock, key)
  }

  function Clock(calls: seq<Call>): Option<Time> {
    if calls == [] then None else Some(calls[|calls| - 1].sweep)
  }

  /** What is unexpired in the cache is what the log says is live. */
  lemma LiveIsUnexpired(max: int, ttl: int, st: State, clock: Option<Time>, now: Time, entries: Entries)
    requires TracksAll(max, ttl, st, clock) && (clock.Some? ==> clock.value <= now)
    requires entries.Keys <= st.entries.Keys && forall k :: k in entries ==> entries[k] == st.entries[k]
    requires forall k :: k in st.entries && k !in entries ==> !Live(st.entries[k], now)
    ensures Unexpired(entries, now).Keys == LiveKeys(max, ttl, st.log, now)
  {
    forall k ensures k in Unexpired(entries, now) <==> k in LiveKeys(max, ttl, st.log, now) {
      assert Tracks(max, ttl, st, clock, k);
      if Held(max, ttl, st.log, k).Some? { HeldIsStored(max, ttl, st.log, k); }
    }
  }

  /** So the log says when the cap is taken up by unexpired entries. */
  lemma EmptiedWhenFull(max: int, ttl: int, st: State, clock: Option<Time>, c: Call)
    requires TracksAll(max, ttl, st, clock) && Keyed(c.req)
    requires c.lookup <= c.put <= c.sweep && (clock.Some? ==> clock.value <= c.lookup)
    ensures var entries := AfterGet(st.entries, KeyOf(c.req), c.lookup);
            && |entries| >= |Unexpired(entries, c.sweep)|
            && (Full(max, ttl, st.log, c.sweep) <==> max > 0 && |Unexpired(entries, c.sweep)| >= max)
  {
    var entries := AfterGet(st.entries, KeyOf(c.req), c.lookup);
    LiveIsUnexpired(max, ttl, st, clock, c.sweep, entries);
    assert |Unexpired(entries, c.sweep)| == |Unexpired(entries, c.sweep).Keys|;
    SubsetSize(Unexpired(entries, c.sweep).Keys, entries.Keys);
  }

  lemma HeldNext(max: int, ttl: int, log: seq<Event>, e: Event, key: string)
    ensures Held(max, ttl, log + [e], key) ==
      if Stores(e, key) then Some(Entry(e.call.answer, e.call.put + ttl))
      else if StoresAny(e) && Full(max, ttl, log, e.call.sweep) then None
      else Held(max, ttl, log, key)
  {
    assert (log + [e])[..|log|] == log;
  }

  /** What a put does to the entry of another key. */
  lemma PutOther(entries: Entries, max: int, ttl: int, key: string, resp: Response, now: Time, sweep: Time, k: string)
    requires k != key && |entries| >= |Unexpired(entries, sweep)|
    ensures var r := AfterPut(entries, max, ttl, key, resp, now, sweep);
            if max > 0 && |Unexpired(entries, sweep)| >= max then k !in r
            else
              && (k in r ==> k in entries && r[k] == entries[k])
              && (k in entries && k !in r ==> !Live(entries[k], sweep))
  {
  }

  lemma PutTracks(max: int, ttl: int, st: State, clock: Option<Time>, c: Call, key: string)
    requires TracksAll(max, ttl, st, clock)
    requires c.lookup <= c.put <= c.sweep && (clock.Some? ==> clock.value <= c.lookup)
    requires Keyed(c.req) && Committed(c.answer) && KeyOf(c.req) !in AfterGet(st.entries, KeyOf(c.req), c.lookup)
    ensures Tracks(max, ttl, Step(max, ttl, st, c), Some(c.sweep), key)
  {
    var entries, e := AfterGet(st.entries, KeyOf(c.req), c.lookup), Event(c, true, c.answer);
    assert Tracks(max, ttl, st, clock, key);
    assert Step(max, ttl, st, c) == State(AfterPut(entries, max, ttl, KeyOf(c.req), c.answer, c.put, c.sweep), st.log + [e]);
    HeldNext(max, ttl, st.log, e, key);
    EmptiedWhenFull(max, ttl, st, clock, c);
    if key != KeyOf(c.req) {
      PutOther(entries, max, ttl, KeyOf(c.req), c.answer, c.put, c.sweep, key);
    }
  }

  lemma StepTracks(max: int, ttl: int, st: State, clock: Option<Time>, c: Call, key: string)
    requires TracksAll(max, ttl, st, clock)
    requires c.lookup <= c.put <= c.sweep && (clock.Some? ==> clock.value <= c.lookup)
    ensures Tracks(max, ttl, Step(max, ttl, st, c), Some(c.sweep), key)
  {
    if Keyed(c.req) && Committed(c.answer) && KeyOf(c.req) !in AfterGet(st.entries, KeyOf(c.req), c.lookup) {
      PutTracks(max, ttl, st, clock, c, key);
    } else {
      assert Tracks(max, ttl, st, clock, key);
      HeldNext(max, ttl, st.log, Step(max, ttl, st, c).log[|st.log|], key);
    }
  }

  lemma {:induction false} CacheTracksLog(max: int, ttl: int, calls: seq<Call>)
    requires Ordered(calls)
    ensures TracksAll(max, ttl, Run(max, ttl, calls), Clock(calls))
  {
    if calls != [] {
      var before := calls[..|calls| - 1];
      CacheTracksLog(max, ttl, before);
      forall key ensures Tracks(max, ttl, Run(max, ttl, calls), Clock(calls), key) {
        StepTracks(max, ttl, Run(max, ttl, before), Clock(before), calls[|calls| - 1], key);
      }
    }
  }

  /** A keyed request is replayed, and its handler not run, exactly when the log holds an entry
      for its key that is less than one lifetime old; the reply is then that entry's. */
  lemma ReplayedExactlyWhenHeld(max: int, ttl: int, calls: seq<Call>, c: Call)
    requires Ordered(calls + [c]) && Keyed(c.req)
    ensures var st := Run(max, ttl, calls);
            var e := Step(max, ttl, st, c).log[|st.log|];
            && (!e.executed <==> HeldLive(max, ttl, st.log, KeyOf(c.req), c.lookup))
            && (!e.executed ==> e.reply == Held(max, ttl, st.log, KeyOf(c.req)).value.resp)
  {
    var all := calls + [c];
    assert forall i :: 0 <= i < |calls| ==> all[i] == calls[i];
    assert all[|calls|] == c;
    CacheTracksLog(max, ttl, calls);
    assert Tracks(max, ttl, Run(max, ttl, calls), Clock(calls), KeyOf(c.req));
  }

  /** In every run, a request that stores its answer takes every unexpired entry of another key with
      it exactly when the log says the cap is taken up. */
  lemma LivePutOutExactlyWhenFull(max: int, ttl: int, calls: seq<Call>, c: Call, k: string)
    requires Ordered(calls + [c]) && Keyed(c.req) && Committed(c.answer) && k != KeyOf(c.req)
    requires var entries := Run(max, ttl, calls).entries;
             && k in entries && Live(entries[k], c.sweep)
             && KeyOf(c.req) !in AfterGet(entries, KeyOf(c.req), c.lookup)
    ensures var st := Run(max, ttl, calls);
            k !in Step(max, ttl, st, c).entries <==> Full(max, ttl, st.log, c.sweep)
  {
    var all, st := calls + [c], Run(max, ttl, calls);
    assert forall i :: 0 <= i < |calls| ==> all[i] == calls[i];
    assert all[|calls|] == c;
    CacheTracksLog(max, ttl, calls);
    EmptiedWhenFull(max, ttl, st, Clock(calls), c);
    UnexpiredLostExactlyWhenFull(AfterGet(st.entries, KeyOf(c.req), c.lookup), max, ttl, KeyOf(c.req), c.answer, c.put, c.sweep, k);
  }

  predicate NulFree(r: Request) { Keyed(r) ==> Free(r.actor.value, NUL) && Free(r.verb, NUL) && Free(r.header, NUL) }

  /** And a held entry is the committed answer of an executed request with the same actor,
      method, path and header. */
  lemma {:induction false} HeldComesFromSameRequest(max: int, ttl: int, log: seq<Event>, r: Request)
    requires Keyed(r) && NulFree(r) && forall e :: e in log ==> NulFree(e.call.req)
    requires Held(max, ttl, log, KeyOf(r)).Some?
    ensures exists i :: 0 <= i < |log| && log[i].executed && log[i].call.req == r && Committed(log[i].call.answer)
              && Held(max, ttl, log, KeyOf(r)).value == Entry(log[i].call.answer, log[i].call.put + ttl)
  {
    var n := |log| - 1;
    var e := log[n];
    if Stores(e, KeyOf(r)) {
      var q := e.call.req;
      assert e in log;
      CompositeKeyInjective(q.actor.value, q.verb, q.path, q.header, r.actor.value, r.verb, r.path, r.header);
      assert q == r;
    } else {
      HeldComesFromSameRequest(max, ttl, log[..n], r);
      var i :| 0 <= i < n && log[..n][i].executed && log[..n][i].call.req == r && Committed(log[..n][i].call.answer)
                && Held(max, ttl, log[..n], KeyOf(r)).value == Entry(log[..n][i].call.answer, log[..n][i].call.put + ttl);
      assert log[i] == log[..n][i];
    }
  }
}
