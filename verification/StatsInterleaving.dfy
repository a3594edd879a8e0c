/** Every interleaving of concurrent record calls, one atomic operation at a time
    (internal/httpapi/telemetry.go, record). */
module StatsInterleaving {
  import opened Prelude
  import opened Arithmetic
  import opened RequestStats

  /** Where a call stands; Cas(cur) holds the maximum it loaded. */
  datatype Pc = AddCount | AddSum | LoadMax | Cas(cur: nat) | Bucket(i: nat) | Done

  /** fails counts its failed swaps, won says its swap succeeded; the code keeps neither. */
  datatype Call = Call(lat: nat, pc: Pc, fails: nat, won: bool)

  datatype World = World(shared: Totals, calls: seq<Call>)

  datatype Action = Start(ns: int) | Step(call: nat)

  const ZERO := World(Totals(0, 0, 0, [0, 0, 0, 0]), [])

  function StepCall(s: Totals, c: Call): (Totals, Call)
    requires |s.buckets| == BUCKETS
  {
    match c.pc
    case AddCount => (s.(count := AddOne(s.count)), c.(pc := AddSum))
    case AddSum => (s.(sum := (s.sum + c.lat) % TWO_64), c.(pc := LoadMax))
    case LoadMax => (s, c.(pc := if c.lat <= s.max then Bucket(0) else Cas(s.max)))
    case Cas(cur) =>
      if s.max == cur then (s.(max := c.lat), c.(pc := Bucket(0), won := true))
      else (s, c.(pc := LoadMax, fails := c.fails + 1))
    case Bucket(i) =>
      if i >= BUCKETS then (s, c.(pc := Done))
      else if c.lat <= BOUNDS[i] then (s.(buckets := s.buckets[i := AddOne(s.buckets[i])]), c.(pc := Bucket(i + 1)))
      else (s, c.(pc := Bucket(i + 1)))
    case Done => (s, c)
  }

  function Next(w: World, a: Action): World
    requires |w.shared.buckets| == BUCKETS
  {
    match a
    case Start(ns) => w.(calls := w.calls + [Call(LatencyMs(ns), AddCount, 0, false)])
    case Step(i) =>
      if i >= |w.calls| then w
      else
        var (s, c) := StepCall(w.shared, w.calls[i]);
        World(s, w.calls[i := c])
  }

  function Run(actions: seq<Action>): (w: World)
    ensures |w.shared.buckets| == BUCKETS
  {
    if actions == [] then ZERO else Next(Run(actions[..|actions| - 1]), actions[|actions| - 1])
  }

  function Latencies(calls: seq<Call>): (lats: seq<nat>)
    ensures |lats| == |calls|
    ensures forall i :: 0 <= i < |calls| ==> lats[i] == calls[i].lat
  {
    if calls == [] then [] else Latencies(calls[..|calls| - 1]) + [calls[|calls| - 1].lat]
  }

  predicate Quiescent(w: World) { forall i :: 0 <= i < |w.calls| ==> w.calls[i].pc.Done? }

  // ----- what each call has contributed so far -----

  datatype Meter = CountMeter | SumMeter | BucketMeter(b: nat) | WinMeter

  predicate PastMax(pc: Pc) { pc.Bucket? || pc.Done? }

  function Weight(m: Meter, c: Call): nat {
    match m
    case CountMeter => if c.pc.AddCount? then 0 else 1
    case SumMeter => if c.pc.AddCount? || c.pc.AddSum? then 0 else c.lat
    case BucketMeter(b) =>
      if b < BUCKETS && c.lat <= BOUNDS[b] && (c.pc.Done? || (c.pc.Bucket? && c.pc.i > b)) then 1 else 0
    case WinMeter => if c.won then 1 else 0
  }

  function Weigh(m: Meter, calls: seq<Call>): nat {
    if calls == [] then 0 else Weigh(m, calls[..|calls| - 1]) + Weight(m, calls[|calls| - 1])
  }

  lemma {:induction false} WeighUpdate(m: Meter, calls: seq<Call>, i: nat, c: Call)
    requires i < |calls|
    ensures Weigh(m, calls[i := c]) == Weigh(m, calls) - Weight(m, calls[i]) + Weight(m, c)
  {
    var n := |calls| - 1;
    if i == n {
      assert calls[i := c][..n] == calls[..n];
    } else {
      assert calls[i := c][..n] == calls[..n][i := c];
      WeighUpdate(m, calls[..n], i, c);
    }
  }

  lemma WeighStart(m: Meter, calls: seq<Call>, c: Call)
    ensures Weigh(m, calls + [c]) == Weigh(m, calls) + Weight(m, c)
  {
    assert (calls + [c])[..|calls|] == calls;
  }

  // ----- the invariant -----

  /** Each counter is the total of what the calls have contributed. */
  predicate CountersAddUp(w: World) {
    && |w.shared.buckets| == BUCKETS
    && w.shared.count == Weigh(CountMeter, w.calls) % TWO_64
    && w.shared.sum == Weigh(SumMeter, w.calls) % TWO_64
    && (forall b :: 0 <= b < BUCKETS ==> w.shared.buckets[b] == Weigh(BucketMeter(b), w.calls) % TWO_64)
  }

  /** A call past the loop is covered by the maximum; one about to swap loaded an old one. */
  predicate CallOk(max: nat, wins: nat, c: Call) {
    && (PastMax(c.pc) ==> c.lat <= max)
    && (c.pc.Cas? ==> c.pc.cur < c.lat && c.pc.cur <= max)
    && (c.won ==> PastMax(c.pc))
    && c.fails + (if c.pc.Cas? && c.pc.cur < max then 1 else 0) + (if c.won then 1 else 0) <= wins
  }

  predicate MaxOk(w: World) {
    && (w.shared.max == 0 || exists i :: 0 <= i < |w.calls| && w.calls[i].lat == w.shared.max)
    && forall i :: 0 <= i < |w.calls| ==> CallOk(w.shared.max, Weigh(WinMeter, w.calls), w.calls[i])
  }

  lemma StepKeepsCounters(w: World, i: nat)
    requires CountersAddUp(w) && i < |w.calls|
    ensures CountersAddUp(Next(w, Step(i)))
  {
    var w' := Next(w, Step(i));
    StepKeepsCountAndSum(w, i);
    forall b | 0 <= b < BUCKETS
      ensures w'.shared.buckets[b] == Weigh(BucketMeter(b), w'.calls) % TWO_64
    {
      StepKeepsBucket(w, i, b);
    }
  }

  lemma StepKeepsCountAndSum(w: World, i: nat)
    requires CountersAddUp(w) && i < |w.calls|
    ensures var w' := Next(w, Step(i));
            && |w'.shared.buckets| == BUCKETS
            && w'.shared.count == Weigh(CountMeter, w'.calls) % TWO_64
            && w'.shared.sum == Weigh(SumMeter, w'.calls) % TWO_64
  {
    var c := w.calls[i];
    var (s, c') := StepCall(w.shared, c);
    WeighUpdate(CountMeter, w.calls, i, c');
    WeighUpdate(SumMeter, w.calls, i, c');
    ModAdd(Weigh(CountMeter, w.calls), 1, TWO_64);
    ModAdd(Weigh(SumMeter, w.calls), c.lat, TWO_64);
  }

  lemma StepKeepsBucket(w: World, i: nat, b: nat)
    requires CountersAddUp(w) && i < |w.calls| && b < BUCKETS
    ensures var w' := Next(w, Step(i));
            |w'.shared.buckets| == BUCKETS && w'.shared.buckets[b] == Weigh(BucketMeter(b), w'.calls) % TWO_64
  {
    var c := w.calls[i];
    var (s, c') := StepCall(w.shared, c);
    WeighUpdate(BucketMeter(b), w.calls, i, c');
    ModAdd(Weigh(BucketMeter(b), w.calls), 1, TWO_64);
  }

  lemma StepKeepsMax(w: World, i: nat)
    requires |w.shared.buckets| == BUCKETS && MaxOk(w) && i < |w.calls|
    ensures MaxOk(Next(w, Step(i)))
  {
    var c := w.calls[i];
    var (s, c') := StepCall(w.shared, c);
    var calls' := w.calls[i := c'];
    WeighUpdate(WinMeter, w.calls, i, c');
    assert CallOk(w.shared.max, Weigh(WinMeter, w.calls), c);
    forall k | 0 <= k < |calls'| ensures CallOk(s.max, Weigh(WinMeter, calls'), calls'[k]) {
      assert CallOk(w.shared.max, Weigh(WinMeter, w.calls), w.calls[k]);
    }
    assert forall k :: 0 <= k < |calls'| ==> calls'[k].lat == w.calls[k].lat;
    if s.max != w.shared.max {
      assert calls'[i].lat == s.max;
    } else if s.max != 0 {
      var k :| 0 <= k < |w.calls| && w.calls[k].lat == w.shared.max;
      assert calls'[k].lat == s.max;
    }
  }

  lemma StartKeeps(w: World, ns: int)
    requires CountersAddUp(w) && MaxOk(w)
    ensures CountersAddUp(Next(w, Start(ns))) && MaxOk(Next(w, Start(ns)))
  {
    var c := Call(LatencyMs(ns), AddCount, 0, false);
    WeighStart(CountMeter, w.calls, c);
    WeighStart(SumMeter, w.calls, c);
    WeighStart(WinMeter, w.calls, c);
    forall b | 0 <= b < BUCKETS { WeighStart(BucketMeter(b), w.calls, c); }
    var calls' := w.calls + [c];
    assert forall k :: 0 <= k < |w.calls| ==> calls'[k] == w.calls[k];
  }

  lemma {:induction false} RunInvariant(actions: seq<Action>)
    ensures CountersAddUp(Run(actions)) && MaxOk(Run(actions))
  {
    if actions != [] {
      var w := Run(actions[..|actions| - 1]);
      RunInvariant(actions[..|actions| - 1]);
      match actions[|actions| - 1] {
        case Start(ns) => StartKeeps(w, ns);
        case Step(i) =>
          if i < |w.calls| {
            StepKeepsCounters(w, i);
            StepKeepsMax(w, i);
          }
      }
    }
  }

  // ----- the theorems -----

  /** Once no call is in flight, the counters are the exact fold over every latency, whatever
      the interleaving was: nothing is lost and nothing is counted twice. */
  lemma QuiescentIsExact(actions: seq<Action>)
    requires Quiescent(Run(actions))
    ensures Run(actions).shared == Fold(Latencies(Run(actions).calls))
  {
    var w := Run(actions);
    var lats := Latencies(w.calls);
    RunInvariant(actions);
    DoneWeights(w.calls);
    MaxIsAttained(lats);
    assert forall i :: 0 <= i < |lats| ==> lats[i] in lats;
    if w.shared.max != 0 {
      var i :| 0 <= i < |w.calls| && w.calls[i].lat == w.shared.max;
      assert lats[i] == w.shared.max;
    }
    if Max(lats) != 0 {
      var i :| 0 <= i < |lats| && lats[i] == Max(lats);
      assert CallOk(w.shared.max, Weigh(WinMeter, w.calls), w.calls[i]);
    }
    assert w.shared.buckets == Fold(lats).buckets;
  }

  lemma {:induction false} DoneWeights(calls: seq<Call>)
    requires forall i :: 0 <= i < |calls| ==> calls[i].pc.Done?
    ensures Weigh(CountMeter, calls) == |calls|
    ensures Weigh(SumMeter, calls) == Sum(Latencies(calls))
    ensures forall b :: 0 <= b < BUCKETS ==> Weigh(BucketMeter(b), calls) == CountAtMost(Latencies(calls), BOUNDS[b])
  {
    if calls != [] {
      var init := calls[..|calls| - 1];
      DoneWeights(init);
      assert Latencies(calls)[..|init|] == Latencies(init);
    }
  }

  /** The durations of the requests begun so far, in nanoseconds. */
  function Durations(actions: seq<Action>): seq<int> {
    if actions == [] then []
    else
      var a := actions[|actions| - 1];
      Durations(actions[..|actions| - 1]) + (if a.Start? then [a.ns] else [])
  }

  predicate WholeMs(ns: int, ms: nat) {
    if ns < 0 then ms == 0 else ms * 1_000_000 <= ns < (ms + 1) * 1_000_000
  }

  /** Whatever the interleaving, the latencies are the durations of the requests, in whole
      milliseconds; a clock that went back counts as none at all. */
  lemma {:induction false} LatenciesAreDurations(actions: seq<Action>)
    ensures |Run(actions).calls| == |Durations(actions)|
    ensures forall k :: 0 <= k < |Durations(actions)| ==> WholeMs(Durations(actions)[k], Run(actions).calls[k].lat)
  {
    if actions != [] {
      LatenciesAreDurations(actions[..|actions| - 1]);
      var a := actions[|actions| - 1];
      if a.Start? { WholeMsOf(a.ns); }
    }
  }

  lemma WholeMsOf(ns: int)
    ensures WholeMs(ns, LatencyMs(ns))
  {
  }

  /** How many durations are below a number of nanoseconds. */
  function CountBelow(durations: seq<int>, ns: int): nat {
    if durations == [] then 0
    else CountBelow(durations[..|durations| - 1], ns) + (if durations[|durations| - 1] < ns then 1 else 0)
  }

  lemma {:induction false} AtMostIsBelow(lats: seq<nat>, durations: seq<int>, bound: nat)
    requires |lats| == |durations| && forall k :: 0 <= k < |lats| ==> WholeMs(durations[k], lats[k])
    ensures CountAtMost(lats, bound) == CountBelow(durations, (bound + 1) * 1_000_000)
  {
    if lats != [] {
      var n := |lats| - 1;
      AtMostIsBelow(lats[..n], durations[..n], bound);
      assert WholeMs(durations[n], lats[n]);
    }
  }

  /** At rest the buckets count the requests that took less than 11 ms, 101 ms, 1001 ms and 10001 ms,
      since 10, 100, 1000 and 10000 whole milliseconds are within a bound. */
  lemma BucketsCountDurations(actions: seq<Action>)
    requires Quiescent(Run(actions)) && |Durations(actions)| < TWO_64
    ensures var b, ds := Run(actions).shared.buckets, Durations(actions);
            && b[0] == CountBelow(ds, 11_000_000) && b[1] == CountBelow(ds, 101_000_000)
            && b[2] == CountBelow(ds, 1_001_000_000) && b[3] == CountBelow(ds, 10_001_000_000)
  {
    QuiescentIsExact(actions);
    LatenciesAreDurations(actions);
    BucketCounts(actions, 0);
    BucketCounts(actions, 1);
    BucketCounts(actions, 2);
    BucketCounts(actions, 3);
  }

  lemma BucketCounts(actions: seq<Action>, b: nat)
    requires Quiescent(Run(actions)) && |Durations(actions)| < TWO_64 && b < BUCKETS
    ensures Run(actions).shared.buckets[b] == CountBelow(Durations(actions), (BOUNDS[b] + 1) * 1_000_000)
  {
    var lats := Latencies(Run(actions).calls);
    QuiescentIsExact(actions);
    LatenciesAreDurations(actions);
    AtMostIsBelow(lats, Durations(actions), BOUNDS[b]);
    BucketsNested(lats, BOUNDS[b], BOUNDS[b]);
    ModSmall(CountAtMost(lats, BOUNDS[b]), TWO_64);
  }

  /** In every reachable state the maximum is zero or a recorded latency, and no step lowers it. */
  lemma MaxIsSound(actions: seq<Action>, a: Action)
    ensures var w := Run(actions);
      && (w.shared.max == 0 || w.shared.max in Latencies(w.calls))
      && w.shared.max <= Next(w, a).shared.max
  {
    var w := Run(actions);
    RunInvariant(actions);
    var lats := Latencies(w.calls);
    if w.shared.max != 0 {
      var i :| 0 <= i < |w.calls| && w.calls[i].lat == w.shared.max;
      assert lats[i] == w.shared.max;
    }
    if a.Step? && a.call < |w.calls| {
      assert CallOk(w.shared.max, Weigh(WinMeter, w.calls), w.calls[a.call]);
    }
  }

  /** In every reachable state no bucket exceeds the request count. */
  lemma BucketsBelowCount(actions: seq<Action>)
    requires |Run(actions).calls| < TWO_64
    ensures forall b :: 0 <= b < BUCKETS ==> Run(actions).shared.buckets[b] <= Run(actions).shared.count
  {
    var w := Run(actions);
    RunInvariant(actions);
    forall b | 0 <= b < BUCKETS ensures w.shared.buckets[b] <= w.shared.count {
      WeighBounded(BucketMeter(b), CountMeter, w.calls);
      ModSmall(Weigh(BucketMeter(b), w.calls), TWO_64);
      ModSmall(Weigh(CountMeter, w.calls), TWO_64);
    }
  }

  lemma {:induction false} WeighBounded(small: Meter, large: Meter, calls: seq<Call>)
    requires small.BucketMeter? && large.CountMeter?
    ensures Weigh(small, calls) <= Weigh(large, calls) <= |calls|
  {
    if calls != [] { WeighBounded(small, large, calls[..|calls| - 1]); }
  }

  /** A compare-and-swap fails only because another call has strictly raised the maximum
      since the load. */
  lemma FailedSwapMeansProgress(actions: seq<Action>, i: nat)
    requires i < |Run(actions).calls| && Run(actions).calls[i].pc.Cas?
    ensures var w := Run(actions);
            var c, c' := w.calls[i], Next(w, Step(i)).calls[i];
            c'.fails > c.fails <==> w.shared.max > c.pc.cur
  {
    RunInvariant(actions);
    var w := Run(actions);
    assert CallOk(w.shared.max, Weigh(WinMeter, w.calls), w.calls[i]);
  }

  /** The retry loop is bounded: a call among n ever retries fewer than n times. */
  lemma RetriesBounded(actions: seq<Action>, i: nat)
    requires i < |Run(actions).calls|
    ensures Run(actions).calls[i].fails < |Run(actions).calls|
  {
    RunInvariant(actions);
    var w := Run(actions);
    assert CallOk(w.shared.max, Weigh(WinMeter, w.calls), w.calls[i]);
    WinsBounded(w.calls, i);
  }

  lemma {:induction false} WinsBounded(calls: seq<Call>, i: nat)
    requires i <= |calls|
    ensures Weigh(WinMeter, calls) + (if i < |calls| && !calls[i].won then 1 else 0) <= |calls|
  {
    if calls != [] { WinsBounded(calls[..|calls| - 1], if i < |calls| then i else |calls| - 1); }
  }

  // ----- comparing two counters call by call -----

  /** A meter to which a call contributes once or not at all. */
  predicate Unit(m: Meter) { m.CountMeter? || m.BucketMeter? }

  /** By these calls, call k has contributed. */
  predicate In(m: Meter, calls: seq<Call>, k: nat) { k < |calls| && Weight(m, calls[k]) > 0 }

  /** How many of the first n calls are in meter m by a, but not in meter l by b. */
  function Only(m: Meter, a: seq<Call>, l: Meter, b: seq<Call>, n: nat): nat {
    if n == 0 then 0 else Only(m, a, l, b, n - 1) + (if In(m, a, n - 1) && !In(l, b, n - 1) then 1 else 0)
  }

  function FirstCalls(calls: seq<Call>, n: nat): seq<Call> { if n <= |calls| then calls[..n] else calls }

  lemma WeighFirst(m: Meter, calls: seq<Call>, n: nat)
    ensures Weigh(m, FirstCalls(calls, n + 1)) == Weigh(m, FirstCalls(calls, n)) + (if n < |calls| then Weight(m, calls[n]) else 0)
  {
    if n < |calls| {
      assert calls[..n + 1][..n] == calls[..n];
    } else {
      assert FirstCalls(calls, n) == calls;
    }
  }

  lemma NumberFirst(m: Meter, calls: seq<Call>, n: nat)
    requires Unit(m)
    ensures Weigh(m, FirstCalls(calls, n + 1)) == Weigh(m, FirstCalls(calls, n)) + (if In(m, calls, n) then 1 else 0)
  {
    WeighFirst(m, calls, n);
  }

  lemma OnlyFirst(m: Meter, a: seq<Call>, l: Meter, b: seq<Call>, n: nat)
    ensures Only(m, a, l, b, n + 1) + Only(l, b, m, a, n) + (if In(l, b, n) then 1 else 0)
         == Only(m, a, l, b, n) + Only(l, b, m, a, n + 1) + (if In(m, a, n) then 1 else 0)
  {
  }

  predicate Balanced(m: Meter, a: seq<Call>, l: Meter, b: seq<Call>, n: nat) {
    Weigh(m, FirstCalls(a, n)) + Only(l, b, m, a, n) == Weigh(l, FirstCalls(b, n)) + Only(m, a, l, b, n)
  }

  lemma BalanceNext(m: Meter, a: seq<Call>, l: Meter, b: seq<Call>, n: nat)
    requires Unit(m) && Unit(l) && Balanced(m, a, l, b, n)
    ensures Balanced(m, a, l, b, n + 1)
  {
    NumberFirst(m, a, n);
    NumberFirst(l, b, n);
    OnlyFirst(m, a, l, b, n);
  }

  /** Two counters, possibly at different times, differ by the calls that only one of them has. */
  lemma {:induction false} Balance(m: Meter, a: seq<Call>, l: Meter, b: seq<Call>, n: nat)
    requires Unit(m) && Unit(l)
    ensures Balanced(m, a, l, b, n)
  {
    if n > 0 {
      Balance(m, a, l, b, n - 1);
      BalanceNext(m, a, l, b, n - 1);
    }
  }

  lemma UnitsDoNotWrap(m: Meter, actions: seq<Action>)
    requires Unit(m) && |Run(actions).calls| < TWO_64 && (m.BucketMeter? ==> m.b < BUCKETS)
    ensures Weigh(m, Run(actions).calls) == match m case BucketMeter(b) => Run(actions).shared.buckets[b] case _ => Run(actions).shared.count
  {
    var calls := Run(actions).calls;
    RunInvariant(actions);
    WeighBounded(if m.BucketMeter? then m else BucketMeter(0), CountMeter, calls);
    ModSmall(Weigh(m, calls), TWO_64);
  }

  /** Between two buckets of one reachable state: the calls in the smaller one and not in the larger
      are the fast ones that stand between the two in their bucket loop, and the calls in the larger
      one only are the slower ones that have got past it. The stored buckets dip exactly when the
      former outnumber the latter. */
  lemma BucketsDipExactlyWhen(actions: seq<Action>, i: nat, j: nat)
    requires i < j < BUCKETS && |Run(actions).calls| < TWO_64
    ensures var calls := Run(actions).calls;
            var between, beyond := Only(BucketMeter(i), calls, BucketMeter(j), calls, |calls|), Only(BucketMeter(j), calls, BucketMeter(i), calls, |calls|);
            && (Run(actions).shared.buckets[i] > Run(actions).shared.buckets[j] <==> between > beyond)
            && forall k: nat :: k < |calls| ==> var c := calls[k];
                 && (In(BucketMeter(i), calls, k) && !In(BucketMeter(j), calls, k) <==> c.lat <= BOUNDS[i] && c.pc.Bucket? && i < c.pc.i <= j)
                 && (In(BucketMeter(j), calls, k) && !In(BucketMeter(i), calls, k) <==>
                     BOUNDS[i] < c.lat <= BOUNDS[j] && (c.pc.Done? || (c.pc.Bucket? && c.pc.i > j)))
  {
    var calls := Run(actions).calls;
    Balance(BucketMeter(i), calls, BucketMeter(j), calls, |calls|);
    assert FirstCalls(calls, |calls|) == calls;
    UnitsDoNotWrap(BucketMeter(i), actions);
    UnitsDoNotWrap(BucketMeter(j), actions);
  }

  /** It happens: a 1 ms request
      halfway through its bucket loop is in the 10 ms bucket and not yet in the 100 ms one. */
  lemma InFlightBucketsMayDip()
    ensures var w := Run([Start(1_000_000), Step(0), Step(0), Step(0), Step(0), Step(0)]);
            w.shared.buckets[0] > w.shared.buckets[1]
  {
    var a := [Start(1_000_000), Step(0), Step(0), Step(0), Step(0), Step(0)];
    assert a[..5][..4] == a[..4] && a[..4][..3] == a[..3] && a[..3][..2] == a[..2] && a[..2][..1] == a[..1] && a[..1][..0] == [];
    assert Run(a[..1]) == World(Totals(0, 0, 0, [0, 0, 0, 0]), [Call(1, AddCount, 0, false)]);
    assert Run(a[..2]) == World(Totals(1, 0, 0, [0, 0, 0, 0]), [Call(1, AddSum, 0, false)]);
    assert Run(a[..3]) == World(Totals(1, 1, 0, [0, 0, 0, 0]), [Call(1, LoadMax, 0, false)]);
    assert Run(a[..4]) == World(Totals(1, 1, 0, [0, 0, 0, 0]), [Call(1, Cas(0), 0, false)]);
    assert Run(a[..5]) == World(Totals(1, 1, 1, [0, 0, 0, 0]), [Call(1, Bucket(0), 0, true)]);
  }
}
