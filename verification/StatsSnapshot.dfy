/** A snapshot taken while record calls are in flight: seven separate atomic loads
    (internal/httpapi/telemetry.go, snapshot). */
module StatsSnapshot {
  import opened Prelude
  import opened Arithmetic
  import opened RequestStats
  import opened StatsInterleaving

  /** What is published; the mean and the +Inf bucket come from sum and count. */
  datatype Published = Published(count: nat, sum: nat, mean: nat, buckets: seq<nat>, max: nat)

  /** The points of a run at which the loads happen, in program order: count, sum, each bucket,
      and the maximum last. */
  const LOADS := BUCKETS + 3

  predicate InOrder(actions: seq<Action>, at: seq<nat>) {
    && |at| == LOADS
    && (forall i :: 0 <= i < |at| ==> at[i] <= |actions|)
    && (forall i, j :: 0 <= i < j < |at| ==> at[i] <= at[j])
  }

  function Seen(actions: seq<Action>, p: nat): World
    requires p <= |actions|
  {
    Run(actions[..p])
  }

  function Racing(actions: seq<Action>, at: seq<nat>): Published
    requires InOrder(actions, at)
  {
    var count, sum := Seen(actions, at[0]).shared.count, Seen(actions, at[1]).shared.sum;
    Published(count, sum, if count > 0 then sum / count else 0,
              seq(BUCKETS, i requires 0 <= i < BUCKETS => Seen(actions, at[i + 2]).shared.buckets[i]),
              Seen(actions, at[LOADS - 1]).shared.max)
  }

  // ----- contributions only grow -----

  ghost predicate SameOrFurther(c: Call, c': Call) {
    && c.lat == c'.lat
    && (c.pc.Done? ==> c'.pc.Done?)
    && Weight(CountMeter, c) <= Weight(CountMeter, c')
    && Weight(SumMeter, c) <= Weight(SumMeter, c')
    && (forall b: nat :: Weight(BucketMeter(b), c) <= Weight(BucketMeter(b), c'))
  }

  ghost predicate Further(a: seq<Call>, b: seq<Call>) {
    |a| <= |b| && forall i :: 0 <= i < |a| ==> SameOrFurther(a[i], b[i])
  }

  lemma NextGoesFurther(w: World, a: Action)
    requires |w.shared.buckets| == BUCKETS
    ensures Further(w.calls, Next(w, a).calls)
  {
  }

  lemma {:induction false} RunGoesFurther(actions: seq<Action>, p: nat, q: nat)
    requires p <= q <= |actions|
    ensures Further(Seen(actions, p).calls, Seen(actions, q).calls)
    decreases q - p
  {
    if p < q {
      RunGoesFurther(actions, p, q - 1);
      assert actions[..q][..q - 1] == actions[..q - 1] && actions[..q][q - 1] == actions[q - 1];
      NextGoesFurther(Seen(actions, q - 1), actions[q - 1]);
    }
  }

  predicate Counted(m: Meter) { m.CountMeter? || m.SumMeter? || m.BucketMeter? }

  lemma {:induction false} WeighGrows(m: Meter, a: seq<Call>, b: seq<Call>)
    requires Counted(m) && Further(a, b)
    ensures Weigh(m, a) <= Weigh(m, b)
  {
    if b != [] {
      var n := |b| - 1;
      if |a| == |b| {
        WeighGrows(m, a[..n], b[..n]);
        assert SameOrFurther(a[n], b[n]);
      } else {
        WeighGrows(m, a, b[..n]);
      }
    }
  }

  // ----- between what is finished and what has begun -----

  /** What a finished call contributes. */
  function Whole(m: Meter, lat: nat): nat
    requires Counted(m)
  {
    match m
    case CountMeter => 1
    case SumMeter => lat
    case BucketMeter(b) => if b < BUCKETS && lat <= BOUNDS[b] then 1 else 0
  }

  function Total(m: Meter, lats: seq<nat>): nat
    requires Counted(m)
  {
    if lats == [] then 0 else Total(m, lats[..|lats| - 1]) + Whole(m, lats[|lats| - 1])
  }

  /** The latencies of the calls that have returned. */
  function FinishedLats(calls: seq<Call>): seq<nat> {
    if calls == [] then []
    else
      var c := calls[|calls| - 1];
      FinishedLats(calls[..|calls| - 1]) + (if c.pc.Done? then [c.lat] else [])
  }

  lemma TotalNext(m: Meter, lats: seq<nat>, lat: nat)
    requires Counted(m)
    ensures Total(m, lats + [lat]) == Total(m, lats) + Whole(m, lat)
  {
    assert (lats + [lat])[..|lats|] == lats;
  }

  lemma WeightBelowWhole(m: Meter, c: Call)
    requires Counted(m)
    ensures Weight(m, c) <= Whole(m, c.lat) && (c.pc.Done? ==> Weight(m, c) == Whole(m, c.lat))
  {
  }

  lemma {:induction false} WeighBetween(m: Meter, calls: seq<Call>)
    requires Counted(m)
    ensures Total(m, FinishedLats(calls)) <= Weigh(m, calls) <= Total(m, Latencies(calls))
  {
    if calls != [] {
      var init, c := calls[..|calls| - 1], calls[|calls| - 1];
      WeighBetween(m, init);
      WeightBelowWhole(m, c);
      TotalNext(m, FinishedLats(init), c.lat);
      TotalNext(m, Latencies(init), c.lat);
      assert FinishedLats(init) + [] == FinishedLats(init);
    }
  }

  lemma {:induction false} TotalGrows(m: Meter, s: seq<nat>, t: seq<nat>)
    requires Counted(m) && s <= t
    ensures Total(m, s) <= Total(m, t)
  {
    if |s| == |t| {
      assert s == t;
    } else {
      TotalGrows(m, s, t[..|t| - 1]);
    }
  }

  lemma LatenciesGrow(a: seq<Call>, b: seq<Call>)
    requires Further(a, b)
    ensures Latencies(a) <= Latencies(b)
  {
    assert forall i :: 0 <= i < |a| ==> SameOrFurther(a[i], b[i]);
  }

  /** A counter read between two points of a run lies between what had finished at the first and
      what had begun by the second. */
  lemma LoadIsBetween(m: Meter, actions: seq<Action>, first: nat, p: nat, last: nat)
    requires Counted(m) && first <= p <= last <= |actions|
    ensures Total(m, FinishedLats(Seen(actions, first).calls)) <= Weigh(m, Seen(actions, p).calls)
         <= Total(m, Latencies(Seen(actions, last).calls))
  {
    RunGoesFurther(actions, first, p);
    RunGoesFurther(actions, p, last);
    WeighBetween(m, Seen(actions, first).calls);
    WeighBetween(m, Seen(actions, p).calls);
    WeighGrows(m, Seen(actions, first).calls, Seen(actions, p).calls);
    LatenciesGrow(Seen(actions, p).calls, Seen(actions, last).calls);
    TotalGrows(m, Latencies(Seen(actions, p).calls), Latencies(Seen(actions, last).calls));
  }

  lemma {:induction false} TotalIsFold(lats: seq<nat>)
    ensures Total(CountMeter, lats) == |lats| && Total(SumMeter, lats) == Sum(lats)
    ensures forall b :: 0 <= b < BUCKETS ==> Total(BucketMeter(b), lats) == CountAtMost(lats, BOUNDS[b])
  {
    if lats != [] { TotalIsFold(lats[..|lats| - 1]); }
  }

  lemma MaxIsBetween(actions: seq<Action>, first: nat, p: nat)
    requires first <= p <= |actions|
    ensures Max(FinishedLats(Seen(actions, first).calls)) <= Seen(actions, p).shared.max <= Max(Latencies(Seen(actions, p).calls))
  {
    var w := Seen(actions, p);
    RunInvariant(actions[..p]);
    RunGoesFurther(actions, first, p);
    var done := FinishedLats(Seen(actions, first).calls);
    MaxIsAttained(done);
    MaxIsAttained(Latencies(w.calls));
    if Max(done) != 0 {
      var i := FinishedCall(Seen(actions, first).calls, Max(done));
      assert SameOrFurther(Seen(actions, first).calls[i], w.calls[i]);
      assert CallOk(w.shared.max, Weigh(WinMeter, w.calls), w.calls[i]);
    }
    if w.shared.max != 0 {
      var i :| 0 <= i < |w.calls| && w.calls[i].lat == w.shared.max;
      assert Latencies(w.calls)[i] in Latencies(w.calls);
    }
  }

  /** A finished latency is some finished call's. */
  lemma {:induction false} FinishedCall(calls: seq<Call>, lat: nat) returns (i: nat)
    requires lat in FinishedLats(calls)
    ensures i < |calls| && calls[i].pc.Done? && calls[i].lat == lat
  {
    var n := |calls| - 1;
    if calls[n].pc.Done? && calls[n].lat == lat {
      i := n;
    } else {
      i := FinishedCall(calls[..n], lat);
    }
  }

  // ----- the theorems -----

  /** None of the counters has wrapped around by the end of the run's first p steps. */
  predicate Unwrapped(actions: seq<Action>, p: nat)
    requires p <= |actions|
  {
    var lats := Latencies(Seen(actions, p).calls);
    |lats| < TWO_64 && Sum(lats) < TWO_64
  }

  function Loaded(m: Meter, s: Totals): nat
    requires Counted(m) && (m.BucketMeter? ==> m.b < |s.buckets|)
  {
    match m
    case CountMeter => s.count
    case SumMeter => s.sum
    case BucketMeter(b) => s.buckets[b]
  }

  lemma CounterIsWeight(m: Meter, actions: seq<Action>, p: nat, last: nat)
    requires Counted(m) && p <= last <= |actions| && Unwrapped(actions, last)
    requires m.BucketMeter? ==> m.b < BUCKETS
    ensures Weigh(m, Seen(actions, p).calls) < TWO_64
    ensures Weigh(m, Seen(actions, p).calls) == Loaded(m, Seen(actions, p).shared)
  {
    var lats := Latencies(Seen(actions, last).calls);
    LoadIsBetween(m, actions, p, p, last);
    TotalIsFold(lats);
    if m.BucketMeter? { BucketsNested(lats, BOUNDS[m.b], BOUNDS[m.b]); }
    RunInvariant(actions[..p]);
    ModSmall(Weigh(m, Seen(actions, p).calls), TWO_64);
  }

  /** Whatever races with it, every figure of a snapshot lies between the exact figure for the
      requests that had returned when it began and the exact figure for those that had begun when
      it ended. */
  lemma SnapshotIsBetween(actions: seq<Action>, at: seq<nat>)
    requires InOrder(actions, at) && Unwrapped(actions, at[LOADS - 1])
    ensures var done, begun := FinishedLats(Seen(actions, at[0]).calls), Latencies(Seen(actions, at[LOADS - 1]).calls);
            var s := Racing(actions, at);
            && |done| <= s.count <= |begun|
            && Sum(done) <= s.sum <= Sum(begun)
            && Max(done) <= s.max <= Max(begun)
            && forall i :: 0 <= i < BUCKETS ==> CountAtMost(done, BOUNDS[i]) <= s.buckets[i] <= CountAtMost(begun, BOUNDS[i])
  {
    var first, last := at[0], at[LOADS - 1];
    TotalIsFold(FinishedLats(Seen(actions, first).calls));
    TotalIsFold(Latencies(Seen(actions, last).calls));
    FigureIsBetween(CountMeter, actions, first, first, last);
    FigureIsBetween(SumMeter, actions, first, at[1], last);
    MaxIsBetween(actions, first, last);
    forall i: nat | i < BUCKETS { BucketIsBetween(actions, at, i); }
  }

  lemma FigureIsBetween(m: Meter, actions: seq<Action>, first: nat, p: nat, last: nat)
    requires Counted(m) && first <= p <= last <= |actions| && Unwrapped(actions, last)
    requires m.BucketMeter? ==> m.b < BUCKETS
    ensures Total(m, FinishedLats(Seen(actions, first).calls)) <= Loaded(m, Seen(actions, p).shared)
         <= Total(m, Latencies(Seen(actions, last).calls))
  {
    LoadIsBetween(m, actions, first, p, last);
    CounterIsWeight(m, actions, p, last);
  }

  lemma BucketIsBetween(actions: seq<Action>, at: seq<nat>, i: nat)
    requires InOrder(actions, at) && Unwrapped(actions, at[LOADS - 1]) && i < BUCKETS
    ensures var done, begun := FinishedLats(Seen(actions, at[0]).calls), Latencies(Seen(actions, at[LOADS - 1]).calls);
            CountAtMost(done, BOUNDS[i]) <= Racing(actions, at).buckets[i] <= CountAtMost(begun, BOUNDS[i])
  {
    RacingBucket(actions, at, i);
    BucketBetween(actions, at[0], at[i + 2], at[LOADS - 1], i);
  }

  lemma RacingBucket(actions: seq<Action>, at: seq<nat>, i: nat)
    requires InOrder(actions, at) && i < BUCKETS
    ensures Racing(actions, at).buckets[i] == Seen(actions, at[i + 2]).shared.buckets[i]
    ensures at[0] <= at[i + 2] <= at[LOADS - 1]
  {
  }

  lemma BucketBetween(actions: seq<Action>, first: nat, p: nat, last: nat, b: nat)
    requires first <= p <= last <= |actions| && Unwrapped(actions, last) && b < BUCKETS
    ensures CountAtMost(FinishedLats(Seen(actions, first).calls), BOUNDS[b]) <= Seen(actions, p).shared.buckets[b]
         <= CountAtMost(Latencies(Seen(actions, last).calls), BOUNDS[b])
  {
    TotalIsFold(FinishedLats(Seen(actions, first).calls));
    TotalIsFold(Latencies(Seen(actions, last).calls));
    FigureIsBetween(BucketMeter(b), actions, first, p, last);
  }
}
