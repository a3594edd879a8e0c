/** Exactly when the figures of a racing snapshot disagree with each other
    (internal/httpapi/telemetry.go, snapshot). */
module StatsDisagreement {
  import opened Prelude
  import opened Arithmetic
  import opened RequestStats
  import opened StatsInterleaving
  import opened StatsSnapshot

  /** Two loads differ by the calls that only one of them has seen. */
  lemma LoadsDiffer(actions: seq<Action>, m: Meter, p: nat, l: Meter, q: nat)
    requires Unit(m) && Unit(l) && (m.BucketMeter? ==> m.b < BUCKETS) && (l.BucketMeter? ==> l.b < BUCKETS)
    requires p <= q <= |actions| && |Seen(actions, q).calls| < TWO_64
    ensures var a, b := Seen(actions, p).calls, Seen(actions, q).calls;
            Loaded(m, Seen(actions, p).shared) + Only(l, b, m, a, |b|) == Loaded(l, Seen(actions, q).shared) + Only(m, a, l, b, |b|)
  {
    var a, b := Seen(actions, p).calls, Seen(actions, q).calls;
    RunGoesFurther(actions, p, q);
    Balance(m, a, l, b, |b|);
    assert FirstCalls(a, |b|) == a && FirstCalls(b, |b|) == b;
    UnitsDoNotWrap(m, actions[..p]);
    UnitsDoNotWrap(l, actions[..q]);
  }

  // ----- a bucket above the count -----

  /** The requests in bucket i when it is loaded that had not been counted when the count was. */
  function Late(actions: seq<Action>, at: seq<nat>, i: nat): nat
    requires InOrder(actions, at) && i < BUCKETS
  {
    var a, b := Seen(actions, at[0]).calls, Seen(actions, at[i + 2]).calls;
    Only(BucketMeter(i), b, CountMeter, a, |b|)
  }

  /** The requests counted when the count was loaded that are not in bucket i when it is. */
  function Missing(actions: seq<Action>, at: seq<nat>, i: nat): nat
    requires InOrder(actions, at) && i < BUCKETS
  {
    var a, b := Seen(actions, at[0]).calls, Seen(actions, at[i + 2]).calls;
    Only(CountMeter, a, BucketMeter(i), b, |b|)
  }

  /** A published bucket exceeds the published count, which is the +Inf bucket, exactly when the
      late requests in it outnumber the counted ones missing from it. */
  lemma BucketAboveCountExactlyWhen(actions: seq<Action>, at: seq<nat>, i: nat)
    requires InOrder(actions, at) && i < BUCKETS && |Seen(actions, at[i + 2]).calls| < TWO_64
    ensures var s := Racing(actions, at);
            && s.buckets[i] + Missing(actions, at, i) == s.count + Late(actions, at, i)
            && (s.buckets[i] > s.count <==> Late(actions, at, i) > Missing(actions, at, i))
  {
    RacingBucket(actions, at, i);
    LoadsDiffer(actions, CountMeter, at[0], BucketMeter(i), at[i + 2]);
  }

  /** Being in a bucket is being counted. */
  lemma {:induction false} LateAreCounted(i: nat, a: seq<Call>, b: seq<Call>, n: nat)
    requires Further(a, b)
    ensures Only(BucketMeter(i), b, CountMeter, a, n) <= Only(CountMeter, b, CountMeter, a, n)
    ensures Only(CountMeter, a, CountMeter, b, n) == 0
  {
    if n > 0 {
      LateAreCounted(i, a, b, n - 1);
      if n - 1 < |a| { assert SameOrFurther(a[n - 1], b[n - 1]); }
    }
  }

  /** So the excess is no more than the requests counted after the count was loaded. */
  lemma BucketExcessIsLateRequests(actions: seq<Action>, at: seq<nat>, i: nat)
    requires InOrder(actions, at) && i < BUCKETS && |Seen(actions, at[i + 2]).calls| < TWO_64
    ensures var s, later := Racing(actions, at), Seen(actions, at[i + 2]).shared.count;
            s.count + Late(actions, at, i) <= later && s.buckets[i] <= s.count + Late(actions, at, i)
  {
    var a, b := Seen(actions, at[0]).calls, Seen(actions, at[i + 2]).calls;
    BucketAboveCountExactlyWhen(actions, at, i);
    RacingBucket(actions, at, i);
    RunGoesFurther(actions, at[0], at[i + 2]);
    LateAreCounted(i, a, b, |b|);
    LoadsDiffer(actions, CountMeter, at[0], CountMeter, at[i + 2]);
  }

  // ----- a bucket above a later one -----

  /** The published histogram dips between buckets i and j exactly when the requests in the first
      at its load that are not in the second at its load outnumber those the other way round. */
  lemma HistogramDipsExactlyWhen(actions: seq<Action>, at: seq<nat>, i: nat, j: nat)
    requires InOrder(actions, at) && i < j < BUCKETS && |Seen(actions, at[j + 2]).calls| < TWO_64
    ensures var s, a, b := Racing(actions, at), Seen(actions, at[i + 2]).calls, Seen(actions, at[j + 2]).calls;
            s.buckets[i] > s.buckets[j] <==>
            Only(BucketMeter(i), a, BucketMeter(j), b, |b|) > Only(BucketMeter(j), b, BucketMeter(i), a, |b|)
  {
    RacingBucket(actions, at, i);
    RacingBucket(actions, at, j);
    assert at[i + 2] <= at[j + 2];
    LoadsDiffer(actions, BucketMeter(i), at[i + 2], BucketMeter(j), at[j + 2]);
  }

  // ----- a mean above the maximum -----

  /** What request k brings to the sum. */
  function Brings(b: seq<Call>, k: nat): nat { if k < |b| then Weight(SumMeter, b[k]) else 0 }

  /** What it may bring for being counted: the mean exceeds max once the sum is max + 1 a request. */
  function Allowed(a: seq<Call>, max: nat, k: nat): nat { if In(CountMeter, a, k) then max + 1 else 0 }

  function Less(x: nat, y: nat): nat { if x < y then y - x else 0 }

  /** By how much the first n requests bring more than they may. */
  function Above(a: seq<Call>, b: seq<Call>, max: nat, n: nat): nat {
    if n == 0 then 0 else Above(a, b, max, n - 1) + Less(Allowed(a, max, n - 1), Brings(b, n - 1))
  }

  /** By how much they bring less. */
  function Below(a: seq<Call>, b: seq<Call>, max: nat, n: nat): nat {
    if n == 0 then 0 else Below(a, b, max, n - 1) + Less(Brings(b, n - 1), Allowed(a, max, n - 1))
  }

  lemma SumFirst(a: seq<Call>, b: seq<Call>, max: nat, n: nat)
    ensures Weigh(SumMeter, FirstCalls(b, n + 1)) == Weigh(SumMeter, FirstCalls(b, n)) + Brings(b, n)
    ensures Weigh(CountMeter, FirstCalls(a, n + 1)) * (max + 1) == Weigh(CountMeter, FirstCalls(a, n)) * (max + 1) + Allowed(a, max, n)
  {
    WeighFirst(SumMeter, b, n);
    NumberFirst(CountMeter, a, n);
    MulDistributes(Weigh(CountMeter, FirstCalls(a, n)), if In(CountMeter, a, n) then 1 else 0, max + 1);
  }

  lemma {:induction false} SumBalance(a: seq<Call>, b: seq<Call>, max: nat, n: nat)
    ensures Weigh(SumMeter, FirstCalls(b, n)) + Below(a, b, max, n)
         == Weigh(CountMeter, FirstCalls(a, n)) * (max + 1) + Above(a, b, max, n)
  {
    if n > 0 {
      SumBalance(a, b, max, n - 1);
      SumFirst(a, b, max, n - 1);
    }
  }

  lemma MeanAbove(sum: nat, count: nat, max: nat)
    requires count > 0
    ensures sum / count > max <==> sum >= count * (max + 1)
  {
    if sum >= count * (max + 1) {
      if sum / count <= max { MulMonotone(sum / count, max, count); }
    } else if sum / count > max {
      MulMonotone(max + 1, sum / count, count);
    }
  }

  /** A request that has passed its maximum loop is no slower than the maximum. */
  lemma PassedIsBelow(actions: seq<Action>, p: nat, q: nat, k: nat)
    requires p <= q <= |actions| && k < |Seen(actions, p).calls|
    ensures var b, w := Seen(actions, p).calls, Seen(actions, q);
            k < |w.calls| && w.calls[k].lat == b[k].lat && (PastMax(w.calls[k].pc) ==> b[k].lat <= w.shared.max)
  {
    RunGoesFurther(actions, p, q);
    RunInvariant(actions[..q]);
    var w := Seen(actions, q);
    assert SameOrFurther(Seen(actions, p).calls[k], w.calls[k]);
    assert CallOk(w.shared.max, Weigh(WinMeter, w.calls), w.calls[k]);
  }

  /** A request that brings more than it may was counted too late for the count, or had not passed
      its maximum loop when the maximum was loaded. */
  lemma AboveIsUnsettled(actions: seq<Action>, at: seq<nat>, k: nat)
    requires InOrder(actions, at)
    requires Brings(Seen(actions, at[1]).calls, k) > Allowed(Seen(actions, at[0]).calls, Racing(actions, at).max, k)
    ensures var last := Seen(actions, at[LOADS - 1]).calls;
            k < |last| && (!In(CountMeter, Seen(actions, at[0]).calls, k) || !PastMax(last[k].pc))
  {
    PassedIsBelow(actions, at[1], at[LOADS - 1], k);
  }

  lemma SnapshotCounts(actions: seq<Action>, at: seq<nat>)
    requires InOrder(actions, at) && Unwrapped(actions, at[LOADS - 1])
    ensures Racing(actions, at).count == Weigh(CountMeter, Seen(actions, at[0]).calls)
    ensures Racing(actions, at).sum == Weigh(SumMeter, Seen(actions, at[1]).calls)
  {
    CounterIsWeight(CountMeter, actions, at[0], at[LOADS - 1]);
    CounterIsWeight(SumMeter, actions, at[1], at[LOADS - 1]);
  }

  lemma CallsBalance(actions: seq<Action>, p: nat, q: nat, max: nat)
    requires p <= q <= |actions|
    ensures var a, b := Seen(actions, p).calls, Seen(actions, q).calls;
            && FirstCalls(a, |b|) == a
            && Weigh(SumMeter, b) + Below(a, b, max, |b|) == Weigh(CountMeter, a) * (max + 1) + Above(a, b, max, |b|)
  {
    var a, b := Seen(actions, p).calls, Seen(actions, q).calls;
    RunGoesFurther(actions, p, q);
    SumBalance(a, b, max, |b|);
    assert FirstCalls(a, |b|) == a && FirstCalls(b, |b|) == b;
  }

  lemma SnapshotBalance(actions: seq<Action>, at: seq<nat>)
    requires InOrder(actions, at) && Unwrapped(actions, at[LOADS - 1])
    ensures var s, a, b := Racing(actions, at), Seen(actions, at[0]).calls, Seen(actions, at[1]).calls;
            && s.count == Weigh(CountMeter, a) && FirstCalls(a, |b|) == a
            && s.sum + Below(a, b, s.max, |b|) == s.count * (s.max + 1) + Above(a, b, s.max, |b|)
  {
    SnapshotCounts(actions, at);
    CallsBalance(actions, at[0], at[1], Racing(actions, at).max);
  }

  lemma MeanOfSnapshot(actions: seq<Action>, at: seq<nat>)
    requires InOrder(actions, at)
    ensures var s := Racing(actions, at);
            s.mean > s.max <==> s.count > 0 && s.sum >= s.count * (s.max + 1)
  {
    var s := Racing(actions, at);
    if s.count > 0 { MeanAbove(s.sum, s.count, s.max); }
  }

  /** The mean of a racing snapshot exceeds its maximum exactly when something was counted and what
      the summed requests bring above max + 1 each makes up for what the counted ones fall short of it. */
  lemma MeanAboveMaxExactlyWhen(actions: seq<Action>, at: seq<nat>)
    requires InOrder(actions, at) && Unwrapped(actions, at[LOADS - 1])
    ensures var s, a, b := Racing(actions, at), Seen(actions, at[0]).calls, Seen(actions, at[1]).calls;
            s.mean > s.max <==> s.count > 0 && Above(a, b, s.max, |b|) >= Below(a, b, s.max, |b|)
  {
    SnapshotBalance(actions, at);
    MeanOfSnapshot(actions, at);
  }

  /** Every request that was summed had been counted in time and has passed its maximum loop. */
  predicate Settled(actions: seq<Action>, at: seq<nat>)
    requires InOrder(actions, at)
  {
    var a, b, last := Seen(actions, at[0]).calls, Seen(actions, at[1]).calls, Seen(actions, at[LOADS - 1]).calls;
    forall k: nat :: k < |b| && In(SumMeter, b, k) ==> In(CountMeter, a, k) && k < |last| && PastMax(last[k].pc)
  }

  lemma {:induction false} NothingAbove(a: seq<Call>, b: seq<Call>, max: nat, n: nat)
    requires forall k: nat :: k < n ==> Brings(b, k) <= (if In(CountMeter, a, k) then max else 0)
    ensures Above(a, b, max, n) == 0 && Below(a, b, max, n) >= Weigh(CountMeter, FirstCalls(a, n))
  {
    if n > 0 {
      NothingAbove(a, b, max, n - 1);
      WeighFirst(CountMeter, a, n - 1);
    }
  }

  /** So a mean above the maximum takes a request that was summed and either was counted too late or
      had not passed its maximum loop. */
  lemma SettledMeanBelowMax(actions: seq<Action>, at: seq<nat>)
    requires InOrder(actions, at) && Unwrapped(actions, at[LOADS - 1]) && Settled(actions, at)
    ensures Racing(actions, at).mean <= Racing(actions, at).max
  {
    var s, a, b := Racing(actions, at), Seen(actions, at[0]).calls, Seen(actions, at[1]).calls;
    MeanAboveMaxExactlyWhen(actions, at);
    forall k: nat | k < |b| ensures Brings(b, k) <= if In(CountMeter, a, k) then s.max else 0 {
      if In(SumMeter, b, k) { PassedIsBelow(actions, at[1], at[LOADS - 1], k); }
    }
    NothingAbove(a, b, s.max, |b|);
    SnapshotBalance(actions, at);
  }

  // ----- it happens -----

  /** A bucket above the count: a request that runs between the load of the count and that of its
      bucket. A mean above the maximum: a request that has been counted and summed but has not
      raised the maximum yet. */
  lemma RacingSnapshotMayDisagree()
    ensures var late := [Start(1_000_000), Step(0), Step(0), Step(0), Step(0), Step(0)];
            var s := Racing(late, [0, 6, 6, 6, 6, 6, 6]);
            s.buckets[0] > s.count
    ensures var early := [Start(5_000_000), Step(0), Step(0)];
            var s := Racing(early, [3, 3, 3, 3, 3, 3, 3]);
            s.mean > s.max
  {
    var late := [Start(1_000_000), Step(0), Step(0), Step(0), Step(0), Step(0)];
    assert late[..6] == late && late[..0] == [];
    InFlightBucketsMayDip();
    assert Seen(late, 0) == ZERO;
    var early := [Start(5_000_000), Step(0), Step(0)];
    assert early[..3] == early && early[..2][..1] == early[..1] && early[..1][..0] == [];
    assert Run(early[..1]) == World(Totals(0, 0, 0, [0, 0, 0, 0]), [Call(5, AddCount, 0, false)]);
    assert Run(early[..2]) == World(Totals(1, 0, 0, [0, 0, 0, 0]), [Call(5, AddSum, 0, false)]);
    assert Run(early) == World(Totals(1, 5, 0, [0, 0, 0, 0]), [Call(5, LoadMax, 0, false)]);
  }
}
