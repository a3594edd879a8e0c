/** The request-latency accumulator as one goroutine uses it (internal/httpapi/telemetry.go). */
module RequestStats {
  import opened Prelude
  import opened Arithmetic

  const BUCKETS := 4
  const BOUNDS: seq<nat> := [10, 100, 1000, 10000]

  /** Whole milliseconds of a duration in nanoseconds, a negative one clamped to zero. */
  function LatencyMs(ns: int): nat { if ns < 0 then 0 else ns / 1_000_000 }

  // ----- what the accumulator should hold after a set of requests -----

  function Sum(lats: seq<nat>): nat {
    if lats == [] then 0 else Sum(lats[..|lats| - 1]) + lats[|lats| - 1]
  }

  function Max(lats: seq<nat>): nat {
    if lats == [] then 0
    else
      var m := Max(lats[..|lats| - 1]);
      if lats[|lats| - 1] > m then lats[|lats| - 1] else m
  }

  function CountAtMost(lats: seq<nat>, bound: nat): nat {
    if lats == [] then 0
    else CountAtMost(lats[..|lats| - 1], bound) + (if lats[|lats| - 1] <= bound then 1 else 0)
  }

  datatype Totals = Totals(count: nat, sum: nat, max: nat, buckets: seq<nat>)

  /** The exact fold over all latencies; the counters are uint64. */
  function Fold(lats: seq<nat>): Totals {
    Totals(|lats| % TWO_64, Sum(lats) % TWO_64, Max(lats),
           seq(BUCKETS, i requires 0 <= i < BUCKETS => CountAtMost(lats, BOUNDS[i]) % TWO_64))
  }

  function AddOne(n: nat): nat { (n + 1) % TWO_64 }

  // ----- the object, used by one goroutine at a time -----

  class Stats {
    var count: nat
    var sum: nat
    var max: nat
    const buckets: array<nat>

    /** Every latency recorded so far. */
    ghost var lats: seq<nat>

    ghost predicate Valid()
      reads this, buckets
    {
      buckets.Length == BUCKETS && Totals(count, sum, max, buckets[..]) == Fold(lats)
    }

    constructor ()
      ensures Valid() && fresh(buckets) && lats == []
    {
      count, sum, max, lats := 0, 0, 0, [];
      buckets := new nat[BUCKETS](_ => 0);
      new;
      assert buckets[..] == [0, 0, 0, 0] == Fold([]).buckets;
    }

    /** One completed request folds exactly one more latency into the totals. */
    method Record(ns: int)
      requires Valid()
      modifies this, buckets
      ensures Valid()
      ensures lats == old(lats) + [LatencyMs(ns)]
    {
      var lat := LatencyMs(ns);
      ghost var all := lats + [lat];
      FoldStep(lats, lat);
      assert forall k :: 0 <= k < BUCKETS ==> buckets[k] == buckets[..][k];
      count := AddOne(count);
      sum := (sum + lat) % TWO_64;
      var done := false;
      while !done
        invariant max == if done && lat > old(max) then lat else old(max)
        modifies this`max
        decreases !done
      {
        var cur := max;
        if lat <= cur {
          done := true;
        } else {
          done := CompareAndSwapMax(cur, lat);
        }
      }
      BumpBuckets(lat);
      lats := all;
      assert buckets[..] == Fold(all).buckets;
    }

    method CompareAndSwapMax(cur: nat, next: nat) returns (ok: bool)
      modifies this`max
      ensures ok == (old(max) == cur)
      ensures max == if ok then next else old(max)
    {
      ok := max == cur;
      if ok { max := next; }
    }

    /** Increments every bucket whose bound is at least the latency. */
    method BumpBuckets(lat: nat)
      requires buckets.Length == BUCKETS
      modifies buckets
      ensures forall k :: 0 <= k < BUCKETS ==>
        buckets[k] == if lat <= BOUNDS[k] then AddOne(old(buckets[k])) else old(buckets[k])
    {
      for i := 0 to BUCKETS
        invariant forall k :: 0 <= k < BUCKETS ==>
          buckets[k] == if k < i && lat <= BOUNDS[k] then AddOne(old(buckets[k])) else old(buckets[k])
      {
        if lat <= BOUNDS[i] {
          buckets[i] := AddOne(buckets[i]);
        }
      }
    }

    /** Mean, +Inf bucket and le buckets of what is held; a zero bound stands for +Inf. */
    method Snapshot() returns (c: nat, sumMs: nat, mean: nat, histogram: seq<(nat, nat)>, maxMs: nat)
      requires Valid()
      ensures c == Fold(lats).count && sumMs == Fold(lats).sum && maxMs == Fold(lats).max
      ensures mean == if c > 0 then sumMs / c else 0
      ensures |histogram| == BUCKETS + 1 && histogram[BUCKETS] == (0, c)
      ensures forall i :: 0 <= i < BUCKETS ==> histogram[i] == (BOUNDS[i], Fold(lats).buckets[i])
    {
      c := count;
      sumMs := sum;
      mean := 0;
      if c > 0 { mean := sumMs / c; }
      histogram := [];
      for i := 0 to BUCKETS
        invariant |histogram| == i
        invariant forall k :: 0 <= k < i ==> histogram[k] == (BOUNDS[k], buckets[k])
      {
        histogram := histogram + [(BOUNDS[i], buckets[i])];
      }
      histogram := histogram + [(0, c)];
      maxMs := max;
      assert forall i :: 0 <= i < BUCKETS ==> buckets[..][i] == buckets[i];
    }
  }

  lemma FoldStep(lats: seq<nat>, lat: nat)
    ensures var all := lats + [lat];
      && Fold(all).count == AddOne(Fold(lats).count)
      && Fold(all).sum == (Fold(lats).sum + lat) % TWO_64
      && Fold(all).max == (if lat > Fold(lats).max then lat else Fold(lats).max)
      && forall b :: 0 <= b < BUCKETS ==>
           CountAtMost(all, BOUNDS[b]) % TWO_64
             == (if lat <= BOUNDS[b] then AddOne(CountAtMost(lats, BOUNDS[b]) % TWO_64) else CountAtMost(lats, BOUNDS[b]) % TWO_64)
  {
    var all := lats + [lat];
    assert all[..|lats|] == lats;
    ModAdd(|lats|, 1, TWO_64);
    ModAdd(Sum(lats), lat, TWO_64);
    forall b | 0 <= b < BUCKETS
      ensures CountAtMost(all, BOUNDS[b]) % TWO_64
           == (if lat <= BOUNDS[b] then AddOne(CountAtMost(lats, BOUNDS[b]) % TWO_64) else CountAtMost(lats, BOUNDS[b]) % TWO_64)
    {
      ModAdd(CountAtMost(lats, BOUNDS[b]), 1, TWO_64);
    }
  }

  // ----- shape of the totals -----

  lemma {:induction false} SumBounded(lats: seq<nat>)
    ensures Sum(lats) <= Max(lats) * |lats|
  {
    if lats != [] {
      var init := lats[..|lats| - 1];
      SumBounded(init);
      MulMonotone(Max(init), Max(lats), |init|);
      MulDistributes(|init|, 1, Max(lats));
    }
  }

  lemma {:induction false} MaxIsAttained(lats: seq<nat>)
    ensures forall l :: l in lats ==> l <= Max(lats)
    ensures Max(lats) == 0 || Max(lats) in lats
  {
    if lats != [] {
      MaxIsAttained(lats[..|lats| - 1]);
      assert lats == lats[..|lats| - 1] + [lats[|lats| - 1]];
    }
  }

  lemma {:induction false} BucketsNested(lats: seq<nat>, small: nat, large: nat)
    requires small <= large
    ensures CountAtMost(lats, small) <= CountAtMost(lats, large) <= |lats|
  {
    if lats != [] { BucketsNested(lats[..|lats| - 1], small, large); }
  }

  lemma FoldedBuckets(lats: seq<nat>, i: nat, j: nat)
    requires |lats| < TWO_64 && i <= j < BUCKETS
    ensures var t := Fold(lats); t.buckets[i] <= t.buckets[j] <= t.count
  {
    BucketsNested(lats, BOUNDS[i], BOUNDS[j]);
    ModSmall(CountAtMost(lats, BOUNDS[i]), TWO_64);
    ModSmall(CountAtMost(lats, BOUNDS[j]), TWO_64);
    ModSmall(|lats|, TWO_64);
  }

  lemma FoldedMean(lats: seq<nat>)
    requires 0 < |lats| < TWO_64
    ensures var t := Fold(lats); t.sum / t.count <= t.max
  {
    SumBounded(lats);
    ModSmall(|lats|, TWO_64);
    DivBounded(Sum(lats) % TWO_64, |lats|, Max(lats));
  }

  /** The published histogram is cumulative and the mean never exceeds the maximum,
      for any number of requests that a uint64 can count. */
  lemma TotalsAreConsistent(lats: seq<nat>)
    requires |lats| < TWO_64
    ensures var t := Fold(lats);
      && (forall i :: 0 <= i < BUCKETS - 1 ==> t.buckets[i] <= t.buckets[i + 1])
      && (forall i :: 0 <= i < BUCKETS ==> t.buckets[i] <= t.count)
      && (t.count > 0 ==> t.sum / t.count <= t.max)
  {
    var t := Fold(lats);
    forall i | 0 <= i < BUCKETS - 1 ensures t.buckets[i] <= t.buckets[i + 1] {
      FoldedBuckets(lats, i, i + 1);
    }
    forall i | 0 <= i < BUCKETS ensures t.buckets[i] <= t.count {
      FoldedBuckets(lats, i, i);
    }
    if t.count > 0 { FoldedMean(lats); }
  }
}
