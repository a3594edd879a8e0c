/** The bounded drop-oldest ring of recent log records (cmd/agentgpu/ringlog.go). */
module LogRing {
  import opened Prelude
  import opened Arithmetic

  lemma SuffixNext<T>(log: seq<T>, cap: nat, i: nat)
    requires i < cap <= |log|
    ensures log[|log| - cap..][..i + 1] == log[|log| - cap..][..i] + [log[|log| - cap + i]]
  {
  }

  class Ring<T(0)> {
    const cap: nat
    const buf: array<T>
    var next: nat
    var full: bool
    var count: nat

    /** Every record ever appended, oldest first. */
    ghost var log: seq<T>

    /** How many times the write index has come back to 0. */
    ghost var laps: nat

    /** The newest lap fills buf[..next]; what is left of the one before fills buf[next..]. */
    ghost predicate Valid()
      reads this, buf
    {
      && buf.Length == cap
      && count == |log| % TWO_64
      && (cap == 0 ==> log == [] && next == 0 && !full && laps == 0)
      && (cap > 0 ==>
          && next < cap
          && |log| == laps * cap + next
          && (full <==> laps > 0)
          && (full ==> cap <= |log|)
          && (!full ==> |log| == next)
          && (forall i :: 0 <= i < next ==> buf[i] == log[|log| - next + i])
          && (full ==> forall i :: next <= i < cap ==> buf[i] == log[|log| - next - cap + i]))
    }

    constructor (capacity: int)
      ensures Valid() && fresh(buf)
      ensures cap == if capacity <= 0 then 0 else capacity
      ensures log == []
    {
      if capacity <= 0 {
        cap := 0;
        buf := new T[0];
      } else {
        cap := capacity;
        buf := new T[capacity];
      }
      next, full, count, log, laps := 0, false, 0, [], 0;
    }

    /** Adds a record, overwriting the oldest one when the ring is full. A disabled ring drops it. */
    method Append(rec: T)
      requires Valid()
      modifies this, buf
      ensures Valid()
      ensures log == if cap == 0 then old(log) else old(log) + [rec]
    {
      if cap == 0 { return; }
      buf[next] := rec;
      log := log + [rec];
      if next + 1 == cap {
        MulDistributes(laps, 1, cap);
        DivModUnique(next + 1, cap, 1, 0);
        laps := laps + 1;
      } else {
        ModSmall(next + 1, cap);
      }
      next := (next + 1) % cap;
      if next == 0 {
        full := true;
      }
      ModAdd(|old(log)|, 1, TWO_64);
      count := (count + 1) % TWO_64;
    }

    /** The buffered records are the newest min(count, cap) of all those appended, oldest
        first, and the count is the one that belongs to them. */
    method SnapshotCount() returns (out: seq<T>, total: nat)
      requires Valid()
      ensures out == Suffix(log, cap)
      ensures total == |log| % TWO_64
    {
      if cap == 0 { return [], 0; }
      out := SnapshotLocked();
      total := count;
    }

    method Snapshot() returns (out: seq<T>)
      requires Valid()
      ensures out == Suffix(log, cap)
    {
      if cap == 0 { return []; }
      out := SnapshotLocked();
    }

    /** In a full ring the record i places after the write index is the i-th oldest. */
    lemma OldestFirst(i: nat)
      requires Valid() && full && i < cap
      ensures (next + i) % cap < cap
      ensures buf[(next + i) % cap] == log[|log| - cap + i]
    {
      if next + i < cap {
        ModSmall(next + i, cap);
      } else {
        DivModUnique(next + i, cap, 1, next + i - cap);
      }
    }

    method SnapshotLocked() returns (out: seq<T>)
      requires Valid() && cap > 0
      ensures out == Suffix(log, cap)
    {
      var n := next;
      if full {
        out := [];
        var i := 0;
        while i < cap
          invariant 0 <= i <= cap
          invariant out == log[|log| - cap..][..i]
        {
          OldestFirst(i);
          SuffixNext(log, cap, i);
          out := out + [buf[(n + i) % cap]];
          i := i + 1;
        }
      } else {
        out := buf[..n];
      }
    }

    method Len() returns (n: nat)
      requires Valid()
      ensures n == |Suffix(log, cap)|
    {
      if cap == 0 { return 0; }
      n := if full then cap else next;
    }

    method Count() returns (n: nat)
      requires Valid()
      ensures n == |log| % TWO_64
    {
      n := if cap == 0 then 0 else count;
    }

    /** The write index is the number of records modulo the capacity, and the ring is full from
        the moment the capacity has been reached, however often the counter has wrapped. */
    lemma IndexFromCount()
      requires Valid() && cap > 0
      ensures next == |log| % cap
      ensures full <==> |log| >= cap
    {
      DivModUnique(|log|, cap, laps, next);
    }
  }
}
