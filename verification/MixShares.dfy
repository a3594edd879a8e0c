/** Which endpoint each request index gets, and what share of a run each endpoint has
    (internal/loadtest/mix.go Pick). */
module MixShares {
  import opened Prelude
  import opened Arithmetic
  import opened Ordering
  import opened Mix

  /** Go's % truncates toward zero. */
  function GoMod(i: int, n: int): int
    requires n > 0
  {
    if i >= 0 then i % n else -((-i) % n)
  }

  function Slot(i: int, total: int): (s: int)
    requires total > 0
    ensures 0 <= s < total
  {
    var s := GoMod(i, total);
    if s < 0 then s + total else s
  }

  /** The slot is the index modulo the total, for indices below zero too. */
  lemma SlotIsModulo(i: int, total: int)
    requires total > 0
    ensures Slot(i, total) == i % total
  {
    if i < 0 {
      var m := (-i) % total;
      assert -i == (-i) / total * total + m;
      if m == 0 {
        DivModUnique(i, total, -((-i) / total), 0);
      } else {
        DivModUnique(i, total, -((-i) / total) - 1, total - m);
      }
    }
  }

  /** The entry whose weight window holds the slot; past all windows, the last one. */
  function EntryAt(entries: seq<Entry>, slot: int): Entry
    requires entries != []
  {
    if |entries| == 1 || slot < entries[0].weight then entries[0]
    else EntryAt(entries[1..], slot - entries[0].weight)
  }

  function Pick(m: Mix, i: int): string {
    if m.entries == [] then "chat"
    else if m.total <= 0 then m.entries[0].endpoint
    else EntryAt(m.entries, Slot(i, m.total)).endpoint
  }

  // ----- counting -----

  function WeightOf(entries: seq<Entry>, ep: string): int {
    if entries == [] then 0
    else (if entries[0].endpoint == ep then entries[0].weight else 0) + WeightOf(entries[1..], ep)
  }

  /** How many of the indices lo, ..., lo + n - 1 get the endpoint. */
  function Picks(m: Mix, lo: nat, n: nat, ep: string): nat
    decreases n
  {
    if n == 0 then 0 else Picks(m, lo, n - 1, ep) + (if Pick(m, lo + n - 1) == ep then 1 else 0)
  }

  /** The same over the slots of one round. */
  function SlotPicks(entries: seq<Entry>, lo: int, n: nat, ep: string): nat
    requires entries != []
    decreases n
  {
    if n == 0 then 0
    else SlotPicks(entries, lo, n - 1, ep) + (if EntryAt(entries, lo + n - 1).endpoint == ep then 1 else 0)
  }

  predicate Positive(entries: seq<Entry>) { forall i :: 0 <= i < |entries| ==> entries[i].weight > 0 }

  /** Sum from the front, as the windows are laid out. */
  function Span(entries: seq<Entry>): int {
    if entries == [] then 0 else entries[0].weight + Span(entries[1..])
  }

  lemma {:induction false} SpanIsSum(entries: seq<Entry>)
    ensures Span(entries) == Sum(entries)
  {
    if entries != [] {
      SpanIsSum(entries[1..]);
      TotalRemove(Weight, entries, 0);
      assert entries[..0] + entries[1..] == entries[1..];
    }
  }

  lemma {:induction false} SlotPicksSplit(entries: seq<Entry>, lo: int, a: nat, b: nat, ep: string)
    requires entries != []
    ensures SlotPicks(entries, lo, a + b, ep) == SlotPicks(entries, lo, a, ep) + SlotPicks(entries, lo + a, b, ep)
    decreases b
  {
    if b > 0 { SlotPicksSplit(entries, lo, a, b - 1, ep); }
  }

  /** The first window is all one endpoint. */
  lemma {:induction false} FirstWindow(entries: seq<Entry>, n: nat, ep: string)
    requires entries != [] && n <= entries[0].weight
    ensures SlotPicks(entries, 0, n, ep) == if entries[0].endpoint == ep then n else 0
    decreases n
  {
    if n > 0 { FirstWindow(entries, n - 1, ep); }
  }

  /** Behind the first window, the others follow unchanged. */
  lemma {:induction false} LaterWindows(entries: seq<Entry>, lo: nat, n: nat, ep: string)
    requires |entries| > 1
    ensures SlotPicks(entries, entries[0].weight + lo, n, ep) == SlotPicks(entries[1..], lo, n, ep)
    decreases n
  {
    if n > 0 { LaterWindows(entries, lo, n - 1, ep); }
  }

  lemma {:induction false} RoundIsExact(entries: seq<Entry>, ep: string)
    requires entries != [] && Positive(entries)
    ensures Span(entries) >= 0 && SlotPicks(entries, 0, Span(entries), ep) == WeightOf(entries, ep)
  {
    var w := entries[0].weight;
    FirstWindow(entries, w, ep);
    if |entries| == 1 {
      assert Span(entries[1..]) == 0 && WeightOf(entries[1..], ep) == 0;
    } else {
      RoundIsExact(entries[1..], ep);
      LaterWindows(entries, 0, Span(entries[1..]), ep);
      SlotPicksSplit(entries, 0, w, Span(entries[1..]), ep);
    }
  }

  // ----- any window of total indices -----

  /** No int64 overflow when the weights are added up. */
  predicate NoOverflow(m: Mix) { Sum(m.entries) < TWO_63 }

  lemma TotalIsSum(m: Mix)
    requires WellFormed(m) && NoOverflow(m)
    ensures m.total == Span(m.entries) == Sum(m.entries) > 0 && Positive(m.entries)
  {
    forall i | 0 <= i < |m.entries| ensures m.entries[i].weight > 0 {
      assert m.entries[i] in m.entries;
      assert GoodEntry(m.entries[i]);
    }
    SpanPositive(m.entries);
    SpanIsSum(m.entries);
    ModSmall(Sum(m.entries) + TWO_63, TWO_64);
  }

  lemma {:induction false} SpanPositive(entries: seq<Entry>)
    requires Positive(entries)
    ensures Span(entries) >= |entries|
  {
    if entries != [] { SpanPositive(entries[1..]); }
  }

  lemma {:induction false} FirstRound(m: Mix, n: nat, ep: string)
    requires m.entries != [] && m.total > 0 && n <= m.total
    ensures Picks(m, 0, n, ep) == SlotPicks(m.entries, 0, n, ep)
    decreases n
  {
    if n > 0 {
      FirstRound(m, n - 1, ep);
      ModSmall(n - 1, m.total);
    }
  }

  lemma {:induction false} PicksSplit(m: Mix, lo: nat, a: nat, b: nat, ep: string)
    ensures Picks(m, lo, a + b, ep) == Picks(m, lo, a, ep) + Picks(m, lo + a, b, ep)
    decreases b
  {
    if b > 0 { PicksSplit(m, lo, a, b - 1, ep); }
  }

  /** Sliding a window of total indices by one drops and gains the same endpoint. */
  lemma {:induction false} WindowSlides(m: Mix, lo: nat, ep: string)
    requires m.entries != [] && m.total > 0
    ensures Picks(m, lo, m.total, ep) == Picks(m, 0, m.total, ep)
  {
    if lo > 0 {
      WindowSlides(m, lo - 1, ep);
      PicksSplit(m, lo - 1, 1, m.total - 1, ep);
      ModAddMultiple(lo - 1, 1, m.total);
      assert Picks(m, lo - 1, 0, ep) == 0;
      assert Pick(m, lo - 1) == Pick(m, lo - 1 + m.total);
    }
  }

  /** Any total consecutive indices select each endpoint exactly its weight times. */
  lemma AnyRoundIsExact(m: Mix, lo: nat, ep: string)
    requires WellFormed(m) && NoOverflow(m)
    ensures m.total > 0 && Picks(m, lo, m.total, ep) == WeightOf(m.entries, ep)
  {
    TotalIsSum(m);
    WindowSlides(m, lo, ep);
    FirstRound(m, m.total, ep);
    RoundIsExact(m.entries, ep);
  }

  lemma {:induction false} WholeRounds(m: Mix, lo: nat, rounds: nat, ep: string)
    requires WellFormed(m) && NoOverflow(m)
    ensures 0 <= rounds * m.total && Picks(m, lo, rounds * m.total, ep) == rounds * WeightOf(m.entries, ep)
    decreases rounds
  {
    TotalIsSum(m);
    if rounds > 0 {
      WholeRounds(m, lo, rounds - 1, ep);
      MulDistributes(rounds - 1, 1, m.total);
      MulDistributes(rounds - 1, 1, WeightOf(m.entries, ep));
      var done := (rounds - 1) * m.total;
      PicksSplit(m, lo, done, m.total, ep);
      AnyRoundIsExact(m, lo + done, ep);
    }
  }

  /** So of n requests from any index on, an endpoint gets its weight for every whole round and
      at most its weight for the rest. */
  lemma ShareIsBounded(m: Mix, lo: nat, n: nat, ep: string)
    requires WellFormed(m) && NoOverflow(m)
    ensures m.total > 0
    ensures var rounds, w := n / m.total, WeightOf(m.entries, ep);
            rounds * w <= Picks(m, lo, n, ep) <= rounds * w + (if n % m.total == 0 then 0 else w)
  {
    TotalIsSum(m);
    var rounds, rest := n / m.total, n % m.total;
    var done := rounds * m.total;
    assert n == done + rest;
    WholeRounds(m, lo, rounds, ep);
    PicksSplit(m, lo, done, rest, ep);
    PicksSplit(m, lo + done, rest, m.total - rest, ep);
    AnyRoundIsExact(m, lo + done, ep);
  }

  // ----- when the weights overflow -----

  /** A well-formed mix has at most one entry per known endpoint. */
  lemma AtMostThree(m: Mix)
    requires WellFormed(m)
    ensures |m.entries| <= 3
  {
    EndpointSet(m.entries);
    SubsetSize(Names(m.entries), VALID);
    ThreeNames();
  }

  lemma ThreeNames()
    ensures |VALID| == 3
  {
    assert |"chat"| == 4 && |"models"| == 6 && |"completions"| == 11;
  }

  function Names(entries: seq<Entry>): set<string> { set e | e in entries :: e.endpoint }

  lemma {:induction false} EndpointSet(entries: seq<Entry>)
    requires GoodEntries(entries)
    ensures Names(entries) <= VALID && |Names(entries)| == |entries|
  {
    if entries != [] {
      var n := |entries| - 1;
      var init, last := entries[..n], entries[n];
      assert entries == init + [last];
      EndpointSet(init);
      assert last in entries;
      forall e | e in init ensures e.endpoint != last.endpoint {
        var k :| 0 <= k < n && init[k] == e;
        assert Endpoint(entries[k]) != Endpoint(entries[n]);
      }
      assert Names(entries) == Names(init) + {last.endpoint};
    }
  }

  lemma {:induction false} SumBound(entries: seq<Entry>)
    requires forall e :: e in entries ==> GoodEntry(e)
    ensures 0 <= Sum(entries) <= |entries| * (TWO_63 - 1)
  {
    if entries != [] {
      var init := entries[..|entries| - 1];
      SumBound(init);
      assert entries[|entries| - 1] in entries;
    }
  }

  lemma FirstAndRest(m: Mix)
    requires WellFormed(m)
    ensures var first, rest := m.entries[0].weight, Sum(m.entries[1..]);
            && 0 < first < TWO_63 && 0 <= rest <= 2 * (TWO_63 - 1)
            && Sum(m.entries) == rest + first && (|m.entries| == 1 ==> rest == 0)
  {
    AtMostThree(m);
    SumSplit(m.entries);
    assert forall e :: e in m.entries[1..] ==> e in m.entries;
    AtMostTwo(m.entries[1..]);
    assert m.entries[0] in m.entries && GoodEntry(m.entries[0]);
  }

  lemma SumSplit(entries: seq<Entry>)
    requires entries != []
    ensures Sum(entries) == Sum(entries[1..]) + entries[0].weight
  {
    TotalRemove(Weight, entries, 0);
    assert entries[..0] + entries[1..] == entries[1..];
  }

  lemma AtMostTwo(entries: seq<Entry>)
    requires |entries| <= 2 && forall e :: e in entries ==> GoodEntry(e)
    ensures 0 <= Sum(entries) <= 2 * (TWO_63 - 1) && (entries == [] ==> Sum(entries) == 0)
  {
    SumBound(entries);
    MulMonotone(|entries|, 2, TWO_63 - 1);
  }

  /** When the weights add up beyond int64, the wrapped total is not positive or lies within the
      first window. */
  lemma OverflowedTotal(m: Mix)
    requires WellFormed(m) && !NoOverflow(m)
    ensures |m.entries| > 1 && m.total < m.entries[0].weight
  {
    FirstAndRest(m);
    OverflowTotal(Sum(m.entries));
  }

  /** Then every request goes to the first endpoint. */
  lemma OverflowPicksFirst(m: Mix, i: int)
    requires WellFormed(m) && !NoOverflow(m)
    ensures Pick(m, i) == m.entries[0].endpoint
  {
    OverflowedTotal(m);
  }

  lemma OverflowTotal(sum: int)
    requires TWO_63 <= sum <= 3 * (TWO_63 - 1)
    ensures Wrap(sum) <= sum - TWO_64
  {
    if sum < TWO_64 + TWO_63 {
      DivModUnique(sum + TWO_63, TWO_64, 1, sum + TWO_63 - TWO_64);
    } else {
      DivModUnique(sum + TWO_63, TWO_64, 2, sum + TWO_63 - 2 * TWO_64);
    }
  }

  lemma {:induction false} NeverPicked(m: Mix, n: nat)
    requires WellFormed(m) && !NoOverflow(m)
    ensures Picks(m, 0, n, m.entries[|m.entries| - 1].endpoint) == 0
    decreases n
  {
    if n > 0 {
      NeverPicked(m, n - 1);
      OverflowPicksFirst(m, n - 1);
      OverflowedTotal(m);
      assert Endpoint(m.entries[0]) != Endpoint(m.entries[|m.entries| - 1]);
    }
  }

  lemma {:induction false} WeightOfLast(entries: seq<Entry>)
    requires entries != [] && Positive(entries)
    ensures WeightOf(entries, entries[|entries| - 1].endpoint) > 0
  {
    if |entries| > 1 { WeightOfLast(entries[1..]); }
  }

  /** Every round of the summed weights gives each endpoint exactly its weight. */
  ghost predicate Honoured(m: Mix) {
    && Span(m.entries) >= 0
    && forall lo: nat, ep :: Picks(m, lo, Span(m.entries), ep) == WeightOf(m.entries, ep)
  }

  /** The exact condition: the weights of a parsed mix are honoured if and only if their sum
      does not overflow an int64. */
  lemma HonouredIffNoOverflow(m: Mix)
    requires WellFormed(m)
    ensures Honoured(m) <==> NoOverflow(m)
  {
    if NoOverflow(m) {
      TotalIsSum(m);
      forall lo: nat, ep ensures Picks(m, lo, Span(m.entries), ep) == WeightOf(m.entries, ep) {
        AnyRoundIsExact(m, lo, ep);
      }
    } else if Honoured(m) {
      var last := m.entries[|m.entries| - 1].endpoint;
      forall i | 0 <= i < |m.entries| ensures m.entries[i].weight > 0 {
        assert m.entries[i] in m.entries && GoodEntry(m.entries[i]);
      }
      WeightOfLast(m.entries);
      assert Picks(m, 0, Span(m.entries), last) == WeightOf(m.entries, last);
      NeverPicked(m, Span(m.entries));
      assert false;
    }
  }

  /** There is such a mix: chat with the largest weight an int64 holds, and models with weight 1. */
  lemma OverflowingMixParses(chat: string, models: string)
    requires chat == "chat" && models == "models"
    ensures var m := Mix([Entry(chat, TWO_63 - 1), Entry(models, 1)], -TWO_63);
            && Parse(String(m)) == Ok(m) && !NoOverflow(m) && !Honoured(m)
            && forall i: int :: Pick(m, i) == chat
  {
    var entries := [Entry(chat, TWO_63 - 1), Entry(models, 1)];
    var m := Mix(entries, -TWO_63);
    SumSplit(entries);
    SumSplit(entries[1..]);
    assert Sum(entries) == TWO_63;
    DivModUnique(TWO_63 + TWO_63, TWO_64, 1, 0);
    assert chat[0] == 'c' && models[0] == 'm';
    assert WellFormed(m);
    ParseInvertsString(m);
    HonouredIffNoOverflow(m);
    forall i: int ensures Pick(m, i) == chat { OverflowPicksFirst(m, i); }
  }

  // ----- the walk, in int64 -----

  lemma {:induction false} PartialSum(entries: seq<Entry>, k: nat)
    requires k <= |entries| && forall e :: e in entries ==> GoodEntry(e)
    ensures 0 <= Sum(entries[..k]) <= Sum(entries)
  {
    SumBound(entries[..k]);
    if k < |entries| {
      var n := |entries| - 1;
      assert entries[n] in entries;
      PartialSum(entries[..n], k);
      assert entries[..n][..k] == entries[..k];
    } else {
      assert entries[..k] == entries;
    }
  }

  /** Adding up the weights never wraps before the slot is found: without overflow no partial sum
      does, and with it the first window holds the slot. */
  lemma WalkStep(m: Mix, slot: int, k: nat, cum: int)
    requires WellFormed(m) && 0 <= slot < m.total && k < |m.entries|
    requires cum == Sum(m.entries[..k]) && (k > 0 ==> NoOverflow(m))
    ensures Wrap(cum + m.entries[k].weight) == cum + m.entries[k].weight == Sum(m.entries[..k + 1])
    ensures slot < cum + m.entries[k].weight || NoOverflow(m)
  {
    var e := m.entries[k];
    assert e in m.entries && GoodEntry(e);
    assert m.entries[..k + 1] == m.entries[..k] + [e];
    TotalSnoc(Weight, m.entries[..k], e);
    if NoOverflow(m) {
      PartialSum(m.entries, k + 1);
    } else {
      OverflowedTotal(m);
      assert m.entries[..0] == [];
    }
    ModSmall(cum + e.weight + TWO_63, TWO_64);
  }

  /** The cumulative walk of a parsed mix, or of the zero mix. */
  method PickEndpoint(m: Mix, i: int) returns (ep: string)
    ensures m.entries == [] || WellFormed(m) ==> ep == Pick(m, i)
  {
    if |m.entries| == 0 { return "chat"; }
    if m.total <= 0 { return m.entries[0].endpoint; }
    var slot := GoMod(i, m.total);
    if slot < 0 { slot := slot + m.total; }
    var cum := 0;
    ghost var parsed := WellFormed(m);
    for k := 0 to |m.entries|
      invariant parsed ==> cum == Sum(m.entries[..k]) && (k > 0 ==> NoOverflow(m))
      invariant parsed && k < |m.entries| ==> EntryAt(m.entries, slot) == EntryAt(m.entries[k..], slot - cum)
      invariant parsed && k == |m.entries| ==> EntryAt(m.entries, slot) == m.entries[k - 1]
    {
      assert m.entries[k..][1..] == m.entries[k + 1..];
      if parsed { WalkStep(m, slot, k, cum); }
      cum := Wrap(cum + m.entries[k].weight);
      if slot < cum { return m.entries[k].endpoint; }
    }
    ep := m.entries[|m.entries| - 1].endpoint;
  }
}
