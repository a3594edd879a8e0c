/** The GPU capacity inventory: fleet roll-up, by-type rows and per-worker cells
    (internal/httpapi/admin_gpu.go aggregateGPUs). */
module GpuInventory {
  import opened Prelude
  import opened Arithmetic
  import opened Ordering
  import opened Fleet

  datatype Rollup = Rollup(workerCount: nat, totalVram: nat, freeVram: nat, meanLoad: nat, maxLoad: nat)

  datatype Row = Row(gpuType: string, workerCount: int, totalVram: nat, freeVram: nat)

  datatype Cell = Cell(
    id: string, gpuType: string, totalVram: nat, freeVram: nat, load: nat, status: Status, activeJobs: nat)

  datatype Inventory = Inventory(fleet: Rollup, byType: seq<Row>, workers: seq<Cell>)

  const TWO_32 := 0x1_0000_0000

  /** uint64 arithmetic. */
  function Wrap(n: int): nat { n % TWO_64 }

  // ----- what is summed -----

  function One(w: Worker): int { 1 }

  function TotalVram(w: Worker): int { w.totalVram }

  function FreeVram(w: Worker): int { w.freeVram }

  function Load(w: Worker): int { w.load }

  /** v, counted for the workers of one type only. */
  function OfType(v: Worker -> int, gpuType: string): Worker -> int {
    (w: Worker) => if w.gpuType == gpuType then v(w) else 0
  }

  function CellOf(w: Worker): Cell {
    Cell(w.id, w.gpuType, w.totalVram, w.freeVram, w.load, w.status, w.activeJobs)
  }

  /** Each figure of a cell is the worker's figure of that name. */
  predicate ShowsWorker(c: Cell, w: Worker) {
    && c.id == w.id && c.gpuType == w.gpuType && c.status == w.status
    && c.totalVram == w.totalVram && c.freeVram == w.freeVram && c.load == w.load && c.activeJobs == w.activeJobs
  }

  function Cells(fleet: seq<Worker>): (r: seq<Cell>)
    ensures |r| == |fleet| && forall i :: 0 <= i < |r| ==> r[i] == CellOf(fleet[i]) && ShowsWorker(r[i], fleet[i])
  {
    if fleet == [] then [] else Cells(fleet[..|fleet| - 1]) + [CellOf(fleet[|fleet| - 1])]
  }

  function RowOf(fleet: seq<Worker>, gpuType: string): Row {
    Row(gpuType, Total(OfType(One, gpuType), fleet),
        Wrap(Total(OfType(TotalVram, gpuType), fleet)), Wrap(Total(OfType(FreeVram, gpuType), fleet)))
  }

  predicate HasType(fleet: seq<Worker>, gpuType: string) { exists w :: w in fleet && w.gpuType == gpuType }

  ghost predicate IsMaxLoad(fleet: seq<Worker>, m: nat) {
    && (forall w :: w in fleet ==> w.load <= m)
    && (m == 0 || exists w :: w in fleet && w.load == m)
  }

  /** The mean as the code computes it: from the wrapped sum, cut down to 32 bits. */
  function MeanLoad(fleet: seq<Worker>): nat {
    if fleet == [] then 0 else (Wrap(Total(Load, fleet)) / |fleet|) % TWO_32
  }

  function TypeOf(r: Row): string { r.gpuType }

  function IdOf(c: Cell): string { c.id }

  ghost predicate DistinctIds(fleet: seq<Worker>) {
    forall i, j :: 0 <= i < j < |fleet| ==> fleet[i].id != fleet[j].id
  }

  ghost predicate IsRollup(fleet: seq<Worker>, r: Rollup) {
    && r.workerCount == |fleet|
    && r.totalVram == Wrap(Total(TotalVram, fleet))
    && r.freeVram == Wrap(Total(FreeVram, fleet))
    && r.meanLoad == MeanLoad(fleet)
    && IsMaxLoad(fleet, r.maxLoad)
  }

  ghost predicate IsByType(fleet: seq<Worker>, rows: seq<Row>) {
    && StrictlySorted(TypeOf, rows)
    && (forall row :: row in rows <==> HasType(fleet, row.gpuType) && row == RowOf(fleet, row.gpuType))
  }

  ghost predicate IsInventory(fleet: seq<Worker>, inv: Inventory) {
    && IsRollup(fleet, inv.fleet)
    && IsByType(fleet, inv.byType)
    && multiset(inv.workers) == multiset(Cells(fleet))
    && (DistinctIds(fleet) ==> StrictlySorted(IdOf, inv.workers))
  }

  // ----- the loop -----

  ghost predicate Grouped(fleet: seq<Worker>, byType: map<string, Row>) {
    forall t ::
      && (t in byType <==> HasType(fleet, t))
      && (t in byType ==> byType[t] == RowOf(fleet, t))
  }

  lemma WrapNext(v: Worker -> int, fleet: seq<Worker>, w: Worker)
    ensures Wrap(Wrap(Total(v, fleet)) + v(w)) == Wrap(Total(v, fleet + [w]))
  {
    TotalSnoc(v, fleet, w);
    ModAdd(Total(v, fleet), v(w), TWO_64);
  }

  lemma WrapOfType(v: Worker -> int, fleet: seq<Worker>, w: Worker, t: string)
    ensures Wrap(Total(OfType(v, t), fleet + [w])) ==
      if w.gpuType == t then Wrap(Wrap(Total(OfType(v, t), fleet)) + v(w)) else Wrap(Total(OfType(v, t), fleet))
  {
    TotalSnoc(OfType(v, t), fleet, w);
    assert OfType(v, t)(w) == if w.gpuType == t then v(w) else 0;
    if w.gpuType == t { WrapNext(OfType(v, t), fleet, w); }
  }

  /** A row with one more worker folded into it. */
  function Grown(r: Row, w: Worker): Row {
    Row(r.gpuType, r.workerCount + 1, Wrap(r.totalVram + w.totalVram), Wrap(r.freeVram + w.freeVram))
  }

  /** One more worker only changes the row of its own type. */
  lemma RowNext(fleet: seq<Worker>, w: Worker, t: string)
    ensures RowOf(fleet + [w], t) == if w.gpuType == t then Grown(RowOf(fleet, t), w) else RowOf(fleet, t)
  {
    TotalSnoc(OfType(One, t), fleet, w);
    WrapOfType(TotalVram, fleet, w, t);
    WrapOfType(FreeVram, fleet, w, t);
  }

  lemma {:induction false} NoneOfType(v: Worker -> int, fleet: seq<Worker>, t: string)
    requires !HasType(fleet, t)
    ensures Total(OfType(v, t), fleet) == 0
  {
    if fleet != [] {
      var init := fleet[..|fleet| - 1];
      assert forall w :: w in init ==> w in fleet;
      assert fleet[|fleet| - 1] in fleet;
      NoneOfType(v, init, t);
    }
  }

  lemma EmptyRow(fleet: seq<Worker>, t: string)
    requires !HasType(fleet, t)
    ensures RowOf(fleet, t) == Row(t, 0, 0, 0)
  {
    NoneOfType(One, fleet, t);
    NoneOfType(TotalVram, fleet, t);
    NoneOfType(FreeVram, fleet, t);
  }

  lemma GroupedNext(fleet: seq<Worker>, byType: map<string, Row>, w: Worker)
    requires Grouped(fleet, byType)
    ensures Grouped(fleet + [w], byType[w.gpuType := Grown(RowOf(fleet, w.gpuType), w)])
  {
    var after := byType[w.gpuType := Grown(RowOf(fleet, w.gpuType), w)];
    forall t
      ensures t in after <==> HasType(fleet + [w], t)
      ensures t in after ==> after[t] == RowOf(fleet + [w], t)
    {
      RowNext(fleet, w, t);
      assert w in fleet + [w];
      assert t in byType <==> HasType(fleet, t);
    }
  }

  method AddToType(ghost fleet: seq<Worker>, byType: map<string, Row>, wk: Worker) returns (r: map<string, Row>)
    requires Grouped(fleet, byType)
    ensures Grouped(fleet + [wk], r)
  {
    GroupedNext(fleet, byType, wk);
    r := byType;
    if wk.gpuType !in r {
      EmptyRow(fleet, wk.gpuType);
      r := r[wk.gpuType := Row(wk.gpuType, 0, 0, 0)];
    }
    r := r[wk.gpuType := Grown(r[wk.gpuType], wk)];
    assert r == byType[wk.gpuType := Grown(RowOf(fleet, wk.gpuType), wk)];
  }

  /** The rows of a grouping, sorted; Go ranges over the map in no particular order. */
  method SortedRows(byType: map<string, Row>) returns (rows: seq<Row>)
    requires forall t :: t in byType ==> byType[t].gpuType == t
    ensures StrictlySorted(TypeOf, rows)
    ensures forall row :: row in rows <==> row.gpuType in byType && row == byType[row.gpuType]
  {
    var left := byType.Keys;
    rows := [];
    while left != {}
      invariant left <= byType.Keys
      invariant forall row :: row in rows <==> row.gpuType in byType.Keys - left && row == byType[row.gpuType]
      invariant DistinctKeys(TypeOf, rows)
    {
      var t :| t in left;
      left := left - {t};
      rows := rows + [byType[t]];
    }
    SortBySorted(TypeOf, rows);
    ghost var sorted := SortBy(TypeOf, rows);
    forall row ensures row in sorted <==> row in rows { assert row in sorted <==> row in multiset(sorted); }
    rows := SortBy(TypeOf, rows);
  }

  lemma GroupedRows(fleet: seq<Worker>, byType: map<string, Row>, rows: seq<Row>)
    requires Grouped(fleet, byType)
    requires StrictlySorted(TypeOf, rows)
    requires forall row :: row in rows <==> row.gpuType in byType && row == byType[row.gpuType]
    ensures IsByType(fleet, rows)
  {
  }

  /** The running sums over a fleet. */
  ghost predicate Summed(fleet: seq<Worker>, total: int, free: int, loadSum: int) {
    && total == Wrap(Total(TotalVram, fleet))
    && free == Wrap(Total(FreeVram, fleet))
    && loadSum == Wrap(Total(Load, fleet))
  }

  lemma SummedNext(fleet: seq<Worker>, w: Worker, total: int, free: int, loadSum: int)
    requires Summed(fleet, total, free, loadSum)
    ensures Summed(fleet + [w], Wrap(total + w.totalVram), Wrap(free + w.freeVram), Wrap(loadSum + w.load))
  {
    WrapNext(TotalVram, fleet, w);
    WrapNext(FreeVram, fleet, w);
    WrapNext(Load, fleet, w);
  }

  /** aggregateGPUs. */
  method AggregateGpus(fleet: seq<Worker>) returns (inv: Inventory)
    ensures IsInventory(fleet, inv)
  {
    var total, free, loadSum, maxLoad: nat := 0, 0, 0, 0;
    var byType, cells := map[], [];
    var i := 0;
    while i < |fleet|
      invariant 0 <= i <= |fleet|
      invariant Summed(fleet[..i], total, free, loadSum)
      invariant IsMaxLoad(fleet[..i], maxLoad)
      invariant Grouped(fleet[..i], byType)
      invariant cells == Cells(fleet[..i])
    {
      var wk := fleet[i];
      assert fleet[..i + 1] == fleet[..i] + [wk];
      SummedNext(fleet[..i], wk, total, free, loadSum);
      total, free, loadSum := Wrap(total + wk.totalVram), Wrap(free + wk.freeVram), Wrap(loadSum + wk.load);
      MaxNext(fleet[..i], wk, maxLoad);
      if wk.load > maxLoad { maxLoad := wk.load; }
      byType := AddToType(fleet[..i], byType, wk);
      CellsNext(fleet[..i], wk);
      cells := cells + [CellOf(wk)];
      i := i + 1;
    }
    assert fleet[..i] == fleet;
    inv := Present(fleet, total, free, loadSum, maxLoad, byType, cells);
  }

  /** What follows the loop: the mean, and the two sorted slices. */
  method Present(ghost fleet: seq<Worker>, total: nat, free: nat, loadSum: nat, maxLoad: nat,
                 byType: map<string, Row>, cells: seq<Cell>)
    returns (inv: Inventory)
    requires Summed(fleet, total, free, loadSum) && IsMaxLoad(fleet, maxLoad)
    requires Grouped(fleet, byType) && cells == Cells(fleet)
    ensures IsInventory(fleet, inv)
  {
    var mean := 0;
    if |cells| > 0 { mean := (loadSum / |cells|) % TWO_32; }
    var rows := SortedRows(byType);
    GroupedRows(fleet, byType, rows);
    CellsSorted(fleet);
    inv := Inventory(Rollup(|cells|, total, free, mean, maxLoad), rows, SortBy(IdOf, cells));
  }

  lemma CellsSorted(fleet: seq<Worker>)
    ensures DistinctIds(fleet) ==> StrictlySorted(IdOf, SortBy(IdOf, Cells(fleet)))
  {
    if DistinctIds(fleet) { SortBySorted(IdOf, Cells(fleet)); }
  }

  lemma CellsNext(fleet: seq<Worker>, w: Worker)
    ensures Cells(fleet + [w]) == Cells(fleet) + [CellOf(w)]
  {
    assert (fleet + [w])[..|fleet|] == fleet;
  }

  lemma MaxNext(fleet: seq<Worker>, w: Worker, m: nat)
    requires IsMaxLoad(fleet, m)
    ensures IsMaxLoad(fleet + [w], if w.load > m then w.load else m)
  {
    assert w in fleet + [w];
    assert forall x :: x in fleet + [w] <==> x in fleet || x == w;
  }

  // ----- the roll-up against the rows -----

  /** What the workers of one type add up to. */
  function Share(v: Worker -> int, fleet: seq<Worker>): string -> int {
    (t: string) => Total(OfType(v, t), fleet)
  }

  ghost predicate Distinct(types: seq<string>) {
    forall i, j :: 0 <= i < j < |types| ==> types[i] != types[j]
  }

  lemma {:induction false} SharesNext(v: Worker -> int, fleet: seq<Worker>, w: Worker, types: seq<string>)
    requires Distinct(types)
    ensures Total(Share(v, fleet + [w]), types)
         == Total(Share(v, fleet), types) + (if w.gpuType in types then v(w) else 0)
  {
    if types != [] {
      var init, last := types[..|types| - 1], types[|types| - 1];
      SharesNext(v, fleet, w, init);
      TotalSnoc(OfType(v, last), fleet, w);
      assert w.gpuType in types <==> w.gpuType in init || w.gpuType == last;
      assert last !in init;
    }
  }

  lemma {:induction false} SharesOfNone(v: Worker -> int, types: seq<string>)
    ensures Total(Share(v, []), types) == 0
  {
    if types != [] { SharesOfNone(v, types[..|types| - 1]); }
  }

  /** Any way to list the types once each splits every sum over the fleet. */
  lemma {:induction false} SharesAddUp(v: Worker -> int, fleet: seq<Worker>, types: seq<string>)
    requires Distinct(types)
    requires forall w :: w in fleet ==> w.gpuType in types
    ensures Total(Share(v, fleet), types) == Total(v, fleet)
  {
    if fleet == [] {
      SharesOfNone(v, types);
    } else {
      var init, last := fleet[..|fleet| - 1], fleet[|fleet| - 1];
      assert fleet == init + [last];
      SharesAddUp(v, init, types);
      SharesNext(v, init, last, types);
      TotalSnoc(v, init, last);
    }
  }

  function Types(rows: seq<Row>): (r: seq<string>)
    ensures |r| == |rows| && forall i :: 0 <= i < |r| ==> r[i] == rows[i].gpuType
  {
    if rows == [] then [] else Types(rows[..|rows| - 1]) + [rows[|rows| - 1].gpuType]
  }

  function CountIn(r: Row): int { r.workerCount }

  function TotalIn(r: Row): int { r.totalVram }

  function FreeIn(r: Row): int { r.freeVram }

  /** Adding up wrapped shares wraps to the same as adding up the shares. */
  lemma {:induction false} WrappedShares(u: Row -> int, share: string -> int, rows: seq<Row>)
    requires forall i :: 0 <= i < |rows| ==> u(rows[i]) == Wrap(share(rows[i].gpuType))
    ensures Wrap(Total(u, rows)) == Wrap(Total(share, Types(rows)))
  {
    if rows != [] {
      var init, last := rows[..|rows| - 1], rows[|rows| - 1];
      WrappedShares(u, share, init);
      assert Types(rows)[..|rows| - 1] == Types(init);
      var a, b, c := Total(u, init), Total(share, Types(init)), share(last.gpuType);
      ModAdd(a, c % TWO_64, TWO_64);
      ModAdd(b, c % TWO_64, TWO_64);
      ModAdd(c, b, TWO_64);
    }
  }

  lemma {:induction false} ExactShares(u: Row -> int, share: string -> int, rows: seq<Row>)
    requires forall i :: 0 <= i < |rows| ==> u(rows[i]) == share(rows[i].gpuType)
    ensures Total(u, rows) == Total(share, Types(rows))
  {
    if rows != [] {
      ExactShares(u, share, rows[..|rows| - 1]);
      assert Types(rows)[..|rows| - 1] == Types(rows[..|rows| - 1]);
    }
  }

  lemma {:induction false} TotalOfOnes(fleet: seq<Worker>)
    ensures Total(One, fleet) == |fleet|
  {
    if fleet != [] { TotalOfOnes(fleet[..|fleet| - 1]); }
  }

  lemma RowsCoverTypes(fleet: seq<Worker>, rows: seq<Row>)
    requires IsByType(fleet, rows)
    ensures Distinct(Types(rows))
    ensures forall w :: w in fleet ==> w.gpuType in Types(rows)
    ensures forall i :: 0 <= i < |rows| ==> rows[i] == RowOf(fleet, rows[i].gpuType)
  {
    SortedKeysDistinct(TypeOf, rows);
    forall w | w in fleet ensures w.gpuType in Types(rows) {
      var row := RowOf(fleet, w.gpuType);
      assert row in rows;
      var i :| 0 <= i < |rows| && rows[i] == row;
      assert Types(rows)[i] == w.gpuType;
    }
    assert forall i :: 0 <= i < |rows| ==> rows[i] in rows;
  }

  lemma WrappedRows(v: Worker -> int, u: Row -> int, fleet: seq<Worker>, rows: seq<Row>)
    requires IsByType(fleet, rows)
    requires forall t :: u(RowOf(fleet, t)) == Wrap(Total(OfType(v, t), fleet))
    ensures Wrap(Total(u, rows)) == Wrap(Total(v, fleet))
  {
    RowsCoverTypes(fleet, rows);
    WrappedShares(u, Share(v, fleet), rows);
    SharesAddUp(v, fleet, Types(rows));
  }

  lemma ExactRows(v: Worker -> int, u: Row -> int, fleet: seq<Worker>, rows: seq<Row>)
    requires IsByType(fleet, rows)
    requires forall t :: u(RowOf(fleet, t)) == Total(OfType(v, t), fleet)
    ensures Total(u, rows) == Total(v, fleet)
  {
    RowsCoverTypes(fleet, rows);
    ExactShares(u, Share(v, fleet), rows);
    SharesAddUp(v, fleet, Types(rows));
  }

  /** The by-type rows add up to the fleet roll-up: the worker counts exactly, the two VRAM sums
      as uint64 sums. */
  lemma RowsAddUpToFleet(fleet: seq<Worker>, inv: Inventory)
    requires IsInventory(fleet, inv)
    ensures Total(CountIn, inv.byType) == inv.fleet.workerCount
    ensures Wrap(Total(TotalIn, inv.byType)) == inv.fleet.totalVram
    ensures Wrap(Total(FreeIn, inv.byType)) == inv.fleet.freeVram
  {
    ExactRows(One, CountIn, fleet, inv.byType);
    WrappedRows(TotalVram, TotalIn, fleet, inv.byType);
    WrappedRows(FreeVram, FreeIn, fleet, inv.byType);
    TotalOfOnes(fleet);
  }

  // ----- the load figures -----

  lemma {:induction false} LoadsBelowMax(fleet: seq<Worker>, m: nat)
    requires forall w :: w in fleet ==> w.load <= m
    ensures 0 <= Total(Load, fleet) <= m * |fleet|
  {
    if fleet != [] {
      var n := |fleet| - 1;
      assert fleet[n] in fleet;
      LoadsBelowMax(fleet[..n], m);
      MulDistributes(n, 1, m);
    }
  }

  /** Both cut-downs are harmless: the quotient stays below m even when the sum wraps, and it is
      the true quotient when there are at most 2^32 terms. */
  lemma MeanOf(sum: nat, n: nat, m: nat)
    requires n > 0 && m < TWO_32 && sum <= m * n
    ensures (Wrap(sum) / n) % TWO_32 == Wrap(sum) / n <= m
    ensures n <= TWO_32 ==> Wrap(sum) == sum
  {
    WrapShrinks(sum);
    DivBounded(Wrap(sum), n, m);
    ModSmall(Wrap(sum) / n, TWO_32);
    if n <= TWO_32 {
      MulMonotone(n, TWO_32, m);
      ModSmall(sum, TWO_64);
    }
  }

  /** The mean never exceeds the maximum, not even when the sum of the loads wraps, and it is the
      true integer mean for every fleet of up to 2^32 workers. */
  lemma {:induction false} MeanBelowMax(fleet: seq<Worker>, inv: Inventory)
    requires IsInventory(fleet, inv)
    ensures inv.fleet.meanLoad <= inv.fleet.maxLoad
    ensures 0 < |fleet| <= TWO_32 ==> inv.fleet.meanLoad == Total(Load, fleet) / |fleet|
  {
    LoadsBelowMax(fleet, inv.fleet.maxLoad);
    if fleet != [] { MeanOf(Total(Load, fleet), |fleet|, inv.fleet.maxLoad); }
  }

  lemma WrapShrinks(n: nat)
    ensures Wrap(n) <= n
  {
    if n < TWO_64 { ModSmall(n, TWO_64); }
  }

  // ----- order -----

  lemma MembersPermute(f: seq<Worker>, g: seq<Worker>)
    requires multiset(f) == multiset(g)
    ensures forall w :: w in f <==> w in g
  {
    assert forall w :: w in f <==> w in multiset(f);
    assert forall w :: w in g <==> w in multiset(g);
  }

  lemma RowsPermute(f: seq<Worker>, g: seq<Worker>, t: string)
    requires multiset(f) == multiset(g)
    ensures RowOf(f, t) == RowOf(g, t)
  {
    TotalPermutes(OfType(One, t), f, g);
    TotalPermutes(OfType(TotalVram, t), f, g);
    TotalPermutes(OfType(FreeVram, t), f, g);
  }

  lemma ByTypePermutes(f: seq<Worker>, g: seq<Worker>, a: seq<Row>, b: seq<Row>)
    requires multiset(f) == multiset(g)
    requires IsByType(f, a) && IsByType(g, b)
    ensures a == b
  {
    MembersPermute(f, g);
    forall row ensures row in a <==> row in b { RowsPermute(f, g, row.gpuType); }
    StrictlySortedUnique(TypeOf, a, b);
  }

  lemma RollupPermutes(f: seq<Worker>, g: seq<Worker>, a: Rollup, b: Rollup)
    requires multiset(f) == multiset(g)
    requires IsRollup(f, a) && IsRollup(g, b)
    ensures a == b
  {
    MembersPermute(f, g);
    assert |f| == |multiset(f)| == |multiset(g)| == |g|;
    TotalPermutes(TotalVram, f, g);
    TotalPermutes(FreeVram, f, g);
    TotalPermutes(Load, f, g);
  }

  lemma {:induction false} CellMembers(fleet: seq<Worker>, c: Cell)
    ensures c in Cells(fleet) <==> exists w :: w in fleet && CellOf(w) == c
  {
    if c in Cells(fleet) {
      var i :| 0 <= i < |fleet| && Cells(fleet)[i] == c;
      assert fleet[i] in fleet;
    }
    if w :| w in fleet && CellOf(w) == c {
      var i :| 0 <= i < |fleet| && fleet[i] == w;
      assert Cells(fleet)[i] == c;
    }
  }

  /** The cells show every worker with its own figures, and nothing else. */
  lemma CellsShowWorkers(fleet: seq<Worker>, inv: Inventory)
    requires IsInventory(fleet, inv)
    ensures |inv.workers| == |fleet|
    ensures forall w :: w in fleet ==> exists c :: c in inv.workers && ShowsWorker(c, w)
    ensures forall c :: c in inv.workers ==> exists w :: w in fleet && ShowsWorker(c, w)
  {
    var cells := Cells(fleet);
    assert |inv.workers| == |multiset(inv.workers)| == |multiset(cells)| == |cells|;
    forall w | w in fleet ensures exists c :: c in inv.workers && ShowsWorker(c, w) {
      var i :| 0 <= i < |fleet| && fleet[i] == w;
      assert cells[i] in multiset(cells);
      assert cells[i] in inv.workers && ShowsWorker(cells[i], w);
    }
    forall c | c in inv.workers ensures exists w :: w in fleet && ShowsWorker(c, w) {
      assert c in multiset(inv.workers);
      var i :| 0 <= i < |cells| && cells[i] == c;
      assert fleet[i] in fleet && ShowsWorker(c, fleet[i]);
    }
  }

  lemma CellsPermute(f: seq<Worker>, g: seq<Worker>, a: seq<Cell>, b: seq<Cell>)
    requires multiset(f) == multiset(g)
    requires StrictlySorted(IdOf, a) && StrictlySorted(IdOf, b)
    requires multiset(a) == multiset(Cells(f)) && multiset(b) == multiset(Cells(g))
    ensures a == b
  {
    MembersPermute(f, g);
    forall c ensures c in a <==> c in b {
      assert c in a <==> c in multiset(a);
      assert c in b <==> c in multiset(b);
      CellMembers(f, c);
      CellMembers(g, c);
    }
    StrictlySortedUnique(IdOf, a, b);
  }

  /** The whole response is the same for every order of the snapshot and for every order in
      which Go ranges over the map. */
  lemma InventoryIgnoresOrder(f: seq<Worker>, g: seq<Worker>, a: Inventory, b: Inventory)
    requires multiset(f) == multiset(g)
    requires DistinctIds(f) && DistinctIds(g)
    requires IsInventory(f, a) && IsInventory(g, b)
    ensures a == b
  {
    RollupPermutes(f, g, a.fleet, b.fleet);
    ByTypePermutes(f, g, a.byType, b.byType);
    CellsPermute(f, g, a.workers, b.workers);
  }
}
