/** The closed-loop load driver: concurrent workers claiming request indices under a shared
    budget (internal/loadtest/driver.go runClosedLoop). */
module LoadDriver {
  import opened Prelude
  import opened Ordering
  import opened Mix
  import opened MixShares

  /** Where a worker stands: about to look at the context, about to claim, waiting for the
      response to request i, about to record it, or gone. */
  datatype Pc = Check | Claim | Waiting(i: nat) | Recording(i: nat) | Gone

  /** claimed and dropped are histories: every index handed out, and those discarded because
      the run ended while they were in flight. */
  datatype World = World(
    issued: nat, reqIndex: nat, cancelled: bool, workers: seq<Pc>, results: seq<nat>,
    claimed: seq<nat>, dropped: seq<nat>)

  /** A worker's next step; broken says its request, if it awaits one, ends in a transport
      error. Cancel is the deadline or an interrupt. */
  datatype Action = Step(worker: nat, broken: bool) | Cancel

  function Start(workers: nat): World {
    World(0, 0, false, seq(workers, _ => Check), [], [], [])
  }

  /** The claim critical section: the next index, unless the budget is spent. */
  function ClaimIndex(budget: nat, w: World): (World, Option<nat>) {
    if budget > 0 && w.issued >= budget then (w, None)
    else
      (w.(reqIndex := w.reqIndex + 1, issued := w.issued + 1, claimed := w.claimed + [w.reqIndex]), Some(w.reqIndex))
  }

  function StepWorker(budget: nat, w: World, k: nat, broken: bool): World
    requires k < |w.workers|
  {
    match w.workers[k]
    case Check => w.(workers := w.workers[k := if w.cancelled then Gone else Claim])
    case Claim =>
      var (w', i) := ClaimIndex(budget, w);
      w'.(workers := w.workers[k := if i.Some? then Waiting(i.value) else Gone])
    case Waiting(i) =>
      if broken && w.cancelled then w.(workers := w.workers[k := Check], dropped := w.dropped + [i])
      else w.(workers := w.workers[k := Recording(i)])
    case Recording(i) => w.(workers := w.workers[k := Check], results := w.results + [i])
    case Gone => w
  }

  function Next(budget: nat, w: World, a: Action): World {
    match a
    case Cancel => w.(cancelled := true)
    case Step(k, broken) => if k < |w.workers| then StepWorker(budget, w, k, broken) else w
  }

  function Run(budget: nat, workers: nat, actions: seq<Action>): World {
    if actions == [] then Start(workers)
    else Next(budget, Run(budget, workers, actions[..|actions| - 1]), actions[|actions| - 1])
  }

  /** The mutex-guarded counters. */
  class Counter {
    const budget: nat
    var issued: nat
    var reqIndex: nat

    constructor (budget: nat)
      ensures this.budget == budget && issued == 0 && reqIndex == 0
    {
      this.budget, issued, reqIndex := budget, 0, 0;
    }

    method ClaimNext() returns (i: Option<nat>)
      modifies this
      ensures forall w: World :: w.issued == old(issued) && w.reqIndex == old(reqIndex) ==>
        var (w', j) := ClaimIndex(budget, w);
        i == j && issued == w'.issued && reqIndex == w'.reqIndex
    {
      if budget > 0 && issued >= budget { return None; }
      i := Some(reqIndex);
      reqIndex := reqIndex + 1;
      issued := issued + 1;
    }
  }

  // ----- the invariant -----

  predicate Holds(pc: Pc, i: nat) { pc == Waiting(i) || pc == Recording(i) }

  function Is(i: nat): nat -> int { (j: nat) => if j == i then 1 else 0 }

  function Holding(i: nat): Pc -> int { (pc: Pc) => if Holds(pc, i) then 1 else 0 }

  /** How often an index is listed. */
  function Occurs(s: seq<nat>, i: nat): int { Total(Is(i), s) }

  /** How many workers have request i in their hands. */
  function InFlight(workers: seq<Pc>, i: nat): int { Total(Holding(i), workers) }

  /** Where request i is: recorded, discarded or in flight. */
  function Places(w: World, i: nat): int { Occurs(w.results, i) + Occurs(w.dropped, i) + InFlight(w.workers, i) }

  ghost predicate Inv(budget: nat, workers: nat, w: World) {
    && |w.workers| == workers
    && w.issued == w.reqIndex
    && w.claimed == Naturals(w.issued)
    && (budget > 0 ==> w.issued <= budget)
    && (forall i: nat :: Places(w, i) == if i < w.issued then 1 else 0)
    && (!w.cancelled ==> w.dropped == [])
    && (forall k :: 0 <= k < workers && w.workers[k].Gone? ==> w.cancelled || (budget > 0 && w.issued == budget))
  }

  /** 0, 1, ..., n - 1. */
  function Naturals(n: nat): (s: seq<nat>)
    ensures |s| == n && forall i :: 0 <= i < n ==> s[i] == i
  {
    if n == 0 then [] else Naturals(n - 1) + [n - 1]
  }

  lemma StepKeepsPlaces(budget: nat, w: World, k: nat, broken: bool, i: nat)
    requires k < |w.workers| && w.issued == w.reqIndex
    requires Places(w, i) == if i < w.issued then 1 else 0
    ensures var w' := StepWorker(budget, w, k, broken);
            Places(w', i) == if i < w'.issued then 1 else 0
  {
    var w' := StepWorker(budget, w, k, broken);
    Moved(w.workers, w'.workers, k, i);
    var flown := InFlight(w'.workers, i) - InFlight(w.workers, i);
    match w.workers[k] {
      case Waiting(j) => Landed(w.dropped, j, i);
      case Recording(j) => Landed(w.results, j, i);
      case Claim =>
        assert flown == if i == w.issued && w'.issued > w.issued then 1 else 0;
      case _ =>
        assert flown == 0;
    }
  }

  lemma Landed(s: seq<nat>, j: nat, i: nat)
    ensures Occurs(s + [j], i) == Occurs(s, i) + (if j == i then 1 else 0)
  {
    TotalSnoc(Is(i), s, j);
  }

  lemma Moved(before: seq<Pc>, after: seq<Pc>, k: nat, i: nat)
    requires k < |before| == |after| && after == before[k := after[k]]
    ensures InFlight(after, i)
         == InFlight(before, i) - (if Holds(before[k], i) then 1 else 0) + (if Holds(after[k], i) then 1 else 0)
  {
    TotalUpdate(Holding(i), before, k, after[k]);
  }

  lemma StepKeepsInv(budget: nat, workers: nat, w: World, k: nat, broken: bool)
    requires Inv(budget, workers, w) && k < |w.workers|
    ensures Inv(budget, workers, StepWorker(budget, w, k, broken))
  {
    forall i: nat ensures Places(StepWorker(budget, w, k, broken), i)
                       == if i < StepWorker(budget, w, k, broken).issued then 1 else 0
    {
      assert Places(w, i) == if i < w.issued then 1 else 0;
      StepKeepsPlaces(budget, w, k, broken, i);
    }
  }

  lemma {:induction false} RunInv(budget: nat, workers: nat, actions: seq<Action>)
    ensures Inv(budget, workers, Run(budget, workers, actions))
  {
    if actions == [] {
      forall i: nat { TotalZero(Holding(i), Start(workers).workers); }
    } else {
      RunInv(budget, workers, actions[..|actions| - 1]);
      var w, a := Run(budget, workers, actions[..|actions| - 1]), actions[|actions| - 1];
      if a.Step? && a.worker < |w.workers| {
        StepKeepsInv(budget, workers, w, a.worker, a.broken);
      } else {
        assert forall i: nat :: Places(Next(budget, w, a), i) == Places(w, i);
      }
    }
  }

  // ----- the theorems -----

  /** For every interleaving, the indices handed out are exactly 0, 1, ... without gap or
      repeat, never more than the budget, and each is in flight, recorded once, or discarded
      after the run ended. */
  lemma ClaimsAreExact(budget: nat, workers: nat, actions: seq<Action>)
    ensures var w := Run(budget, workers, actions);
      && w.claimed == Naturals(w.issued)
      && (budget > 0 ==> w.issued <= budget)
      && (forall i: nat :: Places(w, i) == if i < w.issued then 1 else 0)
      && (!w.cancelled ==> w.dropped == [])
  {
    RunInv(budget, workers, actions);
  }

  /** A run that nothing cancels ends with the whole budget issued and one result for every
      request. */
  lemma FinishedRunIsComplete(budget: nat, workers: nat, actions: seq<Action>)
    requires budget > 0 && workers > 0
    requires var w := Run(budget, workers, actions);
             !w.cancelled && forall k :: 0 <= k < |w.workers| ==> w.workers[k].Gone?
    ensures var w := Run(budget, workers, actions);
            w.issued == budget && forall i: nat :: Occurs(w.results, i) == if i < budget then 1 else 0
  {
    RunInv(budget, workers, actions);
    var w := Run(budget, workers, actions);
    assert w.workers[0].Gone?;
    forall i: nat ensures Occurs(w.results, i) == if i < budget then 1 else 0 {
      TotalZero(Holding(i), w.workers);
      assert Places(w, i) == if i < w.issued then 1 else 0;
    }
  }

  // ----- termination -----

  /** How far a worker is from its next claim, roughly. */
  function Rank(pc: Pc): int {
    match pc
    case Gone => 0
    case Claim => 1
    case Check => 2
    case Recording(_) => 3
    case Waiting(_) => 4
  }

  /** What is left to do, counted in steps. */
  function Left(budget: nat, w: World): int { 4 * (budget - w.issued) + Total(Rank, w.workers) }

  predicate Effective(w: World, a: Action) { a.Step? && a.worker < |w.workers| && !w.workers[a.worker].Gone? }

  /** The steps of a run that some worker still had to take. */
  function EffectiveSteps(budget: nat, workers: nat, actions: seq<Action>): nat {
    if actions == [] then 0
    else
      var before, a := actions[..|actions| - 1], actions[|actions| - 1];
      EffectiveSteps(budget, workers, before) + (if Effective(Run(budget, workers, before), a) then 1 else 0)
  }

  lemma StepLeavesLess(budget: nat, w: World, a: Action)
    requires budget > 0
    ensures Left(budget, Next(budget, w, a)) + (if Effective(w, a) then 1 else 0) <= Left(budget, w)
  {
    if a.Step? && a.worker < |w.workers| {
      var k, w' := a.worker, Next(budget, w, a);
      TotalUpdate(Rank, w.workers, k, w'.workers[k]);
      assert w'.workers == w.workers[k := w'.workers[k]];
    }
  }

  lemma {:induction false} RanksBounded(workers: seq<Pc>)
    ensures 0 <= Total(Rank, workers) <= 4 * |workers|
  {
    if workers != [] { RanksBounded(workers[..|workers| - 1]); }
  }

  lemma {:induction false} StartRank(workers: seq<Pc>)
    requires forall k :: 0 <= k < |workers| ==> workers[k].Check?
    ensures Total(Rank, workers) == 2 * |workers|
  {
    if workers != [] { StartRank(workers[..|workers| - 1]); }
  }

  lemma {:induction false} StepsPlusLeft(budget: nat, workers: nat, actions: seq<Action>)
    requires budget > 0
    ensures EffectiveSteps(budget, workers, actions) + Left(budget, Run(budget, workers, actions))
         <= 4 * budget + 2 * workers
  {
    if actions == [] {
      StartRank(Start(workers).workers);
    } else {
      var before := actions[..|actions| - 1];
      StepsPlusLeft(budget, workers, before);
      StepLeavesLess(budget, Run(budget, workers, before), actions[|actions| - 1]);
    }
  }

  /** With a budget every run is over, whatever the interleaving and with or without
      cancellation, after at most four steps a request and two a worker. */
  lemma RunsAreBounded(budget: nat, workers: nat, actions: seq<Action>)
    requires budget > 0
    ensures EffectiveSteps(budget, workers, actions) <= 4 * budget + 2 * workers
  {
    StepsPlusLeft(budget, workers, actions);
    RunInv(budget, workers, actions);
    RanksBounded(Run(budget, workers, actions).workers);
  }

  // ----- the mix -----

  /** How many of the indices an endpoint is responsible for. */
  function CountOf(m: Mix, indices: seq<nat>, ep: string): nat {
    if indices == [] then 0
    else CountOf(m, indices[..|indices| - 1], ep) + (if Pick(m, indices[|indices| - 1]) == ep then 1 else 0)
  }

  lemma {:induction false} CountOfNaturals(m: Mix, n: nat, ep: string)
    ensures CountOf(m, Naturals(n), ep) == Picks(m, 0, n, ep)
    decreases n
  {
    if n > 0 {
      assert Naturals(n)[..n - 1] == Naturals(n - 1);
      CountOfNaturals(m, n - 1, ep);
    }
  }

  /** So whichever worker issues which request, at every moment each endpoint has its share of
      the requests issued so far. */
  lemma EveryRunHonoursTheMix(budget: nat, workers: nat, actions: seq<Action>, m: Mix, ep: string)
    requires WellFormed(m) && NoOverflow(m)
    ensures m.total > 0
    ensures var w := Run(budget, workers, actions);
            var rounds, weight := w.issued / m.total, WeightOf(m.entries, ep);
            rounds * weight <= CountOf(m, w.claimed, ep)
              <= rounds * weight + (if w.issued % m.total == 0 then 0 else weight)
  {
    RunInv(budget, workers, actions);
    var w := Run(budget, workers, actions);
    CountOfNaturals(m, w.issued, ep);
    ShareIsBounded(m, 0, w.issued, ep);
  }
}
