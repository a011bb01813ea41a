/** Every writer together: the cache is one chain in every run, whatever the node, the readers, the operator
    and the snapshot peer do. */
module Runs {
  import opened Base
  import opened Blocks
  import opened BlockStore
  import opened BlockCache
  import opened Recovery
  import opened Repair
  import opened Ingestor
  import opened Manifests
  import opened Import
  import opened ImportRun
  import opened ImportTheorems
  import RangeServer

  // ---- From a reader's report to its repair ----

  /** Requests never ask for height zero, so the corner in which a repair keeps the reported block is out of a
      reader's reach: acting on what a response reported always leaves nothing at or above it. */
  lemma ReaderReportsAreCleared(p: Primitives, views: nat -> Table, answers: RangeServer.NodeAnswers, from: nat, to: nat,
                                response: RangeServer.Stream, s: Store, start: nat)
    requires from > 0 && to > 0
    requires RangeServer.ServedBy(p, views, answers, from, to, response) && response.report.Some?
    requires Range(s.blocks).Some? && Range(s.blocks).value.0 <= response.report.value <= Range(s.blocks).value.1
    ensures forall h :: h in Repaired(s, response.report.value, start).blocks ==> h < response.report.value
  {
    RangeServer.ReportIsRequested(p, views, answers, from, to, response);
    RepairClearsReport(s, response.report.value, start);
  }

  // ---- One iteration of the ingestor's loop ----

  const MAX_CONSECUTIVE_RECOVERIES: nat := 5

  /** What the loop does after a step, besides counting. */
  datatype Reaction = GoOn | IdlePoll | RecoverNow | BackOff

  /** The next recovery count, and the reaction to a step that ended in `outcome`. */
  function React(recoveries: nat, outcome: Outcome): (nat, Reaction) {
    match outcome
    case Ok(Advanced) => (0, GoOn)
    case Ok(Idle) => (0, IdlePoll)
    case Err(e) =>
      if e.IsCorruption() && recoveries < MAX_CONSECUTIVE_RECOVERIES then (recoveries + 1, RecoverNow)
      else (0, BackOff)
  }

  /** The cache after the loop has acted on the repair slot: an in-range report is repaired if the budget
      allows. */
  function AfterRepair(s: Store, reported: Option<nat>, start: nat, granted: bool): Store {
    if reported.Some? && granted then Repaired(s, reported.value, start) else s
  }

  /** The cache after one iteration. */
  function LoopBody(p: Primitives, s: Store, reported: Option<nat>, granted: bool, start: nat, window: nat, node: Node, recoveries: nat): Store {
    var (stepped, outcome) := Step(p, AfterRepair(s, reported, start, granted), start, window, node);
    if React(recoveries, outcome).1 == RecoverNow then Recovered(p, stepped) else stepped
  }

  predicate Reports(slot: nat, s: Store) {
    slot != NOTHING && Range(s.blocks).Some? && Range(s.blocks).value.0 <= slot <= Range(s.blocks).value.1
  }

  /** The repair cell after one iteration: emptied, unless the budget refused what it held. */
  function SlotAfterLoop(slot: nat, s: Store, budget: Budget, now: nat): nat {
    if Reports(slot, s) && !TrySpend(budget, now).1 then slot else NOTHING
  }

  /** The budget after one iteration: charged only for a report in range. */
  function BudgetAfterLoop(slot: nat, s: Store, budget: Budget, now: nat): Budget {
    var (charged, granted) := TrySpend(budget, now);
    if !Reports(slot, s) then budget else if granted then charged else charged.(refusalLogged := true)
  }

  method RunLoopBody(cache: Cache, signal: RepairSignal, budget: RepairBudget, start: nat, window: nat, node: Node, now: nat, recoveries: nat)
    returns (counted: nat, reaction: Reaction)
    requires cache.Valid()
    modifies cache, signal, budget
    ensures cache.Valid()
    ensures var reported := if old(signal.lowest) == NOTHING then None else Some(old(signal.lowest));
            var before := old(cache.View());
            var granted := TrySpend(old(budget.View()), now).1;
            && cache.View() == LoopBody(cache.p, before, reported, granted, start, window, node, recoveries)
            && (counted, reaction) == React(recoveries, Step(cache.p, AfterRepair(before, reported, start, granted), start, window, node).1)
    ensures signal.lowest == SlotAfterLoop(old(signal.lowest), old(cache.View()), old(budget.View()), now)
    ensures budget.View() == BudgetAfterLoop(old(signal.lowest), old(cache.View()), old(budget.View()), now)
    ensures LoopState(cache.View(), signal.lowest, budget.View(), counted)
         == Iteration(cache.p, LoopState(old(cache.View()), old(signal.lowest), old(budget.View()), recoveries),
                      start, window, Moment([], now, node)).0
  {
    ghost var granted := TrySpend(budget.View(), now).1;
    var reported := signal.Take();
    if reported.Some? {
      RepairReported(cache, reported.value, start, signal, budget, now);
    }
    assert cache.View() == AfterRepair(old(cache.View()), reported, start, granted);
    var outcome := RunStep(cache, start, window, node);
    counted, reaction := Respond(cache, recoveries, outcome);
  }

  /** What follows a step: on corruption, recovery, unless it has been tried too often. */
  method Respond(cache: Cache, recoveries: nat, outcome: Outcome) returns (counted: nat, reaction: Reaction)
    requires cache.Valid()
    modifies cache
    ensures cache.Valid() && (counted, reaction) == React(recoveries, outcome)
    ensures cache.View() == if reaction == RecoverNow then Recovered(cache.p, old(cache.View())) else old(cache.View())
  {
    counted, reaction := 0, GoOn;
    match outcome {
      case Ok(Advanced) =>
      case Ok(Idle) => reaction := IdlePoll;
      case Err(e) =>
        if e.IsCorruption() && recoveries < MAX_CONSECUTIVE_RECOVERIES {
          counted, reaction := recoveries + 1, RecoverNow;
          Recover(cache);
        } else {
          reaction := BackOff;
        }
    }
  }

  /** The reactions to successive outcomes. */
  function Reactions(recoveries: nat, outcomes: seq<Outcome>): seq<Reaction>
    decreases |outcomes|
  {
    if outcomes == [] then []
    else
      var (next, reaction) := React(recoveries, outcomes[0]);
      [reaction] + Reactions(next, outcomes[1..])
  }

  /** The loop never recovers more than five times in a row without a successful step or a pause. */
  lemma {:induction false} RecoveriesAreBounded(recoveries: nat, outcomes: seq<Outcome>)
    requires recoveries <= MAX_CONSECUTIVE_RECOVERIES
    requires forall r :: r in Reactions(recoveries, outcomes) ==> r == RecoverNow
    ensures recoveries + |outcomes| <= MAX_CONSECUTIVE_RECOVERIES
    decreases |outcomes|
  {
    if outcomes != [] {
      var (next, reaction) := React(recoveries, outcomes[0]);
      assert Reactions(recoveries, outcomes)[0] == reaction;
      assert reaction in Reactions(recoveries, outcomes);
      assert forall r :: r in Reactions(next, outcomes[1..]) ==> r in Reactions(recoveries, outcomes);
      RecoveriesAreBounded(next, outcomes[1..]);
    }
  }

  // ---- Which steps are answered by recovery ----

  predicate Corrupted(outcome: Outcome) {
    outcome.Err? && outcome.error.IsCorruption()
  }

  /** How many steps in a row, up to the last, ended in corruption. */
  function CorruptRun(outcomes: seq<Outcome>): nat
    decreases |outcomes|
  {
    if outcomes != [] && Corrupted(outcomes[|outcomes| - 1]) then CorruptRun(outcomes[..|outcomes| - 1]) + 1 else 0
  }

  function CountAfter(recoveries: nat, outcomes: seq<Outcome>): nat
    decreases |outcomes|
  {
    if outcomes == [] then recoveries else React(CountAfter(recoveries, outcomes[..|outcomes| - 1]), outcomes[|outcomes| - 1]).0
  }

  lemma {:induction false} CountFirst(recoveries: nat, outcomes: seq<Outcome>)
    requires outcomes != []
    ensures CountAfter(recoveries, outcomes) == CountAfter(React(recoveries, outcomes[0]).0, outcomes[1..])
    decreases |outcomes|
  {
    var n := |outcomes| - 1;
    if n > 0 {
      CountFirst(recoveries, outcomes[..n]);
      assert outcomes[..n][1..] == outcomes[1..][..n - 1];
    } else {
      assert outcomes[..0] == [] && outcomes[1..] == [];
    }
  }

  lemma {:induction false} ReactionAt(recoveries: nat, outcomes: seq<Outcome>, i: nat)
    requires i < |outcomes|
    ensures |Reactions(recoveries, outcomes)| == |outcomes|
    ensures Reactions(recoveries, outcomes)[i] == React(CountAfter(recoveries, outcomes[..i]), outcomes[i]).1
    decreases |outcomes|
  {
    var tail := outcomes[1..];
    var next := React(recoveries, outcomes[0]).0;
    if i > 0 {
      ReactionAt(next, tail, i - 1);
      CountFirst(recoveries, outcomes[..i]);
      assert outcomes[..i][1..] == tail[..i - 1];
    } else if tail != [] {
      ReactionAt(next, tail, 0);
    } else {
      assert Reactions(next, tail) == [];
    }
    assert outcomes[..0] == [];
  }

  lemma {:induction false} CountIsRun(outcomes: seq<Outcome>)
    ensures CountAfter(0, outcomes) == CorruptRun(outcomes) % 6
    decreases |outcomes|
  {
    if outcomes != [] {
      CountIsRun(outcomes[..|outcomes| - 1]);
    }
  }

  /** The loop recovers after a step exactly when the step ended in corruption, but for every sixth such step in a
      row, after which it pauses as after any other error; it polls exactly when there is nothing to do. */
  lemma RecoversExactly(outcomes: seq<Outcome>, i: nat)
    requires i < |outcomes|
    ensures |Reactions(0, outcomes)| == |outcomes|
    ensures var reaction := Reactions(0, outcomes)[i];
            && (reaction == RecoverNow <==> Corrupted(outcomes[i]) && CorruptRun(outcomes[..i]) % 6 != 5)
            && (reaction == BackOff <==> outcomes[i].Err? && !(Corrupted(outcomes[i]) && CorruptRun(outcomes[..i]) % 6 != 5))
            && (reaction == IdlePoll <==> outcomes[i] == Ok(Idle))
            && (reaction == GoOn <==> outcomes[i] == Ok(Advanced))
  {
    ReactionAt(0, outcomes, i);
    CountIsRun(outcomes[..i]);
  }

  // ---- A granted report is acted on before the step ----

  lemma RecoveryKeepsRows(p: Primitives, s: Store)
    ensures forall h: nat :: h in Recovered(p, s).blocks ==> h in s.blocks && Recovered(p, s).blocks[h] == s.blocks[h]
  {
  }

  /** After an iteration whose report was in range and granted, nothing at or above the reported height is left but
      what the node gave in that very iteration, but for the corner at height zero. */
  lemma IterationRepairsFirst(p: Primitives, l: LoopState, start: nat, window: nat, m: Moment, next: LoopState, slot: u64)
    requires slot == Lower(l.slot, m.reports) && Reports(slot, l.store) && TrySpend(l.budget, m.now).1
    requires !(slot == 0 && start == 0 && Range(l.store.blocks).value.1 > 0)
    requires next == Iteration(p, l, start, window, m).0
    ensures forall h: nat :: h in next.store.blocks && slot <= h ==>
              FetchAt(m.node, h).Got? && next.store.blocks[h] == p.encode(FetchAt(m.node, h).block)
  {
    var repaired := AfterRepair(l.store, Some(slot), start, true);
    RepairClearsReport(l.store, slot, start);
    StepRows(p, repaired, start, window, m.node);
    RecoveryKeepsRows(p, Step(p, repaired, start, window, m.node).0);
  }

  // ---- Repairs over a run of the loop ----

  /** The loop between iterations. */
  datatype LoopState = LoopState(store: Store, slot: u64, budget: Budget, recoveries: nat)

  /** What one iteration meets: the reports since the last, the clock and the node. */
  datatype Moment = Moment(reports: seq<u64>, now: nat, node: Node)

  function Lower(slot: u64, reports: seq<u64>): u64 {
    if reports == [] then slot else SlotAfter(Lower(slot, reports[..|reports| - 1]), Reported(reports[|reports| - 1]))
  }

  /** One iteration, and whether it repaired. */
  function Iteration(p: Primitives, l: LoopState, start: nat, window: nat, m: Moment): (LoopState, bool) {
    var slot := Lower(l.slot, m.reports);
    var reported := if slot == NOTHING then None else Some(slot);
    var granted := TrySpend(l.budget, m.now).1;
    var outcome := Step(p, AfterRepair(l.store, reported, start, granted), start, window, m.node).1;
    (LoopState(LoopBody(p, l.store, reported, granted, start, window, m.node, l.recoveries),
               SlotAfterLoop(slot, l.store, l.budget, m.now), BudgetAfterLoop(slot, l.store, l.budget, m.now),
               React(l.recoveries, outcome).0),
     Reports(slot, l.store) && granted)
  }

  function Repairs(p: Primitives, l: LoopState, start: nat, window: nat, run: seq<Moment>): nat
    decreases |run|
  {
    if run == [] then 0
    else
      var (next, repaired) := Iteration(p, l, start, window, run[0]);
      (if repaired then 1 else 0) + Repairs(p, next, start, window, run[1..])
  }

  /** The clock does not go back. */
  predicate OnTime(from: nat, run: seq<Moment>, last: nat) {
    && from <= last
    && (forall i :: 0 <= i < |run| ==> from <= run[i].now <= last)
    && (forall i, j :: 0 <= i <= j < |run| ==> run[i].now <= run[j].now)
  }

  lemma IterationUsesAllowance(p: Primitives, l: LoopState, start: nat, window: nat, m: Moment, last: nat, next: LoopState, repaired: bool)
    requires l.budget.spent <= MAX_REPAIRS_PER_WINDOW && l.budget.started <= m.now <= last
    requires (next, repaired) == Iteration(p, l, start, window, m)
    ensures next.budget.spent <= MAX_REPAIRS_PER_WINDOW && next.budget.started <= m.now
    ensures (if repaired then 1 else 0) + Allowance(next.budget, last) <= Allowance(l.budget, last)
  {
    SpendingUsesAllowance(l.budget, m.now, last);
  }

  lemma {:induction false} RepairsUseAllowance(p: Primitives, l: LoopState, start: nat, window: nat, run: seq<Moment>, last: nat)
    requires l.budget.spent <= MAX_REPAIRS_PER_WINDOW && OnTime(l.budget.started, run, last)
    ensures Repairs(p, l, start, window, run) <= Allowance(l.budget, last)
    decreases |run|
  {
    if run != [] {
      var (next, repaired) := Iteration(p, l, start, window, run[0]);
      IterationUsesAllowance(p, l, start, window, run[0], last, next, repaired);
      assert OnTime(next.budget.started, run[1..], last);
      RepairsUseAllowance(p, next, start, window, run[1..], last);
    }
  }

  /** However the readers report and whatever the node does, a run of the loop makes at most five repairs in every
      started window of 600 seconds since its budget was created. */
  lemma RepairsAreBounded(p: Primitives, s: Store, slot: u64, created: nat, start: nat, window: nat, run: seq<Moment>)
    requires run != [] && OnTime(created, run, run[|run| - 1].now)
    ensures Repairs(p, LoopState(s, slot, NewBudget(created), 0), start, window, run)
            <= 5 * ((run[|run| - 1].now - created) / REPAIR_WINDOW + 1)
  {
    RepairsUseAllowance(p, LoopState(s, slot, NewBudget(created), 0), start, window, run, run[|run| - 1].now);
  }

  // ---- Every run ----

  /** One write, by whoever makes it. */
  datatype Event =
    | Loop(reported: Option<nat>, granted: bool, node: Node, recoveries: nat)
    | OperatorTruncation(height: nat)
    | EpochImport(entry: EpochEntry, chain: Bytes, anchor: Anchor, peer: Peer)

  ghost function Effect(p: Primitives, s: Store, start: nat, window: nat, e: Event): Store {
    match e
    case Loop(reported, granted, node, recoveries) => LoopBody(p, s, reported, granted, start, window, node, recoveries)
    case OperatorTruncation(height) => BlockStore.RemoveFrom(s, height)
    case EpochImport(entry, chain, anchor, peer) =>
      (match ImportEntry(p, s, entry, chain, anchor, peer)
       case Committed(after) => after
       case _ => s)
  }

  lemma RecoveryKeepsChain(p: Primitives, s: Store)
    requires IsChain(p, s.blocks)
    ensures IsChain(p, Recovered(p, s).blocks)
  {
    if LowestCorrupt(p, s.blocks).Some? {
      BelowKeepsChain(p, s.blocks, SatSub(LowestCorrupt(p, s.blocks).value, 1) + 1);
    }
  }

  lemma LoopKeepsChain(p: Primitives, s: Store, reported: Option<nat>, granted: bool, start: nat, window: nat, node: Node, recoveries: nat)
    requires p.Lawful() && IsChain(p, s.blocks)
    ensures IsChain(p, LoopBody(p, s, reported, granted, start, window, node, recoveries).blocks)
  {
    var repaired := AfterRepair(s, reported, start, granted);
    if repaired != s {
      FloorKeepsChain(p, s, SatSub(reported.value, 1), start);
    }
    StepKeepsChain(p, repaired, start, window, node);
    RecoveryKeepsChain(p, Step(p, repaired, start, window, node).0);
  }

  lemma EffectKeepsChain(p: Primitives, s: Store, start: nat, window: nat, e: Event)
    requires p.Lawful() && IsChain(p, s.blocks)
    ensures IsChain(p, Effect(p, s, start, window, e).blocks)
  {
    match e
    case Loop(reported, granted, node, recoveries) =>
      LoopKeepsChain(p, s, reported, granted, start, window, node, recoveries);
    case OperatorTruncation(height) => BelowKeepsChain(p, s.blocks, height);
    case EpochImport(entry, chain, anchor, peer) =>
      if ImportEntry(p, s, entry, chain, anchor, peer).Committed? {
        var batch := CommitLands(p, s, entry, chain, anchor, peer);
        LandingKeepsChain(p, s.blocks, batch, anchor, ImportEntry(p, s, entry, chain, anchor, peer).store.blocks);
      }
  }

  /** The cache after a run of events, each with whatever the outside world answered. */
  ghost function After(p: Primitives, s: Store, start: nat, window: nat, events: seq<Event>): Store
    decreases |events|
  {
    if events == [] then s else After(p, Effect(p, s, start, window, events[0]), start, window, events[1..])
  }

  /** In every run the cached heights form one interval, each key is its block's height, and each block's
      `prevHash` is the hash of the block below. */
  lemma {:induction false} RunsKeepOneChain(p: Primitives, s: Store, start: nat, window: nat, events: seq<Event>)
    requires p.Lawful() && IsChain(p, s.blocks)
    ensures IsChain(p, After(p, s, start, window, events).blocks)
    decreases |events|
  {
    if events != [] {
      EffectKeepsChain(p, s, start, window, events[0]);
      RunsKeepOneChain(p, Effect(p, s, start, window, events[0]), start, window, events[1..]);
    }
  }
}
