/** The repair signal from readers to the ingestor, and the budget its truncations are charged to. */
module Repair {
  import opened Base

  /** "Nothing reported": no block height reaches it. */
  const NOTHING: nat := U64_MAX

  /** One atomic cell, updated by fetch-min and swap. */
  class RepairSignal {
    var lowest: u64

    constructor ()
      ensures lowest == NOTHING
    {
      lowest := NOTHING;
    }

    method Report(height: u64)
      modifies this
      ensures lowest == SlotAfter(old(lowest), Reported(height))
    {
      lowest := Min(lowest, height);
    }

    method Take() returns (height: Option<u64>)
      modifies this
      ensures lowest == SlotAfter(old(lowest), Taken)
      ensures height == if old(lowest) == NOTHING then None else Some(old(lowest))
    {
      height := if lowest == NOTHING then None else Some(lowest);
      lowest := NOTHING;
    }
  }

  // ---- Every interleaving of reports and takes ----

  datatype SignalOp = Reported(height: u64) | Taken

  function SlotAfter(slot: u64, op: SignalOp): u64 {
    match op
    case Reported(h) => Min(slot, h)
    case Taken => NOTHING
  }

  /** The cell after `ops`, from a fresh signal. */
  function Slot(ops: seq<SignalOp>): u64 {
    if ops == [] then NOTHING else SlotAfter(Slot(ops[..|ops| - 1]), ops[|ops| - 1])
  }

  /** The heights reported since the last take. */
  function Outstanding(ops: seq<SignalOp>): set<nat> {
    if ops == [] then {}
    else
      match ops[|ops| - 1]
      case Reported(h) => Outstanding(ops[..|ops| - 1]) + {h}
      case Taken => {}
  }

  /** The cell holds the minimum of the reports no take has claimed, so that is what a take returns. */
  lemma {:induction false} SlotIsMinimum(ops: seq<SignalOp>)
    ensures forall h :: h in Outstanding(ops) ==> Slot(ops) <= h
    ensures Slot(ops) == NOTHING || Slot(ops) in Outstanding(ops)
    ensures Slot(ops) == NOTHING <==> forall h :: h in Outstanding(ops) ==> h == NOTHING
  {
    if ops != [] {
      SlotIsMinimum(ops[..|ops| - 1]);
      assert forall h :: h in Outstanding(ops) ==> h <= NOTHING by {
        OutstandingBounded(ops);
      }
    }
  }

  lemma {:induction false} OutstandingBounded(ops: seq<SignalOp>)
    ensures forall h :: h in Outstanding(ops) ==> h <= NOTHING
  {
    if ops != [] {
      OutstandingBounded(ops[..|ops| - 1]);
    }
  }

  // ---- The budget ----

  const MAX_REPAIRS_PER_WINDOW: nat := 5

  /** 600 seconds, in the nanoseconds the clock counts. */
  const REPAIR_WINDOW: nat := 600_000_000_000

  datatype Budget = Budget(spent: nat, started: nat, refusalLogged: bool)

  function NewBudget(now: nat): Budget { Budget(0, now, false) }

  /** `try_spend`; a clock reading before the window opened counts as no time passed. */
  function TrySpend(b: Budget, now: nat): (Budget, bool) {
    var open := if SatSub(now, b.started) >= REPAIR_WINDOW then NewBudget(now) else b;
    if open.spent >= MAX_REPAIRS_PER_WINDOW then (open, false)
    else (open.(spent := open.spent + 1), true)
  }

  class RepairBudget {
    var spent: nat
    var started: nat
    var refusalLogged: bool

    ghost function View(): Budget
      reads this
    {
      Budget(spent, started, refusalLogged)
    }

    constructor (now: nat)
      ensures View() == NewBudget(now)
    {
      spent, started, refusalLogged := 0, now, false;
    }

    method Spend(now: nat) returns (granted: bool)
      modifies this
      ensures (View(), granted) == TrySpend(old(View()), now)
    {
      if SatSub(now, started) >= REPAIR_WINDOW {
        spent, started, refusalLogged := 0, now, false;
      }
      if spent >= MAX_REPAIRS_PER_WINDOW {
        return false;
      }
      spent := spent + 1;
      granted := true;
    }

    method FirstRefusalOfWindow() returns (first: bool)
      modifies this
      ensures first == !old(refusalLogged) && View() == old(View()).(refusalLogged := true)
    {
      first := !refusalLogged;
      refusalLogged := true;
    }
  }

  /** How many of the requests at `clock` are granted, starting from `b`. */
  function Grants(b: Budget, clock: seq<nat>): nat
    decreases |clock|
  {
    if clock == [] then 0
    else
      var (after, granted) := TrySpend(b, clock[0]);
      (if granted then 1 else 0) + Grants(after, clock[1..])
  }

  predicate NonDecreasing(from: nat, clock: seq<nat>) {
    && (clock != [] ==> from <= clock[0])
    && forall i, j :: 0 <= i <= j < |clock| ==> clock[i] <= clock[j]
  }

  // ---- Which requests are granted ----

  /** When the window that is open after requests at `clock` was opened. */
  function OpenedAt(created: nat, clock: seq<nat>): nat
    decreases |clock|
  {
    if clock == [] then created
    else
      var was, now := OpenedAt(created, clock[..|clock| - 1]), clock[|clock| - 1];
      if SatSub(now, was) >= 600_000_000_000 then now else was
  }

  /** How many of the requests fell into it. */
  function RequestsInWindow(created: nat, clock: seq<nat>): nat
    decreases |clock|
  {
    if clock == [] then 0
    else
      var front := clock[..|clock| - 1];
      if OpenedAt(created, clock) == OpenedAt(created, front) && SatSub(clock[|clock| - 1], OpenedAt(created, front)) < 600_000_000_000
      then RequestsInWindow(created, front) + 1 else 1
  }

  function BudgetAfter(created: nat, clock: seq<nat>): Budget
    decreases |clock|
  {
    if clock == [] then NewBudget(created) else TrySpend(BudgetAfter(created, clock[..|clock| - 1]), clock[|clock| - 1]).0
  }

  /** The first five requests of every window are granted, and no others. */
  lemma {:induction false} FirstFiveAreGranted(created: nat, clock: seq<nat>)
    ensures BudgetAfter(created, clock).started == OpenedAt(created, clock)
    ensures BudgetAfter(created, clock).spent == Min(RequestsInWindow(created, clock), 5)
    ensures clock != [] ==>
              (TrySpend(BudgetAfter(created, clock[..|clock| - 1]), clock[|clock| - 1]).1 <==> RequestsInWindow(created, clock) <= 5)
    decreases |clock|
  {
    if clock != [] {
      FirstFiveAreGranted(created, clock[..|clock| - 1]);
    }
  }

  /** What `b` can still grant by `last`. */
  function Allowance(b: Budget, last: nat): nat
    requires b.spent <= MAX_REPAIRS_PER_WINDOW && b.started <= last
  {
    (MAX_REPAIRS_PER_WINDOW - b.spent) + 5 * ((last - b.started) / REPAIR_WINDOW)
  }

  /** A grant uses up one of them, and nothing adds any. */
  lemma SpendingUsesAllowance(b: Budget, now: nat, last: nat)
    requires b.spent <= MAX_REPAIRS_PER_WINDOW && b.started <= now <= last
    ensures var (after, granted) := TrySpend(b, now);
            && after.spent <= MAX_REPAIRS_PER_WINDOW && after.started <= now
            && (if granted then 1 else 0) + Allowance(after, last) <= Allowance(b, last)
  {
    if now - b.started >= REPAIR_WINDOW {
      assert (last - b.started) / REPAIR_WINDOW >= (last - now) / REPAIR_WINDOW + 1;
    }
  }

  lemma {:induction false} GrantsBound(b: Budget, clock: seq<nat>, last: nat)
    requires b.spent <= MAX_REPAIRS_PER_WINDOW && NonDecreasing(b.started, clock)
    requires b.started <= last && forall i :: 0 <= i < |clock| ==> clock[i] <= last
    ensures Grants(b, clock) <= Allowance(b, last)
    decreases |clock|
  {
    if clock != [] {
      var now := clock[0];
      var (after, granted) := TrySpend(b, now);
      assert NonDecreasing(after.started, clock[1..]) by {
        forall i | 0 <= i < |clock[1..]| ensures after.started <= clock[1..][i] {
          assert clock[0] <= clock[i + 1];
        }
      }
      SpendingUsesAllowance(b, now, last);
      GrantsBound(after, clock[1..], last);
    }
  }

  /** At most five repairs in every started window of 600 seconds since the budget was created. */
  lemma RepairRate(created: nat, clock: seq<nat>)
    requires clock != [] && NonDecreasing(created, clock)
    ensures Grants(NewBudget(created), clock) <= 5 * ((clock[|clock| - 1] - created) / REPAIR_WINDOW + 1)
  {
    GrantsBound(NewBudget(created), clock, clock[|clock| - 1]);
  }
}
