/** The pool that looks up block hashes: any number of workers that claim batches by a common counter and stop on a
    common failure flag, under every interleaving of their steps. */
module HashWorkers {
  import opened Base

  const LOOKUP_BATCH: nat := 250

  /** Looking up `lo..=hi`. `reply(i)` is what the node answers for batch `i`: `None` is an error, and the
      list may have any length. One reply a batch is no restriction, by `BatchesAreReceivedOnce`. */
  datatype Lookup = Lookup(lo: nat, hi: nat, reply: nat -> Option<seq<string>>)
  {
    function Count(): nat { if hi < lo then 0 else hi - lo + 1 }

    /** How many batches there are. */
    function Batches(): nat { (Count() + (LOOKUP_BATCH - 1)) / LOOKUP_BATCH }

    function BatchSize(i: nat): nat
      requires i < Batches()
    {
      Min(LOOKUP_BATCH, Count() - i * LOOKUP_BATCH)
    }

    predicate Wanted(h: nat) { lo <= h <= hi }

    function BatchOf(h: nat): nat
      requires Wanted(h)
    {
      (h - lo) / LOOKUP_BATCH
    }

    predicate GoodReply(i: nat)
      requires i < Batches()
    {
      reply(i).Some? && |reply(i).value| == BatchSize(i)
    }

    lemma BatchHolds(h: nat)
      requires Wanted(h)
      ensures BatchOf(h) < Batches() && (h - lo) % LOOKUP_BATCH < BatchSize(BatchOf(h))
    {
    }

    /** The node's answer for one height, when its batch was answered in full. */
    function Answer(h: nat): string
      requires Wanted(h) && BatchOf(h) < Batches() && GoodReply(BatchOf(h))
    {
      BatchHolds(h);
      reply(BatchOf(h)).value[(h - lo) % LOOKUP_BATCH]
    }

    /** Batch `i`'s heights with their answers. */
    function Pairs(i: nat): (m: map<nat, string>)
      requires i < Batches() && GoodReply(i)
      ensures forall h: nat :: h in m <==> Wanted(h) && BatchOf(h) == i
      ensures forall h :: h in m ==> m[h] == Answer(h)
    {
      map h: nat | lo <= h <= hi && Wanted(h) && BatchOf(h) == i :: Answer(h)
    }
  }

  /** A worker between its atomic steps, with what it has found so far. */
  datatype Phase = Checking | Claiming | Asking(batch: nat) | Finished | Broken

  datatype Worker = Worker(phase: Phase, found: map<nat, string>)

  datatype Pool = Pool(next: nat, failed: bool, workers: seq<Worker>)

  /** One worker's next atomic step. A relaxed load may miss a flag that is set, never see one that is not. */
  datatype Step = Load(seen: bool) | Claim | Receive | Die

  function Initial(concurrency: nat): Pool {
    Pool(0, false, seq(Max(concurrency, 1), _ => Worker(Checking, map[])))
  }

  predicate Enabled(l: Lookup, pool: Pool, w: nat, step: Step) {
    && w < |pool.workers|
    && match step
       case Load(seen) => pool.workers[w].phase.Checking? && (seen ==> pool.failed)
       case Claim => pool.workers[w].phase.Claiming?
       case Receive => pool.workers[w].phase.Asking?
       case Die => !pool.workers[w].phase.Finished? && !pool.workers[w].phase.Broken?
  }

  function With(pool: Pool, w: nat, worker: Worker): Pool
    requires w < |pool.workers|
  {
    pool.(workers := pool.workers[w := worker])
  }

  function After(l: Lookup, pool: Pool, w: nat, step: Step): Pool
    requires Enabled(l, pool, w, step)
    requires pool.workers[w].phase.Asking? ==> pool.workers[w].phase.batch < l.Batches()
  {
    var worker := pool.workers[w];
    match step
    case Load(seen) => With(pool, w, worker.(phase := if seen then Finished else Claiming))
    case Claim =>
      With(pool.(next := pool.next + 1), w,
           worker.(phase := if pool.next < l.Batches() then Asking(pool.next) else Finished))
    case Receive =>
      var i := worker.phase.batch;
      if l.GoodReply(i) then With(pool, w, Worker(Checking, worker.found + l.Pairs(i)))
      else With(pool.(failed := true), w, worker.(phase := Broken))
    case Die => With(pool, w, worker.(phase := Broken))
  }

  // ---- The invariant ----

  /** What worker `w` holds is genuine, and was claimed. */
  ghost predicate Sound(l: Lookup, pool: Pool, w: nat)
    requires w < |pool.workers|
  {
    var worker := pool.workers[w];
    && (forall h: nat :: h in worker.found ==>
          && l.Wanted(h) && l.BatchOf(h) < l.Batches() && l.BatchOf(h) < pool.next
          && l.GoodReply(l.BatchOf(h)) && worker.found[h] == l.Answer(h))
    && (worker.phase.Asking? ==> worker.phase.batch < l.Batches() && worker.phase.batch < pool.next)
    && (worker.phase.Finished? ==> pool.failed || l.Batches() < pool.next)
  }

  /** Worker `w` is asking for batch `i`, or has it. */
  ghost predicate Holds(l: Lookup, worker: Worker, i: nat) {
    worker.phase == Asking(i) || forall h: nat :: l.Wanted(h) && l.BatchOf(h) == i ==> h in worker.found
  }

  ghost predicate Held(l: Lookup, pool: Pool, i: nat) {
    exists w :: 0 <= w < |pool.workers| && Holds(l, pool.workers[w], i)
  }

  ghost predicate AnyBroken(pool: Pool) {
    exists w :: 0 <= w < |pool.workers| && pool.workers[w].phase.Broken?
  }

  ghost predicate Inv(l: Lookup, pool: Pool) {
    && pool.workers != []
    && (forall w :: 0 <= w < |pool.workers| ==> Sound(l, pool, w))
    && (pool.failed ==> AnyBroken(pool))
    && (AnyBroken(pool) || forall i {:trigger Held(l, pool, i)} :: 0 <= i < pool.next && i < l.Batches() ==> Held(l, pool, i))
  }

  lemma InitialInv(l: Lookup, concurrency: nat)
    ensures Inv(l, Initial(concurrency))
  {
  }

  lemma StepSound(l: Lookup, pool: Pool, w: nat, step: Step, v: nat)
    requires Inv(l, pool) && Enabled(l, pool, w, step) && v < |pool.workers|
    ensures pool.workers[w].phase.Asking? ==> pool.workers[w].phase.batch < l.Batches()
    ensures Sound(l, After(l, pool, w, step), v)
  {
    assert Sound(l, pool, w) && Sound(l, pool, v);
  }

  lemma BrokenStays(l: Lookup, pool: Pool, w: nat, step: Step)
    requires Inv(l, pool) && Enabled(l, pool, w, step)
    requires pool.workers[w].phase.Asking? ==> pool.workers[w].phase.batch < l.Batches()
    ensures var after := After(l, pool, w, step);
            (AnyBroken(pool) || after.workers[w].phase.Broken? ==> AnyBroken(after)) && (after.failed ==> AnyBroken(after))
  {
    var after := After(l, pool, w, step);
    if AnyBroken(pool) {
      var b :| 0 <= b < |pool.workers| && pool.workers[b].phase.Broken?;
      assert after.workers[b].phase.Broken?;
    }
    if after.workers[w].phase.Broken? {
      assert AnyBroken(after);
    }
  }

  lemma StepHeld(l: Lookup, pool: Pool, w: nat, step: Step, i: nat)
    requires Inv(l, pool) && Enabled(l, pool, w, step)
    requires pool.workers[w].phase.Asking? ==> pool.workers[w].phase.batch < l.Batches()
    requires i < After(l, pool, w, step).next && i < l.Batches()
    requires !AnyBroken(After(l, pool, w, step))
    ensures Held(l, After(l, pool, w, step), i)
  {
    var after := After(l, pool, w, step);
    BrokenStays(l, pool, w, step);
    if i < pool.next {
      assert Held(l, pool, i);
      var v :| 0 <= v < |pool.workers| && Holds(l, pool.workers[v], i);
      assert Holds(l, after.workers[v], i);
    } else {
      assert Holds(l, after.workers[w], i);
    }
  }

  lemma StepKeepsInv(l: Lookup, pool: Pool, w: nat, step: Step)
    requires Inv(l, pool) && Enabled(l, pool, w, step)
    ensures pool.workers[w].phase.Asking? ==> pool.workers[w].phase.batch < l.Batches()
    ensures Inv(l, After(l, pool, w, step))
  {
    StepSound(l, pool, w, step, w);
    var after := After(l, pool, w, step);
    forall v | 0 <= v < |after.workers| ensures Sound(l, after, v) {
      StepSound(l, pool, w, step, v);
    }
    BrokenStays(l, pool, w, step);
    if !AnyBroken(after) {
      forall i | 0 <= i < after.next && i < l.Batches() ensures Held(l, after, i) {
        StepHeld(l, pool, w, step, i);
      }
    }
  }

  // ---- Every interleaving ----

  /** `pool` leads to `last` through the scheduled steps. */
  ghost predicate Run(l: Lookup, pool: Pool, schedule: seq<(nat, Step)>, last: Pool)
    decreases |schedule|
  {
    if schedule == [] then pool == last
    else
      var (w, step) := schedule[0];
      && Enabled(l, pool, w, step)
      && (pool.workers[w].phase.Asking? ==> pool.workers[w].phase.batch < l.Batches())
      && Run(l, After(l, pool, w, step), schedule[1..], last)
  }

  lemma {:induction false} RunKeepsInv(l: Lookup, pool: Pool, schedule: seq<(nat, Step)>, last: Pool)
    requires Inv(l, pool) && Run(l, pool, schedule, last)
    ensures Inv(l, last)
    decreases |schedule|
  {
    if schedule != [] {
      var (w, step) := schedule[0];
      StepKeepsInv(l, pool, w, step);
      RunKeepsInv(l, After(l, pool, w, step), schedule[1..], last);
    }
  }

  /** Every worker returned what it found. */
  predicate Succeeded(pool: Pool) {
    forall w :: 0 <= w < |pool.workers| ==> pool.workers[w].phase.Finished?
  }

  /** The joined result. */
  function Merged(workers: seq<Worker>): map<nat, string> {
    if workers == [] then map[] else Merged(workers[..|workers| - 1]) + workers[|workers| - 1].found
  }

  lemma {:induction false} MergedFrom(workers: seq<Worker>, h: nat)
    ensures h in Merged(workers) <==> exists w :: 0 <= w < |workers| && h in workers[w].found
    ensures h in Merged(workers) ==> exists w :: 0 <= w < |workers| && h in workers[w].found && Merged(workers)[h] == workers[w].found[h]
  {
    if workers != [] {
      var n := |workers| - 1;
      var rest := workers[..n];
      MergedFrom(rest, h);
      if h in workers[n].found {
        assert Merged(workers)[h] == workers[n].found[h];
      } else if h in Merged(rest) {
        var w :| 0 <= w < |rest| && h in rest[w].found && Merged(rest)[h] == rest[w].found[h];
        assert workers[w] == rest[w];
      }
      if exists w :: 0 <= w < |workers| && h in workers[w].found {
        var w :| 0 <= w < |workers| && h in workers[w].found;
        if w < n {
          assert rest[w] == workers[w];
        }
      }
    }
  }

  /** Whatever the interleaving, a successful pool holds exactly one entry for every requested height, none
      outside, and each is the node's answer for that height. */
  lemma PoolResult(l: Lookup, concurrency: nat, schedule: seq<(nat, Step)>, last: Pool)
    requires Run(l, Initial(concurrency), schedule, last) && Succeeded(last)
    ensures forall h: nat :: h in Merged(last.workers) <==> l.Wanted(h)
    ensures forall i :: 0 <= i < l.Batches() ==> l.GoodReply(i)
    ensures forall h: nat :: l.Wanted(h) ==> l.BatchOf(h) < l.Batches() && Merged(last.workers)[h] == l.Answer(h)
  {
    InitialInv(l, concurrency);
    RunKeepsInv(l, Initial(concurrency), schedule, last);
    assert !AnyBroken(last);
    assert Sound(l, last, 0);
    forall h: nat
      ensures h in Merged(last.workers) <==> l.Wanted(h)
      ensures l.Wanted(h) ==> l.BatchOf(h) < l.Batches() && l.GoodReply(l.BatchOf(h)) && Merged(last.workers)[h] == l.Answer(h)
    {
      FoundOnce(l, last, h);
    }
    forall i | 0 <= i < l.Batches() ensures l.GoodReply(i) {
      var h := l.lo + i * LOOKUP_BATCH;
      assert l.Wanted(h) && l.BatchOf(h) == i;
    }
  }

  lemma FoundOnce(l: Lookup, last: Pool, h: nat)
    requires Inv(l, last) && Succeeded(last) && !AnyBroken(last) && l.Batches() < last.next
    ensures h in Merged(last.workers) <==> l.Wanted(h)
    ensures l.Wanted(h) ==> l.BatchOf(h) < l.Batches() && l.GoodReply(l.BatchOf(h)) && Merged(last.workers)[h] == l.Answer(h)
  {
    MergedFrom(last.workers, h);
    if l.Wanted(h) {
      l.BatchHolds(h);
      assert Held(l, last, l.BatchOf(h));
      var w :| 0 <= w < |last.workers| && Holds(l, last.workers[w], l.BatchOf(h));
      assert h in last.workers[w].found;
    }
    if h in Merged(last.workers) {
      var w :| 0 <= w < |last.workers| && h in last.workers[w].found && Merged(last.workers)[h] == last.workers[w].found[h];
      assert Sound(l, last, w);
    }
  }

  // ---- When a pool succeeds ----

  predicate GoodReplies(l: Lookup) {
    forall i {:trigger l.GoodReply(i)} :: 0 <= i < l.Batches() ==> l.GoodReply(i)
  }

  /** No worker is lost to anything but a bad reply. */
  predicate NobodyDies(schedule: seq<(nat, Step)>) {
    forall i :: 0 <= i < |schedule| ==> !schedule[i].1.Die?
  }

  /** No worker has anything left to do. */
  predicate Stopped(pool: Pool) {
    forall w :: 0 <= w < |pool.workers| ==> pool.workers[w].phase.Finished? || pool.workers[w].phase.Broken?
  }

  lemma {:induction false} NobodyBreaks(l: Lookup, pool: Pool, schedule: seq<(nat, Step)>, last: Pool)
    requires Run(l, pool, schedule, last) && NobodyDies(schedule) && GoodReplies(l) && !AnyBroken(pool)
    ensures !AnyBroken(last)
    decreases |schedule|
  {
    if schedule != [] {
      var (w, step) := schedule[0];
      assert !step.Die?;
      if step.Receive? {
        assert l.GoodReply(pool.workers[w].phase.batch);
      }
      NobodyBreaks(l, After(l, pool, w, step), schedule[1..], last);
    }
  }

  /** Once every worker has stopped, and none was lost to anything else, the pool has succeeded exactly when the
      node answered every batch in full. */
  lemma PoolSucceedsExactly(l: Lookup, concurrency: nat, schedule: seq<(nat, Step)>, last: Pool)
    requires Run(l, Initial(concurrency), schedule, last) && NobodyDies(schedule) && Stopped(last)
    ensures Succeeded(last) <==> GoodReplies(l)
  {
    if Succeeded(last) {
      PoolResult(l, concurrency, schedule, last);
    }
    if GoodReplies(l) {
      NobodyBreaks(l, Initial(concurrency), schedule, last);
    }
  }

  // ---- No batch is received twice ----

  /** The batches whose replies are received along a schedule, in order. */
  function Received(l: Lookup, pool: Pool, schedule: seq<(nat, Step)>): seq<nat>
    decreases |schedule|
  {
    if schedule == [] then []
    else
      var (w, step) := schedule[0];
      if !Enabled(l, pool, w, step) || (pool.workers[w].phase.Asking? && pool.workers[w].phase.batch >= l.Batches()) then []
      else (if step.Receive? then [pool.workers[w].phase.batch] else []) + Received(l, After(l, pool, w, step), schedule[1..])
  }

  /** Batches are claimed upwards, by one worker each, and `seen` will not be asked for again. */
  ghost predicate Claimed(pool: Pool, seen: set<nat>) {
    && (forall i :: i in seen ==> i < pool.next)
    && (forall w :: 0 <= w < |pool.workers| && pool.workers[w].phase.Asking? ==>
          pool.workers[w].phase.batch < pool.next && pool.workers[w].phase.batch !in seen)
    && (forall v, w :: 0 <= v < w < |pool.workers| && pool.workers[v].phase.Asking? ==> pool.workers[v].phase != pool.workers[w].phase)
  }

  lemma StepClaims(l: Lookup, pool: Pool, w: nat, step: Step, seen: set<nat>)
    requires Claimed(pool, seen) && Enabled(l, pool, w, step)
    requires pool.workers[w].phase.Asking? ==> pool.workers[w].phase.batch < l.Batches()
    ensures Claimed(After(l, pool, w, step), if step.Receive? then seen + {pool.workers[w].phase.batch} else seen)
  {
  }

  /** No entry of `r` is repeated, or is in `seen`. */
  ghost predicate Fresh(r: seq<nat>, seen: set<nat>) {
    && (forall i :: 0 <= i < |r| ==> r[i] !in seen)
    && (forall i, j :: 0 <= i < j < |r| ==> r[i] != r[j])
  }

  lemma FreshFirst(batch: nat, rest: seq<nat>, seen: set<nat>)
    requires Fresh(rest, seen + {batch}) && batch !in seen
    ensures Fresh([batch] + rest, seen)
  {
  }

  lemma {:induction false} ReceivesNothingSeen(l: Lookup, pool: Pool, schedule: seq<(nat, Step)>, last: Pool, seen: set<nat>)
    requires Claimed(pool, seen) && Run(l, pool, schedule, last)
    ensures Fresh(Received(l, pool, schedule), seen)
    decreases |schedule|
  {
    if schedule != [] {
      var (w, step) := schedule[0];
      StepClaims(l, pool, w, step, seen);
      var rest := Received(l, After(l, pool, w, step), schedule[1..]);
      if step.Receive? {
        var batch := pool.workers[w].phase.batch;
        ReceivesNothingSeen(l, After(l, pool, w, step), schedule[1..], last, seen + {batch});
        FreshFirst(batch, rest, seen);
      } else {
        ReceivesNothingSeen(l, After(l, pool, w, step), schedule[1..], last, seen);
        assert [] + rest == rest;
      }
    }
  }

  /** Whatever the interleaving, the reply to a batch is received at most once. */
  lemma BatchesAreReceivedOnce(l: Lookup, concurrency: nat, schedule: seq<(nat, Step)>, last: Pool)
    requires Run(l, Initial(concurrency), schedule, last)
    ensures var r := Received(l, Initial(concurrency), schedule);
            forall i, j :: 0 <= i < j < |r| ==> r[i] != r[j]
  {
    ReceivesNothingSeen(l, Initial(concurrency), schedule, last, {});
  }

  // ---- It always ends ----

  function Rank(worker: Worker): nat {
    match worker.phase
    case Checking => 2
    case Claiming => 1
    case Asking(_) => 3
    case Finished => 0
    case Broken => 0
  }

  function Ranks(workers: seq<Worker>): nat {
    if workers == [] then 0 else Rank(workers[0]) + Ranks(workers[1..])
  }

  /** The steps a pool has left, at most. */
  function StepsLeft(l: Lookup, pool: Pool): nat {
    3 * SatSub(l.Batches(), pool.next) + Ranks(pool.workers)
  }

  lemma {:induction false} RanksUpdate(workers: seq<Worker>, w: nat, worker: Worker)
    requires w < |workers|
    ensures Ranks(workers[w := worker]) == Ranks(workers) - Rank(workers[w]) + Rank(worker)
  {
    if w > 0 {
      RanksUpdate(workers[1..], w - 1, worker);
      assert workers[w := worker][1..] == workers[1..][w - 1 := worker];
    } else {
      assert workers[w := worker][1..] == workers[1..];
    }
  }

  /** No schedule is longer than three steps a batch and two a worker. */
  lemma {:induction false} RunsAreShort(l: Lookup, pool: Pool, schedule: seq<(nat, Step)>, last: Pool)
    requires Run(l, pool, schedule, last)
    ensures |schedule| <= StepsLeft(l, pool)
    decreases |schedule|
  {
    if schedule != [] {
      var (w, step) := schedule[0];
      var after := After(l, pool, w, step);
      RanksUpdate(pool.workers, w, after.workers[w]);
      RunsAreShort(l, after, schedule[1..], last);
    }
  }
}
