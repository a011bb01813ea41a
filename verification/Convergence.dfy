/** Against a node whose chain has stopped changing and that answers every fetch, the ingestor comes to
    rest within a bound read off its starting cache, holding the node's blocks. */
module Convergence {
  import opened Base
  import opened Encoding
  import opened Blocks
  import opened BlockStore
  import opened Ingestor

  /** A node's whole chain, from height zero. */
  ghost predicate IsNodeChain(chain: seq<CompactBlock>) {
    && chain != []
    && (forall i :: 0 <= i < |chain| ==> chain[i].height == i)
    && (forall i {:trigger NamesBelow(chain, i)} :: 0 < i < |chain| ==> NamesBelow(chain, i))
  }

  predicate NamesBelow(chain: seq<CompactBlock>, i: nat)
    requires 0 < i < |chain|
  {
    chain[i].prevHash == chain[i - 1].hash
  }

  /** The node that serves `chain` and nothing else. */
  function Stable(chain: seq<CompactBlock>): Node
    requires chain != []
  {
    Node(Some(NodeInfo(|chain| - 1, WireToDisplayHex(chain[|chain| - 1].hash))),
         (h: nat) => if h < |chain| then Got(chain[h]) else Failed)
  }

  /** Equal hashes mean equal blocks, among those cached and those on the node. */
  ghost predicate NoCollision(p: Primitives, t: Table, chain: seq<CompactBlock>)
    requires IsChain(p, t)
  {
    && (forall h, i :: h in t && 0 <= i < |chain| && BlockAt(p, t, h).hash == chain[i].hash
          ==> BlockAt(p, t, h) == chain[i])
    && (forall i, j :: 0 <= i < |chain| && 0 <= j < |chain| && chain[i].hash == chain[j].hash ==> chain[i] == chain[j])
  }

  predicate Agrees(p: Primitives, t: Table, chain: seq<CompactBlock>, h: nat) {
    h in t && h < |chain| && p.decode(t[h]) == Some(chain[h])
  }

  function Disagreeing(p: Primitives, t: Table, chain: seq<CompactBlock>): set<nat> {
    set h | h in t && !Agrees(p, t, chain, h)
  }

  /** Nothing to roll back: the cache is empty or its tip is the node's block. */
  predicate TipAgrees(p: Primitives, t: Table, chain: seq<CompactBlock>) {
    t.Keys == {} || Agrees(p, t, chain, Highest(t.Keys))
  }

  // ---- The bound ----

  /** Windows needed for `n` more blocks. */
  function Windows(n: nat, window: nat): nat {
    if n == 0 then 0 else 1 + Windows(SatSub(n, Max(window, 1)), window)
  }

  lemma {:induction false} WindowsMonotone(m: nat, n: nat, window: nat)
    requires m <= n
    ensures Windows(m, window) <= Windows(n, window)
    decreases n
  {
    if m > 0 {
      WindowsMonotone(SatSub(m, Max(window, 1)), SatSub(n, Max(window, 1)), window);
    }
  }

  /** It is the ceiling of `n` over the window size. */
  lemma {:induction false} WindowsIsCeiling(n: nat, window: nat)
    requires n > 0
    ensures (Windows(n, window) - 1) * Max(window, 1) < n <= Windows(n, window) * Max(window, 1)
    decreases n
  {
    var w := Max(window, 1);
    if n > w {
      WindowsIsCeiling(n - w, window);
      var k := Windows(n - w, window);
      assert (k - 1) * w + w == k * w && k * w + w == (k + 1) * w;
    } else {
      assert Windows(SatSub(n, w), window) == 0;
    }
  }

  /** Steps left, at most: one for each cached block the node does not have, then the windows up to its
      tip. */
  function Bound(p: Primitives, s: Store, start: nat, window: nat, chain: seq<CompactBlock>): nat {
    if TipAgrees(p, s.blocks, chain) then Windows(SatSub(|chain|, NextOf(s, start)), window)
    else |Disagreeing(p, s.blocks, chain)| + Windows(|chain|, window)
  }

  // ---- Agreement is downward closed ----

  lemma {:induction false} AgreesDownward(p: Primitives, t: Table, chain: seq<CompactBlock>, h: nat, k: nat)
    requires IsChain(p, t) && IsNodeChain(chain) && NoCollision(p, t, chain)
    requires Agrees(p, t, chain, h) && k in t && k <= h
    ensures Agrees(p, t, chain, k)
    decreases h - k
  {
    if k < h {
      assert Lowest(t.Keys) <= k + 1 <= Highest(t.Keys) && k + 1 in t;
      AgreesDownward(p, t, chain, h, k + 1);
      assert NamesBelow(chain, k + 1);
    }
  }

  // ---- One step against the stable node ----

  lemma {:induction false} CollectFromStable(chain: seq<CompactBlock>, next: nat, last: nat, prev: Option<Bytes>)
    requires IsNodeChain(chain) && next <= last + 1 <= |chain|
    requires prev.Some? && next <= last ==> prev.value == chain[next].prevHash
    ensures Collect(Stable(chain), next, last, prev) == (chain[next..last + 1], Ended)
    decreases last + 1 - next
  {
    if next <= last {
      assert next < last ==> NamesBelow(chain, next + 1);
      CollectFromStable(chain, next + 1, last, Some(chain[next].hash));
      assert [chain[next]] + chain[next + 1..last + 1] == chain[next..last + 1];
    } else {
      assert chain[next..last + 1] == [];
    }
  }

  ghost predicate Invariant(p: Primitives, s: Store, chain: seq<CompactBlock>) {
    p.Lawful() && IsNodeChain(chain) && IsChain(p, s.blocks) && NoCollision(p, s.blocks, chain)
  }

  /** What the step does, by cases: rest, drop the tip it cannot keep, or extend with the node's blocks. */
  datatype Move = Rest | Drop | Extend

  function MoveOf(p: Primitives, s: Store, start: nat, chain: seq<CompactBlock>): Move {
    if NextOf(s, start) < |chain| then (if TipAgrees(p, s.blocks, chain) then Extend else Drop)
    else if |chain| > 0 && |chain| - 1 in s.blocks && !Agrees(p, s.blocks, chain, |chain| - 1) then Drop
    else Rest
  }

  lemma StableTipHash(chain: seq<CompactBlock>)
    requires chain != []
    ensures DisplayHexToWire(Stable(chain).info.value.bestBlockHash) == Some(chain[|chain| - 1].hash)
  {
    DisplayRoundTrip(chain[|chain| - 1].hash);
  }

  /** The cached block at `h` hashes to the node's exactly when it is the node's. */
  lemma HashDecides(p: Primitives, s: Store, chain: seq<CompactBlock>, h: nat)
    requires Invariant(p, s, chain) && h in s.blocks && h < |chain|
    ensures BlockAt(p, s.blocks, h).hash == chain[h].hash <==> Agrees(p, s.blocks, chain, h)
  {
  }

  lemma RestStep(p: Primitives, s: Store, start: nat, window: nat, chain: seq<CompactBlock>)
    requires Invariant(p, s, chain) && MoveOf(p, s, start, chain) == Rest
    ensures Step(p, s, start, window, Stable(chain)) == (s, Ok(Idle))
  {
    StableTipHash(chain);
    if |chain| - 1 in s.blocks {
      HashDecides(p, s, chain, |chain| - 1);
    }
  }

  lemma DropStep(p: Primitives, s: Store, start: nat, window: nat, chain: seq<CompactBlock>)
    requires Invariant(p, s, chain) && MoveOf(p, s, start, chain) == Drop
    ensures s.blocks.Keys != {} && !Agrees(p, s.blocks, chain, Highest(s.blocks.Keys))
    ensures Step(p, s, start, window, Stable(chain))
         == (ReorgToFloor(s, SatSub(Highest(s.blocks.Keys), 1), start), Ok(Advanced))
  {
    var latest := Highest(s.blocks.Keys);
    if latest + 1 < |chain| {
      DropFromWindow(p, s, start, window, chain);
    } else {
      StableTipHash(chain);
      HashDecides(p, s, chain, |chain| - 1);
    }
  }

  lemma DropFromWindow(p: Primitives, s: Store, start: nat, window: nat, chain: seq<CompactBlock>)
    requires Invariant(p, s, chain) && MoveOf(p, s, start, chain) == Drop
    requires s.blocks.Keys != {} && Highest(s.blocks.Keys) + 1 < |chain|
    ensures Step(p, s, start, window, Stable(chain))
         == (ReorgToFloor(s, SatSub(Highest(s.blocks.Keys), 1), start), Ok(Advanced))
  {
    var latest := Highest(s.blocks.Keys);
    HashDecides(p, s, chain, latest);
    assert NamesBelow(chain, latest + 1);
    assert FetchAt(Stable(chain), latest + 1) == Got(chain[latest + 1]);
  }

  lemma ExtendStep(p: Primitives, s: Store, start: nat, window: nat, chain: seq<CompactBlock>)
    requires Invariant(p, s, chain) && MoveOf(p, s, start, chain) == Extend
    ensures var next := NextOf(s, start);
            var last := WindowEnd(next, |chain| - 1, window);
            Step(p, s, start, window, Stable(chain))
            == (s.(blocks := Extended(p, s.blocks, chain[next..last + 1])), Ok(Advanced))
  {
    StepIsWindow(p, s, start, window, Stable(chain));
    ExtendWindow(p, s, start, window, chain);
  }

  lemma ExtendWindow(p: Primitives, s: Store, start: nat, window: nat, chain: seq<CompactBlock>)
    requires Invariant(p, s, chain) && MoveOf(p, s, start, chain) == Extend
    ensures var next := NextOf(s, start);
            var last := WindowEnd(next, |chain| - 1, window);
            IngestWindow(p, s, next, |chain| - 1, start, window, Stable(chain))
            == (s.(blocks := Extended(p, s.blocks, chain[next..last + 1])), Ok(Advanced))
  {
    var next := NextOf(s, start);
    var last := WindowEnd(next, |chain| - 1, window);
    var prev := TipHash(p, s.blocks).value;
    if s.blocks.Keys != {} {
      assert NamesBelow(chain, next);
    }
    CollectFromStable(chain, next, last, prev);
    WindowAppends(p, s, Stable(chain), start, last, prev);
    assert chain[next..last + 1] != [];
  }

  // ---- What a step keeps, and how it gets closer ----

  lemma SubtableKeepsInvariant(p: Primitives, s: Store, after: Store, chain: seq<CompactBlock>)
    requires Invariant(p, s, chain) && IsChain(p, after.blocks)
    requires forall h :: h in after.blocks ==> h in s.blocks && after.blocks[h] == s.blocks[h]
    ensures Invariant(p, after, chain)
  {
  }

  lemma DropCloser(p: Primitives, s: Store, start: nat, window: nat, chain: seq<CompactBlock>, after: Store)
    requires Invariant(p, s, chain) && MoveOf(p, s, start, chain) == Drop
    requires after == Step(p, s, start, window, Stable(chain)).0
    ensures Invariant(p, after, chain) && Bound(p, after, start, window, chain) < Bound(p, s, start, window, chain)
  {
    DropStep(p, s, start, window, chain);
    StepKeepsChain(p, s, start, window, Stable(chain));
    FloorRemovesTip(s, SatSub(Highest(s.blocks.Keys), 1), start);
    SubtableKeepsInvariant(p, s, after, chain);
    FewerDisagree(p, s, start, window, chain, after);
  }

  lemma FewerDisagree(p: Primitives, s: Store, start: nat, window: nat, chain: seq<CompactBlock>, after: Store)
    requires s.blocks.Keys != {} && !Agrees(p, s.blocks, chain, Highest(s.blocks.Keys))
    requires after.blocks == map[] || after.blocks == s.blocks - {Highest(s.blocks.Keys)}
    ensures Bound(p, after, start, window, chain) < Bound(p, s, start, window, chain)
  {
    var latest := Highest(s.blocks.Keys);
    var bad := Disagreeing(p, s.blocks, chain);
    assert latest in bad;
    SubsetSize({latest}, bad);
    if TipAgrees(p, after.blocks, chain) {
      WindowsMonotone(SatSub(|chain|, NextOf(after, start)), |chain|, window);
    } else {
      assert Disagreeing(p, after.blocks, chain) == bad - {latest};
    }
  }

  lemma PieceIsConsecutive(chain: seq<CompactBlock>, next: nat, last: nat, batch: seq<CompactBlock>)
    requires IsNodeChain(chain) && next <= last < |chain| && batch == chain[next..last + 1]
    ensures batch[0].height == next && Consecutive(batch)
  {
  }

  lemma ExtendedFromChain(p: Primitives, t: Table, chain: seq<CompactBlock>, next: nat, last: nat, u: Table)
    requires p.Lawful() && IsNodeChain(chain) && next <= last < |chain|
    requires t.Keys != {} ==> next == Highest(t.Keys) + 1
    requires u == Extended(p, t, chain[next..last + 1])
    ensures u.Keys != {} && Highest(u.Keys) == last && Agrees(p, u, chain, last)
    ensures Lowest(u.Keys) == if t.Keys == {} then next else Lowest(t.Keys)
    ensures forall h :: h in u ==> (h in t && u[h] == t[h]) || Agrees(p, u, chain, h)
  {
    var batch := chain[next..last + 1];
    PieceIsConsecutive(chain, next, last, batch);
    PieceAdds(p, t, batch, next, u);
    AddedAgree(p, t, chain, next, batch, u);
    assert last in u && last !in t;
  }

  lemma PieceAdds(p: Primitives, t: Table, batch: seq<CompactBlock>, next: nat, u: Table)
    requires batch != [] && batch[0].height == next && Consecutive(batch) && u == Extended(p, t, batch)
    requires t.Keys != {} ==> next == Highest(t.Keys) + 1
    ensures Adds(p, t, next, batch, u)
    ensures u.Keys != {} && Highest(u.Keys) == next + |batch| - 1 && Lowest(u.Keys) == if t.Keys == {} then next else Lowest(t.Keys)
  {
    ExtendedRows(p, t, batch);
    ExtendedBounds(p, t, batch);
  }

  lemma AddedAgree(p: Primitives, t: Table, chain: seq<CompactBlock>, next: nat, batch: seq<CompactBlock>, u: Table)
    requires p.Lawful() && next + |batch| <= |chain| && batch == chain[next..next + |batch|]
    requires Adds(p, t, next, batch, u)
    ensures forall h :: h in u ==> (h in t && u[h] == t[h]) || Agrees(p, u, chain, h)
  {
    forall h | h in u ensures (h in t && u[h] == t[h]) || Agrees(p, u, chain, h) {
      if next <= h < next + |batch| {
        assert batch[h - next] == chain[h];
      }
    }
  }

  lemma MixedKeepsInvariant(p: Primitives, s: Store, chain: seq<CompactBlock>, after: Store)
    requires Invariant(p, s, chain) && IsChain(p, after.blocks)
    requires forall h :: h in after.blocks ==>
               (h in s.blocks && after.blocks[h] == s.blocks[h]) || Agrees(p, after.blocks, chain, h)
    ensures Invariant(p, after, chain)
  {
  }

  lemma ExtendCloser(p: Primitives, s: Store, start: nat, window: nat, chain: seq<CompactBlock>, after: Store)
    requires Invariant(p, s, chain) && MoveOf(p, s, start, chain) == Extend
    requires after == Step(p, s, start, window, Stable(chain)).0
    ensures Invariant(p, after, chain) && Bound(p, after, start, window, chain) < Bound(p, s, start, window, chain)
    ensures after.blocks.Keys != {}
    ensures Lowest(after.blocks.Keys) == if s.blocks.Keys == {} then start else Lowest(s.blocks.Keys)
  {
    var next := NextOf(s, start);
    var last := WindowEnd(next, |chain| - 1, window);
    ExtendStep(p, s, start, window, chain);
    StepKeepsChain(p, s, start, window, Stable(chain));
    ExtendedFromChain(p, s.blocks, chain, next, last, after.blocks);
    MixedKeepsInvariant(p, s, chain, after);
    ExtendBound(p, s, start, window, chain, after, last);
  }

  lemma ExtendBound(p: Primitives, s: Store, start: nat, window: nat, chain: seq<CompactBlock>, after: Store, last: nat)
    requires TipAgrees(p, s.blocks, chain) && NextOf(s, start) < |chain|
    requires last == WindowEnd(NextOf(s, start), |chain| - 1, window)
    requires after.blocks.Keys != {} && Highest(after.blocks.Keys) == last && Agrees(p, after.blocks, chain, last)
    ensures Bound(p, after, start, window, chain) < Bound(p, s, start, window, chain)
  {
    WindowShorter(|chain|, NextOf(s, start), last, window);
  }

  lemma WindowShorter(n: nat, next: nat, last: nat, window: nat)
    requires next < n && last == WindowEnd(next, n - 1, window)
    ensures Windows(SatSub(n, last + 1), window) < Windows(SatSub(n, next), window)
  {
    WindowsMonotone(SatSub(n, last + 1), SatSub(SatSub(n, next), Max(window, 1)), window);
  }

  /** Nothing to compare is ruled out: the node reaches the floor and the cached base. */
  predicate Comparable(s: Store, start: nat, chain: seq<CompactBlock>) {
    start < |chain| && (s.blocks.Keys != {} ==> Lowest(s.blocks.Keys) < |chain|)
  }

  /** A step that is not at rest keeps everything and leaves strictly less to do. */
  lemma Closer(p: Primitives, s: Store, start: nat, window: nat, chain: seq<CompactBlock>, after: Store)
    requires Invariant(p, s, chain) && MoveOf(p, s, start, chain) != Rest
    requires after == Step(p, s, start, window, Stable(chain)).0
    ensures Invariant(p, after, chain) && Bound(p, after, start, window, chain) < Bound(p, s, start, window, chain)
    ensures Comparable(s, start, chain) ==> Comparable(after, start, chain)
  {
    if MoveOf(p, s, start, chain) == Extend {
      ExtendCloser(p, s, start, window, chain, after);
    } else {
      DropCloser(p, s, start, window, chain, after);
      DropStep(p, s, start, window, chain);
      FloorRemovesTip(s, SatSub(Highest(s.blocks.Keys), 1), start);
      SameBase(s.blocks, after.blocks);
    }
  }

  lemma SameBase(t: Table, u: Table)
    requires t.Keys != {} && (u == map[] || u == t - {Highest(t.Keys)})
    ensures u.Keys != {} ==> Lowest(u.Keys) == Lowest(t.Keys)
  {
    if u.Keys != {} {
      var h :| h in u.Keys;
      assert Lowest(t.Keys) <= h < Highest(t.Keys);
      assert Lowest(t.Keys) in u;
    }
  }

  // ---- The theorem ----

  function Stepping(p: Primitives, start: nat, window: nat, chain: seq<CompactBlock>): Store -> Store
    requires chain != []
  {
    (s: Store) => Step(p, s, start, window, Stable(chain)).0
  }

  /** The cache after `n` steps. */
  function After(p: Primitives, s: Store, start: nat, window: nat, chain: seq<CompactBlock>, n: nat): Store
    requires chain != []
  {
    Iterate(Stepping(p, start, window, chain), s, n)
  }

  /** At rest, every cached block up to the node's tip is the node's, its tip included, whenever there is
      something to compare. */
  lemma RestAgrees(p: Primitives, s: Store, start: nat, chain: seq<CompactBlock>)
    requires Invariant(p, s, chain) && MoveOf(p, s, start, chain) == Rest && Comparable(s, start, chain)
    ensures |chain| - 1 in s.blocks
    ensures forall h :: h in s.blocks && h < |chain| ==> BlockAt(p, s.blocks, h) == chain[h]
  {
    assert Lowest(s.blocks.Keys) <= |chain| - 1 <= Highest(s.blocks.Keys);
    forall h | h in s.blocks && h < |chain| ensures BlockAt(p, s.blocks, h) == chain[h] {
      AgreesDownward(p, s.blocks, chain, |chain| - 1, h);
    }
  }

  lemma {:induction false} ReachesRest(p: Primitives, s: Store, start: nat, window: nat, chain: seq<CompactBlock>) returns (n: nat)
    requires Invariant(p, s, chain)
    ensures n <= Bound(p, s, start, window, chain)
    ensures var rest := After(p, s, start, window, chain, n);
            && Invariant(p, rest, chain) && MoveOf(p, rest, start, chain) == Rest
            && (Comparable(s, start, chain) ==> Comparable(rest, start, chain))
  {
    var step := Stepping(p, start, window, chain);
    ghost var inv := (x: Store) => Invariant(p, x, chain) && (Comparable(s, start, chain) ==> Comparable(x, start, chain));
    var rests := (x: Store) => MoveOf(p, x, start, chain) == Rest;
    var bound := (x: Store) => Bound(p, x, start, window, chain);
    forall x: Store | inv(x) && !rests(x) ensures inv(step(x)) && bound(step(x)) < bound(x) {
      Closer(p, x, start, window, chain, step(x));
    }
    n := Descent(step, inv, rests, bound, s, bound(s));
  }

  /** Idle for good on one chain, which is the node's up to its tip if there is anything to compare. */
  ghost predicate Converged(p: Primitives, rest: Store, start: nat, window: nat, chain: seq<CompactBlock>, comparable: bool) {
    && chain != [] && IsChain(p, rest.blocks)
    && Step(p, rest, start, window, Stable(chain)) == (rest, Ok(Idle))
    && (comparable ==>
          && |chain| - 1 in rest.blocks
          && forall h :: h in rest.blocks && h < |chain| ==> BlockAt(p, rest.blocks, h) == chain[h])
  }

  /** Convergence: from any linked cache the ingestor is idle within `Bound` steps and stays so, and unless
      the node's tip is below the floor or below the cached base, the cache then holds that tip and agrees
      with the node everywhere up to it. */
  lemma Converges(p: Primitives, s: Store, start: nat, window: nat, chain: seq<CompactBlock>) returns (n: nat)
    requires Invariant(p, s, chain)
    ensures n <= Bound(p, s, start, window, chain)
    ensures Converged(p, After(p, s, start, window, chain, n), start, window, chain, Comparable(s, start, chain))
  {
    n := ReachesRest(p, s, start, window, chain);
    var rest := After(p, s, start, window, chain, n);
    RestStep(p, rest, start, window, chain);
    if Comparable(s, start, chain) {
      RestAgrees(p, rest, start, chain);
    }
  }
}
