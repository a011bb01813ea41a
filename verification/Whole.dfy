/** The writers and the publisher over one cache: in every run it is one chain, and every stored digest row is
    current, whatever the node, the readers, the operator and the snapshot peer do. */
module Whole {
  import opened Base
  import opened Blocks
  import opened BlockStore
  import opened Recovery
  import opened Ingestor
  import opened Import
  import opened ImportRun
  import opened Export
  import opened Publisher
  import Format
  import Manifests
  import Runs

  ghost predicate TipInRange(node: Node) {
    node.info.Some? ==> node.info.value.blocks < Format.HEIGHT_LIMIT
  }

  /** One chain, with current rows. */
  ghost predicate Kept(p: Primitives, s: Store, chain: Bytes) {
    IsChain(p, s.blocks) && Published(p, s, chain)
  }

  // ---- Steps, repairs and recoveries keep the rows ----

  lemma FloorKeepsPublished(p: Primitives, s: Store, chain: Bytes, target: nat, start: nat)
    requires Published(p, s, chain)
    ensures Published(p, ReorgToFloor(s, target, start), chain)
  {
    TruncationKeepsPublished(p, s, chain, 0);
    TruncationKeepsPublished(p, s, chain, target + 1);
  }

  lemma CollectInRange(node: Node, next: nat, last: nat, prev: Option<Bytes>)
    requires next <= last + 1 && last < Format.HEIGHT_LIMIT
    ensures InRange(Collect(node, next, last, prev).0)
  {
    CollectIsLongest(node, next, last, prev);
    var batch := Collect(node, next, last, prev).0;
    forall i | 0 <= i < |batch| ensures batch[i].height < Format.HEIGHT_LIMIT {
      assert Connects(node, next, prev, i);
      assert batch[i] == FetchAt(node, next + i).block;
    }
  }

  /** Blocks written on top change no row and no base. */
  lemma ExtendingKeepsPublished(p: Primitives, s: Store, chain: Bytes, batch: seq<CompactBlock>)
    requires Published(p, s, chain) && Consecutive(batch) && InRange(batch)
    requires batch != [] && s.blocks.Keys != {} ==> batch[0].height == Highest(s.blocks.Keys) + 1
    ensures Published(p, s.(blocks := Extended(p, s.blocks, batch)), chain)
  {
    ContiguousExtended(p, s.blocks, batch);
    GrowthKeepsPublished(p, s, s.(blocks := Extended(p, s.blocks, batch)), chain);
  }

  lemma StepKeepsPublished(p: Primitives, s: Store, chain: Bytes, start: nat, window: nat, node: Node)
    requires Published(p, s, chain) && TipInRange(node)
    ensures Published(p, Step(p, s, start, window, node).0, chain)
  {
    var next := NextOf(s, start);
    if InWindow(p, s, start, node) {
      StepCommitsLongestPrefix(p, s, start, window, node);
      var last := WindowEnd(next, node.info.value.blocks, window);
      var prev := TipHash(p, s.blocks).value;
      CollectFormsRun(node, next, last, prev);
      CollectInRange(node, next, last, prev);
      ExtendingKeepsPublished(p, s, chain, Collect(node, next, last, prev).0);
      FloorKeepsPublished(p, s, chain, SatSub(next, 2), start);
    } else if s.blocks.Keys != {} {
      FloorKeepsPublished(p, s, chain, SatSub(Highest(s.blocks.Keys), 1), start);
    }
  }

  lemma RecoveryKeepsPublished(p: Primitives, s: Store, chain: Bytes)
    requires Published(p, s, chain)
    ensures Published(p, Recovered(p, s), chain)
  {
    if LowestCorrupt(p, s.blocks).Some? {
      TruncationKeepsPublished(p, s, chain, SatSub(LowestCorrupt(p, s.blocks).value, 1) + 1);
    }
  }

  lemma LoopKeepsPublished(p: Primitives, s: Store, chain: Bytes, reported: Option<nat>, granted: bool, start: nat, window: nat, node: Node, recoveries: nat)
    requires Published(p, s, chain) && TipInRange(node)
    ensures Published(p, Runs.LoopBody(p, s, reported, granted, start, window, node, recoveries), chain)
  {
    var repaired := Runs.AfterRepair(s, reported, start, granted);
    if repaired != s {
      FloorKeepsPublished(p, s, chain, SatSub(reported.value, 1), start);
    }
    StepKeepsPublished(p, repaired, chain, start, window, node);
    RecoveryKeepsPublished(p, Step(p, repaired, start, window, node).0, chain);
  }

  // ---- So does a landed epoch ----

  lemma LandingKeepsPublished(p: Primitives, s: Store, chain: Bytes, batch: seq<CompactBlock>, anchor: Anchor, after: Store)
    requires Published(p, s, chain) && Lands(p, s.blocks, batch, anchor, after.blocks)
    requires batch[0].height + |batch| - 1 < Format.HEIGHT_LIMIT
    requires after.digests == s.digests && after.base == if s.blocks.Keys == {} then Some(batch[0].height) else s.base
    ensures Published(p, after, chain)
  {
    JoinedIsConsecutive(batch, batch[0].height);
    forall i | 0 <= i < |batch| ensures batch[i].height < Format.HEIGHT_LIMIT {
      assert batch[i].height == batch[0].height + i;
    }
    ContiguousExtended(p, s.blocks, batch);
    ExtendedBounds(p, s.blocks, batch);
    GrowthKeepsPublished(p, s, after, chain);
  }

  lemma ImportKeepsPublished(p: Primitives, s: Store, chain: Bytes, entry: Manifests.EpochEntry, theirs: Bytes, anchor: Anchor, peer: Peer)
    requires Published(p, s, chain) && entry.end < Format.HEIGHT_LIMIT
    requires ImportEntry(p, s, entry, theirs, anchor, peer).Committed?
    ensures Published(p, ImportEntry(p, s, entry, theirs, anchor, peer).store, chain)
  {
    var batch := CommitLands(p, s, entry, theirs, anchor, peer);
    LandingKeepsPublished(p, s, chain, batch, anchor, ImportEntry(p, s, entry, theirs, anchor, peer).store);
  }

  // ---- The ingestor during a unit of maintenance ----

  /** What the ingestor would append next, against `node`. */
  function Window(p: Primitives, s: Store, start: nat, window: nat, node: Node): seq<CompactBlock> {
    if node.info.Some? && NextOf(s, start) <= node.info.value.blocks && TipHash(p, s.blocks).Ok?
    then Collect(node, NextOf(s, start), WindowEnd(NextOf(s, start), node.info.value.blocks, window), TipHash(p, s.blocks).value).0
    else []
  }

  /** It is what a step appends, whenever a step appends anything. */
  lemma WindowIsStep(p: Primitives, s: Store, start: nat, window: nat, node: Node)
    requires Window(p, s, start, window, node) != []
    ensures Arrive(p, s, Window(p, s, start, window, node)) == Step(p, s, start, window, node).0
  {
    var next := NextOf(s, start);
    var last := WindowEnd(next, node.info.value.blocks, window);
    var prev := TipHash(p, s.blocks).value;
    StepCommitsLongestPrefix(p, s, start, window, node);
    CollectFormsRun(node, next, last, prev);
    CollectIsLongest(node, next, last, prev);
    assert Connects(node, next, prev, 0);
    WindowAppends(p, s, node, start, last, prev);
  }

  lemma ArrivingKeepsChain(p: Primitives, s: Store, start: nat, window: nat, node: Node)
    requires p.Lawful() && IsChain(p, s.blocks) && TipInRange(node)
    ensures IsChain(p, Arrive(p, s, Window(p, s, start, window, node)).blocks)
    ensures InRange(Window(p, s, start, window, node))
  {
    var batch := Window(p, s, start, window, node);
    if batch == [] {
      assert Arrive(p, s, batch) == s;
    } else {
      WindowIsStep(p, s, start, window, node);
      StepKeepsChain(p, s, start, window, node);
      CollectInRange(node, NextOf(s, start), WindowEnd(NextOf(s, start), node.info.value.blocks, window), TipHash(p, s.blocks).value);
    }
  }

  /** The node as the ingestor meets it between the transactions of one unit. */
  datatype Nodes = Nodes(a: Node, b: Node, c: Node, d: Node, e: Node)

  function ArrivalsFrom(p: Primitives, s: Store, start: nat, window: nat, n: Nodes): Arrivals {
    var a := Window(p, s, start, window, n.a);
    var s1 := Arrive(p, s, a);
    var b := Window(p, s1, start, window, n.b);
    var s2 := Arrive(p, s1, b);
    var c := Window(p, s2, start, window, n.c);
    var s3 := Arrive(p, s2, c);
    var d := Window(p, s3, start, window, n.d);
    var s4 := Arrive(p, s3, d);
    Arrivals(a, b, c, d, Window(p, s4, start, window, n.e))
  }

  ghost predicate NodesInRange(n: Nodes) {
    TipInRange(n.a) && TipInRange(n.b) && TipInRange(n.c) && TipInRange(n.d) && TipInRange(n.e)
  }

  lemma MaintenanceKeepsBoth(p: Primitives, s: Store, chain: Bytes, start: nat, window: nat, n: Nodes)
    requires p.Lawful() && Kept(p, s, chain) && NodesInRange(n)
    ensures Kept(p, Maintained(p, s, chain, ArrivalsFrom(p, s, start, window, n)), chain)
  {
    var more := ArrivalsFrom(p, s, start, window, n);
    ArrivingKeepsChain(p, s, start, window, n.a);
    var s1 := Arrive(p, s, more.a);
    ArrivingKeepsChain(p, s1, start, window, n.b);
    var s2 := Arrive(p, s1, more.b);
    ArrivingKeepsChain(p, s2, start, window, n.c);
    var s3 := Arrive(p, s2, more.c);
    ArrivingKeepsChain(p, s3, start, window, n.d);
    var s4 := Arrive(p, s3, more.d);
    ArrivingKeepsChain(p, s4, start, window, n.e);
    MaintainedShape(p, s, chain, more, s2, s3, Arrive(p, s4, more.e));
    MaintenanceKeepsPublished(p, s, chain, more, Maintained(p, s, chain, more));
  }

  // ---- Every run ----

  datatype Event =
    | Write(event: Runs.Event)
    | Maintenance(nodes: Nodes)

  /** Heights stay below the saturating epoch. */
  ghost predicate EventInRange(e: Event) {
    match e
    case Write(Loop(_, _, node, _)) => TipInRange(node)
    case Write(OperatorTruncation(_)) => true
    case Write(EpochImport(entry, _, _, _)) => entry.end < Format.HEIGHT_LIMIT
    case Maintenance(nodes) => NodesInRange(nodes)
  }

  ghost function Effect(p: Primitives, s: Store, chain: Bytes, start: nat, window: nat, e: Event): Store
    requires InHeightRange(s.blocks)
  {
    match e
    case Write(event) => Runs.Effect(p, s, start, window, event)
    case Maintenance(nodes) => Maintained(p, s, chain, ArrivalsFrom(p, s, start, window, nodes))
  }

  lemma EffectKeepsBoth(p: Primitives, s: Store, chain: Bytes, start: nat, window: nat, e: Event)
    requires p.Lawful() && Kept(p, s, chain) && EventInRange(e)
    ensures Kept(p, Effect(p, s, chain, start, window, e), chain)
  {
    match e
    case Maintenance(nodes) => MaintenanceKeepsBoth(p, s, chain, start, window, nodes);
    case Write(event) =>
      Runs.EffectKeepsChain(p, s, start, window, event);
      match event
      case Loop(reported, granted, node, recoveries) =>
        LoopKeepsPublished(p, s, chain, reported, granted, start, window, node, recoveries);
      case OperatorTruncation(height) => TruncationKeepsPublished(p, s, chain, height);
      case EpochImport(entry, theirs, anchor, peer) =>
        if ImportEntry(p, s, entry, theirs, anchor, peer).Committed? {
          ImportKeepsPublished(p, s, chain, entry, theirs, anchor, peer);
        }
  }

  /** `s` leads to `t` through `events`. */
  ghost predicate Run(p: Primitives, s: Store, chain: Bytes, start: nat, window: nat, events: seq<Event>, t: Store)
    decreases |events|
  {
    if events == [] then s == t
    else
      && InHeightRange(s.blocks) && EventInRange(events[0])
      && Run(p, Effect(p, s, chain, start, window, events[0]), chain, start, window, events[1..], t)
  }

  /** In every run that interleaves iterations of the loop, repairs and recoveries among them, operator
      truncations, epoch imports and maintenance with the ingestor appending in between: the cache is one chain,
      and each stored row is the digest of the body that would be sent now. */
  lemma {:induction false} RunsKeepChainAndRows(p: Primitives, s: Store, chain: Bytes, start: nat, window: nat, events: seq<Event>, t: Store)
    requires p.Lawful() && Kept(p, s, chain) && Run(p, s, chain, start, window, events, t)
    ensures Kept(p, t, chain)
    decreases |events|
  {
    if events != [] {
      EffectKeepsBoth(p, s, chain, start, window, events[0]);
      RunsKeepChainAndRows(p, Effect(p, s, chain, start, window, events[0]), chain, start, window, events[1..], t);
    }
  }
}
