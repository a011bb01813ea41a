/** The single writer: one step against a node that may answer anything, rollback to the floor, and the
    repairs readers ask for. */
module Ingestor {
  import opened Base
  import opened Encoding
  import opened Blocks
  import opened Format
  import opened BlockStore
  import opened BlockCache
  import opened Repair

  // ---- The node, as one step sees it ----

  datatype NodeInfo = NodeInfo(blocks: nat, bestBlockHash: string)

  /** How the fetch task of one height ended. A panicked or cancelled task leaves no result. */
  datatype Fetched = Got(block: CompactBlock) | Failed | Panicked | Cancelled

  /** Whatever the node answers during one step: nothing about it is assumed. */
  datatype Node = Node(info: Option<NodeInfo>, answer: nat -> Fetched)

  /** `fetch::compact_block`: a block of another height is an error, not a result. */
  function FetchAt(node: Node, height: nat): (f: Fetched)
    ensures f.Got? ==> f.block.height == height
  {
    var f := node.answer(height);
    if f.Got? && f.block.height != height then Failed else f
  }

  datatype Progress = Advanced | Idle

  datatype StepError = NodeFault | FetchFault | FetchTaskPanic | EncodingFault | CacheFault(error: CacheError)
  {
    predicate IsCorruption() { CacheFault? }
  }

  // ---- Rolling back ----

  function ReorgToFloor(s: Store, target: nat, start: nat): Store {
    var tip := TipHeight(s.blocks);
    if target < start || tip.None? || target >= tip.value then BlockStore.RemoveFrom(s, 0)
    else BlockStore.Reorg(s, target)
  }

  method RollBack(cache: Cache, target: nat, start: nat)
    requires cache.Valid()
    modifies cache
    ensures cache.Valid() && cache.View() == ReorgToFloor(old(cache.View()), target, start)
  {
    var tip := TipHeight(cache.blocks);
    var wouldNotLowerTip := tip.None? || target >= tip.value;
    if target < start || wouldNotLowerTip {
      cache.RemoveFrom(0);
    } else {
      cache.Reorg(target);
    }
  }

  // ---- One window ----

  /** Why the prefix of a window that is kept ends where it does. */
  datatype Stop = Ended | FetchFailed | Mismatch

  /** The blocks kept from `h..=last` when the block below hashes to `prev`. */
  function Collect(node: Node, h: nat, last: nat, prev: Option<Bytes>): (r: (seq<CompactBlock>, Stop))
    requires h <= last + 1
    decreases last + 1 - h
  {
    if h > last then ([], Ended)
    else
      match FetchAt(node, h)
      case Got(b) =>
        if prev.Some? && prev.value != b.prevHash then ([], Mismatch)
        else
          var (rest, stop) := Collect(node, h + 1, last, Some(b.hash));
          ([b] + rest, stop)
      case Failed => ([], FetchFailed)
      case _ => ([], Ended)
  }

  predicate AnyPanicked(node: Node, next: nat, last: nat) {
    exists h: nat :: next <= h <= last && FetchAt(node, h).Panicked?
  }

  function WindowEnd(next: nat, tip: nat, window: nat): nat {
    Min(tip, next + SatSub(window, 1))
  }

  type Outcome = Result<Progress, StepError>

  function WindowVerdict(batch: seq<CompactBlock>, stop: Stop, panicked: bool): Outcome {
    if batch != [] then Ok(Advanced)
    else if stop.FetchFailed? then Err(FetchFault)
    else if panicked then Err(FetchTaskPanic)
    else Ok(Advanced)
  }

  function IngestWindow(p: Primitives, s: Store, next: nat, tip: nat, start: nat, window: nat, node: Node): (Store, Outcome) {
    if next > tip then (s, Ok(Idle))
    else
      match TipHash(p, s.blocks)
      case Err(e) => (s, Err(CacheFault(e)))
      case Ok(prev) =>
        var last := WindowEnd(next, tip, window);
        var (batch, stop) := Collect(node, next, last, prev);
        if batch == [] && stop.Mismatch? then (ReorgToFloor(s, SatSub(next, 2), start), Ok(Advanced))
        else
          match Append(p, s, Oks(batch), None)
          case Err(e) => (s, Err(CacheFault(e)))
          case Ok(after) => (after, WindowVerdict(batch, stop, AnyPanicked(node, next, last)))
  }

  /** One ingestor step, as a function of the cache and of the node's answers. */
  function Step(p: Primitives, s: Store, start: nat, window: nat, node: Node): (Store, Outcome) {
    if node.info.None? then (s, Err(NodeFault))
    else
      var tip := node.info.value.blocks;
      var tipHash := DisplayHexToWire(node.info.value.bestBlockHash);
      match TipHeight(s.blocks)
      case None => IngestWindow(p, s, start, tip, start, window, node)
      case Some(latest) =>
        if latest < tip then IngestWindow(p, s, latest + 1, tip, start, window, node)
        else if tipHash.None? then (s, Err(EncodingFault))
        else
          // At equal heights the tip itself is compared, otherwise the cached block at the node's tip.
          match GetBlock(p, s.blocks, tip)
          case Err(e) => (s, Err(CacheFault(e)))
          case Ok(None) => (s, Ok(Idle))
          case Ok(Some(cached)) =>
            if cached.hash == tipHash.value then (s, Ok(Idle))
            else (ReorgToFloor(s, SatSub(latest, 1), start), Ok(Advanced))
  }

  lemma StepIsWindow(p: Primitives, s: Store, start: nat, window: nat, node: Node)
    requires node.info.Some? && NextOf(s, start) <= node.info.value.blocks
    ensures Step(p, s, start, window, node) == IngestWindow(p, s, NextOf(s, start), node.info.value.blocks, start, window, node)
  {
  }

  // ---- The step as it runs ----

  /** `fetch_window`: tasks finish in any order; each leaves its height's result, or nothing. */
  method FetchWindow(node: Node, next: nat, last: nat)
    returns (results: map<nat, Fetched>, panicked: bool)
    requires next <= last
    ensures forall h: nat :: h in results <==> next <= h <= last && (FetchAt(node, h).Got? || FetchAt(node, h).Failed?)
    ensures forall h :: h in results ==> results[h] == FetchAt(node, h)
    ensures panicked <==> AnyPanicked(node, next, last)
  {
    results, panicked := map[], false;
    var tasks := Interval(next, last);
    while tasks != {}
      invariant tasks <= Interval(next, last)
      invariant forall h: nat :: h in results <==> next <= h <= last && h !in tasks && (FetchAt(node, h).Got? || FetchAt(node, h).Failed?)
      invariant forall h :: h in results ==> results[h] == FetchAt(node, h)
      invariant panicked <==> exists h: nat :: next <= h <= last && h !in tasks && FetchAt(node, h).Panicked?
      decreases |tasks|
    {
      var height :| height in tasks;
      var joined := FetchAt(node, height);
      tasks := tasks - {height};
      match joined {
        case Got(_) => results := results[height := joined];
        case Failed => results := results[height := joined];
        case Panicked =>
          panicked := true;
          assert next <= height <= last && height !in tasks && FetchAt(node, height).Panicked?;
        case Cancelled =>
      }
    }
  }

  /** The loop over a window's results: what it keeps is `Collect`. */
  method KeepPrefix(node: Node, results: map<nat, Fetched>, next: nat, last: nat, tipHash: Option<Bytes>)
    returns (batch: seq<CompactBlock>, stop: Stop)
    requires next <= last
    requires forall h: nat :: h in results <==> next <= h <= last && (FetchAt(node, h).Got? || FetchAt(node, h).Failed?)
    requires forall h :: h in results ==> results[h] == FetchAt(node, h)
    ensures (batch, stop) == Collect(node, next, last, tipHash)
  {
    batch, stop := [], Ended;
    var prev := tipHash;
    var expected := next;
    var rest := results.Keys;
    assert forall more: seq<CompactBlock> :: [] + more == more;
    while rest != {}
      invariant next <= expected <= last + 1
      invariant forall h: nat :: h in rest <==> h in results && expected <= h
      invariant stop == Ended
      invariant var (more, end) := Collect(node, expected, last, prev);
                Collect(node, next, last, tipHash) == (batch + more, end)
      decreases |rest|
    {
      var height := Lowest(rest);
      if height != expected {
        assert expected !in rest;
        assert batch + [] == batch;
        return;
      }
      var result := results[height];
      if result.Failed? {
        assert batch + [] == batch;
        return batch, FetchFailed;
      }
      var block := result.block;
      if prev.Some? && prev.value != block.prevHash {
        assert batch + [] == batch;
        return batch, Mismatch;
      }
      ghost var more := Collect(node, expected + 1, last, Some(block.hash)).0;
      assert batch + ([block] + more) == (batch + [block]) + more;
      prev := Some(block.hash);
      batch := batch + [block];
      rest := rest - {height};
      expected := expected + 1;
    }
    assert expected !in rest;
    assert batch + [] == batch;
  }

  method RunStep(cache: Cache, start: nat, window: nat, node: Node) returns (r: Outcome)
    requires cache.Valid()
    modifies cache
    ensures cache.Valid() && (cache.View(), r) == Step(cache.p, old(cache.View()), start, window, node)
  {
    if node.info.None? {
      return Err(NodeFault);
    }
    var tip := node.info.value.blocks;
    var latest := TipHeight(cache.blocks);
    var next := start;
    if latest.Some? && latest.value >= tip {
      var tipHash := DisplayHexToWire(node.info.value.bestBlockHash);
      if tipHash.None? {
        return Err(EncodingFault);
      }
      if latest.value == tip {
        var hash := TipHash(cache.p, cache.blocks);
        if hash.Err? {
          return Err(CacheFault(hash.error));
        }
        if hash.value.Some? && hash.value.value == tipHash.value {
          return Ok(Idle);
        }
      } else {
        var cached := GetBlock(cache.p, cache.blocks, tip);
        if cached.Err? {
          return Err(CacheFault(cached.error));
        }
        if cached.value.None? || cached.value.value.hash == tipHash.value {
          return Ok(Idle);
        }
      }
      RollBack(cache, SatSub(latest.value, 1), start);
      return Ok(Advanced);
    }
    if latest.Some? {
      next := latest.value + 1;
    }
    r := RunWindow(cache, next, tip, start, window, node);
  }

  method RunWindow(cache: Cache, next: nat, tip: nat, start: nat, window: nat, node: Node) returns (r: Outcome)
    requires cache.Valid()
    modifies cache
    ensures cache.Valid() && (cache.View(), r) == IngestWindow(cache.p, old(cache.View()), next, tip, start, window, node)
  {
    if next > tip {
      return Ok(Idle);
    }
    var last := WindowEnd(next, tip, window);
    var results, panicked := FetchWindow(node, next, last);
    var prev := TipHash(cache.p, cache.blocks);
    if prev.Err? {
      return Err(CacheFault(prev.error));
    }
    var batch, stop := KeepPrefix(node, results, next, last, prev.value);
    if batch == [] && stop.Mismatch? {
      RollBack(cache, SatSub(next, 2), start);
      return Ok(Advanced);
    }
    var appended := cache.Append(Oks(batch), None);
    if appended.Err? {
      return Err(CacheFault(appended.error));
    }
    r := WindowVerdict(batch, stop, panicked);
  }

  // ---- What a step may and may not do ----

  /** The block fetched `i` places into the window connects to the one below it. */
  ghost predicate Connects(node: Node, next: nat, prev: Option<Bytes>, i: nat) {
    var f := FetchAt(node, next + i);
    && f.Got?
    && if i == 0 then prev.Some? ==> f.block.prevHash == prev.value
       else FetchAt(node, next + i - 1).Got? && f.block.prevHash == FetchAt(node, next + i - 1).block.hash
  }

  /** What is kept is the longest run of fetched blocks in which every one connects. */
  lemma {:induction false} CollectIsLongest(node: Node, next: nat, last: nat, prev: Option<Bytes>)
    requires next <= last + 1
    ensures var (batch, stop) := Collect(node, next, last, prev);
            && next + |batch| <= last + 1
            && (forall i :: 0 <= i < |batch| ==> Connects(node, next, prev, i) && batch[i] == FetchAt(node, next + i).block)
            && (next + |batch| <= last ==> !Connects(node, next, prev, |batch|))
            && (stop.FetchFailed? <==> next + |batch| <= last && FetchAt(node, next + |batch|).Failed?)
            && (stop.Mismatch? <==> next + |batch| <= last && FetchAt(node, next + |batch|).Got?)
    decreases last + 1 - next
  {
    if next <= last && Connects(node, next, prev, 0) {
      var b := FetchAt(node, next).block;
      CollectIsLongest(node, next + 1, last, Some(b.hash));
      var (rest, stop) := Collect(node, next + 1, last, Some(b.hash));
      var batch := [b] + rest;
      assert Collect(node, next, last, prev) == (batch, stop);
      forall i | 0 <= i < |batch|
        ensures Connects(node, next, prev, i) && batch[i] == FetchAt(node, next + i).block
      {
        if i > 0 {
          assert Connects(node, next + 1, Some(b.hash), i - 1);
          assert batch[i] == rest[i - 1];
        }
      }
      if next + |batch| <= last {
        assert !Connects(node, next + 1, Some(b.hash), |rest|);
      }
    }
  }

  lemma CollectFormsRun(node: Node, next: nat, last: nat, prev: Option<Bytes>)
    requires next <= last + 1
    ensures var batch := Collect(node, next, last, prev).0;
            && Consecutive(batch) && HashLinked(batch)
            && (batch != [] ==> batch[0].height == next && (prev.Some? ==> batch[0].prevHash == prev.value))
  {
    CollectIsLongest(node, next, last, prev);
    var batch := Collect(node, next, last, prev).0;
    forall i | 0 < i < |batch|
      ensures batch[i].height == batch[i - 1].height + 1 && batch[i].prevHash == batch[i - 1].hash
    {
      assert Connects(node, next, prev, i);
    }
    if batch != [] {
      assert Connects(node, next, prev, 0);
    }
  }

  /** Where the window of a step starts. */
  function NextOf(s: Store, start: nat): nat {
    match TipHeight(s.blocks)
    case None => start
    case Some(latest) => latest + 1
  }

  /** The append of a collected window never fails. */
  lemma WindowAppends(p: Primitives, s: Store, node: Node, start: nat, last: nat, prev: Option<Bytes>)
    requires NextOf(s, start) <= last + 1
    ensures var batch := Collect(node, NextOf(s, start), last, prev).0;
            Append(p, s, Oks(batch), None) == Ok(s.(blocks := Extended(p, s.blocks, batch)))
  {
    CollectFormsRun(node, NextOf(s, start), last, prev);
    var batch := Collect(node, NextOf(s, start), last, prev).0;
    AppendItemsExact(p, s.blocks, Oks(batch), NextHeight(s.blocks), batch);
  }

  /** A step that fetches a window: the node is ahead, and the tip the window must connect to decodes. */
  ghost predicate InWindow(p: Primitives, s: Store, start: nat, node: Node) {
    && node.info.Some?
    && NextOf(s, start) <= node.info.value.blocks
    && TipHash(p, s.blocks).Ok?
  }

  /** For any answers at all, a window step commits exactly the longest connected prefix, unless the block
      right above the tip arrived and disagrees with it: then, and only then, it rolls back. */
  lemma StepCommitsLongestPrefix(p: Primitives, s: Store, start: nat, window: nat, node: Node)
    requires InWindow(p, s, start, node)
    ensures var next := NextOf(s, start);
            var last := WindowEnd(next, node.info.value.blocks, window);
            var prev := TipHash(p, s.blocks).value;
            var batch := Collect(node, next, last, prev).0;
            var disagrees := prev.Some? && FetchAt(node, next).Got? && FetchAt(node, next).block.prevHash != prev.value;
            Step(p, s, start, window, node).0 ==
              if disagrees then ReorgToFloor(s, SatSub(next, 2), start)
              else s.(blocks := Extended(p, s.blocks, batch))
  {
    var next := NextOf(s, start);
    var last := WindowEnd(next, node.info.value.blocks, window);
    var prev := TipHash(p, s.blocks).value;
    CollectIsLongest(node, next, last, prev);
    WindowAppends(p, s, node, start, last, prev);
  }

  lemma FloorRemovesTip(s: Store, target: nat, start: nat)
    requires s.blocks.Keys != {} && target == SatSub(Highest(s.blocks.Keys), 1)
    ensures var after := ReorgToFloor(s, target, start).blocks;
            && (after == map[] || after == s.blocks - {Highest(s.blocks.Keys)})
            && (after == map[] ==> s.blocks.Keys == {Highest(s.blocks.Keys)} || Highest(s.blocks.Keys) <= start)
  {
    var tip := Highest(s.blocks.Keys);
    BelowEmpty(s.blocks, 0);
    if target >= start && target < tip {
      var after := Below(s.blocks, target + 1);
      assert after == s.blocks - {tip};
      assert forall h :: h in s.blocks && h != tip ==> h in after;
    } else if target >= tip {
      assert forall h :: h in s.blocks ==> h == tip;
    }
  }

  lemma ExtendedKeepsRows(p: Primitives, t: Table, batch: seq<CompactBlock>)
    requires Consecutive(batch) && (batch != [] && t.Keys != {} ==> batch[0].height == Highest(t.Keys) + 1)
    ensures forall h :: h in t ==> h in Extended(p, t, batch) && Extended(p, t, batch)[h] == t[h]
  {
    if batch != [] {
      ExtendedRows(p, t, batch);
    }
  }

  /** One step either keeps every row, or removes exactly the tip's, or empties the cache; and it empties a
      cache of more than one block only when the tip is at or below the floor. */
  lemma StepRemovesAtMostTip(p: Primitives, s: Store, start: nat, window: nat, node: Node)
    ensures var after := Step(p, s, start, window, node).0.blocks;
            || after == map[]
            || (s.blocks.Keys != {} && after == s.blocks - {Highest(s.blocks.Keys)})
            || (forall h :: h in s.blocks ==> h in after && after[h] == s.blocks[h])
    ensures var after := Step(p, s, start, window, node).0.blocks;
            s.blocks.Keys != {} && after == map[] ==>
              s.blocks.Keys == {Highest(s.blocks.Keys)} || Highest(s.blocks.Keys) <= start
  {
    var next := NextOf(s, start);
    if InWindow(p, s, start, node) {
      StepCommitsLongestPrefix(p, s, start, window, node);
      var last := WindowEnd(next, node.info.value.blocks, window);
      var prev := TipHash(p, s.blocks).value;
      CollectFormsRun(node, next, last, prev);
      ExtendedKeepsRows(p, s.blocks, Collect(node, next, last, prev).0);
      if s.blocks.Keys != {} {
        FloorRemovesTip(s, SatSub(next, 2), start);
      }
    } else if s.blocks.Keys != {} {
      FloorRemovesTip(s, SatSub(Highest(s.blocks.Keys), 1), start);
    }
  }

  /** A window is fetched, its first task is cancelled, and no task panics. */
  ghost predicate Stalls(p: Primitives, s: Store, start: nat, window: nat, node: Node) {
    && InWindow(p, s, start, node)
    && FetchAt(node, NextOf(s, start)).Cancelled?
    && !AnyPanicked(node, NextOf(s, start), WindowEnd(NextOf(s, start), node.info.value.blocks, window))
  }

  lemma WindowStalls(p: Primitives, s: Store, start: nat, window: nat, node: Node)
    requires InWindow(p, s, start, node)
    ensures Step(p, s, start, window, node) == (s, Ok(Advanced)) <==> Stalls(p, s, start, window, node)
  {
    var next := NextOf(s, start);
    var last := WindowEnd(next, node.info.value.blocks, window);
    var prev := TipHash(p, s.blocks).value;
    var batch := Collect(node, next, last, prev).0;
    StepIsWindow(p, s, start, window, node);
    CollectIsLongest(node, next, last, prev);
    CollectFormsRun(node, next, last, prev);
    WindowAppends(p, s, node, start, last, prev);
    if batch != [] {
      ExtendedBounds(p, s.blocks, batch);
    } else if s.blocks.Keys != {} {
      FloorRemovesTip(s, SatSub(next, 2), start);
    }
  }

  /** A step can report progress and leave everything as it was: exactly when it fetches a window whose first
      task is cancelled while no task panics, whatever else arrives. */
  lemma StepStallsExactly(p: Primitives, s: Store, start: nat, window: nat, node: Node)
    ensures Step(p, s, start, window, node) == (s, Ok(Advanced)) <==> Stalls(p, s, start, window, node)
  {
    if InWindow(p, s, start, node) {
      WindowStalls(p, s, start, window, node);
    } else if s.blocks.Keys != {} {
      FloorRemovesTip(s, SatSub(Highest(s.blocks.Keys), 1), start);
      assert Highest(s.blocks.Keys) in s.blocks;
    }
  }

  /** Such a node: everything above the first height arrives, and none of it is kept. */
  lemma StallExample(p: Primitives, hash: Bytes)
    ensures var node := Node(Some(NodeInfo(1, "")), (h: nat) => if h == 0 then Cancelled else Got(CompactBlock(h, hash, [], 0, [], [], None)));
            && FetchAt(node, 1).Got?
            && Step(p, EMPTY, 0, 2, node) == (EMPTY, Ok(Advanced))
  {
    var node := Node(Some(NodeInfo(1, "")), (h: nat) => if h == 0 then Cancelled else Got(CompactBlock(h, hash, [], 0, [], [], None)));
    StepStallsExactly(p, EMPTY, 0, 2, node);
    assert forall h: nat :: !FetchAt(node, h).Panicked?;
  }

  /** Whatever a step leaves in the cache was there before, or is what the node gave for that height. */
  lemma StepRows(p: Primitives, s: Store, start: nat, window: nat, node: Node)
    ensures var after := Step(p, s, start, window, node).0.blocks;
            forall h: nat :: h in after ==>
              || (h in s.blocks && after[h] == s.blocks[h])
              || (h !in s.blocks && FetchAt(node, h).Got? && after[h] == p.encode(FetchAt(node, h).block))
  {
    if InWindow(p, s, start, node) {
      var next := NextOf(s, start);
      var last := WindowEnd(next, node.info.value.blocks, window);
      var prev := TipHash(p, s.blocks).value;
      var batch := Collect(node, next, last, prev).0;
      StepCommitsLongestPrefix(p, s, start, window, node);
      CollectFormsRun(node, next, last, prev);
      if batch != [] {
        CollectIsLongest(node, next, last, prev);
        ExtendedRows(p, s.blocks, batch);
        FetchedRows(p, s.blocks, node, next, prev, batch, Extended(p, s.blocks, batch));
      }
    }
  }

  lemma FetchedRows(p: Primitives, t: Table, node: Node, next: nat, prev: Option<Bytes>, batch: seq<CompactBlock>, u: Table)
    requires Adds(p, t, next, batch, u) && (t.Keys != {} ==> next == Highest(t.Keys) + 1)
    requires forall i :: 0 <= i < |batch| ==> Connects(node, next, prev, i) && batch[i] == FetchAt(node, next + i).block
    ensures forall h: nat :: h in u ==>
              || (h in t && u[h] == t[h]) || (h !in t && FetchAt(node, h).Got? && u[h] == p.encode(FetchAt(node, h).block))
  {
    forall h: nat | h in u && next <= h < next + |batch|
      ensures h !in t && FetchAt(node, h).Got? && u[h] == p.encode(FetchAt(node, h).block)
    {
      assert Connects(node, next, prev, h - next);
    }
  }

  // ---- How a step ends ----

  /** In a window the first height decides: a failed fetch is the node's fault, a missing result one of the task's
      if any panicked, and everything else is progress. */
  lemma WindowOutcome(p: Primitives, s: Store, start: nat, window: nat, node: Node)
    requires InWindow(p, s, start, node)
    ensures var next := NextOf(s, start);
            var f := FetchAt(node, next);
            Step(p, s, start, window, node).1 ==
              if f.Failed? then Err(FetchFault)
              else if !f.Got? && AnyPanicked(node, next, WindowEnd(next, node.info.value.blocks, window)) then Err(FetchTaskPanic)
              else Ok(Advanced)
  {
    var next := NextOf(s, start);
    var last := WindowEnd(next, node.info.value.blocks, window);
    var prev := TipHash(p, s.blocks).value;
    StepIsWindow(p, s, start, window, node);
    CollectIsLongest(node, next, last, prev);
    WindowAppends(p, s, node, start, last, prev);
  }

  /** The row a step has to decode: the tip's when the node is ahead, otherwise the one at the node's tip. */
  ghost predicate NeedsRow(s: Store, node: Node, h: nat) {
    && node.info.Some? && s.blocks.Keys != {}
    && (if Highest(s.blocks.Keys) < node.info.value.blocks then h == Highest(s.blocks.Keys)
        else h == node.info.value.blocks && h in s.blocks && DisplayHexToWire(node.info.value.bestBlockHash).Some?)
  }

  /** The node is at or below the tip, and on the same chain as far as the cache can tell. */
  ghost predicate NothingToDo(p: Primitives, s: Store, start: nat, node: Node) {
    && node.info.Some?
    && var tip := node.info.value.blocks;
       if s.blocks.Keys == {} then tip < start
       else
         && tip <= Highest(s.blocks.Keys)
         && var hash := DisplayHexToWire(node.info.value.bestBlockHash);
            hash.Some? && (tip in s.blocks ==> p.decode(s.blocks[tip]).Some? && BlockAt(p, s.blocks, tip).hash == hash.value)
  }

  /** What a step reports, whatever the node answers: the node's fault when it does not describe itself, corruption
      exactly when a row it has to decode does not decode, and idleness exactly when there is nothing to do. */
  lemma StepOutcomeExactly(p: Primitives, s: Store, start: nat, window: nat, node: Node)
    ensures var outcome := Step(p, s, start, window, node).1;
            && (outcome == Err(NodeFault) <==> node.info.None?)
            && (outcome.Err? && outcome.error.IsCorruption() <==>
                  exists h :: NeedsRow(s, node, h) && p.decode(s.blocks[h]).None?)
            && (outcome == Err(EncodingFault) <==>
                  && node.info.Some? && s.blocks.Keys != {} && node.info.value.blocks <= Highest(s.blocks.Keys)
                  && DisplayHexToWire(node.info.value.bestBlockHash).None?)
            && (outcome == Ok(Idle) <==> NothingToDo(p, s, start, node))
  {
    var outcome := Step(p, s, start, window, node).1;
    if InWindow(p, s, start, node) {
      WindowOutcome(p, s, start, window, node);
    }
    if node.info.Some? && s.blocks.Keys != {} {
      var tip, latest := node.info.value.blocks, Highest(s.blocks.Keys);
      if latest < tip {
        assert NeedsRow(s, node, latest);
      } else if DisplayHexToWire(node.info.value.bestBlockHash).Some? && tip in s.blocks {
        assert NeedsRow(s, node, tip);
      }
    }
  }

  /** When the node is not ahead, a step either leaves the cache alone or drops the tip, and it drops the tip exactly
      when the cached block at the node's tip has another hash. */
  lemma StepBehindExactly(p: Primitives, s: Store, start: nat, window: nat, node: Node)
    requires node.info.Some? && s.blocks.Keys != {} && node.info.value.blocks <= Highest(s.blocks.Keys)
    ensures var tip, hash := node.info.value.blocks, DisplayHexToWire(node.info.value.bestBlockHash);
            Step(p, s, start, window, node).0 ==
              if hash.Some? && tip in s.blocks && p.decode(s.blocks[tip]).Some? && BlockAt(p, s.blocks, tip).hash != hash.value
              then ReorgToFloor(s, SatSub(Highest(s.blocks.Keys), 1), start) else s
    ensures var tip, hash := node.info.value.blocks, DisplayHexToWire(node.info.value.bestBlockHash);
            Step(p, s, start, window, node).1 == Ok(Advanced)
            <==> hash.Some? && tip in s.blocks && p.decode(s.blocks[tip]).Some? && BlockAt(p, s.blocks, tip).hash != hash.value
  {
  }

  /** Rolling back to `target` keeps everything up to it, or, at the floor or when it would not lower the tip,
      nothing at all. */
  lemma RollBackExactly(s: Store, target: nat, start: nat)
    requires target + 1 < HEIGHT_LIMIT
    ensures var r := ReorgToFloor(s, target, start);
            if start <= target && s.blocks.Keys != {} && target < Highest(s.blocks.Keys) then
              && (forall h: nat :: h in r.blocks <==> h in s.blocks && h <= target)
              && (forall h: nat :: h in r.blocks ==> r.blocks[h] == s.blocks[h])
              && (forall i: nat :: i in r.digests <==> i in s.digests && EpochLast(i) <= target)
              && (forall i: nat :: i in r.digests ==> r.digests[i] == s.digests[i])
              && r.base == if s.base.Some? && s.base.value <= target then s.base else None
            else r == EMPTY
  {
    if start <= target && s.blocks.Keys != {} && target < Highest(s.blocks.Keys) {
      RemoveFromExactly(s, target + 1);
    } else {
      RemoveAll(s);
    }
  }

  /** A step that does not empty the cache keeps the row of every epoch that ends below the tip, and a base below
      the tip. */
  lemma StepKeepsRows(p: Primitives, s: Store, start: nat, window: nat, node: Node)
    requires s.blocks.Keys != {} ==> Highest(s.blocks.Keys) < HEIGHT_LIMIT
    ensures var after := Step(p, s, start, window, node).0;
            after.blocks != map[] && s.blocks.Keys != {} ==>
              && (forall i: nat :: i in s.digests && EpochLast(i) < Highest(s.blocks.Keys) ==> i in after.digests && after.digests[i] == s.digests[i])
              && (s.base.Some? && s.base.value < Highest(s.blocks.Keys) ==> after.base == s.base)
  {
    if s.blocks.Keys != {} {
      if InWindow(p, s, start, node) {
        StepCommitsLongestPrefix(p, s, start, window, node);
      }
      RollBackExactly(s, SatSub(Highest(s.blocks.Keys), 1), start);
    }
  }

  lemma FloorKeepsChain(p: Primitives, s: Store, target: nat, start: nat)
    requires IsChain(p, s.blocks)
    ensures IsChain(p, ReorgToFloor(s, target, start).blocks)
  {
    BelowKeepsChain(p, s.blocks, 0);
    BelowKeepsChain(p, s.blocks, target + 1);
  }

  /** Against any node, a step leaves one chain where it found one. */
  lemma StepKeepsChain(p: Primitives, s: Store, start: nat, window: nat, node: Node)
    requires p.Lawful() && IsChain(p, s.blocks)
    ensures IsChain(p, Step(p, s, start, window, node).0.blocks)
  {
    var next := NextOf(s, start);
    if InWindow(p, s, start, node) {
      StepCommitsLongestPrefix(p, s, start, window, node);
      var last := WindowEnd(next, node.info.value.blocks, window);
      var prev := TipHash(p, s.blocks).value;
      CollectFormsRun(node, next, last, prev);
      ExtendedKeepsChain(p, s.blocks, Collect(node, next, last, prev).0);
      FloorKeepsChain(p, s, SatSub(next, 2), start);
    } else if s.blocks.Keys != {} {
      FloorKeepsChain(p, s, SatSub(Highest(s.blocks.Keys), 1), start);
    }
  }

  // ---- Reported discontinuities ----

  /** What acting on a report does to the cache, once the budget has said yes. */
  function Repaired(s: Store, height: nat, start: nat): Store {
    match Range(s.blocks)
    case Some((base, tip)) =>
      if base <= height <= tip then ReorgToFloor(s, SatSub(height, 1), start) else s
    case None => s
  }

  method RepairReported(cache: Cache, height: u64, start: nat, signal: RepairSignal, budget: RepairBudget, now: nat)
    requires cache.Valid()
    modifies cache, signal, budget
    ensures cache.Valid()
    ensures var before := old(cache.View());
            var inRange := Range(before.blocks).Some? && Range(before.blocks).value.0 <= height <= Range(before.blocks).value.1;
            var (charged, granted) := TrySpend(old(budget.View()), now);
            if !inRange then cache.View() == before && signal.lowest == old(signal.lowest) && budget.View() == old(budget.View())
            else if granted then cache.View() == Repaired(before, height, start) && signal.lowest == old(signal.lowest) && budget.View() == charged
            else cache.View() == before && signal.lowest == Min(old(signal.lowest), height)
                 && budget.View() == charged.(refusalLogged := true)
  {
    var range := Range(cache.blocks);
    if range.None? || !(range.value.0 <= height <= range.value.1) {
      return;
    }
    var granted := budget.Spend(now);
    if !granted {
      signal.Report(height);
      var first := budget.FirstRefusalOfWindow();
      return;
    }
    RollBack(cache, SatSub(height, 1), start);
  }

  /** An accepted report leaves nothing at or above it, but for one corner: a report of height zero on a
      cache that starts at zero, with a zero floor and a higher tip, keeps the block at zero. */
  lemma RepairClearsReport(s: Store, height: nat, start: nat)
    requires Range(s.blocks).Some? && Range(s.blocks).value.0 <= height <= Range(s.blocks).value.1
    ensures (forall h :: h in Repaired(s, height, start).blocks ==> h < height)
            <==> !(height == 0 && start == 0 && Range(s.blocks).value.1 > 0)
    ensures forall h :: h in Repaired(s, height, start).blocks ==> h in s.blocks && Repaired(s, height, start).blocks[h] == s.blocks[h]
  {
    BelowEmpty(s.blocks, 0);
    var after := Repaired(s, height, start).blocks;
    if height == 0 && start == 0 && Range(s.blocks).value.1 > 0 {
      assert 0 in after;
    }
  }

  /** The cell keeps only the lowest report, which is meant to cover the higher ones. Acting on it clears a report
      in range exactly when no outstanding report lies below the cache, but for the corner at height zero. */
  lemma LowestReportCoversExactly(ops: seq<SignalOp>, s: Store, start: nat, base: nat, tip: nat, r: nat)
    requires Range(s.blocks) == Some((base, tip)) && r in Outstanding(ops) && base <= r <= tip
    ensures (forall h :: h in Repaired(s, Slot(ops), start).blocks ==> h < r)
            <==> (forall q :: q in Outstanding(ops) ==> base <= q) && !(r == 0 && start == 0 && tip > 0)
  {
    SlotIsMinimum(ops);
    OutstandingBounded(ops);
    var lowest := Slot(ops);
    assert lowest in Outstanding(ops) && lowest <= r;
    assert base in s.blocks && tip in s.blocks;
    if lowest < base {
      assert Repaired(s, lowest, start) == s;
    } else {
      RepairClearsReport(s, lowest, start);
      if lowest == 0 && start == 0 && tip > 0 {
        assert Repaired(s, 0, 0).blocks == Below(s.blocks, 1);
      }
    }
  }

  /** A report that is absorbed: heights 4 to 6 are cached, 5 and 1 are reported, and nothing is repaired. */
  lemma AbsorbedReport(row: Bytes, start: nat)
    ensures var s := Store(map[4 := row, 5 := row, 6 := row], map[], None);
            var ops := [Reported(5), Reported(1)];
            && Range(s.blocks) == Some((4, 6)) && 5 in Outstanding(ops)
            && Slot(ops) == 1 && Repaired(s, Slot(ops), start) == s
  {
    var s := Store(map[4 := row, 5 := row, 6 := row], map[], None);
    assert 4 in s.blocks && 6 in s.blocks && Lowest(s.blocks.Keys) == 4 && Highest(s.blocks.Keys) == 6;
    var ops := [Reported(5), Reported(1)];
    assert ops[..1] == [Reported(5)] && ops[..1][..0] == [];
    assert Slot(ops[..1]) == 5 && Outstanding(ops[..1]) == {5};
  }

  /** The corner is real: of two cached blocks, a repair of height zero keeps the reported one. */
  lemma RepairKeepsZero(row: Bytes)
    ensures Repaired(Store(map[0 := row, 1 := row], map[], None), 0, 0).blocks == map[0 := row]
  {
    var s := Store(map[0 := row, 1 := row], map[], None);
    assert 0 in s.blocks && 1 in s.blocks;
    assert Lowest(s.blocks.Keys) == 0 && Highest(s.blocks.Keys) == 1;
    assert Below(s.blocks, 1) == map[0 := row];
  }
}
