/** The import loop, and what a finished, interrupted or resumed import leaves in the cache. */
module ImportRun {
  import opened Base
  import opened Blocks
  import opened Format
  import opened BlockStore
  import opened BlockCache
  import opened Manifests
  import opened Import

  // ---- One entry ----

  /** The next height an import would add, onto a cache holding `t`. */
  function NextFor(t: Table, entry: EpochEntry): nat {
    match TipHeight(t)
    case Some(tip) => tip + 1
    case None => entry.start
  }

  /** `fetch_body`: the peer's body, if it can be what the manifest describes. */
  function FetchBody(peer: Peer, entry: EpochEntry): Option<Bytes> {
    if entry.bytes > MAX_EPOCH_BYTES then None
    else
      match peer(entry.index)
      case Some(body) => if |body| == entry.bytes then Some(body) else None
      case None => None
  }

  /** `check_junction`: what arrives first joins onto the tip, in height, hash and tree sizes. */
  function CheckJunction(p: Primitives, t: Table, arriving: seq<Bytes>): Result<(), ImportError> {
    if arriving == [] || t.Keys == {} then Ok(())
    else
      var tip := Highest(t.Keys);
      match p.decode(t[tip])
      case None => Err(CacheFault(Undecodable))
      case Some(below) =>
        match p.decode(arriving[0])
        case Some(first) =>
          if first.height == tip + 1 && CheckLinkage(below, first) && CheckTreeSizes(below, first) then Ok(())
          else Err(JunctionRejected)
        case None => Err(JunctionRejected)
  }

  /** Records on their way into the cache, decoded one at a time. */
  function Decoding(p: Primitives, records: seq<Bytes>): (r: seq<Result<CompactBlock, CacheError>>)
    ensures |r| == |records|
  {
    seq(|records|, i requires 0 <= i < |records| =>
      match p.decode(records[i]) case Some(b) => Ok(b) case None => Err(Undecodable))
  }

  datatype Verdict = Skipped | Stopped | Failed(error: ImportError) | Committed(store: Store)

  /** The peer's records for `entry`, if they arrive and pass every layer. */
  ghost function EpochRecords(p: Primitives, entry: EpochEntry, chain: Bytes, node: Anchor, peer: Peer): Option<seq<Bytes>>
    requires entry.start <= entry.end
  {
    var body := FetchBody(peer, entry);
    if body.Some? && Verified(p, body.value, entry, chain, node) then Some(ParseEpoch(body.value).value.1) else None
  }

  lemma EpochRecordsVerified(p: Primitives, entry: EpochEntry, chain: Bytes, node: Anchor, peer: Peer)
    requires entry.start <= entry.end && EpochRecords(p, entry, chain, node, peer).Some?
    ensures var records := EpochRecords(p, entry, chain, node, peer).value;
            |records| == entry.end - entry.start + 1 && RecordsVerified(p, records, entry, node)
  {
    RecordCount(FetchBody(peer, entry).value);
  }

  /** Land what of an epoch's records lies at or above `next`: the junction check, then one transaction. */
  function Land(p: Primitives, s: Store, entry: EpochEntry, next: nat, records: seq<Bytes>): Verdict
    requires entry.start <= next <= entry.start + |records|
  {
    var arriving := records[next - entry.start..];
    match CheckJunction(p, s.blocks, arriving)
    case Err(e) => Failed(e)
    case Ok(_) =>
      var base := if s.blocks.Keys == {} then Some(next) else None;
      match Append(p, s, Decoding(p, arriving), base)
      case Err(e) => Failed(CacheFault(e))
      case Ok(after) => Committed(after)
  }

  /** What the loop does with one manifest entry. */
  ghost function ImportEntry(p: Primitives, s: Store, entry: EpochEntry, chain: Bytes, node: Anchor, peer: Peer): Verdict {
    var next := NextFor(s.blocks, entry);
    if entry.end < next then Skipped
    else if entry.start > next then Failed(Gap)
    else if entry.end > node.blocks then Stopped
    else
      var records := EpochRecords(p, entry, chain, node, peer);
      if records.None? then Failed(EpochRejected)
      else
        EpochRecordsVerified(p, entry, chain, node, peer);
        Land(p, s, entry, next, records.value)
  }

  /** What heights alone decide: an entry already held is skipped, one that does not meet the cache is a gap, and one
      the node has not reached ends the import. Any other entry is landed or refused. */
  lemma VerdictByHeight(p: Primitives, s: Store, entry: EpochEntry, chain: Bytes, node: Anchor, peer: Peer)
    ensures var v := ImportEntry(p, s, entry, chain, node, peer);
            var next := if s.blocks.Keys == {} then entry.start else Highest(s.blocks.Keys) + 1;
            && (v == Skipped <==> entry.end < next)
            && (v == Failed(Gap) <==> next <= entry.end && next < entry.start)
            && (v == Stopped <==> entry.start <= next <= entry.end && node.blocks < entry.end)
            && (v.Committed? ==> entry.start <= next <= entry.end <= node.blocks)
  {
  }

  /** Entries a manifest check has let through. */
  ghost predicate Ordered(entries: seq<EpochEntry>) {
    forall i :: 0 <= i < |entries| ==> entries[i].start <= entries[i].end
  }

  /** How far a run of the loop got: still going, or ended with this result. */
  datatype Progress = Running | Halted(result: Result<(), ImportError>)

  /** One turn of the loop, whatever it looks at. */
  type Judge = (Store, EpochEntry) -> Verdict

  /** Where one turn of the loop ends. */
  function Turn(s: Store, verdict: Verdict): (Store, Progress) {
    match verdict
    case Skipped => (s, Running)
    case Stopped => (s, Halted(Ok(())))
    case Failed(e) => (s, Halted(Err(e)))
    case Committed(after) => (after, Running)
  }

  /** The loop: turn by turn until one ends it. */
  function Fold(judge: Judge, s: Store, entries: seq<EpochEntry>): (Store, Progress)
    decreases |entries|
  {
    if entries == [] then (s, Running)
    else
      var (after, progress) := Turn(s, judge(s, entries[0]));
      if progress.Halted? then (after, progress) else Fold(judge, after, entries[1..])
  }

  ghost function Judging(p: Primitives, chain: Bytes, node: Anchor, peer: Peer): Judge {
    (s: Store, entry: EpochEntry) => ImportEntry(p, s, entry, chain, node, peer)
  }

  ghost function ImportFrom(p: Primitives, s: Store, entries: seq<EpochEntry>, chain: Bytes, node: Anchor, peer: Peer): (Store, Progress) {
    Fold(Judging(p, chain, node, peer), s, entries)
  }

  lemma AcceptedIsOrdered(m: Manifest, chain: Bytes)
    requires Accepts(m, chain)
    ensures Ordered(m.epochs)
  {
    forall i | 0 <= i < |m.epochs| ensures m.epochs[i].start <= m.epochs[i].end {
      assert EntryOk(m, i);
    }
  }

  // ---- The loop as it runs ----

  lemma FoldFirst(judge: Judge, s: Store, entries: seq<EpochEntry>, i: nat)
    requires i < |entries|
    ensures var (after, progress) := Turn(s, judge(s, entries[i]));
            Fold(judge, s, entries[i..]) == if progress.Halted? then (after, progress) else Fold(judge, after, entries[i + 1..])
  {
    assert entries[i..][0] == entries[i] && entries[i..][1..] == entries[i + 1..];
  }

  /** Download and verify one epoch. */
  method FetchEpoch(p: Primitives, entry: EpochEntry, chain: Bytes, node: Anchor, peer: Peer) returns (r: Option<seq<Bytes>>)
    requires entry.start <= entry.end
    ensures r == EpochRecords(p, entry, chain, node, peer)
  {
    var body := FetchBody(peer, entry);
    if body.None? {
      return None;
    }
    r := VerifyEpoch(p, body.value, entry, chain, node);
  }

  method LandEpoch(cache: Cache, entry: EpochEntry, next: u64, records: seq<Bytes>) returns (r: Result<(), ImportError>)
    requires cache.Valid() && entry.start <= next <= entry.start + |records|
    modifies cache
    ensures cache.Valid()
    ensures match Land(cache.p, old(cache.View()), entry, next, records)
            case Committed(after) => r.Ok? && cache.View() == after
            case Failed(e) => r == Err(e) && cache.View() == old(cache.View())
            case _ => false
  {
    var arriving := records[next - entry.start..];
    var junction := CheckJunction(cache.p, cache.blocks, arriving);
    if junction.Err? {
      return junction;
    }
    var base := if cache.blocks.Keys == {} then Some(next) else None;
    var appended := cache.Append(Decoding(cache.p, arriving), base);
    match appended {
      case Err(e) => r := Err(CacheFault(e));
      case Ok(_) => r := Ok(());
    }
  }

  /** One turn of the loop, and how it ends the import if it does. */
  method ImportOne(cache: Cache, entry: EpochEntry, chain: Bytes, node: Anchor, peer: Peer, ghost judge: Judge)
    returns (stop: Option<Result<(), ImportError>>)
    requires cache.Valid() && entry.end <= U64_MAX && judge == Judging(cache.p, chain, node, peer)
    modifies cache
    ensures cache.Valid()
    ensures var (after, progress) := Turn(old(cache.View()), judge(old(cache.View()), entry));
            cache.View() == after && stop == (if progress.Halted? then Some(progress.result) else None)
  {
    assert judge(cache.View(), entry) == ImportEntry(cache.p, cache.View(), entry, chain, node, peer);
    var next := NextFor(cache.blocks, entry);
    if entry.end < next {
      return None;
    }
    if entry.start > next {
      return Some(Err(Gap));
    }
    if entry.end > node.blocks {
      return Some(Ok(()));
    }
    var records := FetchEpoch(cache.p, entry, chain, node, peer);
    if records.None? {
      return Some(Err(EpochRejected));
    }
    EpochRecordsVerified(cache.p, entry, chain, node, peer);
    var landed := LandEpoch(cache, entry, next, records.value);
    stop := if landed.Err? then Some(landed) else None;
  }

  /** What an import returns: the tip it reached, unless it failed. */
  function Concluded(progress: Progress, tip: Option<nat>): (r: Result<Option<nat>, ImportError>)
    ensures r.Err? <==> progress.Halted? && progress.result.Err?
    ensures r.Err? ==> r.error == progress.result.error
    ensures r.Ok? ==> r.value == tip
  {
    match progress
    case Halted(Err(e)) => Err(e)
    case _ => Ok(tip)
  }

  /** `import`, given a manifest and the node's description of itself. */
  method RunImport(cache: Cache, m: Manifest, node: Anchor, peer: Peer) returns (r: Result<Option<nat>, ImportError>)
    requires cache.Valid() && forall i :: 0 <= i < |m.epochs| ==> m.epochs[i].end <= U64_MAX
    modifies cache
    ensures cache.Valid()
    ensures !Accepts(m, node.chain) ==> r == Err(BadManifest) && cache.View() == old(cache.View())
    ensures Accepts(m, node.chain) ==>
              Ordered(m.epochs) &&
              var (after, progress) := ImportFrom(cache.p, old(cache.View()), m.epochs, m.chain, node, peer);
              cache.View() == after && r == Concluded(progress, TipHeight(cache.blocks))
  {
    var accepted := ValidateManifest(m, node.chain);
    if accepted.Err? {
      return Err(BadManifest);
    }
    AcceptedIsOrdered(m, node.chain);
    ghost var judge := Judging(cache.p, m.chain, node, peer);
    ghost var progress := Fold(judge, cache.View(), m.epochs).1;
    var stop := ImportAll(cache, m.epochs, m.chain, node, peer, judge);
    assert stop == if progress.Halted? then Some(progress.result) else None;
    r := if stop.Some? && stop.value.Err? then Err(stop.value.error) else Ok(TipHeight(cache.blocks));
    assert r == Concluded(progress, TipHeight(cache.blocks));
  }

  /** The loop over the entries, and how one of them ended it, if one did. */
  method ImportAll(cache: Cache, entries: seq<EpochEntry>, chain: Bytes, node: Anchor, peer: Peer, ghost judge: Judge)
    returns (stop: Option<Result<(), ImportError>>)
    requires cache.Valid() && judge == Judging(cache.p, chain, node, peer)
    requires forall i :: 0 <= i < |entries| ==> entries[i].end <= U64_MAX
    modifies cache
    ensures cache.Valid()
    ensures var (after, progress) := Fold(judge, old(cache.View()), entries);
            cache.View() == after && stop == (if progress.Halted? then Some(progress.result) else None)
  {
    assert entries[0..] == entries;
    for i := 0 to |entries|
      invariant cache.Valid()
      invariant Fold(judge, old(cache.View()), entries) == Fold(judge, cache.View(), entries[i..])
    {
      FoldFirst(judge, cache.View(), entries, i);
      stop := ImportOne(cache, entries[i], chain, node, peer, judge);
      if stop.Some? {
        return;
      }
    }
    assert entries[|entries|..] == [];
    stop := None;
  }

  // ---- What a committed epoch adds ----

  /** `u` is `t` with the blocks of `batch` on top, all of them anchored to the node and joined to each
      other and to the old tip. */
  ghost predicate Lands(p: Primitives, t: Table, batch: seq<CompactBlock>, node: Anchor, u: Table) {
    && batch != []
    && u == Extended(p, t, batch)
    && JoinedFrom(batch, batch[0].height)
    && AnchoredFrom(node, HashesIn(batch), batch[0].height)
    && (t.Keys != {} ==>
          && batch[0].height == Highest(t.Keys) + 1
          && p.decode(t[Highest(t.Keys)]).Some? && Joins(BlockAt(p, t, Highest(t.Keys)), batch[0]))
  }

  /** The part of an epoch's blocks that lands is joined and anchored by itself. */
  lemma TailJoined(batch: seq<CompactBlock>, start: nat, node: Anchor, tail: seq<CompactBlock>, next: nat)
    requires JoinedFrom(batch, start) && AnchoredFrom(node, HashesIn(batch), start)
    requires start <= next < start + |batch| && tail == batch[next - start..]
    ensures JoinedFrom(tail, next) && AnchoredFrom(node, HashesIn(tail), next)
  {
    forall i | 0 < i < |tail| ensures JoinsAt(tail, i) {
      assert JoinsAt(batch, next - start + i);
    }
    forall i | 0 <= i < |tail| ensures NodeHash(node, next + i) == Some(HashesIn(tail)[i]) {
      assert HashesIn(batch)[next - start + i] == tail[i].hash;
    }
  }

  lemma JoinedIsConsecutive(batch: seq<CompactBlock>, start: nat)
    requires JoinedFrom(batch, start)
    ensures Consecutive(batch) && HashLinked(batch)
  {
    forall i | 0 < i < |batch| ensures batch[i].prevHash == batch[i - 1].hash {
      assert JoinsAt(batch, i);
    }
  }

  lemma DecodingOf(p: Primitives, records: seq<Bytes>, skip: nat)
    requires DecodeAll(p, records).Some? && skip <= |records|
    ensures Decoding(p, records[skip..]) == Oks(DecodeAll(p, records).value[skip..])
  {
    var batch := DecodeAll(p, records).value;
    forall i | 0 <= i < |records| - skip ensures Decoding(p, records[skip..])[i] == Ok(batch[skip..][i]) {
      assert records[skip..][i] == records[skip + i];
    }
  }

  /** `after` is `s` with `batch` appended, which continues the tip in height, hash and tree sizes; a base is
      recorded only on an empty cache. */
  ghost predicate Landed(p: Primitives, s: Store, next: nat, batch: seq<CompactBlock>, after: Store) {
    && batch != []
    && after == s.(blocks := Extended(p, s.blocks, batch), base := if s.blocks.Keys == {} then Some(next) else s.base)
    && (s.blocks.Keys != {} ==>
          && batch[0].height == Highest(s.blocks.Keys) + 1
          && p.decode(s.blocks[Highest(s.blocks.Keys)]).Some?
          && Joins(BlockAt(p, s.blocks, Highest(s.blocks.Keys)), batch[0]))
  }

  /** The transaction a landing makes, in terms of the blocks it carries. */
  lemma LandAppends(p: Primitives, s: Store, entry: EpochEntry, next: nat, records: seq<Bytes>, batch: seq<CompactBlock>, after: Store)
    requires entry.start <= next < entry.start + |records| && DecodeAll(p, records).Some?
    requires batch == DecodeAll(p, records).value[next - entry.start..]
    requires Land(p, s, entry, next, records) == Committed(after)
    ensures Landed(p, s, next, batch, after)
  {
    var skip := next - entry.start;
    DecodingOf(p, records, skip);
    AppendItemsExact(p, s.blocks, Oks(batch), NextHeight(s.blocks), batch);
    assert p.decode(records[skip..][0]) == Some(batch[0]);
  }

  lemma LandsFrom(p: Primitives, s: Store, batch: seq<CompactBlock>, next: nat, node: Anchor, after: Store)
    requires JoinedFrom(batch, next) && AnchoredFrom(node, HashesIn(batch), next)
    requires Landed(p, s, next, batch, after)
    ensures batch[0].height == next && Lands(p, s.blocks, batch, node, after.blocks)
  {
  }

  /** A commit is exactly the landing of the epoch's blocks from the next height to its end, and records a
      base only on an empty cache. */
  lemma CommitLands(p: Primitives, s: Store, entry: EpochEntry, chain: Bytes, node: Anchor, peer: Peer)
    returns (batch: seq<CompactBlock>)
    requires ImportEntry(p, s, entry, chain, node, peer).Committed?
    ensures var after := ImportEntry(p, s, entry, chain, node, peer).store;
            && Lands(p, s.blocks, batch, node, after.blocks)
            && batch[0].height == NextFor(s.blocks, entry) && batch[0].height + |batch| - 1 == entry.end
            && after.digests == s.digests
            && after.base == if s.blocks.Keys == {} then Some(entry.start) else s.base
  {
    EpochRecordsVerified(p, entry, chain, node, peer);
    var records, next := EpochRecords(p, entry, chain, node, peer).value, NextFor(s.blocks, entry);
    var after := ImportEntry(p, s, entry, chain, node, peer).store;
    batch := DecodeAll(p, records).value[next - entry.start..];
    TailJoined(DecodeAll(p, records).value, entry.start, node, batch, next);
    LandAppends(p, s, entry, next, records, batch, after);
    LandsFrom(p, s, batch, next, node, after);
  }

  /** After a commit the cache reaches the end of the entry. */
  lemma CommitReachesEnd(p: Primitives, s: Store, entry: EpochEntry, chain: Bytes, node: Anchor, peer: Peer)
    requires ImportEntry(p, s, entry, chain, node, peer).Committed?
    ensures var after := ImportEntry(p, s, entry, chain, node, peer).store;
            TipHeight(after.blocks) == Some(entry.end)
  {
    var batch := CommitLands(p, s, entry, chain, node, peer);
    LandsReaches(p, s.blocks, batch, node, ImportEntry(p, s, entry, chain, node, peer).store.blocks);
  }

  lemma LandsReaches(p: Primitives, t: Table, batch: seq<CompactBlock>, node: Anchor, u: Table)
    requires Lands(p, t, batch, node, u)
    ensures TipHeight(u) == Some(batch[0].height + |batch| - 1)
  {
    JoinedIsConsecutive(batch, batch[0].height);
    ExtendedBounds(p, t, batch);
  }
}
