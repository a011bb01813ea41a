/** Consuming a snapshot: the layered verification of an epoch, its junction with the cache, and the loop
    that lands epochs one transaction each. */
module Import {
  import opened Base
  import opened Encoding
  import opened Blocks
  import opened Format
  import opened BlockStore
  import opened BlockCache
  import opened Manifests
  import HashWorkers

  /** Largest epoch body an importer will hold. */
  const MAX_EPOCH_BYTES: nat := 2 * 1024 * 1024 * 1024

  /** The operator's node during one import: its chain, its tip, and the hash it gives for a height. */
  datatype Anchor = Anchor(chain: Bytes, blocks: nat, hashAt: nat -> Option<string>)

  /** Epoch bodies as the peer serves them; `None` is a failed download. */
  type Peer = nat -> Option<Bytes>

  datatype ImportError = BadManifest | Gap | EpochRejected | JunctionRejected | CacheFault(error: CacheError)

  // ---- Tree sizes ----

  function SumOutputs(vtx: seq<CompactTx>): nat {
    if vtx == [] then 0 else |vtx[0].outputs| + SumOutputs(vtx[1..])
  }

  function SumActions(vtx: seq<CompactTx>): nat {
    if vtx == [] then 0 else |vtx[0].actions| + SumActions(vtx[1..])
  }

  function SumIronwood(vtx: seq<CompactTx>): nat {
    if vtx == [] then 0 else |vtx[0].ironwoodActions| + SumIronwood(vtx[1..])
  }

  /** What a block adds to each pool's tree. */
  function Carried(b: CompactBlock): ChainMetadata {
    ChainMetadata(SumOutputs(b.vtx), SumActions(b.vtx), SumIronwood(b.vtx))
  }

  /** Block by block and transaction by transaction: what a transaction adds to each tree is its outputs in that
      pool. */
  lemma {:induction false} CarriedOneMore(b: CompactBlock, tx: CompactTx)
    ensures Carried(b.(vtx := [])) == ChainMetadata(0, 0, 0)
    ensures Carried(b.(vtx := b.vtx + [tx]))
         == Plus(Carried(b), ChainMetadata(|tx.outputs|, |tx.actions|, |tx.ironwoodActions|))
    decreases |b.vtx|
  {
    if b.vtx == [] {
      assert b.vtx + [tx] == [tx] && [tx][1..] == [];
    } else {
      assert (b.vtx + [tx])[1..] == b.vtx[1..] + [tx];
      CarriedOneMore(b.(vtx := b.vtx[1..]), tx);
    }
  }

  function Plus(a: ChainMetadata, b: ChainMetadata): ChainMetadata {
    ChainMetadata(a.sapling + b.sapling, a.orchard + b.orchard, a.ironwood + b.ironwood)
  }

  /** `check_tree_sizes`: no tree shrinks, and each grows by exactly what `later` carries. */
  predicate CheckTreeSizes(earlier: CompactBlock, later: CompactBlock) {
    && earlier.metadata.Some? && later.metadata.Some?
    && (var before, after, carried := earlier.metadata.value, later.metadata.value, Carried(later);
        && before.sapling <= after.sapling && after.sapling - before.sapling == carried.sapling
        && before.orchard <= after.orchard && after.orchard - before.orchard == carried.orchard
        && before.ironwood <= after.ironwood && after.ironwood - before.ironwood == carried.ironwood)
  }

  predicate CheckLinkage(earlier: CompactBlock, later: CompactBlock) {
    later.prevHash == earlier.hash
  }

  /** `later` continues `earlier`, in hashes and in tree sizes. */
  predicate Joins(earlier: CompactBlock, later: CompactBlock) {
    CheckLinkage(earlier, later) && CheckTreeSizes(earlier, later)
  }

  // ---- Anchoring ----

  /** The hash the node gives for `height`, in wire order. */
  function NodeHash(node: Anchor, height: nat): Option<Bytes> {
    match node.hashAt(height)
    case Some(text) => DisplayHexToWire(text)
    case None => None
  }

  /** What `fetch_block_hashes` returns when it succeeds. */
  ghost predicate IsLookup(node: Anchor, lo: nat, hi: nat, hashes: map<nat, string>) {
    && (forall h: nat :: h in hashes <==> lo <= h <= hi)
    && (forall h :: h in hashes ==> node.hashAt(h) == Some(hashes[h]))
  }

  method FetchBlockHashes(node: Anchor, lo: nat, hi: nat) returns (r: Option<map<nat, string>>)
    requires lo <= hi
    ensures r.Some? <==> forall h: nat :: lo <= h <= hi ==> node.hashAt(h).Some?
    ensures r.Some? ==> IsLookup(node, lo, hi, r.value)
  {
    var hashes: map<nat, string> := map[];
    for h := lo to hi + 1
      invariant forall k: nat :: k in hashes <==> lo <= k < h
      invariant forall k :: k in hashes ==> node.hashAt(k) == Some(hashes[k])
    {
      var answer := node.hashAt(h);
      if answer.None? {
        return None;
      }
      hashes := hashes[h := answer.value];
    }
    r := Some(hashes);
  }

  /** The lookup the worker pool makes of a range: a batch fails if the node lacks any of its heights. */
  ghost function PoolLookup(node: Anchor, lo: nat, hi: nat): HashWorkers.Lookup {
    HashWorkers.Lookup(lo, hi, (i: nat) => BatchReply(node, lo, hi, i))
  }

  ghost function BatchReply(node: Anchor, lo: nat, hi: nat, i: nat): Option<seq<string>> {
    var from := lo + i * HashWorkers.LOOKUP_BATCH;
    var size := Min(HashWorkers.LOOKUP_BATCH, SatSub(hi + 1, from));
    if forall h: nat :: from <= h < from + size ==> node.hashAt(h).Some?
    then Some(seq(size, k requires 0 <= k < size => node.hashAt(from + k).value))
    else None
  }

  lemma BatchReplyAt(node: Anchor, lo: nat, hi: nat, h: nat)
    requires lo <= h <= hi
    requires var l := PoolLookup(node, lo, hi); l.BatchOf(h) < l.Batches() && l.GoodReply(l.BatchOf(h))
    ensures node.hashAt(h) == Some(PoolLookup(node, lo, hi).Answer(h))
  {
    var l := PoolLookup(node, lo, hi);
    var i := l.BatchOf(h);
    var r := BatchReply(node, lo, hi, i);
    assert l.reply(i) == r && r.Some?;
    var k := (h - lo) % HashWorkers.LOOKUP_BATCH;
    assert lo + i * HashWorkers.LOOKUP_BATCH + k == h;
    l.BatchHolds(h);
  }

  /** Whatever its interleaving, the pool's successful result is the lookup of the range. */
  lemma PoolIsLookup(node: Anchor, lo: nat, hi: nat, concurrency: nat,
                     schedule: seq<(nat, HashWorkers.Step)>, last: HashWorkers.Pool)
    requires lo <= hi
    requires HashWorkers.Run(PoolLookup(node, lo, hi), HashWorkers.Initial(concurrency), schedule, last)
    requires HashWorkers.Succeeded(last)
    ensures IsLookup(node, lo, hi, HashWorkers.Merged(last.workers))
  {
    var l := PoolLookup(node, lo, hi);
    HashWorkers.PoolResult(l, concurrency, schedule, last);
    var merged := HashWorkers.Merged(last.workers);
    forall h | h in merged ensures node.hashAt(h) == Some(merged[h]) {
      assert l.Wanted(h);
      BatchReplyAt(node, lo, hi, h);
    }
  }

  lemma RepliesAreHashes(node: Anchor, lo: nat, hi: nat)
    requires lo <= hi
    ensures HashWorkers.GoodReplies(PoolLookup(node, lo, hi)) <==> forall h: nat :: lo <= h <= hi ==> node.hashAt(h).Some?
  {
    var l := PoolLookup(node, lo, hi);
    if HashWorkers.GoodReplies(l) {
      forall h: nat | lo <= h <= hi ensures node.hashAt(h).Some? {
        l.BatchHolds(h);
        assert l.GoodReply(l.BatchOf(h));
        BatchReplyAt(node, lo, hi, h);
      }
    }
    if forall h: nat :: lo <= h <= hi ==> node.hashAt(h).Some? {
      forall i | 0 <= i < l.Batches() ensures l.GoodReply(i) {
        assert l.reply(i) == BatchReply(node, lo, hi, i);
      }
    }
  }

  /** The pool stands in for `FetchBlockHashes`: whatever its interleaving, once its workers have stopped and
      none was lost, it succeeds exactly when the sequential lookup does, and then with the same hashes. */
  lemma PoolRefinesLookup(node: Anchor, lo: nat, hi: nat, concurrency: nat,
                          schedule: seq<(nat, HashWorkers.Step)>, last: HashWorkers.Pool)
    requires lo <= hi
    requires HashWorkers.Run(PoolLookup(node, lo, hi), HashWorkers.Initial(concurrency), schedule, last)
    requires HashWorkers.NobodyDies(schedule) && HashWorkers.Stopped(last)
    ensures HashWorkers.Succeeded(last) <==> forall h: nat :: lo <= h <= hi ==> node.hashAt(h).Some?
    ensures HashWorkers.Succeeded(last) ==> IsLookup(node, lo, hi, HashWorkers.Merged(last.workers))
  {
    HashWorkers.PoolSucceedsExactly(PoolLookup(node, lo, hi), concurrency, schedule, last);
    RepliesAreHashes(node, lo, hi);
    if HashWorkers.Succeeded(last) {
      PoolIsLookup(node, lo, hi, concurrency, schedule, last);
    }
  }

  // ---- Verifying one epoch ----

  /** The blocks `records` hold, if every one decodes. */
  ghost function DecodeAll(p: Primitives, records: seq<Bytes>): (r: Option<seq<CompactBlock>>)
    ensures r.Some? <==> forall i :: 0 <= i < |records| ==> p.decode(records[i]).Some?
    ensures r.Some? ==> |r.value| == |records| && forall i :: 0 <= i < |records| ==> p.decode(records[i]) == Some(r.value[i])
  {
    if forall i :: 0 <= i < |records| ==> p.decode(records[i]).Some?
    then Some(seq(|records|, i requires 0 <= i < |records| => p.decode(records[i]).value))
    else None
  }

  /** Layers two and three: consecutive from `start`, each block joining the one before. */
  ghost predicate JoinedFrom(batch: seq<CompactBlock>, start: nat) {
    && (forall i :: 0 <= i < |batch| ==> batch[i].height == start + i)
    && (forall i {:trigger JoinsAt(batch, i)} :: 0 < i < |batch| ==> JoinsAt(batch, i))
  }

  predicate JoinsAt(batch: seq<CompactBlock>, i: nat)
    requires 0 < i < |batch|
  {
    Joins(batch[i - 1], batch[i])
  }

  /** Layer four: each hash is the node's for its height. */
  ghost predicate AnchoredFrom(node: Anchor, hashes: seq<Bytes>, start: nat) {
    forall i {:trigger hashes[i]} :: 0 <= i < |hashes| ==> NodeHash(node, start + i) == Some(hashes[i])
  }

  ghost function HashesIn(batch: seq<CompactBlock>): (r: seq<Bytes>)
    ensures |r| == |batch| && forall i :: 0 <= i < |r| ==> r[i] == batch[i].hash
  {
    seq(|batch|, i requires 0 <= i < |batch| => batch[i].hash)
  }

  /** `records` pass layers two to four as the epoch `entry` describes. */
  ghost predicate RecordsVerified(p: Primitives, records: seq<Bytes>, entry: EpochEntry, node: Anchor) {
    && DecodeAll(p, records).Some?
    && var batch := DecodeAll(p, records).value;
       && JoinedFrom(batch, entry.start)
       && AnchoredFrom(node, HashesIn(batch), entry.start)
       && HexEncode(p.sha256(AnchorInput(entry.start, HashesIn(batch)))) == entry.anchor
  }

  /** The header is the one `entry` describes. */
  predicate HeaderMatches(header: EpochHeader, entry: EpochEntry, chain: Bytes)
    requires entry.start <= entry.end
  {
    header.chain == chain && header.start == entry.start && header.count == entry.end - entry.start + 1
  }

  /** `body` passes every layer. */
  ghost predicate Verified(p: Primitives, body: Bytes, entry: EpochEntry, chain: Bytes, node: Anchor)
    requires entry.start <= entry.end
  {
    && HexEncode(p.sha256(body)) == entry.contentDigest
    && ParseEpoch(body).Ok?
    && HeaderMatches(ParseEpoch(body).value.0, entry, chain)
    && RecordsVerified(p, ParseEpoch(body).value.1, entry, node)
  }

  lemma RecordCount(body: Bytes)
    requires ParseEpoch(body).Ok?
    ensures |ParseEpoch(body).value.1| == ParseEpoch(body).value.0.count
  {
    WriteUndoesParse(body);
  }

  /** The pass over an epoch's records that checks heights, linkage and tree sizes. */
  method CheckRecords(p: Primitives, start: nat, records: seq<Bytes>) returns (hashes: Option<seq<Bytes>>)
    ensures hashes.Some? <==> DecodeAll(p, records).Some? && JoinedFrom(DecodeAll(p, records).value, start)
    ensures hashes.Some? ==> hashes.value == HashesIn(DecodeAll(p, records).value)
  {
    var seen: seq<Bytes> := [];
    ghost var all := DecodeAll(p, records);
    var previous: Option<CompactBlock> := None;
    for i := 0 to |records|
      invariant |seen| == i && forall k :: 0 <= k < i ==> p.decode(records[k]).Some?
      invariant i > 0 ==> previous == p.decode(records[i - 1])
      invariant i == 0 ==> previous == None
      invariant all.Some? ==>
                  && (forall k :: 0 <= k < i ==> seen[k] == all.value[k].hash && all.value[k].height == start + k)
                  && (forall k {:trigger JoinsAt(all.value, k)} :: 0 < k < i ==> JoinsAt(all.value, k))
    {
      var block := p.decode(records[i]);
      if block.None? || block.value.height != start + i {
        return None;
      }
      if previous.Some? && !(CheckLinkage(previous.value, block.value) && CheckTreeSizes(previous.value, block.value)) {
        assert all.Some? ==> !JoinsAt(all.value, i);
        return None;
      }
      seen := seen + [block.value.hash];
      previous := block;
    }
    assert seen == HashesIn(all.value);
    hashes := Some(seen);
  }

  lemma AnchoredOneMore(node: Anchor, hashes: seq<Bytes>, start: nat, i: nat)
    requires i < |hashes| && AnchoredFrom(node, hashes[..i], start)
    ensures AnchoredFrom(node, hashes[..i + 1], start) <==> NodeHash(node, start + i) == Some(hashes[i])
    ensures AnchoredFrom(node, hashes, start) ==> NodeHash(node, start + i) == Some(hashes[i])
    ensures AnchorInput(start, hashes[..i + 1]) == AnchorInput(start, hashes[..i]) + (HeightBytes(start + i) + hashes[i])
  {
    var longer := hashes[..i + 1];
    assert longer == hashes[..i] + [hashes[i]];
    AnchorAppend(start, hashes[..i], hashes[i]);
    forall k | 0 <= k < i ensures NodeHash(node, start + k) == Some(longer[k]) {
      assert longer[k] == hashes[..i][k];
    }
    assert longer[i] == hashes[i];
  }

  /** The height-by-height comparison, and what it feeds the anchor hasher. */
  method CompareHashes(node: Anchor, start: nat, hashes: seq<Bytes>, nodeHashes: map<nat, string>)
    returns (matches: bool, fed: Bytes)
    requires hashes != [] && IsLookup(node, start, start + |hashes| - 1, nodeHashes)
    ensures matches <==> AnchoredFrom(node, hashes, start)
    ensures matches ==> fed == AnchorInput(start, hashes)
  {
    fed := [];
    for i := 0 to |hashes|
      invariant AnchoredFrom(node, hashes[..i], start)
      invariant fed == AnchorInput(start, hashes[..i])
    {
      var wire := DisplayHexToWire(nodeHashes[start + i]);
      AnchoredOneMore(node, hashes, start, i);
      assert NodeHash(node, start + i) == wire;
      if wire.None? || wire.value != hashes[i] {
        return false, [];
      }
      fed := fed + (HeightBytes(start + i) + wire.value);
    }
    assert hashes[..|hashes|] == hashes;
    matches := true;
  }

  /** `verify_anchor`: every claimed hash against the node's, then the digest over them. */
  method VerifyAnchor(p: Primitives, entry: EpochEntry, hashes: seq<Bytes>, node: Anchor) returns (ok: bool)
    requires entry.start <= entry.end && |hashes| == entry.end - entry.start + 1
    ensures ok <==> AnchoredFrom(node, hashes, entry.start)
                    && HexEncode(p.sha256(AnchorInput(entry.start, hashes))) == entry.anchor
  {
    var nodeHashes := FetchBlockHashes(node, entry.start, entry.end);
    if nodeHashes.None? {
      var h: nat :| entry.start <= h <= entry.end && node.hashAt(h).None?;
      ghost var claimed := hashes[h - entry.start];
      return false;
    }
    var matches, fed := CompareHashes(node, entry.start, hashes, nodeHashes.value);
    ok := matches && HexEncode(p.sha256(fed)) == entry.anchor;
  }

  /** `verify_epoch`: all four layers over one body. */
  method VerifyEpoch(p: Primitives, body: Bytes, entry: EpochEntry, chain: Bytes, node: Anchor)
    returns (r: Option<seq<Bytes>>)
    requires entry.start <= entry.end
    ensures r.Some? <==> Verified(p, body, entry, chain, node)
    ensures r.Some? ==> r.value == ParseEpoch(body).value.1
  {
    if HexEncode(p.sha256(body)) != entry.contentDigest {
      return None;
    }
    var parsed := ReadEpoch(body);
    if parsed.Err? {
      return None;
    }
    var (header, records) := parsed.value;
    if !HeaderMatches(header, entry, chain) {
      return None;
    }
    var verified := VerifyRecords(p, body, records, entry, node);
    r := if verified then Some(records) else None;
  }

  method VerifyRecords(p: Primitives, ghost body: Bytes, records: seq<Bytes>, entry: EpochEntry, node: Anchor) returns (ok: bool)
    requires entry.start <= entry.end && ParseEpoch(body).Ok? && ParseEpoch(body).value.1 == records
    requires ParseEpoch(body).value.0.count == entry.end - entry.start + 1
    ensures ok <==> RecordsVerified(p, records, entry, node)
  {
    RecordCount(body);
    var hashes := CheckRecords(p, entry.start, records);
    if hashes.None? {
      return false;
    }
    ok := VerifyAnchor(p, entry, hashes.value, node);
  }
}
