/** Export, then import into an empty cache: the same blocks come out, byte for byte. */
module RoundTrip {
  import opened Base
  import opened Blocks
  import opened Format
  import opened BlockStore
  import opened BlockCache
  import opened Export
  import opened Publisher
  import opened Manifests
  import opened Import
  import opened ImportRun
  import opened ImportTheorems

  // ---- A served body passes every layer ----

  /** The node has the table's hashes at `lo..=hi`. */
  ghost predicate SameHashes(p: Primitives, t: Table, node: Anchor, lo: nat, hi: nat) {
    forall h: nat {:trigger NodeHash(node, h)} :: lo <= h <= hi && h in t ==>
      p.decode(t[h]).Some? && NodeHash(node, h) == Some(BlockAt(p, t, h).hash)
  }

  /** The blocks of `lo..hi`, `hi` excluded. */
  ghost function BlocksOf(p: Primitives, t: Table, lo: nat, hi: nat): (r: seq<CompactBlock>)
    requires lo <= hi && Full(t, lo, hi) && Decodes(p, t, lo, hi)
    ensures |r| == hi - lo && forall i :: 0 <= i < |r| ==> r[i] == BlockAt(p, t, lo + i) && r[i].height == lo + i
  {
    seq(hi - lo, i requires 0 <= i < hi - lo => BlockAt(p, t, lo + i))
  }

  lemma RowsDecode(p: Primitives, t: Table, lo: nat, hi: nat)
    requires lo <= hi && Full(t, lo, hi) && Decodes(p, t, lo, hi)
    ensures DecodeAll(p, RowsOf(t, lo, hi)) == Some(BlocksOf(p, t, lo, hi))
    ensures HashesIn(BlocksOf(p, t, lo, hi)) == HashesOf(p, t, lo, hi)
  {
    var rows, blocks := RowsOf(t, lo, hi), BlocksOf(p, t, lo, hi);
    assert forall i :: 0 <= i < |rows| ==> p.decode(rows[i]) == Some(blocks[i]);
    assert DecodeAll(p, rows).value == blocks;
  }

  lemma BlocksJoin(p: Primitives, t: Table, node: Anchor, lo: nat, hi: nat)
    requires lo < hi && Full(t, lo, hi) && Decodes(p, t, lo, hi)
    requires JoinedUp(p, t, lo, hi - 1) && SameHashes(p, t, node, lo, hi - 1)
    ensures JoinedFrom(BlocksOf(p, t, lo, hi), lo)
    ensures AnchoredFrom(node, HashesIn(BlocksOf(p, t, lo, hi)), lo)
  {
    var blocks := BlocksOf(p, t, lo, hi);
    forall i | 0 < i < |blocks| ensures JoinsAt(blocks, i) {
      assert JoinsBelow(p, t, lo + i);
    }
    forall i | 0 <= i < |blocks| ensures NodeHash(node, lo + i) == Some(HashesIn(blocks)[i]) {
      assert HashesIn(blocks)[i] == blocks[i].hash;
    }
  }

  lemma ServedRecordsVerified(p: Primitives, t: Table, chain: Bytes, node: Anchor, index: nat, entry: EpochEntry)
    requires Advertises(p, t, chain, index, entry)
    requires JoinedUp(p, t, entry.start, entry.end) && SameHashes(p, t, node, entry.start, entry.end)
    ensures entry.start <= entry.end && Full(t, entry.start, entry.end + 1)
    ensures RecordsVerified(p, RowsOf(t, entry.start, entry.end + 1), entry, node)
  {
    var lo, hi := entry.start, entry.end + 1;
    RowsDecode(p, t, lo, hi);
    BlocksJoin(p, t, node, lo, hi);
  }

  lemma ServedParses(t: Table, chain: Bytes, start: nat, end: nat)
    requires Writable(t, chain, start, end)
    ensures ParseEpoch(BodyOf(t, chain, start, end))
         == Ok((EpochHeader(chain, start, end - start + 1), RowsOf(t, start, end + 1)))
  {
    ParseUndoesWrite(chain, start, RowsOf(t, start, end + 1));
  }

  lemma ServedVerifies(p: Primitives, t: Table, chain: Bytes, node: Anchor, index: nat, entry: EpochEntry, body: Bytes)
    requires Advertises(p, t, chain, index, entry)
    requires JoinedUp(p, t, entry.start, entry.end) && SameHashes(p, t, node, entry.start, entry.end)
    requires body == BodyOf(t, chain, entry.start, entry.end)
    ensures Verified(p, body, entry, chain, node) && ParseEpoch(body).value.1 == RowsOf(t, entry.start, entry.end + 1)
    ensures |body| == entry.bytes
  {
    ServedRecordsVerified(p, t, chain, node, index, entry);
    ServedParses(t, chain, entry.start, entry.end);
  }

  // ---- An importer that has got as far as `to` ----

  /** The importer's state once it holds the publisher's rows from `base` up to, excluding, `to`. */
  function Imported(t: Table, base: nat, to: nat): Store {
    Store(Slice(t, base, to), map[], if base < to then Some(base) else None)
  }

  lemma SliceBounds(t: Table, lo: nat, hi: nat)
    requires lo < hi && Full(t, lo, hi)
    ensures Slice(t, lo, hi).Keys != {} && Lowest(Slice(t, lo, hi).Keys) == lo && Highest(Slice(t, lo, hi).Keys) == hi - 1
  {
    assert lo in Slice(t, lo, hi) && hi - 1 in Slice(t, lo, hi);
  }

  lemma SliceEmpty(t: Table, lo: nat)
    ensures Slice(t, lo, lo).Keys == {}
  {
  }

  lemma AddsSlice(p: Primitives, t: Table, base: nat, start: nat, end: nat, batch: seq<CompactBlock>, u: Table)
    requires base <= start <= end && Full(t, start, end + 1) && |batch| == end + 1 - start
    requires forall h: nat :: start <= h <= end ==> t[h] == p.encode(batch[h - start])
    requires Adds(p, Slice(t, base, start), start, batch, u)
    ensures u == Slice(t, base, end + 1)
  {
    assert u.Keys == Slice(t, base, end + 1).Keys;
  }

  /** Appending the publisher's next blocks to the importer's rows gives the longer slice. */
  lemma SliceExtends(p: Primitives, t: Table, base: nat, start: nat, end: nat, batch: seq<CompactBlock>)
    requires IsChain(p, t) && base <= start <= end && Full(t, start, end + 1) && Decodes(p, t, start, end + 1)
    requires batch == BlocksOf(p, t, start, end + 1)
    ensures Consecutive(batch) && Extended(p, Slice(t, base, start), batch) == Slice(t, base, end + 1)
  {
    assert Consecutive(batch);
    ExtendedRows(p, Slice(t, base, start), batch);
    forall h: nat | start <= h <= end ensures t[h] == p.encode(batch[h - start]) {
      assert batch[h - start] == BlockAt(p, t, h);
    }
    AddsSlice(p, t, base, start, end, batch, Extended(p, Slice(t, base, start), batch));
  }

  lemma JunctionHolds(p: Primitives, t: Table, base: nat, start: nat, rows: seq<Bytes>)
    requires base <= start && rows != [] && start in t && rows[0] == t[start] && RowOk(p, t, start)
    requires base < start ==> Full(t, base, start) && JoinsBelow(p, t, start)
    ensures CheckJunction(p, Slice(t, base, start), rows) == Ok(())
  {
    if base < start {
      SliceBounds(t, base, start);
    } else {
      SliceEmpty(t, base);
    }
  }

  /** Landing a whole body of consecutive blocks whose junction holds. */
  lemma LandsBatch(p: Primitives, s: Store, entry: EpochEntry, records: seq<Bytes>, batch: seq<CompactBlock>)
    requires DecodeAll(p, records) == Some(batch) && batch != [] && Consecutive(batch)
    requires CheckJunction(p, s.blocks, records) == Ok(())
    requires s.blocks.Keys != {} ==> batch[0].height == Highest(s.blocks.Keys) + 1
    ensures Land(p, s, entry, entry.start, records) ==
            Committed(s.(blocks := Extended(p, s.blocks, batch), base := if s.blocks.Keys == {} then Some(entry.start) else s.base))
  {
    assert records[0..] == records && batch[0..] == batch;
    DecodingOf(p, records, 0);
    AppendItemsExact(p, s.blocks, Oks(batch), NextHeight(s.blocks), batch);
  }

  lemma ImportedReaches(t: Table, base: nat, start: nat)
    requires base <= start && Full(t, base, start)
    ensures var held := Imported(t, base, start).blocks;
            if base == start then held.Keys == {} else held.Keys != {} && Highest(held.Keys) + 1 == start
  {
    if base < start {
      SliceBounds(t, base, start);
    } else {
      SliceEmpty(t, base);
    }
  }

  /** `rows` are the next rows of the publisher's table, and `batch` what they hold. */
  ghost predicate NextRows(p: Primitives, t: Table, base: nat, entry: EpochEntry, rows: seq<Bytes>, batch: seq<CompactBlock>) {
    var held := Imported(t, base, entry.start).blocks;
    && DecodeAll(p, rows) == Some(batch) && batch != [] && Consecutive(batch)
    && CheckJunction(p, held, rows) == Ok(())
    && (if base == entry.start then held.Keys == {} else held.Keys != {} && batch[0].height == Highest(held.Keys) + 1)
    && Extended(p, held, batch) == Slice(t, base, entry.end + 1)
  }

  lemma HasNextRows(p: Primitives, t: Table, base: nat, entry: EpochEntry, rows: seq<Bytes>, batch: seq<CompactBlock>)
    requires p.Lawful() && IsChain(p, t) && base <= entry.start <= entry.end
    requires Full(t, base, entry.end + 1) && Decodes(p, t, entry.start, entry.end + 1)
    requires rows == RowsOf(t, entry.start, entry.end + 1) && batch == BlocksOf(p, t, entry.start, entry.end + 1)
    requires base < entry.start ==> JoinsBelow(p, t, entry.start)
    ensures NextRows(p, t, base, entry, rows, batch)
  {
    assert DecodeAll(p, rows) == Some(batch) by {
      RowsDecode(p, t, entry.start, entry.end + 1);
    }
    assert Consecutive(batch) && Extended(p, Slice(t, base, entry.start), batch) == Slice(t, base, entry.end + 1) by {
      SliceExtends(p, t, base, entry.start, entry.end, batch);
    }
    RowsConnect(p, t, base, entry.start, rows);
  }

  lemma RowsConnect(p: Primitives, t: Table, base: nat, start: nat, rows: seq<Bytes>)
    requires IsChain(p, t) && base <= start && Full(t, base, start + 1) && rows != [] && rows[0] == t[start]
    requires base < start ==> JoinsBelow(p, t, start)
    ensures var held := Imported(t, base, start).blocks;
            && CheckJunction(p, held, rows) == Ok(())
            && if base == start then held.Keys == {} else held.Keys != {} && Highest(held.Keys) + 1 == start
  {
    JunctionHolds(p, t, base, start, rows);
    ImportedReaches(t, base, start);
  }

  lemma LandsNext(p: Primitives, t: Table, base: nat, entry: EpochEntry, rows: seq<Bytes>, batch: seq<CompactBlock>)
    requires base <= entry.start <= entry.end && NextRows(p, t, base, entry, rows, batch)
    ensures Land(p, Imported(t, base, entry.start), entry, entry.start, rows)
         == Committed(Imported(t, base, entry.end + 1))
  {
    LandsBatch(p, Imported(t, base, entry.start), entry, rows, batch);
  }

  // ---- The whole import ----

  /** `peer` serves `entry` as a publisher holding `t` would, within the node's reach. */
  ghost predicate Serves(t: Table, node: Anchor, entry: EpochEntry, peer: Peer) {
    && Writable(t, node.chain, entry.start, entry.end)
    && peer(entry.index) == Some(BodyOf(t, node.chain, entry.start, entry.end))
    && entry.end <= node.blocks
  }

  ghost predicate ServesAll(t: Table, m: Manifest, node: Anchor, peer: Peer) {
    forall i {:trigger Serves(t, node, m.epochs[i], peer)} :: 0 <= i < |m.epochs| ==> Serves(t, node, m.epochs[i], peer)
  }

  /** A publisher whose cache is one tree-consistent chain, its manifest and its bodies, and a node on the
      same chain with a tip past the last published epoch. */
  ghost predicate Setting(p: Primitives, s: Store, m: Manifest, node: Anchor, peer: Peer) {
    && p.Lawful() && Published(p, s, node.chain) && IsManifest(m, s, node.chain) && ServesAll(s.blocks, m, node, peer)
    && IsChain(p, s.blocks)
    && (s.blocks.Keys != {} ==>
          && JoinedUp(p, s.blocks, Lowest(s.blocks.Keys), Highest(s.blocks.Keys))
          && SameHashes(p, s.blocks, node, Lowest(s.blocks.Keys), Highest(s.blocks.Keys)))
  }

  lemma EntryFits(p: Primitives, t: Table, chain: Bytes, index: nat, entry: EpochEntry)
    requires Advertises(p, t, chain, index, entry) && Contiguous(t)
    ensures Lowest(t.Keys) <= entry.start <= entry.end <= Highest(t.Keys)
    ensures Full(t, Lowest(t.Keys), entry.end + 1) && Decodes(p, t, entry.start, entry.end + 1)
    ensures Writable(t, chain, entry.start, entry.end)
  {
    assert entry.start in t && entry.end in t;
  }

  /** Everything about one entry that its import depends on. */
  ghost predicate Ready(p: Primitives, t: Table, index: nat, entry: EpochEntry, node: Anchor, peer: Peer) {
    && Advertises(p, t, node.chain, index, entry)
    && Writable(t, node.chain, entry.start, entry.end)
    && peer(entry.index) == Some(BodyOf(t, node.chain, entry.start, entry.end))
    && Lowest(t.Keys) <= entry.start && entry.end <= node.blocks
    && Full(t, Lowest(t.Keys), entry.end + 1) && Decodes(p, t, entry.start, entry.end + 1)
    && JoinedUp(p, t, Lowest(t.Keys), entry.end) && SameHashes(p, t, node, entry.start, entry.end)
  }

  lemma SettingReady(p: Primitives, s: Store, m: Manifest, node: Anchor, peer: Peer, i: nat)
    requires Setting(p, s, m, node, peer) && i < |m.epochs|
    ensures s.blocks.Keys != {} && IsChain(p, s.blocks)
    ensures Ready(p, s.blocks, EpochIndex(Lowest(s.blocks.Keys)) + i, m.epochs[i], node, peer)
  {
    PublishedEntry(p, s, node.chain, m, i);
    assert Serves(s.blocks, node, m.epochs[i], peer);
    EntryFits(p, s.blocks, node.chain, EpochIndex(Lowest(s.blocks.Keys)) + i, m.epochs[i]);
  }

  lemma ImportEntryLands(p: Primitives, s: Store, entry: EpochEntry, chain: Bytes, node: Anchor, peer: Peer, records: Option<seq<Bytes>>)
    requires entry.start <= entry.end <= node.blocks && NextFor(s.blocks, entry) == entry.start
    requires records == EpochRecords(p, entry, chain, node, peer)
    ensures ImportEntry(p, s, entry, chain, node, peer) ==
            if records.None? then Failed(EpochRejected) else Land(p, s, entry, entry.start, records.value)
  {
  }

  lemma TakesReady(p: Primitives, t: Table, index: nat, entry: EpochEntry, node: Anchor, peer: Peer, base: nat, s: Store, after: Store)
    requires p.Lawful() && IsChain(p, t) && Ready(p, t, index, entry, node, peer) && base == Lowest(t.Keys)
    requires s == Imported(t, base, entry.start) && after == Imported(t, base, entry.end + 1)
    ensures entry.start <= entry.end
    ensures ImportEntry(p, s, entry, node.chain, node, peer) ==
              if entry.bytes > MAX_EPOCH_BYTES then Failed(EpochRejected) else Committed(after)
  {
    EpochArrives(p, t, node, peer, index, entry, BodyOf(t, node.chain, entry.start, entry.end));
    if base < entry.start {
      SliceBounds(t, base, entry.start);
      assert JoinsBelow(p, t, entry.start);
    } else {
      SliceEmpty(t, base);
    }
    var rows, batch := RowsOf(t, entry.start, entry.end + 1), BlocksOf(p, t, entry.start, entry.end + 1);
    HasNextRows(p, t, base, entry, rows, batch);
    LandsNext(p, t, base, entry, rows, batch);
    ImportEntryLands(p, s, entry, node.chain, node, peer, EpochRecords(p, entry, node.chain, node, peer));
  }

  /** Where the importer stands before entry `i`. */
  function Before(t: Table, m: Manifest, base: nat, i: nat): Store
    requires i <= |m.epochs|
  {
    Imported(t, base, if i == 0 then base else m.epochs[i - 1].end + 1)
  }

  /** Entry `i`, taken from where entry `i - 1` ended. */
  ghost predicate Takes(p: Primitives, t: Table, m: Manifest, node: Anchor, peer: Peer, base: nat, i: nat)
    requires i < |m.epochs|
  {
    && m.epochs[i].start <= m.epochs[i].end
    && ImportEntry(p, Before(t, m, base, i), m.epochs[i], node.chain, node, peer) ==
         if m.epochs[i].bytes > MAX_EPOCH_BYTES then Failed(EpochRejected) else Committed(Before(t, m, base, i + 1))
  }

  /** The importer takes every entry from where the last one ended, unless the body is too large to hold. */
  lemma TakesEntry(p: Primitives, s: Store, m: Manifest, node: Anchor, peer: Peer, i: nat, base: nat)
    requires Setting(p, s, m, node, peer) && i < |m.epochs| && s.blocks.Keys != {} && base == Lowest(s.blocks.Keys)
    ensures Takes(p, s.blocks, m, node, peer, base, i)
  {
    SettingReady(p, s, m, node, peer, i);
    StartsWhereLastEnded(p, s, m, node, i);
    TakesFrom(p, s.blocks, m, node, peer, base, i);
  }

  lemma TakesFrom(p: Primitives, t: Table, m: Manifest, node: Anchor, peer: Peer, base: nat, i: nat)
    requires p.Lawful() && IsChain(p, t) && i < |m.epochs| && t.Keys != {} && base == Lowest(t.Keys)
    requires Ready(p, t, EpochIndex(base) + i, m.epochs[i], node, peer)
    requires m.epochs[i].start == (if i == 0 then base else m.epochs[i - 1].end + 1)
    ensures Takes(p, t, m, node, peer, base, i)
  {
    TakesReady(p, t, EpochIndex(base) + i, m.epochs[i], node, peer, base, Before(t, m, base, i), Before(t, m, base, i + 1));
  }

  lemma EpochArrives(p: Primitives, t: Table, node: Anchor, peer: Peer, index: nat, entry: EpochEntry, body: Bytes)
    requires Advertises(p, t, node.chain, index, entry) && Writable(t, node.chain, entry.start, entry.end)
    requires JoinedUp(p, t, entry.start, entry.end) && SameHashes(p, t, node, entry.start, entry.end)
    requires body == BodyOf(t, node.chain, entry.start, entry.end) && peer(entry.index) == Some(body)
    ensures EpochRecords(p, entry, node.chain, node, peer) ==
            if entry.bytes > MAX_EPOCH_BYTES then None else Some(RowsOf(t, entry.start, entry.end + 1))
  {
    ServedVerifies(p, t, node.chain, node, index, entry, body);
  }

  lemma StartsWhereLastEnded(p: Primitives, s: Store, m: Manifest, node: Anchor, i: nat)
    requires p.Lawful() && Published(p, s, node.chain) && IsManifest(m, s, node.chain) && i < |m.epochs|
    ensures s.blocks.Keys != {}
    ensures m.epochs[i].start == (if i == 0 then Lowest(s.blocks.Keys) else m.epochs[i - 1].end + 1)
  {
    PublishedInPlace(p, s, node.chain, m, i);
    if i > 0 {
      PublishedInPlace(p, s, node.chain, m, i - 1);
      PublishedBelowLimit(p, s, m, node, i - 1);
    }
    PlacesMeet(m, i, Lowest(s.blocks.Keys));
  }

  lemma PublishedBelowLimit(p: Primitives, s: Store, m: Manifest, node: Anchor, i: nat)
    requires p.Lawful() && Published(p, s, node.chain) && EntriesOf(m.epochs, s.digests) && i < |m.epochs|
    ensures m.epochs[i].end < HEIGHT_LIMIT
  {
    PublishedEntry(p, s, node.chain, m, i);
    EntryFits(p, s.blocks, node.chain, EpochIndex(Lowest(s.blocks.Keys)) + i, m.epochs[i]);
  }

  lemma PlacesMeet(m: Manifest, i: nat, base: nat)
    requires i < |m.epochs| && InPlace(m, i, base) && base < HEIGHT_LIMIT
    requires i > 0 ==> InPlace(m, i - 1, base) && m.epochs[i - 1].end < HEIGHT_LIMIT
    ensures m.epochs[i].start == (if i == 0 then base else m.epochs[i - 1].end + 1)
  {
    if i > 0 {
      LaterEpochStarts(base, EpochIndex(base) + i);
      EpochsMeet(EpochIndex(base) + i - 1);
    } else {
      EpochHolds(base, EpochIndex(base));
    }
  }

  predicate AllFit(entries: seq<EpochEntry>) {
    forall i :: 0 <= i < |entries| ==> entries[i].bytes <= MAX_EPOCH_BYTES
  }

  lemma AllFitTail(rest: seq<EpochEntry>)
    requires rest != []
    ensures AllFit(rest) <==> rest[0].bytes <= MAX_EPOCH_BYTES && AllFit(rest[1..])
  {
    if rest[0].bytes <= MAX_EPOCH_BYTES && AllFit(rest[1..]) {
      forall k | 0 <= k < |rest| ensures rest[k].bytes <= MAX_EPOCH_BYTES {
        if k > 0 {
          assert rest[1..][k - 1].bytes <= MAX_EPOCH_BYTES;
        }
      }
    }
  }

  lemma {:induction false} ImportsFrom(p: Primitives, t: Table, m: Manifest, node: Anchor, peer: Peer, base: nat, i: nat, rest: seq<EpochEntry>)
    requires forall k {:trigger Takes(p, t, m, node, peer, base, k)} :: 0 <= k < |m.epochs| ==> Takes(p, t, m, node, peer, base, k)
    requires i <= |m.epochs| && rest == m.epochs[i..]
    ensures var outcome := ImportFrom(p, Before(t, m, base, i), rest, node.chain, node, peer);
            if AllFit(rest) then outcome == (Before(t, m, base, |m.epochs|), Running)
            else outcome.1 == Halted(Err(EpochRejected))
    decreases |rest|
  {
    if rest != [] {
      assert Takes(p, t, m, node, peer, base, i);
      assert rest[0] == m.epochs[i] && rest[1..] == m.epochs[i + 1..];
      AllFitTail(rest);
      if rest[0].bytes <= MAX_EPOCH_BYTES {
        ImportsFrom(p, t, m, node, peer, base, i + 1, rest[1..]);
      }
    }
  }

  /** An import of `m` into an empty cache succeeds exactly when every body is small enough to hold, and then
      reproduces the publisher's rows from its base to the end of the last published epoch, and that base. */
  ghost predicate Reproduces(p: Primitives, s: Store, m: Manifest, node: Anchor, peer: Peer) {
    && (m.epochs != [] ==> s.blocks.Keys != {} && Lowest(s.blocks.Keys) <= m.epochs[|m.epochs| - 1].end)
    && var (after, progress) := ImportFrom(p, EMPTY, m.epochs, m.chain, node, peer);
       && (progress == Running <==> AllFit(m.epochs))
       && (m.epochs == [] ==> after == EMPTY)
       && (m.epochs != [] && AllFit(m.epochs) ==> after == Imported(s.blocks, Lowest(s.blocks.Keys), m.epochs[|m.epochs| - 1].end + 1))
  }

  /** Exporting and importing into an empty cache, against a node on the same chain: the manifest is accepted
      and the import reproduces what was published. */
  lemma ExportImportRoundTrip(p: Primitives, s: Store, m: Manifest, node: Anchor, peer: Peer)
    requires Setting(p, s, m, node, peer)
    ensures Accepts(m, node.chain) && Reproduces(p, s, m, node, peer)
  {
    PublishedManifestAccepted(p, s, node.chain, m);
    if m.epochs != [] {
      LastEndsAbove(p, s, m, node);
      var base := Lowest(s.blocks.Keys);
      TakesAll(p, s, m, node, peer, base);
      RoundTripFrom(p, s.blocks, m, node, peer, base);
    }
  }

  lemma TakesAll(p: Primitives, s: Store, m: Manifest, node: Anchor, peer: Peer, base: nat)
    requires Setting(p, s, m, node, peer) && s.blocks.Keys != {} && base == Lowest(s.blocks.Keys)
    ensures forall k {:trigger Takes(p, s.blocks, m, node, peer, base, k)} :: 0 <= k < |m.epochs| ==> Takes(p, s.blocks, m, node, peer, base, k)
  {
    forall k | 0 <= k < |m.epochs| ensures Takes(p, s.blocks, m, node, peer, base, k) {
      TakesEntry(p, s, m, node, peer, k, base);
    }
  }

  lemma RoundTripFrom(p: Primitives, t: Table, m: Manifest, node: Anchor, peer: Peer, base: nat)
    requires forall k {:trigger Takes(p, t, m, node, peer, base, k)} :: 0 <= k < |m.epochs| ==> Takes(p, t, m, node, peer, base, k)
    ensures var outcome := ImportFrom(p, EMPTY, m.epochs, node.chain, node, peer);
            if AllFit(m.epochs) then outcome == (Before(t, m, base, |m.epochs|), Running)
            else outcome.1 == Halted(Err(EpochRejected))
  {
    assert m.epochs[0..] == m.epochs;
    SliceEmpty(t, base);
    assert Before(t, m, base, 0) == EMPTY;
    ImportsFrom(p, t, m, node, peer, base, 0, m.epochs);
  }

  lemma LastEndsAbove(p: Primitives, s: Store, m: Manifest, node: Anchor)
    requires p.Lawful() && Published(p, s, node.chain) && IsManifest(m, s, node.chain) && m.epochs != []
    ensures s.blocks.Keys != {} && Lowest(s.blocks.Keys) <= m.epochs[|m.epochs| - 1].end
  {
    PublishedInPlace(p, s, node.chain, m, |m.epochs| - 1);
  }

  // ---- A publisher of one epoch ----

  /** The last block of epoch zero and the first of the next. */
  function TwoBlocks(p: Primitives, below: CompactBlock, tip: CompactBlock): Table {
    map[9_999 := p.encode(below), 10_000 := p.encode(tip)]
  }

  ghost predicate TwoLinked(p: Primitives, below: CompactBlock, tip: CompactBlock) {
    && p.Lawful() && below.height == 9_999 && tip.height == 10_000 && tip.prevHash == below.hash
    && |p.encode(below)| <= U32_MAX && |p.encode(tip)| <= U32_MAX
  }

  lemma TwoBlocksAreHealthy(p: Primitives, below: CompactBlock, tip: CompactBlock, chain: Bytes)
    requires TwoLinked(p, below, tip) && ValidChain(chain)
    ensures var t := TwoBlocks(p, below, tip);
            && Range(t) == Some((9_999, 10_000)) && IsChain(p, t) && Healthy(p, t, chain)
            && NextPending(Store(t, map[], None)) == Some(0)
  {
    var t := TwoBlocks(p, below, tip);
    assert 9_999 in t && 10_000 in t;
    assert Lowest(t.Keys) == 9_999 && Highest(t.Keys) == 10_000;
    assert EpochIndex(9_999) == 0 && EpochLast(0) == 9_999;
  }

  /** One unit of maintenance publishes epoch zero, as the one block below its end. */
  lemma PublishesOne(p: Primitives, below: CompactBlock, tip: CompactBlock, chain: Bytes) returns (s: Store)
    requires TwoLinked(p, below, tip) && ValidChain(chain)
    ensures s == Maintained(p, Store(TwoBlocks(p, below, tip), map[], None), chain, QUIET)
    ensures Published(p, s, chain) && s.blocks == TwoBlocks(p, below, tip) && s.digests.Keys == {0}
    ensures DecodeDigest(s.digests[0]).Some? && DecodeDigest(s.digests[0]).value.end == 9_999
    ensures DecodeDigest(s.digests[0]).value.bytes >= |p.encode(below)|
  {
    var before := Store(TwoBlocks(p, below, tip), map[], None);
    TwoBlocksAreHealthy(p, below, tip, chain);
    s := Maintained(p, before, chain, QUIET);
    assert Published(p, s, chain) by {
      FreshCachesArePublished(p, before.blocks, chain);
      MaintenanceKeepsPublished(p, before, chain, QUIET, s);
    }
    assert s.digests.Keys == {0} by {
      MaintenanceStores(p, before, chain, QUIET);
    }
    QuietUnit(p, before, chain);
    PublishedIsServed(p, s, chain, 0);
    BodyHoldsRow(s.blocks, chain, 9_999);
  }

  lemma BodyHoldsRow(t: Table, chain: Bytes, h: nat)
    requires Writable(t, chain, h, h)
    ensures |BodyOf(t, chain, h, h)| >= |t[h]|
  {
    var rows := RowsOf(t, h, h + 1);
    assert rows == [t[h]];
    OneRecordLength(t[h]);
  }

  lemma OneRecordLength(row: Bytes)
    ensures |RecordsBytes([row])| >= |row|
  {
    assert [row][1..] == [];
  }

  /** An entry whose body is too large is refused by every importer whose node has reached it, whatever that node
      and the peer answer. */
  lemma OversizeIsRefused(p: Primitives, entry: EpochEntry, chain: Bytes, node: Anchor, peer: Peer)
    requires entry.start <= entry.end <= node.blocks && entry.bytes > MAX_EPOCH_BYTES
    ensures ImportEntry(p, EMPTY, entry, chain, node, peer) == Failed(EpochRejected)
  {
  }

  lemma OnlyEntry(m: Manifest, digests: map<nat, Bytes>)
    requires EntriesOf(m.epochs, digests) && digests.Keys == {0}
    ensures m.epochs != [] && DecodeDigest(digests[0]).Some? && m.epochs[0] == EntryOf(DecodeDigest(digests[0]).value, 0)
  {
    assert 0 in digests && HasEntry(m.epochs, 0);
    assert Restates(digests, m.epochs[0]);
  }

  /** The limit is real: a linked, healthy cache in which the row at the end of epoch zero is larger than an
      importer will hold publishes that epoch, its manifest is accepted, and no importer whose node has reached
      the epoch takes anything from it. */
  lemma OversizeExample(p: Primitives, below: CompactBlock, tip: CompactBlock, m: Manifest, node: Anchor, peer: Peer) returns (s: Store)
    requires TwoLinked(p, below, tip) && ValidChain(node.chain) && |p.encode(below)| > MAX_EPOCH_BYTES
    ensures s == Maintained(p, Store(TwoBlocks(p, below, tip), map[], None), node.chain, QUIET)
    ensures Published(p, s, node.chain) && IsChain(p, s.blocks)
    ensures IsManifest(m, s, node.chain) && node.blocks >= 9_999 ==>
              && Accepts(m, node.chain)
              && ImportFrom(p, EMPTY, m.epochs, m.chain, node, peer) == (EMPTY, Halted(Err(EpochRejected)))
  {
    s := PublishesOne(p, below, tip, node.chain);
    TwoBlocksAreHealthy(p, below, tip, node.chain);
    if IsManifest(m, s, node.chain) && node.blocks >= 9_999 {
      PublishedManifestAccepted(p, s, node.chain, m);
      OnlyEntry(m, s.digests);
      assert EntryOk(m, 0);
      OversizeIsRefused(p, m.epochs[0], m.chain, node, peer);
    }
  }

  /** A manifest can be refused: one that read its range off the empty cache, and its rows once the two blocks
      above were cached and digested. */
  lemma StaleBaseExample(p: Primitives, below: CompactBlock, tip: CompactBlock, m: Manifest, chain: Bytes) returns (s: Store)
    requires TwoLinked(p, below, tip) && ValidChain(chain)
    ensures s == Maintained(p, Store(TwoBlocks(p, below, tip), map[], None), chain, QUIET)
    ensures IsManifestOver(m, map[], s, chain) ==> !Accepts(m, chain)
  {
    s := PublishesOne(p, below, tip, chain);
    TwoBlocksAreHealthy(p, below, tip, chain);
    if IsManifestOver(m, map[], s, chain) {
      ManifestAcceptedExactly(p, map[], s, chain, m);
      assert 0 in s.digests;
    }
  }
}
