/** What an import leaves behind, whether it finished, failed or was cut short. */
module ImportTheorems {
  import opened Base
  import opened Encoding
  import opened Blocks
  import opened Format
  import opened BlockStore
  import opened Manifests
  import opened Import
  import opened ImportRun

  // ---- Everything added is the node's chain ----

  /** The block at `h` carries the hash the node gave for that height, and joins the one below it. */
  ghost predicate Genuine(p: Primitives, t: Table, node: Anchor, h: nat) {
    && h in t && p.decode(t[h]).Some? && BlockAt(p, t, h).height == h
    && NodeHash(node, h) == Some(BlockAt(p, t, h).hash)
    && (h > 0 && h - 1 in t ==> p.decode(t[h - 1]).Some? && Joins(BlockAt(p, t, h - 1), BlockAt(p, t, h)))
  }

  /** `u` keeps `t` and adds only genuine blocks, all above it. */
  ghost predicate Grown(p: Primitives, t: Table, u: Table, node: Anchor) {
    && (forall h :: h in t ==> h in u && u[h] == t[h])
    && (forall h {:trigger Genuine(p, u, node, h)} :: h in u && h !in t ==> Genuine(p, u, node, h))
    && (forall h, k :: h in u && h !in t && k in t ==> k < h)
  }

  lemma GrownTransitive(p: Primitives, t: Table, u: Table, v: Table, node: Anchor)
    requires Grown(p, t, u, node) && Grown(p, u, v, node)
    ensures Grown(p, t, v, node)
  {
    forall h | h in v && h !in t ensures Genuine(p, v, node, h) {
      if h in u {
        assert Genuine(p, u, node, h);
      } else {
        assert Genuine(p, v, node, h);
      }
    }
  }

  lemma LandedRows(p: Primitives, t: Table, batch: seq<CompactBlock>, u: Table)
    requires p.Lawful() && batch != [] && Consecutive(batch) && u == Extended(p, t, batch)
    requires t.Keys != {} ==> batch[0].height == Highest(t.Keys) + 1
    ensures forall h: nat :: h in u <==> h in t || batch[0].height <= h < batch[0].height + |batch|
    ensures forall h :: h in t ==> h < batch[0].height && u[h] == t[h]
    ensures forall i :: 0 <= i < |batch| ==> p.decode(u[batch[0].height + i]) == Some(batch[i])
  {
    ExtendedRows(p, t, batch);
  }

  lemma LandedBlock(p: Primitives, t: Table, batch: seq<CompactBlock>, node: Anchor, u: Table, i: nat)
    requires p.Lawful() && Lands(p, t, batch, node, u) && i < |batch|
    ensures Genuine(p, u, node, batch[0].height + i)
  {
    var h := batch[0].height + i;
    JoinedIsConsecutive(batch, batch[0].height);
    LandedRows(p, t, batch, u);
    assert HashesIn(batch)[i] == batch[i].hash;
    assert p.decode(u[h]) == Some(batch[i]);
    if i > 0 {
      assert JoinsAt(batch, i) && p.decode(u[batch[0].height + (i - 1)]) == Some(batch[i - 1]);
    }
  }

  lemma LandingGrows(p: Primitives, t: Table, batch: seq<CompactBlock>, node: Anchor, u: Table)
    requires p.Lawful() && Lands(p, t, batch, node, u)
    ensures Grown(p, t, u, node)
  {
    JoinedIsConsecutive(batch, batch[0].height);
    LandedRows(p, t, batch, u);
    forall h | h in u && h !in t ensures Genuine(p, u, node, h) {
      LandedBlock(p, t, batch, node, u, h - batch[0].height);
    }
  }

  lemma LandingKeepsChain(p: Primitives, t: Table, batch: seq<CompactBlock>, node: Anchor, u: Table)
    requires p.Lawful() && Lands(p, t, batch, node, u) && IsChain(p, t)
    ensures IsChain(p, u)
  {
    JoinedIsConsecutive(batch, batch[0].height);
    ExtendedKeepsChain(p, t, batch);
  }

  lemma CommitIsAnchored(p: Primitives, s: Store, next: Store, entry: EpochEntry, chain: Bytes, node: Anchor, peer: Peer)
    requires p.Lawful() && IsChain(p, s.blocks)
    requires ImportEntry(p, s, entry, chain, node, peer) == Committed(next)
    ensures IsChain(p, next.blocks) && Grown(p, s.blocks, next.blocks, node)
  {
    var batch := CommitLands(p, s, entry, chain, node, peer);
    LandingGrows(p, s.blocks, batch, node, next.blocks);
    LandingKeepsChain(p, s.blocks, batch, node, next.blocks);
  }

  /** However an import ends, the cache is still one chain, nothing it held has changed, and every block it
      gained is anchored to the node and joined across every seam. */
  lemma {:induction false} ImportIsAnchored(p: Primitives, s: Store, entries: seq<EpochEntry>, chain: Bytes, node: Anchor, peer: Peer)
    requires p.Lawful() && IsChain(p, s.blocks)
    ensures var after := ImportFrom(p, s, entries, chain, node, peer).0;
            IsChain(p, after.blocks) && Grown(p, s.blocks, after.blocks, node)
    decreases |entries|
  {
    if entries != [] {
      match ImportEntry(p, s, entries[0], chain, node, peer)
      case Skipped => ImportIsAnchored(p, s, entries[1..], chain, node, peer);
      case Committed(next) =>
        CommitIsAnchored(p, s, next, entries[0], chain, node, peer);
        ImportIsAnchored(p, next, entries[1..], chain, node, peer);
        var after := ImportFrom(p, next, entries[1..], chain, node, peer).0;
        GrownTransitive(p, s.blocks, next.blocks, after.blocks, node);
      case _ =>
    }
  }

  // ---- Everything added was vetted ----

  /** `body` is what the manifest says of `entry`: its length and digest, the chain, bounds and count in its header,
      and the digest over the hashes of its blocks. */
  ghost predicate MatchesEntry(p: Primitives, entry: EpochEntry, chain: Bytes, body: Bytes) {
    && |body| == entry.bytes && |body| <= MAX_EPOCH_BYTES
    && HexEncode(p.sha256(body)) == entry.contentDigest
    && ParseEpoch(body).Ok? && entry.start <= entry.end
    && var (header, records) := ParseEpoch(body).value;
       && header.chain == chain && header.start == entry.start && header.count == entry.end - entry.start + 1
       && |records| == header.count && DecodeAll(p, records).Some?
       && HexEncode(p.sha256(AnchorInput(entry.start, HashesIn(DecodeAll(p, records).value)))) == entry.anchor
  }

  /** The row at `h` is the block `body` has for it. */
  ghost predicate Carries(p: Primitives, entry: EpochEntry, body: Bytes, t: Table, h: nat) {
    && ParseEpoch(body).Ok? && entry.start <= h && h - entry.start < |ParseEpoch(body).value.1|
    && var block := p.decode(ParseEpoch(body).value.1[h - entry.start]);
       block.Some? && h in t && t[h] == p.encode(block.value)
  }

  /** The peer's body for `entry` matches it, and has the row at `h`. */
  ghost predicate BackedBy(p: Primitives, entry: EpochEntry, chain: Bytes, peer: Peer, t: Table, h: nat) {
    && peer(entry.index).Some? && MatchesEntry(p, entry, chain, peer(entry.index).value)
    && Carries(p, entry, peer(entry.index).value, t, h)
  }

  ghost predicate Backed(p: Primitives, entries: seq<EpochEntry>, chain: Bytes, peer: Peer, t: Table, h: nat) {
    exists i: nat {:trigger BackedAt(p, entries, chain, peer, t, h, i)} :: BackedAt(p, entries, chain, peer, t, h, i)
  }

  ghost predicate BackedAt(p: Primitives, entries: seq<EpochEntry>, chain: Bytes, peer: Peer, t: Table, h: nat, i: nat) {
    i < |entries| && BackedBy(p, entries[i], chain, peer, t, h)
  }

  lemma RecordsMatchEntry(p: Primitives, entry: EpochEntry, chain: Bytes, node: Anchor, peer: Peer)
    requires entry.start <= entry.end && EpochRecords(p, entry, chain, node, peer).Some?
    ensures peer(entry.index).Some? && MatchesEntry(p, entry, chain, peer(entry.index).value)
    ensures ParseEpoch(peer(entry.index).value).value.1 == EpochRecords(p, entry, chain, node, peer).value
  {
    RecordCount(peer(entry.index).value);
  }

  lemma RowIsCarried(p: Primitives, entry: EpochEntry, body: Bytes, t: Table, u: Table, first: nat, batch: seq<CompactBlock>, h: nat)
    requires ParseEpoch(body).Ok? && DecodeAll(p, ParseEpoch(body).value.1).Some?
    requires entry.start <= first <= h < entry.start + |ParseEpoch(body).value.1|
    requires batch == DecodeAll(p, ParseEpoch(body).value.1).value[first - entry.start..]
    requires Adds(p, t, first, batch, u)
    ensures Carries(p, entry, body, u, h)
  {
    var records := ParseEpoch(body).value.1;
    assert p.decode(records[h - entry.start]) == Some(batch[h - first]);
  }

  /** A commit lands what the peer's body has from the next height on, and only after that body has passed every
      comparison with its manifest entry. */
  lemma CommitIsBacked(p: Primitives, s: Store, next: Store, entry: EpochEntry, chain: Bytes, node: Anchor, peer: Peer)
    requires ImportEntry(p, s, entry, chain, node, peer) == Committed(next)
    ensures forall h: nat :: h in next.blocks && h !in s.blocks ==> BackedBy(p, entry, chain, peer, next.blocks, h)
    ensures forall h: nat :: NextFor(s.blocks, entry) <= h <= entry.end ==> BackedBy(p, entry, chain, peer, next.blocks, h)
  {
    var first, records := NextFor(s.blocks, entry), EpochRecords(p, entry, chain, node, peer).value;
    RecordsMatchEntry(p, entry, chain, node, peer);
    var batch := DecodeAll(p, records).value[first - entry.start..];
    assert batch != [] && next.blocks == Extended(p, s.blocks, batch) by {
      EpochRecordsVerified(p, entry, chain, node, peer);
      LandAppends(p, s, entry, first, records, batch, next);
    }
    assert Adds(p, s.blocks, first, batch, next.blocks) by {
      EpochRecordsVerified(p, entry, chain, node, peer);
      VerifiedTail(p, records, entry, node, first, batch);
      ExtendedRows(p, s.blocks, batch);
    }
    BatchIsBacked(p, s.blocks, next.blocks, entry, chain, peer, peer(entry.index).value, first, batch);
  }

  lemma VerifiedTail(p: Primitives, records: seq<Bytes>, entry: EpochEntry, node: Anchor, first: nat, batch: seq<CompactBlock>)
    requires RecordsVerified(p, records, entry, node) && entry.start <= first < entry.start + |records|
    requires batch == DecodeAll(p, records).value[first - entry.start..]
    ensures Consecutive(batch) && batch[0].height == first
  {
    TailJoined(DecodeAll(p, records).value, entry.start, node, batch, first);
    JoinedIsConsecutive(batch, first);
  }

  lemma BatchIsBacked(p: Primitives, t: Table, u: Table, entry: EpochEntry, chain: Bytes, peer: Peer, body: Bytes,
                      first: nat, batch: seq<CompactBlock>)
    requires peer(entry.index) == Some(body) && MatchesEntry(p, entry, chain, body) && entry.start <= first <= entry.end
    requires batch == DecodeAll(p, ParseEpoch(body).value.1).value[first - entry.start..]
    requires Adds(p, t, first, batch, u)
    ensures forall h: nat :: h in u && h !in t ==> BackedBy(p, entry, chain, peer, u, h)
    ensures forall h: nat :: first <= h <= entry.end ==> BackedBy(p, entry, chain, peer, u, h)
  {
    assert |batch| == entry.end - first + 1;
    forall h: nat | first <= h <= entry.end ensures BackedBy(p, entry, chain, peer, u, h) {
      RowIsCarried(p, entry, body, t, u, first, batch, h);
    }
  }

  lemma BackedStays(p: Primitives, entries: seq<EpochEntry>, chain: Bytes, peer: Peer, t: Table, u: Table, h: nat)
    requires Backed(p, entries, chain, peer, t, h) && (h in t ==> h in u && u[h] == t[h])
    ensures Backed(p, entries, chain, peer, u, h)
  {
    var i: nat :| BackedAt(p, entries, chain, peer, t, h, i);
    assert BackedAt(p, entries, chain, peer, u, h, i);
  }

  lemma BackedInTail(p: Primitives, entries: seq<EpochEntry>, chain: Bytes, peer: Peer, t: Table, h: nat)
    requires entries != [] && (Backed(p, entries[1..], chain, peer, t, h) || BackedBy(p, entries[0], chain, peer, t, h))
    ensures Backed(p, entries, chain, peer, t, h)
  {
    if BackedBy(p, entries[0], chain, peer, t, h) {
      assert BackedAt(p, entries, chain, peer, t, h, 0);
    } else {
      var i: nat :| BackedAt(p, entries[1..], chain, peer, t, h, i);
      assert BackedAt(p, entries, chain, peer, t, h, i + 1);
    }
  }

  /** However an import ends, every block it added is in a body of the peer's that matches its manifest entry in
      length, digest, header and anchor, and is stored as that body has it. */
  lemma {:induction false} ImportIsBacked(p: Primitives, s: Store, entries: seq<EpochEntry>, chain: Bytes, node: Anchor, peer: Peer)
    requires p.Lawful() && IsChain(p, s.blocks)
    ensures var after := ImportFrom(p, s, entries, chain, node, peer).0;
            forall h: nat :: h in after.blocks && h !in s.blocks ==> Backed(p, entries, chain, peer, after.blocks, h)
    decreases |entries|
  {
    if entries != [] {
      match ImportEntry(p, s, entries[0], chain, node, peer)
      case Skipped =>
        ImportIsBacked(p, s, entries[1..], chain, node, peer);
        TailBacks(p, s.blocks, ImportFrom(p, s, entries[1..], chain, node, peer).0.blocks, entries, chain, peer);
      case Committed(next) =>
        CommitIsAnchored(p, s, next, entries[0], chain, node, peer);
        CommitIsBacked(p, s, next, entries[0], chain, node, peer);
        ImportIsBacked(p, next, entries[1..], chain, node, peer);
        ImportIsAnchored(p, next, entries[1..], chain, node, peer);
        var after := ImportFrom(p, next, entries[1..], chain, node, peer).0;
        CommittedBacks(p, s.blocks, next.blocks, after.blocks, entries, chain, peer);
      case _ =>
    }
  }

  lemma TailBacks(p: Primitives, t: Table, v: Table, entries: seq<EpochEntry>, chain: Bytes, peer: Peer)
    requires entries != [] && forall h: nat :: h in v && h !in t ==> Backed(p, entries[1..], chain, peer, v, h)
    ensures forall h: nat :: h in v && h !in t ==> Backed(p, entries, chain, peer, v, h)
  {
    forall h: nat | h in v && h !in t ensures Backed(p, entries, chain, peer, v, h) {
      BackedInTail(p, entries, chain, peer, v, h);
    }
  }

  lemma CommittedBacks(p: Primitives, t: Table, u: Table, v: Table, entries: seq<EpochEntry>, chain: Bytes, peer: Peer)
    requires entries != [] && forall h :: h in u ==> h in v && v[h] == u[h]
    requires forall h: nat :: h in u && h !in t ==> BackedBy(p, entries[0], chain, peer, u, h)
    requires forall h: nat :: h in v && h !in u ==> Backed(p, entries[1..], chain, peer, v, h)
    ensures forall h: nat :: h in v && h !in t ==> Backed(p, entries, chain, peer, v, h)
  {
    forall h: nat | h in v && h !in t ensures Backed(p, entries, chain, peer, v, h) {
      if h in u {
        BackedInTail(p, entries, chain, peer, u, h);
        BackedStays(p, entries, chain, peer, u, v, h);
      } else {
        BackedInTail(p, entries, chain, peer, v, h);
      }
    }
  }

  /** And the node gave the hash of every one of them, in display order. */
  lemma ImportedHashIsTheNodes(p: Primitives, s: Store, entries: seq<EpochEntry>, chain: Bytes, node: Anchor, peer: Peer, h: nat)
    requires p.Lawful() && IsChain(p, s.blocks)
    requires var after := ImportFrom(p, s, entries, chain, node, peer).0; h in after.blocks && h !in s.blocks
    ensures var after := ImportFrom(p, s, entries, chain, node, peer).0;
            && p.decode(after.blocks[h]).Some? && node.hashAt(h).Some?
            && DisplayHexToWire(node.hashAt(h).value) == Some(BlockAt(p, after.blocks, h).hash)
  {
    ImportIsAnchored(p, s, entries, chain, node, peer);
    assert Genuine(p, ImportFrom(p, s, entries, chain, node, peer).0.blocks, node, h);
  }

  // ---- Tree sizes telescope ----

  /** The block at `h` is cached and states its tree sizes. */
  predicate Sized(p: Primitives, t: Table, h: nat) {
    h in t && p.decode(t[h]).Some? && BlockAt(p, t, h).metadata.Some?
  }

  function SizesAt(p: Primitives, t: Table, h: nat): ChainMetadata {
    if Sized(p, t, h) then BlockAt(p, t, h).metadata.value else ChainMetadata(0, 0, 0)
  }

  function CarriedAt(p: Primitives, t: Table, h: nat): ChainMetadata {
    if Sized(p, t, h) then Carried(BlockAt(p, t, h)) else ChainMetadata(0, 0, 0)
  }

  /** The commitments carried by the blocks above `lo` up to `hi`. */
  function CarriedBetween(p: Primitives, t: Table, lo: nat, hi: nat): ChainMetadata {
    SumOver((h: nat) => CarriedAt(p, t, h), lo, hi)
  }

  function SumOver(carried: nat -> ChainMetadata, lo: nat, hi: nat): ChainMetadata
    decreases hi
  {
    if hi <= lo then ChainMetadata(0, 0, 0) else Plus(SumOver(carried, lo, hi - 1), carried(hi))
  }

  /** Growth from each height to the next adds up. */
  lemma {:induction false} Telescope(sizes: nat -> ChainMetadata, carried: nat -> ChainMetadata, lo: nat, hi: nat)
    requires lo <= hi
    requires forall h: nat {:trigger carried(h)} :: lo < h <= hi ==> sizes(h) == Plus(sizes(h - 1), carried(h))
    ensures sizes(hi) == Plus(sizes(lo), SumOver(carried, lo, hi))
    decreases hi
  {
    if lo < hi {
      Telescope(sizes, carried, lo, hi - 1);
      assert SumOver(carried, lo, hi) == Plus(SumOver(carried, lo, hi - 1), carried(hi));
      PlusAssociates(sizes(lo), SumOver(carried, lo, hi - 1), carried(hi));
    }
  }

  ghost predicate JoinsBelow(p: Primitives, t: Table, h: nat) {
    && h > 0 && h in t && h - 1 in t && p.decode(t[h]).Some? && p.decode(t[h - 1]).Some?
    && Joins(BlockAt(p, t, h - 1), BlockAt(p, t, h))
  }

  /** Every block above `lo` up to `hi` joins the one below it. */
  ghost predicate JoinedUp(p: Primitives, t: Table, lo: nat, hi: nat) {
    forall h: nat {:trigger JoinsBelow(p, t, h)} :: lo < h <= hi ==> JoinsBelow(p, t, h)
  }

  /** From `h - 1` to `h` the trees grow by what `h` carries. */
  ghost predicate GrowsAt(p: Primitives, t: Table, h: nat) {
    && h > 0 && Sized(p, t, h - 1) && Sized(p, t, h)
    && SizesAt(p, t, h) == Plus(SizesAt(p, t, h - 1), CarriedAt(p, t, h))
  }

  ghost predicate GrowsUp(p: Primitives, t: Table, lo: nat, hi: nat) {
    forall h: nat {:trigger GrowsAt(p, t, h)} :: lo < h <= hi ==> GrowsAt(p, t, h)
  }

  lemma JoinedGrows(p: Primitives, t: Table, lo: nat, hi: nat)
    requires JoinedUp(p, t, lo, hi)
    ensures GrowsUp(p, t, lo, hi)
  {
    forall h: nat | lo < h <= hi ensures GrowsAt(p, t, h) {
      assert JoinsBelow(p, t, h);
      JoinsAdds(BlockAt(p, t, h - 1), BlockAt(p, t, h));
    }
  }

  /** Block by block growth adds up: each pool's tree grows, over any stretch, by what the stretch carries. */
  lemma TreesTelescope(p: Primitives, t: Table, lo: nat, hi: nat)
    requires lo <= hi && GrowsUp(p, t, lo, hi)
    ensures SizesAt(p, t, hi) == Plus(SizesAt(p, t, lo), CarriedBetween(p, t, lo, hi))
  {
    var sizes, carried := (h: nat) => SizesAt(p, t, h), (h: nat) => CarriedAt(p, t, h);
    forall h: nat | lo < h <= hi ensures sizes(h) == Plus(sizes(h - 1), carried(h)) {
      assert GrowsAt(p, t, h);
    }
    Telescope(sizes, carried, lo, hi);
  }

  lemma JoinsAdds(earlier: CompactBlock, later: CompactBlock)
    requires Joins(earlier, later)
    ensures earlier.metadata.Some? && later.metadata == Some(Plus(earlier.metadata.value, Carried(later)))
  {
  }

  lemma PlusAssociates(a: ChainMetadata, b: ChainMetadata, c: ChainMetadata)
    ensures Plus(Plus(a, b), c) == Plus(a, Plus(b, c)) && Plus(a, ChainMetadata(0, 0, 0)) == a
  {
  }

  /** Over everything an import added, from the old tip (or, into an empty cache, from the first block) to
      the new one, each pool's tree size grew by exactly the outputs or actions carried. */
  lemma ImportTelescopes(p: Primitives, s: Store, entries: seq<EpochEntry>, chain: Bytes, node: Anchor, peer: Peer)
    requires p.Lawful() && IsChain(p, s.blocks)
    ensures Telescopes(p, s.blocks, ImportFrom(p, s, entries, chain, node, peer).0.blocks)
  {
    ImportIsAnchored(p, s, entries, chain, node, peer);
    GrownTelescopes(p, s.blocks, ImportFrom(p, s, entries, chain, node, peer).0.blocks, node);
  }

  /** From the tip of `before` (or, when that is empty, from the first block) to the tip of `t`, each pool's
      tree grew by exactly what the blocks in between carry. */
  ghost predicate Telescopes(p: Primitives, before: Table, t: Table) {
    t.Keys != {} ==>
      var from, to := if before.Keys == {} then Lowest(t.Keys) else Highest(before.Keys), Highest(t.Keys);
      && from in t && from <= to
      && (from < to ==>
            && (forall h: nat :: from <= h <= to ==> Sized(p, t, h))
            && SizesAt(p, t, to) == Plus(SizesAt(p, t, from), CarriedBetween(p, t, from, to)))
  }

  lemma GrownTelescopes(p: Primitives, before: Table, t: Table, node: Anchor)
    requires IsChain(p, before) && IsChain(p, t) && Grown(p, before, t, node)
    ensures Telescopes(p, before, t)
  {
    if t.Keys == {} {
      return;
    }
    var from, to := if before.Keys == {} then Lowest(t.Keys) else Highest(before.Keys), Highest(t.Keys);
    assert from in t && from <= to;
    if from < to {
      forall h: nat | from < h <= to ensures JoinsBelow(p, t, h) {
        assert h !in before && h in t && h - 1 in t;
        assert Genuine(p, t, node, h);
      }
      JoinedGrows(p, t, from, to);
      forall h: nat | from <= h <= to ensures Sized(p, t, h) {
        assert GrowsAt(p, t, if h == from then h + 1 else h);
      }
      TreesTelescope(p, t, from, to);
    }
  }

  // ---- Resuming ----

  /** Every one of `entries` is already held. */
  ghost predicate AllHeld(t: Table, entries: seq<EpochEntry>) {
    entries != [] ==>
      t.Keys != {} && forall i :: 0 <= i < |entries| ==> entries[i].end <= Highest(t.Keys)
  }

  /** What resuming needs to know of a turn: an entry already held is skipped, and a turn after which the loop
      goes on leaves a cache that reaches the end of its entry. */
  ghost predicate AdvancesAt(s: Store, entry: EpochEntry, verdict: Verdict) {
    && (s.blocks.Keys != {} && entry.end <= Highest(s.blocks.Keys) ==> verdict.Skipped?)
    && (entry.start <= entry.end ==>
          match verdict
          case Skipped => s.blocks.Keys != {} && entry.end <= Highest(s.blocks.Keys)
          case Committed(after) =>
            && after.blocks.Keys != {} && Highest(after.blocks.Keys) == entry.end
            && (s.blocks.Keys != {} ==> Highest(s.blocks.Keys) < entry.end)
          case _ => true)
  }

  ghost predicate Advances(judge: Judge) {
    forall s: Store, entry: EpochEntry {:trigger judge(s, entry)} :: AdvancesAt(s, entry, judge(s, entry))
  }

  lemma EntryAdvances(p: Primitives, s: Store, entry: EpochEntry, chain: Bytes, node: Anchor, peer: Peer)
    ensures AdvancesAt(s, entry, ImportEntry(p, s, entry, chain, node, peer))
  {
    if ImportEntry(p, s, entry, chain, node, peer).Committed? {
      CommitReachesEnd(p, s, entry, chain, node, peer);
    }
  }

  lemma JudgingAdvances(p: Primitives, chain: Bytes, node: Anchor, peer: Peer)
    ensures Advances(Judging(p, chain, node, peer))
  {
    var judge := Judging(p, chain, node, peer);
    forall s: Store, entry: EpochEntry ensures AdvancesAt(s, entry, judge(s, entry)) {
      EntryAdvances(p, s, entry, chain, node, peer);
    }
  }

  lemma {:induction false} HeldAreSkipped(judge: Judge, s: Store, held: seq<EpochEntry>, rest: seq<EpochEntry>)
    requires Advances(judge) && AllHeld(s.blocks, held)
    ensures Fold(judge, s, held + rest) == Fold(judge, s, rest)
    decreases |held|
  {
    if held == [] {
      assert held + rest == rest;
    } else {
      assert (held + rest)[1..] == held[1..] + rest;
      assert judge(s, held[0]).Skipped?;
      HeldAreSkipped(judge, s, held[1..], rest);
    }
  }

  lemma TurnHolds(s: Store, held: seq<EpochEntry>, entry: EpochEntry, verdict: Verdict)
    requires entry.start <= entry.end && AllHeld(s.blocks, held) && AdvancesAt(s, entry, verdict)
    ensures match verdict
            case Skipped => AllHeld(s.blocks, held + [entry])
            case Committed(after) => AllHeld(after.blocks, held + [entry])
            case _ => true
  {
  }

  lemma {:induction false} FoldSnoc(judge: Judge, s: Store, entries: seq<EpochEntry>, entry: EpochEntry)
    ensures var (mid, progress) := Fold(judge, s, entries);
            Fold(judge, s, entries + [entry]) == if progress.Halted? then (mid, progress) else Turn(mid, judge(mid, entry))
    decreases |entries|
  {
    if entries == [] {
      assert entries + [entry] == [entry] && [entry][1..] == [];
    } else {
      assert (entries + [entry])[1..] == entries[1..] + [entry];
      FoldSnoc(judge, Turn(s, judge(s, entries[0])).0, entries[1..], entry);
    }
  }

  lemma {:induction false} PrefixHeld(judge: Judge, s: Store, entries: seq<EpochEntry>)
    requires Advances(judge) && Ordered(entries)
    ensures Fold(judge, s, entries).1.Running? ==> AllHeld(Fold(judge, s, entries).0.blocks, entries)
    decreases |entries|
  {
    if entries != [] {
      var n := |entries| - 1;
      var front, entry := entries[..n], entries[n];
      assert front + [entry] == entries;
      PrefixHeld(judge, s, front);
      FoldSnoc(judge, s, front, entry);
      var (mid, progress) := Fold(judge, s, front);
      if progress.Running? {
        TurnHolds(mid, front, entry, judge(mid, entry));
      }
    }
  }

  /** One more committed epoch does not change where a rerun ends. */
  lemma ResumeOneMore(judge: Judge, s: Store, after: Store, held: seq<EpochEntry>, entry: EpochEntry, rest: seq<EpochEntry>)
    requires Advances(judge) && entry.start <= entry.end && AllHeld(s.blocks, held) && judge(s, entry) == Committed(after)
    ensures Fold(judge, after, held + [entry] + rest) == Fold(judge, s, held + [entry] + rest)
  {
    var tail := [entry] + rest;
    assert held + [entry] + rest == held + tail && tail[1..] == rest;
    HeldAreSkipped(judge, s, held, tail);
    TurnHolds(s, held, entry, judge(s, entry));
    HeldAreSkipped(judge, after, held + [entry], rest);
  }

  lemma {:induction false} FoldResumes(judge: Judge, s: Store, done: seq<EpochEntry>, rest: seq<EpochEntry>)
    requires Advances(judge) && Ordered(done)
    ensures Fold(judge, Fold(judge, s, done).0, done + rest) == Fold(judge, s, done + rest)
    decreases |done|
  {
    if done == [] {
      assert done + rest == rest;
    } else {
      var n := |done| - 1;
      var front, entry := done[..n], done[n];
      assert front + [entry] == done && done + rest == front + ([entry] + rest);
      FoldResumes(judge, s, front, [entry] + rest);
      FoldSnoc(judge, s, front, entry);
      PrefixHeld(judge, s, front);
      var (mid, progress) := Fold(judge, s, front);
      if progress.Running? && judge(mid, entry).Committed? {
        ResumeOneMore(judge, mid, judge(mid, entry).store, front, entry, rest);
      }
    }
  }

  /** Cut an import short after any number of epochs and run it again: blocks, recorded base and result are
      those of the uninterrupted run. */
  lemma ImportResumes(p: Primitives, s: Store, entries: seq<EpochEntry>, k: nat, chain: Bytes, node: Anchor, peer: Peer)
    requires Ordered(entries) && k <= |entries|
    ensures var interrupted := ImportFrom(p, s, entries[..k], chain, node, peer).0;
            ImportFrom(p, interrupted, entries, chain, node, peer) == ImportFrom(p, s, entries, chain, node, peer)
  {
    JudgingAdvances(p, chain, node, peer);
    assert entries[..k] + entries[k..] == entries;
    FoldResumes(Judging(p, chain, node, peer), s, entries[..k], entries[k..]);
  }

  // ---- No gap into an empty cache ----

  /** Entry `i` starts no higher than right above what is held. */
  lemma NoGapAt(m: Manifest, chain: Bytes, t: Table, i: nat)
    requires Accepts(m, chain) && i < |m.epochs|
    requires if i == 0 then t.Keys == {} else t.Keys != {} && m.epochs[i - 1].end <= Highest(t.Keys)
    ensures m.epochs[i].start <= NextFor(t, m.epochs[i])
  {
    assert EntryOk(m, i);
    if i > 0 {
      assert EntryOk(m, i - 1);
    }
  }

  ghost predicate GapsAreReal(judge: Judge) {
    forall s: Store, entry: EpochEntry {:trigger judge(s, entry)} ::
      entry.start <= NextFor(s.blocks, entry) ==> judge(s, entry) != Failed(Gap)
  }

  lemma JudgingGaps(p: Primitives, chain: Bytes, node: Anchor, peer: Peer)
    ensures GapsAreReal(Judging(p, chain, node, peer))
  {
    var judge := Judging(p, chain, node, peer);
    forall s: Store, entry: EpochEntry | entry.start <= NextFor(s.blocks, entry) ensures judge(s, entry) != Failed(Gap) {
      NotGap(p, s, entry, chain, node, peer);
    }
  }

  lemma NotGap(p: Primitives, s: Store, entry: EpochEntry, chain: Bytes, node: Anchor, peer: Peer)
    requires entry.start <= NextFor(s.blocks, entry)
    ensures ImportEntry(p, s, entry, chain, node, peer) != Failed(Gap)
  {
  }

  lemma {:induction false} NoGapFrom(judge: Judge, s: Store, m: Manifest, chain: Bytes, i: nat, rest: seq<EpochEntry>)
    requires Advances(judge) && GapsAreReal(judge)
    requires Accepts(m, chain) && i <= |m.epochs| && rest == m.epochs[i..]
    requires if i == 0 then s.blocks.Keys == {} else s.blocks.Keys != {} && m.epochs[i - 1].end <= Highest(s.blocks.Keys)
    ensures Fold(judge, s, rest).1 != Halted(Err(Gap))
    decreases |rest|
  {
    if rest != [] {
      var entry := rest[0];
      assert entry == m.epochs[i] && rest[1..] == m.epochs[i + 1..];
      assert EntryOk(m, i);
      NoGapAt(m, chain, s.blocks, i);
      var (after, progress) := Turn(s, judge(s, entry));
      if progress.Running? {
        NoGapFrom(judge, after, m, chain, i + 1, rest[1..]);
      }
    }
  }

  /** An empty cache and an accepted manifest never meet the gap error. */
  lemma EmptyCacheHasNoGap(p: Primitives, s: Store, m: Manifest, node: Anchor, peer: Peer)
    requires s.blocks.Keys == {} && Accepts(m, node.chain)
    ensures ImportFrom(p, s, m.epochs, m.chain, node, peer).1 != Halted(Err(Gap))
  {
    var judge := Judging(p, m.chain, node, peer);
    JudgingAdvances(p, m.chain, node, peer);
    JudgingGaps(p, m.chain, node, peer);
    assert m.epochs[0..] == m.epochs;
    NoGapFrom(judge, s, m, node.chain, 0, m.epochs);
  }
}
