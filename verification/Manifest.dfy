/** The manifest: what a publisher advertises, how an importer vets it, and why every published manifest
    passes. */
module Manifests {
  import opened Base
  import opened Encoding
  import opened Blocks
  import opened Format
  import opened BlockStore
  import opened BlockCache
  import opened Export
  import opened Publisher

  datatype EpochEntry = EpochEntry(index: nat, start: nat, end: nat, bytes: nat, contentDigest: string, anchor: string)

  datatype Manifest = Manifest(
    formatVersion: nat, chain: Bytes, epochSize: nat, baseHeight: nat, tipHeight: nat, epochs: seq<EpochEntry>)

  datatype ManifestError = UnsupportedVersion | EpochSizeMismatch | ChainMismatch | MalformedManifest

  function EntryOf(d: EpochDigest, index: nat): EpochEntry {
    EpochEntry(index, d.start, d.end, d.bytes, HexEncode(d.content), HexEncode(d.anchor))
  }

  // ---- Vetting ----

  /** What `entry` must look like after `previous`, or first. */
  predicate EntryOk(m: Manifest, i: nat)
    requires i < |m.epochs|
  {
    var entry := m.epochs[i];
    && entry.start <= entry.end && entry.end == EpochLast(entry.index)
    && (if i == 0 then entry.start >= EpochFirst(entry.index) && m.baseHeight == entry.start
        else entry.index == m.epochs[i - 1].index + 1 && entry.start == EpochFirst(entry.index))
  }

  predicate Accepts(m: Manifest, chain: Bytes) {
    && m.formatVersion == FORMAT_VERSION && m.epochSize == EPOCH_SIZE && m.chain == chain
    && forall i :: 0 <= i < |m.epochs| ==> EntryOk(m, i)
  }

  /** `validate_manifest`. */
  method ValidateManifest(m: Manifest, chain: Bytes) returns (r: Result<(), ManifestError>)
    ensures r.Ok? <==> Accepts(m, chain)
  {
    if m.formatVersion != FORMAT_VERSION {
      return Err(UnsupportedVersion);
    }
    if m.epochSize != EPOCH_SIZE {
      return Err(EpochSizeMismatch);
    }
    if m.chain != chain {
      return Err(ChainMismatch);
    }
    var previous: Option<EpochEntry> := None;
    for i := 0 to |m.epochs|
      invariant forall k :: 0 <= k < i ==> EntryOk(m, k)
      invariant previous == if i == 0 then None else Some(m.epochs[i - 1])
    {
      var entry := m.epochs[i];
      if entry.start > entry.end || entry.end != EpochLast(entry.index) {
        assert !EntryOk(m, i);
        return Err(MalformedManifest);
      }
      match previous {
        case None =>
          if entry.start < EpochFirst(entry.index) || m.baseHeight != entry.start {
            assert !EntryOk(m, i);
            return Err(MalformedManifest);
          }
        case Some(before) =>
          if entry.index != before.index + 1 || entry.start != EpochFirst(entry.index) {
            assert !EntryOk(m, i);
            return Err(MalformedManifest);
          }
      }
      previous := Some(entry);
    }
    r := Ok(());
  }

  // ---- Publishing ----

  ghost predicate HasEntry(epochs: seq<EpochEntry>, index: nat) {
    exists i :: 0 <= i < |epochs| && epochs[i].index == index
  }

  /** `entry` restates the digest row of its epoch. */
  ghost predicate Restates(digests: map<nat, Bytes>, entry: EpochEntry) {
    && entry.index in digests && DecodeDigest(digests[entry.index]).Some?
    && entry == EntryOf(DecodeDigest(digests[entry.index]).value, entry.index)
  }

  /** One entry for each row, ascending. */
  ghost predicate EntriesOf(epochs: seq<EpochEntry>, digests: map<nat, Bytes>) {
    && (forall i, j :: 0 <= i < j < |epochs| ==> epochs[i].index < epochs[j].index)
    && (forall i {:trigger Restates(digests, epochs[i])} :: 0 <= i < |epochs| ==> Restates(digests, epochs[i]))
    && (forall k {:trigger HasEntry(epochs, k)} :: k in digests ==> HasEntry(epochs, k))
  }

  /** `m` is what a publisher sends that read its range off `t` and its rows in state `s`. */
  ghost predicate IsManifestOver(m: Manifest, t: Table, s: Store, chain: Bytes) {
    && m.formatVersion == FORMAT_VERSION && m.epochSize == EPOCH_SIZE && m.chain == chain
    && m.baseHeight == (if t.Keys == {} then 0 else Lowest(t.Keys))
    && m.tipHeight == (if t.Keys == {} then 0 else Highest(t.Keys))
    && EntriesOf(m.epochs, s.digests)
  }

  /** `m` is what a publisher in state `s` sends. */
  ghost predicate IsManifest(m: Manifest, s: Store, chain: Bytes) {
    IsManifestOver(m, s.blocks, s, chain)
  }

  lemma RowsToEntries(rows: seq<(nat, Bytes)>, digests: map<nat, Bytes>, epochs: seq<EpochEntry>)
    requires Ascending(rows) && Lists(rows, digests) && |epochs| == |rows|
    requires forall i :: 0 <= i < |rows| ==>
               DecodeDigest(rows[i].1).Some? && epochs[i] == EntryOf(DecodeDigest(rows[i].1).value, rows[i].0)
    ensures EntriesOf(epochs, digests)
  {
    forall i | 0 <= i < |epochs| ensures Restates(digests, epochs[i]) {
      assert rows[i].0 in digests;
    }
    forall k | k in digests ensures HasEntry(epochs, k) {
      assert Listed(rows, k);
      var i :| 0 <= i < |rows| && rows[i].0 == k;
      assert epochs[i].index == k;
    }
  }

  /** `manifest`, with `arriving` appended between its two reads: fails only on a row that does not decode. */
  method BuildManifest(cache: Cache, chain: Bytes, arriving: seq<CompactBlock>) returns (r: Result<Manifest, SnapshotError>)
    requires cache.Valid()
    modifies cache
    ensures cache.Valid() && cache.View() == Arrive(cache.p, old(cache.View()), arriving)
    ensures r.Ok? ==> IsManifestOver(r.value, old(cache.blocks), cache.View(), chain)
    ensures r.Err? ==> exists i :: i in cache.View().digests && DecodeDigest(cache.View().digests[i]).None?
  {
    var range := Range(cache.blocks);
    var (base, tip) := if range.Some? then range.value else (0, 0);
    Ingest(cache, arriving);
    var rows := cache.EpochDigests();
    var epochs: seq<EpochEntry> := [];
    for i := 0 to |rows|
      invariant |epochs| == i
      invariant forall k :: 0 <= k < i ==>
                  DecodeDigest(rows[k].1).Some? && epochs[k] == EntryOf(DecodeDigest(rows[k].1).value, rows[k].0)
    {
      var digest := DecodeDigest(rows[i].1);
      if digest.None? {
        assert rows[i].0 in cache.View().digests;
        return Err(MalformedDigest);
      }
      epochs := epochs + [EntryOf(digest.value, rows[i].0)];
    }
    RowsToEntries(rows, cache.View().digests, epochs);
    r := Ok(Manifest(FORMAT_VERSION, chain, EPOCH_SIZE, base, tip, epochs));
  }

  /** A gap-free run listed in ascending order counts up from its first index. */
  lemma {:induction false} AscendingRun(epochs: seq<EpochEntry>, digests: map<nat, Bytes>, first: nat, i: nat)
    requires EntriesOf(epochs, digests) && GapFree(digests, first) && i < |epochs|
    ensures epochs[i].index == first + i
  {
    if i > 0 {
      AscendingRun(epochs, digests, first, i - 1);
    }
    var expected := first + i;
    assert Restates(digests, epochs[i]);
    assert epochs[i].index >= expected;
    assert expected in digests && HasEntry(epochs, expected);
    var k :| 0 <= k < |epochs| && epochs[k].index == expected;
    if k < i {
      AscendingRun(epochs, digests, first, k);
    }
  }

  /** `entry` advertises epoch `index` as the table has it. */
  ghost predicate Advertises(p: Primitives, t: Table, chain: Bytes, index: nat, entry: EpochEntry) {
    && t.Keys != {}
    && var start, end := EpochStart(index, Lowest(t.Keys)), EpochLast(index);
       && Digestible(p, t, chain, start, end)
       && entry == EntryOf(DigestOf(p, t, chain, start, end), index)
  }

  lemma RowAdvertises(p: Primitives, t: Table, chain: Bytes, index: nat, row: Bytes)
    requires p.Lawful() && RowCurrent(p, t, chain, index, row)
    ensures DecodeDigest(row).Some? && Advertises(p, t, chain, index, EntryOf(DecodeDigest(row).value, index))
  {
    DigestRoundTrip(DigestOf(p, t, chain, EpochStart(index, Lowest(t.Keys)), EpochLast(index)));
  }

  /** The `i`-th published entry, exactly. */
  lemma PublishedEntry(p: Primitives, s: Store, chain: Bytes, m: Manifest, i: nat)
    requires p.Lawful() && Published(p, s, chain) && EntriesOf(m.epochs, s.digests) && i < |m.epochs|
    ensures s.blocks.Keys != {}
    ensures EpochIndex(Lowest(s.blocks.Keys)) + i in s.digests
    ensures Advertises(p, s.blocks, chain, EpochIndex(Lowest(s.blocks.Keys)) + i, m.epochs[i])
  {
    assert Restates(s.digests, m.epochs[i]);
    var index := EpochIndex(Lowest(s.blocks.Keys)) + i;
    AscendingRun(m.epochs, s.digests, EpochIndex(Lowest(s.blocks.Keys)), i);
    assert RowCurrent(p, s.blocks, chain, index, s.digests[index]);
    RowAdvertises(p, s.blocks, chain, index, s.digests[index]);
  }

  /** The `i`-th entry has the bounds its epoch has in a cache based at `base`. */
  predicate InPlace(m: Manifest, i: nat, base: nat)
    requires i < |m.epochs|
  {
    var index, entry := EpochIndex(base) + i, m.epochs[i];
    && entry.index == index && entry.start == EpochStart(index, base) && entry.end == EpochLast(index)
    && entry.start <= entry.end
  }

  lemma AdvertisedInPlace(p: Primitives, t: Table, chain: Bytes, m: Manifest, i: nat)
    requires i < |m.epochs| && t.Keys != {}
    requires Advertises(p, t, chain, EpochIndex(Lowest(t.Keys)) + i, m.epochs[i])
    ensures InPlace(m, i, Lowest(t.Keys))
  {
  }

  lemma InPlaceOk(m: Manifest, i: nat, base: nat)
    requires i < |m.epochs| && base < HEIGHT_LIMIT && m.baseHeight == base
    requires InPlace(m, i, base) && (i > 0 ==> InPlace(m, i - 1, base))
    ensures EntryOk(m, i)
  {
    if i > 0 {
      LaterEpochStarts(base, EpochIndex(base) + i);
    } else {
      EpochHolds(base, EpochIndex(base));
    }
  }

  lemma PublishedInPlace(p: Primitives, s: Store, chain: Bytes, m: Manifest, i: nat)
    requires p.Lawful() && Published(p, s, chain) && EntriesOf(m.epochs, s.digests) && i < |m.epochs|
    ensures s.blocks.Keys != {} && InPlace(m, i, Lowest(s.blocks.Keys))
  {
    PublishedEntry(p, s, chain, m, i);
    AdvertisedInPlace(p, s.blocks, chain, m, i);
  }

  /** Whatever happened to the cache between the two reads, the manifest is accepted exactly when it has no epochs
      or the base read first is still the lowest cached height when the rows are read. */
  lemma ManifestAcceptedExactly(p: Primitives, t: Table, s: Store, chain: Bytes, m: Manifest)
    requires p.Lawful() && Published(p, s, chain) && IsManifestOver(m, t, s, chain)
    ensures Accepts(m, chain) <==> s.digests == map[] || (s.blocks.Keys != {} && m.baseHeight == Lowest(s.blocks.Keys))
  {
    if m.epochs == [] {
      forall k ensures k !in s.digests {
        assert k in s.digests ==> HasEntry(m.epochs, k);
      }
    } else {
      assert Restates(s.digests, m.epochs[0]);
      PublishedInPlace(p, s, chain, m, 0);
      var base := Lowest(s.blocks.Keys);
      assert base in s.blocks;
      EpochHolds(base, EpochIndex(base));
      if m.baseHeight == base {
        forall i | 0 <= i < |m.epochs| ensures EntryOk(m, i) {
          PublishedInPlace(p, s, chain, m, i);
          if i > 0 {
            PublishedInPlace(p, s, chain, m, i - 1);
          }
          InPlaceOk(m, i, base);
        }
      } else {
        assert !EntryOk(m, 0);
      }
    }
  }

  /** Every published state's manifest is one that `validate_manifest` accepts. */
  lemma PublishedManifestAccepted(p: Primitives, s: Store, chain: Bytes, m: Manifest)
    requires p.Lawful() && Published(p, s, chain) && IsManifest(m, s, chain)
    ensures Accepts(m, chain)
  {
    ManifestAcceptedExactly(p, s.blocks, s, chain, m);
  }

  /** So is one made while blocks arrive between its reads. */
  lemma ManifestWhileAppending(p: Primitives, s: Store, arriving: seq<CompactBlock>, chain: Bytes, m: Manifest)
    requires p.Lawful() && Published(p, s, chain) && InRange(arriving)
    requires IsManifestOver(m, s.blocks, Arrive(p, s, arriving), chain)
    ensures Accepts(m, chain)
  {
    var after := Arrive(p, s, arriving);
    ArriveContinues(p, s, arriving);
    GrowthKeepsPublished(p, s, after, chain);
    ManifestAcceptedExactly(p, s.blocks, after, chain, m);
  }

  lemma LaterEpochStarts(base: nat, index: nat)
    requires EpochIndex(base) < index && base < HEIGHT_LIMIT
    ensures EpochStart(index, base) == EpochFirst(index)
  {
  }
}
