/** The publishing side: epoch bodies and their digests, taken from a cache that is being written to, and the
    walk that keeps the digests complete. */
module Export {
  import opened Base
  import opened Blocks
  import opened Format
  import opened MetaKeys
  import opened BlockStore
  import opened BlockCache

  datatype SnapshotError = BadBounds | BadRecord | MissingBlocks | BadChain | BadBlock | UnknownEpoch | MalformedDigest

  // ---- Bodies ----

  /** Every height in `lo..hi`, `hi` excluded, is cached. */
  ghost predicate Full(t: Table, lo: nat, hi: nat) {
    forall h: nat :: lo <= h < hi ==> h in t
  }

  ghost function RowsOf(t: Table, lo: nat, hi: nat): (r: seq<Bytes>)
    requires lo <= hi && Full(t, lo, hi)
    ensures |r| == hi - lo && forall i :: 0 <= i < |r| ==> r[i] == t[lo + i]
  {
    seq(hi - lo, i requires 0 <= i < hi - lo => t[lo + i])
  }

  ghost predicate Decodes(p: Primitives, t: Table, lo: nat, hi: nat) {
    forall h: nat :: lo <= h < hi && h in t ==> p.decode(t[h]).Some? && p.decode(t[h]).value.height == h
  }

  ghost function HashesOf(p: Primitives, t: Table, lo: nat, hi: nat): (r: seq<Bytes>)
    requires lo <= hi && Full(t, lo, hi) && Decodes(p, t, lo, hi)
    ensures |r| == hi - lo && forall i :: 0 <= i < |r| ==> r[i] == BlockAt(p, t, lo + i).hash
  {
    seq(hi - lo, i requires 0 <= i < hi - lo => BlockAt(p, t, lo + i).hash)
  }

  ghost predicate SmallRows(t: Table, lo: nat, hi: nat) {
    forall h: nat :: lo <= h < hi && h in t ==> |t[h]| <= U32_MAX
  }

  /** The table can produce the body of `start..=end`. */
  ghost predicate Writable(t: Table, chain: Bytes, start: nat, end: nat) {
    && start <= end <= U64_MAX && end - start < U32_MAX
    && ValidChain(chain) && Full(t, start, end + 1) && SmallRows(t, start, end + 1)
  }

  ghost function BodyOf(t: Table, chain: Bytes, start: nat, end: nat): Bytes
    requires Writable(t, chain, start, end)
  {
    EpochBody(chain, start, RowsOf(t, start, end + 1))
  }

  /** What has gone out once the rows below `a` have been visited: with no gap so far, exactly those. */
  ghost predicate Visited(p: Primitives, t: Table, start: nat, a: nat, end: nat, digesting: bool,
                          records: seq<Bytes>, anchor: Bytes)
  {
    && start <= a <= end + 1 && |records| <= a - start
    && SmallRows(t, start, a)
    && (digesting ==> Decodes(p, t, start, a))
    && if |records| < a - start then !Full(t, start, end + 1)
       else && Full(t, start, a) && records == RowsOf(t, start, a)
            && (digesting ==> anchor == AnchorInput(start, HashesOf(p, t, start, a)))
  }

  lemma VisitRecord(p: Primitives, t: Table, start: nat, a: nat, end: nat, height: nat, records: seq<Bytes>)
    requires Visited(p, t, start, a, end, false, records, []) && IsNearest(t, a, end + 1, height, false)
    requires |t[height]| <= U32_MAX
    ensures Visited(p, t, start, height + 1, end, false, records + [t[height]], [])
  {
    if height > a {
      assert a !in t;
    } else if |records| == a - start {
      assert RowsOf(t, start, a + 1) == records + [t[height]];
    }
  }

  lemma VisitHash(p: Primitives, t: Table, start: nat, a: nat)
    requires start <= a && Full(t, start, a + 1) && Decodes(p, t, start, a + 1)
    ensures AnchorInput(start, HashesOf(p, t, start, a + 1))
         == AnchorInput(start, HashesOf(p, t, start, a)) + (HeightBytes(a) + BlockAt(p, t, a).hash)
  {
    var hashes := HashesOf(p, t, start, a);
    AnchorAppend(start, hashes, BlockAt(p, t, a).hash);
    assert HashesOf(p, t, start, a + 1) == hashes + [BlockAt(p, t, a).hash];
  }

  lemma VisitOne(p: Primitives, t: Table, start: nat, a: nat, end: nat, digesting: bool,
                 records: seq<Bytes>, anchor: Bytes, height: nat, anchored: Bytes)
    requires Visited(p, t, start, a, end, digesting, records, anchor) && IsNearest(t, a, end + 1, height, false)
    requires |t[height]| <= U32_MAX
    requires digesting ==>
               && p.decode(t[height]).Some? && p.decode(t[height]).value.height == height
               && anchored == anchor + (HeightBytes(height) + p.decode(t[height]).value.hash)
    ensures Visited(p, t, start, height + 1, end, digesting, records + [t[height]], anchored)
  {
    VisitRecord(p, t, start, a, end, height, records);
    if digesting && |records| == a - start && height == a {
      VisitHash(p, t, start, a);
    }
  }

  lemma VisitedAll(p: Primitives, t: Table, start: nat, a: nat, end: nat, digesting: bool,
                   records: seq<Bytes>, anchor: Bytes)
    requires start <= end && Visited(p, t, start, a, end, digesting, records, anchor)
    requires Slice(t, a, end + 1).Keys == {}
    ensures SmallRows(t, start, end + 1) && (digesting ==> Decodes(p, t, start, end + 1))
    ensures |records| == end - start + 1 <==> Full(t, start, end + 1)
    ensures |records| == end - start + 1 ==>
              && records == RowsOf(t, start, end + 1)
              && (digesting ==> anchor == AnchorInput(start, HashesOf(p, t, start, end + 1)))
  {
    assert forall h: nat :: h in t && a <= h < end + 1 ==> h in Slice(t, a, end + 1).Keys;
    if a < end + 1 {
      assert a !in t;
    }
  }

  /** The rows of `start..=end` in height order, each as a record. With `digesting`, each block is decoded
      on the way, held to its height, and its hash fed to the anchor. */
  method WriteRecords(cache: Cache, start: nat, end: nat, digesting: bool)
    returns (r: Result<(Bytes, Bytes), SnapshotError>)
    requires start <= end
    ensures r.Ok? <==> Full(cache.blocks, start, end + 1) && SmallRows(cache.blocks, start, end + 1)
                       && (digesting ==> Decodes(cache.p, cache.blocks, start, end + 1))
    ensures r.Ok? ==> r.value.0 == RecordsBytes(RowsOf(cache.blocks, start, end + 1))
    ensures r.Ok? && digesting ==> r.value.1 == AnchorInput(start, HashesOf(cache.p, cache.blocks, start, end + 1))
  {
    var t := cache.blocks;
    var out, anchor, a := [], [], start;
    var written := 0;
    ghost var records: seq<Bytes> := [];
    while Slice(t, a, end + 1).Keys != {}
      invariant Visited(cache.p, t, start, a, end, digesting, records, anchor)
      invariant written == |records| && out == RecordsBytes(records)
      decreases end + 1 - a
    {
      var height := Next(t, a, end + 1, false);
      var raw := t[height];
      var record := WriteRecord(raw);
      if record.Err? {
        return Err(BadRecord);
      }
      var anchored := anchor;
      if digesting {
        var block := cache.p.decode(raw);
        if block.None? || block.value.height != height {
          return Err(BadBlock);
        }
        anchored := anchor + (HeightBytes(height) + block.value.hash);
      }
      VisitOne(cache.p, t, start, a, end, digesting, records, anchor, height, anchored);
      RecordsAppend(records, raw);
      out, anchor := out + record.value, anchored;
      records := records + [raw];
      written := written + 1;
      a := height + 1;
    }
    VisitedAll(cache.p, t, start, a, end, digesting, records, anchor);
    if written != end - start + 1 {
      return Err(MissingBlocks);
    }
    r := Ok((out, anchor));
  }

  /** `write_body`: a header and the records of `start..=end`. */
  method WriteBody(cache: Cache, chain: Bytes, start: u64, end: u64, digesting: bool)
    returns (r: Result<(Bytes, Bytes), SnapshotError>)
    ensures r.Ok? <==> Writable(cache.blocks, chain, start, end)
                       && (digesting ==> Decodes(cache.p, cache.blocks, start, end + 1))
    ensures r.Ok? ==> r.value.0 == BodyOf(cache.blocks, chain, start, end)
    ensures r.Ok? && digesting ==> r.value.1 == AnchorInput(start, HashesOf(cache.p, cache.blocks, start, end + 1))
  {
    if end < start || end - start >= U32_MAX {
      return Err(BadBounds);
    }
    var header := WriteHeader(chain, start, end - start + 1);
    if header.Err? {
      return Err(BadChain);
    }
    var records := WriteRecords(cache, start, end, digesting);
    if records.Err? {
      return records;
    }
    r := Ok((header.value + records.value.0, records.value.1));
  }

  // ---- Digests ----

  /** The digest of `start..=end` can be taken. */
  ghost predicate Digestible(p: Primitives, t: Table, chain: Bytes, start: nat, end: nat) {
    Writable(t, chain, start, end) && end - start < EPOCH_SIZE && Decodes(p, t, start, end + 1)
  }

  lemma BodyFits(t: Table, chain: Bytes, start: nat, end: nat)
    requires Writable(t, chain, start, end) && end - start < EPOCH_SIZE
    ensures |BodyOf(t, chain, start, end)| <= U64_MAX
  {
    RecordsBounded(RowsOf(t, start, end + 1));
  }

  ghost function DigestOf(p: Primitives, t: Table, chain: Bytes, start: nat, end: nat): EpochDigest
    requires Digestible(p, t, chain, start, end)
  {
    var body := BodyOf(t, chain, start, end);
    BodyFits(t, chain, start, end);
    EpochDigest(start, end, |body|, p.sha256(body), p.sha256(AnchorInput(start, HashesOf(p, t, start, end + 1))))
  }

  /** Nothing between `start` and `end` distinguishes the two tables, so they digest alike. */
  lemma DigestReadsOnlyItsRange(p: Primitives, t: Table, u: Table, chain: Bytes, start: nat, end: nat)
    requires Digestible(p, t, chain, start, end)
    requires forall h: nat :: start <= h <= end ==> h in u && u[h] == t[h]
    ensures Digestible(p, u, chain, start, end) && DigestOf(p, u, chain, start, end) == DigestOf(p, t, chain, start, end)
  {
    assert RowsOf(u, start, end + 1) == RowsOf(t, start, end + 1);
    assert HashesOf(p, u, start, end + 1) == HashesOf(p, t, start, end + 1);
  }

  // ---- Which epoch, and where it lies in this cache ----

  ghost predicate InHeightRange(t: Table) {
    forall h :: h in t ==> h < HEIGHT_LIMIT
  }

  /** Where epoch `index` begins in a cache based at `base`. */
  function EpochStart(index: nat, base: nat): nat { Max(EpochFirst(index), base) }

  /** `complete_epoch_bounds`. */
  function CompleteBounds(t: Table, index: nat): Option<(nat, nat)> {
    match Range(t)
    case None => None
    case Some((base, tip)) =>
      var start, end := EpochStart(index, base), EpochLast(index);
      if start > end || end >= tip then None else Some((start, end))
  }

  lemma EpochIsSmall(index: nat, tip: nat)
    requires EpochLast(index) < tip < HEIGHT_LIMIT
    ensures index < tip && index <= U64_MAX
  {
  }

  /** The lowest epoch from `index` on that ends below `tip` and has no row. */
  function PendingFrom(digests: map<nat, Bytes>, index: nat, tip: nat): (r: Option<nat>)
    requires tip < HEIGHT_LIMIT
    ensures r.Some? ==> index <= r.value && EpochLast(r.value) < tip && r.value !in digests
                        && forall i :: index <= i < r.value ==> i in digests
    ensures r.None? ==> forall i {:trigger EpochLast(i)} :: index <= i && EpochLast(i) < tip ==> i in digests
    decreases SatSub(tip, index)
  {
    if EpochLast(index) >= tip then None
    else if index !in digests then Some(index)
    else
      EpochIsSmall(index, tip);
      PendingFrom(digests, index + 1, tip)
  }

  lemma PendingHere(digests: map<nat, Bytes>, index: nat, tip: nat)
    requires EpochLast(index) < tip < HEIGHT_LIMIT
    ensures index < tip && index <= U64_MAX
    ensures PendingFrom(digests, index, tip) == if index in digests then PendingFrom(digests, index + 1, tip) else Some(index)
  {
  }

  /** `next_pending_epoch`. */
  function NextPending(s: Store): (r: Option<nat>)
    requires forall h :: h in s.blocks ==> h < HEIGHT_LIMIT
  {
    match Range(s.blocks)
    case None => None
    case Some((base, tip)) => PendingFrom(s.digests, EpochIndex(base), tip)
  }

  method HasRow(meta: map<string, Bytes>, index: u64) returns (stored: bool)
    requires MetaOk(meta)
    ensures stored <==> index in Rows(meta)
  {
    IndexedRow(meta, index);
    stored := EpochKey(index) in meta;
  }

  /** The scan over the rows, upward from the first epoch of the cache. */
  method ScanUp(meta: map<string, Bytes>, first: nat, tip: nat) returns (r: Option<nat>)
    requires MetaOk(meta) && tip < HEIGHT_LIMIT
    ensures r == PendingFrom(Rows(meta), first, tip)
  {
    var index := first;
    while EpochLast(index) < tip
      invariant PendingFrom(Rows(meta), first, tip) == PendingFrom(Rows(meta), index, tip)
      decreases SatSub(tip, index)
    {
      PendingHere(Rows(meta), index, tip);
      var stored := HasRow(meta, index);
      if !stored {
        return Some(index);
      }
      index := index + 1;
    }
    r := None;
  }

  method NextPendingEpoch(cache: Cache) returns (r: Option<nat>)
    requires cache.Valid() && InHeightRange(cache.blocks)
    ensures r == NextPending(cache.View())
  {
    var range := Range(cache.blocks);
    if range.None? {
      return None;
    }
    r := ScanUp(cache.meta, EpochIndex(range.value.0), range.value.1);
  }

  /** `was_truncated`. */
  predicate WasTruncated(before: Option<(nat, nat)>, after: Option<(nat, nat)>) {
    before.Some? && (after.None? || after.value.0 != before.value.0 || after.value.1 < before.value.1)
  }

  // ---- One unit of maintenance, with the ingestor appending in between ----

  /** What the ingestor managed to append between two of the walk's transactions. */
  function Arrive(p: Primitives, s: Store, batch: seq<CompactBlock>): Store {
    match Append(p, s, Oks(batch), None)
    case Ok(after) => after
    case Err(_) => s
  }

  /** The batches arriving before the walk's first range read, its second, its body read, its closing range
      read, and its write. */
  datatype Arrivals = Arrivals(a: seq<CompactBlock>, b: seq<CompactBlock>, c: seq<CompactBlock>,
                               d: seq<CompactBlock>, e: seq<CompactBlock>)

  /** `store_next_epoch_digest`, with each of its reads seeing the cache of that moment. */
  ghost function Maintained(p: Primitives, s0: Store, chain: Bytes, more: Arrivals): Store
    requires InHeightRange(s0.blocks)
  {
    var pending := NextPending(s0);
    var s1 := Arrive(p, s0, more.a);
    var s2 := Arrive(p, s1, more.b);
    var s3 := Arrive(p, s2, more.c);
    var s4 := Arrive(p, s3, more.d);
    var s5 := Arrive(p, s4, more.e);
    if pending.None? then s5
    else
      var bounds := CompleteBounds(s2.blocks, pending.value);
      if bounds.None? then s5
      else
        var (start, end) := bounds.value;
        if !Digestible(p, s3.blocks, chain, start, end) || WasTruncated(Range(s1.blocks), Range(s4.blocks)) then s5
        else s5.(digests := s5.digests[pending.value := EncodeDigest(DigestOf(p, s3.blocks, chain, start, end))])
  }

  method Ingest(cache: Cache, batch: seq<CompactBlock>)
    requires cache.Valid()
    modifies cache
    ensures cache.Valid() && cache.View() == Arrive(cache.p, old(cache.View()), batch)
  {
    var _ := cache.Append(Oks(batch), None);
  }

  /** `compute_epoch_digest`, once the bounds are known. */
  method ComputeEpochDigest(cache: Cache, chain: Bytes, start: u64, end: u64) returns (r: Option<EpochDigest>)
    requires start <= end && end - start < EPOCH_SIZE
    ensures r.Some? <==> Digestible(cache.p, cache.blocks, chain, start, end)
    ensures r.Some? ==> r.value == DigestOf(cache.p, cache.blocks, chain, start, end)
  {
    var body := WriteBody(cache, chain, start, end, true);
    if body.Err? {
      return None;
    }
    BodyFits(cache.blocks, chain, start, end);
    r := Some(EpochDigest(start, end, |body.value.0|, cache.p.sha256(body.value.0), cache.p.sha256(body.value.1)));
  }

  lemma BoundsFit(t: Table, index: nat)
    requires CompleteBounds(t, index).Some?
    ensures var (start, end) := CompleteBounds(t, index).value;
            start <= end <= U64_MAX && end - start < EPOCH_SIZE
  {
  }

  method StoreNextEpochDigest(cache: Cache, chain: Bytes, more: Arrivals) returns (stored: Option<nat>)
    requires cache.Valid() && InHeightRange(cache.blocks)
    modifies cache
    ensures cache.Valid() && cache.View() == Maintained(cache.p, old(cache.View()), chain, more)
    ensures stored.Some? ==> stored == NextPending(old(cache.View())) && stored.value in cache.View().digests
  {
    var pending := NextPendingEpoch(cache);
    PendingIsSmall(cache.View());
    Ingest(cache, more.a);
    var before := Range(cache.blocks);
    Ingest(cache, more.b);
    var bounds: Option<(nat, nat)> := if pending.None? then None else CompleteBounds(cache.blocks, pending.value);
    if bounds.Some? {
      BoundsFit(cache.blocks, pending.value);
    }
    Ingest(cache, more.c);
    var digest: Option<EpochDigest> := None;
    if bounds.Some? {
      var (start, end) := bounds.value;
      digest := ComputeEpochDigest(cache, chain, start, end);
    }
    Ingest(cache, more.d);
    var truncated := WasTruncated(before, Range(cache.blocks));
    Ingest(cache, more.e);
    stored := None;
    if digest.Some? && !truncated {
      cache.SetEpochDigest(pending.value, EncodeDigest(digest.value));
      stored := pending;
    }
  }

  lemma PendingIsSmall(s: Store)
    requires InHeightRange(s.blocks)
    ensures NextPending(s).Some? ==> NextPending(s).value <= U64_MAX
  {
  }

  /** `write_epoch`: only an epoch with a stored digest is served, between the bounds the digest names. */
  method WriteEpoch(cache: Cache, chain: Bytes, index: u64) returns (r: Result<Bytes, SnapshotError>)
    requires cache.Valid()
    ensures var s := cache.View();
            var d := if index in s.digests then DecodeDigest(s.digests[index]) else None;
            && (r.Ok? <==> d.Some? && Writable(s.blocks, chain, d.value.start, d.value.end))
            && (r.Ok? ==> r.value == BodyOf(s.blocks, chain, d.value.start, d.value.end))
  {
    var row := cache.EpochDigest(index);
    if row.None? {
      return Err(UnknownEpoch);
    }
    var digest := DecodeDigest(row.value);
    if digest.None? {
      return Err(MalformedDigest);
    }
    var body := WriteBody(cache, chain, digest.value.start, digest.value.end, false);
    match body {
      case Ok(b) => r := Ok(b.0);
      case Err(e) => r := Err(e);
    }
  }
}
