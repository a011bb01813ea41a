/** Digests never outlive their blocks: what holds of the stored rows in every run of appends, snapshot
    imports, truncations and maintenance steps. */
module Publisher {
  import opened Base
  import opened Blocks
  import opened Format
  import opened BlockStore
  import opened Export

  /** `row` is the digest of the body epoch `index` has in this table now. */
  ghost predicate RowCurrent(p: Primitives, t: Table, chain: Bytes, index: nat, row: Bytes) {
    && t.Keys != {}
    && var start, end := EpochStart(index, Lowest(t.Keys)), EpochLast(index);
       && Digestible(p, t, chain, start, end)
       && row == EncodeDigest(DigestOf(p, t, chain, start, end))
  }

  /** The recorded base is the lowest cached height. */
  ghost predicate BaseCurrent(s: Store) {
    s.base.Some? ==> s.blocks.Keys != {} && s.base.value == Lowest(s.blocks.Keys)
  }

  /** The indices are a gap-free run starting at `first`. */
  ghost predicate GapFree(digests: map<nat, Bytes>, first: nat) {
    && (forall i :: i in digests ==> first <= i)
    && (forall i, j: nat :: i in digests && first <= j <= i ==> j in digests)
  }

  ghost predicate RowsCurrent(p: Primitives, t: Table, digests: map<nat, Bytes>, chain: Bytes) {
    forall i {:trigger RowCurrent(p, t, chain, i, digests[i])} :: i in digests ==> RowCurrent(p, t, chain, i, digests[i])
  }

  /** Rows are current, and run without a gap from the epoch of the lowest cached height. */
  ghost predicate Published(p: Primitives, s: Store, chain: Bytes) {
    && InHeightRange(s.blocks) && Contiguous(s.blocks)
    && BaseCurrent(s) && RowsCurrent(p, s.blocks, s.digests, chain)
    && (if s.blocks.Keys == {} then s.digests == map[] else GapFree(s.digests, EpochIndex(Lowest(s.blocks.Keys))))
  }

  // ---- Appending ----

  /** `u` continues `t`: same base, no row changed, no lower tip. */
  ghost predicate Continues(t: Table, u: Table) {
    && InHeightRange(u) && Contiguous(u)
    && (t.Keys != {} ==>
          && u.Keys != {} && Lowest(u.Keys) == Lowest(t.Keys) && Highest(t.Keys) <= Highest(u.Keys)
          && forall h :: h in t ==> h in u && u[h] == t[h])
  }

  ghost predicate InRange(batch: seq<CompactBlock>) {
    forall i :: 0 <= i < |batch| ==> batch[i].height < HEIGHT_LIMIT
  }

  lemma ContiguousExtended(p: Primitives, t: Table, batch: seq<CompactBlock>)
    requires Contiguous(t) && InHeightRange(t) && Consecutive(batch) && InRange(batch)
    requires batch != [] && t.Keys != {} ==> batch[0].height == Highest(t.Keys) + 1
    ensures Continues(t, Extended(p, t, batch))
  {
    if batch != [] {
      ExtendedRows(p, t, batch);
      ExtendedBounds(p, t, batch);
      ConsecutiveHeights(batch, |batch| - 1);
    }
  }

  lemma AppendContinues(p: Primitives, s: Store, batch: seq<CompactBlock>, base: Option<nat>)
    requires Contiguous(s.blocks) && InHeightRange(s.blocks) && InRange(batch)
    requires Append(p, s, Oks(batch), base).Ok?
    ensures var after := Append(p, s, Oks(batch), base).value;
            && Continues(s.blocks, after.blocks) && after.digests == s.digests
            && (batch == [] ==> after == s)
            && (batch != [] ==> after.base == if base.Some? then base else s.base)
            && (batch != [] && s.blocks.Keys == {} ==> after.blocks.Keys != {} && Lowest(after.blocks.Keys) == batch[0].height)
  {
    AppendItemsExact(p, s.blocks, Oks(batch), NextHeight(s.blocks), batch);
    ContiguousExtended(p, s.blocks, batch);
    if batch != [] {
      ExtendedBounds(p, s.blocks, batch);
    }
  }

  lemma ArriveContinues(p: Primitives, s: Store, batch: seq<CompactBlock>)
    requires Contiguous(s.blocks) && InHeightRange(s.blocks) && InRange(batch)
    ensures var after := Arrive(p, s, batch);
            Continues(s.blocks, after.blocks) && after.digests == s.digests && after.base == s.base
  {
    if Append(p, s, Oks(batch), None).Ok? {
      AppendContinues(p, s, batch, None);
    }
  }

  /** A row stays current while its own range is untouched and the base stays put. */
  lemma RowStays(p: Primitives, t: Table, u: Table, chain: Bytes, index: nat, row: Bytes)
    requires RowCurrent(p, t, chain, index, row) && u.Keys != {} && Lowest(u.Keys) == Lowest(t.Keys)
    requires forall h :: h in t && h <= EpochLast(index) ==> h in u && u[h] == t[h]
    ensures RowCurrent(p, u, chain, index, row)
  {
    DigestReadsOnlyItsRange(p, t, u, chain, EpochStart(index, Lowest(t.Keys)), EpochLast(index));
  }

  lemma RowsStay(p: Primitives, t: Table, u: Table, digests: map<nat, Bytes>, chain: Bytes)
    requires RowsCurrent(p, t, digests, chain) && Continues(t, u)
    ensures RowsCurrent(p, u, digests, chain)
  {
    forall i | i in digests ensures RowCurrent(p, u, chain, i, digests[i]) {
      assert RowCurrent(p, t, chain, i, digests[i]);
      RowStays(p, t, u, chain, i, digests[i]);
    }
  }

  lemma GrowthKeepsPublished(p: Primitives, s: Store, after: Store, chain: Bytes)
    requires Published(p, s, chain) && Continues(s.blocks, after.blocks)
    requires after.digests == s.digests && BaseCurrent(after)
    ensures Published(p, after, chain)
  {
    RowsStay(p, s.blocks, after.blocks, s.digests, chain);
  }

  // ---- Truncating ----

  lemma EpochEndsBelow(index: nat, height: nat)
    requires index < EpochIndex(height)
    ensures EpochLast(index) < height
  {
  }

  lemma IndicesSurvive(digests: map<nat, Bytes>, first: nat, height: nat)
    requires GapFree(digests, EpochIndex(first))
    ensures GapFree(Below(digests, EpochIndex(height)), EpochIndex(first))
    ensures height <= first ==> Below(digests, EpochIndex(height)) == map[]
  {
    if height <= first {
      assert EpochIndex(height) <= EpochIndex(first);
    }
  }

  lemma RowSurvives(p: Primitives, t: Table, chain: Bytes, height: nat, index: nat, row: Bytes)
    requires RowCurrent(p, t, chain, index, row) && Contiguous(t) && Lowest(t.Keys) < height
    requires index < EpochIndex(height)
    ensures RowCurrent(p, Below(t, height), chain, index, row)
  {
    EpochEndsBelow(index, height);
    BelowBounds(t, height);
    RowStays(p, t, Below(t, height), chain, index, row);
  }

  lemma RowsSurvive(p: Primitives, t: Table, digests: map<nat, Bytes>, chain: Bytes, height: nat)
    requires RowsCurrent(p, t, digests, chain) && t.Keys != {} && Contiguous(t) && Lowest(t.Keys) < height
    ensures RowsCurrent(p, Below(t, height), Below(digests, EpochIndex(height)), chain)
  {
    var kept := Below(digests, EpochIndex(height));
    forall i | i in kept ensures RowCurrent(p, Below(t, height), chain, i, kept[i]) {
      assert RowCurrent(p, t, chain, i, digests[i]);
      RowSurvives(p, t, chain, height, i, digests[i]);
    }
  }

  lemma TruncationKeepsPublished(p: Primitives, s: Store, chain: Bytes, height: nat)
    requires Published(p, s, chain)
    ensures Published(p, RemoveFrom(s, height), chain)
  {
    if s.blocks.Keys == {} {
      assert Below(s.blocks, height).Keys == {};
    } else {
      IndicesSurvive(s.digests, Lowest(s.blocks.Keys), height);
      if height <= Lowest(s.blocks.Keys) {
        BelowEmpty(s.blocks, height);
      } else {
        BelowBounds(s.blocks, height);
        RowsSurvive(p, s.blocks, s.digests, chain, height);
      }
    }
  }

  // ---- Maintaining ----

  ghost predicate ArrivalsInRange(more: Arrivals) {
    InRange(more.a) && InRange(more.b) && InRange(more.c) && InRange(more.d) && InRange(more.e)
  }

  lemma ContinuesTransitive(t: Table, u: Table, v: Table)
    requires Continues(t, u) && Continues(u, v)
    ensures Continues(t, v)
  {
  }

  /** The table before a maintenance step, at its bounds read, at its body read and at its end. */
  lemma MaintenanceContinues(p: Primitives, s: Store, more: Arrivals) returns (s2: Store, s3: Store, s5: Store)
    requires Contiguous(s.blocks) && InHeightRange(s.blocks) && ArrivalsInRange(more)
    ensures s2 == Arrive(p, Arrive(p, s, more.a), more.b)
    ensures s3 == Arrive(p, s2, more.c)
    ensures s5 == Arrive(p, Arrive(p, s3, more.d), more.e)
    ensures Continues(s.blocks, s2.blocks) && Continues(s2.blocks, s3.blocks) && Continues(s3.blocks, s5.blocks)
    ensures Continues(s.blocks, s5.blocks) && s5.digests == s.digests && s5.base == s.base
  {
    ArriveContinues(p, s, more.a);
    var s1 := Arrive(p, s, more.a);
    ArriveContinues(p, s1, more.b);
    s2 := Arrive(p, s1, more.b);
    ContinuesTransitive(s.blocks, s1.blocks, s2.blocks);
    ArriveContinues(p, s2, more.c);
    s3 := Arrive(p, s2, more.c);
    ArriveContinues(p, s3, more.d);
    var s4 := Arrive(p, s3, more.d);
    ArriveContinues(p, s4, more.e);
    s5 := Arrive(p, s4, more.e);
    ContinuesTransitive(s3.blocks, s4.blocks, s5.blocks);
    ContinuesTransitive(s.blocks, s2.blocks, s3.blocks);
    ContinuesTransitive(s.blocks, s3.blocks, s5.blocks);
  }

  lemma AddRow(p: Primitives, s: Store, chain: Bytes, index: nat, row: Bytes)
    requires Published(p, s, chain) && s.blocks.Keys != {} && index !in s.digests
    requires EpochIndex(Lowest(s.blocks.Keys)) <= index
    requires forall j: nat :: EpochIndex(Lowest(s.blocks.Keys)) <= j < index ==> j in s.digests
    requires RowCurrent(p, s.blocks, chain, index, row)
    ensures Published(p, s.(digests := s.digests[index := row]), chain)
  {
    assert GapFree(s.digests[index := row], EpochIndex(Lowest(s.blocks.Keys)));
    var digests := s.digests[index := row];
    forall i | i in digests ensures RowCurrent(p, s.blocks, chain, i, digests[i]) {
      if i != index {
        assert RowCurrent(p, s.blocks, chain, i, s.digests[i]);
      }
    }
  }

  /** The row a maintenance step writes, seen from its end. */
  lemma NewRowCurrent(p: Primitives, t2: Table, t3: Table, t5: Table, chain: Bytes, index: nat, start: nat, end: nat)
    requires CompleteBounds(t2, index) == Some((start, end)) && Continues(t2, t3) && Continues(t3, t5)
    requires Digestible(p, t3, chain, start, end)
    ensures RowCurrent(p, t5, chain, index, EncodeDigest(DigestOf(p, t3, chain, start, end)))
  {
    DigestReadsOnlyItsRange(p, t3, t5, chain, start, end);
  }

  /** A maintenance step leaves what arrived, with at most one more row. */
  lemma MaintainedShape(p: Primitives, s: Store, chain: Bytes, more: Arrivals, s2: Store, s3: Store, s5: Store)
    requires InHeightRange(s.blocks)
    requires s2 == Arrive(p, Arrive(p, s, more.a), more.b) && s3 == Arrive(p, s2, more.c)
    requires s5 == Arrive(p, Arrive(p, s3, more.d), more.e)
    ensures Maintained(p, s, chain, more) == s5 ||
            (&& NextPending(s).Some? && CompleteBounds(s2.blocks, NextPending(s).value).Some?
             && var index := NextPending(s).value;
                var (start, end) := CompleteBounds(s2.blocks, index).value;
                && Digestible(p, s3.blocks, chain, start, end)
                && Maintained(p, s, chain, more)
                   == s5.(digests := s5.digests[index := EncodeDigest(DigestOf(p, s3.blocks, chain, start, end))]))
  {
  }

  lemma NewRowPublished(p: Primitives, s: Store, s2: Store, s3: Store, s5: Store, chain: Bytes,
                        index: nat, start: nat, end: nat)
    requires InHeightRange(s.blocks) && Continues(s.blocks, s5.blocks) && s5.digests == s.digests
    requires Continues(s2.blocks, s3.blocks) && Continues(s3.blocks, s5.blocks)
    requires NextPending(s) == Some(index) && CompleteBounds(s2.blocks, index) == Some((start, end))
    requires Digestible(p, s3.blocks, chain, start, end) && Published(p, s5, chain)
    ensures Published(p, s5.(digests := s5.digests[index := EncodeDigest(DigestOf(p, s3.blocks, chain, start, end))]), chain)
  {
    NewRowCurrent(p, s2.blocks, s3.blocks, s5.blocks, chain, index, start, end);
    AddRow(p, s5, chain, index, EncodeDigest(DigestOf(p, s3.blocks, chain, start, end)));
  }

  lemma MaintenanceKeepsPublished(p: Primitives, s: Store, chain: Bytes, more: Arrivals, after: Store)
    requires Published(p, s, chain) && ArrivalsInRange(more) && after == Maintained(p, s, chain, more)
    ensures Published(p, after, chain)
  {
    var s2, s3, s5 := MaintenanceContinues(p, s, more);
    GrowthKeepsPublished(p, s, s5, chain);
    MaintainedShape(p, s, chain, more, s2, s3, s5);
    if after != s5 {
      var index := NextPending(s).value;
      var (start, end) := CompleteBounds(s2.blocks, index).value;
      NewRowPublished(p, s, s2, s3, s5, chain, index, start, end);
    }
  }

  // ---- The walk catches up ----

  /** Every row decodes at its height and is small enough for a record. */
  ghost predicate Healthy(p: Primitives, t: Table, chain: Bytes) {
    && Contiguous(t) && InHeightRange(t) && ValidChain(chain)
    && forall h :: h in t ==> p.decode(t[h]).Some? && p.decode(t[h]).value.height == h && |t[h]| <= U32_MAX
  }

  /** A pending epoch lies within the cache, and its digest can be taken. */
  lemma PendingIsDigestible(p: Primitives, s: Store, chain: Bytes, u: Table, index: nat)
    requires Healthy(p, s.blocks, chain) && NextPending(s) == Some(index) && Continues(s.blocks, u)
    ensures var start, end := EpochStart(index, Lowest(s.blocks.Keys)), EpochLast(index);
            CompleteBounds(u, index) == Some((start, end)) && Digestible(p, u, chain, start, end)
  {
    var base := Lowest(s.blocks.Keys);
    assert base in s.blocks;
    EpochHolds(base, EpochIndex(base));
    var start, end := EpochStart(index, base), EpochLast(index);
    assert base <= start <= end < Highest(s.blocks.Keys);
    forall h: nat | start <= h < end + 1 ensures h in s.blocks && h in u && u[h] == s.blocks[h] {
    }
  }

  lemma NotTruncated(t: Table, u: Table)
    requires Continues(t, u)
    ensures !WasTruncated(Range(t), Range(u))
  {
  }

  /** A truncation within the cache is noticed, whatever its height. */
  lemma TruncationIsNoticed(t: Table, height: nat)
    requires t.Keys != {} && height <= Highest(t.Keys)
    ensures WasTruncated(Range(t), Range(Below(t, height)))
  {
    var u := Below(t, height);
    if u.Keys != {} {
      assert Highest(u.Keys) < height;
    }
  }

  /** Over a healthy cache, and whatever arrives meanwhile, a unit of maintenance stores the pending row. */
  lemma MaintenanceStores(p: Primitives, s: Store, chain: Bytes, more: Arrivals)
    requires Healthy(p, s.blocks, chain) && ArrivalsInRange(more) && NextPending(s).Some?
    ensures Maintained(p, s, chain, more).digests.Keys == s.digests.Keys + {NextPending(s).value}
  {
    var index := NextPending(s).value;
    ArriveContinues(p, s, more.a);
    var s1 := Arrive(p, s, more.a);
    var s2, s3, s5 := MaintenanceContinues(p, s, more);
    ContinuesTransitive(s.blocks, s2.blocks, s3.blocks);
    PendingIsDigestible(p, s, chain, s2.blocks, index);
    PendingIsDigestible(p, s, chain, s3.blocks, index);
    ArriveContinues(p, s1, more.b);
    ArriveContinues(p, s3, more.d);
    var s4 := Arrive(p, s3, more.d);
    ContinuesTransitive(s1.blocks, s2.blocks, s3.blocks);
    ContinuesTransitive(s1.blocks, s3.blocks, s4.blocks);
    NotTruncated(s1.blocks, s4.blocks);
  }

  const QUIET: Arrivals := Arrivals([], [], [], [], [])

  /** The complete epochs of this cache that have no row. */
  function MissingRows(s: Store): set<nat> {
    match Range(s.blocks)
    case None => {}
    case Some((base, tip)) => set i | i in Interval(EpochIndex(base), tip) && EpochLast(i) < tip && i !in s.digests
  }

  lemma QuietUnit(p: Primitives, s: Store, chain: Bytes)
    requires Healthy(p, s.blocks, chain) && NextPending(s).Some?
    ensures var after := Maintained(p, s, chain, QUIET);
            after.blocks == s.blocks && |MissingRows(after)| < |MissingRows(s)|
  {
    MaintenanceStores(p, s, chain, QUIET);
    var index := NextPending(s).value;
    var after := Maintained(p, s, chain, QUIET);
    EpochIsSmall(index, Highest(s.blocks.Keys));
    OneLessMissing(s, after, index);
  }

  lemma OneLessMissing(s: Store, after: Store, index: nat)
    requires s.blocks.Keys != {} && after.blocks == s.blocks && after.digests.Keys == s.digests.Keys + {index}
    requires EpochIndex(Lowest(s.blocks.Keys)) <= index <= Highest(s.blocks.Keys) && EpochLast(index) < Highest(s.blocks.Keys)
    requires index !in s.digests
    ensures |MissingRows(after)| < |MissingRows(s)|
  {
    assert Within(EpochIndex(Lowest(s.blocks.Keys)), index, Highest(s.blocks.Keys));
    assert MissingRows(after) == MissingRows(s) - {index} && index in MissingRows(s);
  }

  /** The walk catches up: over a healthy cache that does not change, as many units as there are complete epochs
      without a row leave every one of them with its row. */
  lemma MaintenanceCatchesUp(p: Primitives, s: Store, chain: Bytes) returns (n: nat, after: Store)
    requires Healthy(p, s.blocks, chain)
    ensures n <= |MissingRows(s)|
    ensures after == Iterate(Maintaining(p, chain), s, n)
    ensures after.blocks == s.blocks && NextPending(after).None? && MissingRows(after) == {}
  {
    var step := Maintaining(p, chain);
    ghost var inv := (x: Store) => x.blocks == s.blocks;
    ghost var rests := (x: Store) => x.blocks == s.blocks && NextPending(x).None?;
    var bound := (x: Store) => |MissingRows(x)|;
    forall x: Store | inv(x) && !rests(x) ensures inv(step(x)) && bound(step(x)) < bound(x) {
      QuietUnit(p, x, chain);
    }
    n := Descent(step, inv, rests, bound, s, bound(s));
    after := Iterate(step, s, n);
  }

  /** One unit with nothing arriving. */
  ghost function Maintaining(p: Primitives, chain: Bytes): Store -> Store {
    (s: Store) => if InHeightRange(s.blocks) then Maintained(p, s, chain, QUIET) else s
  }

  // ---- Every run ----

  datatype Event =
    | Appended(batch: seq<CompactBlock>)
    | Imported(batch: seq<CompactBlock>)
    | Truncated(height: nat)
    | Maintenance(more: Arrivals)

  /** Heights stay below the saturating epoch. */
  ghost predicate EventInRange(e: Event) {
    match e
    case Appended(batch) => InRange(batch)
    case Imported(batch) => InRange(batch)
    case Truncated(_) => true
    case Maintenance(more) => ArrivalsInRange(more)
  }

  /** An import records its first height as the base, and only on an empty cache. */
  function ImportBase(s: Store, batch: seq<CompactBlock>): Option<nat> {
    if s.blocks.Keys == {} && batch != [] then Some(batch[0].height) else None
  }

  ghost function Effect(p: Primitives, s: Store, chain: Bytes, e: Event): Store
    requires InHeightRange(s.blocks)
  {
    match e
    case Appended(batch) => Arrive(p, s, batch)
    case Imported(batch) =>
      (match Append(p, s, Oks(batch), ImportBase(s, batch))
       case Ok(after) => after
       case Err(_) => s)
    case Truncated(height) => RemoveFrom(s, height)
    case Maintenance(more) => Maintained(p, s, chain, more)
  }

  lemma EffectKeepsPublished(p: Primitives, s: Store, chain: Bytes, e: Event)
    requires Published(p, s, chain) && EventInRange(e)
    ensures Published(p, Effect(p, s, chain, e), chain)
  {
    match e
    case Appended(batch) =>
      ArriveContinues(p, s, batch);
      GrowthKeepsPublished(p, s, Arrive(p, s, batch), chain);
    case Imported(batch) =>
      if Append(p, s, Oks(batch), ImportBase(s, batch)).Ok? {
        AppendContinues(p, s, batch, ImportBase(s, batch));
        GrowthKeepsPublished(p, s, Effect(p, s, chain, e), chain);
      }
    case Truncated(height) => TruncationKeepsPublished(p, s, chain, height);
    case Maintenance(more) => MaintenanceKeepsPublished(p, s, chain, more, Effect(p, s, chain, e));
  }

  /** `s` leads to `t` through `events`. */
  ghost predicate Run(p: Primitives, s: Store, chain: Bytes, events: seq<Event>, t: Store)
    decreases |events|
  {
    if events == [] then s == t
    else InHeightRange(s.blocks) && EventInRange(events[0]) && Run(p, Effect(p, s, chain, events[0]), chain, events[1..], t)
  }

  /** In every reachable state each stored row covers blocks that are all still cached and is the digest of
      the body that would be sent now, the rows have no gap, and a recorded base is the lowest cached
      height. A run may start from any gap-free cache that has no rows yet. */
  lemma {:induction false} RunsStayPublished(p: Primitives, s: Store, chain: Bytes, events: seq<Event>, t: Store)
    requires Published(p, s, chain) && Run(p, s, chain, events, t)
    ensures Published(p, t, chain)
    decreases |events|
  {
    if events != [] {
      EffectKeepsPublished(p, s, chain, events[0]);
      RunsStayPublished(p, Effect(p, s, chain, events[0]), chain, events[1..], t);
    }
  }

  lemma FreshCachesArePublished(p: Primitives, t: Table, chain: Bytes)
    requires InHeightRange(t) && Contiguous(t)
    ensures Published(p, Store(t, map[], None), chain)
  {
  }

  /** In particular every run from a gap-free cache without rows, the empty one among them. */
  lemma RunsFromScratch(p: Primitives, t: Table, chain: Bytes, events: seq<Event>, u: Store)
    requires InHeightRange(t) && Contiguous(t) && Run(p, Store(t, map[], None), chain, events, u)
    ensures Published(p, u, chain)
  {
    FreshCachesArePublished(p, t, chain);
    RunsStayPublished(p, Store(t, map[], None), chain, events, u);
  }

  /** Whatever is published can be served, and the digest that went out names the served bytes. */
  lemma PublishedIsServed(p: Primitives, s: Store, chain: Bytes, index: nat)
    requires p.Lawful() && Published(p, s, chain) && index in s.digests
    ensures var d := DecodeDigest(s.digests[index]);
            && d.Some?
            && d.value.start == EpochStart(index, Lowest(s.blocks.Keys)) && d.value.end == EpochLast(index)
            && Writable(s.blocks, chain, d.value.start, d.value.end)
            && d.value.content == p.sha256(BodyOf(s.blocks, chain, d.value.start, d.value.end))
            && d.value.bytes == |BodyOf(s.blocks, chain, d.value.start, d.value.end)|
            && EpochIndex(d.value.start) == index
  {
    var start, end := EpochStart(index, Lowest(s.blocks.Keys)), EpochLast(index);
    assert RowCurrent(p, s.blocks, chain, index, s.digests[index]);
    var digest := DigestOf(p, s.blocks, chain, start, end);
    DigestRoundTrip(digest);
    assert start in s.blocks;
    EpochHolds(start, index);
  }
}
