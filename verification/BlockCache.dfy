/** The cache as an object: tables changed in place, each method one transaction. */
module BlockCache {
  import opened Base
  import opened Blocks
  import opened Format
  import opened MetaKeys
  import opened BlockStore

  // ---- What a metadata table says ----

  ghost function BaseRow(meta: map<string, Bytes>): Option<nat> {
    if SNAPSHOT_BASE_HEIGHT in meta then Some(FromLittleEndian(meta[SNAPSHOT_BASE_HEIGHT])) else None
  }

  /** `meta.retain` as a truncation applies it. */
  function Retained(meta: map<string, Bytes>, dropsBase: bool, droppedEpoch: nat): map<string, Bytes> {
    map k | k in meta
            && (if k == SNAPSHOT_BASE_HEIGHT then !dropsBase
                else KeyIndex(k).None? || KeyIndex(k).value < droppedEpoch)
          :: meta[k]
  }

  lemma RetainedRows(meta: map<string, Bytes>, dropsBase: bool, droppedEpoch: nat)
    requires MetaOk(meta)
    ensures var kept := Retained(meta, dropsBase, droppedEpoch);
            && MetaOk(kept)
            && Rows(kept) == Below(Rows(meta), droppedEpoch)
            && BaseRow(kept) == if dropsBase then None else BaseRow(meta)
  {
    var kept := Retained(meta, dropsBase, droppedEpoch);
    forall k | k in kept ensures RowKeyOk(kept, k) {
      assert RowKeyOk(meta, k);
    }
    forall i: nat
      ensures i in Rows(kept) <==> i in Rows(meta) && i < droppedEpoch
      ensures i in Rows(kept) ==> Rows(kept)[i] == Rows(meta)[i]
    {
      IndexedRow(meta, i);
      IndexedRow(kept, i);
      if i <= U64_MAX {
        KeyParsesBack(i);
      }
    }
    assert Rows(kept) == Below(Rows(meta), droppedEpoch);
  }

  lemma SetRowAt(meta: map<string, Bytes>, index: u64, row: Bytes, i: nat)
    requires MetaOk(meta) && MetaOk(meta[EpochKey(index) := row])
    ensures var after := Rows(meta[EpochKey(index) := row]);
            && (i in after <==> i in Rows(meta) || i == index)
            && (i in after ==> after[i] == if i == index then row else Rows(meta)[i])
  {
    IndexedRow(meta, i);
    IndexedRow(meta[EpochKey(index) := row], i);
    if i <= U64_MAX {
      KeysDiffer(i, index);
    }
  }

  lemma SetRow(meta: map<string, Bytes>, index: u64, row: Bytes)
    requires MetaOk(meta)
    ensures var after := meta[EpochKey(index) := row];
            MetaOk(after) && Rows(after) == Rows(meta)[index := row] && BaseRow(after) == BaseRow(meta)
  {
    KeyParsesBack(index);
    var after := meta[EpochKey(index) := row];
    forall k | k in after ensures RowKeyOk(after, k) {
      if k != EpochKey(index) {
        assert RowKeyOk(meta, k);
      }
    }
    forall i: nat
      ensures i in Rows(after) <==> i in Rows(meta)[index := row]
      ensures i in Rows(after) ==> Rows(after)[i] == Rows(meta)[index := row][i]
    {
      SetRowAt(meta, index, row, i);
    }
    assert Rows(after) == Rows(meta)[index := row];
  }

  lemma SetBase(meta: map<string, Bytes>, row: Bytes)
    requires MetaOk(meta) && |row| == 8
    ensures var after := meta[SNAPSHOT_BASE_HEIGHT := row];
            MetaOk(after) && Rows(after) == Rows(meta) && BaseRow(after) == Some(FromLittleEndian(row))
  {
    BaseIsNoEpoch();
    var after := meta[SNAPSHOT_BASE_HEIGHT := row];
    forall k | k in after ensures RowKeyOk(after, k) {
      if k != SNAPSHOT_BASE_HEIGHT {
        assert RowKeyOk(meta, k);
      }
    }
    assert Indices(after) == Indices(meta);
    assert Rows(after) == Rows(meta) by {
      forall i | i in Rows(meta) ensures Rows(after)[i] == Rows(meta)[i] {
        IndexedRow(meta, i);
        KeyParsesBack(i);
      }
    }
  }

  // ---- Walking the digest rows in key order ----

  predicate Ascending(rows: seq<(nat, Bytes)>) {
    forall i, j :: 0 <= i < j < |rows| ==> rows[i].0 < rows[j].0
  }

  /** `rows` lists `digests`, each row once if ascending. */
  ghost predicate Lists(rows: seq<(nat, Bytes)>, digests: map<nat, Bytes>) {
    && (forall i :: 0 <= i < |rows| ==> rows[i].0 in digests && digests[rows[i].0] == rows[i].1)
    && (forall k :: k in digests ==> Listed(rows, k))
  }

  ghost predicate Listed(rows: seq<(nat, Bytes)>, index: nat) {
    exists i :: 0 <= i < |rows| && rows[i].0 == index
  }

  /** The rows whose keys precede everything in `rest`. */
  ghost predicate Walked(meta: map<string, Bytes>, rest: set<string>, rows: seq<(nat, Bytes)>)
    requires MetaOk(meta)
  {
    && Ascending(rows)
    && (forall i :: 0 <= i < |rows| ==> rows[i].0 in Rows(meta) && Rows(meta)[rows[i].0] == rows[i].1)
    && (forall i, k :: 0 <= i < |rows| && k in rest && KeyIndex(k).Some? ==> rows[i].0 < KeyIndex(k).value)
    && (forall k :: k in meta && k !in rest && KeyIndex(k).Some? ==> Listed(rows, KeyIndex(k).value))
  }

  lemma WalkOne(meta: map<string, Bytes>, rest: set<string>, rows: seq<(nat, Bytes)>, key: string)
    requires MetaOk(meta) && rest <= meta.Keys && Walked(meta, rest, rows) && IsFirst(rest, key)
    ensures Walked(meta, rest - {key}, if KeyIndex(key).Some? then rows + [(KeyIndex(key).value, meta[key])] else rows)
  {
    var index := KeyIndex(key);
    if index.Some? {
      BaseIsNoEpoch();
      IndexedRow(meta, index.value);
      assert RowKeyOk(meta, key);
      assert key == EpochKey(index.value);
      var longer := rows + [(index.value, meta[key])];
      forall k | k in rest - {key} && KeyIndex(k).Some? ensures index.value < KeyIndex(k).value {
        FirstIsLeast(meta, rest, key, k);
      }
      forall k | k in meta && k !in rest - {key} && KeyIndex(k).Some? ensures Listed(longer, KeyIndex(k).value) {
        assert longer[|rows|].0 == index.value;
        if k != key {
          ListedStays(rows, KeyIndex(k).value, (index.value, meta[key]));
        }
      }
    }
  }

  lemma ListedStays(rows: seq<(nat, Bytes)>, index: nat, row: (nat, Bytes))
    requires Listed(rows, index)
    ensures Listed(rows + [row], index)
  {
    var i :| 0 <= i < |rows| && rows[i].0 == index;
    assert (rows + [row])[i].0 == index;
  }

  lemma FirstIsLeast(meta: map<string, Bytes>, rest: set<string>, key: string, k: string)
    requires MetaOk(meta) && rest <= meta.Keys && IsFirst(rest, key) && k in rest && k != key
    requires KeyIndex(key).Some? && KeyIndex(k).Some?
    ensures KeyIndex(key).value < KeyIndex(k).value
  {
    BaseIsNoEpoch();
    assert RowKeyOk(meta, key) && RowKeyOk(meta, k);
    KeysSort(KeyIndex(key).value, KeyIndex(k).value);
  }

  lemma WalkedAll(meta: map<string, Bytes>, rows: seq<(nat, Bytes)>)
    requires MetaOk(meta) && Walked(meta, {}, rows)
    ensures Ascending(rows) && Lists(rows, Rows(meta))
  {
    forall k | k in Rows(meta) ensures Listed(rows, k) {
      IndexedRow(meta, k);
      KeyParsesBack(k);
    }
  }

  // ---- Byte-budgeted reads ----

  /** The rows at heights in `lo..hi`, `hi` excluded. */
  function Slice(t: Table, lo: nat, hi: nat): Table {
    map h | h in t && lo <= h < hi :: t[h]
  }

  /** Stored bytes at heights in `lo..hi`, `hi` excluded. */
  function StoredBytes(t: Table, lo: nat, hi: nat): nat
    decreases hi
  {
    if hi <= lo then 0 else StoredBytes(t, lo, hi - 1) + (if hi - 1 in t then |t[hi - 1]| else 0)
  }

  lemma {:induction false} StoredBytesSplit(t: Table, lo: nat, mid: nat, hi: nat)
    requires lo <= mid <= hi
    ensures StoredBytes(t, lo, hi) == StoredBytes(t, lo, mid) + StoredBytes(t, mid, hi)
    decreases hi
  {
    if mid < hi {
      StoredBytesSplit(t, lo, mid, hi - 1);
    }
  }

  lemma {:induction false} NothingStored(t: Table, lo: nat, hi: nat)
    requires forall h :: h in t ==> !(lo <= h < hi)
    ensures StoredBytes(t, lo, hi) == 0
    decreases hi
  {
    if lo < hi {
      NothingStored(t, lo, hi - 1);
    }
  }

  /** One row alone in a stretch of the table. */
  lemma OneStored(t: Table, lo: nat, h: nat, hi: nat)
    requires h in t && lo <= h < hi && forall k :: k in t && lo <= k < hi ==> k == h
    ensures StoredBytes(t, lo, hi) == |t[h]|
  {
    StoredBytesSplit(t, lo, h, hi);
    StoredBytesSplit(t, h, h + 1, hi);
    NothingStored(t, lo, h);
    NothingStored(t, h + 1, hi);
    assert StoredBytes(t, h, h) == 0;
  }

  class Cache {
    const p: Primitives
    var blocks: Table
    var meta: map<string, Bytes>

    ghost predicate Valid()
      reads this
    {
      MetaOk(meta)
    }

    ghost function View(): Store
      requires Valid()
      reads this
    {
      Store(blocks, Rows(meta), BaseRow(meta))
    }

    constructor (p: Primitives)
      ensures Valid() && this.p == p && View() == EMPTY
    {
      this.p := p;
      blocks := map[];
      meta := map[];
    }

    /** `append`: every block in one transaction, or an error that leaves the cache as it was. */
    method Append(items: seq<Result<CompactBlock, CacheError>>, base: Option<u64>) returns (r: Result<(), CacheError>)
      requires Valid()
      modifies this
      ensures Valid()
      ensures r.Ok? <==> BlockStore.Append(p, old(View()), items, base).Ok?
      ensures r.Ok? ==> View() == BlockStore.Append(p, old(View()), items, base).value
      ensures r.Err? ==> r.error == BlockStore.Append(p, old(View()), items, base).error && View() == old(View())
    {
      var table := blocks;
      var expected := NextHeight(blocks);
      var appended := false;
      var i := 0;
      while i < |items|
        invariant 0 <= i <= |items|
        invariant appended <==> i > 0
        invariant AppendItems(p, blocks, items, NextHeight(blocks)) == AppendItems(p, table, items[i..], expected)
        invariant blocks == old(blocks) && meta == old(meta)
      {
        match items[i] {
          case Err(e) =>
            return Err(e);
          case Ok(block) =>
            if expected.Some? && block.height != expected.value {
              return Err(Corruption);
            }
            table := table[block.height := p.encode(block)];
            expected := Some(block.height + 1);
            appended := true;
        }
        assert items[i..][1..] == items[i + 1..];
        i := i + 1;
      }
      if !appended {
        return Ok(());
      }
      blocks := table;
      if base.Some? {
        var row := LittleEndian(base.value, 8);
        SetBase(meta, row);
        U64RoundTrip(base.value);
        meta := meta[SNAPSHOT_BASE_HEIGHT := row];
      }
      r := Ok(());
    }

    /** `remove_from`: blocks and the metadata describing them go in one transaction. */
    method RemoveFrom(height: nat)
      requires Valid()
      modifies this
      ensures Valid() && View() == BlockStore.RemoveFrom(old(View()), height)
    {
      var dropped := EpochIndex(height);
      var drops := false;
      if SNAPSHOT_BASE_HEIGHT in meta {
        drops := height <= FromLittleEndian(meta[SNAPSHOT_BASE_HEIGHT]);
      }
      RetainedRows(meta, drops, dropped);
      blocks := Below(blocks, height);
      meta := Retained(meta, drops, dropped);
    }

    /** `reorg`: keep `height` itself. */
    method Reorg(height: nat)
      requires Valid()
      modifies this
      ensures Valid() && View() == BlockStore.Reorg(old(View()), height)
    {
      RemoveFrom(height + 1);
    }

    method EpochDigest(index: u64) returns (row: Option<Bytes>)
      requires Valid()
      ensures row.Some? <==> index in View().digests
      ensures row.Some? ==> row.value == View().digests[index]
    {
      IndexedRow(meta, index);
      row := if EpochKey(index) in meta then Some(meta[EpochKey(index)]) else None;
    }

    method SetEpochDigest(index: u64, row: Bytes)
      requires Valid()
      modifies this
      ensures Valid() && View() == old(View()).(digests := old(View()).digests[index := row])
    {
      SetRow(meta, index, row);
      meta := meta[EpochKey(index) := row];
    }

    /** `epoch_digests`: every row once, ascending by epoch, from a walk in key order. */
    method EpochDigests() returns (rows: seq<(nat, Bytes)>)
      requires Valid()
      ensures Ascending(rows) && Lists(rows, View().digests)
    {
      rows := [];
      var rest := meta.Keys;
      while rest != {}
        invariant rest <= meta.Keys
        invariant Walked(meta, rest, rows)
        decreases |rest|
      {
        var key := FirstKey(rest);
        WalkOne(meta, rest, rows, key);
        var index := KeyIndex(key);
        if index.Some? {
          rows := rows + [(index.value, meta[key])];
        }
        rest := rest - {key};
      }
      WalkedAll(meta, rows);
    }
  }

  /** What a bounded read promises: `from..=to` is the near side of the request and `rows` is exactly
      what the table holds there. It fits the budget unless it is a single row, and it stops short only
      where one more row would not fit. */
  ghost predicate ChunkOk(t: Table, low: nat, high: nat, descending: bool, maxBytes: nat, rows: Table, from: nat, to: nat)
  {
    && low <= from <= to <= high
    && (if descending then to == high else from == low)
    && rows == Slice(t, from, to + 1)
    && (|rows| <= 1 || StoredBytes(t, from, to + 1) <= maxBytes)
    && ((from, to) != (low, high) ==>
          && rows != map[]
          && (if descending
              then from - 1 in t && StoredBytes(t, from - 1, to + 1) > maxBytes
              else to + 1 in t && StoredBytes(t, from, to + 2) > maxBytes))
  }

  /** The read so far: `a..b` is what remains of the request. */
  ghost predicate Reading(t: Table, low: nat, high: nat, descending: bool, maxBytes: nat,
                          a: nat, b: nat, rows: Table, held: nat)
  {
    && low <= a <= b <= high + 1
    && (|rows| <= 1 || held <= maxBytes)
    && if descending
       then a == low && rows == Slice(t, b, high + 1) && held == StoredBytes(t, b, high + 1)
       else b == high + 1 && rows == Slice(t, low, a) && held == StoredBytes(t, low, a)
  }

  ghost predicate IsNearest(t: Table, a: nat, b: nat, height: nat, descending: bool) {
    && height in t && a <= height < b
    && forall k :: k in t && a <= k < b ==> if descending then k <= height else height <= k
  }

  /** The entry the table's iterator yields next from `a..b`. */
  function Next(t: Table, a: nat, b: nat, descending: bool): (height: nat)
    requires Slice(t, a, b).Keys != {}
    ensures IsNearest(t, a, b, height, descending)
  {
    var entries := Slice(t, a, b).Keys;
    assert forall k :: k in t && a <= k < b ==> k in entries;
    if descending then Highest(entries) else Lowest(entries)
  }

  lemma TakeHere(t: Table, low: nat, high: nat, descending: bool, maxBytes: nat,
                 a: nat, b: nat, rows: Table, held: nat, height: nat)
    requires Reading(t, low, high, descending, maxBytes, a, b, rows, held)
    requires IsNearest(t, a, b, height, descending)
    requires rows == map[] || held + |t[height]| <= maxBytes
    ensures Reading(t, low, high, descending, maxBytes,
                    if descending then a else height + 1, if descending then height else b,
                    rows[height := t[height]], held + |t[height]|)
  {
    var lo, hi := if descending then b else low, if descending then high + 1 else a;
    TakeOne(t, a, b, lo, hi, height, descending);
    assert rows == map[] ==> rows[height := t[height]].Keys == {height};
  }

  lemma StopHere(t: Table, low: nat, high: nat, descending: bool, maxBytes: nat,
                 a: nat, b: nat, rows: Table, held: nat, height: nat)
    requires Reading(t, low, high, descending, maxBytes, a, b, rows, held)
    requires IsNearest(t, a, b, height, descending)
    requires rows != map[] && held + |t[height]| > maxBytes
    ensures if descending then ChunkOk(t, low, high, descending, maxBytes, rows, height + 1, high)
            else low <= height - 1 && ChunkOk(t, low, high, descending, maxBytes, rows, low, height - 1)
  {
    var lo, hi := if descending then b else low, if descending then high + 1 else a;
    StopBounds(t, a, b, lo, hi, height, descending);
  }

  /** Taking the nearest row of `a..b` onto the side already read. */
  lemma TakeOne(t: Table, a: nat, b: nat, lo: nat, hi: nat, height: nat, descending: bool)
    requires IsNearest(t, a, b, height, descending)
    requires if descending then lo == b <= hi else lo <= hi == a
    ensures var lo', hi' := if descending then height else lo, if descending then hi else height + 1;
            && Slice(t, lo', hi') == Slice(t, lo, hi)[height := t[height]]
            && StoredBytes(t, lo', hi') == StoredBytes(t, lo, hi) + |t[height]|
  {
    if descending {
      StoredBytesSplit(t, height, b, hi);
      OneStored(t, height, height, b);
    } else {
      StoredBytesSplit(t, lo, a, height + 1);
      OneStored(t, a, height, height + 1);
    }
  }

  /** Stopping before the nearest row of `a..b`: the gap up to it holds nothing. */
  lemma StopBounds(t: Table, a: nat, b: nat, lo: nat, hi: nat, height: nat, descending: bool)
    requires IsNearest(t, a, b, height, descending) && Slice(t, lo, hi) != map[]
    requires if descending then lo == b <= hi else lo <= hi == a
    ensures if descending
            then && height + 1 <= hi - 1
                 && Slice(t, height + 1, hi) == Slice(t, lo, hi)
                 && StoredBytes(t, height + 1, hi) == StoredBytes(t, lo, hi)
                 && StoredBytes(t, height, hi) == StoredBytes(t, lo, hi) + |t[height]|
            else && lo <= height - 1
                 && Slice(t, lo, height) == Slice(t, lo, hi)
                 && StoredBytes(t, lo, height) == StoredBytes(t, lo, hi)
                 && StoredBytes(t, lo, height + 1) == StoredBytes(t, lo, hi) + |t[height]|
  {
    var k :| k in Slice(t, lo, hi);
    assert lo <= k < hi;
    TakeOne(t, a, b, lo, hi, height, descending);
    if descending {
      StoredBytesSplit(t, height + 1, b, hi);
      NothingStored(t, height + 1, b);
    } else {
      StoredBytesSplit(t, lo, a, height);
      NothingStored(t, a, height);
    }
  }

  lemma NothingLeft(t: Table, low: nat, high: nat, descending: bool, maxBytes: nat,
                    a: nat, b: nat, rows: Table, held: nat)
    requires low <= high && Reading(t, low, high, descending, maxBytes, a, b, rows, held)
    requires Slice(t, a, b).Keys == {}
    ensures ChunkOk(t, low, high, descending, maxBytes, rows, low, high)
  {
    assert forall h :: h in t && a <= h < b ==> h in Slice(t, a, b).Keys;
    NothingStored(t, a, b);
    StoredBytesSplit(t, low, if descending then b else a, high + 1);
    assert rows == Slice(t, low, high + 1);
  }

  /** `read_chunk`, over the table as one read transaction sees it: the rows on the near side of `low..=high`,
      as many as fit `maxBytes`, together with the part `from..=to` of the request they settle. At least one
      row is always taken. */
  method ReadChunk(t: Table, low: nat, high: nat, descending: bool, maxBytes: nat) returns (rows: Table, from: nat, to: nat)
    requires low <= high
    ensures ChunkOk(t, low, high, descending, maxBytes, rows, from, to)
  {
    rows := map[];
    var held: nat, a: nat, b: nat := 0, low, high + 1;
    while Slice(t, a, b).Keys != {}
      invariant Reading(t, low, high, descending, maxBytes, a, b, rows, held)
      decreases b - a
    {
      var height := Next(t, a, b, descending);
      var size := |t[height]|;
      if rows != map[] && held + size > maxBytes {
        StopHere(t, low, high, descending, maxBytes, a, b, rows, held, height);
        from, to := if descending then height + 1 else low, if descending then high else height - 1;
        return;
      }
      TakeHere(t, low, high, descending, maxBytes, a, b, rows, held, height);
      held := held + size;
      rows := rows[height := t[height]];
      a, b := if descending then a else height + 1, if descending then height else b;
    }
    from, to := low, high;
    NothingLeft(t, low, high, descending, maxBytes, a, b, rows, held);
  }
}
