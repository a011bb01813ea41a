/** The cache as a value: the block table, the epoch digest rows and the imported base, with the two
    transactions that change them, and what it means for the table to hold one chain. */
module BlockStore {
  import opened Base
  import opened Blocks
  import opened Format

  datatype CacheError = Undecodable | Corruption

  /** Height to stored protobuf bytes. */
  type Table = map<nat, Bytes>

  datatype Store = Store(blocks: Table, digests: map<nat, Bytes>, base: Option<nat>)

  const EMPTY: Store := Store(map[], map[], None)

  // ---- Reads ----

  /** Where the table begins and ends, unless it is empty. */
  function Range(t: Table): Option<(nat, nat)> {
    if t.Keys == {} then None else Some((Lowest(t.Keys), Highest(t.Keys)))
  }

  function TipHeight(t: Table): Option<nat> {
    if t.Keys == {} then None else Some(Highest(t.Keys))
  }

  function GetBlock(p: Primitives, t: Table, height: nat): Result<Option<CompactBlock>, CacheError> {
    if height !in t then Ok(None)
    else
      match p.decode(t[height])
      case Some(b) => Ok(Some(b))
      case None => Err(Undecodable)
  }

  /** What a block above the tip has to name as its predecessor. */
  function TipHash(p: Primitives, t: Table): Result<Option<Bytes>, CacheError> {
    if t.Keys == {} then Ok(None)
    else
      match p.decode(t[Highest(t.Keys)])
      case Some(b) => Ok(Some(b.hash))
      case None => Err(Undecodable)
  }

  // ---- Transactions ----

  function Below<T>(t: map<nat, T>, height: nat): map<nat, T> {
    map h | h in t && h < height :: t[h]
  }

  /** Cut the table at `height`, and with it every digest and base that would speak of a block cut away. */
  function RemoveFrom(s: Store, height: nat): Store {
    Store(
      Below(s.blocks, height),
      Below(s.digests, EpochIndex(height)),
      if s.base.Some? && height <= s.base.value then None else s.base)
  }

  function Reorg(s: Store, height: nat): Store { RemoveFrom(s, height + 1) }

  /** What a truncation takes and what it leaves: the blocks below `height`, the rows of the epochs that end
      below it, and a base that lies below it, each as it was; and nothing else. */
  lemma RemoveFromExactly(s: Store, height: nat)
    requires height < HEIGHT_LIMIT
    ensures var r := RemoveFrom(s, height);
            && (forall h: nat :: h in r.blocks <==> h in s.blocks && h < height)
            && (forall h: nat :: h in r.blocks ==> r.blocks[h] == s.blocks[h])
            && (forall i: nat :: i in r.digests <==> i in s.digests && EpochLast(i) < height)
            && (forall i: nat :: i in r.digests ==> r.digests[i] == s.digests[i])
            && r.base == if s.base.Some? && s.base.value < height then s.base else None
  {
    forall i: nat ensures EpochLast(i) < height <==> i < EpochIndex(height) {
      EndsBelow(i, height);
    }
  }

  lemma RemoveAll(s: Store)
    ensures RemoveFrom(s, 0) == EMPTY
  {
    assert Below(s.blocks, 0) == map[];
    assert Below(s.digests, EpochIndex(0)) == map[];
  }

  lemma EndsBelow(index: nat, height: nat)
    requires height < HEIGHT_LIMIT
    ensures EpochLast(index) < height <==> index < EpochIndex(height)
  {
  }

  /** Insert blocks one after another, each at the height the previous one leads to. */
  function AppendItems(p: Primitives, t: Table, items: seq<Result<CompactBlock, CacheError>>, expected: Option<nat>)
    : Result<Table, CacheError>
    decreases |items|
  {
    if items == [] then Ok(t)
    else
      match items[0]
      case Err(e) => Err(e)
      case Ok(b) =>
        if expected.Some? && b.height != expected.value then Err(Corruption)
        else AppendItems(p, t[b.height := p.encode(b)], items[1..], Some(b.height + 1))
  }

  function NextHeight(t: Table): Option<nat> {
    match TipHeight(t)
    case Some(tip) => Some(tip + 1)
    case None => None
  }

  /** The append transaction: all of `items` or nothing, recording `base` only along with a block. */
  function Append(p: Primitives, s: Store, items: seq<Result<CompactBlock, CacheError>>, base: Option<nat>)
    : Result<Store, CacheError>
  {
    match AppendItems(p, s.blocks, items, NextHeight(s.blocks))
    case Err(e) => Err(e)
    case Ok(t) => Ok(if items == [] then s else s.(blocks := t, base := if base.Some? then base else s.base))
  }

  /** What a successful append leaves besides the blocks: every digest row, and the base as it was unless one came
      along with a block. */
  lemma AppendExactly(p: Primitives, s: Store, batch: seq<CompactBlock>, base: Option<nat>)
    ensures Append(p, s, Oks(batch), base).Ok? <==>
              Consecutive(batch) && (batch != [] && s.blocks.Keys != {} ==> batch[0].height == Highest(s.blocks.Keys) + 1)
    ensures Append(p, s, Oks(batch), base).Ok? ==>
              Append(p, s, Oks(batch), base).value
              == Store(Extended(p, s.blocks, batch), s.digests, if batch != [] && base.Some? then base else s.base)
  {
    AppendItemsExact(p, s.blocks, Oks(batch), NextHeight(s.blocks), batch);
  }

  function Oks(batch: seq<CompactBlock>): (r: seq<Result<CompactBlock, CacheError>>)
    ensures |r| == |batch| && forall i :: 0 <= i < |batch| ==> r[i] == Ok(batch[i])
  {
    seq(|batch|, i requires 0 <= i < |batch| => Ok(batch[i]))
  }

  // ---- One chain ----

  ghost predicate RowOk(p: Primitives, t: Table, h: nat)
    requires h in t
  {
    var b := p.decode(t[h]);
    b.Some? && b.value.height == h
  }

  /** The block stored at `h`. */
  function BlockAt(p: Primitives, t: Table, h: nat): CompactBlock
    requires h in t && p.decode(t[h]).Some?
  {
    p.decode(t[h]).value
  }

  ghost predicate Contiguous<T>(t: map<nat, T>) {
    t.Keys == {} || forall h: nat :: Lowest(t.Keys) <= h <= Highest(t.Keys) ==> h in t
  }

  /** The heights form one interval, each key is its block's height, each row is what `append` writes,
      and each block names the one below as its predecessor. */
  ghost predicate IsChain(p: Primitives, t: Table) {
    && Contiguous(t)
    && (forall h :: h in t ==> RowOk(p, t, h) && t[h] == p.encode(BlockAt(p, t, h)))
    && (forall h :: h in t && h + 1 in t ==> BlockAt(p, t, h + 1).prevHash == BlockAt(p, t, h).hash)
  }

  /** `b` may follow the tip of `t`. */
  ghost predicate Follows(p: Primitives, t: Table, b: CompactBlock) {
    t.Keys != {} ==>
      var tip := Highest(t.Keys);
      b.height == tip + 1 && p.decode(t[tip]).Some? && b.prevHash == BlockAt(p, t, tip).hash
  }

  lemma ExtendBounds(t: Table, h: nat, row: Bytes)
    requires t.Keys != {} ==> h == Highest(t.Keys) + 1
    ensures h in t[h := row].Keys
    ensures Highest(t[h := row].Keys) == h
    ensures Lowest(t[h := row].Keys) == if t.Keys == {} then h else Lowest(t.Keys)
    ensures Contiguous(t) ==> Contiguous(t[h := row])
  {
    var u := t[h := row];
    assert u.Keys == t.Keys + {h};
    assert h in u.Keys;
    if t.Keys != {} {
      assert Lowest(t.Keys) in u.Keys;
    }
  }

  lemma ExtendKeepsChain(p: Primitives, t: Table, b: CompactBlock)
    requires p.Lawful() && IsChain(p, t) && Follows(p, t, b)
    ensures IsChain(p, t[b.height := p.encode(b)])
  {
    ExtendBounds(t, b.height, p.encode(b));
    var u := t[b.height := p.encode(b)];
    forall h | h in u && h + 1 in u
      ensures BlockAt(p, u, h + 1).prevHash == BlockAt(p, u, h).hash
    {
      if h + 1 == b.height {
        assert h in t;
      }
    }
  }

  /** The table with `batch` written on top. */
  function Extended(p: Primitives, t: Table, batch: seq<CompactBlock>): Table
    decreases |batch|
  {
    if batch == [] then t else Extended(p, t[batch[0].height := p.encode(batch[0])], batch[1..])
  }

  ghost predicate Consecutive(batch: seq<CompactBlock>) {
    forall i, j :: 0 <= i < j < |batch| && j == i + 1 ==> batch[j].height == batch[i].height + 1
  }

  ghost predicate HashLinked(batch: seq<CompactBlock>) {
    forall i, j :: 0 <= i < j < |batch| && j == i + 1 ==> batch[j].prevHash == batch[i].hash
  }

  /** An append succeeds exactly on consecutive decodable blocks that start right above the tip. */
  lemma {:induction false} AppendItemsExact(
    p: Primitives, t: Table, items: seq<Result<CompactBlock, CacheError>>, expected: Option<nat>, batch: seq<CompactBlock>)
    requires |batch| == |items| && forall i :: 0 <= i < |items| && items[i].Ok? ==> items[i].value == batch[i]
    ensures AppendItems(p, t, items, expected).Ok?
            <==> && (forall i :: 0 <= i < |items| ==> items[i].Ok?)
                 && Consecutive(batch)
                 && (items != [] && expected.Some? ==> batch[0].height == expected.value)
    ensures AppendItems(p, t, items, expected).Ok?
            ==> AppendItems(p, t, items, expected).value == Extended(p, t, batch)
    decreases |items|
  {
    if items != [] && items[0].Ok? {
      var b := items[0].value;
      AppendItemsExact(p, t[b.height := p.encode(b)], items[1..], Some(b.height + 1), batch[1..]);
      assert Consecutive(batch) <==> Consecutive(batch[1..]) && (|batch| > 1 ==> batch[1].height == b.height + 1) by {
        if Consecutive(batch[1..]) && (|batch| > 1 ==> batch[1].height == b.height + 1) {
          forall i | 0 < i < |batch| ensures batch[i].height == batch[i - 1].height + 1 {
            if i > 1 {
              assert batch[1..][i - 1].height == batch[1..][i - 2].height + 1;
            }
          }
        }
        if Consecutive(batch) {
          forall i | 0 < i < |batch[1..]| ensures batch[1..][i].height == batch[1..][i - 1].height + 1 {
            assert batch[i + 1].height == batch[i].height + 1;
          }
        }
      }
      assert (forall i :: 0 <= i < |items| ==> items[i].Ok?) <==> (forall i :: 0 <= i < |items[1..]| ==> items[1..][i].Ok?) by {
        if forall i :: 0 <= i < |items[1..]| ==> items[1..][i].Ok? {
          forall i | 0 <= i < |items| ensures items[i].Ok? {
            if i > 0 {
              assert items[1..][i - 1].Ok?;
            }
          }
        }
      }
    }
  }

  /** A hash-linked run that follows the tip keeps the table one chain. */
  lemma {:induction false} ExtendedKeepsChain(p: Primitives, t: Table, batch: seq<CompactBlock>)
    requires p.Lawful() && IsChain(p, t)
    requires Consecutive(batch) && HashLinked(batch)
    requires batch != [] ==> Follows(p, t, batch[0])
    ensures IsChain(p, Extended(p, t, batch))
    decreases |batch|
  {
    if batch != [] {
      var b := batch[0];
      var u := t[b.height := p.encode(b)];
      ExtendKeepsChain(p, t, b);
      ExtendBounds(t, b.height, p.encode(b));
      TailOk(batch);
      ExtendedKeepsChain(p, u, batch[1..]);
    }
  }

  lemma TailOk(batch: seq<CompactBlock>)
    requires batch != [] && Consecutive(batch)
    ensures Consecutive(batch[1..])
    ensures HashLinked(batch) ==> HashLinked(batch[1..])
    ensures |batch| > 1 ==> batch[1].height == batch[0].height + 1
  {
    forall i | 0 < i < |batch[1..]|
      ensures batch[1..][i].height == batch[1..][i - 1].height + 1
      ensures HashLinked(batch) ==> batch[1..][i].prevHash == batch[1..][i - 1].hash
    {
      assert batch[i + 1].height == batch[i].height + 1;
      assert HashLinked(batch) ==> batch[i + 1].prevHash == batch[i].hash;
    }
  }

  lemma {:induction false} ConsecutiveHeights(batch: seq<CompactBlock>, i: nat)
    requires Consecutive(batch) && i < |batch|
    ensures batch[i].height == batch[0].height + i
  {
    if i > 0 {
      ConsecutiveHeights(batch, i - 1);
    }
  }

  /** `u` is `t` with `batch` at the heights from `first` on, and nothing else touched. */
  ghost predicate Adds(p: Primitives, t: Table, first: nat, batch: seq<CompactBlock>, u: Table) {
    && (forall h: nat :: h in u <==> h in t || first <= h < first + |batch|)
    && (forall h: nat :: h in u ==>
          u[h] == if first <= h < first + |batch| then p.encode(batch[h - first]) else t[h])
  }

  lemma AddsOneMore(p: Primitives, t: Table, b: CompactBlock, rest: seq<CompactBlock>, u: Table)
    requires Adds(p, t[b.height := p.encode(b)], b.height + 1, rest, u)
    ensures Adds(p, t, b.height, [b] + rest, u)
  {
    var first, batch := b.height, [b] + rest;
    forall h: nat | h in u
      ensures u[h] == if first <= h < first + |batch| then p.encode(batch[h - first]) else t[h]
    {
      if first < h < first + |batch| {
        assert batch[h - first] == rest[h - (first + 1)];
      }
    }
  }

  lemma {:induction false} ExtendedRows(p: Primitives, t: Table, batch: seq<CompactBlock>)
    requires Consecutive(batch) && batch != []
    ensures Adds(p, t, batch[0].height, batch, Extended(p, t, batch))
    decreases |batch|
  {
    TailOk(batch);
    var b, rest := batch[0], batch[1..];
    var t' := t[b.height := p.encode(b)];
    if rest == [] {
      assert Adds(p, t', b.height + 1, rest, t');
    } else {
      ExtendedRows(p, t', rest);
    }
    AddsOneMore(p, t, b, rest, Extended(p, t', rest));
    assert [b] + rest == batch;
  }

  /** Bounds of a table a batch was appended to. */
  lemma ExtendedBounds(p: Primitives, t: Table, batch: seq<CompactBlock>)
    requires Consecutive(batch) && batch != []
    requires t.Keys != {} ==> batch[0].height == Highest(t.Keys) + 1
    ensures var u := Extended(p, t, batch);
            && u.Keys != {}
            && Highest(u.Keys) == batch[0].height + |batch| - 1
            && Lowest(u.Keys) == (if t.Keys == {} then batch[0].height else Lowest(t.Keys))
  {
    ExtendedRows(p, t, batch);
    var u := Extended(p, t, batch);
    var top: nat := batch[0].height + |batch| - 1;
    assert top in u;
    if t.Keys == {} {
      assert batch[0].height in u;
    } else {
      assert Lowest(t.Keys) in u;
    }
  }

  lemma BelowBounds<T>(t: map<nat, T>, height: nat)
    requires t.Keys != {} && Contiguous(t) && Lowest(t.Keys) < height
    ensures Below(t, height).Keys != {}
    ensures Lowest(Below(t, height).Keys) == Lowest(t.Keys)
    ensures Highest(Below(t, height).Keys) == Min(Highest(t.Keys), height - 1)
    ensures Contiguous(Below(t, height))
  {
    var u := Below(t, height);
    var top := Min(Highest(t.Keys), height - 1);
    assert top in t && top in u.Keys;
    assert Lowest(t.Keys) in u.Keys;
  }

  lemma BelowEmpty<T>(t: map<nat, T>, height: nat)
    requires t.Keys == {} || height <= Lowest(t.Keys)
    ensures Below(t, height) == map[]
  {
  }

  /** Truncation keeps the table one chain. */
  lemma BelowKeepsChain(p: Primitives, t: Table, height: nat)
    requires IsChain(p, t)
    ensures IsChain(p, Below(t, height))
  {
    if t.Keys != {} && Lowest(t.Keys) < height {
      BelowBounds(t, height);
    } else {
      BelowEmpty(t, height);
    }
  }
}
