/** Pruning compact blocks to the requested value pools. */
module Filter {
  import opened Base
  import opened Blocks

  const TRANSPARENT: int := 1
  const SAPLING: int := 2
  const ORCHARD: int := 3
  const IRONWOOD: int := 4

  datatype Pools = Pools(transparent: bool, sapling: bool, orchard: bool, ironwood: bool)

  // ---- Resolving a request ----

  function Resolve(types: seq<int>, transparent: bool, defaultsToShielded: bool): Pools {
    Pools(transparent,
          defaultsToShielded || SAPLING in types,
          defaultsToShielded || ORCHARD in types,
          defaultsToShielded || IRONWOOD in types)
  }

  function FromPoolTypes(types: seq<int>): Pools {
    Resolve(types, TRANSPARENT in types, types == [])
  }

  predicate AllTransparent(types: seq<int>) {
    forall t :: t in types ==> t == TRANSPARENT
  }

  function FromPoolTypesDroppingTransparent(types: seq<int>): Pools {
    Resolve(types, false, AllTransparent(types))
  }

  function WithoutTransparent(types: seq<int>): seq<int> {
    if types == [] then []
    else if types[0] == TRANSPARENT then WithoutTransparent(types[1..])
    else [types[0]] + WithoutTransparent(types[1..])
  }

  lemma {:induction false} WithoutTransparentHolds(types: seq<int>, t: int)
    ensures t in WithoutTransparent(types) <==> t in types && t != TRANSPARENT
  {
    if types != [] {
      WithoutTransparentHolds(types[1..], t);
      assert types == [types[0]] + types[1..];
    }
  }

  /** Dropping transparent resolves exactly as the ordinary resolver does on the list without it. */
  lemma DroppingIsRemoval(types: seq<int>)
    ensures FromPoolTypesDroppingTransparent(types) == FromPoolTypes(WithoutTransparent(types))
  {
    WithoutTransparentHolds(types, TRANSPARENT);
    WithoutTransparentHolds(types, SAPLING);
    WithoutTransparentHolds(types, ORCHARD);
    WithoutTransparentHolds(types, IRONWOOD);
    var rest := WithoutTransparent(types);
    if rest != [] {
      WithoutTransparentHolds(types, rest[0]);
    } else {
      forall t | t in types ensures t == TRANSPARENT {
        WithoutTransparentHolds(types, t);
      }
    }
  }

  // ---- Filtering ----

  function FilterTx(tx: CompactTx, pools: Pools): CompactTx {
    tx.(spends := if pools.sapling then tx.spends else [],
        outputs := if pools.sapling then tx.outputs else [],
        actions := if pools.orchard then tx.actions else [],
        ironwoodActions := if pools.ironwood then tx.ironwoodActions else [],
        vin := if pools.transparent then tx.vin else [],
        vout := if pools.transparent then tx.vout else [])
  }

  predicate HasComponents(tx: CompactTx) {
    tx.spends != [] || tx.outputs != [] || tx.actions != [] || tx.ironwoodActions != [] || tx.vin != [] || tx.vout != []
  }

  /** The filtered transactions that still carry something, in order. */
  function FilterTxs(vtx: seq<CompactTx>, pools: Pools): seq<CompactTx>
    decreases |vtx|
  {
    if vtx == [] then []
    else
      var n := |vtx| - 1;
      var tx := FilterTx(vtx[n], pools);
      FilterTxs(vtx[..n], pools) + (if HasComponents(tx) then [tx] else [])
  }

  function FilterBlock(b: CompactBlock, pools: Pools): CompactBlock {
    b.(vtx := FilterTxs(b.vtx, pools))
  }

  function Both(p: Pools, q: Pools): Pools {
    Pools(p.transparent && q.transparent, p.sapling && q.sapling, p.orchard && q.orchard, p.ironwood && q.ironwood)
  }

  lemma FilterTxTwice(tx: CompactTx, p: Pools, q: Pools)
    ensures FilterTx(FilterTx(tx, p), q) == FilterTx(tx, Both(p, q))
    ensures HasComponents(FilterTx(tx, Both(p, q))) ==> HasComponents(FilterTx(tx, p))
  {
  }

  lemma {:induction false} FilterTxsTwice(vtx: seq<CompactTx>, p: Pools, q: Pools)
    ensures FilterTxs(FilterTxs(vtx, p), q) == FilterTxs(vtx, Both(p, q))
    decreases |vtx|
  {
    if vtx != [] {
      var n := |vtx| - 1;
      FilterTxsTwice(vtx[..n], p, q);
      FilterTxTwice(vtx[n], p, q);
      var rest, kept := FilterTxs(vtx[..n], p), FilterTx(vtx[n], p);
      if HasComponents(kept) {
        assert (rest + [kept])[..|rest|] == rest;
      } else {
        assert rest + [] == rest && FilterTxs(rest, q) + [] == FilterTxs(rest, q);
      }
    }
  }

  /** Filtering by one set of pools and then another is filtering once by what they share. */
  lemma FilterTwice(b: CompactBlock, p: Pools, q: Pools)
    ensures FilterBlock(FilterBlock(b, p), q) == FilterBlock(b, Both(p, q))
  {
    FilterTxsTwice(b.vtx, p, q);
  }

  /** `filter_block_to_pools`: prune every transaction in place, then retain those left with something. */
  method FilterBlockToPools(block: CompactBlock, pools: Pools) returns (r: CompactBlock)
    ensures r == FilterBlock(block, pools)
  {
    var vtx := block.vtx;
    for i := 0 to |vtx|
      invariant |vtx| == |block.vtx|
      invariant forall k :: 0 <= k < i ==> vtx[k] == FilterTx(block.vtx[k], pools)
      invariant forall k :: i <= k < |vtx| ==> vtx[k] == block.vtx[k]
    {
      vtx := vtx[i := FilterTx(vtx[i], pools)];
    }
    var kept := Retain(block.vtx, vtx, pools);
    r := block.(vtx := kept);
  }

  method Retain(ghost original: seq<CompactTx>, vtx: seq<CompactTx>, ghost pools: Pools) returns (kept: seq<CompactTx>)
    requires |vtx| == |original| && forall k :: 0 <= k < |vtx| ==> vtx[k] == FilterTx(original[k], pools)
    ensures kept == FilterTxs(original, pools)
  {
    kept := [];
    for i := 0 to |vtx|
      invariant kept == FilterTxs(original[..i], pools)
    {
      assert original[..i + 1][..i] == original[..i];
      if HasComponents(vtx[i]) {
        kept := kept + [vtx[i]];
      }
    }
    assert original[..|vtx|] == original;
  }

  // ---- Nullifiers only ----

  function NullifierOnly(a: Action): Action { Action(a.nullifier, [], [], []) }

  function NullifiersOf(actions: seq<Action>): (r: seq<Action>)
    ensures |r| == |actions| && forall i :: 0 <= i < |r| ==> r[i] == NullifierOnly(actions[i])
  {
    seq(|actions|, i requires 0 <= i < |actions| => NullifierOnly(actions[i]))
  }

  function NullifyTx(tx: CompactTx): CompactTx {
    tx.(outputs := [], vin := [], vout := [],
        actions := NullifiersOf(tx.actions), ironwoodActions := NullifiersOf(tx.ironwoodActions))
  }

  function NullifyTxs(vtx: seq<CompactTx>): (r: seq<CompactTx>)
    ensures |r| == |vtx| && forall i :: 0 <= i < |r| ==> r[i] == NullifyTx(vtx[i])
  {
    seq(|vtx|, i requires 0 <= i < |vtx| => NullifyTx(vtx[i]))
  }

  function NullifiersOnly(b: CompactBlock): CompactBlock {
    b.(vtx := NullifyTxs(b.vtx),
       metadata := if b.metadata.Some? then Some(ChainMetadata(0, 0, 0)) else None)
  }

  /** What a range request applies to each block. */
  function Transform(b: CompactBlock, pools: Pools, nullifiers: bool): CompactBlock {
    if nullifiers then NullifiersOnly(FilterBlock(b, pools)) else FilterBlock(b, pools)
  }

  // ---- What every transform preserves ----

  /** Positions of the transactions that survive, ascending. */
  function Survivors(vtx: seq<CompactTx>, pools: Pools): seq<nat>
    decreases |vtx|
  {
    if vtx == [] then []
    else
      var n := |vtx| - 1;
      Survivors(vtx[..n], pools) + (if HasComponents(FilterTx(vtx[n], pools)) then [n] else [])
  }

  /** `at` lists where in `vtx` the transactions `kept` come from: exactly the places left with something. */
  ghost predicate Traces(vtx: seq<CompactTx>, pools: Pools, at: seq<nat>, kept: seq<CompactTx>) {
    && |at| == |kept|
    && (forall k :: 0 <= k < |at| ==> at[k] < |vtx| && kept[k] == FilterTx(vtx[at[k]], pools))
    && (forall j, k :: 0 <= j < k < |at| ==> at[j] < at[k])
    && (forall i :: 0 <= i < |vtx| && HasComponents(FilterTx(vtx[i], pools)) ==> i in at)
    && (forall k :: 0 <= k < |kept| ==> HasComponents(kept[k]))
  }

  lemma {:induction false} SurvivorsExact(vtx: seq<CompactTx>, pools: Pools)
    ensures Traces(vtx, pools, Survivors(vtx, pools), FilterTxs(vtx, pools))
    decreases |vtx|
  {
    if vtx != [] {
      var n := |vtx| - 1;
      SurvivorsExact(vtx[..n], pools);
      TracesMore(vtx, pools, Survivors(vtx[..n], pools), FilterTxs(vtx[..n], pools));
    }
  }

  lemma TracesMore(vtx: seq<CompactTx>, pools: Pools, at: seq<nat>, kept: seq<CompactTx>)
    requires vtx != [] && Traces(vtx[..|vtx| - 1], pools, at, kept)
    ensures var n := |vtx| - 1;
            var tx := FilterTx(vtx[n], pools);
            if HasComponents(tx) then Traces(vtx, pools, at + [n], kept + [tx])
            else Traces(vtx, pools, at + [], kept + [])
  {
    var n := |vtx| - 1;
    if HasComponents(FilterTx(vtx[n], pools)) {
      TracesLast(vtx, pools, at, kept);
    }
    assert at + [] == at && kept + [] == kept;
  }

  lemma TracesLast(vtx: seq<CompactTx>, pools: Pools, at: seq<nat>, kept: seq<CompactTx>)
    requires vtx != [] && Traces(vtx[..|vtx| - 1], pools, at, kept) && HasComponents(FilterTx(vtx[|vtx| - 1], pools))
    ensures Traces(vtx, pools, at + [|vtx| - 1], kept + [FilterTx(vtx[|vtx| - 1], pools)])
  {
  }

  /** Every transform keeps height, hash and previous hash, and the surviving transactions keep their order,
      index, txid and fee. */
  lemma TransformPreserves(b: CompactBlock, pools: Pools, nullifiers: bool)
    ensures var r := Transform(b, pools, nullifiers);
            var at := Survivors(b.vtx, pools);
            && r.height == b.height && r.hash == b.hash && r.prevHash == b.prevHash && r.time == b.time && r.header == b.header
            && |r.vtx| == |at|
            && (forall j, k :: 0 <= j < k < |at| ==> at[j] < at[k])
            && (forall k :: 0 <= k < |at| ==>
                  && at[k] < |b.vtx|
                  && r.vtx[k].index == b.vtx[at[k]].index && r.vtx[k].txid == b.vtx[at[k]].txid && r.vtx[k].fee == b.vtx[at[k]].fee
                  && r.vtx[k].spends == (if pools.sapling then b.vtx[at[k]].spends else []))
  {
    SurvivorsExact(b.vtx, pools);
  }

  // ---- What a client that asked for `types` receives ----

  /** A request that names no pool is for the shielded ones. */
  predicate Wants(types: seq<int>, pool: int) {
    if types == [] then pool != TRANSPARENT else pool in types
  }

  lemma ResolvesWhatIsWanted(types: seq<int>)
    ensures var pools := FromPoolTypes(types);
            && (pools.transparent <==> Wants(types, TRANSPARENT)) && (pools.sapling <==> Wants(types, SAPLING))
            && (pools.orchard <==> Wants(types, ORCHARD)) && (pools.ironwood <==> Wants(types, IRONWOOD))
  {
  }

  /** `r` is `actions`, or their nullifiers alone. */
  ghost predicate ActionsAs(actions: seq<Action>, r: seq<Action>, nullifiers: bool) {
    && |r| == |actions|
    && forall k :: 0 <= k < |r| ==>
         && r[k].nullifier == actions[k].nullifier
         && (if nullifiers then r[k].cmx == [] && r[k].ephemeralKey == [] && r[k].ciphertext == [] else r[k] == actions[k])
  }

  /** `r` is what of `tx` was asked for, pool by pool. */
  ghost predicate PrunedTo(types: seq<int>, nullifiers: bool, tx: CompactTx, r: CompactTx) {
    && r.index == tx.index && r.txid == tx.txid && r.fee == tx.fee
    && r.spends == (if Wants(types, SAPLING) then tx.spends else [])
    && r.outputs == (if Wants(types, SAPLING) && !nullifiers then tx.outputs else [])
    && (if Wants(types, ORCHARD) then ActionsAs(tx.actions, r.actions, nullifiers) else r.actions == [])
    && (if Wants(types, IRONWOOD) then ActionsAs(tx.ironwoodActions, r.ironwoodActions, nullifiers) else r.ironwoodActions == [])
    && r.vin == (if Wants(types, TRANSPARENT) && !nullifiers then tx.vin else [])
    && r.vout == (if Wants(types, TRANSPARENT) && !nullifiers then tx.vout else [])
  }

  /** The transaction has something in a pool that was asked for. */
  predicate Concerns(types: seq<int>, tx: CompactTx) {
    || (Wants(types, SAPLING) && (tx.spends != [] || tx.outputs != []))
    || (Wants(types, ORCHARD) && tx.actions != [])
    || (Wants(types, IRONWOOD) && tx.ironwoodActions != [])
    || (Wants(types, TRANSPARENT) && (tx.vin != [] || tx.vout != []))
  }

  lemma FilteredConcerns(types: seq<int>, tx: CompactTx)
    ensures HasComponents(FilterTx(tx, FromPoolTypes(types))) <==> Concerns(types, tx)
  {
    ResolvesWhatIsWanted(types);
  }

  lemma FilteredIsPruned(types: seq<int>, nullifiers: bool, tx: CompactTx)
    ensures var kept := FilterTx(tx, FromPoolTypes(types));
            PrunedTo(types, nullifiers, tx, if nullifiers then NullifyTx(kept) else kept)
  {
    ResolvesWhatIsWanted(types);
  }

  /** A block as a client receives it: the transactions with something in a pool asked for, in order, each with
      exactly what was asked for; the rest of the block as it was, but for the tree sizes of a block reduced to
      nullifiers. */
  lemma TransformExactly(b: CompactBlock, types: seq<int>, nullifiers: bool)
    ensures var r := Transform(b, FromPoolTypes(types), nullifiers);
            var at := Survivors(b.vtx, FromPoolTypes(types));
            && r == b.(vtx := r.vtx, metadata := if nullifiers && b.metadata.Some? then Some(ChainMetadata(0, 0, 0)) else b.metadata)
            && |r.vtx| == |at|
            && (forall j, k :: 0 <= j < k < |at| ==> at[j] < at[k])
            && (forall i: nat :: i in at <==> i < |b.vtx| && Concerns(types, b.vtx[i]))
            && (forall k :: 0 <= k < |at| ==> at[k] < |b.vtx| && PrunedTo(types, nullifiers, b.vtx[at[k]], r.vtx[k]))
  {
    var pools := FromPoolTypes(types);
    var at, kept := Survivors(b.vtx, pools), FilterTxs(b.vtx, pools);
    SurvivorsExact(b.vtx, pools);
    forall i: nat ensures i in at <==> i < |b.vtx| && Concerns(types, b.vtx[i]) {
      if i < |b.vtx| {
        FilteredConcerns(types, b.vtx[i]);
      }
      if i in at {
        var k :| 0 <= k < |at| && at[k] == i;
        assert HasComponents(kept[k]);
      }
    }
    forall k | 0 <= k < |at| ensures PrunedTo(types, nullifiers, b.vtx[at[k]], Transform(b, pools, nullifiers).vtx[k]) {
      FilteredIsPruned(types, nullifiers, b.vtx[at[k]]);
    }
  }
}
