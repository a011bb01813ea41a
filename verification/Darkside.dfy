/** The darkside mock chain: staged blocks and transactions merged into an active chain whose tree sizes are
    prefix sums and whose headers are re-linked on every apply. */
module Darkside {
  import opened Base

  /** Note commitment tree sizes, or the notes a transaction adds, pool by pool. */
  datatype Sizes = Sizes(sapling: nat, orchard: nat, ironwood: nat)

  const ZERO: Sizes := Sizes(0, 0, 0)

  function Plus(a: Sizes, b: Sizes): Sizes {
    Sizes(a.sapling + b.sapling, a.orchard + b.orchard, a.ironwood + b.ironwood)
  }

  function Wrap(a: Sizes): Sizes {
    Sizes(a.sapling % 0x1_0000_0000, a.orchard % 0x1_0000_0000, a.ironwood % 0x1_0000_0000)
  }

  /** `+=` on 32-bit sizes, wrapping. */
  function Grow(a: Sizes, b: Sizes): Sizes { Wrap(Plus(a, b)) }

  lemma ModPlus(a: nat, b: nat)
    ensures (a % 0x1_0000_0000 + b) % 0x1_0000_0000 == (a + b) % 0x1_0000_0000
  {
  }

  lemma WrapPlus(a: Sizes, b: Sizes)
    ensures Grow(Wrap(a), b) == Grow(a, b)
  {
    ModPlus(a.sapling, b.sapling);
    ModPlus(a.orchard, b.orchard);
    ModPlus(a.ironwood, b.ironwood);
  }

  lemma PlusAssoc(a: Sizes, b: Sizes, c: Sizes)
    ensures Plus(Plus(a, b), c) == Plus(a, Plus(b, c))
    ensures Plus(Plus(a, b), c) == Plus(Plus(a, c), b)
  {
  }

  /** Parsing and hashing, which this model does not look into. */
  datatype Parsers = Parsers(
    split: Bytes -> Option<(Bytes, seq<Bytes>)>,
    coinbaseHeight: Bytes -> Option<nat>,
    counts: Bytes -> Option<Sizes>,
    synthetic: (int, int) -> Option<Bytes>,
    sha256d: Bytes -> Bytes)
  {
    /** A parsed header has at least its fixed prefix, and a hash is 32 bytes. */
    ghost predicate Lawful() {
      && (forall raw: Bytes :: split(raw).Some? ==> |split(raw).value.0| >= 140)
      && (forall x: Bytes :: |sha256d(x)| == 32)
    }
  }

  datatype DarksideError = NotReset | Invalid | Unparsable

  datatype ActiveBlock = ActiveBlock(header: Bytes, txs: seq<Bytes>, sizes: Sizes)

  datatype Chain = Chain(
    wasReset: bool, start: nat, startSizes: Sizes, latest: int, active: seq<ActiveBlock>,
    stagedBlocks: seq<Bytes>, stagedTxs: seq<(nat, Bytes)>)

  const FRESH: Chain := Chain(false, 0, ZERO, -1, [], [], [])

  // ---- Adding a block ----

  /** The sizes after `txs`, or none when one of them does not parse. */
  function Accumulate(q: Parsers, from: Sizes, txs: seq<Bytes>): Option<Sizes>
    decreases |txs|
  {
    if txs == [] then Some(from)
    else
      var n := |txs| - 1;
      var before, notes := Accumulate(q, from, txs[..n]), q.counts(txs[n]);
      if before.Some? && notes.Some? then Some(Grow(before.value, notes.value)) else None
  }

  /** Where a raw block goes: its parts and its offset in the active chain. */
  function Place(q: Parsers, start: nat, len: nat, raw: Bytes): Result<(Bytes, seq<Bytes>, nat), DarksideError> {
    match q.split(raw)
    case None => Err(Unparsable)
    case Some((header, txs)) =>
      if txs == [] then Err(Invalid)
      else
        match q.coinbaseHeight(txs[0])
        case None => Err(Unparsable)
        case Some(height) =>
          if height > start + len then Err(Invalid)
          else if height < start then Err(Invalid)
          else Ok((header, txs, height - start))
  }

  function SizesBefore(startSizes: Sizes, active: seq<ActiveBlock>, offset: nat): Sizes
    requires offset <= |active|
  {
    if offset > 0 then active[offset - 1].sizes else startSizes
  }

  function AddBlock(q: Parsers, start: nat, startSizes: Sizes, active: seq<ActiveBlock>, raw: Bytes): Result<seq<ActiveBlock>, DarksideError> {
    match Place(q, start, |active|, raw)
    case Err(e) => Err(e)
    case Ok((header, txs, offset)) =>
      match Accumulate(q, SizesBefore(startSizes, active, offset), txs)
      case None => Err(Unparsable)
      case Some(sizes) => Ok(active[..offset] + [ActiveBlock(header, txs, sizes)])
  }

  /** The chain after some of the work, and the error that stopped it. */
  datatype Outcome = Outcome(active: seq<ActiveBlock>, error: Option<DarksideError>)

  function Attempt(active: seq<ActiveBlock>, r: Result<seq<ActiveBlock>, DarksideError>): Outcome {
    match r
    case Ok(a) => Outcome(a, None)
    case Err(e) => Outcome(active, Some(e))
  }

  function AddBlocks(q: Parsers, start: nat, startSizes: Sizes, active: seq<ActiveBlock>, raws: seq<Bytes>): Outcome
    decreases |raws|
  {
    if raws == [] then Outcome(active, None)
    else
      var n := |raws| - 1;
      var o := AddBlocks(q, start, startSizes, active, raws[..n]);
      if o.error.Some? then o else Attempt(o.active, AddBlock(q, start, startSizes, o.active, raws[n]))
  }

  // ---- Mining a transaction ----

  /** Every block from `index` on, grown by `notes`. */
  function GrowFrom(active: seq<ActiveBlock>, index: nat, notes: Sizes): (r: seq<ActiveBlock>)
    ensures |r| == |active|
    ensures forall i :: 0 <= i < |r| ==> r[i] == if i < index then active[i] else active[i].(sizes := Grow(active[i].sizes, notes))
  {
    seq(|active|, i requires 0 <= i < |active| => if i < index then active[i] else active[i].(sizes := Grow(active[i].sizes, notes)))
  }

  /** Put `raw` into a block and perturb its header, so that its hash changes. */
  function PushTx(b: ActiveBlock, raw: Bytes): ActiveBlock
    requires |b.header| > 68
  {
    b.(header := b.header[68 := (b.header[68] as int + 1) % 256], txs := b.txs + [raw])
  }

  predicate Headed(active: seq<ActiveBlock>) {
    forall i :: 0 <= i < |active| ==> |active[i].header| >= 140
  }

  function Mine(q: Parsers, start: nat, active: seq<ActiveBlock>, height: nat, raw: Bytes): (r: Result<seq<ActiveBlock>, DarksideError>)
    requires Headed(active)
    ensures r.Ok? ==> Headed(r.value) && |r.value| == |active|
  {
    if height < start then Err(Invalid)
    else if height - start >= |active| then Err(Invalid)
    else
      match q.counts(raw)
      case None => Err(Unparsable)
      case Some(notes) =>
        var index := height - start;
        Ok(GrowFrom(active[index := PushTx(active[index], raw)], index, notes))
  }

  function MineAll(q: Parsers, start: nat, active: seq<ActiveBlock>, staged: seq<(nat, Bytes)>): (o: Outcome)
    requires Headed(active)
    ensures Headed(o.active) && |o.active| == |active|
    decreases |staged|
  {
    if staged == [] then Outcome(active, None)
    else
      var n := |staged| - 1;
      var o := MineAll(q, start, active, staged[..n]);
      if o.error.Some? then o else Attempt(o.active, Mine(q, start, o.active, staged[n].0, staged[n].1))
  }

  // ---- Linking ----

  function WithPrevHash(b: ActiveBlock, hash: Bytes): ActiveBlock
    requires |b.header| >= 140
  {
    b.(header := b.header[..4] + hash + b.header[36..])
  }

  /** Every header after the first names the one before it. */
  function Relink(q: Parsers, active: seq<ActiveBlock>): (r: seq<ActiveBlock>)
    requires q.Lawful() && Headed(active)
    ensures |r| == |active| && Headed(r)
    decreases |active|
  {
    if active == [] then []
    else
      var n := |active| - 1;
      var r := Relink(q, active[..n]);
      r + [if n == 0 then active[0] else WithPrevHash(active[n], q.sha256d(r[n - 1].header))]
  }

  predicate LinkAt(q: Parsers, active: seq<ActiveBlock>, i: nat)
    requires 0 < i < |active| && |active[i].header| >= 140
  {
    active[i].header[4..36] == q.sha256d(active[i - 1].header)
  }

  ghost predicate Linked(q: Parsers, active: seq<ActiveBlock>)
    requires Headed(active)
  {
    forall i {:trigger LinkAt(q, active, i)} :: 0 < i < |active| ==> LinkAt(q, active, i)
  }

  /** `r` is `b` up to its previous hash. */
  predicate SameButLink(b: ActiveBlock, r: ActiveBlock)
    requires |b.header| >= 140
  {
    r.txs == b.txs && r.sizes == b.sizes && |r.header| == |b.header| && r.header[..4] == b.header[..4] && r.header[36..] == b.header[36..]
  }

  lemma {:induction false} RelinkLinks(q: Parsers, active: seq<ActiveBlock>)
    requires q.Lawful() && Headed(active)
    ensures Linked(q, Relink(q, active))
    decreases |active|
  {
    if active != [] {
      var n := |active| - 1;
      var front, r := Relink(q, active[..n]), Relink(q, active);
      RelinkLinks(q, active[..n]);
      assert r[..n] == front;
      forall i | 0 < i < |r| ensures LinkAt(q, r, i) {
        if i < n {
          assert LinkAt(q, front, i);
        } else {
          PrevHashSet(active[n], q.sha256d(front[n - 1].header));
        }
      }
    }
  }

  /** Nothing but previous hashes changes, and the first block not at all. */
  lemma {:induction false} RelinkChangesLinksOnly(q: Parsers, active: seq<ActiveBlock>, i: nat)
    requires q.Lawful() && Headed(active) && i < |active|
    ensures SameButLink(active[i], Relink(q, active)[i]) && (i == 0 ==> Relink(q, active)[i] == active[i])
    decreases |active|
  {
    var n := |active| - 1;
    var front := Relink(q, active[..n]);
    if i < n {
      RelinkChangesLinksOnly(q, active[..n], i);
    } else if n > 0 {
      PrevHashSet(active[n], q.sha256d(front[n - 1].header));
    }
  }

  lemma PrevHashSet(b: ActiveBlock, hash: Bytes)
    requires |b.header| >= 140 && |hash| == 32
    ensures SameButLink(b, WithPrevHash(b, hash)) && WithPrevHash(b, hash).header[4..36] == hash
    ensures b.header[4..36] == hash ==> WithPrevHash(b, hash) == b
  {
    var h, r := b.header, WithPrevHash(b, hash).header;
    assert r[..4] == h[..4] && r[4..36] == hash && r[36..] == h[36..];
    assert h[4..36] == hash ==> h == h[..4] + h[4..36] + h[36..];
  }

  /** The first `k` blocks link. */
  ghost predicate LinkedBelow(q: Parsers, active: seq<ActiveBlock>, k: nat)
    requires Headed(active) && k <= |active|
  {
    forall i {:trigger LinkAt(q, active, i)} :: 0 < i < k ==> LinkAt(q, active, i)
  }

  lemma FrontLinked(q: Parsers, active: seq<ActiveBlock>, k: nat)
    requires Headed(active) && active != [] && k <= |active| && LinkedBelow(q, active, k)
    ensures LinkedBelow(q, active[..|active| - 1], Min(k, |active| - 1))
  {
    var front := active[..|active| - 1];
    forall i | 0 < i < Min(k, |front|) ensures LinkAt(q, front, i) {
      assert LinkAt(q, active, i);
    }
  }

  lemma {:induction false} RelinkKeepsAt(q: Parsers, active: seq<ActiveBlock>, k: nat, i: nat)
    requires q.Lawful() && Headed(active) && i < k <= |active| && LinkedBelow(q, active, k)
    ensures Relink(q, active)[i] == active[i]
    decreases |active|
  {
    var n := |active| - 1;
    var front := active[..n];
    FrontLinked(q, active, k);
    if i < n {
      RelinkKeepsAt(q, front, Min(k, n), i);
    } else if n > 0 {
      RelinkKeepsAt(q, front, Min(k, n), n - 1);
      assert LinkAt(q, active, n);
      PrevHashSet(active[n], q.sha256d(active[n - 1].header));
    }
  }

  /** Blocks that already link are left as they are: a rewrite shows only from the first changed block on. */
  lemma RelinkKeepsLinked(q: Parsers, active: seq<ActiveBlock>, k: nat)
    requires q.Lawful() && Headed(active) && k <= |active| && LinkedBelow(q, active, k)
    ensures Relink(q, active)[..k] == active[..k]
  {
    forall i | 0 <= i < k ensures Relink(q, active)[i] == active[i] {
      RelinkKeepsAt(q, active, k, i);
    }
  }

  // ---- What an active chain always satisfies ----

  function NotesIn(q: Parsers, tx: Bytes): Sizes {
    if q.counts(tx).Some? then q.counts(tx).value else ZERO
  }

  /** Notes added by `txs`, as unbounded sums. */
  function TxSum(q: Parsers, txs: seq<Bytes>): Sizes
    decreases |txs|
  {
    if txs == [] then ZERO else Plus(TxSum(q, txs[..|txs| - 1]), NotesIn(q, txs[|txs| - 1]))
  }

  /** Notes added by the first `n` blocks. */
  function ChainSum(q: Parsers, blocks: seq<ActiveBlock>, n: nat): Sizes
    requires n <= |blocks|
  {
    if n == 0 then ZERO else Plus(ChainSum(q, blocks, n - 1), TxSum(q, blocks[n - 1].txs))
  }

  /** Block `i` carries its own height, and the start sizes plus every note of blocks `0..=i`. */
  ghost predicate BlockOk(q: Parsers, start: nat, startSizes: Sizes, active: seq<ActiveBlock>, i: nat)
    requires i < |active|
  {
    && |active[i].header| >= 140
    && active[i].txs != []
    && q.coinbaseHeight(active[i].txs[0]) == Some(start + i)
    && (forall tx :: tx in active[i].txs ==> q.counts(tx).Some?)
    && active[i].sizes == Grow(startSizes, ChainSum(q, active, i + 1))
  }

  ghost predicate Sound(q: Parsers, start: nat, startSizes: Sizes, active: seq<ActiveBlock>) {
    && Headed(active)
    && forall i {:trigger BlockOk(q, start, startSizes, active, i)} :: 0 <= i < |active| ==> BlockOk(q, start, startSizes, active, i)
  }

  lemma AccumulateExact(q: Parsers, from: Sizes, txs: seq<Bytes>)
    ensures Accumulate(q, from, txs).Some? <==> forall tx :: tx in txs ==> q.counts(tx).Some?
    decreases |txs|
  {
    if txs != [] {
      AccumulateExact(q, from, txs[..|txs| - 1]);
      assert txs == txs[..|txs| - 1] + [txs[|txs| - 1]];
    }
  }

  lemma {:induction false} AccumulateIsSum(q: Parsers, from: Sizes, txs: seq<Bytes>)
    requires txs != [] && Accumulate(q, from, txs).Some?
    ensures Accumulate(q, from, txs).value == Grow(from, TxSum(q, txs))
    decreases |txs|
  {
    var n := |txs| - 1;
    var front, notes := txs[..n], NotesIn(q, txs[n]);
    if n == 0 {
      assert TxSum(q, txs) == Plus(TxSum(q, front), notes) == Plus(ZERO, notes);
    } else {
      AccumulateIsSum(q, from, front);
      GrowTwice(from, TxSum(q, front), notes);
    }
  }

  /** Growing in two steps is growing once by both. */
  lemma GrowTwice(a: Sizes, b: Sizes, c: Sizes)
    ensures Grow(Grow(a, b), c) == Grow(a, Plus(b, c))
  {
    WrapPlus(Plus(a, b), c);
    PlusAssoc(a, b, c);
  }

  lemma GrowBefore(q: Parsers, start: nat, startSizes: Sizes, active: seq<ActiveBlock>, offset: nat, notes: Sizes)
    requires Sound(q, start, startSizes, active) && offset <= |active|
    ensures Grow(SizesBefore(startSizes, active, offset), notes) == Grow(startSizes, Plus(ChainSum(q, active, offset), notes))
  {
    if offset > 0 {
      var i := offset - 1;
      assert BlockOk(q, start, startSizes, active, i);
      GrowTwice(startSizes, ChainSum(q, active, i + 1), notes);
    } else {
      assert Plus(ZERO, notes) == notes;
    }
  }

  lemma AddBlockKeepsSound(q: Parsers, start: nat, startSizes: Sizes, active: seq<ActiveBlock>, raw: Bytes)
    requires q.Lawful() && Sound(q, start, startSizes, active)
    requires AddBlock(q, start, startSizes, active, raw).Ok?
    ensures Sound(q, start, startSizes, AddBlock(q, start, startSizes, active, raw).value)
  {
    var (header, txs, offset) := Place(q, start, |active|, raw).value;
    var b := ActiveBlock(header, txs, Accumulate(q, SizesBefore(startSizes, active, offset), txs).value);
    AccumulateExact(q, SizesBefore(startSizes, active, offset), txs);
    AccumulateIsSum(q, SizesBefore(startSizes, active, offset), txs);
    GrowBefore(q, start, startSizes, active, offset, TxSum(q, txs));
    PushKeepsSound(q, start, startSizes, active, offset, b);
  }

  lemma KeptBlockOk(q: Parsers, start: nat, startSizes: Sizes, active: seq<ActiveBlock>, r: seq<ActiveBlock>, i: nat)
    requires i < |active| && i < |r| && BlockOk(q, start, startSizes, active, i)
    requires forall k :: 0 <= k <= i ==> r[k] == active[k]
    ensures BlockOk(q, start, startSizes, r, i)
  {
    ChainSumSameTxs(q, active, r, i + 1);
  }

  lemma PushedBlockOk(q: Parsers, start: nat, startSizes: Sizes, active: seq<ActiveBlock>, r: seq<ActiveBlock>, offset: nat)
    requires offset <= |active| && offset < |r| && forall k :: 0 <= k < offset ==> r[k] == active[k]
    requires |r[offset].header| >= 140 && r[offset].txs != [] && q.coinbaseHeight(r[offset].txs[0]) == Some(start + offset)
    requires forall tx :: tx in r[offset].txs ==> q.counts(tx).Some?
    requires r[offset].sizes == Grow(startSizes, Plus(ChainSum(q, active, offset), TxSum(q, r[offset].txs)))
    ensures BlockOk(q, start, startSizes, r, offset)
  {
    ChainSumSameTxs(q, active, r, offset);
  }

  lemma PushKeepsSound(q: Parsers, start: nat, startSizes: Sizes, active: seq<ActiveBlock>, offset: nat, b: ActiveBlock)
    requires Sound(q, start, startSizes, active) && offset <= |active|
    requires |b.header| >= 140 && b.txs != [] && q.coinbaseHeight(b.txs[0]) == Some(start + offset)
    requires forall tx :: tx in b.txs ==> q.counts(tx).Some?
    requires b.sizes == Grow(startSizes, Plus(ChainSum(q, active, offset), TxSum(q, b.txs)))
    ensures Sound(q, start, startSizes, active[..offset] + [b])
  {
    var r := active[..offset] + [b];
    PushedBlockOk(q, start, startSizes, active, r, offset);
    forall i | 0 <= i < |r| ensures BlockOk(q, start, startSizes, r, i) {
      if i < offset {
        assert BlockOk(q, start, startSizes, active, i);
        KeptBlockOk(q, start, startSizes, active, r, i);
      }
    }
  }

  lemma TxSumSnoc(q: Parsers, txs: seq<Bytes>, tx: Bytes)
    ensures TxSum(q, txs + [tx]) == Plus(TxSum(q, txs), NotesIn(q, tx))
  {
    assert (txs + [tx])[..|txs|] == txs;
  }

  /** Only block `index` of `b` has more than in `a`, and that is `raw`. */
  predicate Mined(a: seq<ActiveBlock>, b: seq<ActiveBlock>, index: nat, raw: Bytes, i: nat)
    requires i < |a| == |b|
  {
    b[i].txs == if i == index then a[i].txs + [raw] else a[i].txs
  }

  /** Mining grows the sum over every prefix that reaches the block, and no other. */
  lemma {:induction false} ChainSumGrows(q: Parsers, a: seq<ActiveBlock>, b: seq<ActiveBlock>, index: nat, raw: Bytes, n: nat)
    requires |a| == |b| && index < |a| && n <= |a|
    requires forall i {:trigger Mined(a, b, index, raw, i)} :: 0 <= i < |a| ==> Mined(a, b, index, raw, i)
    ensures ChainSum(q, b, n) == if n <= index then ChainSum(q, a, n) else Plus(ChainSum(q, a, n), NotesIn(q, raw))
  {
    if n > 0 {
      ChainSumGrows(q, a, b, index, raw, n - 1);
      assert Mined(a, b, index, raw, n - 1);
      OneMoreBlock(q, ChainSum(q, a, n - 1), a[n - 1].txs, raw);
    }
  }

  /** A transaction mined into the last block, or below it, adds the same. */
  lemma OneMoreBlock(q: Parsers, below: Sizes, txs: seq<Bytes>, raw: Bytes)
    ensures Plus(below, TxSum(q, txs + [raw])) == Plus(Plus(below, TxSum(q, txs)), NotesIn(q, raw))
    ensures Plus(Plus(below, NotesIn(q, raw)), TxSum(q, txs)) == Plus(Plus(below, TxSum(q, txs)), NotesIn(q, raw))
  {
    TxSumSnoc(q, txs, raw);
    PlusAssoc(below, TxSum(q, txs), NotesIn(q, raw));
    PlusAssoc(below, NotesIn(q, raw), TxSum(q, txs));
  }

  lemma MinedBlockOk(q: Parsers, start: nat, startSizes: Sizes, active: seq<ActiveBlock>, r: seq<ActiveBlock>, index: nat, raw: Bytes, i: nat)
    requires |r| == |active| && i < |r| && index < |r| && q.counts(raw).Some? && BlockOk(q, start, startSizes, active, i)
    requires forall k {:trigger Mined(active, r, index, raw, k)} :: 0 <= k < |r| ==> Mined(active, r, index, raw, k)
    requires |r[i].header| == |active[i].header|
    requires r[i].sizes == if i < index then active[i].sizes else Grow(active[i].sizes, q.counts(raw).value)
    ensures BlockOk(q, start, startSizes, r, i)
  {
    assert Mined(active, r, index, raw, i);
    ChainSumGrows(q, active, r, index, raw, i + 1);
    if i >= index {
      GrowTwice(startSizes, ChainSum(q, active, i + 1), q.counts(raw).value);
    }
  }

  lemma MineKeepsSound(q: Parsers, start: nat, startSizes: Sizes, active: seq<ActiveBlock>, height: nat, raw: Bytes)
    requires Sound(q, start, startSizes, active)
    requires Mine(q, start, active, height, raw).Ok?
    ensures Sound(q, start, startSizes, Mine(q, start, active, height, raw).value)
  {
    var index := height - start;
    var r := Mine(q, start, active, height, raw).value;
    forall i | 0 <= i < |r| ensures Mined(active, r, index, raw, i) {
    }
    forall i | 0 <= i < |r| ensures BlockOk(q, start, startSizes, r, i) {
      assert BlockOk(q, start, startSizes, active, i);
      MinedBlockOk(q, start, startSizes, active, r, index, raw, i);
    }
  }

  lemma {:induction false} ChainSumSameTxs(q: Parsers, a: seq<ActiveBlock>, b: seq<ActiveBlock>, n: nat)
    requires n <= |a| && n <= |b| && forall i :: 0 <= i < n ==> a[i].txs == b[i].txs
    ensures ChainSum(q, a, n) == ChainSum(q, b, n)
  {
    if n > 0 {
      ChainSumSameTxs(q, a, b, n - 1);
    }
  }

  lemma RelinkKeepsSound(q: Parsers, start: nat, startSizes: Sizes, active: seq<ActiveBlock>)
    requires q.Lawful() && Sound(q, start, startSizes, active)
    ensures Sound(q, start, startSizes, Relink(q, active))
  {
    var r := Relink(q, active);
    forall i | 0 <= i < |r| ensures r[i].txs == active[i].txs {
      RelinkChangesLinksOnly(q, active, i);
    }
    forall i | 0 <= i < |r| ensures BlockOk(q, start, startSizes, r, i) {
      assert BlockOk(q, start, startSizes, active, i);
      RelinkChangesLinksOnly(q, active, i);
      ChainSumSameTxs(q, active, r, i + 1);
    }
  }

  lemma {:induction false} AddBlocksKeepsSound(q: Parsers, start: nat, startSizes: Sizes, active: seq<ActiveBlock>, raws: seq<Bytes>)
    requires q.Lawful() && Sound(q, start, startSizes, active)
    ensures Sound(q, start, startSizes, AddBlocks(q, start, startSizes, active, raws).active)
    decreases |raws|
  {
    if raws != [] {
      var n := |raws| - 1;
      AddBlocksKeepsSound(q, start, startSizes, active, raws[..n]);
      var o := AddBlocks(q, start, startSizes, active, raws[..n]);
      if o.error.None? && AddBlock(q, start, startSizes, o.active, raws[n]).Ok? {
        AddBlockKeepsSound(q, start, startSizes, o.active, raws[n]);
      }
    }
  }

  lemma {:induction false} MineAllKeepsSound(q: Parsers, start: nat, startSizes: Sizes, active: seq<ActiveBlock>, staged: seq<(nat, Bytes)>)
    requires Sound(q, start, startSizes, active)
    ensures Sound(q, start, startSizes, MineAll(q, start, active, staged).active)
    decreases |staged|
  {
    if staged != [] {
      var n := |staged| - 1;
      MineAllKeepsSound(q, start, startSizes, active, staged[..n]);
      var o := MineAll(q, start, active, staged[..n]);
      if o.error.None? && Mine(q, start, o.active, staged[n].0, staged[n].1).Ok? {
        MineKeepsSound(q, start, startSizes, o.active, staged[n].0, staged[n].1);
      }
    }
  }

  // ---- The control plane ----

  ghost predicate Valid(q: Parsers, c: Chain) {
    q.Lawful() && Sound(q, c.start, c.startSizes, c.active)
  }

  /** The staged blocks merged in; the staging area is drained whatever happens. */
  function ApplyBlocks(q: Parsers, c: Chain): (Chain, Option<DarksideError>) {
    var o := AddBlocks(q, c.start, c.startSizes, c.active, c.stagedBlocks);
    (c.(active := o.active, stagedBlocks := []),
     if o.error.Some? then o.error else if o.active == [] then Some(Invalid) else None)
  }

  function MineStaged(q: Parsers, c: Chain): (Chain, Option<DarksideError>)
    requires Headed(c.active)
  {
    var o := MineAll(q, c.start, c.active, c.stagedTxs);
    (c.(active := o.active, stagedTxs := []), o.error)
  }

  /** An apply that is turned away before it touches anything. */
  predicate Refused(c: Chain, target: int) { !c.wasReset || target < c.start }

  /** Re-link, and present up to the target as far as there are blocks. */
  function Finish(q: Parsers, c: Chain, target: int): Chain
    requires q.Lawful() && Headed(c.active)
  {
    var top := c.start + |c.active| - 1;
    c.(active := Relink(q, c.active), latest := if target <= top then target else top)
  }

  ghost function Apply(q: Parsers, c: Chain, target: int): (r: (Chain, Option<DarksideError>))
    requires Valid(q, c)
  {
    if !c.wasReset then (c, Some(NotReset))
    else if target < c.start then (c, Some(Invalid))
    else
      var (merged, e1) := ApplyBlocks(q, c);
      AddBlocksKeepsSound(q, c.start, c.startSizes, c.active, c.stagedBlocks);
      if e1.Some? then (merged, e1)
      else
        var (mined, e2) := MineStaged(q, merged);
        if e2.Some? then (mined, e2) else (Finish(q, mined, target), None)
  }

  datatype Op =
    | Reset(start: nat, sizes: Sizes)
    | StageBlock(raw: Bytes)
    | StageBlocksCreate(height: int, nonce: int, count: int)
    | StageTransaction(txHeight: nat, tx: Bytes)
    | ApplyStaged(target: int)

  function StageOne(q: Parsers, c: Chain, raw: Bytes): (Chain, Option<DarksideError>) {
    if !c.wasReset then (c, Some(NotReset))
    else
      match q.split(raw)
      case None => (c, Some(Unparsable))
      case Some((_, txs)) =>
        if txs == [] then (c, Some(Invalid))
        else
          match q.coinbaseHeight(txs[0])
          case None => (c, Some(Unparsable))
          case Some(height) => if height < c.start then (c, Some(Invalid)) else (c.(stagedBlocks := c.stagedBlocks + [raw]), None)
  }

  /** The first `count` synthetic blocks staged, up to the first that is refused. */
  function StageCreated(q: Parsers, c: Chain, height: int, nonce: int, count: nat): (Chain, Option<DarksideError>) {
    if count == 0 then (c, None)
    else
      var (d, e) := StageCreated(q, c, height, nonce, count - 1);
      if e.Some? then (d, e)
      else
        match q.synthetic(height + count - 1, nonce)
        case None => (d, Some(Unparsable))
        case Some(raw) => StageOne(q, d, raw)
  }

  function StageTx(q: Parsers, c: Chain, height: nat, raw: Bytes): (Chain, Option<DarksideError>) {
    if !c.wasReset then (c, Some(NotReset))
    else if q.counts(raw).None? then (c, Some(Unparsable))
    else (c.(stagedTxs := c.stagedTxs + [(height, raw)]), None)
  }

  ghost function Perform(q: Parsers, c: Chain, op: Op): (Chain, Option<DarksideError>)
    requires Valid(q, c)
  {
    match op
    case Reset(start, sizes) => (Chain(true, start, sizes, -1, [], [], []), None)
    case StageBlock(raw) => StageOne(q, c, raw)
    case StageBlocksCreate(height, nonce, count) =>
      if !c.wasReset then (c, Some(NotReset)) else StageCreated(q, c, height, nonce, if count < 0 then 0 else count)
    case StageTransaction(height, raw) => StageTx(q, c, height, raw)
    case ApplyStaged(target) => Apply(q, c, target)
  }

  /** A failed apply keeps the sizes and heights right too, and drains what it consumed. */
  lemma ApplyKeepsValid(q: Parsers, c: Chain, target: int)
    requires Valid(q, c)
    ensures var (r, e) := Apply(q, c, target);
            && Valid(q, r)
            && (Refused(c, target) ==> r == c && e.Some?)
            && (!Refused(c, target) ==> r.stagedBlocks == [])
            && (e.None? ==> r.stagedTxs == [] && r.active != [] && Linked(q, r.active)
                            && r.latest <= target && r.latest < r.start + |r.active| && r.start <= r.latest
                            && (r.latest == target || r.latest == r.start + |r.active| - 1))
            && (e.Some? ==> r.latest == c.latest)
            && r.start == c.start && r.startSizes == c.startSizes
  {
    if !Refused(c, target) {
      AddBlocksKeepsSound(q, c.start, c.startSizes, c.active, c.stagedBlocks);
      var (merged, e1) := ApplyBlocks(q, c);
      if e1.None? {
        MineAllKeepsSound(q, c.start, c.startSizes, merged.active, c.stagedTxs);
        var (mined, e2) := MineStaged(q, merged);
        if e2.None? {
          RelinkKeepsSound(q, c.start, c.startSizes, mined.active);
          RelinkLinks(q, mined.active);
        }
      }
    }
  }

  lemma {:induction false} StagingTouchesNothing(q: Parsers, c: Chain, height: int, nonce: int, count: nat)
    ensures var d := StageCreated(q, c, height, nonce, count).0;
            d == c.(stagedBlocks := d.stagedBlocks) && c.stagedBlocks <= d.stagedBlocks
  {
    if count > 0 {
      StagingTouchesNothing(q, c, height, nonce, count - 1);
    }
  }

  lemma PerformKeepsValid(q: Parsers, c: Chain, op: Op)
    requires Valid(q, c)
    ensures Valid(q, Perform(q, c, op).0)
    ensures op.StageBlock? || op.StageBlocksCreate? || op.StageTransaction? ==> Perform(q, c, op).0.active == c.active
  {
    match op {
      case ApplyStaged(target) => ApplyKeepsValid(q, c, target);
      case StageBlocksCreate(height, nonce, count) => StagingTouchesNothing(q, c, height, nonce, if count < 0 then 0 else count);
      case _ =>
    }
  }

  /** The state a run of control calls leads to, failed calls included. */
  ghost function After(q: Parsers, ops: seq<Op>): (c: Chain)
    requires q.Lawful()
    ensures Valid(q, c)
    decreases |ops|
  {
    if ops == [] then FRESH
    else
      var c := After(q, ops[..|ops| - 1]);
      PerformKeepsValid(q, c, ops[|ops| - 1]);
      Perform(q, c, ops[|ops| - 1]).0
  }

  /** The last apply that got past its first checks succeeded. */
  ghost predicate Settled(q: Parsers, ops: seq<Op>)
    requires q.Lawful()
    decreases |ops|
  {
    ops == [] ||
      var n := |ops| - 1;
      var c := After(q, ops[..n]);
      match ops[n]
      case Reset(_, _) => true
      case ApplyStaged(target) => if Refused(c, target) then Settled(q, ops[..n]) else Apply(q, c, target).1.None?
      case _ => Settled(q, ops[..n])
  }

  /** In every run, block `i`'s three sizes are the start sizes plus the notes of all transactions of blocks
      `0..=i`, modulo 2^32, and its coinbase height is `start + i`; and unless the last apply broke off half
      way, every header names the hash of the one before it. */
  lemma {:induction false} RunsStaySound(q: Parsers, ops: seq<Op>, i: nat)
    requires q.Lawful() && i < |After(q, ops).active|
    ensures var c := After(q, ops);
            && c.active[i].txs != [] && q.coinbaseHeight(c.active[i].txs[0]) == Some(c.start + i)
            && c.active[i].sizes == Grow(c.startSizes, ChainSum(q, c.active, i + 1))
            && (Settled(q, ops) && i > 0 ==> c.active[i].header[4..36] == q.sha256d(c.active[i - 1].header))
  {
    var c := After(q, ops);
    assert BlockOk(q, c.start, c.startSizes, c.active, i);
    if Settled(q, ops) && i > 0 {
      SettledIsLinked(q, ops);
      assert LinkAt(q, c.active, i);
    }
  }

  lemma {:induction false} SettledIsLinked(q: Parsers, ops: seq<Op>)
    requires q.Lawful() && Settled(q, ops)
    ensures Linked(q, After(q, ops).active)
    decreases |ops|
  {
    if ops != [] {
      var n := |ops| - 1;
      var c := After(q, ops[..n]);
      match ops[n] {
        case Reset(_, _) =>
        case ApplyStaged(target) =>
          ApplyKeepsValid(q, c, target);
          if Refused(c, target) {
            SettledIsLinked(q, ops[..n]);
          }
        case _ =>
          PerformKeepsValid(q, c, ops[n]);
          SettledIsLinked(q, ops[..n]);
      }
    }
  }

  // ---- What mining does to each block ----

  /** The staged transactions for `height`, in the order staged. */
  function TxsAt(staged: seq<(nat, Bytes)>, height: nat): seq<Bytes>
    decreases |staged|
  {
    if staged == [] then []
    else
      var n := |staged| - 1;
      TxsAt(staged[..n], height) + (if staged[n].0 == height then [staged[n].1] else [])
  }

  /** `b` became `r` by taking in `txs`, byte 68 of its header moving once for each. */
  predicate TookIn(b: ActiveBlock, r: ActiveBlock, txs: seq<Bytes>)
    requires |b.header| >= 140
  {
    && r.txs == b.txs + txs
    && r.header == b.header[68 := (b.header[68] as int + |txs|) % 256]
  }

  lemma TookInNone(b: ActiveBlock, r: ActiveBlock)
    requires |b.header| >= 140 && r.txs == b.txs && r.header == b.header
    ensures TookIn(b, r, [])
  {
    assert b.header[68 := b.header[68]] == b.header;
  }

  lemma TookInOne(b: ActiveBlock, m: ActiveBlock, txs: seq<Bytes>, raw: Bytes)
    requires |b.header| >= 140 && TookIn(b, m, txs)
    ensures TookIn(b, PushTx(m, raw), txs + [raw])
  {
    var x: int := b.header[68] as int;
    assert (((x + |txs|) % 256) + 1) % 256 == (x + |txs| + 1) % 256;
    assert m.txs + [raw] == b.txs + (txs + [raw]);
    var byte68: byte := (x + |txs| + 1) % 256;
    assert b.header[68 := (x + |txs|) % 256][68 := byte68] == b.header[68 := byte68];
  }

  lemma MinePlaces(q: Parsers, start: nat, active: seq<ActiveBlock>, height: nat, raw: Bytes, i: nat)
    requires Headed(active) && i < |active| && Mine(q, start, active, height, raw).Ok?
    ensures var was, now := active[i], Mine(q, start, active, height, raw).value[i];
            if height == start + i then now.header == PushTx(was, raw).header && now.txs == PushTx(was, raw).txs
            else now.header == was.header && now.txs == was.txs
  {
  }

  /** Mining puts each staged transaction in the block of its height, in order, and nowhere else. */
  lemma {:induction false} MineAllPlaces(q: Parsers, start: nat, active: seq<ActiveBlock>, staged: seq<(nat, Bytes)>, i: nat)
    requires Headed(active) && i < |active| && MineAll(q, start, active, staged).error.None?
    ensures TookIn(active[i], MineAll(q, start, active, staged).active[i], TxsAt(staged, start + i))
    decreases |staged|
  {
    if staged == [] {
      TookInNone(active[i], active[i]);
    } else {
      var n := |staged| - 1;
      var o := MineAll(q, start, active, staged[..n]);
      var txs := TxsAt(staged[..n], start + i);
      MineAllPlaces(q, start, active, staged[..n], i);
      MinePlaces(q, start, o.active, staged[n].0, staged[n].1, i);
      assert txs + [] == txs;
      if staged[n].0 == start + i {
        TookInOne(active[i], o.active[i], txs, staged[n].1);
      }
    }
  }

  /** Mining is meant to change a block's hash by changing its header: it does exactly when the number of
      transactions taken in is not a multiple of 256. */
  lemma MiningChangesHeaderExactly(q: Parsers, start: nat, active: seq<ActiveBlock>, staged: seq<(nat, Bytes)>, i: nat)
    requires Headed(active) && i < |active| && MineAll(q, start, active, staged).error.None?
    ensures MineAll(q, start, active, staged).active[i].header != active[i].header <==> |TxsAt(staged, start + i)| % 256 != 0
  {
    MineAllPlaces(q, start, active, staged, i);
    Turned(active[i].header, |TxsAt(staged, start + i)|);
  }

  lemma {:induction false} AllTaken(q: Parsers, start: nat, block: ActiveBlock, staged: seq<(nat, Bytes)>, raw: Bytes)
    requires Headed([block]) && q.counts(raw).Some? && forall i :: 0 <= i < |staged| ==> staged[i] == (start, raw)
    ensures MineAll(q, start, [block], staged).error.None? && |TxsAt(staged, start)| == |staged|
    decreases |staged|
  {
    if staged != [] {
      AllTaken(q, start, block, staged[..|staged| - 1], raw);
    }
  }

  /** Mining `n` copies of a transaction into a lone block turns the byte `n` times. */
  lemma MinesCopies(q: Parsers, start: nat, block: ActiveBlock, raw: Bytes, n: nat)
    requires Headed([block]) && q.counts(raw).Some?
    ensures var r := MineAll(q, start, [block], Copies(start, raw, n));
            r.error.None? && |r.active[0].txs| == |block.txs| + n && (r.active[0].header == block.header <==> n % 256 == 0)
  {
    var staged := Copies(start, raw, n);
    AllTaken(q, start, block, staged, raw);
    MineAllPlaces(q, start, [block], staged, 0);
    MiningChangesHeaderExactly(q, start, [block], staged, 0);
  }

  function Copies(height: nat, raw: Bytes, n: nat): (r: seq<(nat, Bytes)>)
    ensures |r| == n && forall i :: 0 <= i < n ==> r[i] == (height, raw)
  {
    seq(n, i => (height, raw))
  }

  /** The case is real: 256 copies of a transaction mined into a lone block leave its header as it was. */
  lemma MiningKeepsHeader(q: Parsers, start: nat, block: ActiveBlock, raw: Bytes)
    requires Headed([block]) && q.counts(raw).Some?
    ensures var r := MineAll(q, start, [block], Copies(start, raw, 256));
            r.error.None? && r.active[0].header == block.header && |r.active[0].txs| == |block.txs| + 256
  {
    MinesCopies(q, start, block, raw, 256);
  }

  lemma Turned(h: Bytes, n: nat)
    requires |h| > 68
    ensures h[68 := (h[68] as int + n) % 256] == h <==> n % 256 == 0
  {
    var byte68: byte := (h[68] as int + n) % 256;
    assert h[68 := byte68][68] == byte68;
    Residue(h[68], n);
    assert byte68 == h[68] ==> h[68 := byte68] == h;
  }

  lemma Residue(x: byte, n: nat)
    ensures (x + n) % 256 == x <==> n % 256 == 0
  {
    assert x + n == 256 * ((x + n) / 256) + (x + n) % 256;
  }

  // ---- A reorg rewrites from the staged height on ----

  predicate BlockFrom(q: Parsers, raw: Bytes, height: nat) {
    var parts := q.split(raw);
    parts.Some? && parts.value.1 != [] && q.coinbaseHeight(parts.value.1[0]).Some? ==> height <= q.coinbaseHeight(parts.value.1[0]).value
  }

  lemma {:induction false} AddBlocksKeepsBelow(q: Parsers, start: nat, startSizes: Sizes, active: seq<ActiveBlock>, raws: seq<Bytes>, k: nat)
    requires k <= |active|
    requires forall i :: 0 <= i < |raws| ==> BlockFrom(q, raws[i], start + k)
    ensures var r := AddBlocks(q, start, startSizes, active, raws).active;
            k <= |r| && r[..k] == active[..k]
    decreases |raws|
  {
    if raws != [] {
      var n := |raws| - 1;
      AddBlocksKeepsBelow(q, start, startSizes, active, raws[..n], k);
      assert BlockFrom(q, raws[n], start + k);
    }
  }

  lemma {:induction false} MineAllKeepsBelow(q: Parsers, start: nat, active: seq<ActiveBlock>, staged: seq<(nat, Bytes)>, k: nat)
    requires Headed(active) && k <= |active|
    requires forall i :: 0 <= i < |staged| ==> start + k <= staged[i].0
    ensures MineAll(q, start, active, staged).active[..k] == active[..k]
    decreases |staged|
  {
    if staged != [] {
      MineAllKeepsBelow(q, start, active, staged[..|staged| - 1], k);
    }
  }

  /** Applying what is staged at or above `start + k` to a linked chain leaves the first `k` blocks, hashes
      included, exactly as they were. */
  lemma ReorgKeepsBelow(q: Parsers, c: Chain, target: int, k: nat)
    requires Valid(q, c) && Linked(q, c.active) && k <= |c.active|
    requires forall i :: 0 <= i < |c.stagedBlocks| ==> BlockFrom(q, c.stagedBlocks[i], c.start + k)
    requires forall i :: 0 <= i < |c.stagedTxs| ==> c.start + k <= c.stagedTxs[i].0
    ensures var r := Apply(q, c, target).0.active;
            k <= |r| && r[..k] == c.active[..k]
  {
    if !Refused(c, target) {
      AddBlocksKeepsSound(q, c.start, c.startSizes, c.active, c.stagedBlocks);
      AddBlocksKeepsBelow(q, c.start, c.startSizes, c.active, c.stagedBlocks, k);
      var (merged, e1) := ApplyBlocks(q, c);
      if e1.None? {
        MineAllKeepsBelow(q, c.start, merged.active, c.stagedTxs, k);
        var (mined, e2) := MineStaged(q, merged);
        if e2.None? {
          PrefixLinked(q, c.active, mined.active, k);
          RelinkKeepsLinked(q, mined.active, k);
        }
      }
    }
  }

  lemma PrefixLinked(q: Parsers, a: seq<ActiveBlock>, b: seq<ActiveBlock>, k: nat)
    requires Headed(a) && Headed(b) && Linked(q, a)
    requires k <= |a| && k <= |b| && a[..k] == b[..k]
    ensures LinkedBelow(q, b, k)
  {
    forall i | 0 < i < k ensures LinkAt(q, b, i) {
      assert LinkAt(q, a, i);
      assert a[..k][i] == b[..k][i] && a[..k][i - 1] == b[..k][i - 1];
    }
  }

  // ---- What an apply accepts, and what it leaves of what was staged ----

  function HeightOf(q: Parsers, raw: Bytes): Option<nat> {
    match q.split(raw)
    case None => None
    case Some((_, txs)) => if txs == [] then None else q.coinbaseHeight(txs[0])
  }

  /** A raw block that can follow a chain of `len` blocks, or replace some of its end. */
  ghost predicate Fits(q: Parsers, start: nat, len: nat, raw: Bytes) {
    && HeightOf(q, raw).Some? && start <= HeightOf(q, raw).value <= start + len
    && forall tx :: tx in q.split(raw).value.1 ==> q.counts(tx).Some?
  }

  /** The block at `k` has the header and transactions of `raw`. */
  ghost predicate HoldsRaw(q: Parsers, active: seq<ActiveBlock>, k: nat, raw: Bytes) {
    && q.split(raw).Some? && k < |active|
    && active[k].header == q.split(raw).value.0 && active[k].txs == q.split(raw).value.1
  }

  /** A block is added exactly when it fits: it takes the place its height says, the blocks below stay and those from
      there on go. Otherwise the error says whether it could not be read or has no place. */
  lemma AddBlockExactly(q: Parsers, start: nat, startSizes: Sizes, active: seq<ActiveBlock>, raw: Bytes)
    ensures var r := AddBlock(q, start, startSizes, active, raw);
            && (r.Ok? <==> Fits(q, start, |active|, raw))
            && (r.Ok? ==>
                  var k := HeightOf(q, raw).value - start;
                  |r.value| == k + 1 && r.value[..k] == active[..k] && HoldsRaw(q, r.value, k, raw))
            && (r == Err(Invalid) <==>
                  && q.split(raw).Some?
                  && (q.split(raw).value.1 == []
                      || (HeightOf(q, raw).Some? && !(start <= HeightOf(q, raw).value <= start + |active|))))
            && (r.Err? ==> r.error == Invalid || r.error == Unparsable)
  {
    match Place(q, start, |active|, raw)
    case Ok((header, txs, offset)) => AccumulateExact(q, SizesBefore(startSizes, active, offset), txs);
    case Err(_) =>
  }

  lemma {:induction false} AddBlocksSucceedExactly(q: Parsers, start: nat, startSizes: Sizes, active: seq<ActiveBlock>, raws: seq<Bytes>)
    ensures var o := AddBlocks(q, start, startSizes, active, raws);
            && (o.error.None? <==>
                  forall i: nat {:trigger FitsInTurn(q, start, startSizes, active, raws, i)} :: i < |raws| ==> FitsInTurn(q, start, startSizes, active, raws, i))
            && (o.error.None? ==> (o.active == [] <==> active == [] && raws == []))
    decreases |raws|
  {
    if raws != [] {
      var n := |raws| - 1;
      var front := raws[..n];
      AddBlocksSucceedExactly(q, start, startSizes, active, front);
      forall i: nat | i < n ensures FitsInTurn(q, start, startSizes, active, front, i) <==> FitsInTurn(q, start, startSizes, active, raws, i) {
        assert front[..i] == raws[..i];
      }
      var o := AddBlocks(q, start, startSizes, active, front);
      if o.error.None? {
        AddBlockExactly(q, start, startSizes, o.active, raws[n]);
        assert FitsInTurn(q, start, startSizes, active, raws, n) <==> Fits(q, start, |o.active|, raws[n]);
      } else {
        var i: nat :| i < n && !FitsInTurn(q, start, startSizes, active, front, i);
        assert !FitsInTurn(q, start, startSizes, active, raws, i);
      }
    }
  }

  /** The i-th staged block fits the chain the ones before it lead to. */
  ghost predicate FitsInTurn(q: Parsers, start: nat, startSizes: Sizes, active: seq<ActiveBlock>, raws: seq<Bytes>, i: nat) {
    i < |raws| && Fits(q, start, |AddBlocks(q, start, startSizes, active, raws[..i]).active|, raws[i])
  }

  /** A staged transaction for a block of a chain of `len` blocks. */
  ghost predicate Minable(q: Parsers, start: nat, len: nat, staged: (nat, Bytes)) {
    start <= staged.0 < start + len && q.counts(staged.1).Some?
  }

  lemma {:induction false} MineAllSucceedsExactly(q: Parsers, start: nat, active: seq<ActiveBlock>, staged: seq<(nat, Bytes)>)
    requires Headed(active)
    ensures MineAll(q, start, active, staged).error.None? <==> forall i :: 0 <= i < |staged| ==> Minable(q, start, |active|, staged[i])
    decreases |staged|
  {
    if staged != [] {
      var n := |staged| - 1;
      MineAllSucceedsExactly(q, start, active, staged[..n]);
      assert forall i :: 0 <= i < n ==> staged[..n][i] == staged[i];
      if !(forall i :: 0 <= i < n ==> Minable(q, start, |active|, staged[..n][i])) {
        var i :| 0 <= i < n && !Minable(q, start, |active|, staged[..n][i]);
        assert !Minable(q, start, |active|, staged[i]);
      }
    }
  }

  /** An apply succeeds exactly when the chain was reset, the target is not below its start, every staged block fits
      in turn, there is a block at all, and every staged transaction is for one of them and parses. */
  lemma ApplySucceedsExactly(q: Parsers, c: Chain, target: int)
    requires Valid(q, c)
    ensures var merged := AddBlocks(q, c.start, c.startSizes, c.active, c.stagedBlocks).active;
            Apply(q, c, target).1.None? <==>
              && c.wasReset && c.start <= target
              && (forall i: nat :: i < |c.stagedBlocks| ==> FitsInTurn(q, c.start, c.startSizes, c.active, c.stagedBlocks, i))
              && (c.active != [] || c.stagedBlocks != [])
              && (forall i :: 0 <= i < |c.stagedTxs| ==> Minable(q, c.start, |merged|, c.stagedTxs[i]))
  {
    AddBlocksKeepsSound(q, c.start, c.startSizes, c.active, c.stagedBlocks);
    AddBlocksSucceedExactly(q, c.start, c.startSizes, c.active, c.stagedBlocks);
    MineAllSucceedsExactly(q, c.start, AddBlocks(q, c.start, c.startSizes, c.active, c.stagedBlocks).active, c.stagedTxs);
  }

  /** No block staged after the i-th is for its height or below. */
  ghost predicate Lasting(q: Parsers, raws: seq<Bytes>, i: nat) {
    && i < |raws| && HeightOf(q, raws[i]).Some?
    && forall j :: i < j < |raws| && HeightOf(q, raws[j]).Some? ==> HeightOf(q, raws[i]).value < HeightOf(q, raws[j]).value
  }

  lemma AddHolds(q: Parsers, start: nat, startSizes: Sizes, active: seq<ActiveBlock>, raw: Bytes)
    requires AddBlock(q, start, startSizes, active, raw).Ok?
    ensures HeightOf(q, raw).Some? && start <= HeightOf(q, raw).value
    ensures HoldsRaw(q, AddBlock(q, start, startSizes, active, raw).value, HeightOf(q, raw).value - start, raw)
  {
    AddBlockExactly(q, start, startSizes, active, raw);
  }

  lemma AddKeepsHeld(q: Parsers, start: nat, startSizes: Sizes, active: seq<ActiveBlock>, raw: Bytes, k: nat, held: Bytes)
    requires AddBlock(q, start, startSizes, active, raw).Ok? && HoldsRaw(q, active, k, held)
    requires HeightOf(q, raw).Some? ==> start + k < HeightOf(q, raw).value
    ensures HoldsRaw(q, AddBlock(q, start, startSizes, active, raw).value, k, held)
  {
    AddBlockExactly(q, start, startSizes, active, raw);
    HoldsStays(q, active, AddBlock(q, start, startSizes, active, raw).value, k, HeightOf(q, raw).value - start, held);
  }

  lemma AddBlocksLast(q: Parsers, start: nat, startSizes: Sizes, active: seq<ActiveBlock>, raws: seq<Bytes>)
    requires raws != [] && AddBlocks(q, start, startSizes, active, raws).error.None?
    ensures var front, last := AddBlocks(q, start, startSizes, active, raws[..|raws| - 1]), raws[|raws| - 1];
            && front.error.None? && AddBlock(q, start, startSizes, front.active, last).Ok?
            && AddBlocks(q, start, startSizes, active, raws).active == AddBlock(q, start, startSizes, front.active, last).value
  {
  }

  lemma {:induction false} AddBlocksHold(q: Parsers, start: nat, startSizes: Sizes, active: seq<ActiveBlock>, raws: seq<Bytes>, i: nat)
    requires AddBlocks(q, start, startSizes, active, raws).error.None? && Lasting(q, raws, i)
    ensures start <= HeightOf(q, raws[i]).value
    ensures HoldsRaw(q, AddBlocks(q, start, startSizes, active, raws).active, HeightOf(q, raws[i]).value - start, raws[i])
    decreases |raws|
  {
    var n := |raws| - 1;
    AddBlocksLast(q, start, startSizes, active, raws);
    var front := AddBlocks(q, start, startSizes, active, raws[..n]).active;
    if i == n {
      AddHolds(q, start, startSizes, front, raws[n]);
    } else {
      LastingFront(q, raws, i);
      AddBlocksHold(q, start, startSizes, active, raws[..n], i);
      AddKeepsHeld(q, start, startSizes, front, raws[n], HeightOf(q, raws[i]).value - start, raws[i]);
    }
  }

  lemma LastingFront(q: Parsers, raws: seq<Bytes>, i: nat)
    requires Lasting(q, raws, i) && i < |raws| - 1
    ensures Lasting(q, raws[..|raws| - 1], i)
  {
    assert forall j :: 0 <= j < |raws| - 1 ==> raws[..|raws| - 1][j] == raws[j];
  }

  lemma HoldsStays(q: Parsers, active: seq<ActiveBlock>, r: seq<ActiveBlock>, k: nat, top: nat, raw: Bytes)
    requires HoldsRaw(q, active, k, raw) && k < top <= |active| && top <= |r| && r[..top] == active[..top]
    ensures HoldsRaw(q, r, k, raw)
  {
    assert r[k] == r[..top][k] == active[..top][k];
  }

  /** Byte `j` of a header after `n` transactions were mined into its block. */
  function TurnedByte(header: Bytes, n: nat, j: nat): byte
    requires j < |header|
  {
    if j == 68 then (header[j] as int + n) % 256 else header[j]
  }

  /** `b` is the staged block at last: its header but for the previous hash and the turned byte, and its transactions
      followed by those mined into it. */
  ghost predicate AppliedAs(header: Bytes, txs: seq<Bytes>, mined: seq<Bytes>, b: ActiveBlock) {
    && b.txs == txs + mined
    && |b.header| == |header|
    && forall j :: 0 <= j < |header| && !(4 <= j < 36) ==> b.header[j] == TurnedByte(header, |mined|, j)
  }

  lemma MinedThenLinked(was: ActiveBlock, mid: ActiveBlock, b: ActiveBlock, mined: seq<Bytes>)
    requires |was.header| >= 140 && TookIn(was, mid, mined) && |mid.header| >= 140 && SameButLink(mid, b)
    ensures AppliedAs(was.header, was.txs, mined, b)
  {
    forall j | 0 <= j < |was.header| && !(4 <= j < 36) ensures b.header[j] == TurnedByte(was.header, |mined|, j) {
      if j < 4 {
        assert b.header[j] == b.header[..4][j] == mid.header[..4][j];
      } else {
        assert b.header[j] == b.header[36..][j - 36] == mid.header[36..][j - 36];
      }
    }
  }

  lemma MinedAndLinkedAt(q: Parsers, start: nat, merged: seq<ActiveBlock>, staged: seq<(nat, Bytes)>, k: nat,
                         mined: seq<ActiveBlock>, linked: seq<ActiveBlock>)
    requires q.Lawful() && Headed(merged) && k < |merged| && MineAll(q, start, merged, staged) == Outcome(mined, None)
    requires Headed(mined) && linked == Relink(q, mined)
    ensures k < |linked| && AppliedAs(merged[k].header, merged[k].txs, TxsAt(staged, start + k), linked[k])
  {
    MineAllPlaces(q, start, merged, staged, k);
    RelinkChangesLinksOnly(q, mined, k);
    MinedThenLinked(merged[k], mined[k], linked[k], TxsAt(staged, start + k));
  }

  /** Every block of `active` is the one of `merged`, with what was staged for its height mined into it. */
  ghost predicate AllApplied(start: nat, merged: seq<ActiveBlock>, staged: seq<(nat, Bytes)>, active: seq<ActiveBlock>) {
    && |active| == |merged|
    && forall k {:trigger merged[k]} :: 0 <= k < |merged| ==> AppliedAs(merged[k].header, merged[k].txs, TxsAt(staged, start + k), active[k])
  }

  lemma MiningAppliesAll(q: Parsers, start: nat, merged: seq<ActiveBlock>, staged: seq<(nat, Bytes)>, mined: seq<ActiveBlock>)
    requires q.Lawful() && Headed(merged) && Headed(mined) && MineAll(q, start, merged, staged) == Outcome(mined, None)
    ensures AllApplied(start, merged, staged, Relink(q, mined))
  {
    forall k | 0 <= k < |merged| ensures AppliedAs(merged[k].header, merged[k].txs, TxsAt(staged, start + k), Relink(q, mined)[k]) {
      MinedAndLinkedAt(q, start, merged, staged, k, mined, Relink(q, mined));
    }
  }

  /** What a successful apply makes of the merged chain. */
  lemma ApplyEnds(q: Parsers, c: Chain, target: int, merged: seq<ActiveBlock>)
    requires Valid(q, c) && Apply(q, c, target).1.None?
    requires merged == AddBlocks(q, c.start, c.startSizes, c.active, c.stagedBlocks).active
    ensures AddBlocks(q, c.start, c.startSizes, c.active, c.stagedBlocks).error.None?
    ensures AllApplied(c.start, merged, c.stagedTxs, Apply(q, c, target).0.active)
  {
    AddBlocksKeepsSound(q, c.start, c.startSizes, c.active, c.stagedBlocks);
    MiningAppliesAll(q, c.start, merged, c.stagedTxs, MineAll(q, c.start, merged, c.stagedTxs).active);
  }

  lemma HeldIsApplied(q: Parsers, start: nat, merged: seq<ActiveBlock>, staged: seq<(nat, Bytes)>, active: seq<ActiveBlock>,
                      raw: Bytes, header: Bytes, txs: seq<Bytes>, height: nat)
    requires AllApplied(start, merged, staged, active) && q.split(raw) == Some((header, txs))
    requires start <= height && HoldsRaw(q, merged, height - start, raw)
    ensures height < start + |active| && AppliedAs(header, txs, TxsAt(staged, height), active[height - start])
  {
    var k: nat := height - start;
    assert merged[k].header == header && merged[k].txs == txs;
  }

  /** After a successful apply every staged block that no later one replaces stands at its height. */
  lemma StagedBlockIsApplied(q: Parsers, c: Chain, target: int, i: nat, header: Bytes, txs: seq<Bytes>, height: nat, active: seq<ActiveBlock>)
    requires Valid(q, c) && Apply(q, c, target).1.None? && active == Apply(q, c, target).0.active
    requires Lasting(q, c.stagedBlocks, i)
    requires q.split(c.stagedBlocks[i]) == Some((header, txs)) && HeightOf(q, c.stagedBlocks[i]) == Some(height)
    ensures c.start <= height < c.start + |active|
    ensures AppliedAs(header, txs, TxsAt(c.stagedTxs, height), active[height - c.start])
  {
    var merged := AddBlocks(q, c.start, c.startSizes, c.active, c.stagedBlocks).active;
    ApplyEnds(q, c, target, merged);
    AddBlocksHold(q, c.start, c.startSizes, c.active, c.stagedBlocks, i);
    HeldIsApplied(q, c.start, merged, c.stagedTxs, active, c.stagedBlocks[i], header, txs, height);
  }

  /** Created blocks are staged at consecutive heights, in order. */
  lemma {:induction false} CreatedAreConsecutive(q: Parsers, c: Chain, height: int, nonce: int, count: nat)
    requires StageCreated(q, c, height, nonce, count).1.None?
    ensures var d := StageCreated(q, c, height, nonce, count).0;
            && d == c.(stagedBlocks := d.stagedBlocks)
            && |d.stagedBlocks| == |c.stagedBlocks| + count && c.stagedBlocks <= d.stagedBlocks
            && forall k :: |c.stagedBlocks| <= k < |d.stagedBlocks| ==>
                 q.synthetic(height + k - |c.stagedBlocks|, nonce) == Some(d.stagedBlocks[k])
  {
    if count > 0 {
      CreatedAreConsecutive(q, c, height, nonce, count - 1);
    }
  }

  /** Staging takes a block exactly when the chain was reset and the block has a height not below its start, and a
      transaction exactly when it parses; each goes to the end of what is staged, and nothing else changes. */
  lemma StagingExactly(q: Parsers, c: Chain, raw: Bytes, height: nat)
    ensures var (d, e) := StageOne(q, c, raw);
            && (e.None? <==> c.wasReset && HeightOf(q, raw).Some? && c.start <= HeightOf(q, raw).value)
            && d == (if e.None? then c.(stagedBlocks := c.stagedBlocks + [raw]) else c)
    ensures var (d, e) := StageTx(q, c, height, raw);
            && (e.None? <==> c.wasReset && q.counts(raw).Some?)
            && d == (if e.None? then c.(stagedTxs := c.stagedTxs + [(height, raw)]) else c)
  {
  }

  // ---- The node plane ----

  function TipIndex(c: Chain): Option<nat> {
    if c.latest < c.start then None
    else if c.latest - c.start < |c.active| then Some(c.latest - c.start) else None
  }

  function BlockAt(c: Chain, height: nat): Result<ActiveBlock, DarksideError> {
    if c.active == [] || c.latest < 0 || height > c.latest then Err(Invalid)
    else if height < c.start then Err(Invalid)
    else if height - c.start < |c.active| then Ok(c.active[height - c.start]) else Err(Invalid)
  }

  /** After a successful apply the node presents exactly the heights from the start to the tip, each block
      its own height, each linked to the one below. */
  lemma PresentedIsOneChain(q: Parsers, c: Chain, target: int, height: nat)
    requires Valid(q, c) && Apply(q, c, target).1.None?
    ensures var r := Apply(q, c, target).0;
            && TipIndex(r) == Some(r.latest - r.start)
            && (BlockAt(r, height).Ok? <==> r.start <= height <= r.latest)
            && (BlockAt(r, height).Ok? ==>
                  && BlockAt(r, height).value.txs != []
                  && q.coinbaseHeight(BlockAt(r, height).value.txs[0]) == Some(height))
            && (BlockAt(r, height).Ok? && BlockAt(r, height + 1).Ok? ==>
                  && |BlockAt(r, height + 1).value.header| >= 140
                  && BlockAt(r, height + 1).value.header[4..36] == q.sha256d(BlockAt(r, height).value.header))
  {
    ApplyKeepsValid(q, c, target);
    PresentedLinks(q, Apply(q, c, target).0, height);
  }

  lemma PresentedLinks(q: Parsers, r: Chain, height: nat)
    requires Valid(q, r) && Linked(q, r.active) && r.start <= r.latest < r.start + |r.active|
    ensures TipIndex(r) == Some(r.latest - r.start)
    ensures BlockAt(r, height).Ok? <==> r.start <= height <= r.latest
    ensures BlockAt(r, height).Ok? ==>
              BlockAt(r, height).value.txs != [] && q.coinbaseHeight(BlockAt(r, height).value.txs[0]) == Some(height)
    ensures BlockAt(r, height).Ok? && BlockAt(r, height + 1).Ok? ==>
              && |BlockAt(r, height + 1).value.header| >= 140
              && BlockAt(r, height + 1).value.header[4..36] == q.sha256d(BlockAt(r, height).value.header)
  {
    if r.start <= height <= r.latest {
      assert BlockOk(q, r.start, r.startSizes, r.active, height - r.start);
      if height < r.latest {
        assert LinkAt(q, r.active, height + 1 - r.start);
      }
    }
  }

  // ---- The state as it is updated in place ----

  class DarksideState {
    const q: Parsers
    var wasReset: bool
    var start: nat
    var startSizes: Sizes
    var latest: int
    var active: seq<ActiveBlock>
    var stagedBlocks: seq<Bytes>
    var stagedTxs: seq<(nat, Bytes)>

    ghost function View(): Chain
      reads this
    {
      Chain(wasReset, start, startSizes, latest, active, stagedBlocks, stagedTxs)
    }

    ghost predicate Ok()
      reads this
    {
      Valid(q, View())
    }

    constructor (q: Parsers)
      requires q.Lawful()
      ensures Ok() && View() == FRESH && this.q == q
    {
      this.q := q;
      wasReset, start, startSizes, latest := false, 0, ZERO, -1;
      active, stagedBlocks, stagedTxs := [], [], [];
    }

    method Reset(activation: int, sizes: Sizes)
      requires Ok()
      modifies this
      ensures Ok() && View() == Perform(q, old(View()), Op.Reset(if activation < 0 then 0 else activation, sizes)).0
      ensures View() == Chain(true, if activation < 0 then 0 else activation, sizes, -1, [], [], [])
    {
      wasReset, start, startSizes, latest := true, if activation < 0 then 0 else activation, sizes, -1;
      active, stagedBlocks, stagedTxs := [], [], [];
    }

    method StageBlock(raw: Bytes) returns (error: Option<DarksideError>)
      requires Ok()
      modifies this`stagedBlocks
      ensures Ok() && (View(), error) == StageOne(q, old(View()), raw)
    {
      if !wasReset {
        return Some(NotReset);
      }
      match q.split(raw) {
        case None => return Some(Unparsable);
        case Some((_, txs)) =>
          if txs == [] {
            return Some(Invalid);
          }
          match q.coinbaseHeight(txs[0]) {
            case None => return Some(Unparsable);
            case Some(height) =>
              if height < start {
                return Some(Invalid);
              }
          }
      }
      stagedBlocks := stagedBlocks + [raw];
      error := None;
    }

    method StageBlocksCreate(height: int, nonce: int, count: int) returns (error: Option<DarksideError>)
      requires Ok()
      modifies this`stagedBlocks
      ensures Ok() && (View(), error) == Perform(q, old(View()), Op.StageBlocksCreate(height, nonce, count))
    {
      if !wasReset {
        return Some(NotReset);
      }
      var n := if count < 0 then 0 else count;
      for i := 0 to n
        invariant Ok() && (View(), None) == StageCreated(q, old(View()), height, nonce, i)
      {
        var raw := q.synthetic(height + i, nonce);
        if raw.None? {
          ErrorSticks(q, old(View()), height, nonce, i + 1, n);
          return Some(Unparsable);
        }
        error := StageBlock(raw.value);
        if error.Some? {
          ErrorSticks(q, old(View()), height, nonce, i + 1, n);
          return;
        }
      }
      error := None;
    }

    method StageTransaction(height: nat, raw: Bytes) returns (error: Option<DarksideError>)
      requires Ok()
      modifies this`stagedTxs
      ensures Ok() && (View(), error) == StageTx(q, old(View()), height, raw)
    {
      if !wasReset {
        return Some(NotReset);
      }
      if q.counts(raw).None? {
        return Some(Unparsable);
      }
      stagedTxs := stagedTxs + [(height, raw)];
      error := None;
    }

    method AddBlockActive(raw: Bytes) returns (error: Option<DarksideError>)
      requires Ok()
      modifies this`active
      ensures Ok() && Outcome(active, error) == Attempt(old(active), AddBlock(q, start, startSizes, old(active), raw))
    {
      match q.split(raw) {
        case None => return Some(Unparsable);
        case Some((header, txs)) =>
          if txs == [] {
            return Some(Invalid);
          }
          match q.coinbaseHeight(txs[0]) {
            case None => return Some(Unparsable);
            case Some(height) =>
              if height > start + |active| {
                return Some(Invalid);
              }
              if height < start {
                return Some(Invalid);
              }
              var offset := height - start;
              var before := if offset > 0 then active[offset - 1].sizes else startSizes;
              var sizes := SumCounts(q, before, txs);
              if sizes.None? {
                return Some(Unparsable);
              }
              AddBlockKeepsSound(q, start, startSizes, active, raw);
              active := active[..offset];
              active := active + [ActiveBlock(header, txs, sizes.value)];
              error := None;
          }
      }
    }

    method ApplyStagedBlocks() returns (error: Option<DarksideError>)
      requires Ok()
      modifies this`active, this`stagedBlocks
      ensures Ok() && (View(), error) == ApplyBlocks(q, old(View()))
    {
      var staged := stagedBlocks;
      stagedBlocks := [];
      ghost var was := active;
      for i := 0 to |staged|
        invariant Ok() && stagedBlocks == []
        invariant Outcome(active, None) == AddBlocks(q, start, startSizes, was, staged[..i])
      {
        assert staged[..i + 1][..i] == staged[..i];
        error := AddBlockActive(staged[i]);
        if error.Some? {
          BlocksErrorSticks(q, start, startSizes, was, staged, i + 1);
          return;
        }
      }
      assert staged[..|staged|] == staged;
      error := if active == [] then Some(Invalid) else None;
    }

    method MineStagedTransactions() returns (error: Option<DarksideError>)
      requires Ok()
      modifies this`active, this`stagedTxs
      ensures Ok() && (View(), error) == MineStaged(q, old(View()))
    {
      var staged := stagedTxs;
      stagedTxs := [];
      ghost var was := active;
      for i := 0 to |staged|
        invariant Ok() && stagedTxs == []
        invariant Outcome(active, None) == MineAll(q, start, was, staged[..i])
      {
        assert staged[..i + 1][..i] == staged[..i];
        error := MineOne(staged[i].0, staged[i].1);
        if error.Some? {
          MiningErrorSticks(q, start, was, staged, i + 1);
          return;
        }
      }
      assert staged[..|staged|] == staged;
      error := None;
    }

    method MineOne(height: nat, raw: Bytes) returns (error: Option<DarksideError>)
      requires Ok()
      modifies this`active
      ensures Ok() && Outcome(active, error) == Attempt(old(active), Mine(q, start, old(active), height, raw))
    {
      if height < start {
        return Some(Invalid);
      }
      var index := height - start;
      if index >= |active| {
        return Some(Invalid);
      }
      var notes := q.counts(raw);
      if notes.None? {
        return Some(Unparsable);
      }
      MineKeepsSound(q, start, startSizes, active, height, raw);
      ghost var pushed := active[index := PushTx(active[index], raw)];
      active := active[index := PushTx(active[index], raw)];
      for j := index to |active|
        invariant |active| == |pushed|
        invariant forall i :: 0 <= i < |active| ==>
                    active[i] == if index <= i < j then pushed[i].(sizes := Grow(pushed[i].sizes, notes.value)) else pushed[i]
      {
        active := active[j := active[j].(sizes := Grow(active[j].sizes, notes.value))];
      }
      assert active == GrowFrom(pushed, index, notes.value);
      error := None;
    }

    method ApplyStaged(target: int) returns (error: Option<DarksideError>)
      requires Ok()
      modifies this
      ensures Ok() && (View(), error) == Apply(q, old(View()), target)
    {
      ApplyKeepsValid(q, View(), target);
      if !wasReset {
        return Some(NotReset);
      }
      if target < start {
        return Some(Invalid);
      }
      error := ApplyStagedBlocks();
      if error.Some? {
        return;
      }
      error := MineStagedTransactions();
      if error.Some? {
        return;
      }
      Present(target);
    }

    method Present(target: int)
      requires Ok()
      modifies this`active, this`latest
      ensures Ok() && View() == Finish(q, old(View()), target)
    {
      RelinkKeepsSound(q, start, startSizes, active);
      active := SetPrevHash(q, active);
      var top := start + |active| - 1;
      latest := if target <= top then target else top;
    }
  }

  /** The running sizes over a block's transactions. */
  method SumCounts(q: Parsers, from: Sizes, txs: seq<Bytes>) returns (sizes: Option<Sizes>)
    ensures sizes == Accumulate(q, from, txs)
  {
    var total := from;
    for i := 0 to |txs|
      invariant Accumulate(q, from, txs[..i]) == Some(total)
    {
      assert txs[..i + 1][..i] == txs[..i];
      match q.counts(txs[i]) {
        case None =>
          AccumulateExact(q, from, txs);
          return None;
        case Some(notes) => total := Grow(total, notes);
      }
    }
    assert txs[..|txs|] == txs;
    sizes := Some(total);
  }

  /** `set_prevhash`: one pass, each header hashed once its own previous hash is in place. */
  method SetPrevHash(q: Parsers, active: seq<ActiveBlock>) returns (r: seq<ActiveBlock>)
    requires q.Lawful() && Headed(active)
    ensures r == Relink(q, active)
  {
    r := active;
    var prev: Option<Bytes> := None;
    for i := 0 to |active|
      invariant |r| == |active| && r[..i] == Relink(q, active[..i]) && r[i..] == active[i..]
      invariant prev == if i == 0 then None else Some(q.sha256d(r[i - 1].header))
    {
      assert active[..i + 1][..i] == active[..i];
      assert r[i] == r[i..][0] == active[i];
      assert i > 0 ==> r[..i][i - 1] == r[i - 1];
      ghost var before := r;
      if prev.Some? {
        r := r[i := WithPrevHash(r[i], prev.value)];
      }
      assert r[..i + 1] == before[..i] + [r[i]];
      assert r[i + 1..] == active[i + 1..];
      prev := Some(q.sha256d(r[i].header));
    }
    assert active[..|active|] == active && r[..|active|] == r;
  }

  lemma {:induction false} ErrorSticks(q: Parsers, c: Chain, height: int, nonce: int, i: nat, n: nat)
    requires i <= n && StageCreated(q, c, height, nonce, i).1.Some?
    ensures StageCreated(q, c, height, nonce, n) == StageCreated(q, c, height, nonce, i)
    decreases n
  {
    if i < n {
      ErrorSticks(q, c, height, nonce, i, n - 1);
    }
  }

  lemma {:induction false} BlocksErrorSticks(q: Parsers, start: nat, startSizes: Sizes, active: seq<ActiveBlock>, raws: seq<Bytes>, i: nat)
    requires i <= |raws| && AddBlocks(q, start, startSizes, active, raws[..i]).error.Some?
    ensures AddBlocks(q, start, startSizes, active, raws) == AddBlocks(q, start, startSizes, active, raws[..i])
    decreases |raws|
  {
    if i == |raws| {
      assert raws[..i] == raws;
    } else {
      assert raws[..|raws| - 1][..i] == raws[..i];
      BlocksErrorSticks(q, start, startSizes, active, raws[..|raws| - 1], i);
    }
  }

  lemma {:induction false} MiningErrorSticks(q: Parsers, start: nat, active: seq<ActiveBlock>, staged: seq<(nat, Bytes)>, i: nat)
    requires Headed(active) && i <= |staged| && MineAll(q, start, active, staged[..i]).error.Some?
    ensures MineAll(q, start, active, staged) == MineAll(q, start, active, staged[..i])
    decreases |staged|
  {
    if i == |staged| {
      assert staged[..i] == staged;
    } else {
      assert staged[..|staged| - 1][..i] == staged[..i];
      MiningErrorSticks(q, start, active, staged[..|staged| - 1], i);
    }
  }
}
