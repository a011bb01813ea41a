/** Serving a block range: byte-budgeted cache reads in either direction, the node for what is missing, and a
    check of every seam. The cache may change between reads. */
module RangeServer {
  import opened Base
  import opened Blocks
  import opened BlockStore
  import opened BlockCache
  import opened Filter
  import Framing

  const CACHE_READ_CHUNK: nat := 64
  const CACHE_READ_CHUNK_BYTES: nat := 512 * 1024

  datatype Status = CacheFailure | NodeFailure | Discontinuity

  datatype BlockSource = FromCache | FromNode

  /** The seam a served block leaves open: its height, the hash expected across it, and where the block was from. */
  datatype ChainLink = ChainLink(height: nat, expected: Bytes, source: BlockSource)

  /** The node during one request. Each missing height is fetched once, so an answer per height suffices. */
  type NodeAnswers = nat -> Option<CompactBlock>

  function LinkAfter(height: nat, b: CompactBlock, descending: bool, source: BlockSource): ChainLink {
    ChainLink(height, if descending then b.prevHash else b.hash, source)
  }

  predicate LinkHolds(link: ChainLink, b: CompactBlock, descending: bool) {
    (if descending then b.hash else b.prevHash) == link.expected
  }

  // ---- The simple form: one height at a time, from the cache or else the node ----

  /** The block at `height`: what the table holds, or else the node's, held to its height. */
  function ResolveHeight(p: Primitives, t: Table, node: NodeAnswers, height: nat): Result<(CompactBlock, BlockSource), Status> {
    if height in t then
      match p.decode(t[height])
      case Some(b) => Ok((b, FromCache))
      case None => Err(CacheFailure)
    else
      match node(height)
      case Some(b) => if b.height == height then Ok((b, FromNode)) else Err(NodeFailure)
      case None => Err(NodeFailure)
  }

  /** A stream so far: the blocks served before the transform, the link for the next, the error that ended it,
      and the height reported for repair. */
  datatype Stream = Stream(blocks: seq<CompactBlock>, link: Option<ChainLink>, error: Option<Status>, report: Option<nat>)

  const OPENED: Stream := Stream([], None, None, None)

  function ServeOne(p: Primitives, t: Table, node: NodeAnswers, descending: bool, s: Stream, height: nat): Stream {
    match ResolveHeight(p, t, node, height)
    case Err(e) => s.(error := Some(e))
    case Ok((b, source)) =>
      if s.link.Some? && !LinkHolds(s.link.value, b, descending) then
        s.(error := Some(Discontinuity),
           report := if s.link.value.source.FromCache? || source.FromCache? then Some(Min(height, s.link.value.height)) else None)
      else Stream(s.blocks + [b], Some(LinkAfter(height, b, descending, source)), None, None)
  }

  /** Serve `heights` in turn, `tables[i]` being the cache when the i-th was read, up to the first error. */
  function Serve(p: Primitives, tables: seq<Table>, node: NodeAnswers, descending: bool, heights: seq<nat>): Stream
    requires |tables| == |heights|
    decreases |heights|
  {
    if heights == [] then OPENED
    else
      var n := |heights| - 1;
      var s := Serve(p, tables[..n], node, descending, heights[..n]);
      if s.error.Some? then s else ServeOne(p, tables[n], node, descending, s, heights[n])
  }

  /** The requested heights, in the order they are served. */
  function Requested(start: nat, end: nat): (r: seq<nat>)
    ensures |r| == (if start <= end then end - start else start - end) + 1
    ensures forall i :: 0 <= i < |r| ==> r[i] == if start <= end then start + i else start - i
  {
    if start <= end then seq(end - start + 1, i => start + i) else seq(start - end + 1, i requires 0 <= i <= start - end => start - i)
  }

  // ---- What the simple form serves ----

  /** `b` is the block for `height`: what the cache stores there or, only if it stores nothing, what the node has. */
  ghost predicate HeldAs(p: Primitives, t: Table, node: NodeAnswers, height: nat, b: CompactBlock) {
    if height in t then p.decode(t[height]) == Some(b) else node(height) == Some(b) && b.height == height
  }

  /** The i-th block is the one for the i-th height. */
  ghost predicate Resolves(p: Primitives, tables: seq<Table>, node: NodeAnswers, heights: seq<nat>, i: nat, b: CompactBlock)
    requires i < |heights| == |tables|
  {
    HeldAs(p, tables[i], node, heights[i], b)
  }

  /** Why `height` cannot follow `prior`: the cache cannot read its row, the node lacks a height the cache has not,
      or the block there belongs to another chain. */
  ghost predicate FailsAs(p: Primitives, t: Table, node: NodeAnswers, descending: bool, prior: Option<CompactBlock>, height: nat, error: Status) {
    match error
    case CacheFailure => height in t && p.decode(t[height]).None?
    case NodeFailure => height !in t && (node(height).None? || node(height).value.height != height)
    case Discontinuity => prior.Some? && exists b :: HeldAs(p, t, node, height, b) && !Seamless(descending, prior.value, b)
  }

  lemma ResolvesAsHeld(p: Primitives, t: Table, node: NodeAnswers, height: nat)
    ensures var r := ResolveHeight(p, t, node, height);
            && (forall b :: HeldAs(p, t, node, height, b) <==> r.Ok? && r.value.0 == b)
            && (r.Ok? ==> (r.value.1.FromCache? <==> height in t))
            && (r.Err? ==> r.error != Discontinuity && FailsAs(p, t, node, false, None, height, r.error))
  {
  }

  /** `b` then `c`, in the order served, are neighbours on one chain. */
  predicate Seamless(descending: bool, b: CompactBlock, c: CompactBlock) {
    if descending then c.hash == b.prevHash else c.prevHash == b.hash
  }

  predicate SeamAt(descending: bool, blocks: seq<CompactBlock>, i: nat)
    requires 0 < i < |blocks|
  {
    Seamless(descending, blocks[i - 1], blocks[i])
  }

  /** The served blocks answer the first heights in order, and each follows the one before. */
  ghost predicate Answers(p: Primitives, tables: seq<Table>, node: NodeAnswers, descending: bool, heights: seq<nat>, s: Stream)
    requires |heights| == |tables|
  {
    && |s.blocks| <= |heights|
    && (s.error.None? <==> |s.blocks| == |heights|)
    && (forall i {:trigger Resolves(p, tables, node, heights, i, s.blocks[i])} :: 0 <= i < |s.blocks| ==> Resolves(p, tables, node, heights, i, s.blocks[i]))
    && (forall i {:trigger SeamAt(descending, s.blocks, i)} :: 0 < i < |s.blocks| ==> SeamAt(descending, s.blocks, i))
    && (s.error.None? && heights != [] ==>
          var n := |heights| - 1;
          var r := ResolveHeight(p, tables[n], node, heights[n]);
          r.Ok? && s.link == Some(LinkAfter(heights[n], s.blocks[n], descending, r.value.1)))
    && (heights == [] ==> s.link.None?)
  }

  lemma {:induction false} ServeAnswers(p: Primitives, tables: seq<Table>, node: NodeAnswers, descending: bool, heights: seq<nat>)
    requires |tables| == |heights|
    ensures Answers(p, tables, node, descending, heights, Serve(p, tables, node, descending, heights))
    decreases |heights|
  {
    if heights != [] {
      var n := |heights| - 1;
      ServeAnswers(p, tables[..n], node, descending, heights[..n]);
      AnswersMore(p, tables, node, descending, heights, Serve(p, tables[..n], node, descending, heights[..n]));
    }
  }

  lemma AnswersMore(p: Primitives, tables: seq<Table>, node: NodeAnswers, descending: bool, heights: seq<nat>, s: Stream)
    requires |tables| == |heights| && heights != []
    requires Answers(p, tables[..|heights| - 1], node, descending, heights[..|heights| - 1], s)
    ensures var n := |heights| - 1;
            Answers(p, tables, node, descending, heights, if s.error.Some? then s else ServeOne(p, tables[n], node, descending, s, heights[n]))
  {
    var n := |heights| - 1;
    forall i | 0 <= i < |s.blocks| ensures Resolves(p, tables, node, heights, i, s.blocks[i]) {
      assert Resolves(p, tables[..n], node, heights[..n], i, s.blocks[i]);
    }
    var r := ResolveHeight(p, tables[n], node, heights[n]);
    if s.error.None? && r.Ok? && (s.link.Some? ==> LinkHolds(s.link.value, r.value.0, descending)) {
      AnswersOneMore(p, tables, node, descending, heights, s, r.value.0, r.value.1);
    }
  }

  lemma AnswersOneMore(p: Primitives, tables: seq<Table>, node: NodeAnswers, descending: bool, heights: seq<nat>, s: Stream, b: CompactBlock, source: BlockSource)
    requires |tables| == |heights| && heights != [] && s.error.None?
    requires Answers(p, tables[..|heights| - 1], node, descending, heights[..|heights| - 1], s)
    requires ResolveHeight(p, tables[|heights| - 1], node, heights[|heights| - 1]) == Ok((b, source))
    requires s.link.Some? ==> LinkHolds(s.link.value, b, descending)
    ensures Answers(p, tables, node, descending, heights,
                    Stream(s.blocks + [b], Some(LinkAfter(heights[|heights| - 1], b, descending, source)), None, None))
  {
    var n := |heights| - 1;
    var blocks := s.blocks + [b];
    forall i | 0 <= i < |blocks| ensures Resolves(p, tables, node, heights, i, blocks[i]) {
      if i < n {
        assert Resolves(p, tables[..n], node, heights[..n], i, s.blocks[i]);
      }
    }
    forall i | 0 < i < |blocks| ensures SeamAt(descending, blocks, i) {
      if i < n {
        assert SeamAt(descending, s.blocks, i);
      }
    }
  }

  /** The stream is error-free exactly when every height resolves and every two neighbours connect. */
  lemma {:induction false} ServeCompletesExactly(p: Primitives, tables: seq<Table>, node: NodeAnswers, descending: bool, heights: seq<nat>, blocks: seq<CompactBlock>)
    requires |tables| == |heights| == |blocks|
    requires forall i {:trigger blocks[i]} :: 0 <= i < |heights| ==> Resolves(p, tables, node, heights, i, blocks[i])
    ensures Serve(p, tables, node, descending, heights).error.None?
            <==> forall i {:trigger SeamAt(descending, blocks, i)} :: 0 < i < |blocks| ==> SeamAt(descending, blocks, i)
    decreases |heights|
  {
    if heights != [] {
      var n := |heights| - 1;
      FrontResolves(p, tables, node, heights, blocks, n);
      ServeCompletesExactly(p, tables[..n], node, descending, heights[..n], blocks[..n]);
      ServeAnswers(p, tables[..n], node, descending, heights[..n]);
      LastSeam(p, tables, node, descending, heights, blocks, Serve(p, tables[..n], node, descending, heights[..n]));
    }
  }

  lemma FrontResolves(p: Primitives, tables: seq<Table>, node: NodeAnswers, heights: seq<nat>, blocks: seq<CompactBlock>, n: nat)
    requires |tables| == |heights| == |blocks| && n <= |blocks|
    requires forall i {:trigger blocks[i]} :: 0 <= i < |heights| ==> Resolves(p, tables, node, heights, i, blocks[i])
    ensures forall i {:trigger blocks[..n][i]} :: 0 <= i < n ==> Resolves(p, tables[..n], node, heights[..n], i, blocks[..n][i])
  {
    forall i | 0 <= i < n ensures Resolves(p, tables[..n], node, heights[..n], i, blocks[..n][i]) {
      assert Resolves(p, tables, node, heights, i, blocks[i]);
    }
  }

  lemma LastSeam(p: Primitives, tables: seq<Table>, node: NodeAnswers, descending: bool, heights: seq<nat>, blocks: seq<CompactBlock>, s: Stream)
    requires |tables| == |heights| == |blocks| && heights != []
    requires forall i {:trigger blocks[i]} :: 0 <= i < |heights| ==> Resolves(p, tables, node, heights, i, blocks[i])
    requires Answers(p, tables[..|heights| - 1], node, descending, heights[..|heights| - 1], s)
    requires s.error.None? <==> forall i {:trigger SeamAt(descending, blocks[..|heights| - 1], i)} :: 0 < i < |heights| - 1 ==>
               SeamAt(descending, blocks[..|heights| - 1], i)
    ensures var n := |heights| - 1;
            var after := if s.error.Some? then s else ServeOne(p, tables[n], node, descending, s, heights[n]);
            after.error.None? <==> forall i {:trigger SeamAt(descending, blocks, i)} :: 0 < i < |blocks| ==> SeamAt(descending, blocks, i)
  {
    var n := |heights| - 1;
    var front := blocks[..n];
    assert Resolves(p, tables, node, heights, n, blocks[n]);
    if s.error.None? {
      if n > 0 {
        assert Resolves(p, tables[..n], node, heights[..n], n - 1, s.blocks[n - 1]);
        assert Resolves(p, tables, node, heights, n - 1, blocks[n - 1]);
        assert s.blocks[n - 1] == blocks[n - 1];
      }
      forall i | 0 < i < n ensures SeamAt(descending, blocks, i) {
        assert SeamAt(descending, front, i);
      }
      assert n > 0 ==> (SeamAt(descending, blocks, n) <==> LinkHolds(s.link.value, blocks[n], descending));
    } else {
      var i :| 0 < i < n && !SeamAt(descending, front, i);
      assert !SeamAt(descending, blocks, i);
    }
  }

  /** The cache served a side of the seam below place `n`. */
  ghost predicate CacheOnSeam(tables: seq<Table>, heights: seq<nat>, n: nat)
    requires |tables| == |heights|
  {
    0 < n < |heights| && (heights[n - 1] in tables[n - 1] || heights[n] in tables[n])
  }

  /** A stream reports exactly when it ended in a seam that does not hold and the cache served a side of it,
      and what it reports is the lower height of that seam. */
  lemma {:induction false} ReportIsSuspect(p: Primitives, tables: seq<Table>, node: NodeAnswers, descending: bool, heights: seq<nat>)
    requires |tables| == |heights|
    ensures var s := Serve(p, tables, node, descending, heights);
            var n := |s.blocks|;
            && (s.report.Some? <==> s.error == Some(Discontinuity) && CacheOnSeam(tables, heights, n))
            && (s.report.Some? ==> s.report == Some(Min(heights[n - 1], heights[n])))
    decreases |heights|
  {
    if heights != [] {
      var n := |heights| - 1;
      ReportIsSuspect(p, tables[..n], node, descending, heights[..n]);
      ServeAnswers(p, tables[..n], node, descending, heights[..n]);
      ServeAnswers(p, tables, node, descending, heights);
      ReportFromSeam(p, tables, node, descending, heights, Serve(p, tables[..n], node, descending, heights[..n]));
    }
  }

  lemma ReportFromSeam(p: Primitives, tables: seq<Table>, node: NodeAnswers, descending: bool, heights: seq<nat>, s: Stream)
    requires |tables| == |heights| && heights != []
    requires Answers(p, tables[..|heights| - 1], node, descending, heights[..|heights| - 1], s)
    requires s.error.None? ==> s.report.None?
    ensures var n := |heights| - 1;
            var after := ServeOne(p, tables[n], node, descending, s, heights[n]);
            s.error.None? ==>
              && (after.report.Some? <==> after.error == Some(Discontinuity) && CacheOnSeam(tables, heights, n))
              && (after.report.Some? ==> after.report == Some(Min(heights[n - 1], heights[n])))
              && (after.error.Some? ==> |after.blocks| == n)
  {
  }

  // ---- The stream as it runs ----

  /** `chunk_from`: the next window to ask the cache for. */
  function ChunkFrom(cursor: nat, low: nat, high: nat, descending: bool): (r: (nat, nat))
    requires low <= cursor <= high
    ensures low <= r.0 <= r.1 <= high && (if descending then r.1 == cursor else r.0 == cursor)
  {
    if descending then (Max(SatSub(cursor, CACHE_READ_CHUNK - 1), low), cursor)
    else (cursor, Min(cursor + (CACHE_READ_CHUNK - 1), high))
  }

  /** A row kept by a chunk resolves as the table it was read from. */
  lemma ChunkResolves(p: Primitives, t: Table, rows: Table, from: nat, to: nat, node: NodeAnswers, height: nat)
    requires rows == Slice(t, from, to + 1) && from <= height <= to
    ensures ResolveHeight(p, rows, node, height) == ResolveHeight(p, t, node, height)
  {
  }

  /** How far a stream has got: the tables consulted, one a height, each the cache at some read, in order. */
  ghost predicate Progress(p: Primitives, views: nat -> Table, node: NodeAnswers, start: nat, end: nat,
                           consulted: seq<nat>, chunk: nat, s: Stream)
  {
    && |consulted| <= |Requested(start, end)|
    && (forall i :: 0 <= i < |consulted| ==> consulted[i] <= chunk)
    && (forall i, j :: 0 <= i <= j < |consulted| ==> consulted[i] <= consulted[j])
    && s == Serve(p, TablesAt(views, consulted), node, start > end, Requested(start, end)[..|consulted|])
  }

  ghost function TablesAt(views: nat -> Table, consulted: seq<nat>): (r: seq<Table>)
    ensures |r| == |consulted| && forall i :: 0 <= i < |r| ==> r[i] == views(consulted[i])
  {
    seq(|consulted|, i requires 0 <= i < |consulted| => views(consulted[i]))
  }

  lemma ProgressOne(p: Primitives, views: nat -> Table, node: NodeAnswers, start: nat, end: nat,
                    consulted: seq<nat>, chunk: nat, s: Stream, height: nat)
    requires Progress(p, views, node, start, end, consulted, chunk, s) && s.error.None?
    requires |consulted| < |Requested(start, end)| && height == Requested(start, end)[|consulted|]
    ensures Progress(p, views, node, start, end, consulted + [chunk], chunk, ServeOne(p, views(chunk), node, start > end, s, height))
  {
    var n := |consulted|;
    var longer, heights := consulted + [chunk], Requested(start, end);
    assert TablesAt(views, longer)[..n] == TablesAt(views, consulted);
    assert heights[..n + 1][..n] == heights[..n];
  }

  /** The height the stream is at after `n` of them. */
  function HeightAt(start: nat, end: nat, n: nat): nat
    requires n < |Requested(start, end)|
  {
    Requested(start, end)[n]
  }

  /** `s` is what the per-height loop serves over tables the reads saw, in order: all of the range, or up to
      an error. */
  ghost predicate ServedBy(p: Primitives, views: nat -> Table, node: NodeAnswers, start: nat, end: nat, s: Stream) {
    exists consulted: seq<nat>, chunk: nat :: Progress(p, views, node, start, end, consulted, chunk, s) && Ended(start, end, consulted, s)
  }

  ghost predicate Ended(start: nat, end: nat, consulted: seq<nat>, s: Stream) {
    s.error.None? ==> |consulted| == |Requested(start, end)|
  }

  /** `block_range_stream`, before framing. `views(k)` is the cache as the k-th read sees it. */
  method StreamRange(p: Primitives, views: nat -> Table, node: NodeAnswers, start: nat, end: nat) returns (s: Stream)
    ensures ServedBy(p, views, node, start, end, s)
  {
    var descending := start > end;
    var low, high := Min(start, end), Max(start, end);
    var k := 0;
    s := OPENED;
    ghost var consulted: seq<nat> := [];
    var cursor := start;
    assert Requested(start, end)[..0] == [];
    while true
      invariant low <= cursor <= high
      invariant s.error.None? && Progress(p, views, node, start, end, consulted, k, s)
      invariant |consulted| < |Requested(start, end)| && cursor == HeightAt(start, end, |consulted|)
      decreases |Requested(start, end)| - |consulted|
    {
      var window := ChunkFrom(cursor, low, high, descending);
      var rows, from, to := ReadChunk(views(k), window.0, window.1, descending, CACHE_READ_CHUNK_BYTES);
      s, consulted := StreamChunk(p, views, node, start, end, s, consulted, k, rows, from, to);
      if s.error.Some? {
        assert Ended(start, end, consulted, s);
        return;
      }
      if descending {
        if from <= low {
          assert Ended(start, end, consulted, s);
          return;
        }
        cursor := from - 1;
      } else {
        if to >= high {
          assert Ended(start, end, consulted, s);
          return;
        }
        cursor := to + 1;
      }
      k := k + 1;
    }
  }

  /** The heights one read covers, served in turn. */
  method StreamChunk(p: Primitives, views: nat -> Table, node: NodeAnswers, start: nat, end: nat,
                     s0: Stream, ghost consulted0: seq<nat>, ghost k: nat, rows: Table, from: nat, to: nat)
    returns (s: Stream, ghost consulted: seq<nat>)
    requires s0.error.None? && Progress(p, views, node, start, end, consulted0, k, s0)
    requires |consulted0| < |Requested(start, end)| && Min(start, end) <= from <= to <= Max(start, end)
    requires HeightAt(start, end, |consulted0|) == if start > end then to else from
    requires rows == Slice(views(k), from, to + 1)
    ensures Progress(p, views, node, start, end, consulted, k, s)
    ensures s.error.None? ==> |consulted| == |consulted0| + (to - from + 1)
  {
    var descending := start > end;
    s, consulted := s0, consulted0;
    for i := 0 to to - from + 1
      invariant s.error.None? && Progress(p, views, node, start, end, consulted, k, s)
      invariant |consulted| == |consulted0| + i
    {
      var height := if descending then to - i else from + i;
      assert height == Requested(start, end)[|consulted|];
      ChunkResolves(p, views(k), rows, from, to, node, height);
      ProgressOne(p, views, node, start, end, consulted, k, s, height);
      s := ServeOne(p, rows, node, descending, s, height);
      consulted := consulted + [k];
      if s.error.Some? {
        return;
      }
    }
  }

  // ---- The whole response ----

  /** What goes to the client: the transformed blocks, then the error if there was one. */
  function Delivered(s: Stream, pools: Pools, nullifiers: bool): (r: seq<Result<CompactBlock, Status>>)
    ensures |r| == |s.blocks| + (if s.error.Some? then 1 else 0)
    ensures forall i :: 0 <= i < |s.blocks| ==> r[i] == Ok(Transform(s.blocks[i], pools, nullifiers))
    ensures s.error.Some? ==> r[|s.blocks|] == Err(s.error.value)
  {
    seq(|s.blocks|, i requires 0 <= i < |s.blocks| => Ok(Transform(s.blocks[i], pools, nullifiers)))
    + (if s.error.Some? then [Err(s.error.value)] else [])
  }

  lemma {:induction false} ErrorOnlyLast(items: seq<Result<CompactBlock, Status>>)
    requires forall i :: 0 <= i < |items| - 1 ==> items[i].Ok?
    ensures Framing.UpToError(items) == items
  {
    if |items| > 1 {
      ErrorOnlyLast(items[1..]);
    }
  }

  /** A response: at most one item a requested height, an error only last, the whole range if there is none,
      and neighbouring blocks hash-linked in the direction served. */
  ghost predicate OneChain(wanted: nat, descending: bool, out: seq<Result<CompactBlock, Status>>) {
    && |out| <= wanted
    && (forall i :: 0 <= i < |out| && out[i].Err? ==> i == |out| - 1)
    && ((forall i :: 0 <= i < |out| ==> out[i].Ok?) ==> |out| == wanted)
    && (forall i {:trigger JoinedAt(descending, out, i)} :: 0 < i < |out| ==> JoinedAt(descending, out, i))
  }

  ghost predicate JoinedAt(descending: bool, out: seq<Result<CompactBlock, Status>>, i: nat)
    requires 0 < i < |out|
  {
    out[i - 1].Ok? && out[i].Ok? ==> Seamless(descending, out[i - 1].value, out[i].value)
  }

  /** The response is what the per-height loop over the tables read would send. */
  ghost predicate PerHeight(p: Primitives, views: nat -> Table, node: NodeAnswers, start: nat, end: nat,
                            pools: Pools, nullifiers: bool, out: seq<Result<CompactBlock, Status>>, report: Option<nat>)
  {
    exists s :: ServedBy(p, views, node, start, end, s) && out == Delivered(s, pools, nullifiers) && report == s.report
  }

  /** `GetBlockRange`: framing changes nothing, so the client receives each requested height once, in order,
      up to the first error, each as a per-height loop over the caches of those moments would serve it. */
  method GetBlockRange(p: Primitives, views: nat -> Table, node: NodeAnswers, start: nat, end: nat,
                       pools: Pools, nullifiers: bool, len: CompactBlock -> nat)
    returns (out: seq<Result<CompactBlock, Status>>, report: Option<nat>)
    ensures PerHeight(p, views, node, start, end, pools, nullifiers, out, report)
    ensures OneChain(|Requested(start, end)|, start > end, out)
  {
    var s := StreamRange(p, views, node, start, end);
    report := s.report;
    var items := Delivered(s, pools, nullifiers);
    var frames, last;
    out, frames, last := Framing.Coalesce(items, len);
    ErrorOnlyLast(items);
    ServedIsOneChain(p, views, node, start, end, pools, nullifiers, s);
  }

  lemma ServedIsOneChain(p: Primitives, views: nat -> Table, node: NodeAnswers, start: nat, end: nat,
                         pools: Pools, nullifiers: bool, s: Stream)
    requires ServedBy(p, views, node, start, end, s)
    ensures OneChain(|Requested(start, end)|, start > end, Delivered(s, pools, nullifiers))
  {
    var consulted: seq<nat>, chunk: nat :| Progress(p, views, node, start, end, consulted, chunk, s) && Ended(start, end, consulted, s);
    ServeAnswers(p, TablesAt(views, consulted), node, start > end, Requested(start, end)[..|consulted|]);
    var out := Delivered(s, pools, nullifiers);
    assert s.error.Some? ==> out[|s.blocks|].Err?;
    var descending := start > end;
    forall i | 0 < i < |out| ensures JoinedAt(descending, out, i) {
      if i < |s.blocks| {
        DeliveredJoined(p, views, node, start, end, pools, nullifiers, s, consulted, chunk, i);
      }
    }
  }

  /** Whatever the cache does between reads, the i-th delivered block is the transform of the block the cache stored
      for the i-th requested height when that was read or, only where it stored none, of the node's. */
  lemma DeliveredAsHeld(p: Primitives, views: nat -> Table, node: NodeAnswers, start: nat, end: nat,
                        pools: Pools, nullifiers: bool, served: Stream, consulted: seq<nat>, chunk: nat, i: nat)
    requires Progress(p, views, node, start, end, consulted, chunk, served) && i < |served.blocks|
    ensures i < |consulted| && consulted[i] <= chunk
    ensures Delivered(served, pools, nullifiers)[i] == Ok(Transform(served.blocks[i], pools, nullifiers))
    ensures var t, height := views(consulted[i]), Requested(start, end)[i];
            if height in t then p.decode(t[height]) == Some(served.blocks[i])
            else node(height) == Some(served.blocks[i]) && served.blocks[i].height == height
  {
    var heights, tables := Requested(start, end)[..|consulted|], TablesAt(views, consulted);
    ServeAnswers(p, tables, node, start > end, heights);
    assert Resolves(p, tables, node, heights, i, served.blocks[i]);
  }

  /** The block served last. */
  function Prior(blocks: seq<CompactBlock>): Option<CompactBlock> {
    if blocks == [] then None else Some(blocks[|blocks| - 1])
  }

  /** An error is about the first height not served, and says what is wrong with it. */
  lemma {:induction false} ErrorIsExact(p: Primitives, tables: seq<Table>, node: NodeAnswers, descending: bool, heights: seq<nat>)
    requires |tables| == |heights|
    ensures var s := Serve(p, tables, node, descending, heights);
            var n := |s.blocks|;
            s.error.Some? ==> n < |heights| && FailsAs(p, tables[n], node, descending, Prior(s.blocks), heights[n], s.error.value)
    decreases |heights|
  {
    if heights != [] {
      var n := |heights| - 1;
      ErrorIsExact(p, tables[..n], node, descending, heights[..n]);
      ServeAnswers(p, tables[..n], node, descending, heights[..n]);
      ErrorOfOne(p, tables[n], node, descending, Serve(p, tables[..n], node, descending, heights[..n]), tables[..n], heights[..n], heights[n]);
    }
  }

  lemma ErrorOfOne(p: Primitives, t: Table, node: NodeAnswers, descending: bool, s: Stream, tables: seq<Table>, heights: seq<nat>, height: nat)
    requires |tables| == |heights| && (s.error.None? ==> Answers(p, tables, node, descending, heights, s))
    ensures var after := ServeOne(p, t, node, descending, s, height);
            s.error.None? && after.error.Some? ==>
              after.blocks == s.blocks && FailsAs(p, t, node, descending, Prior(s.blocks), height, after.error.value)
  {
    ResolvesAsHeld(p, t, node, height);
    var r := ResolveHeight(p, t, node, height);
    if r.Ok? {
      assert HeldAs(p, t, node, height, r.value.0);
    }
  }

  /** So with a whole response: what ended it is wrong with the first height not delivered, as that was read. */
  lemma DeliveredUpToError(p: Primitives, views: nat -> Table, node: NodeAnswers, start: nat, end: nat,
                           served: Stream, consulted: seq<nat>, chunk: nat)
    requires Progress(p, views, node, start, end, consulted, chunk, served) && served.error.Some?
    ensures var n := |served.blocks|;
            && n < |consulted|
            && FailsAs(p, views(consulted[n]), node, start > end, Prior(served.blocks), Requested(start, end)[n], served.error.value)
  {
    ErrorIsExact(p, TablesAt(views, consulted), node, start > end, Requested(start, end)[..|consulted|]);
  }

  /** Consecutive delivered blocks are hash-linked in the direction served. */
  lemma DeliveredJoined(p: Primitives, views: nat -> Table, node: NodeAnswers, start: nat, end: nat,
                        pools: Pools, nullifiers: bool, served: Stream, consulted: seq<nat>, chunk: nat, i: nat)
    requires Progress(p, views, node, start, end, consulted, chunk, served) && 0 < i < |served.blocks|
    ensures JoinedAt(start > end, Delivered(served, pools, nullifiers), i)
  {
    ServeAnswers(p, TablesAt(views, consulted), node, start > end, Requested(start, end)[..|consulted|]);
    assert SeamAt(start > end, served.blocks, i);
    TransformPreserves(served.blocks[i - 1], pools, nullifiers);
    TransformPreserves(served.blocks[i], pools, nullifiers);
  }

  /** When every read saw a well-keyed table, the i-th delivered block is the i-th requested height. */
  lemma DeliveredHeight(p: Primitives, views: nat -> Table, node: NodeAnswers, start: nat, end: nat,
                        pools: Pools, nullifiers: bool, served: Stream, consulted: seq<nat>, chunk: nat, i: nat)
    requires Progress(p, views, node, start, end, consulted, chunk, served) && i < |served.blocks|
    requires forall k: nat, h: nat :: k <= chunk && h in views(k) ==> RowOk(p, views(k), h)
    ensures var out := Delivered(served, pools, nullifiers);
            out[i].Ok? && i < |consulted| && out[i].value.height == Requested(start, end)[i]
  {
    DeliveredAsHeld(p, views, node, start, end, pools, nullifiers, served, consulted, chunk, i);
    TransformPreserves(served.blocks[i], pools, nullifiers);
  }

  /** Over a cache that does not change, the chunked stream is the per-height loop, whatever the block sizes. */
  lemma StaticCacheIsPerHeight(p: Primitives, t: Table, node: NodeAnswers, start: nat, end: nat, served: Stream)
    requires ServedBy(p, (k: nat) => t, node, start, end, served)
    ensures served == Serve(p, seq(|Requested(start, end)|, i => t), node, start > end, Requested(start, end))
  {
    var views := (k: nat) => t;
    var consulted: seq<nat>, chunk: nat :| Progress(p, views, node, start, end, consulted, chunk, served) && Ended(start, end, consulted, served);
    var heights := Requested(start, end);
    var all := seq(|heights|, i => t);
    assert TablesAt(views, consulted) == all[..|consulted|];
    ErrorSticks(p, all, node, start > end, heights, |consulted|);
  }

  /** A response reports only heights it was asked for. */
  lemma ReportIsRequested(p: Primitives, views: nat -> Table, node: NodeAnswers, start: nat, end: nat, s: Stream)
    requires ServedBy(p, views, node, start, end, s) && s.report.Some?
    ensures s.error == Some(Discontinuity) && Min(start, end) <= s.report.value <= Max(start, end)
  {
    var consulted: seq<nat>, chunk: nat :| Progress(p, views, node, start, end, consulted, chunk, s) && Ended(start, end, consulted, s);
    ReportIsSuspect(p, TablesAt(views, consulted), node, start > end, Requested(start, end)[..|consulted|]);
  }

  lemma {:induction false} ErrorSticks(p: Primitives, tables: seq<Table>, node: NodeAnswers, descending: bool, heights: seq<nat>, n: nat)
    requires |tables| == |heights| && n <= |heights|
    requires n == |heights| || Serve(p, tables[..n], node, descending, heights[..n]).error.Some?
    ensures Serve(p, tables, node, descending, heights) == Serve(p, tables[..n], node, descending, heights[..n])
    decreases |heights|
  {
    if n == |heights| {
      assert tables[..n] == tables && heights[..n] == heights;
    } else {
      var m := |heights| - 1;
      assert tables[..m][..n] == tables[..n] && heights[..m][..n] == heights[..n];
      ErrorSticks(p, tables[..m], node, descending, heights[..m], n);
    }
  }
}
