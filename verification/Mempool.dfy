/** The shared mempool: the monitor's refreshes, the snapshots it publishes, and the stream that resumes over
    them by an index. */
module Mempool {
  import opened Base
  import opened Blocks
  import opened Encoding

  /** Parsing a raw transaction as the one at a given index, which this model does not look into. */
  type Parse = (nat, Bytes) -> Option<CompactTx>

  ghost predicate Lawful(parse: Parse) {
    forall index: nat, raw: Bytes :: parse(index, raw).Some? ==> parse(index, raw).value.index == index
  }

  datatype Entry = Entry(txid: string, wire: Bytes, raw: Bytes, compact: CompactTx)

  datatype Fetched = Fetched(hex: string, height: int)

  /** What the node answers during one refresh: `None` is a failed call, and `fetched(i)` answers for the i-th
      listed transaction. */
  datatype Answers = Answers(tip: Option<string>, mempool: Option<seq<string>>, fetched: nat -> Option<Fetched>)

  datatype State = State(tip: string, seen: set<string>, entries: seq<Entry>)

  const START: State := State("", {}, [])

  datatype Snapshot = Snapshot(tip: string, entries: seq<Entry>, refreshed: bool)

  // ---- One refresh ----

  /** One listed transaction, and whether the refresh goes on. */
  function Visit(parse: Parse, s: State, txid: string, fetched: Option<Fetched>): (State, bool) {
    if txid in s.seen then (s, true)
    else
      match fetched
      case None => (s, true)
      case Some(raw) =>
        var t := s.(seen := s.seen + {txid});
        if raw.height != 0 then (t, true)
        else
          match HexDecode(raw.hex)
          case None => (t, false)
          case Some(bytes) =>
            match DisplayHexToWire(txid)
            case None => (t, false)
            case Some(wire) =>
              match parse(|s.entries|, bytes)
              case None => (t, false)
              case Some(compact) => (t.(entries := s.entries + [Entry(txid, wire, bytes, compact)]), true)
  }

  function VisitAll(parse: Parse, s: State, txids: seq<string>, fetched: nat -> Option<Fetched>): (State, bool)
    decreases |txids|
  {
    if txids == [] then (s, true)
    else
      var n := |txids| - 1;
      var (t, ok) := VisitAll(parse, s, txids[..n], fetched);
      if ok then Visit(parse, t, txids[n], fetched(n)) else (t, false)
  }

  /** A new tip starts a new interval. */
  function AtTip(s: State, tip: string): State {
    if tip != s.tip then State(tip, {}, []) else s
  }

  function Refresh(parse: Parse, s: State, a: Answers): (State, Option<Snapshot>) {
    match a.tip
    case None => (s, None)
    case Some(tip) =>
      match a.mempool
      case None => (AtTip(s, tip), None)
      case Some(txids) =>
        var (t, ok) := VisitAll(parse, AtTip(s, tip), txids, a.fetched);
        (t, if ok then Some(Snapshot(t.tip, t.entries, true)) else None)
  }

  // ---- What every state keeps, and what growing means ----

  ghost predicate EntryOk(s: State, i: nat)
    requires i < |s.entries|
  {
    var e := s.entries[i];
    && e.txid in s.seen
    && e.compact.index == i
    && DisplayHexToWire(e.txid) == Some(e.wire)
    && (forall j :: 0 <= j < i ==> s.entries[j].txid != e.txid)
  }

  ghost predicate Sound(s: State) {
    forall i {:trigger EntryOk(s, i)} :: 0 <= i < |s.entries| ==> EntryOk(s, i)
  }

  /** `t` is `s` later in the same interval: entries only added, and none for a transaction already seen. */
  ghost predicate Grew(s: State, t: State) {
    && t.tip == s.tip
    && s.seen <= t.seen
    && s.entries <= t.entries
    && forall i :: |s.entries| <= i < |t.entries| ==> t.entries[i].txid !in s.seen
  }

  lemma VisitGrows(parse: Parse, s: State, txid: string, fetched: Option<Fetched>)
    requires Lawful(parse) && Sound(s)
    ensures Sound(Visit(parse, s, txid, fetched).0) && Grew(s, Visit(parse, s, txid, fetched).0)
  {
    var t := Visit(parse, s, txid, fetched).0;
    forall i | 0 <= i < |t.entries| ensures EntryOk(t, i) {
      if i < |s.entries| {
        assert EntryOk(s, i);
      } else {
        forall j | 0 <= j < i ensures t.entries[j].txid != txid {
          assert EntryOk(s, j);
        }
      }
    }
  }

  lemma GrewTwice(s: State, t: State, u: State)
    requires Grew(s, t) && Grew(t, u)
    ensures Grew(s, u)
  {
    forall i | |s.entries| <= i < |u.entries| ensures u.entries[i].txid !in s.seen {
      if i < |t.entries| {
        assert u.entries[i] == t.entries[i];
      }
    }
  }

  lemma {:induction false} VisitAllGrows(parse: Parse, s: State, txids: seq<string>, fetched: nat -> Option<Fetched>)
    requires Lawful(parse) && Sound(s)
    ensures Sound(VisitAll(parse, s, txids, fetched).0) && Grew(s, VisitAll(parse, s, txids, fetched).0)
    decreases |txids|
  {
    if txids != [] {
      var n := |txids| - 1;
      VisitAllGrows(parse, s, txids[..n], fetched);
      var (t, ok) := VisitAll(parse, s, txids[..n], fetched);
      if ok {
        VisitGrows(parse, t, txids[n], fetched(n));
        GrewTwice(s, t, Visit(parse, t, txids[n], fetched(n)).0);
      }
    }
  }

  /** Failed or not, a refresh keeps the entries distinct and indexed by position; under an unchanged tip it
      only adds, and a transaction once seen is never added again. */
  lemma RefreshGrows(parse: Parse, s: State, a: Answers)
    requires Lawful(parse) && Sound(s)
    ensures var (t, snapshot) := Refresh(parse, s, a);
            && Sound(t)
            && (t.tip == s.tip ==> Grew(s, t))
            && (a.tip.Some? ==> t.tip == a.tip.value)
            && (a.tip.None? ==> t == s)
            && (snapshot.Some? ==> snapshot == Some(Snapshot(t.tip, t.entries, true)))
  {
    if a.tip.Some? && a.mempool.Some? {
      VisitAllGrows(parse, AtTip(s, a.tip.value), a.mempool.value, a.fetched);
    }
  }

  /** Where an entry came from. */
  ghost predicate ListedAt(txids: seq<string>, fetched: nat -> Option<Fetched>, i: nat, e: Entry) {
    i < |txids| && txids[i] == e.txid && fetched(i).Some? && fetched(i).value.height == 0 && HexDecode(fetched(i).value.hex) == Some(e.raw)
  }

  ghost predicate Listed(txids: seq<string>, fetched: nat -> Option<Fetched>, e: Entry) {
    exists i: nat :: ListedAt(txids, fetched, i, e)
  }

  ghost predicate FetchedAt(txids: seq<string>, fetched: nat -> Option<Fetched>, i: nat, txid: string) {
    i < |txids| && txids[i] == txid && fetched(i).Some?
  }

  ghost predicate WasFetched(txids: seq<string>, fetched: nat -> Option<Fetched>, txid: string) {
    exists i: nat :: FetchedAt(txids, fetched, i, txid)
  }

  /** A refresh that gets through accounts for every listed transaction: it is seen, or its fetch failed and
      it is left for the next refresh. What is added was listed, fetched and not yet mined; what becomes seen
      was listed and fetched. */
  lemma {:induction false} VisitAllAccounts(parse: Parse, s: State, txids: seq<string>, fetched: nat -> Option<Fetched>)
    ensures var (t, ok) := VisitAll(parse, s, txids, fetched);
            && t.tip == s.tip && s.seen <= t.seen && s.entries <= t.entries
            && (ok ==> forall i :: 0 <= i < |txids| ==> txids[i] in t.seen || fetched(i).None?)
            && (forall x :: x in t.seen - s.seen ==> WasFetched(txids, fetched, x))
            && (forall k :: |s.entries| <= k < |t.entries| ==> Listed(txids, fetched, t.entries[k]))
    decreases |txids|
  {
    if txids != [] {
      var n := |txids| - 1;
      VisitAllAccounts(parse, s, txids[..n], fetched);
      var m := VisitAll(parse, s, txids[..n], fetched).0;
      var t := VisitAll(parse, s, txids, fetched).0;
      forall k | |s.entries| <= k < |t.entries| ensures Listed(txids, fetched, t.entries[k]) {
        if k < |m.entries| {
          assert Listed(txids[..n], fetched, m.entries[k]);
          var i: nat :| ListedAt(txids[..n], fetched, i, m.entries[k]);
          assert ListedAt(txids, fetched, i, t.entries[k]);
        } else {
          assert ListedAt(txids, fetched, n, t.entries[k]);
        }
      }
      forall x | x in t.seen - s.seen ensures WasFetched(txids, fetched, x) {
        if x in m.seen {
          assert WasFetched(txids[..n], fetched, x);
          var i: nat :| FetchedAt(txids[..n], fetched, i, x);
          assert FetchedAt(txids, fetched, i, x);
        } else {
          assert FetchedAt(txids, fetched, n, x);
        }
      }
    }
  }

  /** The first fetch of the i-th listed transaction that came back. */
  ghost predicate FirstFetch(txids: seq<string>, fetched: nat -> Option<Fetched>, i: nat) {
    i < |txids| && fetched(i).Some? && forall j :: 0 <= j < i && txids[j] == txids[i] ==> fetched(j).None?
  }

  ghost predicate EnteredAt(s: State, t: State, txid: string, k: nat) {
    |s.entries| <= k < |t.entries| && t.entries[k].txid == txid
  }

  ghost predicate Entered(s: State, t: State, txid: string) {
    exists k: nat :: EnteredAt(s, t, txid, k)
  }

  /** A transaction not seen before enters exactly when the fetch that came back shows it still unmined. */
  lemma {:induction false} EntersExactly(parse: Parse, s: State, txids: seq<string>, fetched: nat -> Option<Fetched>, i: nat)
    requires Lawful(parse) && Sound(s) && VisitAll(parse, s, txids, fetched).1
    requires FirstFetch(txids, fetched, i) && txids[i] !in s.seen
    ensures Entered(s, VisitAll(parse, s, txids, fetched).0, txids[i]) <==> fetched(i).value.height == 0
    decreases |txids|
  {
    var n := |txids| - 1;
    var x, m := txids[i], VisitAll(parse, s, txids[..n], fetched).0;
    var t := Visit(parse, m, txids[n], fetched(n)).0;
    VisitAllGrows(parse, s, txids[..n], fetched);
    VisitAllAccounts(parse, s, txids[..n], fetched);
    if i < n {
      EntersExactly(parse, s, txids[..n], fetched, i);
      assert txids[..n][i] in m.seen;
      VisitGrows(parse, m, txids[n], fetched(n));
      SameEntered(s, m, t, x);
    } else {
      FirstIsNew(txids, fetched, i);
      NotEntered(s, m, x);
      LastEnters(parse, s, m, x, fetched(n));
    }
  }

  lemma FirstIsNew(txids: seq<string>, fetched: nat -> Option<Fetched>, i: nat)
    requires FirstFetch(txids, fetched, i)
    ensures !WasFetched(txids[..i], fetched, txids[i])
  {
    forall j: nat | j < i ensures !FetchedAt(txids[..i], fetched, j, txids[i]) {
      assert txids[j] == txids[i] ==> fetched(j).None?;
    }
  }

  lemma SameEntered(s: State, m: State, t: State, x: string)
    requires Grew(s, m) && Grew(m, t) && x in m.seen
    ensures Entered(s, t, x) <==> Entered(s, m, x)
  {
    if Entered(s, t, x) {
      var k: nat :| EnteredAt(s, t, x, k);
      assert EnteredAt(s, m, x, k);
    }
    if Entered(s, m, x) {
      var k: nat :| EnteredAt(s, m, x, k);
      assert EnteredAt(s, t, x, k);
    }
  }

  lemma NotEntered(s: State, m: State, x: string)
    requires Sound(m) && x !in m.seen
    ensures !Entered(s, m, x)
  {
    forall k: nat | |s.entries| <= k < |m.entries| ensures m.entries[k].txid != x {
      assert EntryOk(m, k);
    }
  }

  lemma LastEnters(parse: Parse, s: State, m: State, x: string, fetched: Option<Fetched>)
    requires x !in m.seen && !Entered(s, m, x) && s.entries <= m.entries
    requires fetched.Some? && Visit(parse, m, x, fetched).1
    ensures Entered(s, Visit(parse, m, x, fetched).0, x) <==> fetched.value.height == 0
  {
    var t := Visit(parse, m, x, fetched).0;
    if fetched.value.height == 0 {
      assert EnteredAt(s, t, x, |m.entries|);
    } else if Entered(s, t, x) {
      var k: nat :| EnteredAt(s, t, x, k);
      assert EnteredAt(s, m, x, k);
    }
  }

  // ---- When a refresh gets through, and what it starts from ----

  /** Whether a raw transaction parses does not depend on its index. */
  ghost predicate IndexFree(parse: Parse) {
    forall index: nat, raw: Bytes :: parse(index, raw).Some? <==> parse(0, raw).Some?
  }

  predicate Readable(parse: Parse, txid: string, raw: Fetched) {
    && DisplayHexToWire(txid).Some? && HexDecode(raw.hex).Some?
    && parse(0, HexDecode(raw.hex).value).Some?
  }

  /** The i-th listed transaction is new and unmined, and cannot be read. */
  ghost predicate Spoils(parse: Parse, s: State, txids: seq<string>, fetched: nat -> Option<Fetched>, i: nat) {
    && FirstFetch(txids, fetched, i) && txids[i] !in s.seen
    && fetched(i).value.height == 0 && !Readable(parse, txids[i], fetched(i).value)
  }

  lemma SpoilsFront(parse: Parse, s: State, txids: seq<string>, fetched: nat -> Option<Fetched>, n: nat, i: nat)
    requires i < n <= |txids|
    ensures Spoils(parse, s, txids[..n], fetched, i) <==> Spoils(parse, s, txids, fetched, i)
  {
    assert forall j :: 0 <= j <= i ==> txids[..n][j] == txids[j];
  }

  lemma SeenBefore(parse: Parse, s: State, txids: seq<string>, fetched: nat -> Option<Fetched>, t: State, n: nat)
    requires n < |txids| && (t, true) == VisitAll(parse, s, txids[..n], fetched) && fetched(n).Some?
    ensures txids[n] in t.seen <==> txids[n] in s.seen || !FirstFetch(txids, fetched, n)
  {
    VisitAllAccounts(parse, s, txids[..n], fetched);
    if txids[n] in t.seen && txids[n] !in s.seen {
      assert txids[n] in t.seen - s.seen;
      assert WasFetched(txids[..n], fetched, txids[n]);
      var i: nat :| FetchedAt(txids[..n], fetched, i, txids[n]);
      assert txids[i] == txids[n] && fetched(i).Some?;
    }
    if !FirstFetch(txids, fetched, n) {
      var j :| 0 <= j < n && txids[j] == txids[n] && fetched(j).Some?;
      assert txids[..n][j] in t.seen;
    }
  }

  lemma {:induction false} VisitAllSucceedsExactly(parse: Parse, s: State, txids: seq<string>, fetched: nat -> Option<Fetched>)
    requires IndexFree(parse)
    ensures VisitAll(parse, s, txids, fetched).1 <==> forall i: nat {:trigger Spoils(parse, s, txids, fetched, i)} :: i < |txids| ==> !Spoils(parse, s, txids, fetched, i)
    decreases |txids|
  {
    if txids != [] {
      var n := |txids| - 1;
      VisitAllSucceedsExactly(parse, s, txids[..n], fetched);
      forall i: nat | i < n ensures Spoils(parse, s, txids[..n], fetched, i) <==> Spoils(parse, s, txids, fetched, i) {
        SpoilsFront(parse, s, txids, fetched, n, i);
      }
      var (t, ok) := VisitAll(parse, s, txids[..n], fetched);
      if ok {
        if fetched(n).Some? {
          SeenBefore(parse, s, txids, fetched, t, n);
        }
        assert Visit(parse, t, txids[n], fetched(n)).1 <==> !Spoils(parse, s, txids, fetched, n);
      } else {
        var i: nat :| i < n && Spoils(parse, s, txids[..n], fetched, i);
        assert Spoils(parse, s, txids, fetched, i);
      }
    }
  }

  /** A refresh publishes exactly when the node described itself and listed its mempool, and every transaction that
      is new in this interval, fetched and not yet mined can be read. */
  lemma RefreshSucceedsExactly(parse: Parse, s: State, a: Answers)
    requires IndexFree(parse)
    ensures Refresh(parse, s, a).1.Some? <==>
              && a.tip.Some? && a.mempool.Some?
              && forall i: nat :: i < |a.mempool.value| ==> !Spoils(parse, AtTip(s, a.tip.value), a.mempool.value, a.fetched, i)
  {
    if a.tip.Some? && a.mempool.Some? {
      VisitAllSucceedsExactly(parse, AtTip(s, a.tip.value), a.mempool.value, a.fetched);
    }
  }

  /** A new tip starts over: nothing seen before it is carried across, and every entry was listed and fetched by the
      refresh that met it. */
  lemma NewTipStartsOver(parse: Parse, s: State, a: Answers)
    requires a.tip.Some? && a.tip.value != s.tip
    ensures var t := Refresh(parse, s, a).0;
            && t.tip == a.tip.value
            && (forall x :: x in t.seen ==> a.mempool.Some? && WasFetched(a.mempool.value, a.fetched, x))
            && (forall k :: 0 <= k < |t.entries| ==> a.mempool.Some? && Listed(a.mempool.value, a.fetched, t.entries[k]))
  {
    if a.mempool.Some? {
      VisitAllAccounts(parse, State(a.tip.value, {}, []), a.mempool.value, a.fetched);
    }
  }

  /** Every entry is its own raw bytes parsed at its position. */
  ghost predicate Parsed(parse: Parse, s: State) {
    forall k {:trigger s.entries[k]} :: 0 <= k < |s.entries| ==> parse(k, s.entries[k].raw) == Some(s.entries[k].compact)
  }

  lemma {:induction false} VisitAllParses(parse: Parse, s: State, txids: seq<string>, fetched: nat -> Option<Fetched>)
    requires Parsed(parse, s)
    ensures Parsed(parse, VisitAll(parse, s, txids, fetched).0)
    decreases |txids|
  {
    if txids != [] {
      VisitAllParses(parse, s, txids[..|txids| - 1], fetched);
    }
  }

  lemma {:induction false} RunsStayParsed(parse: Parse, run: seq<Answers>)
    ensures Parsed(parse, StateAfter(parse, run))
    decreases |run|
  {
    if run != [] {
      var s, a := StateAfter(parse, run[..|run| - 1]), run[|run| - 1];
      RunsStayParsed(parse, run[..|run| - 1]);
      if a.tip.Some? && a.mempool.Some? {
        VisitAllParses(parse, AtTip(s, a.tip.value), a.mempool.value, a.fetched);
      }
    }
  }

  // ---- The monitor as it runs ----

  class MonitorState {
    var tipHash: string
    var seen: set<string>
    var entries: seq<Entry>

    function View(): State
      reads this
    {
      State(tipHash, seen, entries)
    }

    constructor ()
      ensures View() == START
    {
      tipHash, seen, entries := "", {}, [];
    }

    /** `refresh`: what it leaves behind, and the snapshot to publish unless it failed. */
    method RefreshOnce(parse: Parse, a: Answers) returns (snapshot: Option<Snapshot>)
      modifies this
      ensures (View(), snapshot) == Refresh(parse, old(View()), a)
    {
      if a.tip.None? {
        return None;
      }
      if a.tip.value != tipHash {
        tipHash, seen, entries := a.tip.value, {}, [];
      }
      if a.mempool.None? {
        return None;
      }
      var ok := VisitListed(parse, a.mempool.value, a.fetched);
      snapshot := if ok then Some(Snapshot(tipHash, entries, true)) else None;
    }

    method VisitListed(parse: Parse, txids: seq<string>, fetched: nat -> Option<Fetched>) returns (ok: bool)
      modifies this
      ensures (View(), ok) == VisitAll(parse, old(View()), txids, fetched)
    {
      ghost var s := View();
      for i := 0 to |txids|
        invariant (View(), true) == VisitAll(parse, s, txids[..i], fetched)
      {
        assert txids[..i + 1][..i] == txids[..i];
        if txids[i] in seen {
          continue;
        }
        var raw := fetched(i);
        if raw.None? {
          continue;
        }
        seen := seen + {txids[i]};
        if raw.value.height != 0 {
          continue;
        }
        var bytes, wire := HexDecode(raw.value.hex), DisplayHexToWire(txids[i]);
        if bytes.None? || wire.None? {
          FailureSticks(parse, s, txids, fetched, i + 1);
          return false;
        }
        var compact := parse(|entries|, bytes.value);
        if compact.None? {
          FailureSticks(parse, s, txids, fetched, i + 1);
          return false;
        }
        entries := entries + [Entry(txids[i], wire.value, bytes.value, compact.value)];
      }
      assert txids[..|txids|] == txids;
      ok := true;
    }
  }

  lemma {:induction false} FailureSticks(parse: Parse, s: State, txids: seq<string>, fetched: nat -> Option<Fetched>, i: nat)
    requires i <= |txids| && !VisitAll(parse, s, txids[..i], fetched).1
    ensures VisitAll(parse, s, txids, fetched) == VisitAll(parse, s, txids[..i], fetched)
    decreases |txids|
  {
    if i == |txids| {
      assert txids[..i] == txids;
    } else {
      assert txids[..|txids| - 1][..i] == txids[..i];
      FailureSticks(parse, s, txids[..|txids| - 1], fetched, i);
    }
  }

  // ---- Whole runs of the monitor ----

  function StateAfter(parse: Parse, run: seq<Answers>): State
    decreases |run|
  {
    if run == [] then START else Refresh(parse, StateAfter(parse, run[..|run| - 1]), run[|run| - 1]).0
  }

  /** How many refreshes had been made when the published snapshot was taken; zero before the first. */
  function LastPublished(parse: Parse, run: seq<Answers>): (i: nat)
    ensures i <= |run|
    decreases |run|
  {
    if run == [] then 0
    else
      var front := run[..|run| - 1];
      if Refresh(parse, StateAfter(parse, front), run[|run| - 1]).1.Some? then |run| else LastPublished(parse, front)
  }

  /** The snapshot on the watch channel. */
  function Published(parse: Parse, run: seq<Answers>): Snapshot
    decreases |run|
  {
    if run == [] then Snapshot("", [], false)
    else
      var front := run[..|run| - 1];
      match Refresh(parse, StateAfter(parse, front), run[|run| - 1]).1
      case Some(snapshot) => snapshot
      case None => Published(parse, front)
  }

  lemma {:induction false} RunsStaySound(parse: Parse, run: seq<Answers>)
    requires Lawful(parse)
    ensures Sound(StateAfter(parse, run))
    decreases |run|
  {
    if run != [] {
      RunsStaySound(parse, run[..|run| - 1]);
      RefreshGrows(parse, StateAfter(parse, run[..|run| - 1]), run[|run| - 1]);
    }
  }

  /** Within one tip interval entries only grow, whatever failed meanwhile. */
  lemma {:induction false} IntervalGrows(parse: Parse, run: seq<Answers>, i: nat)
    requires Lawful(parse) && i <= |run|
    requires forall m {:trigger run[..m]} :: i <= m <= |run| ==> StateAfter(parse, run[..m]).tip == StateAfter(parse, run[..i]).tip
    ensures Grew(StateAfter(parse, run[..i]), StateAfter(parse, run))
    decreases |run|
  {
    assert run[..|run|] == run;
    if i < |run| {
      var n := |run| - 1;
      var front := run[..n];
      assert front[..i] == run[..i];
      forall m | i <= m <= n ensures StateAfter(parse, front[..m]).tip == StateAfter(parse, front[..i]).tip {
        assert front[..m] == run[..m];
      }
      IntervalGrows(parse, front, i);
      RunsStaySound(parse, front);
      RefreshGrows(parse, StateAfter(parse, front), run[n]);
      GrewTwice(StateAfter(parse, run[..i]), StateAfter(parse, front), StateAfter(parse, run));
    }
  }

  lemma {:induction false} PublishedIsAState(parse: Parse, run: seq<Answers>)
    requires Lawful(parse)
    ensures var p, i := Published(parse, run), LastPublished(parse, run);
            && (p.refreshed <==> i > 0)
            && (i > 0 ==> p == Snapshot(StateAfter(parse, run[..i]).tip, StateAfter(parse, run[..i]).entries, true))
    decreases |run|
  {
    if run != [] {
      var n := |run| - 1;
      var front := run[..n];
      PublishedIsAState(parse, front);
      RunsStaySound(parse, front);
      RefreshGrows(parse, StateAfter(parse, front), run[n]);
      assert run[..|run|] == run;
      assert front[..LastPublished(parse, front)] == run[..LastPublished(parse, front)];
    }
  }

  lemma {:induction false} PublishingMovesOn(parse: Parse, run: seq<Answers>, i: nat)
    requires i <= |run|
    ensures LastPublished(parse, run[..i]) <= LastPublished(parse, run)
    decreases |run|
  {
    if i == |run| {
      assert run[..i] == run;
    } else {
      var front := run[..|run| - 1];
      assert front[..i] == run[..i];
      PublishingMovesOn(parse, front, i);
    }
  }

  // ---- The stream ----

  datatype RawTransaction = RawTransaction(data: Bytes, height: nat)

  function Raws(entries: seq<Entry>): (r: seq<RawTransaction>)
    ensures |r| == |entries| && forall i :: 0 <= i < |r| ==> r[i] == RawTransaction(entries[i].raw, 0)
  {
    seq(|entries|, i requires 0 <= i < |entries| => RawTransaction(entries[i].raw, 0))
  }

  datatype End = Open | NewBlock | Stale

  datatype Stream = Stream(startTip: string, sent: nat, out: seq<RawTransaction>, end: End)

  const OPENED: Stream := Stream("", 0, [], Open)

  /** A snapshot as a stream finds it, and whether it had grown stale by then. */
  datatype Observation = Observation(snapshot: Snapshot, late: bool)

  function Emit(st: Stream, entries: seq<Entry>): Stream {
    st.(out := st.out + (if st.sent <= |entries| then Raws(entries[st.sent..]) else []), sent := |entries|)
  }

  function Observe(st: Stream, o: Observation): Stream {
    if !st.end.Open? then st
    else if o.late || !o.snapshot.refreshed then st.(end := Stale)
    else if st.startTip == "" then Emit(st.(startTip := o.snapshot.tip), o.snapshot.entries)
    else if o.snapshot.tip != st.startTip then st.(end := NewBlock)
    else Emit(st, o.snapshot.entries)
  }

  function Streamed(obs: seq<Observation>): Stream
    decreases |obs|
  {
    if obs == [] then OPENED else Observe(Streamed(obs[..|obs| - 1]), obs[|obs| - 1])
  }

  /** How many observations a stream served before it ended. */
  function Served(obs: seq<Observation>): (n: nat)
    ensures n <= |obs|
    decreases |obs|
  {
    if obs == [] then 0
    else if Streamed(obs).end.Open? then |obs| else Served(obs[..|obs| - 1])
  }

  /** The entries from `sent` on; none when the list has shrunk below that. */
  method Unsent(entries: seq<Entry>, sent: nat) returns (more: seq<RawTransaction>)
    ensures more == if sent <= |entries| then Raws(entries[sent..]) else []
  {
    more := [];
    if sent <= |entries| {
      for k := sent to |entries|
        invariant sent <= k && more == Raws(entries[sent..k])
      {
        assert entries[sent..k + 1] == entries[sent..k] + [entries[k]];
        more := more + [RawTransaction(entries[k].raw, 0)];
      }
      assert entries[sent..|entries|] == entries[sent..];
    }
  }

  /** `get_mempool_stream` over the observations it makes. */
  method StreamMempool(obs: seq<Observation>) returns (out: seq<RawTransaction>, end: End)
    ensures out == Streamed(obs).out && end == Streamed(obs).end
  {
    out, end := [], Open;
    var startTip: string, sent: nat := "", 0;
    for i := 0 to |obs|
      invariant Streamed(obs[..i]) == Stream(startTip, sent, out, Open) && end == Open
    {
      assert obs[..i + 1][..i] == obs[..i];
      var snapshot := obs[i].snapshot;
      if obs[i].late || !snapshot.refreshed {
        end := Stale;
        EndedStays(obs, i + 1);
        return;
      }
      if startTip == "" {
        startTip := snapshot.tip;
      } else if snapshot.tip != startTip {
        end := NewBlock;
        EndedStays(obs, i + 1);
        return;
      }
      var more := Unsent(snapshot.entries, sent);
      out, sent := out + more, |snapshot.entries|;
    }
    assert obs[..|obs|] == obs;
  }

  lemma {:induction false} EndedStays(obs: seq<Observation>, i: nat)
    requires i <= |obs| && !Streamed(obs[..i]).end.Open?
    ensures Streamed(obs) == Streamed(obs[..i])
    decreases |obs|
  {
    if i == |obs| {
      assert obs[..i] == obs;
    } else {
      assert obs[..|obs| - 1][..i] == obs[..i];
      EndedStays(obs[..|obs| - 1], i);
    }
  }

  /** What was sent so far is what the last served snapshot holds. */
  ghost predicate UpToDate(obs: seq<Observation>, st: Stream, served: nat) {
    if served == 0 then st.out == [] && st.sent == 0 && st.startTip == ""
    else
      served <= |obs| && var last := obs[served - 1].snapshot;
      last.refreshed && st.out == Raws(last.entries) && st.sent == |last.entries| && st.startTip == last.tip
  }

  /** Each served snapshot holds the one before it, with the same tip. */
  ghost predicate Continues(a: Snapshot, b: Snapshot) {
    a.refreshed && b.refreshed && a.tip == b.tip ==> a.entries <= b.entries
  }

  ghost predicate AllContinue(obs: seq<Observation>) {
    forall j {:trigger ContinuesAt(obs, j)} :: 0 < j < |obs| ==> ContinuesAt(obs, j)
  }

  ghost predicate ContinuesAt(obs: seq<Observation>, j: nat)
    requires 0 < j < |obs|
  {
    && Continues(obs[j - 1].snapshot, obs[j].snapshot)
    && (obs[j - 1].snapshot.refreshed ==> obs[j - 1].snapshot.tip != "")
  }

  lemma RawsExtend(before: seq<Entry>, entries: seq<Entry>)
    requires before <= entries
    ensures Raws(entries) == Raws(before) + Raws(entries[|before|..])
  {
  }

  lemma {:induction false} StreamIsUpToDate(obs: seq<Observation>)
    requires AllContinue(obs)
    ensures UpToDate(obs, Streamed(obs), Served(obs))
    ensures Streamed(obs).end.Open? ==> Served(obs) == |obs|
    decreases |obs|
  {
    if obs != [] {
      var n := |obs| - 1;
      var front := obs[..n];
      forall j | 0 < j < |front| ensures ContinuesAt(front, j) {
        assert ContinuesAt(obs, j);
      }
      StreamIsUpToDate(front);
      var st, o := Streamed(front), obs[n];
      if st.end.Open? && Observe(st, o).end.Open? && n > 0 {
        assert ContinuesAt(obs, n);
        RawsExtend(front[n - 1].snapshot.entries, o.snapshot.entries);
      }
    }
  }

  // ---- How a stream ends ----

  /** No snapshot taken from a node has an empty tip. */
  ghost predicate TipsNamed(obs: seq<Observation>) {
    forall j :: 0 <= j < |obs| && obs[j].snapshot.refreshed ==> obs[j].snapshot.tip != ""
  }

  lemma OpenTip(obs: seq<Observation>)
    requires TipsNamed(obs) && Streamed(obs).end.Open?
    ensures Streamed(obs).startTip == if obs == [] then "" else obs[|obs| - 1].snapshot.tip
    decreases |obs|
  {
    if obs != [] {
      OpenTip(obs[..|obs| - 1]);
    }
  }

  /** A stream ends at the first look that it does not serve: as stale exactly when that snapshot is late or was never
      taken, and for a new block exactly when it is neither but its tip is not the last one served. */
  lemma {:induction false} StreamEndsExactly(obs: seq<Observation>)
    requires TipsNamed(obs)
    ensures var n, end := Served(obs), Streamed(obs).end;
            && (end.Open? <==> n == |obs|)
            && (n < |obs| ==>
                  var stale := obs[n].late || !obs[n].snapshot.refreshed;
                  && (end.Stale? <==> stale)
                  && (end.NewBlock? <==> !stale && n > 0 && obs[n].snapshot.tip != obs[n - 1].snapshot.tip))
    decreases |obs|
  {
    if obs != [] {
      var front := obs[..|obs| - 1];
      StreamEndsExactly(front);
      if Streamed(front).end.Open? {
        OpenTip(front);
        ServedAll(front);
      } else {
        assert Streamed(obs) == Streamed(front) && Served(obs) == Served(front);
      }
    }
  }

  lemma ServedAll(obs: seq<Observation>)
    requires Streamed(obs).end.Open?
    ensures Served(obs) == |obs|
  {
  }

  // ---- When resuming by index is exact ----

  /** After `n` looks, what was sent is what the last one showed. */
  ghost predicate SentExactly(obs: seq<Observation>, n: nat)
    requires 0 < n <= |obs|
  {
    Streamed(obs[..n]).out == Raws(obs[n - 1].snapshot.entries)
  }

  /** The `j`-th look shows what the one before did, and possibly more. */
  ghost predicate Extends(obs: seq<Observation>, j: nat)
    requires 0 < j < |obs|
  {
    Raws(obs[j - 1].snapshot.entries) <= Raws(obs[j].snapshot.entries)
  }

  ghost predicate AllSentExactly(obs: seq<Observation>) {
    forall n {:trigger SentExactly(obs, n)} :: 0 < n <= |obs| ==> SentExactly(obs, n)
  }

  ghost predicate AllExtend(obs: seq<Observation>) {
    forall j {:trigger Extends(obs, j)} :: 0 < j < |obs| ==> Extends(obs, j)
  }

  function LastShown(obs: seq<Observation>): seq<Entry> {
    if obs == [] then [] else obs[|obs| - 1].snapshot.entries
  }

  lemma OpenSent(obs: seq<Observation>)
    requires Streamed(obs).end.Open?
    ensures Streamed(obs).sent == |LastShown(obs)|
  {
  }

  lemma FrontExact(obs: seq<Observation>)
    requires obs != []
    ensures var front := obs[..|obs| - 1];
            && (AllSentExactly(obs) <==> AllSentExactly(front) && SentExactly(obs, |obs|))
            && (AllExtend(obs) <==> AllExtend(front) && (|obs| > 1 ==> Extends(obs, |obs| - 1)))
  {
    var last := |obs| - 1;
    var front := obs[..last];
    forall n | 0 < n <= last ensures SentExactly(front, n) <==> SentExactly(obs, n) {
      assert front[..n] == obs[..n];
    }
    forall j | 0 < j < last ensures Extends(front, j) <==> Extends(obs, j) {
    }
    assert AllSentExactly(obs) ==> AllSentExactly(front);
    assert AllExtend(obs) ==> AllExtend(front);
  }

  lemma ResumeExact(st: Stream, before: seq<Entry>, o: Observation)
    requires st.out == Raws(before) && st.sent == |before| && st.end.Open? && Observe(st, o).end.Open?
    ensures Observe(st, o).out == Raws(o.snapshot.entries) <==> Raws(before) <= Raws(o.snapshot.entries)
  {
    var entries := o.snapshot.entries;
    assert Observe(st, o).out == Emit(st, entries).out;
    if Raws(before) <= Raws(entries) {
      assert Raws(entries) == Raws(before) + Raws(entries[|before|..]);
    }
    if Emit(st, entries).out == Raws(entries) {
      assert Raws(before) <= Emit(st, entries).out;
    }
  }

  /** The last look, once everything before it was sent exactly. */
  lemma LastLookExact(obs: seq<Observation>, front: seq<Observation>)
    requires obs != [] && front == obs[..|obs| - 1] && Streamed(obs).end.Open?
    requires Streamed(front).out == Raws(LastShown(front))
    ensures Streamed(obs).out == Raws(LastShown(obs)) <==> Raws(LastShown(front)) <= Raws(LastShown(obs))
  {
    OpenSent(front);
    ResumeExact(Streamed(front), LastShown(front), obs[|obs| - 1]);
  }

  lemma SentIsShown(obs: seq<Observation>)
    ensures obs != [] ==> (SentExactly(obs, |obs|) <==> Streamed(obs).out == Raws(LastShown(obs)))
    ensures obs == [] ==> Streamed(obs).out == Raws(LastShown(obs))
  {
    assert obs[..|obs|] == obs;
  }

  /** Over any looks at all that leave a stream open, it has sent exactly what was shown, after each of them, if
      and only if each look shows what the one before did, and possibly more. */
  lemma {:induction false} StreamIsExactIff(obs: seq<Observation>)
    requires Streamed(obs).end.Open?
    ensures AllSentExactly(obs) <==> AllExtend(obs)
    decreases |obs|
  {
    if obs != [] {
      var front := obs[..|obs| - 1];
      StreamIsExactIff(front);
      FrontExact(obs);
      SentIsShown(obs);
      SentIsShown(front);
      if AllSentExactly(front) {
        assert front != [] ==> SentExactly(front, |front|);
        LastLookExact(obs, front);
        assert |obs| > 1 ==> (Extends(obs, |obs| - 1) <==> Raws(LastShown(front)) <= Raws(LastShown(obs)));
      }
    }
  }

  // ---- A stream over the monitor's snapshots ----

  /** No node answers with an empty tip. */
  ghost predicate NamesTips(run: seq<Answers>) {
    forall i :: 0 <= i < |run| && run[i].tip.Some? ==> run[i].tip.value != ""
  }

  function TipAfter(parse: Parse, run: seq<Answers>, i: nat): string
    requires i <= |run|
  {
    StateAfter(parse, run[..i]).tip
  }

  /** A tip once replaced does not come back. */
  ghost predicate TipsDoNotRecur(parse: Parse, run: seq<Answers>) {
    forall i, m, j {:trigger TipAfter(parse, run, i), TipAfter(parse, run, m), TipAfter(parse, run, j)} ::
      0 <= i <= m <= j <= |run| && TipAfter(parse, run, i) == TipAfter(parse, run, j) ==> TipAfter(parse, run, m) == TipAfter(parse, run, i)
  }

  /** The stream looks after `times[j]` refreshes. */
  function Observations(parse: Parse, run: seq<Answers>, times: seq<nat>, late: seq<bool>): (obs: seq<Observation>)
    requires |late| == |times| && forall j :: 0 <= j < |times| ==> times[j] <= |run|
    ensures |obs| == |times|
    ensures forall j :: 0 <= j < |obs| ==> obs[j] == Observation(Published(parse, run[..times[j]]), late[j])
  {
    seq(|times|, j requires 0 <= j < |times| => Observation(Published(parse, run[..times[j]]), late[j]))
  }

  lemma PublishedTipIsNamed(parse: Parse, run: seq<Answers>)
    requires Lawful(parse) && NamesTips(run) && Published(parse, run).refreshed
    ensures Published(parse, run).tip != ""
    decreases |run|
  {
    var front := run[..|run| - 1];
    RunsStaySound(parse, front);
    RefreshGrows(parse, StateAfter(parse, front), run[|run| - 1]);
    if Refresh(parse, StateAfter(parse, front), run[|run| - 1]).1.None? {
      PublishedTipIsNamed(parse, front);
    }
  }

  /** Two looks at the channel, one after the other: with the same tip the later holds the earlier. */
  lemma LaterSnapshotContinues(parse: Parse, run: seq<Answers>, t: nat, u: nat)
    requires Lawful(parse) && TipsDoNotRecur(parse, run)
    requires t <= u <= |run|
    ensures Continues(Published(parse, run[..t]), Published(parse, run[..u]))
  {
    var early, late := run[..t], run[..u];
    var i, j := LastPublished(parse, early), LastPublished(parse, late);
    PublishedIsAState(parse, early);
    PublishedIsAState(parse, late);
    assert late[..t] == early;
    PublishingMovesOn(parse, late, t);
    if i > 0 && Published(parse, early).tip == Published(parse, late).tip {
      assert early[..i] == run[..i] && late[..j] == run[..j];
      assert TipAfter(parse, run, i) == TipAfter(parse, run, j);
      var upto := run[..j];
      forall m | i <= m <= j ensures StateAfter(parse, upto[..m]).tip == StateAfter(parse, upto[..i]).tip {
        assert upto[..m] == run[..m] && upto[..i] == run[..i];
        assert TipAfter(parse, run, m) == TipAfter(parse, run, i);
      }
      IntervalGrows(parse, upto, i);
      assert upto[..i] == run[..i];
    }
  }

  /** The main result: over any refreshes, failed ones included, and any looks at the channel in order, the
      stream has sent exactly the entries of the last snapshot it served, in order, each once; while it is
      open that is the snapshot it last looked at. */
  lemma StreamSendsEachOnce(parse: Parse, run: seq<Answers>, times: seq<nat>, late: seq<bool>)
    requires Lawful(parse) && NamesTips(run) && TipsDoNotRecur(parse, run)
    requires |late| == |times| && forall j :: 0 <= j < |times| ==> times[j] <= |run|
    requires forall i, j :: 0 <= i <= j < |times| ==> times[i] <= times[j]
    ensures var obs := Observations(parse, run, times, late);
            var n := Served(obs);
            && (Streamed(obs).end.Open? ==> n == |times|)
            && (n == 0 ==> Streamed(obs).out == [])
            && (n > 0 ==>
                  var snapshot := Published(parse, run[..times[n - 1]]);
                  && Streamed(obs).out == Raws(snapshot.entries)
                  && snapshot.refreshed
                  && (forall i, j :: 0 <= i < j < |snapshot.entries| ==> snapshot.entries[i].txid != snapshot.entries[j].txid)
                  && (forall i :: 0 <= i < |snapshot.entries| ==> snapshot.entries[i].compact.index == i))
  {
    var obs := Observations(parse, run, times, late);
    forall j | 0 < j < |obs| ensures ContinuesAt(obs, j) {
      LaterSnapshotContinues(parse, run, times[j - 1], times[j]);
      if obs[j - 1].snapshot.refreshed {
        PublishedTipIsNamed(parse, run[..times[j - 1]]);
      }
    }
    StreamIsUpToDate(obs);
    var n := Served(obs);
    if n > 0 {
      PublishedIsDistinct(parse, run[..times[n - 1]]);
    }
  }

  lemma PublishedIsDistinct(parse: Parse, run: seq<Answers>)
    requires Lawful(parse)
    ensures var p := Published(parse, run);
            && (forall i, j :: 0 <= i < j < |p.entries| ==> p.entries[i].txid != p.entries[j].txid)
            && (forall i :: 0 <= i < |p.entries| ==> p.entries[i].compact.index == i)
  {
    PublishedIsAState(parse, run);
    var i := LastPublished(parse, run);
    if i > 0 {
      var s := StateAfter(parse, run[..i]);
      RunsStaySound(parse, run[..i]);
      forall j | 0 <= j < |s.entries|
        ensures s.entries[j].compact.index == j && forall k :: 0 <= k < j ==> s.entries[k].txid != s.entries[j].txid
      {
        assert EntryOk(s, j);
      }
    } else {
      NothingPublished(parse, run);
    }
  }

  lemma {:induction false} NothingPublished(parse: Parse, run: seq<Answers>)
    requires LastPublished(parse, run) == 0
    ensures Published(parse, run) == Snapshot("", [], false)
    decreases |run|
  {
    if run != [] {
      NothingPublished(parse, run[..|run| - 1]);
    }
  }

  // ---- A tip hash that comes back ----

  /** A node that lists one transaction at `tip`, identified by the hex of its raw bytes. */
  function OneListed(tip: string, raw: Bytes): Answers {
    Answers(Some(tip), Some([HexEncode(raw)]), (i: nat) => Some(Fetched(HexEncode(raw), 0)))
  }

  function OneEntry(raw: Bytes, compact: CompactTx): Entry {
    Entry(HexEncode(raw), Reversed(raw), raw, compact)
  }

  /** What a refresh makes of it in a new interval. */
  lemma RefreshesOne(parse: Parse, s: State, tip: string, raw: Bytes, compact: CompactTx)
    requires s.tip != tip && parse(0, raw) == Some(compact)
    ensures var entries := [OneEntry(raw, compact)];
            Refresh(parse, s, OneListed(tip, raw)) == (State(tip, {HexEncode(raw)}, entries), Some(Snapshot(tip, entries, true)))
  {
    HexRoundTrip(raw);
    var a, s1, txid := OneListed(tip, raw), AtTip(s, tip), HexEncode(raw);
    assert [txid][..0] == [];
    assert VisitAll(parse, s1, [txid][..0], a.fetched) == (s1, true);
    assert VisitAll(parse, s1, [txid], a.fetched) == Visit(parse, s1, txid, a.fetched(0));
    assert {} + {txid} == {txid} && [] + [OneEntry(raw, compact)] == [OneEntry(raw, compact)];
  }

  /** The tip goes from A to B and back to A, each time with another transaction. */
  function RecurringRun(): seq<Answers> {
    [OneListed("A", [1]), OneListed("B", [2]), OneListed("A", [3])]
  }

  lemma RecurringSnapshots(parse: Parse)
    requires parse(0, [1]).Some? && parse(0, [2]).Some? && parse(0, [3]).Some?
    ensures Published(parse, RecurringRun()[..1]) == Snapshot("A", [OneEntry([1], parse(0, [1]).value)], true)
    ensures Published(parse, RecurringRun()) == Snapshot("A", [OneEntry([3], parse(0, [3]).value)], true)
  {
    var run := RecurringRun();
    assert run[..1][..0] == [] && run[..2][..1] == run[..1];
    RefreshesOne(parse, START, "A", [1], parse(0, [1]).value);
    RefreshesOne(parse, StateAfter(parse, run[..1]), "B", [2], parse(0, [2]).value);
    RefreshesOne(parse, StateAfter(parse, run[..2]), "A", [3], parse(0, [3]).value);
  }

  /** The assumption on tips is needed, and the monitor can break it: over this run a stream that looks after
      the first and the third refresh stays open and never sends the transaction the third one published. */
  lemma RecurringTipLosesEntry(parse: Parse)
    requires parse(0, [1]).Some? && parse(0, [2]).Some? && parse(0, [3]).Some?
    ensures var run := RecurringRun();
            var st := Streamed(Observations(parse, run, [1, 3], [false, false]));
            && Raws(Published(parse, run).entries) == [RawTransaction([3], 0)]
            && st.end.Open? && st.out == [RawTransaction([1], 0)]
  {
    var run := RecurringRun();
    RecurringSnapshots(parse);
    var first, third := Published(parse, run[..1]), Published(parse, run);
    assert run[..3] == run;
    assert Observations(parse, run, [1, 3], [false, false]) == [Observation(first, false), Observation(third, false)];
    LosesSecond(first, third, [RawTransaction([1], 0)]);
  }

  lemma LosesSecond(first: Snapshot, second: Snapshot, raws: seq<RawTransaction>)
    requires first.refreshed && second.refreshed && first.tip == second.tip && first.tip != ""
    requires |first.entries| == |second.entries| && Raws(first.entries) == raws
    ensures var st := Streamed([Observation(first, false), Observation(second, false)]);
            st.end.Open? && st.out == raws
  {
    var one, two := [Observation(first, false)], [Observation(first, false), Observation(second, false)];
    assert two[..1] == one && one[..0] == [];
    assert first.entries[0..] == first.entries && [] + raws == raws;
    assert Streamed(one) == Stream(first.tip, |first.entries|, raws, Open);
    assert second.entries[|first.entries|..] == [] && raws + [] == raws;
  }

  // ---- Exclusion by suffix ----

  predicate EndsWith(txid: Bytes, suffix: Bytes) {
    |suffix| <= |txid| && txid[|txid| - |suffix|..] == suffix
  }

  /** A transaction identifier ends with `suffix` exactly when something precedes it there. */
  lemma EndsWithExactly(txid: Bytes, suffix: Bytes)
    ensures EndsWith(txid, suffix) <==> exists prefix: Bytes :: txid == prefix + suffix
  {
    if EndsWith(txid, suffix) {
      assert txid == txid[..|txid| - |suffix|] + suffix;
    }
  }

  function MatchCount(txids: seq<Bytes>, suffix: Bytes): nat
    decreases |txids|
  {
    if txids == [] then 0
    else MatchCount(txids[..|txids| - 1], suffix) + (if EndsWith(txids[|txids| - 1], suffix) then 1 else 0)
  }

  /** `excluded_by_suffixes`. */
  function ExcludedBySuffixes(txids: seq<Bytes>, exclude: seq<Bytes>): (r: seq<bool>)
    ensures |r| == |txids|
  {
    seq(|txids|, i requires 0 <= i < |txids| =>
      exists s :: s in exclude && MatchCount(txids, s) == 1 && EndsWith(txids[i], s))
  }

  /** `i` is the one place where `suffix` matches. */
  predicate OnlyMatch(txids: seq<Bytes>, suffix: Bytes, i: nat) {
    i < |txids| && EndsWith(txids[i], suffix) && forall j :: 0 <= j < |txids| && EndsWith(txids[j], suffix) ==> j == i
  }

  lemma {:induction false} NoMatch(txids: seq<Bytes>, suffix: Bytes)
    ensures MatchCount(txids, suffix) == 0 <==> forall j :: 0 <= j < |txids| ==> !EndsWith(txids[j], suffix)
    decreases |txids|
  {
    if txids != [] {
      var n := |txids| - 1;
      NoMatch(txids[..n], suffix);
      if MatchCount(txids, suffix) == 0 {
        forall j | 0 <= j < |txids| ensures !EndsWith(txids[j], suffix) {
          assert j < n ==> !EndsWith(txids[..n][j], suffix);
        }
      } else if !EndsWith(txids[n], suffix) {
        var j :| 0 <= j < n && EndsWith(txids[..n][j], suffix);
        assert EndsWith(txids[j], suffix);
      }
    }
  }

  lemma {:induction false} CountsOneExactly(txids: seq<Bytes>, suffix: Bytes, i: nat)
    requires i < |txids| && EndsWith(txids[i], suffix)
    ensures MatchCount(txids, suffix) == 1 <==> OnlyMatch(txids, suffix, i)
    decreases |txids|
  {
    var n := |txids| - 1;
    var front := txids[..n];
    NoMatch(front, suffix);
    if i == n {
      if MatchCount(front, suffix) != 0 {
        var j :| 0 <= j < n && EndsWith(front[j], suffix);
        assert EndsWith(txids[j], suffix);
      } else {
        forall j | 0 <= j < n ensures !EndsWith(txids[j], suffix) {
          assert !EndsWith(front[j], suffix);
        }
      }
    } else {
      assert EndsWith(front[i], suffix);
      CountsOneExactly(front, suffix, i);
      if OnlyMatch(front, suffix, i) && !EndsWith(txids[n], suffix) {
        forall j | 0 <= j < |txids| && EndsWith(txids[j], suffix) ensures j == i {
          assert j < n ==> EndsWith(front[j], suffix);
        }
      }
      if OnlyMatch(txids, suffix, i) {
        forall j | 0 <= j < n && EndsWith(front[j], suffix) ensures j == i {
          assert EndsWith(txids[j], suffix);
        }
      }
    }
  }

  /** A suffix excludes a transaction exactly when that is the only one it matches. */
  lemma ExcludesOnlyUnambiguous(txids: seq<Bytes>, exclude: seq<Bytes>, i: nat)
    requires i < |txids|
    ensures ExcludedBySuffixes(txids, exclude)[i] <==> exists s :: s in exclude && OnlyMatch(txids, s, i)
  {
    forall s | s in exclude && EndsWith(txids[i], s) ensures MatchCount(txids, s) == 1 <==> OnlyMatch(txids, s, i) {
      CountsOneExactly(txids, s, i);
    }
    if ExcludedBySuffixes(txids, exclude)[i] {
      var s :| s in exclude && MatchCount(txids, s) == 1 && EndsWith(txids[i], s);
      assert OnlyMatch(txids, s, i);
    }
  }
}
