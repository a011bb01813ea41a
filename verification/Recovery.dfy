/** Corruption: the cheap open-time check, localizing what it found, and truncating from there. */
module Recovery {
  import opened Base
  import opened Blocks
  import opened Format
  import opened BlockStore
  import opened BlockCache

  /** A row that decodes to a block of its own height. */
  predicate Good(p: Primitives, t: Table, h: nat) {
    h in t && p.decode(t[h]).Some? && p.decode(t[h]).value.height == h
  }

  /** `validate_light`: the tip and a count, nothing else. */
  predicate ValidateLight(p: Primitives, t: Table) {
    t.Keys == {} ||
    (var first, last := Lowest(t.Keys), Highest(t.Keys);
     Good(p, t, last) && |t| == last - first + 1)
  }

  lemma CountIsContiguity(t: Table)
    requires t.Keys != {}
    ensures |t| == Highest(t.Keys) - Lowest(t.Keys) + 1 <==> Contiguous(t)
  {
    var lo, hi := Lowest(t.Keys), Highest(t.Keys);
    Pigeonhole(t.Keys, lo, hi);
    assert |t| == |t.Keys|;
    if t.Keys == Interval(lo, hi) {
      forall h: nat | lo <= h <= hi ensures h in t {
        assert Within(lo, h, hi) && h in Interval(lo, hi);
      }
    }
    if Contiguous(t) {
      assert forall h :: h in Interval(lo, hi) ==> h in t.Keys;
      assert t.Keys == Interval(lo, hi);
    }
  }

  /** The constant-size check accepts a non-empty table exactly when its tip is good and no height
      between the first and the last is missing. */
  lemma ValidateLightExact(p: Primitives, t: Table)
    requires t.Keys != {}
    ensures ValidateLight(p, t)
            <==> Good(p, t, Highest(t.Keys)) && forall h: nat :: Lowest(t.Keys) <= h <= Highest(t.Keys) ==> h in t
  {
    CountIsContiguity(t);
  }

  // ---- Localization ----

  /** The lowest height from `h` on that `t` lacks, if one is missing by `last`. */
  function LowestMissing(t: Table, h: nat, last: nat): (r: Option<nat>)
    requires h <= last + 1
    ensures r.Some? ==> h <= r.value <= last && r.value !in t && forall k: nat :: h <= k < r.value ==> k in t
    ensures r.None? ==> forall k: nat :: h <= k <= last ==> k in t
    decreases last + 1 - h
  {
    if h > last then None else if h !in t then Some(h) else LowestMissing(t, h + 1, last)
  }

  /** Walking down from `h`: the bottom of the bad suffix that starts there, or `None` if `h` is good. */
  function BadSuffix(p: Primitives, t: Table, first: nat, h: nat): (r: Option<nat>)
    requires first <= h
    ensures r.None? <==> Good(p, t, h)
    ensures r.Some? ==>
              && first <= r.value <= h
              && (forall k: nat :: r.value <= k <= h ==> !Good(p, t, k))
              && (r.value == first || Good(p, t, r.value - 1))
    decreases h
  {
    if Good(p, t, h) then None
    else if h == first then Some(first)
    else
      match BadSuffix(p, t, first, h - 1)
      case None => Some(h)
      case Some(c) => Some(c)
  }

  /** `lowest_corrupt_height`. */
  function LowestCorrupt(p: Primitives, t: Table): Option<nat> {
    if t.Keys == {} then None
    else
      var first, last := Lowest(t.Keys), Highest(t.Keys);
      var gap := if |t| != last - first + 1 then LowestMissing(t, first, last) else None;
      if gap.Some? then gap else BadSuffix(p, t, first, last)
  }

  method LowestCorruptHeight(cache: Cache) returns (r: Option<nat>)
    ensures r == LowestCorrupt(cache.p, cache.blocks)
  {
    var t := cache.blocks;
    if t.Keys == {} {
      return None;
    }
    var first, last := Lowest(t.Keys), Highest(t.Keys);
    if |t| != last - first + 1 {
      var missing := FirstMissing(t, first, last);
      if missing.Some? {
        return missing;
      }
    }
    r := WalkDown(cache.p, t, first, last);
  }

  method FirstMissing(t: Table, first: nat, last: nat) returns (r: Option<nat>)
    requires first <= last
    ensures r == LowestMissing(t, first, last)
  {
    var height := first;
    while height <= last
      invariant first <= height <= last + 1
      invariant LowestMissing(t, first, last) == LowestMissing(t, height, last)
    {
      if height !in t {
        return Some(height);
      }
      height := height + 1;
    }
    r := None;
  }

  /** From the tip down to the first good block, or to the bottom. */
  method WalkDown(p: Primitives, t: Table, first: nat, last: nat) returns (r: Option<nat>)
    requires first <= last
    ensures r == BadSuffix(p, t, first, last)
  {
    var height := last;
    while !Good(p, t, height)
      invariant first <= height <= last
      invariant height < last ==>
                  BadSuffix(p, t, first, last) ==
                  (match BadSuffix(p, t, first, height) case None => Some(height + 1) case Some(c) => Some(c))
      decreases height
    {
      if height == first {
        return Some(first);
      }
      height := height - 1;
    }
    r := if height < last then Some(height + 1) else None;
  }

  /** `recover`: truncate from the lowest corrupt height. */
  function Recovered(p: Primitives, s: Store): Store {
    match LowestCorrupt(p, s.blocks)
    case None => s
    case Some(corrupt) => BlockStore.Reorg(s, SatSub(corrupt, 1))
  }

  /** What is found: nothing exactly when the open-time check passes, else the first gap, and without one the bottom
      of the run of bad rows that ends at the tip. */
  lemma LowestCorruptExactly(p: Primitives, t: Table)
    requires t.Keys != {}
    ensures var first, last := Lowest(t.Keys), Highest(t.Keys);
            match LowestCorrupt(p, t)
            case None => ValidateLight(p, t)
            case Some(c) =>
              && first <= c <= last
              && if Contiguous(t)
                 then (forall k: nat :: c <= k <= last ==> !Good(p, t, k)) && (c == first || Good(p, t, c - 1))
                 else c !in t && forall k: nat :: first <= k < c ==> k in t
    ensures LowestCorrupt(p, t).None? <==> ValidateLight(p, t)
  {
    CountIsContiguity(t);
  }

  /** Recovery keeps everything below the corrupt height, and height zero in any case, as it was; and nothing else. */
  lemma RecoveredExactly(p: Primitives, s: Store)
    requires s.blocks.Keys != {} ==> Highest(s.blocks.Keys) + 1 < HEIGHT_LIMIT
    ensures var r := Recovered(p, s);
            match LowestCorrupt(p, s.blocks)
            case None => r == s
            case Some(c) =>
              var cut := Max(c, 1);
              && (forall h: nat :: h in r.blocks <==> h in s.blocks && h < cut)
              && (forall h: nat :: h in r.blocks ==> r.blocks[h] == s.blocks[h])
              && (forall i: nat :: i in r.digests <==> i in s.digests && EpochLast(i) < cut)
              && (forall i: nat :: i in r.digests ==> r.digests[i] == s.digests[i])
              && r.base == if s.base.Some? && s.base.value < cut then s.base else None
  {
    if LowestCorrupt(p, s.blocks).Some? {
      LowestCorruptExactly(p, s.blocks);
      RemoveFromExactly(s, Max(LowestCorrupt(p, s.blocks).value, 1));
    }
  }

  method Recover(cache: Cache)
    requires cache.Valid()
    modifies cache
    ensures cache.Valid() && cache.View() == Recovered(cache.p, old(cache.View()))
  {
    var corrupt := LowestCorruptHeight(cache);
    if corrupt.Some? {
      cache.Reorg(SatSub(corrupt.value, 1));
    }
  }

  /** Round one of a gapped table leaves the rows below its lowest hole. */
  lemma AfterGap(p: Primitives, s: Store)
    requires s.blocks.Keys != {} && !Contiguous(s.blocks)
    ensures var t, u := s.blocks, Recovered(p, s).blocks;
            && u.Keys != {} && |u| < |t| && Contiguous(u) && Lowest(u.Keys) == Lowest(t.Keys)
            && Highest(u.Keys) + 1 !in t
            && (forall h: nat :: h in u <==> h in t && h <= Highest(u.Keys))
            && (forall h: nat :: h in u ==> u[h] == t[h])
  {
    var t := s.blocks;
    CountIsContiguity(t);
    var first, last := Lowest(t.Keys), Highest(t.Keys);
    var g := LowestMissing(t, first, last).value;
    var u := Recovered(p, s).blocks;
    assert u == Below(t, g);
    assert first in u && g - 1 in u && last !in u;
    assert Lowest(u.Keys) == first && Highest(u.Keys) == g - 1;
    StrictlySmaller(u, t, last);
  }

  lemma StrictlySmaller(u: Table, t: Table, gone: nat)
    requires u.Keys <= t.Keys && gone in t && gone !in u
    ensures |u| < |t|
  {
    SubsetSize(u.Keys, t.Keys);
    assert |u| == |u.Keys| && |t| == |t.Keys|;
  }

  /** On a gap-free table a round cuts the bad suffix; only at height zero can it stop short. */
  lemma AfterBadSuffix(p: Primitives, s: Store)
    requires s.blocks.Keys != {} && Contiguous(s.blocks)
    ensures var t, u := s.blocks, Recovered(p, s).blocks;
            var first, last := Lowest(t.Keys), Highest(t.Keys);
            && (Good(p, t, last) ==> Recovered(p, s) == s)
            && (first > 0 || (exists h :: Good(p, t, h)) ==> ValidateLight(p, u))
            && (first == 0 && !(exists h :: Good(p, t, h)) ==> u.Keys == {0} && u[0] == t[0])
            && (!Good(p, t, last) && last > 0 ==> |u| < |t|)
            && (forall h: nat :: h in u ==> h in t && u[h] == t[h])
  {
    var t := s.blocks;
    CountIsContiguity(t);
    var first, last := Lowest(t.Keys), Highest(t.Keys);
    var c := BadSuffix(p, t, first, last);
    var u := Recovered(p, s).blocks;
    if c.Some? {
      assert u == Below(t, SatSub(c.value, 1) + 1);
      if exists h :: Good(p, t, h) {
        var h :| Good(p, t, h);
        assert first <= h <= last && h < c.value;
        BelowBounds(t, c.value);
        CountIsContiguity(u);
        assert Good(p, u, c.value - 1);
      } else {
        assert c.value == first;
        if first == 0 {
          assert u.Keys == {0};
        } else {
          BelowEmpty(t, c.value);
        }
      }
      if last > 0 {
        assert last !in u;
        StrictlySmaller(u, t, last);
      }
    }
  }

  /** The rows that no round can get rid of: height zero is cached and nothing in the gap-free run that
      starts there is good. */
  ghost predicate Stuck(p: Primitives, t: Table) {
    0 in t && forall h: nat :: Reaches(t, h) ==> !Good(p, t, h)
  }

  /** Every height up to `h` is cached. */
  ghost predicate Reaches(t: Table, h: nat) {
    forall k: nat :: k <= h ==> k in t
  }

  lemma ContiguousReaches(t: Table, h: nat)
    requires t.Keys != {} && Contiguous(t) && Lowest(t.Keys) == 0
    ensures Reaches(t, h) <==> h in t
  {
    assert Highest(t.Keys) in t;
  }

  /** A truncating round always shrinks the table, above height zero. */
  lemma RecoverShrinks(p: Primitives, s: Store)
    requires s.blocks.Keys != {} && Lowest(s.blocks.Keys) >= 1
    ensures Recovered(p, s) == s || |Recovered(p, s).blocks| < |s.blocks|
    ensures Recovered(p, s) == s <==> LowestCorrupt(p, s.blocks).None?
  {
    CountIsContiguity(s.blocks);
    if Contiguous(s.blocks) {
      AfterBadSuffix(p, s);
    } else {
      AfterGap(p, s);
    }
  }

  lemma StuckStays(p: Primitives, s: Store)
    requires s.blocks.Keys == {0} && !Good(p, s.blocks, 0)
    ensures Recovered(p, s).blocks == s.blocks && !ValidateLight(p, s.blocks)
  {
    assert Contiguous(s.blocks);
    assert forall h :: !Good(p, s.blocks, h);
    AfterBadSuffix(p, s);
  }

  /** One round settles a gap-free table, or pins it at a bad height zero. */
  lemma RecoverContiguous(p: Primitives, s: Store)
    requires s.blocks.Keys != {} ==> Contiguous(s.blocks)
    ensures ValidateLight(p, Recovered(p, s).blocks) <==> !Stuck(p, s.blocks)
    ensures Stuck(p, s.blocks) ==> Recovered(p, s).blocks.Keys == {0} && !Good(p, Recovered(p, s).blocks, 0)
  {
    var t := s.blocks;
    if t.Keys != {} {
      AfterBadSuffix(p, s);
      var u := Recovered(p, s).blocks;
      if Lowest(t.Keys) == 0 {
        forall h: nat ensures Reaches(t, h) <==> h in t {
          ContiguousReaches(t, h);
        }
        assert Stuck(p, t) <==> !exists h :: Good(p, t, h);
        if Stuck(p, t) {
          assert !Good(p, t, 0);
          StuckStays(p, Store(u, map[], None));
        }
      }
    }
  }

  lemma AcceptedIsFixed(p: Primitives, s: Store)
    requires ValidateLight(p, s.blocks)
    ensures Recovered(p, s) == s
  {
  }

  /** Two rounds reach a table the check accepts, from every table but one whose gap-free run at height
      zero holds nothing good. In particular from every table that starts above zero. */
  lemma RecoverTwice(p: Primitives, s: Store)
    ensures ValidateLight(p, Recovered(p, Recovered(p, s)).blocks) <==> !Stuck(p, s.blocks)
  {
    var t := s.blocks;
    var s1 := Recovered(p, s);
    if t.Keys == {} || Contiguous(t) {
      RecoverContiguous(p, s);
      if Stuck(p, t) {
        StuckStays(p, s1);
      } else {
        AcceptedIsFixed(p, s1);
      }
    } else {
      AfterGap(p, s);
      RecoverContiguous(p, s1);
      SameRun(p, t, s1.blocks);
    }
  }

  lemma SameRun(p: Primitives, t: Table, u: Table)
    requires t.Keys != {} && u.Keys != {} && Contiguous(u) && Lowest(u.Keys) == Lowest(t.Keys)
    requires Highest(u.Keys) + 1 !in t
    requires forall h: nat :: h in u <==> h in t && h <= Highest(u.Keys)
    requires forall h: nat :: h in u ==> u[h] == t[h]
    ensures Stuck(p, u) <==> Stuck(p, t)
  {
    if 0 in t {
      var top := Highest(u.Keys);
      forall h: nat ensures Reaches(t, h) <==> Reaches(u, h) {
        assert Reaches(t, h) && top < h ==> top + 1 in t;
      }
    }
  }

  /** The stuck case is real: a lone undecodable row at height zero survives every round. */
  lemma StuckExample(p: Primitives, bad: Bytes)
    requires p.decode(bad).None?
    ensures var s := Store(map[0 := bad], map[], None);
            Stuck(p, s.blocks) && Recovered(p, s).blocks == s.blocks && !ValidateLight(p, s.blocks)
  {
    var s := Store(map[0 := bad], map[], None);
    assert s.blocks.Keys == {0};
    StuckStays(p, s);
    assert forall h: nat :: Reaches(s.blocks, h) ==> !Good(p, s.blocks, h);
  }
}
