/** Shared vocabulary: options and results, bytes, saturating arithmetic and finite sets of heights. */
module Base {

  datatype Option<+T> = None | Some(value: T)

  datatype Result<+T, +E> = Ok(value: T) | Err(error: E)

  type byte = b: int | 0 <= b < 256

  type Bytes = seq<byte>

  const U32_MAX: nat := 0xFFFF_FFFF
  const U64_MAX: nat := 0xFFFF_FFFF_FFFF_FFFF

  type u32 = x: nat | x <= U32_MAX

  type u64 = x: nat | x <= U64_MAX

  function Min(a: nat, b: nat): nat { if a <= b then a else b }

  function Max(a: nat, b: nat): nat { if a <= b then b else a }

  /** `saturating_sub`. */
  function SatSub(a: nat, b: nat): nat { if a < b then 0 else a - b }

  lemma Assoc<T>(a: seq<T>, b: seq<T>, c: seq<T>)
    ensures a + (b + c) == (a + b) + c
  {
  }

  // ---- Descent ----

  function Iterate<T>(step: T -> T, s: T, n: nat): T {
    if n == 0 then s else Iterate(step, step(s), n - 1)
  }

  /** A step that keeps `inv` and lowers `bound` until `rests` gets there within `bound`. */
  lemma {:induction false} Descent<T>(step: T -> T, inv: T -> bool, rests: T -> bool, bound: T -> nat, s: T, b: nat) returns (n: nat)
    requires inv(s) && bound(s) <= b
    requires forall x: T {:trigger step(x)} :: inv(x) && !rests(x) ==> inv(step(x)) && bound(step(x)) < bound(x)
    ensures n <= b && inv(Iterate(step, s, n)) && rests(Iterate(step, s, n))
    decreases b
  {
    if rests(s) {
      n := 0;
    } else {
      var next := step(s);
      n := Descent(step, inv, rests, bound, next, b - 1);
      n := n + 1;
    }
  }

  // ---- Lowest and highest height of a table ----

  predicate IsHighest(s: set<nat>, m: nat) {
    m in s && forall x :: x in s ==> x <= m
  }

  lemma {:induction false} HighestExists(s: set<nat>) returns (m: nat)
    requires s != {}
    ensures IsHighest(s, m)
  {
    var y :| y in s;
    var rest := s - {y};
    m := y;
    if rest != {} {
      m := HighestExists(rest);
      m := Max(m, y);
    }
    assert s == rest + {y};
  }

  function Highest(s: set<nat>): (m: nat)
    requires s != {}
    ensures m in s && forall x :: x in s ==> x <= m
  {
    assert exists m :: IsHighest(s, m) by {
      var m := HighestExists(s);
    }
    var m :| IsHighest(s, m);
    m
  }

  predicate IsLowest(s: set<nat>, m: nat) {
    m in s && forall x :: x in s ==> m <= x
  }

  lemma {:induction false} LowestExists(s: set<nat>) returns (m: nat)
    requires s != {}
    ensures IsLowest(s, m)
  {
    var y :| y in s;
    var rest := s - {y};
    m := y;
    if rest != {} {
      m := LowestExists(rest);
      m := Min(m, y);
    }
    assert s == rest + {y};
  }

  function Lowest(s: set<nat>): (m: nat)
    requires s != {}
    ensures m in s && forall x :: x in s ==> m <= x
  {
    assert exists m :: IsLowest(s, m) by {
      var m := LowestExists(s);
    }
    var m :| IsLowest(s, m);
    m
  }

  predicate Within(lo: nat, h: nat, hi: nat) { lo <= h <= hi }

  /** The closed range `lo..=hi`, empty when `lo > hi`. */
  function Interval(lo: nat, hi: nat): set<nat> {
    set h: nat | lo <= h <= hi && Within(lo, h, hi)
  }

  lemma {:induction false} IntervalSize(lo: nat, hi: nat)
    requires lo <= hi
    ensures |Interval(lo, hi)| == hi - lo + 1
    decreases hi
  {
    if lo == hi {
      assert Interval(lo, hi) == {lo};
    } else {
      IntervalSize(lo, hi - 1);
      assert Interval(lo, hi) == Interval(lo, hi - 1) + {hi};
    }
  }

  lemma {:induction false} SubsetSize<T>(a: set<T>, b: set<T>)
    requires a <= b
    ensures |a| <= |b|
    ensures |a| == |b| ==> a == b
  {
    assert b == a + (b - a);
    assert a !! (b - a);
    assert |b| == |a| + |b - a|;
    if |a| == |b| {
      assert b - a == {};
    }
  }

  /** A set between `lo` and `hi` has `hi - lo + 1` members only by holding all of them. */
  lemma Pigeonhole(s: set<nat>, lo: nat, hi: nat)
    requires lo <= hi && s <= Interval(lo, hi)
    ensures |s| == hi - lo + 1 <==> s == Interval(lo, hi)
  {
    IntervalSize(lo, hi);
    SubsetSize(s, Interval(lo, hi));
  }
}
