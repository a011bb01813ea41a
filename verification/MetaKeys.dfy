/** The keys of the cache's metadata table: zero-padded decimal epoch numbers, their parser, and the order
    the table iterates them in. */
module MetaKeys {
  import opened Base

  const EPOCH_DIGEST_PREFIX: string := "epoch_digest/"
  const SNAPSHOT_BASE_HEIGHT: string := "snapshot_base_height"

  /** The largest epoch number in full, whose width every key is padded to. */
  const WIDEST: string := "18446744073709551615"

  function Pow10(width: nat): nat { if width == 0 then 1 else 10 * Pow10(width - 1) }

  function Digit(n: nat): char
    requires n < 10
  {
    '0' + n as char
  }

  /** The low `width` decimal digits of `n`, most significant first. */
  function Digits(n: nat, width: nat): (r: string)
    ensures |r| == width
    decreases width
  {
    if width == 0 then "" else Digits(n / 10, width - 1) + [Digit(n % 10)]
  }

  function ParseDigits(text: string): Option<nat>
    decreases |text|
  {
    if text == "" then Some(0)
    else
      var last := text[|text| - 1];
      match ParseDigits(text[..|text| - 1])
      case Some(n) => if '0' <= last <= '9' then Some(10 * n + (last - '0') as nat) else None
      case None => None
  }

  /** `str::parse::<u64>`: an optional plus sign, at least one digit, and no overflow. */
  function ParseU64(text: string): (r: Option<nat>)
    ensures r.Some? ==> r.value <= U64_MAX
  {
    var digits := if |text| > 1 && text[0] == '+' then text[1..] else text;
    if digits == "" then None
    else
      match ParseDigits(digits)
      case Some(n) => if n <= U64_MAX then Some(n) else None
      case None => None
  }

  function EpochKey(index: u64): string { EPOCH_DIGEST_PREFIX + Digits(index, |WIDEST|) }

  function KeyIndex(key: string): (r: Option<nat>)
    ensures r.Some? ==> r.value <= U64_MAX
  {
    if EPOCH_DIGEST_PREFIX <= key then ParseU64(key[|EPOCH_DIGEST_PREFIX|..]) else None
  }

  lemma {:induction false} DigitsParseBack(n: nat, width: nat)
    requires n < Pow10(width)
    ensures ParseDigits(Digits(n, width)) == Some(n)
    decreases width
  {
    if width > 0 {
      DigitsParseBack(n / 10, width - 1);
      var text := Digits(n, width);
      assert text[..|text| - 1] == Digits(n / 10, width - 1);
    }
  }

  lemma U64FitsTwentyDigits()
    ensures |WIDEST| == 20 && U64_MAX < Pow10(|WIDEST|)
  {
    assert Pow10(5) == 100_000;
    assert Pow10(10) == 10_000_000_000;
    assert Pow10(15) == 1_000_000_000_000_000;
    assert Pow10(20) == 100_000_000_000_000_000_000;
  }

  lemma {:induction false} DigitsAreDigits(n: nat, width: nat)
    ensures forall i :: 0 <= i < width ==> '0' <= Digits(n, width)[i] <= '9'
    decreases width
  {
    if width > 0 {
      DigitsAreDigits(n / 10, width - 1);
    }
  }

  /** A written key parses back to the epoch it was written for. */
  lemma KeyParsesBack(index: u64)
    ensures KeyIndex(EpochKey(index)) == Some(index)
    ensures EpochKey(index) != SNAPSHOT_BASE_HEIGHT
  {
    U64FitsTwentyDigits();
    DigitsParseBack(index, |WIDEST|);
    DigitsAreDigits(index, |WIDEST|);
    assert EpochKey(index)[|EPOCH_DIGEST_PREFIX|..] == Digits(index, |WIDEST|);
    assert |EpochKey(index)| != |SNAPSHOT_BASE_HEIGHT|;
  }

  lemma KeysDiffer(m: u64, n: u64)
    ensures EpochKey(m) == EpochKey(n) <==> m == n
  {
    KeyParsesBack(m);
    KeyParsesBack(n);
  }

  // ---- The table ----

  /** Every row is the base height or an epoch's digest under its own key. */
  ghost predicate MetaOk(meta: map<string, Bytes>) {
    forall k {:trigger RowKeyOk(meta, k)} :: k in meta ==> RowKeyOk(meta, k)
  }

  ghost predicate RowKeyOk(meta: map<string, Bytes>, k: string)
    requires k in meta
  {
    if k == SNAPSHOT_BASE_HEIGHT then |meta[k]| == 8
    else KeyIndex(k).Some? && k == EpochKey(KeyIndex(k).value)
  }

  function Indices(meta: map<string, Bytes>): set<nat> {
    set k | k in meta && KeyIndex(k).Some? :: KeyIndex(k).value
  }

  lemma IndexedRow(meta: map<string, Bytes>, index: nat)
    requires MetaOk(meta)
    ensures index in Indices(meta) <==> index <= U64_MAX && EpochKey(index) in meta
  {
    BaseIsNoEpoch();
    if index in Indices(meta) {
      var k :| k in meta && KeyIndex(k) == Some(index);
      assert RowKeyOk(meta, k);
      assert k == EpochKey(index);
    }
    if index <= U64_MAX && EpochKey(index) in meta {
      KeyParsesBack(index);
      assert KeyIndex(EpochKey(index)).value in Indices(meta);
    }
  }

  lemma BaseIsNoEpoch()
    ensures KeyIndex(SNAPSHOT_BASE_HEIGHT).None?
  {
    assert SNAPSHOT_BASE_HEIGHT[0] != EPOCH_DIGEST_PREFIX[0];
  }

  /** The digest rows, by epoch. */
  ghost function Rows(meta: map<string, Bytes>): map<nat, Bytes>
    requires MetaOk(meta)
  {
    map i | i in Indices(meta) :: IndexedRow(meta, i); meta[EpochKey(i)]
  }

  // ---- Iteration order ----

  /** Strict byte-wise order of the (ASCII) keys. */
  predicate Before(a: string, b: string)
    decreases |a|
  {
    b != "" && (a == "" || a[0] < b[0] || (a[0] == b[0] && Before(a[1..], b[1..])))
  }

  lemma {:induction false} BeforeTotal(a: string, b: string)
    ensures a == b || Before(a, b) || Before(b, a)
    decreases |a|
  {
    if a != "" && b != "" && a[0] == b[0] {
      BeforeTotal(a[1..], b[1..]);
      assert a == [a[0]] + a[1..] && b == [b[0]] + b[1..];
    }
  }

  lemma {:induction false} BeforeTransitive(a: string, b: string, c: string)
    requires Before(a, b) && Before(b, c)
    ensures Before(a, c)
    decreases |a|
  {
    if a != "" && a[0] == b[0] && b[0] == c[0] {
      BeforeTransitive(a[1..], b[1..], c[1..]);
    }
  }

  lemma {:induction false} BeforeLast(a: string, b: string, x: char, y: char)
    requires |a| == |b|
    ensures Before(a + [x], b + [y]) <==> Before(a, b) || (a == b && x < y)
    decreases |a|
  {
    if a != "" {
      assert (a + [x])[1..] == a[1..] + [x] && (b + [y])[1..] == b[1..] + [y];
      BeforeLast(a[1..], b[1..], x, y);
      assert a == [a[0]] + a[1..] && b == [b[0]] + b[1..];
    } else {
      assert a + [x] == [x] && b + [y] == [y];
    }
  }

  lemma {:induction false} BeforeSkipsPrefix(prefix: string, a: string, b: string)
    ensures Before(prefix + a, prefix + b) <==> Before(a, b)
    decreases |prefix|
  {
    if prefix == "" {
      assert prefix + a == a && prefix + b == b;
    } else {
      assert (prefix + a)[1..] == prefix[1..] + a && (prefix + b)[1..] == prefix[1..] + b;
      BeforeSkipsPrefix(prefix[1..], a, b);
    }
  }

  /** Digit strings of one width sort as the numbers they spell. */
  lemma {:induction false} DigitsSort(m: nat, n: nat, width: nat)
    requires m < Pow10(width) && n < Pow10(width)
    ensures Before(Digits(m, width), Digits(n, width)) <==> m < n
    decreases width
  {
    if width > 0 {
      DigitsSort(m / 10, n / 10, width - 1);
      DigitsParseBack(m / 10, width - 1);
      DigitsParseBack(n / 10, width - 1);
      BeforeLast(Digits(m / 10, width - 1), Digits(n / 10, width - 1), Digit(m % 10), Digit(n % 10));
    }
  }

  /** The zero padding makes key order numeric order. */
  lemma KeysSort(m: u64, n: u64)
    ensures Before(EpochKey(m), EpochKey(n)) <==> m < n
  {
    U64FitsTwentyDigits();
    DigitsSort(m, n, |WIDEST|);
    BeforeSkipsPrefix(EPOCH_DIGEST_PREFIX, Digits(m, |WIDEST|), Digits(n, |WIDEST|));
  }

  predicate IsFirst(keys: set<string>, key: string) {
    key in keys && forall k :: k in keys && k != key ==> Before(key, k)
  }

  lemma {:induction false} FirstExists(keys: set<string>) returns (key: string)
    requires keys != {}
    ensures IsFirst(keys, key)
  {
    var y :| y in keys;
    var rest := keys - {y};
    assert keys == rest + {y};
    if rest == {} {
      key := y;
    } else {
      var x := FirstExists(rest);
      BeforeTotal(x, y);
      if Before(x, y) {
        key := x;
      } else {
        key := y;
        forall k | k in keys && k != y ensures Before(y, k) {
          if k != x {
            BeforeTransitive(y, x, k);
          }
        }
      }
    }
  }

  lemma {:induction false} BeforeIrreflexive(a: string)
    ensures !Before(a, a)
    decreases |a|
  {
    if a != "" {
      BeforeIrreflexive(a[1..]);
    }
  }

  /** `iter()`: the first key in table order. */
  function FirstKey(keys: set<string>): (key: string)
    requires keys != {}
    ensures IsFirst(keys, key)
  {
    assert exists k :: IsFirst(keys, k) by {
      var k := FirstExists(keys);
    }
    assert forall a, b :: IsFirst(keys, a) && IsFirst(keys, b) ==> a == b by {
      forall a, b | IsFirst(keys, a) && IsFirst(keys, b) ensures a == b {
        if a != b {
          BeforeTransitive(a, b, a);
          BeforeIrreflexive(a);
        }
      }
    }
    var k :| IsFirst(keys, k);
    k
  }
}
