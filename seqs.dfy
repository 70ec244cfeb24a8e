/** Sequence operations shared by the analyses: counting, last-index search,
    pandas-style forward fill, sums and order statistics, a stable sort,
    frequency tables and rounding to one decimal. */
module Seqs {

  datatype Option<T> = None | Some(value: T)

  // ---------------------------------------------------------------------------
  // Counting

  /** Number of elements of `s` satisfying `p`. */
  function CountWhere<T>(s: seq<T>, p: T -> bool): (n: nat)
    ensures n <= |s|
  {
    if |s| == 0 then 0 else CountWhere(s[..|s| - 1], p) + (if p(s[|s| - 1]) then 1 else 0)
  }

  lemma CountSnoc<T>(s: seq<T>, x: T, p: T -> bool)
    ensures CountWhere(s + [x], p) == CountWhere(s, p) + (if p(x) then 1 else 0)
  {
    assert (s + [x])[..|s|] == s;
  }

  lemma {:induction false} CountAppend<T>(a: seq<T>, b: seq<T>, p: T -> bool)
    ensures CountWhere(a + b, p) == CountWhere(a, p) + CountWhere(b, p)
  {
    if |b| == 0 {
      assert a + b == a;
    } else {
      var b' := b[..|b| - 1];
      assert a + b == (a + b') + [b[|b| - 1]];
      assert b == b' + [b[|b| - 1]];
      CountAppend(a, b', p);
      CountSnoc(a + b', b[|b| - 1], p);
      CountSnoc(b', b[|b| - 1], p);
    }
  }

  /** The positions whose element satisfies `p`. */
  function Positions<T>(s: seq<T>, p: T -> bool): set<int>
  {
    set i | 0 <= i < |s| && p(s[i])
  }

  /** The count is the number of positions whose element satisfies `p`. */
  lemma {:induction false} CountIsCard<T>(s: seq<T>, p: T -> bool)
    ensures CountWhere(s, p) == |Positions(s, p)|
  {
    if |s| > 0 {
      var t := s[..|s| - 1];
      CountIsCard(t, p);
      if p(s[|s| - 1]) {
        assert Positions(s, p) == Positions(t, p) + {|s| - 1};
      } else {
        assert Positions(s, p) == Positions(t, p);
      }
    }
  }

  /** The positions of `lo .. hi - 1` whose element satisfies `p`. */
  function SlicePositions<T>(s: seq<T>, lo: nat, hi: nat, p: T -> bool): set<int>
    requires hi <= |s|
  {
    set j | lo <= j < hi && p(s[j])
  }

  /** Counting over the slice `s[lo..hi]` counts the positions of `lo .. hi - 1`
      whose element satisfies `p`. */
  lemma {:induction false} CountSliceIsCard<T>(s: seq<T>, lo: nat, hi: nat, p: T -> bool)
    requires lo <= hi <= |s|
    ensures CountWhere(s[lo..hi], p) == |SlicePositions(s, lo, hi, p)|
    decreases hi
  {
    if hi == lo {
      assert SlicePositions(s, lo, hi, p) == {};
    } else {
      CountSliceIsCard(s, lo, hi - 1, p);
      assert s[lo..hi] == s[lo..hi - 1] + [s[hi - 1]];
      CountSnoc(s[lo..hi - 1], s[hi - 1], p);
      if p(s[hi - 1]) {
        assert SlicePositions(s, lo, hi, p) == SlicePositions(s, lo, hi - 1, p) + {hi - 1};
      } else {
        assert SlicePositions(s, lo, hi, p) == SlicePositions(s, lo, hi - 1, p);
      }
    }
  }

  /** The count is positive exactly when some element satisfies `p`. */
  lemma {:induction false} CountPositiveIff<T>(s: seq<T>, p: T -> bool)
    ensures CountWhere(s, p) > 0 <==> exists i :: 0 <= i < |s| && p(s[i])
  {
    if |s| > 0 {
      var t := s[..|s| - 1];
      CountPositiveIff(t, p);
      if CountWhere(t, p) > 0 {
        var i :| 0 <= i < |t| && p(t[i]);
        assert p(s[i]);
      }
      if exists i :: 0 <= i < |s| && p(s[i]) {
        var i :| 0 <= i < |s| && p(s[i]);
        if i < |s| - 1 {
          assert p(t[i]);
        }
      }
    }
  }

  /** A predicate and its complement split a sequence: the two counts add up to its length. */
  lemma {:induction false} CountComplement<T>(s: seq<T>, p: T -> bool, q: T -> bool)
    requires forall i :: 0 <= i < |s| ==> q(s[i]) == !p(s[i])
    ensures CountWhere(s, p) + CountWhere(s, q) == |s|
  {
    if |s| > 0 {
      CountComplement(s[..|s| - 1], p, q);
    }
  }

  /** A weaker predicate never counts fewer elements. */
  lemma {:induction false} CountMonotone<T>(s: seq<T>, p: T -> bool, q: T -> bool)
    requires forall i :: 0 <= i < |s| && p(s[i]) ==> q(s[i])
    ensures CountWhere(s, p) <= CountWhere(s, q)
  {
    if |s| > 0 {
      CountMonotone(s[..|s| - 1], p, q);
    }
  }

  /** Elements of `s` satisfying `p`, in their original order. */
  function Filter<T>(s: seq<T>, p: T -> bool): (r: seq<T>)
    ensures |r| == CountWhere(s, p)
    ensures forall i :: 0 <= i < |r| ==> p(r[i])
    ensures forall i :: 0 <= i < |s| && p(s[i]) ==> s[i] in r
    ensures multiset(r) <= multiset(s)
  {
    if |s| == 0 then []
    else
      var r' := Filter(s[..|s| - 1], p);
      assert s == s[..|s| - 1] + [s[|s| - 1]];
      if p(s[|s| - 1]) then r' + [s[|s| - 1]] else r'
  }

  // ---------------------------------------------------------------------------
  // Searching backwards

  /** An element is kept by `Filter` exactly when it is in `s` and passes `p`. */
  lemma FilterMember<T>(s: seq<T>, p: T -> bool, x: T)
    ensures x in Filter(s, p) <==> x in s && p(x)
  {
    var r := Filter(s, p);
    if x in r {
      assert x in multiset(r);
      var i :| 0 <= i < |r| && r[i] == x;
    }
  }

  /** The greatest index `j < i` with `p(s[j])`, if any. */
  function LastIndexBefore<T>(s: seq<T>, p: T -> bool, i: nat): (r: Option<nat>)
    requires i <= |s|
    ensures r.Some? ==> r.value < i && p(s[r.value])
    ensures r.Some? ==> forall k :: r.value < k < i ==> !p(s[k])
    ensures r.None? ==> forall k :: 0 <= k < i ==> !p(s[k])
    decreases i
  {
    if i == 0 then None
    else if p(s[i - 1]) then Some(i - 1)
    else LastIndexBefore(s, p, i - 1)
  }

  // ---------------------------------------------------------------------------
  // Forward fill with a limit (pandas `ffill(limit=...)`)

  predicate IsPresent<T>(x: Option<T>) { x.Some? }

  /** The value forward fill leaves at position `i`. */
  function FillAt<T>(xs: seq<Option<T>>, i: nat, limit: nat): Option<T>
    requires i < |xs|
  {
    match LastIndexBefore(xs, IsPresent, i + 1)
    case None => None
    case Some(j) => if i - j <= limit then xs[j] else None
  }

  /** Carries each present value forward over at most `limit` missing positions. */
  function FFill<T>(xs: seq<Option<T>>, limit: nat): (r: seq<Option<T>>)
    ensures |r| == |xs|
    ensures forall i :: 0 <= i < |xs| ==> r[i] == FillAt(xs, i, limit)
  {
    seq(|xs|, i requires 0 <= i < |xs| => FillAt(xs, i, limit))
  }

  /** What forward fill does at one position: a present value stays; a missing
      value takes the nearest earlier present value when that one is at most
      `limit` positions back, and stays missing otherwise. */
  lemma FFillSpec<T>(xs: seq<Option<T>>, limit: nat, i: nat)
    requires i < |xs|
    ensures xs[i].Some? ==> FFill(xs, limit)[i] == xs[i]
    ensures xs[i].None? && (forall k :: 0 <= k < i && i - k <= limit ==> xs[k].None?)
            ==> FFill(xs, limit)[i].None?
    ensures xs[i].None? && (exists k :: 0 <= k < i && i - k <= limit && xs[k].Some?)
            ==> FFill(xs, limit)[i].Some?
    ensures xs[i].None? && FFill(xs, limit)[i].Some? ==>
            exists j :: 0 <= j < i && i - j <= limit && FFill(xs, limit)[i] == xs[j] &&
                        forall k :: j < k < i ==> xs[k].None?
  {
    var r := LastIndexBefore(xs, IsPresent, i + 1);
    if r.Some? {
      var j := r.value;
      assert IsPresent(xs[j]);
      forall k | j < k <= i ensures xs[k].None? {
        assert !IsPresent(xs[k]);
      }
      if xs[i].None? && exists k :: 0 <= k < i && i - k <= limit && xs[k].Some? {
        var k :| 0 <= k < i && i - k <= limit && xs[k].Some?;
        assert IsPresent(xs[k]);
        assert k <= j;
      }
    } else {
      assert !IsPresent(xs[i]);
      forall k | 0 <= k < i ensures xs[k].None? {
        assert !IsPresent(xs[k]);
      }
    }
  }

  // ---------------------------------------------------------------------------
  // Sums and order statistics over reals

  function Sum(xs: seq<real>): real
  {
    if |xs| == 0 then 0.0 else Sum(xs[..|xs| - 1]) + xs[|xs| - 1]
  }

  function Mean(xs: seq<real>): real
    requires |xs| > 0
  {
    Sum(xs) / (|xs| as real)
  }

  /** A mean times the count gives back the sum. */
  lemma MeanTimesCount(xs: seq<real>)
    requires |xs| > 0
    ensures Mean(xs) * (|xs| as real) == Sum(xs)
  {
  }

  function MinOf(xs: seq<real>): (m: real)
    requires |xs| > 0
    ensures m in xs
    ensures forall i :: 0 <= i < |xs| ==> m <= xs[i]
  {
    if |xs| == 1 then xs[0]
    else
      var m' := MinOf(xs[..|xs| - 1]);
      if xs[|xs| - 1] < m' then xs[|xs| - 1] else m'
  }

  function MaxOf(xs: seq<real>): (m: real)
    requires |xs| > 0
    ensures m in xs
    ensures forall i :: 0 <= i < |xs| ==> xs[i] <= m
  {
    if |xs| == 1 then xs[0]
    else
      var m' := MaxOf(xs[..|xs| - 1]);
      if xs[|xs| - 1] > m' then xs[|xs| - 1] else m'
  }

  lemma {:induction false} SumBounds(xs: seq<real>, lo: real, hi: real)
    requires forall i :: 0 <= i < |xs| ==> lo <= xs[i] <= hi
    ensures (|xs| as real) * lo <= Sum(xs) <= (|xs| as real) * hi
  {
    if |xs| > 0 {
      var n := |xs| - 1;
      SumBounds(xs[..n], lo, hi);
      assert (n as real + 1.0) * lo == (n as real) * lo + lo;
      assert (n as real + 1.0) * hi == (n as real) * hi + hi;
    }
  }

  /** The arithmetic mean lies between the minimum and the maximum. */
  lemma MeanBetween(xs: seq<real>)
    requires |xs| > 0
    ensures MinOf(xs) <= Mean(xs) <= MaxOf(xs)
  {
    MeanWithin(xs, MinOf(xs), MaxOf(xs));
  }

  /** Bounds that hold for every element hold for the mean. */
  lemma MeanWithin(xs: seq<real>, lo: real, hi: real)
    requires |xs| > 0
    requires forall i :: 0 <= i < |xs| ==> lo <= xs[i] <= hi
    ensures lo <= Mean(xs) <= hi
  {
    SumBounds(xs, lo, hi);
    DivBounds(Sum(xs), |xs| as real, lo, hi);
  }

  lemma DivBounds(s: real, n: real, lo: real, hi: real)
    requires n > 0.0 && n * lo <= s <= n * hi
    ensures lo <= s / n <= hi
  {
    assert s / n * n == s;
  }

  // ---------------------------------------------------------------------------
  // Stable insertion sort by a real-valued key

  ghost predicate SortedBy<T>(s: seq<T>, key: T -> real)
  {
    forall i, j :: 0 <= i < j < |s| ==> key(s[i]) <= key(s[j])
  }

  /** Inserts `x` after every element whose key is not greater than its own. */
  function InsertBy<T>(x: T, s: seq<T>, key: T -> real): (r: seq<T>)
    requires SortedBy(s, key)
    ensures |r| == |s| + 1
    ensures multiset(r) == multiset(s) + multiset{x}
    ensures SortedBy(r, key)
  {
    if |s| == 0 then [x]
    else if key(x) < key(s[0]) then [x] + s
    else
      var t := InsertBy(x, s[1..], key);
      InsertHeadSorted(x, s, t, key);
      assert s == [s[0]] + s[1..];
      [s[0]] + t
  }

  lemma InsertHeadSorted<T>(x: T, s: seq<T>, t: seq<T>, key: T -> real)
    requires |s| > 0 && SortedBy(s, key) && key(s[0]) <= key(x)
    requires multiset(t) == multiset(s[1..]) + multiset{x} && SortedBy(t, key)
    ensures SortedBy([s[0]] + t, key)
  {
    forall j | 0 <= j < |t| ensures key(s[0]) <= key(t[j]) {
      assert t[j] in multiset(t);
      if t[j] != x {
        assert t[j] in multiset(s[1..]);
        var k :| 0 <= k < |s[1..]| && s[1..][k] == t[j];
        assert s[k + 1] == t[j];
      }
    }
  }

  /** `s` ordered by ascending key; elements with equal keys keep their order. */
  function SortBy<T>(s: seq<T>, key: T -> real): (r: seq<T>)
    ensures |r| == |s|
    ensures multiset(r) == multiset(s)
    ensures SortedBy(r, key)
  {
    if |s| == 0 then []
    else
      assert s == s[..|s| - 1] + [s[|s| - 1]];
      InsertBy(s[|s| - 1], SortBy(s[..|s| - 1], key), key)
  }

  /** Median as numpy/pandas compute it: the middle element of the sorted
      values, or the mean of the two middle ones for an even count. */
  function Identity(x: real): real { x }

  function Median(xs: seq<real>): real
    requires |xs| > 0
  {
    Middle(SortBy(xs, Identity))
  }

  /** The middle element of an odd-length sequence, or the mean of the two
      middle ones of an even-length one. */
  function Middle(s: seq<real>): real
    requires |s| > 0
  {
    var n := |s|;
    if n % 2 == 1 then s[n / 2] else (s[n / 2 - 1] + s[n / 2]) / 2.0
  }

  /** The median lies between the minimum and the maximum. */
  lemma MedianBetween(xs: seq<real>)
    requires |xs| > 0
    ensures MinOf(xs) <= Median(xs) <= MaxOf(xs)
  {
    var s := SortBy(xs, Identity);
    var n, lo, hi := |s|, MinOf(xs), MaxOf(xs);
    PermutationBetween(xs, s);
    if n % 2 == 0 {
      var a, b := s[n / 2 - 1], s[n / 2];
      assert lo <= a <= hi && lo <= b <= hi;
      assert Middle(s) == (a + b) / 2.0;
    }
  }

  /** Every element of a rearrangement of `xs` lies between its minimum and maximum. */
  lemma PermutationBetween(xs: seq<real>, s: seq<real>)
    requires |xs| > 0 && multiset(s) == multiset(xs)
    ensures forall k :: 0 <= k < |s| ==> MinOf(xs) <= s[k] <= MaxOf(xs)
  {
    forall k | 0 <= k < |s| ensures MinOf(xs) <= s[k] <= MaxOf(xs) {
      assert s[k] in multiset(s);
      var i :| 0 <= i < |xs| && xs[i] == s[k];
    }
  }

  // ---------------------------------------------------------------------------
  // Frequency tables over integer keys

  /** Occurrences of the key `k`. */
  function CountKey(keys: seq<int>, k: int): nat
  {
    CountWhere(keys, IsKey(k))
  }

  /** The test "equals `k`" as a predicate value. */
  function IsKey(k: int): int -> bool
  {
    x => x == k
  }

  /** Sum of the counts of the `n` consecutive keys `lo .. lo + n - 1`. */
  function SumCounts(keys: seq<int>, lo: int, n: nat): nat
  {
    if n == 0 then 0 else SumCounts(keys, lo, n - 1) + CountKey(keys, lo + n - 1)
  }

  lemma {:induction false} SumCountsSnoc(keys: seq<int>, x: int, lo: int, n: nat)
    ensures SumCounts(keys + [x], lo, n) == SumCounts(keys, lo, n) + (if lo <= x < lo + n then 1 else 0)
  {
    if n > 0 {
      SumCountsSnoc(keys, x, lo, n - 1);
      CountSnoc(keys, x, IsKey(lo + n - 1));
    }
  }

  /** When every key lies in `lo .. lo + n - 1`, the counts of those keys add up to the number of keys. */
  lemma {:induction false} SumCountsTotal(keys: seq<int>, lo: int, n: nat)
    requires forall i :: 0 <= i < |keys| ==> lo <= keys[i] < lo + n
    ensures SumCounts(keys, lo, n) == |keys|
  {
    if |keys| == 0 {
      SumCountsEmpty(lo, n);
    } else {
      var t := keys[..|keys| - 1];
      assert keys == t + [keys[|keys| - 1]];
      SumCountsTotal(t, lo, n);
      SumCountsSnoc(t, keys[|keys| - 1], lo, n);
    }
  }

  lemma {:induction false} SumCountsEmpty(lo: int, n: nat)
    ensures SumCounts([], lo, n) == 0
  {
    if n > 0 {
      SumCountsEmpty(lo, n - 1);
    }
  }

  /** One `(key, count)` entry per key of `lo .. lo + n - 1` that occurs, in ascending key order
      (pandas `value_counts().sort_index()` and `groupby(...).size()`). */
  function FreqTable(keys: seq<int>, lo: int, n: nat): seq<(int, nat)>
  {
    if n == 0 then []
    else
      var c := CountKey(keys, lo + n - 1);
      FreqTable(keys, lo, n - 1) + (if c > 0 then [(lo + n - 1, c)] else [])
  }

  /** The keys of a table ascend strictly. */
  predicate KeysAscend(t: seq<(int, nat)>)
  {
    forall i, j :: 0 <= i < j < |t| ==> t[i].0 < t[j].0
  }

  /** Each entry of the table is a key of the range with its (positive)
      count, and the keys ascend strictly. */
  lemma {:induction false} FreqTableSound(keys: seq<int>, lo: int, n: nat)
    ensures forall e :: e in FreqTable(keys, lo, n) ==> lo <= e.0 < lo + n && e.1 == CountKey(keys, e.0) && e.1 > 0
    ensures KeysAscend(FreqTable(keys, lo, n))
  {
    if n > 0 {
      FreqTableSound(keys, lo, n - 1);
      var t := FreqTable(keys, lo, n - 1);
      var c := CountKey(keys, lo + n - 1);
      if c > 0 {
        var u := t + [(lo + n - 1, c)];
        forall i, j | 0 <= i < j < |u|
          ensures u[i].0 < u[j].0
        {
          assert u[i] == t[i] && t[i] in t;
          if j < |t| {
            assert u[j] == t[j];
          }
        }
      }
    }
  }

  /** Sum of the counts of a table. */
  function TableTotal(t: seq<(int, nat)>): nat
  {
    if |t| == 0 then 0 else TableTotal(t[..|t| - 1]) + t[|t| - 1].1
  }

  lemma TableTotalAppend(a: seq<(int, nat)>, b: seq<(int, nat)>)
    requires |b| <= 1
    ensures TableTotal(a + b) == TableTotal(a) + TableTotal(b)
  {
    if |b| == 1 {
      assert (a + b)[..|a + b| - 1] == a;
    } else {
      assert a + b == a;
    }
  }

  /** The counts in a frequency table add up to the number of keys it covers. */
  lemma {:induction false} FreqTableTotal(keys: seq<int>, lo: int, n: nat)
    ensures TableTotal(FreqTable(keys, lo, n)) == SumCounts(keys, lo, n)
  {
    if n > 0 {
      var c := CountKey(keys, lo + n - 1);
      FreqTableTotal(keys, lo, n - 1);
      TableTotalAppend(FreqTable(keys, lo, n - 1), if c > 0 then [(lo + n - 1, c)] else []);
    }
  }

  /** Every key in range that occurs has its entry in the table. */
  lemma {:induction false} FreqTableComplete(keys: seq<int>, lo: int, n: nat, k: int)
    requires lo <= k < lo + n && CountKey(keys, k) > 0
    ensures (k, CountKey(keys, k)) in FreqTable(keys, lo, n)
  {
    if k < lo + n - 1 {
      FreqTableComplete(keys, lo, n - 1, k);
    }
  }

  /** A key has an entry in the table exactly when it occurs among the keys,
      provided every key lies in the table's range. */
  lemma FreqTableHasKeyIff(keys: seq<int>, lo: int, n: nat, k: int)
    requires forall i :: 0 <= i < |keys| ==> lo <= keys[i] < lo + n
    ensures (exists c :: (k, c) in FreqTable(keys, lo, n)) <==> k in keys
  {
    CountPositiveIff(keys, IsKey(k));
    FreqTableSound(keys, lo, n);
    if k in keys {
      var i :| 0 <= i < |keys| && keys[i] == k;
      assert IsKey(k)(keys[i]);
      FreqTableComplete(keys, lo, n, k);
    }
    if exists c :: (k, c) in FreqTable(keys, lo, n) {
      var c :| (k, c) in FreqTable(keys, lo, n);
      var i :| 0 <= i < |keys| && IsKey(k)(keys[i]);
    }
  }

  /** One entry for each of the keys `lo .. lo + n - 1`, zero counts included
      (pandas `value_counts().reindex(order, fill_value=0)`). */
  function ZeroFilledTable(keys: seq<int>, lo: int, n: nat): (t: seq<(int, nat)>)
    ensures |t| == n
    ensures forall i :: 0 <= i < n ==> t[i] == (lo + i, CountKey(keys, lo + i))
  {
    if n == 0 then [] else ZeroFilledTable(keys, lo, n - 1) + [(lo + n - 1, CountKey(keys, lo + n - 1))]
  }

  lemma {:induction false} ZeroFilledTotal(keys: seq<int>, lo: int, n: nat)
    ensures TableTotal(ZeroFilledTable(keys, lo, n)) == SumCounts(keys, lo, n)
  {
    if n > 0 {
      ZeroFilledTotal(keys, lo, n - 1);
      TableTotalAppend(ZeroFilledTable(keys, lo, n - 1), [(lo + n - 1, CountKey(keys, lo + n - 1))]);
    }
  }

  /** `c / n` as a share, 0 when there is nothing to share. */
  function Fraction(c: nat, n: nat): (f: real)
    requires c <= n
    ensures 0.0 <= f <= 1.0
    ensures n == 0 ==> f == 0.0
  {
    if n == 0 then 0.0 else c as real / n as real
  }

  /** A share is below `k` exactly when the part is below `k` times the whole. */
  lemma FractionBelow(c: nat, n: nat, k: real)
    requires c <= n && n > 0
    ensures Fraction(c, n) < k <==> (c as real) < k * (n as real)
  {
    var f, nr := Fraction(c, n), n as real;
    FractionTimes(c, n);
    if f < k {
      assert (k - f) * nr > 0.0;
    } else {
      assert (f - k) * nr >= 0.0;
    }
  }

  /** A share times its whole gives back the part. */
  lemma FractionTimes(c: nat, n: nat)
    requires c <= n && n > 0
    ensures Fraction(c, n) * (n as real) == c as real
  {
  }

  // ---------------------------------------------------------------------------
  // Missing values (pandas NaN / NaT)

  /** The present values of `xs`, in order (pandas `dropna`). */
  function Present<T>(xs: seq<Option<T>>): (r: seq<T>)
    ensures |r| == CountWhere(xs, IsPresent)
    ensures forall i :: 0 <= i < |xs| && xs[i].Some? ==> xs[i].value in r
    ensures forall y :: y in r ==> Some(y) in xs
  {
    if |xs| == 0 then []
    else
      var r' := Present(xs[..|xs| - 1]);
      assert xs == xs[..|xs| - 1] + [xs[|xs| - 1]];
      match xs[|xs| - 1]
      case None => r'
      case Some(v) => r' + [v]
  }

  /** pandas `Series.mean()`: NaN values are skipped, and a series with no
      value at all has a NaN mean (`None`). */
  function MeanOpt(xs: seq<Option<real>>): (m: Option<real>)
    ensures m.None? <==> forall i :: 0 <= i < |xs| ==> xs[i].None?
    ensures m.Some? ==> |Present(xs)| > 0 && m.value == Mean(Present(xs))
  {
    var p := Present(xs);
    if |p| == 0 then
      assert forall i :: 0 <= i < |xs| ==> xs[i].None?;
      None
    else
      assert Some(p[0]) in xs;
      Some(Mean(p))
  }

  /** pandas `Series.min()` and `Series.max()` skipping NaN. */
  function MinOpt(xs: seq<Option<real>>): (m: Option<real>)
    ensures m.None? <==> forall i :: 0 <= i < |xs| ==> xs[i].None?
    ensures m.Some? ==> Some(m.value) in xs && forall i :: 0 <= i < |xs| && xs[i].Some? ==> m.value <= xs[i].value
  {
    var p := Present(xs);
    if |p| == 0 then None else Some(MinOf(p))
  }

  function MaxOpt(xs: seq<Option<real>>): (m: Option<real>)
    ensures m.None? <==> forall i :: 0 <= i < |xs| ==> xs[i].None?
    ensures m.Some? ==> Some(m.value) in xs && forall i :: 0 <= i < |xs| && xs[i].Some? ==> xs[i].value <= m.value
  {
    var p := Present(xs);
    if |p| == 0 then None else Some(MaxOf(p))
  }

  // ---------------------------------------------------------------------------
  // Integer extremes

  function MinInt(xs: seq<int>): (m: int)
    requires |xs| > 0
    ensures m in xs
    ensures forall i :: 0 <= i < |xs| ==> m <= xs[i]
  {
    if |xs| == 1 then xs[0]
    else
      var m' := MinInt(xs[..|xs| - 1]);
      if xs[|xs| - 1] < m' then xs[|xs| - 1] else m'
  }

  function MaxInt(xs: seq<int>): (m: int)
    requires |xs| > 0
    ensures m in xs
    ensures forall i :: 0 <= i < |xs| ==> xs[i] <= m
  {
    if |xs| == 1 then xs[0]
    else
      var m' := MaxInt(xs[..|xs| - 1]);
      if xs[|xs| - 1] > m' then xs[|xs| - 1] else m'
  }

  // ---------------------------------------------------------------------------
  // Rounding and truncation

  /** Nearest integer, exact halves to the even one (Python's `round`). */
  function RoundHalfEven(y: real): (k: int)
    ensures -0.5 <= k as real - y <= 0.5
    ensures k as real - y == 0.5 || k as real - y == -0.5 ==> k % 2 == 0
  {
    var f := y.Floor;
    var frac := y - f as real;
    if frac < 0.5 then f else if frac > 0.5 then f + 1 else if f % 2 == 0 then f else f + 1
  }

  /** Python's `round(x, 1)` on the exact value (binary floating point is not modelled). */
  function Round1(x: real): (r: real)
    ensures -0.05 <= r - x <= 0.05
    ensures (r * 10.0).Floor as real == r * 10.0
  {
    RoundHalfEven(x * 10.0) as real / 10.0
  }

  /** Python's `round(x, 2)` on the exact value. */
  function Round2(x: real): (r: real)
    ensures -0.005 <= r - x <= 0.005
    ensures (r * 100.0).Floor as real == r * 100.0
  {
    RoundHalfEven(x * 100.0) as real / 100.0
  }

  /** Python's `int(x)` on a float: truncation toward zero. */
  function Trunc(x: real): (k: int)
    ensures 0.0 <= x ==> 0 <= k && k as real <= x < k as real + 1.0
    ensures x < 0.0 ==> k <= 0 && k as real - 1.0 < x <= k as real
  {
    if x >= 0.0 then x.Floor else -((-x).Floor)
  }

  // ---------------------------------------------------------------------------
  // Order independence: what a rearrangement of the rows leaves unchanged

  /** `f` applied to every element, in order. */
  function Project<T, U>(a: seq<T>, f: T -> U): (r: seq<U>)
    ensures |r| == |a| && forall i :: 0 <= i < |a| ==> r[i] == f(a[i])
  {
    seq(|a|, i requires 0 <= i < |a| => f(a[i]))
  }

  lemma MultisetCancel<T>(m: multiset<T>, n: multiset<T>, x: T)
    requires m + multiset{x} == n + multiset{x}
    ensures m == n
  {
    forall v ensures m[v] == n[v] {
      assert (m + multiset{x})[v] == (n + multiset{x})[v];
    }
  }

  /** The last element of `a` occurs in any rearrangement `b` of it; removing
      it there leaves a rearrangement of the rest of `a`. */
  lemma RemoveLast<T>(a: seq<T>, b: seq<T>) returns (j: nat)
    requires |a| > 0 && multiset(a) == multiset(b)
    ensures j < |b| && b[j] == a[|a| - 1]
    ensures b == b[..j] + [b[j]] + b[j + 1..]
    ensures multiset(b[..j] + b[j + 1..]) == multiset(a[..|a| - 1])
  {
    var x := a[|a| - 1];
    assert a == a[..|a| - 1] + [x];
    assert x in multiset(b);
    var k :| 0 <= k < |b| && b[k] == x;
    j := k;
    assert b == b[..j] + [b[j]] + b[j + 1..];
    calc {
      multiset(b);
      multiset(b[..j]) + multiset{x} + multiset(b[j + 1..]);
      multiset(b[..j] + b[j + 1..]) + multiset{x};
    }
    assert multiset(a) == multiset(a[..|a| - 1]) + multiset{x};
    MultisetCancel(multiset(b[..j] + b[j + 1..]), multiset(a[..|a| - 1]), x);
  }

  lemma {:induction false} CountPermutation<T>(a: seq<T>, b: seq<T>, p: T -> bool)
    requires multiset(a) == multiset(b)
    ensures CountWhere(a, p) == CountWhere(b, p)
    decreases |a|
  {
    if |a| == 0 {
      assert |b| == |multiset(b)| == 0;
    } else {
      var j := RemoveLast(a, b);
      var x, b1, b2 := a[|a| - 1], b[..j], b[j + 1..];
      CountPermutation(a[..|a| - 1], b1 + b2, p);
      assert a == a[..|a| - 1] + [x];
      CountSnoc(a[..|a| - 1], x, p);
      CountAppend(b1 + [x], b2, p);
      CountSnoc(b1, x, p);
      CountAppend(b1, b2, p);
    }
  }

  lemma {:induction false} ProjectPermutation<T, U>(a: seq<T>, b: seq<T>, f: T -> U)
    requires multiset(a) == multiset(b)
    ensures multiset(Project(a, f)) == multiset(Project(b, f))
    decreases |a|
  {
    if |a| == 0 {
      assert |b| == |multiset(b)| == 0;
    } else {
      var j := RemoveLast(a, b);
      var x, b1, b2 := a[|a| - 1], b[..j], b[j + 1..];
      ProjectPermutation(a[..|a| - 1], b1 + b2, f);
      var pa, pb1, pb2 := Project(a[..|a| - 1], f), Project(b1, f), Project(b2, f);
      assert Project(a, f) == pa + [f(x)];
      assert Project(b, f) == pb1 + [f(x)] + pb2;
      assert Project(b1 + b2, f) == pb1 + pb2;
      calc {
        multiset(Project(b, f));
        multiset(pb1 + pb2) + multiset{f(x)};
        multiset(pa) + multiset{f(x)};
        multiset(Project(a, f));
      }
    }
  }

  /** How often `Filter` keeps `v`: as often as `v` occurs, if it passes `p`. */
  lemma {:induction false} FilterMultiplicity<T>(a: seq<T>, p: T -> bool, v: T)
    ensures multiset(Filter(a, p))[v] == if p(v) then multiset(a)[v] else 0
  {
    if |a| > 0 {
      FilterMultiplicity(a[..|a| - 1], p, v);
      assert a == a[..|a| - 1] + [a[|a| - 1]];
    }
  }

  lemma FilterPermutation<T>(a: seq<T>, b: seq<T>, p: T -> bool)
    requires multiset(a) == multiset(b)
    ensures multiset(Filter(a, p)) == multiset(Filter(b, p))
  {
    forall v ensures multiset(Filter(a, p))[v] == multiset(Filter(b, p))[v] {
      FilterMultiplicity(a, p, v);
      FilterMultiplicity(b, p, v);
    }
  }

  /** How often `Present` yields `v`: as often as `Some(v)` occurs. */
  lemma {:induction false} PresentMultiplicity<T>(a: seq<Option<T>>, v: T)
    ensures multiset(Present(a))[v] == multiset(a)[Some(v)]
  {
    if |a| > 0 {
      PresentMultiplicity(a[..|a| - 1], v);
      assert a == a[..|a| - 1] + [a[|a| - 1]];
    }
  }

  lemma PresentPermutation(a: seq<Option<real>>, b: seq<Option<real>>)
    requires multiset(a) == multiset(b)
    ensures multiset(Present(a)) == multiset(Present(b))
  {
    var pa, pb := multiset(Present(a)), multiset(Present(b));
    forall v ensures pa[v] == pb[v] {
      PresentMultiplicity(a, v);
      PresentMultiplicity(b, v);
    }
  }

  lemma {:induction false} SumAppend(a: seq<real>, b: seq<real>)
    ensures Sum(a + b) == Sum(a) + Sum(b)
    decreases |b|
  {
    if |b| == 0 {
      assert a + b == a;
    } else {
      var b' := b[..|b| - 1];
      assert a + b == (a + b') + [b[|b| - 1]];
      SumAppend(a, b');
    }
  }

  lemma {:induction false} SumPermutation(a: seq<real>, b: seq<real>)
    requires multiset(a) == multiset(b)
    ensures Sum(a) == Sum(b)
    decreases |a|
  {
    if |a| == 0 {
      assert |b| == |multiset(b)| == 0;
    } else {
      var j := RemoveLast(a, b);
      var x, b1, b2 := a[|a| - 1], b[..j], b[j + 1..];
      SumPermutation(a[..|a| - 1], b1 + b2);
      assert a == a[..|a| - 1] + [x];
      SumAppend(b1 + [x], b2);
      SumAppend(b1, [x]);
      SumAppend(b1, b2);
    }
  }

  lemma MinOfPermutation(a: seq<real>, b: seq<real>)
    requires |a| > 0 && multiset(a) == multiset(b)
    ensures |b| > 0 && MinOf(a) == MinOf(b) && MaxOf(a) == MaxOf(b)
  {
    assert a[0] in multiset(b);
    assert MinOf(a) in multiset(b) && MinOf(b) in multiset(a);
    assert MaxOf(a) in multiset(b) && MaxOf(b) in multiset(a);
  }

  lemma MinIntPermutation(a: seq<int>, b: seq<int>)
    requires |a| > 0 && multiset(a) == multiset(b)
    ensures |b| > 0 && MinInt(a) == MinInt(b) && MaxInt(a) == MaxInt(b)
  {
    assert a[0] in multiset(b);
    assert MinInt(a) in multiset(b) && MinInt(b) in multiset(a);
    assert MaxInt(a) in multiset(b) && MaxInt(b) in multiset(a);
  }

  /** No element occurs twice. */
  predicate Distinct<T(==)>(s: seq<T>)
  {
    forall i, j :: 0 <= i < j < |s| ==> s[i] != s[j]
  }

  /** In a sequence without repeats every value occurs at most once. */
  lemma {:induction false} DistinctMultiplicity<T>(s: seq<T>, x: T)
    requires Distinct(s)
    ensures multiset(s)[x] <= 1
  {
    if |s| > 0 {
      var r := s[1..];
      assert Distinct(r) by {
        forall i, j | 0 <= i < j < |r| ensures r[i] != r[j] {
          assert r[i] == s[i + 1] && r[j] == s[j + 1];
        }
      }
      DistinctMultiplicity(r, x);
      assert s == [s[0]] + r;
      if x == s[0] {
        assert x !in r by {
          forall k | 0 <= k < |r| ensures r[k] != x {
            assert r[k] == s[k + 1];
          }
        }
      }
    }
  }

  /** A sub-bag of a sequence without repeats has no repeats either. */
  lemma DistinctSubBag<T>(a: seq<T>, b: seq<T>)
    requires multiset(a) <= multiset(b) && Distinct(b)
    ensures Distinct(a)
  {
    forall i, j | 0 <= i < j < |a| ensures a[i] != a[j] {
      if a[i] == a[j] {
        var x := a[i];
        assert a == a[..j] + [a[j]] + a[j + 1..];
        assert x in a[..j] by { assert a[..j][i] == x; }
        assert multiset(a)[x] >= 2;
        DistinctMultiplicity(b, x);
        assert false;
      }
    }
  }

  /** Two ascending arrangements of the same values are the same sequence. */
  lemma {:induction false} SortedUnique(s: seq<real>, t: seq<real>)
    requires SortedBy(s, Identity) && SortedBy(t, Identity) && multiset(s) == multiset(t)
    ensures s == t
    decreases |s|
  {
    if |s| == 0 {
      assert |t| == |multiset(t)| == 0;
    } else {
      assert |t| == |multiset(t)| > 0;
      assert s[0] in multiset(t) && t[0] in multiset(s);
      var i :| 0 <= i < |t| && t[i] == s[0];
      var k :| 0 <= k < |s| && s[k] == t[0];
      assert Identity(t[0]) <= Identity(t[i]) && Identity(s[0]) <= Identity(s[k]);
      assert s[0] == t[0];
      assert s == [s[0]] + s[1..] && t == [t[0]] + t[1..];
      assert multiset(s) == multiset(s[1..]) + multiset{s[0]};
      assert multiset(t) == multiset(t[1..]) + multiset{s[0]};
      MultisetCancel(multiset(s[1..]), multiset(t[1..]), s[0]);
      SortedUnique(s[1..], t[1..]);
    }
  }

  lemma MeanOptPermutation(a: seq<Option<real>>, b: seq<Option<real>>)
    requires multiset(a) == multiset(b)
    ensures MeanOpt(a) == MeanOpt(b) && MinOpt(a) == MinOpt(b) && MaxOpt(a) == MaxOpt(b)
  {
    var pa, pb := Present(a), Present(b);
    PresentPermutation(a, b);
    assert |pa| == |multiset(pa)| == |multiset(pb)| == |pb|;
    if |pa| > 0 {
      SumPermutation(pa, pb);
      MinOfPermutation(pa, pb);
    }
  }

  lemma MedianPermutation(a: seq<real>, b: seq<real>)
    requires |a| > 0 && multiset(a) == multiset(b)
    ensures |b| > 0 && Median(a) == Median(b)
  {
    assert |b| == |multiset(b)| == |multiset(a)| == |a|;
    var sa, sb := SortBy(a, Identity), SortBy(b, Identity);
    assert multiset(sa) == multiset(sb);
    SortedUnique(sa, sb);
  }

  /** `CountKey` is the multiplicity of the key. */
  lemma {:induction false} CountKeyMultiplicity(keys: seq<int>, k: int)
    ensures CountKey(keys, k) == multiset(keys)[k]
  {
    if |keys| > 0 {
      CountKeyMultiplicity(keys[..|keys| - 1], k);
      assert keys == keys[..|keys| - 1] + [keys[|keys| - 1]];
    }
  }

  lemma {:induction false} FreqTablePermutation(a: seq<int>, b: seq<int>, lo: int, n: nat)
    requires multiset(a) == multiset(b)
    ensures FreqTable(a, lo, n) == FreqTable(b, lo, n)
    ensures ZeroFilledTable(a, lo, n) == ZeroFilledTable(b, lo, n)
  {
    if n > 0 {
      FreqTablePermutation(a, b, lo, n - 1);
      CountKeyMultiplicity(a, lo + n - 1);
      CountKeyMultiplicity(b, lo + n - 1);
    }
  }
}
