/** The nearest-rank percentile as an order statistic. */
module Percentiles {
  predicate Sorted(s: seq<real>) {
    forall i, j :: 0 <= i < j < |s| ==> s[i] <= s[j]
  }

  function Insert(x: real, s: seq<real>): (r: seq<real>)
    ensures multiset(r) == multiset(s) + multiset{x}
    ensures |r| == |s| + 1
  {
    if s == [] then [x]
    else if x <= s[0] then [x] + s
    else
      assert s == [s[0]] + s[1..];
      [s[0]] + Insert(x, s[1..])
  }

  /** What qsort leaves behind; by SortedUnique it is the only possible outcome. */
  function Sort(s: seq<real>): (r: seq<real>)
    ensures multiset(r) == multiset(s)
    ensures |r| == |s|
  {
    if s == [] then []
    else
      assert s == [s[0]] + s[1..];
      Insert(s[0], Sort(s[1..]))
  }

  lemma {:induction false} InsertSorted(x: real, s: seq<real>)
    requires Sorted(s)
    ensures Sorted(Insert(x, s))
  {
    if s != [] && s[0] < x {
      InsertSorted(x, s[1..]);
      var rest := Insert(x, s[1..]);
      forall j | 0 <= j < |rest| ensures s[0] <= rest[j] {
        assert rest[j] in multiset(rest);
        assert rest[j] == x || rest[j] in multiset(s[1..]);
      }
    }
  }

  lemma {:induction false} SortSorted(s: seq<real>)
    ensures Sorted(Sort(s))
  {
    if s != [] {
      SortSorted(s[1..]);
      InsertSorted(s[0], Sort(s[1..]));
    }
  }

  lemma {:induction false} HeadAtMost(s: seq<real>, t: seq<real>)
    requires s != [] && t != [] && Sorted(s) && multiset(s) == multiset(t)
    ensures s[0] <= t[0]
  {
    assert t[0] in multiset(s);
    var i :| 0 <= i < |s| && s[i] == t[0];
  }

  lemma {:induction false} TailMultiset(s: seq<real>)
    requires s != []
    ensures multiset(s[1..]) == multiset(s) - multiset{s[0]}
  {
    assert s == [s[0]] + s[1..];
  }

  /** A rearrangement of the samples into ascending order is unique. */
  lemma {:induction false} SortedUnique(s: seq<real>, t: seq<real>)
    requires Sorted(s) && Sorted(t) && multiset(s) == multiset(t)
    ensures s == t
  {
    assert |multiset(s)| == |s| && |multiset(t)| == |t|;
    if s != [] {
      HeadAtMost(s, t);
      HeadAtMost(t, s);
      TailMultiset(s);
      TailMultiset(t);
      SortedUnique(s[1..], t[1..]);
      assert s == [s[0]] + s[1..] && t == [t[0]] + t[1..];
    }
  }

  function Ceil(x: real): int {
    if x.Floor as real == x then x.Floor else x.Floor + 1
  }

  /** The rank of percentile p among n samples. */
  function Rank(n: nat, percent: real): int {
    Ceil(percent / 100.0 * n as real)
  }

  /** Strictly between 0 and 100 the rank is between 1 and n: neither index clamp ever fires. */
  lemma {:induction false} RankInRange(n: nat, percent: real)
    requires 0 < n && 0.0 < percent < 100.0
    ensures 1 <= Rank(n, percent) <= n
  {
    var x := percent / 100.0 * n as real;
    assert 0.0 < percent / 100.0 < 1.0;
    ScaleBetween(percent / 100.0, n as real);
    assert 0.0 < x < n as real;
  }

  lemma {:induction false} ScaleBetween(x: real, n: real)
    requires 0.0 < x < 1.0 && 0.0 < n
    ensures 0.0 < x * n < n
  {
  }

  lemma {:induction false} RankMonotone(n: nat, p: real, q: real)
    requires p <= q
    ensures Rank(n, p) <= Rank(n, q)
  {
    ScaleMonotone(p / 100.0, q / 100.0, n as real);
    CeilMonotone(p / 100.0 * n as real, q / 100.0 * n as real);
  }

  lemma {:induction false} ScaleMonotone(x: real, y: real, n: real)
    requires x <= y && 0.0 <= n
    ensures x * n <= y * n
  {
  }

  lemma {:induction false} CeilMonotone(x: real, y: real)
    requires x <= y
    ensures Ceil(x) <= Ceil(y)
  {
  }

  /** The index the statistics read from the sorted copy. */
  function Index(n: nat, percent: real): (i: nat)
    requires 0 < n
    ensures i < n
  {
    if percent <= 0.0 then 0
    else if percent >= 100.0 then n - 1
    else RankInRange(n, percent); Rank(n, percent) - 1
  }

  /** The percentile of a non-empty set of samples, whatever order they came in. */
  function Percentile(s: seq<real>, percent: real): real
    requires s != []
  {
    Sort(s)[Index(|s|, percent)]
  }

  // ---- Counting samples below a value ----

  function CountBelow(s: seq<real>, v: real, inclusive: bool): nat {
    if s == [] then 0
    else CountBelow(s[1..], v, inclusive) + (if s[0] < v || (inclusive && s[0] == v) then 1 else 0)
  }

  lemma {:induction false} CountConcat(s: seq<real>, t: seq<real>, v: real, inclusive: bool)
    ensures CountBelow(s + t, v, inclusive) == CountBelow(s, v, inclusive) + CountBelow(t, v, inclusive)
  {
    if s == [] {
      assert s + t == t;
    } else {
      assert (s + t)[1..] == s[1..] + t;
      CountConcat(s[1..], t, v, inclusive);
    }
  }

  lemma {:induction false} CountInsert(x: real, s: seq<real>, v: real, inclusive: bool)
    ensures CountBelow(Insert(x, s), v, inclusive) == CountBelow([x] + s, v, inclusive)
  {
    assert ([x] + s)[1..] == s;
    if s != [] && s[0] < x {
      CountInsert(x, s[1..], v, inclusive);
      assert ([x] + s[1..])[1..] == s[1..];
      assert Insert(x, s)[1..] == Insert(x, s[1..]);
    }
  }

  lemma {:induction false} CountSorted(s: seq<real>, v: real, inclusive: bool)
    ensures CountBelow(Sort(s), v, inclusive) == CountBelow(s, v, inclusive)
  {
    if s != [] {
      CountSorted(s[1..], v, inclusive);
      CountInsert(s[0], Sort(s[1..]), v, inclusive);
      assert ([s[0]] + Sort(s[1..]))[1..] == Sort(s[1..]);
    }
  }

  lemma {:induction false} CountAll(s: seq<real>, v: real)
    requires forall i :: 0 <= i < |s| ==> s[i] <= v
    ensures CountBelow(s, v, true) == |s|
  {
    if s != [] {
      CountAll(s[1..], v);
    }
  }

  lemma {:induction false} CountNone(s: seq<real>, v: real)
    requires forall i :: 0 <= i < |s| ==> v <= s[i]
    ensures CountBelow(s, v, false) == 0
  {
    if s != [] {
      CountNone(s[1..], v);
    }
  }

  lemma {:induction false} CountAtMost(s: seq<real>, v: real, inclusive: bool)
    ensures CountBelow(s, v, inclusive) <= |s|
  {
    if s != [] {
      CountAtMost(s[1..], v, inclusive);
    }
  }

  /** At index i of a sorted sequence, more than i elements are at most the value. */
  lemma {:induction false} SortedAtMost(t: seq<real>, i: nat)
    requires Sorted(t) && i < |t|
    ensures i < CountBelow(t, t[i], true)
  {
    var low, high := t[..i + 1], t[i + 1..];
    assert t == low + high;
    CountConcat(low, high, t[i], true);
    CountAll(low, t[i]);
  }

  /** And at most i are below it. */
  lemma {:induction false} SortedBelow(t: seq<real>, i: nat)
    requires Sorted(t) && i < |t|
    ensures CountBelow(t, t[i], false) <= i
  {
    var low, high := t[..i], t[i..];
    assert t == low + high;
    CountConcat(low, high, t[i], false);
    CountNone(high, t[i]);
    CountAtMost(low, t[i], false);
  }

  lemma {:induction false} CeilIs(x: real, k: int)
    requires (k - 1) as real < x <= k as real
    ensures Ceil(x) == k
  {
  }

  /** Rounding up: the k-th sample in ascending order is read, k being the least integer that is at least p n / 100. */
  lemma {:induction false} IndexIs(n: nat, percent: real, x: real, k: int)
    requires 0 < n && 0.0 < percent < 100.0
    requires x == percent / 100.0 * n as real && (k - 1) as real < x <= k as real
    ensures 1 <= k <= n && Index(n, percent) == k - 1
  {
    CeilIs(x, k);
    RankInRange(n, percent);
  }

  /** The sample at index i in ascending order, by counting. */
  lemma {:induction false} OrderStatistic(s: seq<real>, i: nat, v: real)
    requires i < |s| && v == Sort(s)[i]
    ensures CountBelow(s, v, true) > i >= CountBelow(s, v, false)
  {
    SortSorted(s);
    SortedAtMost(Sort(s), i);
    SortedBelow(Sort(s), i);
    CountSorted(s, v, true);
    CountSorted(s, v, false);
  }

  /**
   Nearest rank: with k the least integer that is at least x = p n / 100, at least k samples are at most
   the percentile and fewer than k are below it; and the percentile is one of the samples.
   */
  lemma {:induction false} NearestRank(s: seq<real>, percent: real, x: real, k: int)
    requires s != [] && 0.0 < percent < 100.0
    requires x == percent / 100.0 * |s| as real && (k - 1) as real < x <= k as real
    ensures Percentile(s, percent) in s
    ensures CountBelow(s, Percentile(s, percent), true) >= k > CountBelow(s, Percentile(s, percent), false)
  {
    IndexIs(|s|, percent, x, k);
    OrderStatistic(s, k - 1, Percentile(s, percent));
    PercentileIsSample(s, percent);
  }

  lemma {:induction false} PercentileIsSample(s: seq<real>, percent: real)
    requires s != []
    ensures Percentile(s, percent) in s
  {
    assert Percentile(s, percent) in multiset(Sort(s));
  }

  /** At 0 and below it is the least sample, at 100 and above the greatest. */
  lemma {:induction false} PercentileEnds(s: seq<real>, percent: real, i: nat)
    requires i < |s|
    ensures percent <= 0.0 ==> Percentile(s, percent) <= s[i]
    ensures percent >= 100.0 ==> s[i] <= Percentile(s, percent)
  {
    SortSorted(s);
    assert s[i] in multiset(Sort(s));
    var j :| 0 <= j < |s| && Sort(s)[j] == s[i];
  }

  /** These two counts pin the percentile down. */
  lemma {:induction false} NearestRankUnique(s: seq<real>, k: int, v: real, w: real)
    requires CountBelow(s, v, true) >= k && CountBelow(s, v, false) < k && v in s
    requires CountBelow(s, w, true) >= k && CountBelow(s, w, false) < k && w in s
    ensures v == w
  {
    if v < w {
      CountMonotone(s, v, w);
    } else if w < v {
      CountMonotone(s, w, v);
    }
  }

  lemma {:induction false} CountMonotone(s: seq<real>, v: real, w: real)
    requires v < w
    ensures CountBelow(s, v, true) <= CountBelow(s, w, false)
  {
    if s != [] {
      CountMonotone(s[1..], v, w);
    }
  }

  /** Percentiles grow with p. */
  lemma {:induction false} PercentileMonotone(s: seq<real>, p: real, q: real)
    requires s != [] && p <= q
    ensures Percentile(s, p) <= Percentile(s, q)
  {
    SortSorted(s);
    if 0.0 < p && q < 100.0 {
      RankMonotone(|s|, p, q);
    }
  }

  /** Percentiles do not depend on the order of arrival. */
  lemma {:induction false} PercentileOrderFree(s: seq<real>, t: seq<real>, percent: real)
    requires s != [] && multiset(s) == multiset(t)
    ensures t != [] && Percentile(s, percent) == Percentile(t, percent)
  {
    assert |multiset(s)| == |multiset(t)|;
    SortSorted(s);
    SortSorted(t);
    SortedUnique(Sort(s), Sort(t));
  }
}
