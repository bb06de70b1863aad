/** Sums over samples, in any order: means, variances and extremes of pooled data. */
module Moments {
  import opened Reals

  function Identity(x: real): real { x }

  function Square(x: real): real { Times(x, x) }

  function SumBy(f: real -> real, s: seq<real>): real {
    if s == [] then 0.0 else SumBy(f, s[..|s| - 1]) + f(s[|s| - 1])
  }

  function Sum(s: seq<real>): real { SumBy(Identity, s) }

  function SumSq(s: seq<real>): real { SumBy(Square, s) }

  lemma {:induction false} SumAppend(f: real -> real, s: seq<real>, x: real)
    ensures SumBy(f, s + [x]) == SumBy(f, s) + f(x)
  {
    assert (s + [x])[..|s|] == s;
  }

  lemma {:induction false} SumConcat(f: real -> real, s: seq<real>, t: seq<real>)
    ensures SumBy(f, s + t) == SumBy(f, s) + SumBy(f, t)
  {
    if t == [] {
      assert s + t == s;
    } else {
      SumConcat(f, s, t[..|t| - 1]);
      assert (s + t)[..|s + t| - 1] == s + t[..|t| - 1];
    }
  }

  lemma {:induction false} SumRemove(f: real -> real, s: seq<real>, i: nat)
    requires i < |s|
    ensures SumBy(f, s) == SumBy(f, s[..i] + s[i + 1..]) + f(s[i])
  {
    var a, b := s[..i], s[i + 1..];
    assert s == (a + [s[i]]) + b;
    SumConcat(f, a + [s[i]], b);
    SumAppend(f, a, s[i]);
    SumConcat(f, a, b);
  }

  lemma {:induction false} RemoveAt(t: seq<real>, i: nat)
    requires i < |t|
    ensures multiset(t[..i] + t[i + 1..]) == multiset(t) - multiset{t[i]}
  {
    var a, b := t[..i], t[i + 1..];
    assert t == a + [t[i]] + b;
    assert multiset(t) == multiset(a) + multiset{t[i]} + multiset(b);
  }

  /** Where the last element of s sits in a rearrangement of s. */
  lemma {:induction false} Locate(s: seq<real>, t: seq<real>) returns (i: nat)
    requires s != [] && multiset(s) == multiset(t)
    ensures i < |t| && t[i] == s[|s| - 1]
    ensures multiset(t[..i] + t[i + 1..]) == multiset(s[..|s| - 1])
  {
    assert s[|s| - 1] in multiset(t);
    i :| i < |t| && t[i] == s[|s| - 1];
    RemoveAt(t, i);
    RemoveAt(s, |s| - 1);
    assert s[..|s| - 1] + s[|s|..] == s[..|s| - 1];
  }

  /** The order of arrival does not matter to a sum. */
  lemma {:induction false} SumPermutation(f: real -> real, s: seq<real>, t: seq<real>)
    requires multiset(s) == multiset(t)
    ensures SumBy(f, s) == SumBy(f, t)
  {
    if s == [] {
      assert |multiset(t)| == 0;
    } else {
      var i := Locate(s, t);
      SumPermutation(f, s[..|s| - 1], t[..i] + t[i + 1..]);
      SumRemove(f, t, i);
    }
  }

  // ---- Variance ----

  function Mean(s: seq<real>): real
    requires s != []
  {
    Sum(s) / |s| as real
  }

  lemma {:induction false} MeanMeaning(s: seq<real>)
    requires s != []
    ensures Mean(s) * |s| as real == Sum(s)
  {
  }

  /** The one-pass formula of the statistics: mean of squares minus square of mean. */
  function OnePassVariance(n: nat, total: real, totalSq: real): real
    requires 0 < n
  {
    totalSq / n as real - (total / n as real) * (total / n as real)
  }

  function Deviation(m: real): real -> real { x => Square(x - m) }

  function SquaredDeviations(s: seq<real>, m: real): real { SumBy(Deviation(m), s) }

  lemma {:induction false} DeviationsExpand(s: seq<real>, m: real)
    ensures SquaredDeviations(s, m) == SumSq(s) - 2.0 * m * Sum(s) + |s| as real * (m * m)
  {
    if s != [] {
      var init, x := s[..|s| - 1], s[|s| - 1];
      DeviationsExpand(init, m);
      assert Square(x - m) == x * x - 2.0 * m * x + m * m;
      assert 2.0 * m * (Sum(init) + x) == 2.0 * m * Sum(init) + 2.0 * m * x;
      assert |s| as real * (m * m) == |init| as real * (m * m) + m * m;
    }
  }

  lemma {:induction false} SquareSign(d: real)
    ensures 0.0 <= Square(d) && (Square(d) == 0.0 <==> d == 0.0)
  {
    if 0.0 < d {
      TimesPositive(d, d);
    } else if d < 0.0 {
      TimesPositive(-d, -d);
      TimesNegated(d, d);
    }
  }

  lemma {:induction false} DeviationsSign(s: seq<real>, m: real)
    ensures 0.0 <= SquaredDeviations(s, m)
    ensures SquaredDeviations(s, m) == 0.0 <==> forall i :: 0 <= i < |s| ==> s[i] == m
  {
    if s != [] {
      var init, d := s[..|s| - 1], s[|s| - 1] - m;
      DeviationsSign(init, m);
      SquareSign(d);
      assert s == init + [s[|s| - 1]];
    }
  }

  /** The one-pass variance is the mean squared deviation from the mean. */
  lemma {:induction false} VarianceIsMeanSquare(s: seq<real>)
    requires s != []
    ensures OnePassVariance(|s|, Sum(s), SumSq(s)) == SquaredDeviations(s, Mean(s)) / |s| as real
  {
    DeviationsExpand(s, Mean(s));
    OnePassForm(|s|, Sum(s), SumSq(s), Mean(s), SquaredDeviations(s, Mean(s)));
  }

  lemma {:induction false} OnePassForm(n: nat, sum: real, sumSq: real, m: real, deviations: real)
    requires 0 < n && m == sum / n as real
    requires deviations == sumSq - 2.0 * m * sum + n as real * (m * m)
    ensures OnePassVariance(n, sum, sumSq) == deviations / n as real
  {
    CancelMean(sumSq, sum, n as real, m);
    DivideDifference(sumSq, m * m, n as real);
  }

  lemma {:induction false} CancelMean(sumSq: real, sum: real, n: real, m: real)
    requires n != 0.0 && m == sum / n
    ensures sumSq - 2.0 * m * sum + n * (m * m) == sumSq - n * (m * m)
  {
    assert sum == n * m;
    assert 2.0 * m * (n * m) == 2.0 * (n * (m * m));
  }

  lemma {:induction false} DivideDifference(a: real, b: real, n: real)
    requires n != 0.0
    ensures (a - n * b) / n == a / n - b
  {
    assert (a / n - b) * n == a - n * b;
  }

  /** Over the reals the clamp at zero is idle, and zero variance means that all samples agree. */
  lemma {:induction false} VarianceSign(s: seq<real>)
    requires s != []
    ensures 0.0 <= OnePassVariance(|s|, Sum(s), SumSq(s))
    ensures OnePassVariance(|s|, Sum(s), SumSq(s)) == 0.0
       <==> forall i, j :: 0 <= i < |s| && 0 <= j < |s| ==> s[i] == s[j]
  {
    var m := Mean(s);
    VarianceIsMeanSquare(s);
    DeviationsSign(s, m);
    QuotientSign(SquaredDeviations(s, m), |s| as real);
    if forall i, j :: 0 <= i < |s| && 0 <= j < |s| ==> s[i] == s[j] {
      ConstantMean(s, s[0]);
    }
  }

  lemma {:induction false} QuotientSign(a: real, n: real)
    requires 0.0 <= a && 0.0 < n
    ensures 0.0 <= a / n && (a / n == 0.0 <==> a == 0.0)
  {
    assert a == (a / n) * n;
  }

  lemma {:induction false} ConstantSum(s: seq<real>, x: real)
    requires forall i :: 0 <= i < |s| ==> s[i] == x
    ensures Sum(s) == |s| as real * x
  {
    if s != [] {
      ConstantSum(s[..|s| - 1], x);
      assert |s| as real * x == (|s| - 1) as real * x + x;
    }
  }

  lemma {:induction false} ConstantMean(s: seq<real>, x: real)
    requires s != [] && forall i :: 0 <= i < |s| ==> s[i] == x
    ensures Mean(s) == x
  {
    ConstantSum(s, x);
  }

  // ---- Extremes, with the initial values the statistics use ----

  function Least(s: seq<real>): real {
    if s == [] then DBL_MAX
    else if s[|s| - 1] < Least(s[..|s| - 1]) then s[|s| - 1] else Least(s[..|s| - 1])
  }

  function Greatest(s: seq<real>): real {
    if s == [] then 0.0
    else if s[|s| - 1] > Greatest(s[..|s| - 1]) then s[|s| - 1] else Greatest(s[..|s| - 1])
  }

  lemma {:induction false} LeastBounds(s: seq<real>)
    ensures forall i :: 0 <= i < |s| ==> Least(s) <= s[i]
    ensures Least(s) <= DBL_MAX && (Least(s) == DBL_MAX || Least(s) in s)
  {
    if s != [] {
      LeastBounds(s[..|s| - 1]);
      assert s == s[..|s| - 1] + [s[|s| - 1]];
    }
  }

  lemma {:induction false} GreatestBounds(s: seq<real>)
    ensures forall i :: 0 <= i < |s| ==> s[i] <= Greatest(s)
    ensures 0.0 <= Greatest(s) && (Greatest(s) == 0.0 || Greatest(s) in s)
  {
    if s != [] {
      GreatestBounds(s[..|s| - 1]);
      assert s == s[..|s| - 1] + [s[|s| - 1]];
    }
  }

  /** The extremes of pooled data are the extremes of the parts' extremes, whatever the interleaving. */
  lemma {:induction false} LeastPooled(s: seq<real>, t: seq<real>, pooled: seq<real>)
    requires multiset(pooled) == multiset(s) + multiset(t)
    ensures Least(pooled) == if Least(t) < Least(s) then Least(t) else Least(s)
  {
    LeastBounds(s);
    LeastBounds(t);
    LeastBounds(pooled);
    SameMembers(s, t, pooled);
  }

  lemma {:induction false} GreatestPooled(s: seq<real>, t: seq<real>, pooled: seq<real>)
    requires multiset(pooled) == multiset(s) + multiset(t)
    ensures Greatest(pooled) == if Greatest(t) > Greatest(s) then Greatest(t) else Greatest(s)
  {
    GreatestBounds(s);
    GreatestBounds(t);
    GreatestBounds(pooled);
    SameMembers(s, t, pooled);
  }

  lemma {:induction false} SameMembers(s: seq<real>, t: seq<real>, pooled: seq<real>)
    requires multiset(pooled) == multiset(s) + multiset(t)
    ensures forall x :: x in pooled <==> x in s || x in t
  {
    forall x ensures x in pooled <==> x in s || x in t {
      assert x in pooled <==> x in multiset(pooled);
      assert x in s <==> x in multiset(s);
      assert x in t <==> x in multiset(t);
    }
  }

  lemma {:induction false} SumPooled(f: real -> real, s: seq<real>, t: seq<real>, pooled: seq<real>)
    requires multiset(pooled) == multiset(s) + multiset(t)
    ensures SumBy(f, pooled) == SumBy(f, s) + SumBy(f, t) && |pooled| == |s| + |t|
  {
    assert multiset(s + t) == multiset(s) + multiset(t);
    SumPermutation(f, pooled, s + t);
    SumConcat(f, s, t);
    assert |multiset(pooled)| == |s| + |t|;
  }
}
