/** The roll-up over all targets: src/main.c, PrintCombinedHuman. */
module Combined {
  import opened Reals
  import opened Connectivity
  import opened Diagnostics
  import opened Moments
  import opened Verdicts
  import opened ProbeLoop

  datatype Rollup = Rollup(attempts: nat, connects: nat, failures: nat, loss: real,
                           min: real, avg: real, max: real, variance: real, verdict: Verdict)

  /** The histories of the resolved targets, in list order. */
  function Resolved(items: seq<Item>, hs: seq<seq<Observation>>): (r: seq<seq<Observation>>)
    requires |items| == |hs|
  {
    if items == [] then []
    else
      var n := |items| - 1;
      if items[n].resolveOk then Resolved(items[..n], hs[..n]) + [hs[n]] else Resolved(items[..n], hs[..n])
  }

  /** All successful round-trip times, target after target. */
  function Pooled(hs: seq<seq<Observation>>): seq<real> {
    if hs == [] then [] else Pooled(hs[..|hs| - 1]) + Rtts(hs[|hs| - 1])
  }

  /** The histories at the positions that are resolved, in ascending order. */
  lemma {:induction false} ResolvedMeaning(items: seq<Item>, hs: seq<seq<Observation>>) returns (rt: seq<nat>)
    requires |items| == |hs|
    ensures Ascending(rt) && Within(rt, |items|) && forall i :: 0 <= i < |items| ==> (items[i].resolveOk <==> i in rt)
    ensures |Resolved(items, hs)| == |rt| && forall k :: 0 <= k < |rt| ==> Resolved(items, hs)[k] == hs[rt[k]]
  {
    rt := [];
    if items != [] {
      var n := |items| - 1;
      rt := ResolvedMeaning(items[..n], hs[..n]);
      assert forall i :: 0 <= i < n ==> items[..n][i] == items[i] && hs[..n][i] == hs[i];
      if items[n].resolveOk {
        rt := rt + [n];
      }
    }
  }

  lemma {:induction false} PooledConcat(a: seq<seq<Observation>>, b: seq<seq<Observation>>, h: seq<Observation>)
    ensures Pooled([h]) == Rtts(h) && Pooled(a + b) == Pooled(a) + Pooled(b)
    decreases |b|
  {
    assert [h][..0] == [];
    if b == [] {
      assert a + b == a;
    } else {
      PooledConcat(a, b[..|b| - 1], h);
      assert (a + b)[..|a + b| - 1] == a + b[..|b| - 1];
    }
  }

  /** The running totals of the loop. */
  datatype Totals = Totals(att: nat, con: nat, fail: nat, total: real, totalSq: real,
                           mn: real, mx: real, have: bool, outages: nat, anyDown: bool)

  /** One resolved target. */
  function Include(t: Totals, s: Tally, link: Link): Totals {
    Totals(t.att + s.attempts, t.con + s.connects, t.fail + s.failures, t.total + s.total, t.totalSq + s.totalSq,
           if s.connects > 0 && (!t.have || s.minimum < t.mn) then s.minimum else t.mn,
           if s.connects > 0 && s.maximum > t.mx then s.maximum else t.mx,
           t.have || s.connects > 0,
           t.outages + link.outages,
           t.anyDown || link.down)
  }

  function TotalsOf(hs: seq<seq<Observation>>): Totals {
    if hs == [] then Totals(0, 0, 0, 0.0, 0.0, 0.0, 0.0, false, 0, false)
    else Include(TotalsOf(hs[..|hs| - 1]), TallyOf(hs[|hs| - 1]), LinkOf(hs[|hs| - 1]))
  }

  /** The counters are totals over the targets. */
  lemma {:induction false} TotalCounts(hs: seq<seq<Observation>>)
    ensures var t := TotalsOf(hs);
      && t.att == Attempts(hs) && t.fail == Failures(hs) && t.con == |Pooled(hs)|
      && t.outages == Outages(hs) && t.anyDown == AnyDown(hs)
      && (t.have <==> Pooled(hs) != [])
  {
    if hs != [] {
      TotalCounts(hs[..|hs| - 1]);
      TallyMeaning(hs[|hs| - 1]);
    }
  }

  /** The sums are those of the pooled samples. */
  lemma {:induction false} TotalSums(hs: seq<seq<Observation>>)
    ensures TotalsOf(hs).total == Sum(Pooled(hs)) && TotalsOf(hs).totalSq == SumSq(Pooled(hs))
  {
    if hs != [] {
      var init, h := hs[..|hs| - 1], hs[|hs| - 1];
      TotalSums(init);
      TallyMeaning(h);
      SumConcat(Identity, Pooled(init), Rtts(h));
      SumConcat(Square, Pooled(init), Rtts(h));
    }
  }

  lemma {:induction false} PoolExtremes(a: seq<real>, b: seq<real>)
    ensures Least(a + b) == if Least(b) < Least(a) then Least(b) else Least(a)
    ensures Greatest(a + b) == if Greatest(b) > Greatest(a) then Greatest(b) else Greatest(a)
    ensures Least(a) <= DBL_MAX && Least(b) <= DBL_MAX && 0.0 <= Greatest(a) && 0.0 <= Greatest(b)
  {
    assert multiset(a + b) == multiset(a) + multiset(b);
    LeastPooled(a, b, a + b);
    GreatestPooled(a, b, a + b);
    LeastBounds(a);
    LeastBounds(b);
    GreatestBounds(a);
    GreatestBounds(b);
  }

  /** The extremes are those of the pooled samples. */
  lemma {:induction false} TotalExtremes(hs: seq<seq<Observation>>)
    ensures var t, pool := TotalsOf(hs), Pooled(hs);
      && (t.have <==> pool != [])
      && t.mn == (if pool == [] then 0.0 else Least(pool)) && t.mx == Greatest(pool)
  {
    if hs != [] {
      var init, h := hs[..|hs| - 1], hs[|hs| - 1];
      TotalExtremes(init);
      TallyMeaning(h);
      ExtremesStep(TotalsOf(init), Pooled(init), TallyOf(h), LinkOf(h), Rtts(h));
    }
  }

  lemma {:induction false} ExtremesStep(t: Totals, a: seq<real>, s: Tally, link: Link, b: seq<real>)
    requires t.have <==> a != []
    requires t.mn == (if a == [] then 0.0 else Least(a)) && t.mx == Greatest(a)
    requires s.connects == |b| && s.minimum == Least(b) && s.maximum == Greatest(b)
    ensures var u, pool := Include(t, s, link), a + b;
      && (u.have <==> pool != [])
      && u.mn == (if pool == [] then 0.0 else Least(pool)) && u.mx == Greatest(pool)
  {
    PoolExtremes(a, b);
  }

  /** The accumulating loop. */
  method Accumulate(items: array<Item>, ghost hs: seq<seq<Observation>>) returns (t: Totals)
    requires |hs| == items.Length
    requires forall i :: 0 <= i < items.Length ==> items[i].tally == TallyOf(hs[i]) && items[i].link == LinkOf(hs[i])
    ensures t == TotalsOf(Resolved(items[..], hs))
  {
    t := Totals(0, 0, 0, 0.0, 0.0, 0.0, 0.0, false, 0, false);
    for i := 0 to items.Length
      invariant t == TotalsOf(Resolved(items[..i], hs[..i]))
    {
      ResolvedNext(items[..], hs, i);
      assert items[..][..i] == items[..i] && items[..][..i + 1] == items[..i + 1];
      if items[i].resolveOk {
        TotalsAppend(Resolved(items[..i], hs[..i]), hs[i]);
        t := AddTarget(t, items[i].tally, items[i].link);
      }
    }
    assert items[..items.Length] == items[..] && hs[..items.Length] == hs;
  }

  /** The loop's body for a resolved target. */
  method AddTarget(t: Totals, s: Tally, link: Link) returns (u: Totals)
    ensures u == Include(t, s, link)
  {
    var mn, mx, have, anyDown := t.mn, t.mx, t.have, t.anyDown;
    if s.connects > 0 {
      if !have || s.minimum < mn {
        mn := s.minimum;
      }
      if s.maximum > mx {
        mx := s.maximum;
      }
      have := true;
    }
    if link.down {
      anyDown := true;
    }
    u := Totals(t.att + s.attempts, t.con + s.connects, t.fail + s.failures, t.total + s.total, t.totalSq + s.totalSq,
                mn, mx, have, t.outages + link.outages, anyDown);
  }

  lemma {:induction false} ResolvedNext(items: seq<Item>, hs: seq<seq<Observation>>, i: nat)
    requires i < |items| == |hs|
    ensures Resolved(items[..i + 1], hs[..i + 1])
         == if items[i].resolveOk then Resolved(items[..i], hs[..i]) + [hs[i]] else Resolved(items[..i], hs[..i])
  {
    assert items[..i + 1][..i] == items[..i] && hs[..i + 1][..i] == hs[..i];
  }

  lemma {:induction false} TotalsAppend(hs: seq<seq<Observation>>, h: seq<Observation>)
    ensures TotalsOf(hs + [h]) == Include(TotalsOf(hs), TallyOf(h), LinkOf(h))
  {
    assert (hs + [h])[..|hs|] == hs;
  }

  /** Mean and variance from the totals, with the clamp. */
  method MeanAndVariance(con: nat, total: real, totalSq: real, ghost pool: seq<real>)
    returns (avg: real, variance: real)
    requires con == |pool| && total == Sum(pool) && totalSq == SumSq(pool)
    ensures avg == if pool == [] then 0.0 else Mean(pool)
    ensures variance == if pool == [] then 0.0 else SquaredDeviations(pool, Mean(pool)) / |pool| as real
  {
    avg, variance := 0.0, 0.0;
    if con > 0 {
      VarianceSign(pool);
      VarianceIsMeanSquare(pool);
      avg := total / con as real;
      variance := totalSq / con as real - avg * avg;
      if variance < 0.0 {
        variance := 0.0;
      }
    }
  }

  /** The roll-up is the statistics of the pooled samples, and the combined verdict. */
  method PrintCombined(items: array<Item>, ghost hs: seq<seq<Observation>>) returns (r: Rollup)
    requires |hs| == items.Length
    requires forall i :: 0 <= i < items.Length ==> Tracks(items[i], hs[i])
    ensures IsRollup(r, Resolved(items[..], hs))
  {
    ghost var live := Resolved(items[..], hs);
    var t := Accumulate(items, hs);
    TotalCounts(live);
    TotalSums(live);
    TotalExtremes(live);
    var loss := if t.att > 0 then (t.fail as real / t.att as real) * 100.0 else 0.0;
    var avg, variance := MeanAndVariance(t.con, t.total, t.totalSq, Pooled(live));
    var verdict := HEALTHY;
    if t.anyDown || loss >= 100.0 {
      verdict := DOWN;
    } else if loss > 5.0 || t.outages > 0 {
      verdict := DEGRADED;
    }
    r := Rollup(t.att, t.con, t.fail, loss, t.mn, avg, t.mx, variance, verdict);
  }

  /** The numbers of one computation over all samples of the targets with histories hs. */
  ghost predicate IsRollup(r: Rollup, hs: seq<seq<Observation>>) {
    var pool := Pooled(hs);
    && r.attempts == Attempts(hs) && r.failures == Failures(hs) && r.connects == |pool|
    && r.loss == LossPercent(Failures(hs), Attempts(hs))
    && r.min == (if pool == [] then 0.0 else Least(pool)) && r.max == Greatest(pool)
    && r.avg == (if pool == [] then 0.0 else Mean(pool))
    && r.variance == (if pool == [] then 0.0 else SquaredDeviations(pool, Mean(pool)) / |pool| as real)
    && r.verdict == CombinedVerdict(hs)
  }

  /** The same numbers come out of one pass over any interleaving of the targets' samples. */
  lemma {:induction false} AnyInterleaving(pool: seq<real>, mixed: seq<real>)
    requires multiset(pool) == multiset(mixed)
    ensures |mixed| == |pool| && Sum(mixed) == Sum(pool) && SumSq(mixed) == SumSq(pool)
    ensures Least(mixed) == Least(pool) && Greatest(mixed) == Greatest(pool)
    ensures pool != [] ==> Mean(mixed) == Mean(pool)
    ensures pool != [] ==> SquaredDeviations(mixed, Mean(mixed)) == SquaredDeviations(pool, Mean(pool))
  {
    assert |multiset(pool)| == |multiset(mixed)|;
    SumPermutation(Identity, pool, mixed);
    SumPermutation(Square, pool, mixed);
    assert multiset(pool) == multiset(mixed) + multiset([]);
    LeastPooled(mixed, [], pool);
    GreatestPooled(mixed, [], pool);
    LeastBounds(mixed);
    GreatestBounds(mixed);
    if pool != [] {
      SumPermutation(Deviation(Mean(pool)), pool, mixed);
    }
  }
}
