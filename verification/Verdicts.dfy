/** Link quality and the one-word verdicts, of one target and of all targets together. */
module Verdicts {
  import opened Reals
  import opened Connectivity
  import opened Moments
  import opened Diagnostics

  datatype Verdict = HEALTHY | DEGRADED | DOWN

  /** Share of `part` in `whole`, in percent; 0 of nothing. */
  function LossPercent(part: nat, whole: nat): real {
    if whole == 0 then 0.0 else (part as real / whole as real) * 100.0
  }

  /** The population variance of n samples, clamped at zero; 0 of nothing. */
  function Variance(n: nat, total: real, totalSq: real): real {
    if n == 0 then 0.0
    else if OnePassVariance(n, total, totalSq) < 0.0 then 0.0
    else OnePassVariance(n, total, totalSq)
  }

  function Average(n: nat, total: real): real {
    if n == 0 then 0.0 else total / n as real
  }

  /** The standard deviation, in milliseconds, exceeds `ms`: stated without a square root. */
  predicate JitterExceeds(variance: real, ms: real) {
    variance * 1000000.0 > ms * ms
  }

  /** 0 = GOOD, 1 = FAIR, 2 = POOR. */
  function QualityGrade(loss: real, variance: real, avgMs: real): int {
    if loss > 5.0 || JitterExceeds(variance, 50.0) || avgMs > 300.0 then 2
    else if loss > 1.0 || JitterExceeds(variance, 20.0) || avgMs > 150.0 then 1
    else 0
  }

  function Judge(down: bool, loss: real, poor: bool, outages: nat, dnsFailed: bool): Verdict {
    if down || loss >= 100.0 then DOWN
    else if poor || outages > 0 || dnsFailed then DEGRADED
    else HEALTHY
  }

  /** The verdict on one target as a function of its probe history. */
  function TargetVerdict(h: seq<Observation>, dnsFailed: bool): Verdict {
    var rtts, link, loss := Rtts(h), LinkOf(h), LossPercent(CountFailures(h), |h|);
    var grade := QualityGrade(loss, Variance(|rtts|, Sum(rtts), SumSq(rtts)), Average(|rtts|, Sum(rtts)) * 1000.0);
    Judge(link.down, loss, grade == 2, link.outages, dnsFailed)
  }

  // ---- Totals over the resolved targets ----

  function Attempts(hs: seq<seq<Observation>>): nat {
    if hs == [] then 0 else Attempts(hs[..|hs| - 1]) + |hs[|hs| - 1]|
  }

  function Failures(hs: seq<seq<Observation>>): nat {
    if hs == [] then 0 else Failures(hs[..|hs| - 1]) + CountFailures(hs[|hs| - 1])
  }

  function Outages(hs: seq<seq<Observation>>): nat {
    if hs == [] then 0 else Outages(hs[..|hs| - 1]) + LinkOf(hs[|hs| - 1]).outages
  }

  predicate AnyDown(hs: seq<seq<Observation>>) {
    hs != [] && (AnyDown(hs[..|hs| - 1]) || LinkOf(hs[|hs| - 1]).down)
  }

  /** The combined verdict: totals of the resolved targets, and loss alone for quality. */
  function CombinedVerdict(hs: seq<seq<Observation>>): Verdict {
    var loss := LossPercent(Failures(hs), Attempts(hs));
    Judge(AnyDown(hs), loss, loss > 5.0, Outages(hs), false)
  }

  /** The totals of one target are its own, and those of two groups of targets add up. */
  lemma {:induction false} TotalsConcat(a: seq<seq<Observation>>, b: seq<seq<Observation>>, h: seq<Observation>)
    ensures Attempts([h]) == |h| && Failures([h]) == CountFailures(h) && Outages([h]) == |OutageStarts(h)|
    ensures Attempts(a + b) == Attempts(a) + Attempts(b) && Failures(a + b) == Failures(a) + Failures(b)
    ensures Outages(a + b) == Outages(a) + Outages(b)
    decreases |b|
  {
    LinkMeaning(h);
    assert [h][..0] == [];
    if b == [] {
      assert a + b == a;
    } else {
      TotalsConcat(a, b[..|b| - 1], h);
      assert (a + b)[..|a + b| - 1] == a + b[..|b| - 1];
    }
  }

  // ---- Loss ----

  lemma {:induction false} LossBounds(part: nat, whole: nat)
    ensures whole > 0 ==> (LossPercent(part, whole) >= 100.0 <==> part >= whole)
    ensures LossPercent(part, whole) > 5.0 <==> whole > 0 && 20 * part > whole
    ensures whole == 0 ==> LossPercent(part, whole) == 0.0
    ensures LossPercent(part, whole) * whole as real == if whole == 0 then 0.0 else 100.0 * part as real
  {
    if whole > 0 {
      var q := part as real / whole as real;
      assert q * whole as real == part as real;
      QuotientCompare(part as real, whole as real, 1.0);
      QuotientCompare(part as real, whole as real, 0.05);
    }
  }

  lemma {:induction false} QuotientCompare(a: real, n: real, c: real)
    requires 0.0 < n
    ensures a / n >= c <==> a >= c * n
    ensures a / n > c <==> a > c * n
  {
    var q := a / n;
    assert q * n == a;
    if q > c {
      ScaleLt(n, c, q);
    } else if q < c {
      ScaleLt(n, q, c);
    }
  }

  lemma {:induction false} FailuresAtMost(h: seq<Observation>)
    ensures CountFailures(h) + |Rtts(h)| == |h|
  {
    if h != [] {
      FailuresAtMost(h[..|h| - 1]);
    }
  }

  // ---- What the words mean ----

  /** HEALTHY: never three failures in a row, at most one failure in twenty, and DNS worked. */
  lemma {:induction false} HealthyMeaning(h: seq<Observation>, dnsFailed: bool)
    requires TargetVerdict(h, dnsFailed) == HEALTHY
    ensures !HasBlock(h, 3) && 20 * CountFailures(h) <= |h| && !dnsFailed
  {
    LinkMeaning(h);
    OutageIffBlock(h);
    LossBounds(CountFailures(h), |h|);
  }

  lemma {:induction false} NeverDown(h: seq<Observation>)
    requires !HasBlock(h, 3)
    ensures LinkOf(h).outages == 0 && !LinkOf(h).down
  {
    LinkMeaning(h);
    OutageIffBlock(h);
    if LinkOf(h).down {
      TrailingBlock(h, LinkOf(h).fails);
      ShorterBlock(h, LinkOf(h).fails, 3);
    }
  }

  /** The mean squared deviation from the mean. */
  function MeanSquareDeviation(rtts: seq<real>): real
    requires rtts != []
  {
    SquaredDeviations(rtts, Mean(rtts)) / |rtts| as real
  }

  /** The numbers printed for any samples: their mean and their mean squared deviation. */
  lemma {:induction false} SpreadMeaning(rtts: seq<real>)
    ensures Average(|rtts|, Sum(rtts)) == if rtts == [] then 0.0 else Mean(rtts)
    ensures Variance(|rtts|, Sum(rtts), SumSq(rtts)) == if rtts == [] then 0.0 else MeanSquareDeviation(rtts)
  {
    if rtts != [] {
      VarianceSign(rtts);
      VarianceIsMeanSquare(rtts);
    }
  }

  /** A grade below POOR: at most 5 % loss, a mean of at most 300 ms, a deviation of at most 50 ms. */
  lemma {:induction false} NotPoor(loss: real, rtts: seq<real>)
    ensures QualityGrade(loss, Variance(|rtts|, Sum(rtts), SumSq(rtts)), Average(|rtts|, Sum(rtts)) * 1000.0) != 2
       <==> loss <= 5.0 && (rtts == [] || (Mean(rtts) * 1000.0 <= 300.0
                                           && MeanSquareDeviation(rtts) * 1000000.0 <= 50.0 * 50.0))
  {
    if rtts != [] {
      VarianceSign(rtts);
      VarianceIsMeanSquare(rtts);
    }
  }

  /**
   HEALTHY exactly if there never were three failures in a row, at most one failure in twenty, DNS worked,
   and the round-trip times have a mean of at most 300 ms and a standard deviation of at most 50 ms.
   */
  lemma {:induction false} HealthyIff(h: seq<Observation>, dnsFailed: bool)
    ensures TargetVerdict(h, dnsFailed) == HEALTHY
       <==> !HasBlock(h, 3) && 20 * CountFailures(h) <= |h| && !dnsFailed
            && (Rtts(h) == [] || (Mean(Rtts(h)) * 1000.0 <= 300.0
                                  && MeanSquareDeviation(Rtts(h)) * 1000000.0 <= 50.0 * 50.0))
  {
    var loss := LossPercent(CountFailures(h), |h|);
    NotPoor(loss, Rtts(h));
    LossBounds(CountFailures(h), |h|);
    if TargetVerdict(h, dnsFailed) == HEALTHY {
      HealthyMeaning(h, dnsFailed);
    } else if !HasBlock(h, 3) && 20 * CountFailures(h) <= |h| {
      NeverDown(h);
    }
  }

  /** The three grades, with the standard deviation itself. */
  lemma {:induction false} GradeMeaning(loss: real, variance: real, avgMs: real, sd: real)
    requires 0.0 <= sd && Times(sd, sd) == variance
    ensures var grade := QualityGrade(loss, variance, avgMs);
      && 0 <= grade <= 2
      && (grade == 2 <==> loss > 5.0 || sd * 1000.0 > 50.0 || avgMs > 300.0)
      && (grade == 0 <==> loss <= 1.0 && sd * 1000.0 <= 20.0 && avgMs <= 150.0)
  {
    JitterMeaning(variance, 50.0, sd);
    JitterMeaning(variance, 20.0, sd);
  }

  /** The history ends in a failure block of at least the threshold length. */
  ghost predicate EndsInOutage(h: seq<Observation>) {
    exists n :: n >= 3 && IsTrailing(h, n)
  }

  lemma {:induction false} DownLink(h: seq<Observation>)
    ensures LinkOf(h).down <==> EndsInOutage(h)
  {
    LinkMeaning(h);
    forall n | IsTrailing(h, n) ensures n == LinkOf(h).fails {
      TrailingUnique(h, n, LinkOf(h).fails);
    }
  }

  /** DOWN: the history ends in three failures, or no probe has ever succeeded. */
  lemma {:induction false} DownMeaning(h: seq<Observation>, dnsFailed: bool)
    ensures TargetVerdict(h, dnsFailed) == DOWN <==> EndsInOutage(h) || (h != [] && Rtts(h) == [])
  {
    DownLink(h);
    FailuresAtMost(h);
    LossBounds(CountFailures(h), |h|);
  }

  /** The squared comparison is the comparison of standard deviations. */
  lemma {:induction false} JitterMeaning(variance: real, ms: real, sd: real)
    requires 0.0 <= sd && Times(sd, sd) == variance && 0.0 <= ms
    ensures JitterExceeds(variance, ms) <==> sd * 1000.0 > ms
  {
    var x := sd * 1000.0;
    SquareMillis(sd);
    SquareOrder(x, ms);
    SquareOrder(ms, x);
  }

  lemma {:induction false} SquareMillis(sd: real)
    ensures Times(sd * 1000.0, sd * 1000.0) == Times(sd, sd) * 1000000.0
  {
  }

  lemma {:induction false} SquareOrder(x: real, y: real)
    requires 0.0 <= x && 0.0 <= y
    ensures x < y ==> Times(x, x) < Times(y, y)
  {
    if x < y {
      TimesAtMost(x, x, y);
      TimesCommutes(x, y);
      TimesLess(y, x, y);
    }
  }

  // ---- Coherence of the two levels ----

  lemma {:induction false} HealthyTotals(hs: seq<seq<Observation>>)
    requires forall i :: 0 <= i < |hs| ==> TargetVerdict(hs[i], false) == HEALTHY
    ensures !AnyDown(hs) && Outages(hs) == 0 && 20 * Failures(hs) <= Attempts(hs)
  {
    if hs != [] {
      HealthyTotals(hs[..|hs| - 1]);
      HealthyMeaning(hs[|hs| - 1], false);
    }
  }

  /** If every target is HEALTHY on its own, so are they together. */
  lemma {:induction false} AllHealthy(hs: seq<seq<Observation>>)
    requires forall i :: 0 <= i < |hs| ==> TargetVerdict(hs[i], false) == HEALTHY
    ensures CombinedVerdict(hs) == HEALTHY
  {
    HealthyTotals(hs);
    LossBounds(Failures(hs), Attempts(hs));
  }

  lemma {:induction false} FailuresWithinAttempts(hs: seq<seq<Observation>>)
    ensures Failures(hs) <= Attempts(hs)
  {
    if hs != [] {
      FailuresWithinAttempts(hs[..|hs| - 1]);
      FailuresAtMost(hs[|hs| - 1]);
    }
  }

  /** When everything failed, some target with probes has only failures. */
  lemma {:induction false} TotalLoss(hs: seq<seq<Observation>>) returns (i: nat)
    requires 0 < Attempts(hs) <= Failures(hs)
    ensures i < |hs| && hs[i] != [] && CountFailures(hs[i]) == |hs[i]|
  {
    var n := |hs| - 1;
    FailuresWithinAttempts(hs[..n]);
    FailuresAtMost(hs[n]);
    if hs[n] != [] {
      i := n;
    } else {
      i := TotalLoss(hs[..n]);
    }
  }

  lemma {:induction false} SomeDown(hs: seq<seq<Observation>>) returns (i: nat)
    requires AnyDown(hs)
    ensures i < |hs| && LinkOf(hs[i]).down
  {
    if LinkOf(hs[|hs| - 1]).down {
      i := |hs| - 1;
    } else {
      i := SomeDown(hs[..|hs| - 1]);
    }
  }

  /** If the targets together are DOWN, some target is DOWN on its own. */
  lemma {:induction false} CombinedDown(hs: seq<seq<Observation>>) returns (i: nat)
    requires CombinedVerdict(hs) == DOWN
    ensures i < |hs| && TargetVerdict(hs[i], false) == DOWN
  {
    LossBounds(Failures(hs), Attempts(hs));
    if AnyDown(hs) {
      i := SomeDown(hs);
    } else {
      i := TotalLoss(hs);
      LossBounds(CountFailures(hs[i]), |hs[i]|);
    }
  }

  lemma {:induction false} AnyDownIff(hs: seq<seq<Observation>>)
    ensures AnyDown(hs) <==> exists i :: 0 <= i < |hs| && EndsInOutage(hs[i])
  {
    if hs != [] {
      var n := |hs| - 1;
      AnyDownIff(hs[..n]);
      DownLink(hs[n]);
      assert forall i :: 0 <= i < n ==> hs[..n][i] == hs[i];
    }
  }

  /** Everything failed exactly if no target has a success. */
  lemma {:induction false} TotalLossIff(hs: seq<seq<Observation>>)
    ensures Failures(hs) <= Attempts(hs)
    ensures Failures(hs) == Attempts(hs) <==> forall i :: 0 <= i < |hs| ==> Rtts(hs[i]) == []
  {
    if hs != [] {
      var n := |hs| - 1;
      TotalLossIff(hs[..n]);
      FailuresAtMost(hs[n]);
      assert forall i :: 0 <= i < n ==> hs[..n][i] == hs[i];
    }
  }

  /** The targets together are DOWN exactly if one ends in three failures, or there were probes and all failed. */
  lemma {:induction false} CombinedDownIff(hs: seq<seq<Observation>>)
    ensures CombinedVerdict(hs) == DOWN
       <==> (exists i :: 0 <= i < |hs| && EndsInOutage(hs[i]))
            || (Attempts(hs) > 0 && forall i :: 0 <= i < |hs| ==> Rtts(hs[i]) == [])
  {
    AnyDownIff(hs);
    TotalLossIff(hs);
    LossBounds(Failures(hs), Attempts(hs));
  }

  /** No outage was counted anywhere exactly if no target ever failed three times in a row. */
  lemma {:induction false} NoOutagesIff(hs: seq<seq<Observation>>)
    ensures Outages(hs) == 0 <==> forall i :: 0 <= i < |hs| ==> !HasBlock(hs[i], 3)
    ensures Outages(hs) == 0 ==> !AnyDown(hs)
  {
    if hs != [] {
      var n := |hs| - 1;
      NoOutagesIff(hs[..n]);
      LinkMeaning(hs[n]);
      OutageIffBlock(hs[n]);
      if LinkOf(hs[n]).outages == 0 {
        NeverDown(hs[n]);
      }
      assert forall i :: 0 <= i < n ==> hs[..n][i] == hs[i];
    }
  }

  /**
   The targets together are HEALTHY exactly if at most one probe in twenty failed and none of them
   ever failed three times in a row.
   */
  lemma {:induction false} CombinedHealthyIff(hs: seq<seq<Observation>>)
    ensures CombinedVerdict(hs) == HEALTHY
       <==> 20 * Failures(hs) <= Attempts(hs) && forall i :: 0 <= i < |hs| ==> !HasBlock(hs[i], 3)
  {
    NoOutagesIff(hs);
    FailuresWithinAttempts(hs);
    LossBounds(Failures(hs), Attempts(hs));
  }

  lemma {:induction false} AttemptsCover(hs: seq<seq<Observation>>, i: nat)
    requires i < |hs|
    ensures |hs[i]| <= Attempts(hs)
  {
    if i < |hs| - 1 {
      AttemptsCover(hs[..|hs| - 1], i);
    }
  }

  /**
   A target that is DOWN on its own makes the combination DOWN exactly if some target ends in three
   failures or no target has a success: always if it ends in three failures itself.
   */
  lemma {:induction false} DownCarriesOver(hs: seq<seq<Observation>>, i: nat, dnsFailed: bool)
    requires i < |hs| && TargetVerdict(hs[i], dnsFailed) == DOWN
    ensures CombinedVerdict(hs) == DOWN
       <==> (exists j :: 0 <= j < |hs| && EndsInOutage(hs[j])) || forall j :: 0 <= j < |hs| ==> Rtts(hs[j]) == []
  {
    CombinedDownIff(hs);
    DownMeaning(hs[i], dnsFailed);
    AttemptsCover(hs, i);
  }

  /** Not conversely: one target of two can be DOWN while the pair is not. */
  lemma {:induction false} TargetDownAlone()
    ensures var lost, fine := [Failure], [Success(0.1)];
      TargetVerdict(lost, false) == DOWN && CombinedVerdict([lost, fine]) == DEGRADED
  {
    var lost: seq<Observation>, fine := [Failure], [Success(0.1)];
    var hs := [lost, fine];
    assert lost[..0] == [] && fine[..0] == [] && hs[..1] == [lost] && [lost][..0] == [];
    assert LinkOf(lost) == Follow(LinkOf([]), Failure) && LinkOf(fine) == Follow(LinkOf([]), Success(0.1));
    assert CountFailures(lost) == 1 && CountFailures(fine) == 0;
    assert Failures([lost]) == 1 && Attempts([lost]) == 1 && Outages([lost]) == 0 && !AnyDown([lost]);
    assert Failures(hs) == 1 && Attempts(hs) == 2;
    LossBounds(1, 1);
    LossBounds(1, 2);
  }
}
