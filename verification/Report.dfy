/** The verdicts as computed from the statistics and diagnostics of the targets: src/diag.c, Verdict. */
module Report {
  import opened Moments
  import opened Connectivity
  import opened Diagnostics
  import opened Verdicts
  import opened ProbeLoop
  import opened Combined

  /** What the verdict function reads of a target's fields. */
  function FieldVerdict(t: Tally, down: bool, outages: nat, dnsFailed: bool): Verdict {
    var loss := LossPercent(t.failures, t.attempts);
    var grade := QualityGrade(loss, Variance(t.connects, t.total, t.totalSq), Average(t.connects, t.total) * 1000.0);
    Judge(down, loss, grade == 2, outages, dnsFailed)
  }

  /** Computed from fields that track a history, it is the verdict on that history. */
  lemma {:induction false} FieldsTellHistory(item: Item, h: seq<Observation>, dnsFailed: bool)
    requires Tracks(item, h)
    ensures FieldVerdict(item.tally, item.link.down, item.link.outages, dnsFailed) == TargetVerdict(h, dnsFailed)
  {
    TallyMeaning(h);
  }

  /** The verdict on a target, from the fields of its two objects. */
  method VerdictOf(target: Target) returns (verdict: Verdict)
    requires target.Valid()
    ensures verdict == TargetVerdict(target.diag.seen, target.diag.dnsFailed)
  {
    var stats, diag := target.stats, target.diag;
    FieldsTellHistory(target.AsItem(true), diag.seen, diag.dnsFailed);
    target.AsValue(true);
    var loss := LossPercent(stats.failures, stats.attempts);
    if diag.isDown || loss >= 100.0 {
      return DOWN;
    }
    var variance := Variance(stats.connects, stats.total, stats.totalSq);
    var grade := QualityGrade(loss, variance, Average(stats.connects, stats.total) * 1000.0);
    if grade == 2 || diag.outages > 0 || diag.dnsFailed {
      return DEGRADED;
    }
    verdict := HEALTHY;
  }

  /** The targets of the list that are probed, and their histories, correspond. */
  lemma {:induction false} ResolvedAt(items: seq<Item>, hs: seq<seq<Observation>>, j: nat) returns (i: nat)
    requires |items| == |hs| && j < |Resolved(items, hs)|
    ensures i < |items| && items[i].resolveOk && hs[i] == Resolved(items, hs)[j]
  {
    var n := |items| - 1;
    if j < |Resolved(items[..n], hs[..n])| {
      i := ResolvedAt(items[..n], hs[..n], j);
    } else {
      i := n;
    }
  }

  /** The verdict on the i-th item of the list, if DNS worked. */
  function ItemVerdict(item: Item): Verdict {
    FieldVerdict(item.tally, item.link.down, item.link.outages, false)
  }

  /**
   Coherence of what is printed: if every resolved target's own verdict is HEALTHY, so is the combined
   one; and if the combined one is DOWN, some resolved target's own verdict is DOWN.
   */
  lemma {:induction false} PrintedCoherent(items: seq<Item>, hs: seq<seq<Observation>>, r: Rollup)
    requires |items| == |hs| && forall i :: 0 <= i < |items| ==> Tracks(items[i], hs[i])
    requires IsRollup(r, Resolved(items, hs))
    ensures (forall i :: 0 <= i < |items| && items[i].resolveOk ==> ItemVerdict(items[i]) == HEALTHY)
            ==> r.verdict == HEALTHY
    ensures r.verdict == DOWN
            ==> exists i :: 0 <= i < |items| && items[i].resolveOk && ItemVerdict(items[i]) == DOWN
  {
    var live := Resolved(items, hs);
    if forall i :: 0 <= i < |items| && items[i].resolveOk ==> ItemVerdict(items[i]) == HEALTHY {
      forall j | 0 <= j < |live| ensures TargetVerdict(live[j], false) == HEALTHY {
        var i := ResolvedAt(items, hs, j);
        FieldsTellHistory(items[i], hs[i], false);
      }
      AllHealthy(live);
    }
    if r.verdict == DOWN {
      var j := CombinedDown(live);
      var i := ResolvedAt(items, hs, j);
      FieldsTellHistory(items[i], hs[i], false);
    }
  }
}
