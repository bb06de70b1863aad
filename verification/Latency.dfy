/** The latency tracker: baseline, moving average and the high-latency condition over a run of RTTs. */
module Latency {
  import opened Reals

  const DIAG_EWMA_ALPHA: real := 0.3
  const DIAG_LATENCY_SPIKE_FACTOR: real := 3.0
  const DIAG_LATENCY_SPIKE_FLOOR_MS: real := 20.0

  datatype Alert = HighLatency(ewmaMs: real, baseMs: real) | LatencyNormal(ewmaMs: real)

  datatype Tracker = Tracker(baseline: real, ewma: real, seeded: bool, high: bool, alerts: seq<Alert>)

  const Fresh: Tracker := Tracker(DBL_MAX, 0.0, false, false, [])

  function Threshold(baseMs: real): real {
    var spike := baseMs * DIAG_LATENCY_SPIKE_FACTOR;
    var floor := baseMs + DIAG_LATENCY_SPIKE_FLOOR_MS;
    if spike > floor then spike else floor
  }

  /** One successful probe. */
  function Observe(t: Tracker, rtt: real): Tracker {
    var baseline := if rtt < t.baseline then rtt else t.baseline;
    var ewma := if !t.seeded then rtt else DIAG_EWMA_ALPHA * rtt + (1.0 - DIAG_EWMA_ALPHA) * t.ewma;
    var baseMs, ewmaMs := baseline * 1000.0, ewma * 1000.0;
    if !t.high && ewmaMs > Threshold(baseMs) then
      Tracker(baseline, ewma, true, true, t.alerts + [HighLatency(ewmaMs, baseMs)])
    else if t.high && ewmaMs < baseMs * 1.5 then
      Tracker(baseline, ewma, true, false, t.alerts + [LatencyNormal(ewmaMs)])
    else
      Tracker(baseline, ewma, true, t.high, t.alerts)
  }

  function Track(rtts: seq<real>): Tracker {
    if rtts == [] then Fresh else Observe(Track(rtts[..|rtts| - 1]), rtts[|rtts| - 1])
  }

  // ---- Baseline and moving average ----

  predicate InRange(rtts: seq<real>) {
    forall i :: 0 <= i < |rtts| ==> 0.0 <= rtts[i] <= DBL_MAX
  }

  /** m bounds the sequence from below and is one of its elements. */
  predicate IsMinimum(rtts: seq<real>, m: real) {
    m in rtts && forall i :: 0 <= i < |rtts| ==> m <= rtts[i]
  }

  predicate IsUpperBound(rtts: seq<real>, m: real) {
    forall i :: 0 <= i < |rtts| ==> rtts[i] <= m
  }

  lemma {:induction false} ObserveAverages(t: Tracker, rtt: real)
    ensures var u := Observe(t, rtt);
      && u.seeded
      && u.baseline == (if rtt < t.baseline then rtt else t.baseline)
      && u.ewma == (if t.seeded then 0.3 * rtt + 0.7 * t.ewma else rtt)
  {
  }

  /**
   The alarm, in milliseconds: it is raised exactly when the average exceeds both three times the baseline
   and the baseline by more than 20, and cleared exactly when the average falls below one and a half times it.
   */
  lemma {:induction false} AlarmIff(t: Tracker, rtt: real)
    ensures var u := Observe(t, rtt);
      var avg, base := u.ewma * 1000.0, u.baseline * 1000.0;
      && (!t.high ==> (u.high <==> avg > 3.0 * base && avg > base + 20.0))
      && (t.high ==> (!u.high <==> avg < 1.5 * base))
  {
  }

  /** One alert, with the average and the baseline it was judged by, each time the flag changes, and only then. */
  lemma {:induction false} AlertOnChange(t: Tracker, rtt: real)
    ensures var u := Observe(t, rtt);
      u.alerts == t.alerts + if u.high == t.high then []
                             else if u.high then [HighLatency(u.ewma * 1000.0, u.baseline * 1000.0)]
                             else [LatencyNormal(u.ewma * 1000.0)]
  {
    assert t.alerts + [] == t.alerts;
  }

  /** The baseline is the smallest RTT, and the average lies between it and the largest. */
  lemma {:induction false} AverageBetween(rtts: seq<real>, top: real)
    requires rtts != [] && InRange(rtts) && IsUpperBound(rtts, top)
    ensures var t := Track(rtts);
      t.seeded && IsMinimum(rtts, t.baseline) && t.baseline <= t.ewma <= top
  {
    var init, last := rtts[..|rtts| - 1], rtts[|rtts| - 1];
    ObserveAverages(Track(init), last);
    if init == [] {
      assert Track(rtts).baseline == last;
    } else {
      AverageBetween(init, top);
      MinimumAppend(init, last, Track(init).baseline);
      assert rtts == init + [last];
    }
  }

  lemma {:induction false} MinimumAppend(rtts: seq<real>, x: real, m: real)
    requires IsMinimum(rtts, m)
    ensures IsMinimum(rtts + [x], if x < m then x else m)
  {
    var i :| 0 <= i < |rtts| && rtts[i] == m;
    assert (rtts + [x])[i] == m && (rtts + [x])[|rtts|] == x;
  }

  /** A run whose RTTs lie within 20 ms of each other never raises HIGH LATENCY. */
  lemma {:induction false} SteadyIsSilent(rtts: seq<real>)
    requires InRange(rtts)
    requires forall i, j :: 0 <= i < |rtts| && 0 <= j < |rtts| ==> rtts[i] - rtts[j] <= 0.020
    ensures !Track(rtts).high && Track(rtts).alerts == []
  {
    if rtts != [] {
      SteadyIsSilent(rtts[..|rtts| - 1]);
      var low := Track(rtts).baseline;
      AverageBetween(rtts, rtts[|rtts| - 1] + 0.020);
      var i :| 0 <= i < |rtts| && rtts[i] == low;
      AverageBetween(rtts, low + 0.020);
    }
  }

  // ---- Alerts alternate ----

  /** HIGH LATENCY first, then in turns. */
  predicate Alternating(alerts: seq<Alert>) {
    forall i :: 0 <= i < |alerts| ==> (alerts[i].HighLatency? <==> i % 2 == 0)
  }

  lemma {:induction false} LatencyAlertsAlternate(rtts: seq<real>)
    ensures Alternating(Track(rtts).alerts)
    ensures Track(rtts).high <==> |Track(rtts).alerts| % 2 == 1
  {
    if rtts != [] {
      LatencyAlertsAlternate(rtts[..|rtts| - 1]);
    }
  }

  // ---- Clearing a high-latency condition ----

  function Repeat(b: real, n: nat): (r: seq<real>)
    ensures |r| == n && forall i :: 0 <= i < n ==> r[i] == b
  {
    seq(n, _ => b)
  }

  lemma {:induction false} RepeatSucc(rtts: seq<real>, b: real, n: nat)
    ensures Track(rtts + Repeat(b, n + 1)) == Observe(Track(rtts + Repeat(b, n)), b)
  {
    var longer := rtts + Repeat(b, n + 1);
    assert longer[..|longer| - 1] == rtts + Repeat(b, n);
  }

  /** The average after n probes at b, starting from e. */
  function Settle(b: real, e: real, n: nat): real {
    if n == 0 then e else 0.3 * b + 0.7 * Settle(b, e, n - 1)
  }

  /** Feeding the baseline back in keeps the baseline and settles the average. */
  lemma {:induction false} Settling(rtts: seq<real>, n: nat)
    requires Track(rtts).seeded
    ensures var u := Track(rtts + Repeat(Track(rtts).baseline, n));
      u.seeded && u.baseline == Track(rtts).baseline
      && u.ewma == Settle(Track(rtts).baseline, Track(rtts).ewma, n)
  {
    var b := Track(rtts).baseline;
    if n == 0 {
      assert rtts + Repeat(b, 0) == rtts;
    } else {
      Settling(rtts, n - 1);
      RepeatSucc(rtts, b, n - 1);
      ObserveAverages(Track(rtts + Repeat(b, n - 1)), b);
    }
  }

  /** Settling shrinks the excess over b by 0.7 a probe. */
  lemma {:induction false} GeometricDecay(b: real, e: real, n: nat)
    ensures Settle(b, e, n) == b + Pow(0.7, n) * (e - b)
  {
    if 0 < n {
      GeometricDecay(b, e, n - 1);
      Mix(b, Pow(0.7, n - 1), e - b);
    }
  }

  lemma {:induction false} Mix(b: real, p: real, d: real)
    ensures 0.3 * b + 0.7 * (b + p * d) == b + (0.7 * p) * d
  {
    assert (0.7 * p) * d == 0.7 * (p * d);
  }

  /** 0.7^n vanishes at least as fast as 1 / (1 + 0.4 n). */
  lemma {:induction false} GeometricBound(n: nat)
    ensures 0.0 < Pow(0.7, n) && Pow(0.7, n) * (1.0 + 0.4 * n as real) <= 1.0
  {
    if 0 < n {
      GeometricBound(n - 1);
      var p, x := Pow(0.7, n - 1), (n - 1) as real;
      assert 0.7 * p * (1.0 + 0.4 * (x + 1.0)) <= p * (1.0 + 0.4 * x) by {
        assert 0.7 * (1.0 + 0.4 * (x + 1.0)) <= 1.0 + 0.4 * x;
        ScaleLe(p, 0.7 * (1.0 + 0.4 * (x + 1.0)), 1.0 + 0.4 * x);
      }
    }
  }

  /** Any excess falls below half a positive baseline after finitely many steps. */
  lemma {:induction false} DecaysBelow(excess: real, b: real) returns (n: nat)
    requires 0.0 < b
    ensures 1 <= n && Pow(0.7, n) * excess < 0.5 * b
  {
    if excess <= 0.0 {
      n := 1;
    } else {
      var ratio := 5.0 * excess / b;
      n := ratio.Floor + 1;
      assert ratio < n as real;
      GeometricBound(n);
      var p, g := Pow(0.7, n), 1.0 + 0.4 * n as real;
      assert excess < 0.5 * b * g by {
        assert excess == ratio * b / 5.0;
        ScaleLe(b, ratio, n as real);
        assert 0.5 * b * g == 0.5 * b + 0.2 * (b * n as real);
      }
      assert p * excess < p * (0.5 * b * g) by {
        ScaleLt(p, excess, 0.5 * b * g);
      }
      assert p * (0.5 * b * g) == 0.5 * b * (p * g);
      ScaleLe(0.5 * b, p * g, 1.0);
    }
  }

  lemma {:induction false} SettlesBelow(b: real, e: real) returns (n: nat)
    requires 0.0 < b
    ensures 1 <= n && Settle(b, e, n) < 1.5 * b
  {
    n := DecaysBelow(e - b, b);
    GeometricDecay(b, e, n);
  }

  /** In the high state a successful probe ends the condition if the average it gives is low enough. */
  lemma {:induction false} EndsBelow(t: Tracker, rtt: real, b: real)
    requires t.high && Observe(t, rtt).baseline == b && Observe(t, rtt).ewma < 1.5 * b
    ensures !Observe(t, rtt).high
  {
  }

  /** Once the average has settled below 1.5 times the baseline, the condition is or was over. */
  lemma {:induction false} SettledIsNormal(rtts: seq<real>, b: real, n: nat)
    requires Track(rtts).seeded && b == Track(rtts).baseline && 1 <= n
    requires Settle(b, Track(rtts).ewma, n) < 1.5 * b
    ensures !Track(rtts + Repeat(b, n)).high || !Track(rtts + Repeat(b, n - 1)).high
  {
    var before, after := rtts + Repeat(b, n - 1), rtts + Repeat(b, n);
    Settling(rtts, n);
    RepeatSucc(rtts, b, n - 1);
    assert Track(after).baseline == b && Track(after).ewma < 1.5 * b;
    if Track(before).high {
      EndsBelow(Track(before), b, b);
    }
  }

  lemma {:induction false} NoRepeat(rtts: seq<real>, b: real)
    ensures Track(rtts + Repeat(b, 0)) == Track(rtts)
  {
    assert rtts + Repeat(b, 0) == rtts;
  }

  /** Of two states one probe apart, take the one that is over; the first of all is not. */
  lemma {:induction false} EarlierOne(rtts: seq<real>, b: real, n: nat) returns (m: nat)
    requires 1 <= n && Track(rtts).high
    requires !Track(rtts + Repeat(b, n)).high || !Track(rtts + Repeat(b, n - 1)).high
    ensures 1 <= m && !Track(rtts + Repeat(b, m)).high
  {
    NoRepeat(rtts, b);
    m := if Track(rtts + Repeat(b, n)).high then n - 1 else n;
  }

  /** With a positive baseline, enough probes at the baseline end the high-latency condition. */
  lemma {:induction false} ClearsAtBaseline(rtts: seq<real>) returns (n: nat)
    requires Track(rtts).seeded && Track(rtts).high && 0.0 < Track(rtts).baseline
    ensures 1 <= n && !Track(rtts + Repeat(Track(rtts).baseline, n)).high
  {
    var b := Track(rtts).baseline;
    n := SettlesBelow(b, Track(rtts).ewma);
    SettledIsNormal(rtts, b, n);
    n := EarlierOne(rtts, b, n);
  }

  /** At baseline zero nothing ever ends it: the average cannot fall below 1.5 times zero. */
  lemma {:induction false} StuckAtZero(rtts: seq<real>, more: seq<real>)
    requires rtts != [] && InRange(rtts) && InRange(more) && Track(rtts).high && Track(rtts).baseline == 0.0
    ensures Track(rtts + more).high
  {
    var all := rtts + more;
    AverageBetween(rtts, DBL_MAX);
    AverageBetween(all, DBL_MAX);
    if more == [] {
      assert all == rtts;
    } else {
      StuckAtZero(rtts, more[..|more| - 1]);
      assert all[..|all| - 1] == rtts + more[..|more| - 1];
      var i :| 0 <= i < |rtts| && rtts[i] == 0.0;
      assert all[i] == 0.0;
    }
  }

  /** The high-latency condition can still end exactly if the baseline is positive. */
  lemma {:induction false} ClearsIffPositiveBaseline(rtts: seq<real>)
    requires rtts != [] && InRange(rtts) && Track(rtts).high
    ensures 0.0 < Track(rtts).baseline <==> exists more :: InRange(more) && !Track(rtts + more).high
  {
    AverageBetween(rtts, DBL_MAX);
    if 0.0 < Track(rtts).baseline {
      var n := ClearsAtBaseline(rtts);
      var more := Repeat(Track(rtts).baseline, n);
      assert InRange(more) && !Track(rtts + more).high;
    } else {
      forall more | InRange(more) ensures Track(rtts + more).high {
        StuckAtZero(rtts, more);
      }
    }
  }

  /** Such a state exists: an RTT of zero followed by one second. */
  lemma {:induction false} ZeroBaselineCanAlarm()
    ensures InRange([0.0, 1.0]) && Track([0.0, 1.0]).high && Track([0.0, 1.0]).baseline == 0.0
  {
    assert [0.0, 1.0][..1] == [0.0] && [0.0][..0] == [];
    assert Track([0.0]) == Observe(Fresh, 0.0);
  }
}
