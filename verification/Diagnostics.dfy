/** The live diagnostics of one target: src/diag.c, Diag_Init, Diag_SetDns and Diag_Observe. */
module Diagnostics {
  import opened Reals
  import opened Connectivity
  import opened Latency

  /** The round-trip times of the successful probes, in order. */
  function Rtts(h: seq<Observation>): seq<real> {
    if h == [] then []
    else if h[|h| - 1].Success? then Rtts(h[..|h| - 1]) + [h[|h| - 1].rtt]
    else Rtts(h[..|h| - 1])
  }

  lemma {:induction false} RttsAppend(h: seq<Observation>, x: Observation)
    ensures Rtts(h + [x]) == if x.Success? then Rtts(h) + [x.rtt] else Rtts(h)
  {
    assert (h + [x])[..|h|] == h;
  }

  lemma {:induction false} TrackHistory(h: seq<Observation>, x: Observation)
    ensures Track(Rtts(h + [x])) == if x.Success? then Observe(Track(Rtts(h)), x.rtt) else Track(Rtts(h))
  {
    RttsAppend(h, x);
    if x.Success? {
      assert (Rtts(h) + [x.rtt])[..|Rtts(h)|] == Rtts(h);
    }
  }

  lemma {:induction false} LinkAppend(h: seq<Observation>, x: Observation)
    ensures LinkOf(h + [x]) == Follow(LinkOf(h), x)
  {
    assert (h + [x])[..|h|] == h;
  }

  class Diag {
    var dnsMs: real
    var dnsFailed: bool
    var consecFails: nat
    var longestFailStreak: nat
    var outages: nat
    var isDown: bool
    var baselineSec: real
    var ewmaSec: real
    var ewmaInit: bool
    var highLatency: bool
    var silent: bool

    /** Every observation made, and the alerts raised so far (printed unless `silent`). */
    ghost var seen: seq<Observation>
    ghost var linkAlerts: seq<LinkAlert>
    ghost var latencyAlerts: seq<Latency.Alert>

    ghost function LinkState(): Link
      reads this`consecFails, this`longestFailStreak, this`outages, this`isDown, this`linkAlerts
    {
      Link(consecFails, longestFailStreak, outages, isDown, linkAlerts)
    }

    ghost function LatencyState(): Tracker
      reads this`baselineSec, this`ewmaSec, this`ewmaInit, this`highLatency, this`latencyAlerts
    {
      Tracker(baselineSec, ewmaSec, ewmaInit, highLatency, latencyAlerts)
    }

    /** The fields are functions of the whole history. */
    ghost predicate Valid()
      reads this
    {
      LinkState() == LinkOf(seen) && LatencyState() == Track(Rtts(seen))
    }

    constructor (silent: bool)
      ensures Valid() && seen == [] && this.silent == silent && dnsMs == 0.0 && !dnsFailed
    {
      dnsMs, dnsFailed := 0.0, false;
      consecFails, longestFailStreak, outages, isDown := 0, 0, 0, false;
      baselineSec, ewmaSec, ewmaInit, highLatency := DBL_MAX, 0.0, false, false;
      this.silent := silent;
      seen, linkAlerts, latencyAlerts := [], [], [];
      new;
      assert Rtts(seen) == [];
    }

    method SetDns(dnsMs: real, failed: bool)
      requires Valid()
      modifies this`dnsMs, this`dnsFailed
      ensures Valid() && this.dnsMs == dnsMs && dnsFailed == failed
    {
      this.dnsMs := dnsMs;
      dnsFailed := failed;
    }

    method Observe(success: bool, rttSec: real)
      requires Valid()
      modifies this
      ensures Valid() && seen == old(seen) + [if success then Success(rttSec) else Failure]
      ensures dnsMs == old(dnsMs) && dnsFailed == old(dnsFailed) && silent == old(silent)
    {
      ghost var x := if success then Success(rttSec) else Failure;
      ghost var longer := seen + [x];
      TrackHistory(seen, x);
      LinkAppend(seen, x);
      Advance(success, rttSec);
      seen := longer;
    }

    /** The tracking fields advance by one observation. */
    method Advance(success: bool, rttSec: real)
      modifies this`consecFails, this`longestFailStreak, this`isDown, this`outages, this`linkAlerts
      modifies this`baselineSec, this`ewmaSec, this`ewmaInit, this`highLatency, this`latencyAlerts
      ensures LinkState() == Follow(old(LinkState()), if success then Success(rttSec) else Failure)
      ensures LatencyState()
           == if success then Latency.Observe(old(LatencyState()), rttSec) else old(LatencyState())
      ensures dnsMs == old(dnsMs) && dnsFailed == old(dnsFailed) && silent == old(silent)
    {
      if success {
        ObserveSuccess(rttSec);
      } else {
        CountFailure();
      }
    }

    method ObserveSuccess(rttSec: real)
      modifies this`consecFails, this`isDown, this`linkAlerts
      modifies this`baselineSec, this`ewmaSec, this`ewmaInit, this`highLatency, this`latencyAlerts
      ensures LinkState() == Follow(old(LinkState()), Success(rttSec))
      ensures LatencyState() == Latency.Observe(old(LatencyState()), rttSec)
    {
      Recover();
      ObserveLatency(rttSec);
    }

    /** The end of a failure block, if there was one. */
    method Recover()
      modifies this`consecFails, this`isDown, this`linkAlerts
      ensures forall rtt :: LinkState() == Follow(old(LinkState()), Success(rtt))
    {
      if isDown {
        linkAlerts := linkAlerts + [Recovered(consecFails)];
        isDown := false;
      }
      consecFails := 0;
    }

    method CountFailure()
      modifies this`consecFails, this`longestFailStreak, this`isDown, this`outages, this`linkAlerts
      ensures LinkState() == Follow(old(LinkState()), Failure)
    {
      consecFails := consecFails + 1;
      if consecFails > longestFailStreak {
        longestFailStreak := consecFails;
      }
      if consecFails == DIAG_DOWN_THRESHOLD {
        isDown := true;
        outages := outages + 1;
        linkAlerts := linkAlerts + [Down];
      }
    }

    /** The latency half of a successful observation. */
    method ObserveLatency(rttSec: real)
      modifies this`baselineSec, this`ewmaSec, this`ewmaInit, this`highLatency, this`latencyAlerts
      ensures LatencyState() == Latency.Observe(old(LatencyState()), rttSec)
    {
      if rttSec < baselineSec {
        baselineSec := rttSec;
      }
      if !ewmaInit {
        ewmaSec := rttSec;
        ewmaInit := true;
      } else {
        ewmaSec := DIAG_EWMA_ALPHA * rttSec + (1.0 - DIAG_EWMA_ALPHA) * ewmaSec;
      }
      var baseMs := baselineSec * 1000.0;
      var ewmaMs := ewmaSec * 1000.0;
      var spikeMs := baseMs * DIAG_LATENCY_SPIKE_FACTOR;
      var floorMs := baseMs + DIAG_LATENCY_SPIKE_FLOOR_MS;
      var threshold := if spikeMs > floorMs then spikeMs else floorMs;
      if !highLatency && ewmaMs > threshold {
        latencyAlerts := latencyAlerts + [Alert.HighLatency(ewmaMs, baseMs)];
        highLatency := true;
      } else if highLatency && ewmaMs < baseMs * 1.5 {
        latencyAlerts := latencyAlerts + [LatencyNormal(ewmaMs)];
        highLatency := false;
      }
    }

    /** What the fields say about the run: blocks, budget, and strictly alternating alerts. */
    lemma {:induction false} LinkSummary()
      requires Valid()
      ensures IsTrailing(seen, consecFails) && IsLongest(seen, longestFailStreak)
      ensures outages == |OutageStarts(seen)|
      ensures isDown <==> 3 <= consecFails
      ensures 3 * outages <= CountFailures(seen)
      ensures LinkAlternating(linkAlerts) && |linkAlerts| == 2 * outages - (if isDown then 1 else 0)
    {
      LinkMeaning(seen);
      OutageBudget(seen);
      LinkAlertsAlternate(seen);
    }

    /** What the latency fields say about the run. */
    lemma {:induction false} LatencySummary(top: real)
      requires Valid() && Rtts(seen) != [] && InRange(Rtts(seen)) && IsUpperBound(Rtts(seen), top)
      ensures IsMinimum(Rtts(seen), baselineSec) && baselineSec <= ewmaSec <= top
      ensures Alternating(latencyAlerts) && (highLatency <==> |latencyAlerts| % 2 == 1)
    {
      AverageBetween(Rtts(seen), top);
      LatencyAlertsAlternate(Rtts(seen));
    }
  }
}
