/** Scheduling and accounting of the probe loop: src/main.c, ProbeLoop. */
module ProbeLoop {
  import opened Probe
  import opened Pool
  import opened PoolInvariant
  import opened PoolSafety
  import PoolLiveness
  import opened Connectivity
  import opened Reals
  import opened Moments
  import opened Latency
  import opened Diagnostics
  import opened Statistics

  /** What the result pass makes of one outcome: nothing at all if the probe was interrupted. */
  function Noted(o: Outcome): seq<Observation> {
    if o.result == PINGDD_INTERRUPTED then []
    else if o.result == SUCCESS then [Success(o.rtt)]
    else [Failure]
  }

  function Observations(outcomes: seq<Outcome>): seq<Observation> {
    if outcomes == [] then [] else Observations(outcomes[..|outcomes| - 1]) + Noted(outcomes[|outcomes| - 1])
  }

  // ---- One target ----

  /** The counters and aggregates of stats_t. */
  datatype Tally = Tally(attempts: nat, connects: nat, failures: nat,
                         total: real, totalSq: real, minimum: real, maximum: real)

  function Count(t: Tally, x: Observation): Tally {
    if x.Success? then
      Tally(t.attempts + 1, t.connects + 1, t.failures, t.total + x.rtt, t.totalSq + Square(x.rtt),
            if x.rtt < t.minimum then x.rtt else t.minimum, if x.rtt > t.maximum then x.rtt else t.maximum)
    else
      t.(attempts := t.attempts + 1, failures := t.failures + 1)
  }

  function TallyOf(h: seq<Observation>): Tally {
    if h == [] then Tally(0, 0, 0, 0.0, 0.0, DBL_MAX, 0.0) else Count(TallyOf(h[..|h| - 1]), h[|h| - 1])
  }

  lemma {:induction false} TallyAppend(h: seq<Observation>, x: Observation)
    ensures TallyOf(h + [x]) == Count(TallyOf(h), x)
  {
    assert (h + [x])[..|h|] == h;
  }

  /**
   The counters of every history: one attempt for each observation, attempts are connects
   plus failures, and the aggregates are those of the successful round-trip times.
   */
  lemma {:induction false} TallyMeaning(h: seq<Observation>)
    ensures var t, rtts := TallyOf(h), Rtts(h);
      && t.attempts == |h| == t.connects + t.failures
      && t.connects == |rtts| && t.failures == CountFailures(h)
      && t.total == Sum(rtts) && t.totalSq == SumSq(rtts)
      && t.minimum == Least(rtts) && t.maximum == Greatest(rtts)
  {
    if h != [] {
      TallyMeaning(h[..|h| - 1]);
      if h[|h| - 1].Success? {
        SumAppend(Identity, Rtts(h[..|h| - 1]), h[|h| - 1].rtt);
        SumAppend(Square, Rtts(h[..|h| - 1]), h[|h| - 1].rtt);
        assert Rtts(h)[..|Rtts(h)| - 1] == Rtts(h[..|h| - 1]);
      }
    }
  }

  /** What the target list stores for one target: a value, as in C. */
  datatype Item = Item(resolveOk: bool, last: Outcome, tally: Tally, link: Link, tracker: Tracker)

  /** The item's statistics and diagnostics are those of history h. */
  ghost predicate Tracks(item: Item, h: seq<Observation>) {
    item.tally == TallyOf(h) && item.link == LinkOf(h) && item.tracker == Track(Rtts(h))
  }

  function Observed(item: Item, x: Observation): Item {
    Item(item.resolveOk, item.last, Count(item.tally, x), Follow(item.link, x),
         if x.Success? then Observe(item.tracker, x.rtt) else item.tracker)
  }

  /** The result pass on one target: consume the outcome in the scratch fields. */
  function Accounted(item: Item): Item {
    var noted := Noted(item.last);
    if noted == [] then item else Observed(item, noted[0])
  }

  lemma {:induction false} ObservedTracks(item: Item, h: seq<Observation>, x: Observation)
    requires Tracks(item, h)
    ensures Tracks(Observed(item, x), h + [x])
  {
    TallyAppend(h, x);
    LinkAppend(h, x);
    TrackHistory(h, x);
  }

  lemma {:induction false} AccountedTracks(item: Item, h: seq<Observation>)
    requires Tracks(item, h)
    ensures Tracks(Accounted(item), h + Noted(item.last))
  {
    var noted := Noted(item.last);
    if noted == [] {
      assert h + noted == h;
    } else {
      ObservedTracks(item, h, noted[0]);
      assert noted == [noted[0]];
    }
  }

  /**
   By the codes themselves: 107, an interrupt, changes nothing; 0 is a connect with its round-trip time, and the
   end of a failure streak; every other code is one more failure and nothing else.
   */
  lemma {:induction false} AccountedMeaning(item: Item)
    ensures var code, rtt, was, now := item.last.result, item.last.rtt, item.tally, Accounted(item).tally;
      && (code == 107 ==> Accounted(item) == item)
      && (code == 0 ==>
            && now.attempts == was.attempts + 1 && now.connects == was.connects + 1 && now.failures == was.failures
            && now.total == was.total + rtt && now.totalSq == was.totalSq + rtt * rtt
            && now.minimum <= rtt <= now.maximum)
      && (code != 0 && code != 107 ==> now == was.(attempts := was.attempts + 1, failures := was.failures + 1))
    ensures var code, was, now := item.last.result, item.link, Accounted(item).link;
      && (code == 0 ==> now.fails == 0 && !now.down && now.longest == was.longest && now.outages == was.outages)
      && (code != 0 && code != 107 ==> now.fails == was.fails + 1 && now.fails <= now.longest)
    ensures Accounted(item).resolveOk == item.resolveOk && Accounted(item).last == item.last
    ensures item.last.result != 0 ==> Accounted(item).tracker == item.tracker
    ensures item.last.result == 0 ==> Accounted(item).tracker == Observe(item.tracker, item.last.rtt)
  {
  }

  ghost function Connected(outcomes: seq<Outcome>): set<nat> {
    set i: nat | i < |outcomes| && outcomes[i].result == 0
  }

  ghost function Failed(outcomes: seq<Outcome>): set<nat> {
    set i: nat | i < |outcomes| && outcomes[i].result != 0 && outcomes[i].result != 107
  }

  /** A history counts the outcomes with code 0 as successes, and all but those with code 0 or 107 as failures. */
  lemma {:induction false} ObservationsCount(outcomes: seq<Outcome>)
    ensures |Rtts(Observations(outcomes))| == |Connected(outcomes)|
    ensures CountFailures(Observations(outcomes)) == |Failed(outcomes)|
  {
    if outcomes != [] {
      var init, last := outcomes[..|outcomes| - 1], outcomes[|outcomes| - 1];
      ObservationsCount(init);
      CountNext(init, last);
      assert outcomes == init + [last];
    }
  }

  lemma {:induction false} CountNext(init: seq<Outcome>, last: Outcome)
    requires |Rtts(Observations(init))| == |Connected(init)| && CountFailures(Observations(init)) == |Failed(init)|
    ensures |Rtts(Observations(init + [last]))| == |Connected(init + [last])|
    ensures CountFailures(Observations(init + [last])) == |Failed(init + [last])|
  {
    assert (init + [last])[..|init|] == init;
    NotedCount(Observations(init), last);
    ConnectedNext(init, last);
    FailedNext(init, last);
  }

  lemma {:induction false} NotedCount(h: seq<Observation>, o: Outcome)
    ensures |Rtts(h + Noted(o))| == |Rtts(h)| + if o.result == 0 then 1 else 0
    ensures CountFailures(h + Noted(o)) == CountFailures(h) + if o.result != 0 && o.result != 107 then 1 else 0
  {
    if o.result == 107 {
      assert h + Noted(o) == h;
    } else {
      var x := if o.result == 0 then Success(o.rtt) else Failure;
      RttsAppend(h, x);
      FailuresAppend(h, x);
    }
  }

  lemma {:induction false} ConnectedNext(init: seq<Outcome>, last: Outcome)
    ensures |Connected(init + [last])| == |Connected(init)| + if last.result == 0 then 1 else 0
  {
    var all := init + [last];
    assert Connected(all) == if last.result == 0 then Connected(init) + {|init|} else Connected(init);
  }

  lemma {:induction false} FailedNext(init: seq<Outcome>, last: Outcome)
    ensures |Failed(init + [last])| == |Failed(init)| + if last.result != 0 && last.result != 107 then 1 else 0
  {
    var all := init + [last];
    assert Failed(all) == if last.result != 0 && last.result != 107 then Failed(init) + {|init|} else Failed(init);
  }

  lemma {:induction false} FailuresAppend(h: seq<Observation>, x: Observation)
    ensures CountFailures(h + [x]) == CountFailures(h) + if x.Failure? then 1 else 0
  {
    assert (h + [x])[..|h|] == h;
  }

  /** The result pass on one target, cycle after cycle. */
  function Consume(item: Item, outcomes: seq<Outcome>): Item {
    if outcomes == [] then item
    else Accounted(Consume(item, outcomes[..|outcomes| - 1]).(last := outcomes[|outcomes| - 1]))
  }

  lemma {:induction false} ConsumeTracks(item: Item, outcomes: seq<Outcome>)
    requires Tracks(item, [])
    ensures Tracks(Consume(item, outcomes), Observations(outcomes))
    ensures Consume(item, outcomes).resolveOk == item.resolveOk
  {
    if outcomes != [] {
      var init, o := outcomes[..|outcomes| - 1], outcomes[|outcomes| - 1];
      ConsumeTracks(item, init);
      AccountedTracks(Consume(item, init).(last := o), Observations(init));
    }
  }

  /** The same on the mutable statistics and diagnostics of a target. */
  class Target {
    const stats: Stats
    const diag: Diag
    var last: Outcome

    ghost function Counters(): Tally
      reads stats
    {
      Tally(stats.attempts, stats.connects, stats.failures,
            stats.total, stats.totalSq, stats.minimum, stats.maximum)
    }

    /** The value the target list is modelled with. */
    ghost function AsItem(resolveOk: bool): Item
      reads this, stats, diag
    {
      Item(resolveOk, last, Counters(), diag.LinkState(), diag.LatencyState())
    }

    /** Everything kept about the target is a function of the observations made. */
    ghost predicate Valid()
      reads stats, diag, stats.samples
    {
      && stats.Valid() && diag.Valid()
      && Counters() == TallyOf(diag.seen) && stats.added == Rtts(diag.seen)
    }

    constructor (resolveOk: bool, dnsMs: real, silent: bool, last: Outcome)
      ensures Valid() && fresh({stats, diag, stats.samples})
      ensures diag.seen == [] && this.last == last && diag.dnsFailed == !resolveOk
    {
      var statistics := new Stats();
      var diagnostics := new Diag(silent);
      diagnostics.SetDns(dnsMs, !resolveOk);
      stats, diag, this.last := statistics, diagnostics, last;
    }

    /** Process the result waiting in the scratch fields; `grow` is the fate of a reallocation. */
    method Account(grow: bool) returns (interrupted: bool)
      requires Valid()
      modifies stats, stats.samples, diag
      ensures Valid() && diag.seen == old(diag.seen) + Noted(last)
      ensures interrupted <==> last.result == 107
      ensures last.result == 107 ==> Counters() == old(Counters()) && diag.seen == old(diag.seen)
      ensures last.result == 0 ==>
                && stats.connects == old(stats.connects) + 1 && stats.failures == old(stats.failures)
                && stats.added == old(stats.added) + [last.rtt] && diag.consecFails == 0
      ensures last.result != 0 && last.result != 107 ==>
                && stats.failures == old(stats.failures) + 1 && stats.connects == old(stats.connects)
                && stats.added == old(stats.added) && diag.consecFails == old(diag.consecFails) + 1
      ensures stats.samples == old(stats.samples) || fresh(stats.samples)
      ensures diag.dnsFailed == old(diag.dnsFailed)
    {
      if last.result == PINGDD_INTERRUPTED {
        return true;
      }
      interrupted := false;
      var success := last.result == SUCCESS;
      TallyAppend(diag.seen, if success then Success(last.rtt) else Failure);
      RttsAppend(diag.seen, if success then Success(last.rtt) else Failure);
      LinkAppend(diag.seen, if success then Success(last.rtt) else Failure);
      CountResult(success, grow);
      diag.Observe(success, last.rtt);
    }

    method CountResult(success: bool, grow: bool)
      requires stats.Valid()
      modifies stats, stats.samples
      ensures stats.Valid() && Counters() == Count(old(Counters()), if success then Success(last.rtt) else Failure)
      ensures stats.added == if success then old(stats.added) + [last.rtt] else old(stats.added)
      ensures stats.samples == old(stats.samples) || fresh(stats.samples)
    {
      if success {
        stats.AddSample(last.rtt, grow);
        stats.connects := stats.connects + 1;
      } else {
        stats.failures := stats.failures + 1;
      }
      stats.attempts := stats.attempts + 1;
    }

    /** As a value, the target tracks its history; so Account does to it what Accounted does to the value. */
    lemma {:induction false} AsValue(resolveOk: bool)
      requires Valid()
      ensures Tracks(AsItem(resolveOk), diag.seen)
      ensures Tracks(Accounted(AsItem(resolveOk)), diag.seen + Noted(last))
    {
      AccountedTracks(AsItem(resolveOk), diag.seen);
    }

    /** The counters of a target: one attempt for each observation, connects plus failures. */
    lemma {:induction false} Summary()
      requires Valid()
      ensures stats.attempts == stats.connects + stats.failures == |diag.seen|
      ensures stats.connects == |stats.added|
    {
      TallyMeaning(diag.seen);
    }
  }

  // ---- All targets ----

  predicate Ascending(rt: seq<nat>) {
    forall i, j :: 0 <= i < j < |rt| ==> rt[i] < rt[j]
  }

  predicate Within(rt: seq<nat>, n: nat) {
    forall k :: 0 <= k < |rt| ==> rt[k] < n
  }

  /** The positions of the resolved targets, in list order. */
  method BuildRt(items: array<Item>) returns (rt: seq<nat>)
    ensures Ascending(rt) && Within(rt, items.Length)
    ensures forall i :: 0 <= i < items.Length ==> (items[i].resolveOk <==> i in rt)
  {
    rt := [];
    for i := 0 to items.Length
      invariant Ascending(rt) && Within(rt, i)
      invariant forall j :: 0 <= j < i ==> (items[j].resolveOk <==> j in rt)
    {
      if items[i].resolveOk {
        rt := rt + [i];
      }
    }
  }

  /**
   One sequential sweep.  `stop(n, k)` is whether the interrupt flag is found set after probe k of cycle n;
   `done` is how many targets were probed.
   */
  method Sweep(items: array<Item>, rt: seq<nat>, n: nat, oracle: (nat, nat) -> Outcome, stop: (nat, nat) -> bool)
    returns (done: nat)
    requires Ascending(rt) && Within(rt, items.Length)
    modifies items
    ensures done <= |rt| && (done < |rt| ==> 0 < done && stop(n, done - 1))
    ensures forall k :: 0 <= k < done - 1 ==> !stop(n, k)
    ensures forall k :: 0 <= k < |rt| ==>
              items[rt[k]] == old(items[rt[k]]).(last := if k < done then oracle(n, k) else old(items[rt[k]]).last)
    ensures forall i :: 0 <= i < items.Length && i !in rt ==> items[i] == old(items[i])
  {
    done := 0;
    while done < |rt|
      invariant done <= |rt|
      invariant forall k :: 0 <= k < done ==> !stop(n, k)
      invariant forall k :: 0 <= k < |rt| ==>
                  items[rt[k]] == old(items[rt[k]]).(last := if k < done then oracle(n, k) else old(items[rt[k]]).last)
      invariant forall i :: 0 <= i < items.Length && i !in rt ==> items[i] == old(items[i])
    {
      items[rt[done]] := items[rt[done]].(last := oracle(n, done));
      done := done + 1;
      if stop(n, done - 1) {
        return;
      }
    }
  }

  /** One of the first k results is an interrupt. */
  ghost predicate SomeInterrupted(items: seq<Item>, rt: seq<nat>, k: nat)
    requires Within(rt, |items|) && k <= |rt|
  {
    exists j :: 0 <= j < k && items[rt[j]].last.result == PINGDD_INTERRUPTED
  }

  /** Process the results in target order. */
  method ResultPass(items: array<Item>, rt: seq<nat>) returns (interrupted: bool)
    requires Ascending(rt) && Within(rt, items.Length)
    modifies items
    ensures forall k :: 0 <= k < |rt| ==> items[rt[k]] == Accounted(old(items[rt[k]]))
    ensures forall i :: 0 <= i < items.Length && i !in rt ==> items[i] == old(items[i])
    ensures interrupted <==> SomeInterrupted(old(items[..]), rt, |rt|)
  {
    interrupted := false;
    ghost var was := items[..];
    for k := 0 to |rt|
      invariant forall i :: 0 <= i < items.Length ==>
                  items[i] == if i in rt[..k] then Accounted(was[i]) else was[i]
      invariant interrupted <==> SomeInterrupted(was, rt, k)
    {
      assert rt[..k + 1] == rt[..k] + [rt[k]] && rt[k] !in rt[..k];
      if items[rt[k]].last.result == PINGDD_INTERRUPTED {
        interrupted := true;
      } else {
        items[rt[k]] := Accounted(items[rt[k]]);
      }
    }
    assert rt[..|rt|] == rt;
  }

  /** Each resolved target's statistics and diagnostics are those of its history. */
  ghost predicate AllTrack(items: seq<Item>, rt: seq<nat>, hs: seq<seq<Observation>>)
    requires Within(rt, |items|)
  {
    |hs| == |rt| && forall k :: 0 <= k < |rt| ==> Tracks(items[rt[k]], hs[k])
  }

  /** The outcomes of the first n cycles for target k. */
  function OutcomesOf(oracle: (nat, nat) -> Outcome, n: nat, k: nat): seq<Outcome> {
    seq(n, c requires 0 <= c < n => oracle(c + 1, k))
  }

  lemma {:induction false} ObservationsNext(oracle: (nat, nat) -> Outcome, n: nat, k: nat)
    ensures Observations(OutcomesOf(oracle, n + 1, k))
         == Observations(OutcomesOf(oracle, n, k)) + Noted(oracle(n + 1, k))
  {
    assert OutcomesOf(oracle, n + 1, k)[..n] == OutcomesOf(oracle, n, k);
  }

  // ---- Probing all targets, one after the other or in the pool ----

  /** The pool was created for the targets at the positions rt. */
  ghost predicate Serves(c: Config, rt: seq<nat>, items: nat) {
    ValidConfig(c) && c.rt == rt && c.items == items
  }

  /** In some run of the pool, s is the state in which the n-th Cpool_RunCycle returns. */
  ghost predicate AfterCycle(c: Config, s: State, n: nat) {
    exists trace, actions, i: nat ::
      Pool.Run(c, trace, actions) && i < |trace| && trace[i] == s && s.main == Returned && s.cycle == n
  }

  lemma {:induction false} FinishedOutcome(c: Config, s: State, k: nat)
    requires Scratch(c, s) && k < |c.rt| && k in s.finished
    ensures c.rt[k] < |s.scratch| && s.scratch[c.rt[k]] == c.oracle(s.cycle, k)
  {
    var j :| 0 <= j < |s.finished| && s.finished[j] == k;
  }

  lemma {:induction false} ReturnedInv(c: Config, s: State, n: nat)
    requires ValidConfig(c) && AfterCycle(c, s, n)
    ensures Inv(c, s) && s.main == Returned && s.cycle == n
  {
    var trace, actions, i: nat :|
      Pool.Run(c, trace, actions) && i < |trace| && trace[i] == s && s.main == Returned && s.cycle == n;
    InvRun(c, trace, actions, i);
  }

  lemma {:induction false} PoolScratch(c: Config, s: State, n: nat, k: nat)
    requires ValidConfig(c) && AfterCycle(c, s, n) && k < |c.rt|
    ensures c.rt[k] < |s.scratch| && s.scratch[c.rt[k]] == c.oracle(n, k)
  {
    ReturnedInv(c, s, n);
    AllFinished(c, s);
    FinishedOutcome(c, s, k);
  }

  /** There is such a state for every cycle, whatever the scratch fields were at first. */
  lemma {:induction false} EveryCycleReturns(c: Config, scratch: seq<Outcome>, n: nat) returns (s: State)
    requires ValidConfig(c) && |scratch| == c.items && 1 <= n
    ensures AfterCycle(c, s, n)
  {
    var before, acts := PoolLiveness.CyclesRun(c, scratch, n - 1);
    var trace, actions := PoolLiveness.CycleAfter(c, before, acts);
    s := trace[|actions|];
  }

  /** A cycle of the pool: the scratch fields of the targets are what its threads left there. */
  method PoolCycle(items: array<Item>, rt: seq<nat>, s: State, ghost c: Config, ghost n: nat)
    requires Ascending(rt) && Within(rt, items.Length) && Serves(c, rt, items.Length) && AfterCycle(c, s, n)
    modifies items
    ensures forall k :: 0 <= k < |rt| ==> items[rt[k]] == old(items[rt[k]]).(last := c.oracle(n, k))
    ensures forall i :: 0 <= i < items.Length && i !in rt ==> items[i] == old(items[i])
  {
    for k := 0 to |rt|
      invariant forall j :: 0 <= j < k ==> items[rt[j]] == old(items[rt[j]]).(last := c.oracle(n, j))
      invariant forall j :: k <= j < |rt| ==> items[rt[j]] == old(items[rt[j]])
      invariant forall i :: 0 <= i < items.Length && i !in rt ==> items[i] == old(items[i])
    {
      PoolScratch(c, s, n, k);
      items[rt[k]] := items[rt[k]].(last := s.scratch[rt[k]]);
    }
  }

  /** Either way; `done` is how many targets were probed, all of them unless a sweep was interrupted. */
  method ProbeAll(items: array<Item>, rt: seq<nat>, pool: bool, s: State, n: nat, oracle: (nat, nat) -> Outcome,
                  stop: (nat, nat) -> bool, ghost c: Config)
    returns (done: nat)
    requires Ascending(rt) && Within(rt, items.Length)
    requires pool ==> Serves(c, rt, items.Length) && c.oracle == oracle && AfterCycle(c, s, n)
    modifies items
    ensures done <= |rt| && (done < |rt| ==> !pool && 0 < done && stop(n, done - 1))
    ensures !pool ==> forall k :: 0 <= k < done - 1 ==> !stop(n, k)
    ensures forall k :: 0 <= k < |rt| ==>
              items[rt[k]] == old(items[rt[k]]).(last := if k < done then oracle(n, k) else old(items[rt[k]]).last)
    ensures forall i :: 0 <= i < items.Length && i !in rt ==> items[i] == old(items[i])
  {
    if pool {
      PoolCycle(items, rt, s, c, n);
      done := |rt|;
    } else {
      done := Sweep(items, rt, n, oracle, stop);
    }
  }

  function Lasts(items: seq<Item>): (r: seq<Outcome>)
    ensures |r| == |items|
  {
    seq(|items|, i requires 0 <= i < |items| => items[i].last)
  }

  /** The uninterrupted sweep of the loop is the one the pool was shown to refine. */
  lemma {:induction false} SweepsAgree(c: Config, before: seq<Item>, after: seq<Item>, n: nat)
    requires |before| == |after| && Serves(c, c.rt, |before|)
    requires forall k :: 0 <= k < |c.rt| ==> after[c.rt[k]] == before[c.rt[k]].(last := c.oracle(n, k))
    requires forall i :: 0 <= i < |before| && i !in c.rt ==> after[i] == before[i]
    ensures Lasts(after) == PoolSafety.Sweep(c, Lasts(before), n, 0)
  {
    var swept := PoolSafety.Sweep(c, Lasts(before), n, 0);
    forall i | 0 <= i < |before| ensures Lasts(after)[i] == swept[i] {
      SweepAt(c, Lasts(before), n, 0, i);
      if i in c.rt {
        var k :| 0 <= k < |c.rt| && c.rt[k] == i;
        assert swept[i] == c.oracle(n, k);
      } else {
        assert forall j :: 0 <= j < |c.rt| ==> c.rt[j] != i;
      }
    }
  }

  /** One cycle: all probes, then the result pass.  `stopped` is whether a sweep ended on the interrupt flag. */
  method Cycle(items: array<Item>, rt: seq<nat>, pool: bool, s: State, n: nat, oracle: (nat, nat) -> Outcome,
               stop: (nat, nat) -> bool, ghost c: Config, ghost hs: seq<seq<Observation>>)
      returns (stopped: bool, interrupted: bool, ghost done: nat, ghost next: seq<seq<Observation>>)
    requires Ascending(rt) && Within(rt, items.Length) && AllTrack(items[..], rt, hs)
    requires pool ==> Serves(c, rt, items.Length) && c.oracle == oracle && AfterCycle(c, s, n)
    modifies items
    ensures AllTrack(items[..], rt, next) && done <= |rt|
    ensures forall k :: 0 <= k < |rt| ==>
              && items[rt[k]].last == (if k < done then oracle(n, k) else old(items[rt[k]]).last)
              && next[k] == hs[k] + Noted(items[rt[k]].last)
    ensures stopped <==> !pool && 0 < done && stop(n, done - 1)
    ensures !stopped ==> done == |rt|
    ensures !pool ==> forall k: nat :: k + 1 < done ==> !stop(n, k)
    ensures !pool && !stopped ==> forall k: nat :: k < |rt| ==> !stop(n, k)
    ensures interrupted <==> SomeInterrupted(items[..], rt, |rt|)
  {
    var probed := ProbeAll(items, rt, pool, s, n, oracle, stop, c);
    ghost var swept := items[..];
    interrupted := ResultPass(items, rt);
    stopped := !pool && probed > 0 && stop(n, probed - 1);
    done := probed;
    next := seq(|rt|, k requires 0 <= k < |rt| => hs[k] + Noted(swept[rt[k]].last));
    forall k | 0 <= k < |rt| ensures Tracks(items[rt[k]], next[k]) {
      AccountedTracks(swept[rt[k]], hs[k]);
    }
  }

  /** The outcome left in the scratch fields of target k by the last of n whole cycles. */
  function LastOf(oracle: (nat, nat) -> Outcome, n: nat, k: nat, initial: Outcome): Outcome {
    if n == 0 then initial else oracle(n, k)
  }

  /** After n whole cycles: every target has the observations of its n outcomes, the last of them in its scratch. */
  ghost predicate Completed(items: seq<Item>, rt: seq<nat>, initial: seq<Item>, oracle: (nat, nat) -> Outcome, n: nat,
                            hs: seq<seq<Observation>>)
    requires Within(rt, |items|) && |initial| == |items|
  {
    && AllTrack(items, rt, hs)
    && forall k :: 0 <= k < |rt| ==>
         && hs[k] == Observations(OutcomesOf(oracle, n, k))
         && items[rt[k]].last == LastOf(oracle, n, k, initial[rt[k]].last)
  }

  /** After a broken run: `done` targets of one more cycle were probed, the others account their old result again. */
  ghost predicate Broken(items: seq<Item>, rt: seq<nat>, initial: seq<Item>, oracle: (nat, nat) -> Outcome, n: nat,
                         done: nat, hs: seq<seq<Observation>>)
    requires Within(rt, |items|) && |initial| == |items|
  {
    && AllTrack(items, rt, hs) && done <= |rt|
    && forall k :: 0 <= k < |rt| ==>
         var found := if k < done then oracle(n + 1, k) else LastOf(oracle, n, k, initial[rt[k]].last);
         hs[k] == Observations(OutcomesOf(oracle, n, k)) + Noted(found)
  }

  lemma {:induction false} CycleAdds(was: seq<Item>, now: seq<Item>, rt: seq<nat>, initial: seq<Item>,
                                     oracle: (nat, nat) -> Outcome, n: nat, done: nat,
                                     hs: seq<seq<Observation>>, next: seq<seq<Observation>>)
    requires Within(rt, |was|) && |initial| == |was| == |now| && Completed(was, rt, initial, oracle, n, hs)
    requires AllTrack(now, rt, next) && done <= |rt|
    requires forall k :: 0 <= k < |rt| ==>
               && now[rt[k]].last == (if k < done then oracle(n + 1, k) else was[rt[k]].last)
               && next[k] == hs[k] + Noted(now[rt[k]].last)
    ensures Broken(now, rt, initial, oracle, n, done, next)
    ensures done == |rt| ==> Completed(now, rt, initial, oracle, n + 1, next)
  {
    forall k | 0 <= k < |rt| && done == |rt| ensures next[k] == Observations(OutcomesOf(oracle, n + 1, k)) {
      ObservationsNext(oracle, n, k);
    }
  }

  /** Cycle n meets no interrupt: no probe reports one, and the flag is not seen during its sweep or after it. */
  ghost predicate Undisturbed(rt: seq<nat>, pool: bool, oracle: (nat, nat) -> Outcome, stop: (nat, nat) -> bool,
                              hit: nat -> bool, n: nat)
  {
    && !hit(n)
    && forall k: nat :: k < |rt| ==> oracle(n, k).result != PINGDD_INTERRUPTED && (pool || !stop(n, k))
  }

  /** It is disturbed by the flag after it, by a probe with code 107, or by the flag after some probe of a sweep. */
  lemma {:induction false} DisturbedIff(rt: seq<nat>, pool: bool, oracle: (nat, nat) -> Outcome,
                                        stop: (nat, nat) -> bool, hit: nat -> bool, n: nat)
    ensures !Undisturbed(rt, pool, oracle, stop, hit, n)
       <==> || hit(n)
            || (exists k: nat :: k < |rt| && oracle(n, k).result == 107)
            || (!pool && exists k: nat :: k < |rt| && stop(n, k))
  {
    if k: nat :| k < |rt| && !pool && stop(n, k) {
      assert oracle(n, k).result == oracle(n, k).result;
    }
  }

  ghost predicate AllUndisturbed(rt: seq<nat>, pool: bool, oracle: (nat, nat) -> Outcome, stop: (nat, nat) -> bool,
                                 hit: nat -> bool, cycles: nat)
  {
    forall n: nat :: 1 <= n <= cycles ==> Undisturbed(rt, pool, oracle, stop, hit, n)
  }

  /** The first n cycles were begun: neither the flag nor the deadline nor the count kept them from it. */
  ghost predicate Began(flag: nat -> bool, late: nat -> bool, count: int, n: nat) {
    forall m: nat :: m < n ==> !flag(m) && !late(m) && (count == -1 || m < count)
  }

  /** What keeps a cycle from being begun: the flag or the deadline before it or an earlier one, or the count. */
  lemma {:induction false} NotBegunIff(flag: nat -> bool, late: nat -> bool, count: int, n: nat)
    requires -1 <= count
    ensures !Began(flag, late, count, n)
       <==> (exists m: nat :: m < n && flag(m)) || (exists m: nat :: m < n && late(m)) || 0 <= count < n
  {
    if 0 <= count < n {
      // The cycle the count forbids.
      var m: nat := count;
      var free := !flag(m) && !late(m) && m < count;
    }
    if Began(flag, late, count, n) {
      forall m: nat | m < n ensures !flag(m) && !late(m) {
      }
    } else {
      var m: nat :| m < n && !(!flag(m) && !late(m) && (count == -1 || m < count));
    }
  }

  lemma {:induction false} UndisturbedNext(rt: seq<nat>, pool: bool, oracle: (nat, nat) -> Outcome,
                                           stop: (nat, nat) -> bool, hit: nat -> bool, n: nat)
    requires AllUndisturbed(rt, pool, oracle, stop, hit, n) && Undisturbed(rt, pool, oracle, stop, hit, n + 1)
    ensures AllUndisturbed(rt, pool, oracle, stop, hit, n + 1)
  {
  }

  lemma {:induction false} BeganNext(flag: nat -> bool, late: nat -> bool, count: int, n: nat)
    requires Began(flag, late, count, n) && !flag(n) && !late(n) && (count == -1 || n < count)
    ensures Began(flag, late, count, n + 1)
  {
  }

  /** How far cycle n got: to the end with a pool, otherwise up to the first probe after which the flag was seen. */
  ghost predicate ProbedTo(rt: seq<nat>, pool: bool, stop: (nat, nat) -> bool, n: nat, done: nat) {
    && done <= |rt|
    && (!pool ==> forall k: nat :: k + 1 < done ==> !stop(n, k))
    && (done < |rt| ==> !pool && 0 < done && stop(n, done - 1))
  }

  lemma {:induction false} BreaksIffDisturbed(now: seq<Item>, rt: seq<nat>, pool: bool, oracle: (nat, nat) -> Outcome,
                                              stop: (nat, nat) -> bool, hit: nat -> bool, n: nat, done: nat,
                                              stopped: bool, interrupted: bool)
    requires Within(rt, |now|) && done <= |rt|
    requires forall k :: 0 <= k < done ==> now[rt[k]].last == oracle(n, k)
    requires stopped <==> !pool && 0 < done && stop(n, done - 1)
    requires !stopped ==> done == |rt|
    requires !pool && !stopped ==> forall k: nat :: k < |rt| ==> !stop(n, k)
    requires interrupted <==> SomeInterrupted(now, rt, |rt|)
    ensures stopped || hit(n) || interrupted <==> !Undisturbed(rt, pool, oracle, stop, hit, n)
  {
    if stopped {
      assert oracle(n, done - 1).result == oracle(n, done - 1).result && stop(n, done - 1);
    } else {
      assert forall k: nat :: k < |rt| ==> now[rt[k]].last == oracle(n, k);
    }
  }

  /** The states after(n) are those in which the pool's cycles return. */
  ghost predicate Supplies(c: Config, rt: seq<nat>, items: nat, oracle: (nat, nat) -> Outcome, after: nat -> State) {
    && Serves(c, rt, items) && c.oracle == oracle
    && forall n: nat :: 1 <= n ==> AfterCycle(c, after(n), n)
  }

  lemma {:induction false} SuppliesNext(c: Config, rt: seq<nat>, items: nat, oracle: (nat, nat) -> Outcome,
                                        after: nat -> State, pool: bool, n: nat)
    requires 1 <= n && (pool ==> Supplies(c, rt, items, oracle, after))
    ensures pool ==> Serves(c, rt, items) && c.oracle == oracle && AfterCycle(c, after(n), n)
  {
  }

  /** The body of the loop, for cycle n + 1: it breaks exactly if the cycle is disturbed. */
  method Turn(items: array<Item>, rt: seq<nat>, pool: bool, s: State, oracle: (nat, nat) -> Outcome,
              stop: (nat, nat) -> bool, hit: nat -> bool, n: nat,
              ghost c: Config, ghost initial: seq<Item>, ghost hs: seq<seq<Observation>>)
    returns (broken: bool, ghost done: nat, ghost next: seq<seq<Observation>>)
    requires Ascending(rt) && Within(rt, items.Length) && |initial| == items.Length
    requires pool ==> Serves(c, rt, items.Length) && c.oracle == oracle && AfterCycle(c, s, n + 1)
    requires Completed(items[..], rt, initial, oracle, n, hs)
    modifies items
    ensures broken <==> !Undisturbed(rt, pool, oracle, stop, hit, n + 1)
    ensures Broken(items[..], rt, initial, oracle, n, done, next) && ProbedTo(rt, pool, stop, n + 1, done)
    ensures !broken ==> Completed(items[..], rt, initial, oracle, n + 1, next)
  {
    ghost var was := items[..];
    var stopped, interrupted;
    stopped, interrupted, done, next := Cycle(items, rt, pool, s, n + 1, oracle, stop, c, hs);
    CycleAdds(was, items[..], rt, initial, oracle, n, done, hs, next);
    BreaksIffDisturbed(items[..], rt, pool, oracle, stop, hit, n + 1, done, stopped, interrupted);
    broken := stopped || hit(n + 1) || interrupted;
  }

  /** The body of the loop in its place: cycle n + 1 is begun, and all cycles before it were undisturbed. */
  method NextTurn(items: array<Item>, rt: seq<nat>, count: int, pool: bool, after: nat -> State,
                  oracle: (nat, nat) -> Outcome, flag: nat -> bool, late: nat -> bool,
                  stop: (nat, nat) -> bool, hit: nat -> bool, n: nat,
                  ghost c: Config, ghost initial: seq<Item>, ghost hs: seq<seq<Observation>>)
    returns (broken: bool, ghost done: nat, ghost next: seq<seq<Observation>>)
    requires Ascending(rt) && Within(rt, items.Length) && |initial| == items.Length
    requires pool ==> Supplies(c, rt, items.Length, oracle, after)
    requires Completed(items[..], rt, initial, oracle, n, hs) && AllUndisturbed(rt, pool, oracle, stop, hit, n)
    requires Began(flag, late, count, n) && !flag(n) && !late(n) && (count == -1 || n < count)
    modifies items
    ensures Began(flag, late, count, n + 1)
    ensures if broken
            then !Undisturbed(rt, pool, oracle, stop, hit, n + 1) && ProbedTo(rt, pool, stop, n + 1, done)
                 && Broken(items[..], rt, initial, oracle, n, done, next)
            else AllUndisturbed(rt, pool, oracle, stop, hit, n + 1)
                 && Completed(items[..], rt, initial, oracle, n + 1, next)
  {
    SuppliesNext(c, rt, items.Length, oracle, after, pool, n + 1);
    BeganNext(flag, late, count, n);
    broken, done, next := Turn(items, rt, pool, after(n + 1), oracle, stop, hit, n, c, initial, hs);
    if !broken {
      UndisturbedNext(rt, pool, oracle, stop, hit, n);
    }
  }

  /**
   The probe loop.  `flag(n)` and `late(n)` are what the interrupt flag and the deadline check say
   before cycle n + 1, `stop(n, k)` what the flag says after probe k of cycle n and `hit(n)` what it
   says after the result pass (once set it stays set); `count` is -1 for no limit; the environment
   ends the run by cycle `horizon` at the latest.  With a pool, after(n) is the pool's state when its
   n-th cycle returns.  `cycles` counts the cycles completed: the loop ends before a cycle, or breaks
   in the first one that is disturbed.
   */
  method Run(items: array<Item>, rt: seq<nat>, count: int, pool: bool, after: nat -> State,
             oracle: (nat, nat) -> Outcome, flag: nat -> bool, late: nat -> bool,
             stop: (nat, nat) -> bool, hit: nat -> bool, horizon: nat, ghost c: Config)
      returns (cycles: nat, broken: bool, ghost done: nat, ghost hs: seq<seq<Observation>>)
    requires Ascending(rt) && Within(rt, items.Length)
    requires forall k :: 0 <= k < |rt| ==> Tracks(items[rt[k]], [])
    requires -1 <= count && (count == -1 ==> forall n: nat :: horizon <= n ==> flag(n) || late(n))
    requires pool ==> Supplies(c, rt, items.Length, oracle, after)
    modifies items
    ensures AllTrack(items[..], rt, hs)
    ensures !broken ==> Completed(items[..], rt, old(items[..]), oracle, cycles, hs)
    ensures broken ==> Broken(items[..], rt, old(items[..]), oracle, cycles, done, hs)
    ensures AllUndisturbed(rt, pool, oracle, stop, hit, cycles)
    ensures broken ==> !Undisturbed(rt, pool, oracle, stop, hit, cycles + 1)
    ensures broken ==> ProbedTo(rt, pool, stop, cycles + 1, done)
    ensures Began(flag, late, count, if broken then cycles + 1 else cycles)
    ensures !broken ==> flag(cycles) || late(cycles) || cycles == count
  {
    cycles, broken, done := 0, false, 0;
    hs := seq(|rt|, _ => []);
    ghost var initial := items[..];
    while !flag(cycles) && (count == -1 || cycles < count)
      invariant !broken && Completed(items[..], rt, initial, oracle, cycles, hs)
      invariant count == -1 || cycles <= count
      invariant AllUndisturbed(rt, pool, oracle, stop, hit, cycles) && Began(flag, late, count, cycles)
      decreases if count == -1 then horizon - cycles else count - cycles
    {
      if late(cycles) {
        break;
      }
      broken, done, hs :=
        NextTurn(items, rt, count, pool, after, oracle, flag, late, stop, hit, cycles, c, initial, hs);
      if broken {
        break;
      }
      cycles := cycles + 1;
    }
  }

  // ---- Whose results a broken run accounts ----

  /** The result that target k, not reached by the broken sweep, had before. */
  function Leftover(rt: seq<nat>, initial: seq<Item>, oracle: (nat, nat) -> Outcome, n: nat, k: nat): Outcome
    requires Within(rt, |initial|) && k < |rt|
  {
    LastOf(oracle, n, k, initial[rt[k]].last)
  }

  /** The histories of the targets' own probes: n whole cycles, and `done` probes of one more. */
  ghost predicate OwnProbesOnly(rt: seq<nat>, oracle: (nat, nat) -> Outcome, n: nat, done: nat,
                                hs: seq<seq<Observation>>)
  {
    && |hs| == |rt|
    && forall k :: 0 <= k < |rt| ==>
         hs[k] == Observations(OutcomesOf(oracle, n, k)) + if k < done then Noted(oracle(n + 1, k)) else []
  }

  /** Every history is that of the target's own probes iff each unreached target's old result was an interrupt. */
  lemma {:induction false} OwnProbesExactly(items: seq<Item>, rt: seq<nat>, initial: seq<Item>,
                                            oracle: (nat, nat) -> Outcome, n: nat, done: nat, hs: seq<seq<Observation>>)
    requires Within(rt, |items|) && |initial| == |items| && Broken(items, rt, initial, oracle, n, done, hs)
    ensures OwnProbesOnly(rt, oracle, n, done, hs)
       <==> forall k :: done <= k < |rt| ==> Leftover(rt, initial, oracle, n, k).result == PINGDD_INTERRUPTED
  {
    forall k | done <= k < |rt|
      ensures hs[k] == Observations(OutcomesOf(oracle, n, k))
         <==> Leftover(rt, initial, oracle, n, k).result == PINGDD_INTERRUPTED
    {
      var own, noted := Observations(OutcomesOf(oracle, n, k)), Noted(Leftover(rt, initial, oracle, n, k));
      assert hs[k] == own + noted;
      assert |hs[k]| == |own| + |noted|;
      assert noted == [] ==> own + noted == own;
    }
    forall k | done <= k < |rt|
      ensures var own := Observations(OutcomesOf(oracle, n, k)); own + [] == own
    {
    }
  }

  /**
   A broken run that completed a cycle, or began with scratch fields that hold no interrupt (as zeroed ones do):
   every history is that of the target's own probes iff the broken cycle probed all targets.
   */
  lemma {:induction false} OwnProbesIff(items: seq<Item>, rt: seq<nat>, initial: seq<Item>,
                                        oracle: (nat, nat) -> Outcome, n: nat, done: nat, hs: seq<seq<Observation>>)
    requires Within(rt, |items|) && |initial| == |items| && Broken(items, rt, initial, oracle, n, done, hs)
    requires forall k :: 0 <= k < |rt| ==> Leftover(rt, initial, oracle, n, k).result != PINGDD_INTERRUPTED
    ensures OwnProbesOnly(rt, oracle, n, done, hs) <==> done == |rt|
  {
    OwnProbesExactly(items, rt, initial, oracle, n, done, hs);
    if done < |rt| {
      assert Leftover(rt, initial, oracle, n, done).result != PINGDD_INTERRUPTED;
    }
  }

  /** A target as it is built: resolved, with zeroed scratch fields, empty statistics and fresh diagnostics. */
  function BuiltItem(): Item {
    Item(true, Outcome(SUCCESS, 0.0, "", 0), TallyOf([]), LinkOf([]), Track(Rtts([])))
  }

  /**
   Two targets, and the flag is seen after the very first probe: the second target is accounted a success
   with a round-trip time of zero, although it was never probed.
   */
  method NeverProbedWitness(first: Outcome) returns (unreached: Item, broken: bool)
    ensures broken && unreached.tally == Tally(1, 1, 0, 0.0, 0.0, 0.0, 0.0)
    ensures Tracks(unreached, [Success(0.0)])
  {
    var items := new Item[2](_ => BuiltItem());
    ghost var initial := items[..];
    var rt: seq<nat>, oracle, stop := [0, 1], (n: nat, k: nat) => first, (n: nat, k: nat) => n == 1 && k == 0;
    var never, hit := (n: nat) => false, (n: nat) => false;
    var unused := (n: nat) => State(Nobody, 0, 0, 0, false, 0, [], Idle, [], 0, [], [], []);
    ghost var c := Config(rt, 2, 2, oracle);
    var cycles;
    ghost var done, hs;
    cycles, broken, done, hs := Run(items, rt, 1, false, unused, oracle, never, never, stop, hit, 0, c);
    unreached := items[1];
    assert stop(1, 0) && oracle(1, 0) == first;
    assert !Undisturbed(rt, false, oracle, stop, hit, 1);
    NeverProbedHistory(items[..], rt, initial, oracle, done, hs);
  }

  lemma {:induction false} NeverProbedHistory(items: seq<Item>, rt: seq<nat>, initial: seq<Item>,
                                              oracle: (nat, nat) -> Outcome, done: nat, hs: seq<seq<Observation>>)
    requires rt == [0, 1] && |items| == |initial| == 2 && initial[1] == BuiltItem() && done == 1
    requires Within(rt, |items|) && Broken(items, rt, initial, oracle, 0, done, hs)
    ensures Tracks(items[1], [Success(0.0)]) && items[1].tally == Tally(1, 1, 0, 0.0, 0.0, 0.0, 0.0)
  {
    assert OutcomesOf(oracle, 0, 1) == [];
    assert Noted(initial[1].last) == [Success(0.0)];
    assert hs[1] == [] + [Success(0.0)] == [Success(0.0)];
    assert Tracks(items[rt[1]], hs[1]);
    TallyAppend([], Success(0.0));
    assert [] + [Success(0.0)] == [Success(0.0)];
  }

  // ---- The two schedulers agree ----

  /** When a cycle of the pool returns, accounting a target appends to its history exactly what its own probe yields. */
  lemma {:induction false} PoolAccounts(c: Config, s: State, n: nat, k: nat, item: Item, h: seq<Observation>)
    requires ValidConfig(c) && AfterCycle(c, s, n) && k < |c.rt|
    requires c.rt[k] < |s.scratch| && item.last == s.scratch[c.rt[k]] && Tracks(item, h)
    ensures Tracks(Accounted(item), h + Noted(c.oracle(n, k)))
  {
    PoolScratch(c, s, n, k);
    AccountedTracks(item, h);
  }

  /**
   Between cycles of the pool, the result pass has made of every target the statistics and diagnostics
   that an uninterrupted sequential run of as many cycles leaves: y is such a target's item.
   */
  lemma {:induction false} SchedulersAgree(c: Config, trace: seq<State>, actions: seq<Action>, i: nat, k: nat,
                                           start: Item, y: Item)
    requires ValidConfig(c) && Pool.Run(c, trace, actions) && i < |trace| && k < |c.rt|
    requires trace[i].main == Idle && Tracks(start, []) && y.resolveOk == start.resolveOk
    requires Tracks(y, Observations(OutcomesOf(c.oracle, trace[i].cycle, k)))
    ensures k < |trace[i].history|
    ensures Consume(start, trace[i].history[k]).(last := y.last) == y
  {
    RefinesSequential(c, trace, actions, i, k);
    InvRun(c, trace, actions, i);
    SequentialHistoryIs(c, trace[0].scratch, trace[i].cycle, k);
    assert OutcomesOf(c.oracle, trace[i].cycle, k) == trace[i].history[k];
    ConsumeTracks(start, trace[i].history[k]);
  }
}
