/** What the pool guarantees in every interleaving, and that it refines the sequential sweep. */
module PoolSafety {
  import opened Probe
  import opened Pool
  import opened PoolInvariant

  // ---- Every target exactly once per cycle ----

  /** The step from trace[j] is the return of Probe_One for index k, in cycle n. */
  ghost predicate ProbeReturns(s: State, a: Action, n: nat, k: nat) {
    a.WorkerStep? && a.w < |s.workers| && s.workers[a.w].pc == Probing(k) && s.cycle == n
  }

  /** How often, in the first `upto` steps, Probe_One returned for index k in cycle n. */
  ghost function Probes(trace: seq<State>, actions: seq<Action>, upto: nat, n: nat, k: nat): nat
    requires upto <= |actions| < |trace|
  {
    if upto == 0 then 0
    else Probes(trace, actions, upto - 1, n, k)
         + (if ProbeReturns(trace[upto - 1], actions[upto - 1], n, k) then 1 else 0)
  }

  /** In closed cycles every index was probed once; in the current one, as `finished` says; later ones, never. */
  ghost function ExpectedProbes(c: Config, s: State, n: nat, k: nat): nat {
    if n == s.cycle then multiset(s.finished)[k]
    else if 0 < n < s.cycle && k < |c.rt| then 1 else 0
  }

  lemma {:induction false} DistinctCount(s: seq<nat>, k: nat)
    requires forall i, j :: 0 <= i < j < |s| ==> s[i] != s[j]
    ensures multiset(s)[k] == if k in s then 1 else 0
  {
    if s != [] {
      DistinctCount(s[1..], k);
      assert s == [s[0]] + s[1..];
    }
  }

  lemma {:induction false} FinishedCount(c: Config, s: State, k: nat)
    requires Inv(c, s) && !CycleOpen(s.main) && 0 < s.cycle
    ensures multiset(s.finished)[k] == if k < |c.rt| then 1 else 0
  {
    AllFinished(c, s);
    DistinctCount(s.finished, k);
  }

  lemma {:induction false} OpenStep(c: Config, s: State, n: nat, k: nat)
    requires ValidConfig(c) && Inv(c, s) && s.main == RunOpen && MainEnabled(s)
    ensures ExpectedProbes(c, StepMain(c, s), n, k) == ExpectedProbes(c, s, n, k)
  {
    if n == s.cycle && 0 < n {
      FinishedCount(c, s, k);
    }
  }

  lemma {:induction false} RecordStep(c: Config, s: State, a: Action)
    requires Enabled(s, a)
    ensures var t := Step(c, s, a);
      if a.MainStep? && s.main == RunOpen then
        t.cycle == s.cycle + 1 && t.finished == []
      else
        t.cycle == s.cycle
        && t.finished
             == s.finished + (if a.WorkerStep? && s.workers[a.w].pc.Probing? then [s.workers[a.w].pc.idx] else [])
  {
  }

  lemma {:induction false} ProbeStep(c: Config, s: State, a: Action, n: nat, k: nat)
    requires ValidConfig(c) && Inv(c, s) && Enabled(s, a)
    ensures ExpectedProbes(c, Step(c, s, a), n, k)
         == ExpectedProbes(c, s, n, k) + (if ProbeReturns(s, a, n, k) then 1 else 0)
  {
    if a.MainStep? && s.main == RunOpen {
      OpenStep(c, s, n, k);
    } else {
      RecordStep(c, s, a);
    }
  }

  lemma {:induction false} ProbesCounted(c: Config, trace: seq<State>, actions: seq<Action>, i: nat, n: nat, k: nat)
    requires ValidConfig(c) && Run(c, trace, actions) && i < |trace|
    ensures Probes(trace, actions, i, n, k) == ExpectedProbes(c, trace[i], n, k)
  {
    if 0 < i {
      ProbesCounted(c, trace, actions, i - 1, n, k);
      InvRun(c, trace, actions, i - 1);
      ProbeStep(c, trace[i - 1], actions[i - 1], n, k);
    }
  }

  /**
   When Cpool_RunCycle has returned, every index below Rc has been probed exactly once
   in that cycle and in each earlier one, nothing else has been probed, and no probe is in flight.
   */
  lemma {:induction false} EachTargetOnce(c: Config, trace: seq<State>, actions: seq<Action>, i: nat, n: nat, k: nat)
    requires ValidConfig(c) && Run(c, trace, actions) && i < |trace|
    requires trace[i].main == Returned && 1 <= n <= trace[i].cycle
    ensures Probes(trace, actions, i, n, k) == if k < |c.rt| then 1 else 0
    ensures forall w :: 0 <= w < |trace[i].workers| ==> !trace[i].workers[w].pc.Probing?
  {
    InvRun(c, trace, actions, i);
    ProbesCounted(c, trace, actions, i, n, k);
    FinishedCount(c, trace[i], k);
    AllFinished(c, trace[i]);
  }

  /** At no moment do two workers hold the same index, and an index held is one of the targets. */
  lemma {:induction false} NoIndexShared(c: Config, trace: seq<State>, actions: seq<Action>, i: nat, v: nat, w: nat)
    requires ValidConfig(c) && Run(c, trace, actions) && i < |trace|
    requires v < |trace[i].workers| && w < |trace[i].workers| && v != w
    requires trace[i].workers[v].pc.Probing? && trace[i].workers[w].pc.Probing?
    ensures trace[i].workers[v].pc.idx != trace[i].workers[w].pc.idx
    ensures trace[i].workers[v].pc.idx < |c.rt|
  {
    InvRun(c, trace, actions, i);
  }

  // ---- Waiting ----

  /**
   No lost wakeup.  Outside critical sections a worker in StartCv's wait set has seen the
   current generation and there is no shutdown, and a main thread in DoneCv's wait set has
   workers left to wait for.
   */
  lemma {:induction false} NoLostWakeup(c: Config, trace: seq<State>, actions: seq<Action>, i: nat)
    requires ValidConfig(c) && Run(c, trace, actions) && i < |trace|
    requires trace[i].owner == Nobody
    ensures forall w :: 0 <= w < |trace[i].workers| && trace[i].workers[w].pc == Asleep ==>
              trace[i].workers[w].seen == trace[i].gen && !trace[i].shutdown
    ensures trace[i].main == RunAsleep ==> 0 < trace[i].remaining
  {
    InvRun(c, trace, actions, i);
  }

  // ---- Generations ----

  ghost function BusySet(s: State): set<nat> {
    set w | 0 <= w < |s.workers| && Busy(s.workers[w], s.cycle)
  }

  lemma {:induction false} CountIsCardinality(ws: seq<Worker>, cycle: nat)
    ensures CountBusy(ws, cycle) == |set w | 0 <= w < |ws| && Busy(ws[w], cycle)|
  {
    if ws != [] {
      var n := |ws| - 1;
      CountIsCardinality(ws[..n], cycle);
      var rest := set w | 0 <= w < n && Busy(ws[..n][w], cycle);
      assert (set w | 0 <= w < |ws| && Busy(ws[w], cycle)) == rest + (if Busy(ws[n], cycle) then {n} else {});
    }
  }

  ghost predicate SeenOrSuccessor(c: Config, s: State, w: Worker) {
    && (s.gen == w.seen || s.gen == Next(w.seen, c.modulus))
    && (s.gen == w.seen <==> w.joined == s.cycle)
    && (w.joined == s.cycle || w.joined + 1 == s.cycle)
  }

  /**
   Gen, of whatever unsigned width, is a worker's `seen` or its successor; they are equal just when
   the worker has joined every cycle so far; Remaining is the number of threads not yet
   checked out of the current generation.
   */
  lemma {:induction false} GenerationBarrier(c: Config, trace: seq<State>, actions: seq<Action>, i: nat)
    requires ValidConfig(c) && Run(c, trace, actions) && i < |trace|
    ensures trace[i].remaining == |BusySet(trace[i])|
    ensures forall w :: 0 <= w < |trace[i].workers| && trace[i].workers[w].pc != Absent ==>
              SeenOrSuccessor(c, trace[i], trace[i].workers[w])
  {
    var s := trace[i];
    InvRun(c, trace, actions, i);
    CountIsCardinality(s.workers, s.cycle);
    forall w | 0 <= w < |s.workers| && s.workers[w].pc != Absent
      ensures SeenOrSuccessor(c, s, s.workers[w])
    {
      assert GenerationOf(c, s, s.workers[w]);
      SeenRelation(c, s, s.workers[w]);
    }
  }

  lemma {:induction false} SeenRelation(c: Config, s: State, w: Worker)
    requires s.gen == Wrap(s.cycle, c.modulus) && w.seen == Wrap(w.joined, c.modulus)
    requires w.joined == s.cycle || w.joined + 1 == s.cycle
    ensures SeenOrSuccessor(c, s, w)
  {
    if w.joined + 1 == s.cycle {
      assert Wrap(s.cycle, c.modulus) == Next(w.seen, c.modulus);
    }
  }

  /** Every thread has joined every cycle, once, by the time Cpool_RunCycle returns. */
  lemma {:induction false} EveryWorkerJoinsOnce(c: Config, trace: seq<State>, actions: seq<Action>, i: nat, w: nat)
    requires ValidConfig(c) && Run(c, trace, actions) && i < |trace|
    requires trace[i].main == Returned && w < trace[i].nthreads
    ensures w < |trace[i].workers| && trace[i].workers[w].joined == trace[i].cycle
    ensures trace[i].workers[w].pc != Start
  {
    InvRun(c, trace, actions, i);
    Quiet(c, trace[i]);
    assert trace[i].workers[w].pc != Absent;
    assert GenerationOf(c, trace[i], trace[i].workers[w]);
  }

  /**
   A thread first scheduled after Gen was bumped: its baseline is 0, so it differs from Gen
   and the thread still owes its part of the very first cycle.
   */
  lemma {:induction false} LateStarter(c: Config, trace: seq<State>, actions: seq<Action>, i: nat, w: nat)
    requires ValidConfig(c) && Run(c, trace, actions) && i < |trace|
    requires w < |trace[i].workers| && trace[i].workers[w].pc == Start && CycleOpen(trace[i].main)
    ensures trace[i].workers[w].seen == 0 && trace[i].gen == 1 && trace[i].cycle == 1
    ensures w in BusySet(trace[i]) && 0 < trace[i].remaining
  {
    var s := trace[i];
    InvRun(c, trace, actions, i);
    assert GenerationOf(c, s, s.workers[w]);
    assert Wrap(1, c.modulus) == 1;
    CountIsCardinality(s.workers, s.cycle);
    assert w in BusySet(s);
    if s.remaining == 0 {
      CountZero(s.workers, s.cycle, w);
    }
  }

  // ---- Refinement of the sequential scheduler ----

  /** Every target the pool serves is an item of the list. */
  predicate Fits(c: Config, scratch: seq<Outcome>) {
    forall j :: 0 <= j < |c.rt| ==> c.rt[j] < |scratch|
  }

  /** The sequential loop of the probe loop, from target k on: one probe after the other. */
  function Sweep(c: Config, scratch: seq<Outcome>, n: nat, k: nat): (r: seq<Outcome>)
    requires k <= |c.rt| && Fits(c, scratch)
    ensures |r| == |scratch|
    decreases |c.rt| - k
  {
    if k == |c.rt| then scratch
    else Sweep(c, scratch[c.rt[k] := c.oracle(n, k)], n, k + 1)
  }

  lemma {:induction false} SweepAt(c: Config, scratch: seq<Outcome>, n: nat, k: nat, t: nat)
    requires ValidConfig(c) && |scratch| == c.items && k <= |c.rt| && t < c.items
    ensures forall j :: k <= j < |c.rt| && c.rt[j] == t ==> Sweep(c, scratch, n, k)[t] == c.oracle(n, j)
    ensures (forall j :: k <= j < |c.rt| ==> c.rt[j] != t) ==> Sweep(c, scratch, n, k)[t] == scratch[t]
    decreases |c.rt| - k
  {
    if k < |c.rt| {
      SweepAt(c, scratch[c.rt[k] := c.oracle(n, k)], n, k + 1, t);
    }
  }

  /** n whole cycles of the sequential scheduler, each followed by the result pass. */
  function SequentialScratch(c: Config, scratch: seq<Outcome>, n: nat): (r: seq<Outcome>)
    requires Fits(c, scratch)
    ensures |r| == |scratch|
  {
    if n == 0 then scratch else Sweep(c, SequentialScratch(c, scratch, n - 1), n, 0)
  }

  function SequentialHistory(c: Config, scratch: seq<Outcome>, n: nat, k: nat): seq<Outcome>
    requires k < |c.rt| && Fits(c, scratch)
  {
    if n == 0 then []
    else SequentialHistory(c, scratch, n - 1, k) + [SequentialScratch(c, scratch, n)[c.rt[k]]]
  }

  lemma {:induction false} CycleItem(c: Config, s: State, t: nat)
    requires ValidConfig(c) && Shape(c, s) && Scratch(c, s) && t < c.items
    requires forall k :: 0 <= k < |c.rt| ==> k in s.finished
    ensures s.scratch[t] == Sweep(c, s.before, s.cycle, 0)[t]
  {
    SweepAt(c, s.before, s.cycle, 0, t);
    if Probed(c, s, t) {
      var k :| 0 <= k < |s.finished| && s.finished[k] < |c.rt| && c.rt[s.finished[k]] == t;
      assert s.scratch[t] == c.oracle(s.cycle, s.finished[k]);
    } else {
      forall j | 0 <= j < |c.rt| ensures c.rt[j] != t {
        assert j in s.finished;
      }
    }
  }

  /** However the threads interleave, a cycle leaves the scratch fields as the sequential sweep does. */
  lemma {:induction false} CycleIsSweep(c: Config, s: State)
    requires ValidConfig(c) && Inv(c, s) && !CycleOpen(s.main) && 0 < s.cycle
    ensures s.scratch == Sweep(c, s.before, s.cycle, 0)
  {
    AllFinished(c, s);
    forall t | 0 <= t < c.items ensures s.scratch[t] == Sweep(c, s.before, s.cycle, 0)[t] {
      CycleItem(c, s, t);
    }
  }

  /** The scratch at the opening of the current cycle is what the sequential scheduler would have there. */
  ghost predicate TracksSequential(c: Config, initial: seq<Outcome>, s: State) {
    && |initial| == c.items && Fits(c, initial)
    && s.before == SequentialScratch(c, initial, if s.cycle == 0 then 0 else s.cycle - 1)
    && (s.cycle == 0 ==> s.scratch == initial)
  }

  /** Only opening a cycle touches `before`; before the first cycle nobody probes. */
  lemma {:induction false} ScratchStep(c: Config, s: State, a: Action)
    requires Enabled(s, a) && (a.WorkerStep? ==> GenerationOf(c, s, s.workers[a.w]))
    ensures var t := Step(c, s, a);
      && (!(a.MainStep? && s.main == RunOpen) ==> t.before == s.before && t.cycle == s.cycle)
      && (s.cycle == 0 ==> t.scratch == s.scratch)
  {
  }

  /** At the opening the scratch is what the sequential scheduler has after the cycles before. */
  lemma {:induction false} TracksOpen(c: Config, initial: seq<Outcome>, s: State)
    requires ValidConfig(c) && Inv(c, s) && s.main == RunOpen && TracksSequential(c, initial, s)
    ensures s.scratch == SequentialScratch(c, initial, s.cycle)
  {
    if 0 < s.cycle {
      CycleIsSweep(c, s);
    }
  }

  lemma {:induction false} TracksStep(c: Config, initial: seq<Outcome>, s: State, a: Action)
    requires ValidConfig(c) && Inv(c, s) && Enabled(s, a) && TracksSequential(c, initial, s)
    ensures TracksSequential(c, initial, Step(c, s, a))
  {
    assert a.WorkerStep? ==> GenerationOf(c, s, s.workers[a.w]);
    ScratchStep(c, s, a);
    if a.MainStep? && s.main == RunOpen {
      TracksOpen(c, initial, s);
      assert Step(c, s, a) == Open(c, s);
    }
  }

  lemma {:induction false} TracksRun(c: Config, trace: seq<State>, actions: seq<Action>, i: nat)
    requires ValidConfig(c) && Run(c, trace, actions) && i < |trace|
    ensures TracksSequential(c, trace[0].scratch, trace[i])
  {
    if 0 < i {
      TracksRun(c, trace, actions, i - 1);
      InvRun(c, trace, actions, i - 1);
      TracksStep(c, trace[0].scratch, trace[i - 1], actions[i - 1]);
    }
  }

  lemma {:induction false} SequentialHistoryIs(c: Config, scratch: seq<Outcome>, n: nat, k: nat)
    requires ValidConfig(c) && |scratch| == c.items && k < |c.rt|
    ensures SequentialHistory(c, scratch, n, k) == seq(n, m requires 0 <= m < n => c.oracle(m + 1, k))
  {
    if 0 < n {
      SequentialHistoryIs(c, scratch, n - 1, k);
      SweepAt(c, SequentialScratch(c, scratch, n - 1), n, 0, c.rt[k]);
    }
  }

  /**
   Refinement.  Between cycles the pool has left every target's scratch fields, and has fed the
   result pass, exactly as the sequential scheduler would have after as many cycles.
   */
  lemma {:induction false} RefinesSequential(c: Config, trace: seq<State>, actions: seq<Action>, i: nat, k: nat)
    requires ValidConfig(c) && Run(c, trace, actions) && i < |trace| && k < |c.rt|
    requires trace[i].main == Idle
    ensures Fits(c, trace[0].scratch)
    ensures trace[i].scratch == SequentialScratch(c, trace[0].scratch, trace[i].cycle)
    ensures k < |trace[i].history|
    ensures trace[i].history[k] == SequentialHistory(c, trace[0].scratch, trace[i].cycle, k)
  {
    var s := trace[i];
    InvRun(c, trace, actions, i);
    TracksRun(c, trace, actions, i);
    if 0 < s.cycle {
      CycleIsSweep(c, s);
    }
    assert HistoryOf(c, s, k);
    SequentialHistoryIs(c, trace[0].scratch, s.cycle, k);
  }
}
