/** Load testing: worker counters, their merge, the ramp and the knee of src/loadtest.c. */
module LoadTest {
  import opened Probe
  import opened Reals
  import opened Options
  import opened Moments

  const MAX_CONCURRENCY: nat := 256

  datatype LoadResult = LoadResult(attempts: nat, success: nat, failed: nat,
                                   total: real, totalSq: real, min: real, max: real)

  const ZERO: LoadResult := LoadResult(0, 0, 0, 0.0, 0.0, 0.0, 0.0)

  /** The successful round-trip times. */
  function Samples(tries: seq<Outcome>): seq<real> {
    if tries == [] then []
    else
      var last := tries[|tries| - 1];
      if last.result == SUCCESS then Samples(tries[..|tries| - 1]) + [last.rtt] else Samples(tries[..|tries| - 1])
  }

  function Failures(tries: seq<Outcome>): nat {
    if tries == [] then 0
    else
      var r := tries[|tries| - 1].result;
      Failures(tries[..|tries| - 1]) + if r != SUCCESS && r != PINGDD_INTERRUPTED then 1 else 0
  }

  function Interrupts(tries: seq<Outcome>): nat {
    if tries == [] then 0
    else Interrupts(tries[..|tries| - 1]) + if tries[|tries| - 1].result == PINGDD_INTERRUPTED then 1 else 0
  }

  /** A worker stops at its first interrupted attempt. */
  function Ran(script: seq<Outcome>): seq<Outcome> {
    if script == [] then []
    else if script[0].result == PINGDD_INTERRUPTED then [script[0]]
    else [script[0]] + Ran(script[1..])
  }

  /** The counters after these attempts. */
  function Counted(tries: seq<Outcome>): LoadResult {
    var s := Samples(tries);
    LoadResult(|tries|, |s|, Failures(tries), Sum(s), SumSq(s), Least(s), Greatest(s))
  }

  lemma {:induction false} CountedNext(tries: seq<Outcome>, t: Outcome)
    ensures Samples(tries + [t]) == if t.result == SUCCESS then Samples(tries) + [t.rtt] else Samples(tries)
    ensures Failures(tries + [t])
         == Failures(tries) + if t.result != SUCCESS && t.result != PINGDD_INTERRUPTED then 1 else 0
    ensures Interrupts(tries + [t]) == Interrupts(tries) + if t.result == PINGDD_INTERRUPTED then 1 else 0
  {
    assert (tries + [t])[..|tries|] == tries;
  }

  lemma {:induction false} SamplesNext(s: seq<real>, x: real)
    ensures Sum(s + [x]) == Sum(s) + x && SumSq(s + [x]) == SumSq(s) + x * x
    ensures Least(s + [x]) == if x < Least(s) then x else Least(s)
    ensures Greatest(s + [x]) == if x > Greatest(s) then x else Greatest(s)
  {
    SumAppend(Identity, s, x);
    SumAppend(Square, s, x);
    assert (s + [x])[..|s|] == s;
  }

  /** The part of the script that is left after `done`, and no interrupt so far. */
  lemma {:induction false} RanNext(script: seq<Outcome>, i: nat)
    requires i < |script| && Ran(script) == script[..i] + Ran(script[i..])
    ensures if script[i].result == PINGDD_INTERRUPTED then Ran(script) == script[..i] + [script[i]]
            else Ran(script) == script[..i + 1] + Ran(script[i + 1..])
  {
    assert script[i..][1..] == script[i + 1..] && script[i..][0] == script[i];
    assert script[..i + 1] == script[..i] + [script[i]];
  }

  /** What one attempt does to the counters. */
  function Step(r: LoadResult, t: Outcome): LoadResult {
    if t.result == SUCCESS then
      LoadResult(r.attempts + 1, r.success + 1, r.failed, r.total + t.rtt, r.totalSq + t.rtt * t.rtt,
                 if t.rtt < r.min then t.rtt else r.min, if t.rtt > r.max then t.rtt else r.max)
    else if t.result == PINGDD_INTERRUPTED then r.(attempts := r.attempts + 1)
    else r.(attempts := r.attempts + 1, failed := r.failed + 1)
  }

  lemma {:induction false} CountedStep(tries: seq<Outcome>, t: Outcome)
    ensures Counted(tries + [t]) == Step(Counted(tries), t)
  {
    CountedNext(tries, t);
    SamplesNext(Samples(tries), t.rtt);
  }

  /** By the codes: 0 is a success with its time, 107 an interrupt and no more than an attempt, others are failures. */
  lemma {:induction false} CountedMeaning(tries: seq<Outcome>, t: Outcome)
    ensures var was, now := Counted(tries), Counted(tries + [t]);
      && now.attempts == was.attempts + 1
      && now.success == was.success + (if t.result == 0 then 1 else 0)
      && now.failed == was.failed + (if t.result != 0 && t.result != 107 then 1 else 0)
      && (if t.result == 0
          then now.total == was.total + t.rtt && now.totalSq == was.totalSq + t.rtt * t.rtt
               && now.min <= t.rtt <= now.max && now.min <= was.min && was.max <= now.max
          else now.total == was.total && now.totalSq == was.totalSq && now.min == was.min && now.max == was.max)
  {
    CountedStep(tries, t);
  }

  /** One attempt is counted in place. */
  method Count(args: array<LoadResult>, n: nat, t: Outcome)
    requires n < args.Length
    modifies args
    ensures args[n] == Step(old(args[n]), t)
    ensures forall k :: 0 <= k < args.Length && k != n ==> args[k] == old(args[k])
  {
    args[n] := args[n].(attempts := args[n].attempts + 1);
    if t.result == SUCCESS {
      args[n] := args[n].(success := args[n].success + 1, total := args[n].total + t.rtt,
                          totalSq := args[n].totalSq + t.rtt * t.rtt);
      if t.rtt < args[n].min {
        args[n] := args[n].(min := t.rtt);
      }
      if t.rtt > args[n].max {
        args[n] := args[n].(max := t.rtt);
      }
    } else if t.result != PINGDD_INTERRUPTED {
      args[n] := args[n].(failed := args[n].failed + 1);
    }
  }

  /** A worker; the script holds the results of its attempts for as long as its loop condition holds. */
  method WorkerMain(args: array<LoadResult>, n: nat, script: seq<Outcome>)
    requires n < args.Length && args[n] == ZERO
    modifies args
    ensures args[n] == Counted(Ran(script))
    ensures forall k :: 0 <= k < args.Length && k != n ==> args[k] == old(args[k])
  {
    args[n] := args[n].(min := DBL_MAX, max := 0.0);
    var i := 0;
    assert script[0..] == script;
    while i < |script|
      invariant 0 <= i <= |script| && Ran(script) == script[..i] + Ran(script[i..])
      invariant args[n] == Counted(script[..i])
      invariant forall k :: 0 <= k < args.Length && k != n ==> args[k] == old(args[k])
    {
      RanNext(script, i);
      CountedStep(script[..i], script[i]);
      Count(args, n, script[i]);
      if script[i].result == PINGDD_INTERRUPTED {
        return;
      }
      assert script[..i + 1] == script[..i] + [script[i]];
      i := i + 1;
    }
    assert script[..i] == Ran(script);
  }

  /** An attempt is a success, a failure or the interrupt that ends the worker. */
  lemma {:induction false} AttemptsSplit(tries: seq<Outcome>)
    ensures |tries| == |Samples(tries)| + Failures(tries) + Interrupts(tries)
  {
    if tries != [] {
      AttemptsSplit(tries[..|tries| - 1]);
    }
  }

  lemma {:induction false} InterruptsConcat(a: seq<Outcome>, b: seq<Outcome>)
    ensures Interrupts(a + b) == Interrupts(a) + Interrupts(b)
  {
    if b == [] {
      assert a + b == a;
    } else {
      InterruptsConcat(a, b[..|b| - 1]);
      assert (a + b)[..|a + b| - 1] == a + b[..|b| - 1];
    }
  }

  lemma {:induction false} OneInterrupt(script: seq<Outcome>)
    ensures Interrupts(Ran(script)) <= 1
  {
    if script != [] {
      var first := [script[0]];
      assert first[..0] == [];
      if script[0].result != PINGDD_INTERRUPTED {
        OneInterrupt(script[1..]);
        InterruptsConcat(first, Ran(script[1..]));
      }
    }
  }

  // ---- The merge ----

  function Attempts(runs: seq<seq<Outcome>>): nat {
    if runs == [] then 0 else Attempts(runs[..|runs| - 1]) + |runs[|runs| - 1]|
  }

  function AllFailures(runs: seq<seq<Outcome>>): nat {
    if runs == [] then 0 else AllFailures(runs[..|runs| - 1]) + Failures(runs[|runs| - 1])
  }

  /** The successful round-trip times of all workers. */
  function Pool(runs: seq<seq<Outcome>>): seq<real> {
    if runs == [] then [] else Pool(runs[..|runs| - 1]) + Samples(runs[|runs| - 1])
  }

  /** One computation over the attempts of all workers. */
  function Merged(runs: seq<seq<Outcome>>): LoadResult {
    var p := Pool(runs);
    LoadResult(Attempts(runs), |p|, AllFailures(runs), Sum(p), SumSq(p), Least(p), Greatest(p))
  }

  /** The attempts of all workers in one list. */
  function Listed(runs: seq<seq<Outcome>>): seq<Outcome> {
    if runs == [] then [] else Listed(runs[..|runs| - 1]) + runs[|runs| - 1]
  }

  lemma {:induction false} SamplesConcat(a: seq<Outcome>, b: seq<Outcome>)
    ensures Samples(a + b) == Samples(a) + Samples(b)
  {
    if b == [] {
      assert a + b == a;
    } else {
      var init, last := b[..|b| - 1], b[|b| - 1];
      SamplesConcat(a, init);
      CountedNext(a + init, last);
      assert a + b == (a + init) + [last];
    }
  }

  lemma {:induction false} FailuresConcat(a: seq<Outcome>, b: seq<Outcome>)
    ensures Failures(a + b) == Failures(a) + Failures(b)
  {
    if b == [] {
      assert a + b == a;
    } else {
      FailuresConcat(a, b[..|b| - 1]);
      assert (a + b)[..|a + b| - 1] == a + b[..|b| - 1];
    }
  }

  lemma {:induction false} ListedTotals(runs: seq<seq<Outcome>>)
    ensures |Listed(runs)| == Attempts(runs) && Failures(Listed(runs)) == AllFailures(runs)
    ensures Samples(Listed(runs)) == Pool(runs)
  {
    if runs != [] {
      ListedTotals(runs[..|runs| - 1]);
      SamplesConcat(Listed(runs[..|runs| - 1]), runs[|runs| - 1]);
      FailuresConcat(Listed(runs[..|runs| - 1]), runs[|runs| - 1]);
    }
  }

  /** Merging the workers' counters is counting all their attempts in one list. */
  lemma {:induction false} MergedIsCounted(runs: seq<seq<Outcome>>)
    ensures Merged(runs) == Counted(Listed(runs))
  {
    ListedTotals(runs);
  }

  /** What one worker's result does to the merged one. */
  function Include(out: LoadResult, r: LoadResult): LoadResult {
    LoadResult(out.attempts + r.attempts, out.success + r.success, out.failed + r.failed,
               out.total + r.total, out.totalSq + r.totalSq,
               if r.success > 0 && r.min < out.min then r.min else out.min,
               if r.max > out.max then r.max else out.max)
  }

  lemma {:induction false} PoolSums(p: seq<real>, s: seq<real>)
    ensures Sum(p + s) == Sum(p) + Sum(s) && SumSq(p + s) == SumSq(p) + SumSq(s)
  {
    SumConcat(Identity, p, s);
    SumConcat(Square, p, s);
  }

  lemma {:induction false} PoolExtremes(p: seq<real>, s: seq<real>)
    ensures Least(p + s) == if |s| > 0 && Least(s) < Least(p) then Least(s) else Least(p)
    ensures Greatest(p + s) == if Greatest(s) > Greatest(p) then Greatest(s) else Greatest(p)
  {
    assert multiset(p + s) == multiset(p) + multiset(s);
    LeastPooled(p, s, p + s);
    GreatestPooled(p, s, p + s);
    LeastBounds(p);
  }

  lemma {:induction false} MergedNext(runs: seq<seq<Outcome>>, run: seq<Outcome>)
    ensures Merged(runs + [run]) == Include(Merged(runs), Counted(run))
  {
    assert (runs + [run])[..|runs|] == runs;
    PoolSums(Pool(runs), Samples(run));
    PoolExtremes(Pool(runs), Samples(run));
  }

  /** The loop's body. */
  method MergeOne(merged: LoadResult, r: LoadResult) returns (out: LoadResult)
    ensures out == Include(merged, r)
  {
    out := merged.(attempts := merged.attempts + r.attempts, success := merged.success + r.success,
                   failed := merged.failed + r.failed, total := merged.total + r.total,
                   totalSq := merged.totalSq + r.totalSq);
    if r.success > 0 && r.min < out.min {
      out := out.(min := r.min);
    }
    if r.max > out.max {
      out := out.(max := r.max);
    }
  }

  /** The workers' results are merged into one; no success leaves a minimum of zero. */
  method Merge(args: array<LoadResult>, started: nat, ghost runs: seq<seq<Outcome>>) returns (out: LoadResult)
    requires started == |runs| <= args.Length
    requires forall n :: 0 <= n < started ==> args[n] == Counted(runs[n])
    ensures out == if Pool(runs) == [] then Merged(runs).(min := 0.0) else Merged(runs)
  {
    out := ZERO.(min := DBL_MAX, max := 0.0);
    for n := 0 to started
      invariant out == Merged(runs[..n])
    {
      MergedNext(runs[..n], runs[n]);
      assert runs[..n + 1] == runs[..n] + [runs[n]];
      out := MergeOne(out, args[n]);
    }
    assert runs[..started] == runs;
    if out.success == 0 {
      out := out.(min := 0.0);
    }
  }

  function Clamp(concurrency: nat): (c: nat)
    ensures 1 <= c <= 256 && (1 <= concurrency <= 256 ==> c == concurrency) && (256 < concurrency ==> c == 256)
  {
    if concurrency < 1 then 1 else if concurrency > MAX_CONCURRENCY then MAX_CONCURRENCY else concurrency
  }

  ghost function RunsOf(scripts: seq<seq<Outcome>>, n: nat): seq<seq<Outcome>>
    requires n <= |scripts|
  {
    seq(n, (i: nat) requires i < n => Ran(scripts[i]))
  }

  /** The attempts up to the first interrupt, code 107, or all of them. */
  lemma {:induction false} RanMeaning(script: seq<Outcome>)
    ensures Ran(script) <= script
    ensures forall i :: 0 <= i < |Ran(script)| - 1 ==> script[i].result != 107
    ensures |Ran(script)| < |script| ==> Ran(script) != [] && script[|Ran(script)| - 1].result == 107
  {
    if script != [] && script[0].result != PINGDD_INTERRUPTED {
      RanMeaning(script[1..]);
      assert forall i :: 1 <= i < |script| ==> script[i] == script[1..][i - 1];
    }
  }

  /** A worker's counters after k of its steps: the first one sets up the extremes, every other one is an attempt. */
  function Snapshot(script: seq<Outcome>, k: nat): LoadResult {
    if k == 0 then ZERO
    else Counted(if k - 1 < |Ran(script)| then Ran(script)[..k - 1] else Ran(script))
  }

  /** One step of worker w, which has taken k; a worker that has left its loop does nothing. */
  method WorkerStep(args: array<LoadResult>, w: nat, script: seq<Outcome>, k: nat)
    requires w < args.Length && args[w] == Snapshot(script, k)
    modifies args
    ensures args[w] == Snapshot(script, k + 1)
    ensures forall v :: 0 <= v < args.Length && v != w ==> args[v] == old(args[v])
  {
    var ran := Ran(script);
    if k == 0 {
      args[w] := args[w].(min := DBL_MAX, max := 0.0);
      assert ran[..0] == [];
    } else if k - 1 < |ran| {
      RanMeaning(script);
      CountedStep(ran[..k - 1], ran[k - 1]);
      assert ran[..k] == ran[..k - 1] + [ran[k - 1]] && ran[..|ran|] == ran;
      Count(args, w, script[k - 1]);
    }
  }

  /** A worker left alone takes |script| + 1 steps; they are the loop of WorkerMain. */
  lemma {:induction false} AloneIsMain(script: seq<Outcome>)
    ensures Snapshot(script, |script| + 1) == Counted(Ran(script))
  {
    RanMeaning(script);
    assert |Ran(script)| == |script| ==> Ran(script)[..|script|] == Ran(script);
  }

  /** How many of the first i steps of the schedule are those of worker w. */
  function Turns(schedule: seq<nat>, i: nat, w: nat): nat
    requires i <= |schedule|
  {
    if i == 0 then 0 else Turns(schedule, i - 1, w) + if schedule[i - 1] == w then 1 else 0
  }

  /** Every worker gets to the end of its script before it is joined. */
  ghost predicate Finishes(schedule: seq<nat>, scripts: seq<seq<Outcome>>, started: nat)
    requires started <= |scripts|
  {
    forall w :: 0 <= w < started ==> Turns(schedule, |schedule|, w) > |scripts[w]|
  }

  lemma {:induction false} SnapshotAtEnd(script: seq<Outcome>, k: nat)
    requires k > |script|
    ensures Snapshot(script, k) == Counted(Ran(script))
  {
    RanMeaning(script);
  }

  /** After i steps of the schedule each worker's counters are those after its own steps among them. */
  ghost predicate Scheduled(args: seq<LoadResult>, started: nat, scripts: seq<seq<Outcome>>, schedule: seq<nat>, i: nat)
    requires started <= |args| && started <= |scripts| && i <= |schedule|
  {
    forall w :: 0 <= w < started ==> args[w] == Snapshot(scripts[w], Turns(schedule, i, w))
  }

  method TakeTurn(args: array<LoadResult>, started: nat, scripts: seq<seq<Outcome>>, schedule: seq<nat>, i: nat)
    requires started <= args.Length && started <= |scripts| && i < |schedule|
    requires Scheduled(args[..], started, scripts, schedule, i)
    modifies args
    ensures Scheduled(args[..], started, scripts, schedule, i + 1)
  {
    var w := schedule[i];
    if w < started {
      WorkerStep(args, w, scripts[w], Turns(schedule, i, w));
    }
  }

  /** The workers run concurrently: the schedule is any interleaving of their steps that lets all of them finish. */
  method Interleave(args: array<LoadResult>, started: nat, scripts: seq<seq<Outcome>>, schedule: seq<nat>)
    requires started <= args.Length && started <= |scripts| && Finishes(schedule, scripts, started)
    requires forall w :: 0 <= w < started ==> args[w] == ZERO
    modifies args
    ensures forall w :: 0 <= w < started ==> args[w] == Counted(Ran(scripts[w]))
  {
    for i := 0 to |schedule|
      invariant Scheduled(args[..], started, scripts, schedule, i)
    {
      TakeTurn(args, started, scripts, schedule, i);
    }
    forall w | 0 <= w < started ensures args[w] == Counted(Ran(scripts[w])) {
      SnapshotAtEnd(scripts[w], Turns(schedule, |schedule|, w));
    }
  }

  /**
   A load test; alloc tells whether the arrays can be allocated, and thread creation fails at the thread
   `refused`, if it gets that far.
   */
  method Run(concurrency: nat, alloc: bool, refused: nat, scripts: seq<seq<Outcome>>, schedule: seq<nat>)
    returns (ok: bool, started: nat, out: LoadResult)
    requires |scripts| >= Clamp(concurrency)
    requires Finishes(schedule, scripts, if refused < Clamp(concurrency) then refused else Clamp(concurrency))
    ensures ok <==> alloc
    ensures ok ==> started <= |scripts|
    ensures ok ==> started == if refused < Clamp(concurrency) then refused else Clamp(concurrency)
    ensures ok ==> var runs := RunsOf(scripts, started);
      out == if Pool(runs) == [] then Merged(runs).(min := 0.0) else Merged(runs)
  {
    started, out := 0, ZERO;
    var conc := Clamp(concurrency);
    if !alloc {
      return false, 0, ZERO;
    }
    var args := new LoadResult[conc](_ => ZERO);
    while started < conc
      invariant started <= conc && started <= refused
    {
      if started == refused {
        break;
      }
      started := started + 1;
    }
    Interleave(args, started, scripts, schedule);
    ghost var runs := RunsOf(scripts, started);
    assert forall n :: 0 <= n < started ==> args[n] == Counted(runs[n]);
    out := Merge(args, started, runs);
    ok := true;
  }

  /** Every attempt is accounted for, but for at most one interrupted attempt per worker. */
  lemma {:induction false} AttemptsBounded(scripts: seq<seq<Outcome>>, n: nat)
    requires n <= |scripts|
    ensures var m := Merged(RunsOf(scripts, n)); m.success + m.failed <= m.attempts <= m.success + m.failed + n
  {
    if n > 0 {
      AttemptsBounded(scripts, n - 1);
      var run := Ran(scripts[n - 1]);
      MergedNext(RunsOf(scripts, n - 1), run);
      assert RunsOf(scripts, n) == RunsOf(scripts, n - 1) + [run];
      AttemptsSplit(run);
      OneInterrupt(scripts[n - 1]);
    }
  }

  /** Mean and variance reported are those of one pass over any interleaving of the workers' samples. */
  lemma {:induction false} PooledMoments(runs: seq<seq<Outcome>>, mixed: seq<real>)
    requires multiset(mixed) == multiset(Pool(runs)) && mixed != []
    ensures var m := Merged(runs);
      && m.success == |mixed| && m.total / m.success as real == Mean(mixed)
      && OnePassVariance(m.success, m.total, m.totalSq) == SquaredDeviations(mixed, Mean(mixed)) / |mixed| as real
      && m.min == Least(mixed) && m.max == Greatest(mixed)
  {
    var p := Pool(runs);
    assert |multiset(p)| == |multiset(mixed)|;
    SumPermutation(Identity, p, mixed);
    SumPermutation(Square, p, mixed);
    assert multiset(p) == multiset(mixed) + multiset([]);
    LeastPooled(mixed, [], p);
    GreatestPooled(mixed, [], p);
    LeastBounds(mixed);
    GreatestBounds(mixed);
    VarianceIsMeanSquare(mixed);
  }

  // ---- The resilience sweep ----

  function PowerOfTwo(n: nat): nat { if n == 0 then 1 else 2 * PowerOfTwo(n - 1) }

  /** 1, 2, 4, ... up to and including the clamped maximum; the array never runs full. */
  method BuildRamp(concurrency: nat) returns (levels: array<nat>, count: nat)
    ensures levels.Length == 16 && 1 <= count <= 9
    ensures levels[count - 1] == Clamp(concurrency)
    ensures forall i :: 0 <= i < count - 1 ==> levels[i] == PowerOfTwo(i) < Clamp(concurrency)
    ensures Clamp(concurrency) <= PowerOfTwo(count - 1)
    ensures levels[0] == 1 && forall i :: 0 <= i < count - 2 ==> levels[i + 1] == 2 * levels[i]
  {
    var maxConc := Clamp(concurrency);
    levels := new nat[16];
    count := 0;
    var lvl := 1;
    assert PowerOfTwo(8) == 256;
    while lvl < maxConc && count < 15
      invariant count <= 8 && lvl == PowerOfTwo(count)
      invariant forall i :: 0 <= i < count ==> levels[i] == PowerOfTwo(i) < maxConc
      decreases 15 - count
    {
      levels[count] := lvl;
      count := count + 1;
      lvl := lvl * 2;
    }
    levels[count] := maxConc;
    count := count + 1;
  }

  function AvgMs(r: LoadResult): real { if r.success == 0 then 0.0 else r.total / r.success as real * 1000.0 }

  function LossPct(r: LoadResult): real {
    if r.attempts == 0 then 0.0 else r.failed as real / r.attempts as real * 100.0
  }

  /** Loss more than two points above the first level's, or more than twice its average time. */
  predicate Degraded(base: LoadResult, r: LoadResult) {
    LossPct(r) > LossPct(base) + 2.0 || (AvgMs(base) > 0.0 && AvgMs(r) > AvgMs(base) * 2.0)
  }

  /** Failures in a hundred attempts, and the milliseconds of one success. */
  lemma {:induction false} MeasuresMeaning(r: LoadResult)
    ensures r.attempts > 0 ==> LossPct(r) * r.attempts as real == 100.0 * r.failed as real
    ensures r.success > 0 ==> AvgMs(r) * r.success as real == 1000.0 * r.total
    ensures (r.attempts == 0 ==> LossPct(r) == 0.0) && (r.success == 0 ==> AvgMs(r) == 0.0)
  {
    Rescaled(r.failed as real, r.attempts as real, 100.0);
    Rescaled(r.total, r.success as real, 1000.0);
  }

  lemma {:induction false} Rescaled(a: real, n: real, c: real)
    ensures n != 0.0 ==> (a / n * c) * n == c * a
  {
    if n != 0.0 {
      var q := a / n;
      assert q * n == a;
      assert (q * c) * n == c * (q * n);
    }
  }

  /** More than two points of loss, or more than twice the time of a first level that has any. */
  lemma {:induction false} DegradedMeaning(base: LoadResult, r: LoadResult)
    ensures LossPct(r) - LossPct(base) > 2.0 ==> Degraded(base, r)
    ensures LossPct(r) - LossPct(base) <= 2.0 ==>
              (Degraded(base, r) <==> AvgMs(base) > 0.0 && AvgMs(r) > AvgMs(base) + AvgMs(base))
  {
  }

  /** The knee is the first degraded level of those measured; it is never the first level of all. */
  method FindKnee(results: seq<LoadResult>) returns (knee: Option<nat>)
    ensures knee.None? <==> forall i :: 0 <= i < |results| ==> !Degraded(results[0], results[i])
    ensures knee.Some? ==>
      && 0 < knee.value < |results| && Degraded(results[0], results[knee.value])
      && forall i :: 0 <= i < knee.value ==> !Degraded(results[0], results[i])
  {
    knee := None;
    var baselineAvg, baselineLoss := 0.0, 0.0;
    for idx := 0 to |results|
      invariant idx > 0 ==> baselineAvg == AvgMs(results[0]) && baselineLoss == LossPct(results[0])
      invariant knee.None? ==> forall i :: 0 <= i < idx ==> !Degraded(results[0], results[i])
      invariant knee.Some? ==>
        && 0 < knee.value < idx && Degraded(results[0], results[knee.value])
        && forall i :: 0 <= i < knee.value ==> !Degraded(results[0], results[i])
    {
      var avg, loss := AvgMs(results[idx]), LossPct(results[idx]);
      if idx == 0 {
        baselineAvg, baselineLoss := avg, loss;
      }
      if loss > baselineLoss + 2.0 || (baselineAvg > 0.0 && avg > baselineAvg * 2.0) {
        if knee.None? {
          knee := Some(idx);
        }
      }
    }
  }
}
