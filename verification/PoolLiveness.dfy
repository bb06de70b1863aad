/** Cpool_RunCycle returns: every cycle can be run to its end, and any number of cycles can be run. */
module PoolLiveness {
  import opened Probe
  import opened Pool
  import opened PoolInvariant
  import opened PoolProgress

  /** The main thread is inside Cpool_RunCycle. */
  predicate Running(m: MainPc) { m == RunLock || m == RunOpen || CycleOpen(m) }

  /** The number of the cycle it is about to open, or has opened. */
  function Current(s: State): nat { if CycleOpen(s.main) then s.cycle else s.cycle + 1 }

  lemma {:induction false} WorkerStays(c: Config, s: State, w: nat)
    requires WorkerEnabled(s, w)
    ensures var t := StepWorker(c, s, w);
      t.cycle == s.cycle && (t.main == s.main || (s.main == RunAsleep && t.main == RunWoken))
  {
  }

  /** A step inside the call stays in the call and in its cycle, or returns from it. */
  lemma {:induction false} StaysRunning(c: Config, s: State, a: Action)
    requires Enabled(s, a) && !Call(a) && Running(s.main)
    ensures var t := Step(c, s, a);
      if t.main == Returned then t.cycle == Current(s) else Running(t.main) && Current(t) == Current(s)
  {
    if a.WorkerStep? {
      WorkerStays(c, s, a.w);
    }
  }

  lemma {:induction false} OneStep(c: Config, s: State, a: Action)
    requires Enabled(s, a)
    ensures Steps(c, [s, Step(c, s, a)], [a])
  {
  }

  /** One step more in front of a stretch. */
  lemma {:induction false} StepsCons(c: Config, s: State, a: Action, trace: seq<State>, actions: seq<Action>)
    requires Steps(c, trace, actions) && Enabled(s, a) && trace[0] == Step(c, s, a)
    ensures Steps(c, [s] + trace, [a] + actions)
  {
    var all, acts := [s] + trace, [a] + actions;
    forall i | 0 <= i < |acts| ensures Enabled(all[i], acts[i]) && all[i + 1] == Step(c, all[i], acts[i]) {
      if i > 0 {
        assert Enabled(trace[i - 1], actions[i - 1]) && trace[i] == Step(c, trace[i - 1], actions[i - 1]);
      }
    }
  }

  /** Inside the call there is always a step that is neither spurious nor a call, and it makes progress. */
  lemma {:induction false} Advance(c: Config, s: State) returns (a: Action, t: State)
    requires ValidConfig(c) && Inv(c, s) && Running(s.main)
    ensures Enabled(s, a) && !Spurious(a) && !Call(a) && t == Step(c, s, a)
    ensures Inv(c, t) && 0 <= Measure(c, t) < Measure(c, s)
  {
    a := NoDeadlock(c, s);
    t := Step(c, s, a);
    Progress(c, s, a);
    InvStep(c, s, a);
    RankNonNegative(c, t);
  }

  /** From any moment inside Cpool_RunCycle some continuation, without spurious wakeups, reaches its return. */
  lemma {:induction false} CycleReturns(c: Config, s: State) returns (trace: seq<State>, actions: seq<Action>)
    requires ValidConfig(c) && Inv(c, s) && Running(s.main)
    ensures Steps(c, trace, actions) && trace[0] == s
    ensures forall a :: a in actions ==> !Spurious(a) && !Call(a)
    ensures trace[|actions|].main == Returned && trace[|actions|].cycle == Current(s)
    decreases Measure(c, s)
  {
    var a, t := Advance(c, s);
    StaysRunning(c, s, a);
    if t.main == Returned {
      OneStep(c, s, a);
      trace, actions := [s, t], [a];
    } else {
      var rest, acts := CycleReturns(c, t);
      StepsCons(c, s, a, rest, acts);
      trace, actions := [s] + rest, [a] + acts;
      assert trace[|actions|] == rest[|acts|];
    }
  }

  /** A stretch behind a run. */
  lemma {:induction false} RunAppend(c: Config, trace: seq<State>, actions: seq<Action>,
                                     more: seq<State>, acts: seq<Action>)
    requires Run(c, trace, actions) && Steps(c, more, acts) && more[0] == trace[|actions|]
    ensures Run(c, trace + more[1..], actions + acts)
    ensures (trace + more[1..])[|actions + acts|] == more[|acts|]
  {
    var all, aa, n := trace + more[1..], actions + acts, |actions|;
    forall i | 0 <= i < |aa| ensures Enabled(all[i], aa[i]) && all[i + 1] == Step(c, all[i], aa[i]) {
      if i < n {
        assert Enabled(trace[i], actions[i]) && trace[i + 1] == Step(c, trace[i], actions[i]);
      } else {
        assert all[i] == more[i - n] && all[i + 1] == more[i - n + 1];
        assert Enabled(more[i - n], acts[i - n]) && more[i - n + 1] == Step(c, more[i - n], acts[i - n]);
      }
    }
  }

  /** The state that Cpool_Create starts from, over any scratch fields. */
  function Initial(c: Config, scratch: seq<Outcome>): (s: State)
    requires |scratch| == c.items
    ensures Init(c, s)
  {
    State(Nobody, 0, |c.rt|, 0, false, Requested(c), seq(Requested(c), _ => Worker(Absent, 0, 0)), Creating(0),
          scratch, 0, [], scratch, seq(|c.rt|, _ => []))
  }

  /** All threads can be created. */
  lemma {:induction false} AllCreated(c: Config, s: State, i: nat) returns (trace: seq<State>, actions: seq<Action>)
    requires s.main == Creating(i) && i <= |s.workers|
    ensures Steps(c, trace, actions) && trace[0] == s
    ensures trace[|actions|].main == Idle && trace[|actions|].cycle == s.cycle
    decreases |s.workers| - i
  {
    var t := StepMain(c, s);
    if i < |s.workers| {
      trace, actions := AllCreated(c, t, i + 1);
      StepsCons(c, s, MainStep, trace, actions);
      trace, actions := [s] + trace, [MainStep] + actions;
    } else {
      trace, actions := [s, t], [MainStep];
    }
  }

  /** Any number of cycles can be run: some run of the pool is back from its n-th Cpool_RunCycle. */
  lemma {:induction false} CyclesRun(c: Config, scratch: seq<Outcome>, n: nat)
      returns (trace: seq<State>, actions: seq<Action>)
    requires ValidConfig(c) && |scratch| == c.items
    ensures Run(c, trace, actions) && trace[0].scratch == scratch
    ensures trace[|actions|].main == Idle && trace[|actions|].cycle == n
  {
    if n == 0 {
      trace, actions := AllCreated(c, Initial(c, scratch), 0);
    } else {
      var before, acts := CyclesRun(c, scratch, n - 1);
      var called, acts' := CycleAfter(c, before, acts);
      var s := called[|acts'|];
      var t := Step(c, s, MainStep);
      RunAppend(c, called, acts', [s, t], [MainStep]);
      trace, actions := called + [s, t][1..], acts' + [MainStep];
    }
  }

  /** From an idle state one more cycle can be run to its return. */
  lemma {:induction false} CallReturns(c: Config, s: State) returns (trace: seq<State>, actions: seq<Action>)
    requires ValidConfig(c) && Inv(c, s) && s.main == Idle
    ensures Steps(c, trace, actions) && trace[0] == s
    ensures trace[|actions|].main == Returned && trace[|actions|].cycle == s.cycle + 1
  {
    var t := Step(c, s, CallRunCycle);
    InvStep(c, s, CallRunCycle);
    trace, actions := CycleReturns(c, t);
    StepsCons(c, s, CallRunCycle, trace, actions);
    trace, actions := [s] + trace, [CallRunCycle] + actions;
  }

  lemma {:induction false} CycleAfter(c: Config, before: seq<State>, acts: seq<Action>)
      returns (trace: seq<State>, actions: seq<Action>)
    requires ValidConfig(c) && Run(c, before, acts) && before[|acts|].main == Idle
    ensures Run(c, trace, actions) && trace[0] == before[0]
    ensures trace[|actions|].main == Returned && trace[|actions|].cycle == before[|acts|].cycle + 1
  {
    InvRun(c, before, acts, |acts|);
    var more, more' := CallReturns(c, before[|acts|]);
    RunAppend(c, before, acts, more, more');
    trace, actions := before + more[1..], acts + more';
  }
}
