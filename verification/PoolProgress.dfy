/** A progress measure for cycles and for shutdown, and freedom from deadlock. */
module PoolProgress {
  import opened Pool
  import opened PoolInvariant

  /** How much a thread still has to do before it sleeps in StartCv or exits. */
  function WorkerRank(w: Worker, cycle: nat): nat {
    var behind := w.joined != cycle;
    match w.pc
    case Absent => 0
    case Exited => 0
    case Exiting => 1
    case Asleep => 2
    case Check => if behind then 9 else 3
    case Woken => if behind then 10 else 4
    case Start => if behind then 10 else 4
    case Signal => 6
    case CheckOut => 7
    case Claim => 8
    case Relock => 9
    case Probing(_) => 10
  }

  function TotalRank(ws: seq<Worker>, cycle: nat): nat {
    if ws == [] then 0 else TotalRank(ws[..|ws| - 1], cycle) + WorkerRank(ws[|ws| - 1], cycle)
  }

  /** How much the main thread still has to do in its current call. */
  function MainRank(c: Config, m: MainPc): int {
    var n := Requested(c);
    match m
    case Freed => 0
    case Join(i) => n - i + 1
    case EndUnlock => n + 2
    case EndBroadcast => 9 * n + 3
    case EndSet => 9 * n + 4
    case EndLock => 9 * n + 5
    case Idle => 0
    case Returned => 1
    case RunUnlock => 2
    case RunAsleep => 3
    case RunCheck => 4
    case RunWoken => 5
    case RunBroadcast => 8 * n + 5
    case RunOpen => 14 * n + 3 * |c.rt| + 6
    case RunLock => 14 * n + 3 * |c.rt| + 7
    case Creating(i) => 14 * n + 6 - 5 * i
  }

  /** Unclaimed targets, probes in flight, unfinished workers, and what the main thread has left. */
  function Measure(c: Config, s: State): int {
    3 * (|c.rt| - s.workIndex) + TotalRank(s.workers, s.cycle) + MainRank(c, s.main)
  }

  // ---- Sums of ranks ----

  lemma {:induction false} RankUpdate(ws: seq<Worker>, cycle: nat, w: nat, x: Worker)
    requires w < |ws|
    ensures TotalRank(ws[w := x], cycle) == TotalRank(ws, cycle) - WorkerRank(ws[w], cycle) + WorkerRank(x, cycle)
  {
    var n := |ws| - 1;
    if w == n {
      assert ws[w := x][..n] == ws[..n];
    } else {
      RankUpdate(ws[..n], cycle, w, x);
      assert ws[w := x][..n] == ws[..n][w := x];
    }
  }

  /** Changing every thread, each by at most d, changes the total by at most d a thread. */
  lemma {:induction false} RankGrowth(us: seq<Worker>, m: nat, vs: seq<Worker>, n: nat, d: nat)
    requires |us| == |vs|
    requires forall i :: 0 <= i < |us| ==> WorkerRank(vs[i], n) <= WorkerRank(us[i], m) + d
    ensures TotalRank(vs, n) <= TotalRank(us, m) + d * |us|
  {
    if us != [] {
      RankGrowth(us[..|us| - 1], m, vs[..|vs| - 1], n, d);
      assert d * |us| == d * (|us| - 1) + d;
    }
  }

  // ---- Every step that is not spurious and not a new call makes progress ----

  lemma {:induction false} WorkerRankFalls(c: Config, s: State, w: nat)
    requires WorkerEnabled(s, w) && GenerationOf(c, s, s.workers[w])
    requires s.gen == s.workers[w].seen <==> s.workers[w].joined == s.cycle
    requires s.workIndex <= |c.rt|
    ensures var t := StepWorker(c, s, w);
      && t.cycle == s.cycle && |t.workers| == |s.workers| && t.workers == s.workers[w := t.workers[w]]
      && 3 * (|c.rt| - t.workIndex) + WorkerRank(t.workers[w], t.cycle) + MainRank(c, t.main)
         < 3 * (|c.rt| - s.workIndex) + WorkerRank(s.workers[w], s.cycle) + MainRank(c, s.main)
  {
  }

  lemma {:induction false} WorkerProgress(c: Config, s: State, w: nat)
    requires ValidConfig(c) && Inv(c, s) && WorkerEnabled(s, w)
    ensures Measure(c, StepWorker(c, s, w)) < Measure(c, s)
  {
    var t := StepWorker(c, s, w);
    assert GenerationOf(c, s, s.workers[w]);
    SeenIffJoined(c, s.workers[w].joined, s.cycle);
    WorkerRankFalls(c, s, w);
    RankUpdate(s.workers, s.cycle, w, t.workers[w]);
  }

  lemma {:induction false} SeenIffJoined(c: Config, joined: nat, cycle: nat)
    requires joined == cycle || joined + 1 == cycle
    ensures Wrap(cycle, c.modulus) == Wrap(joined, c.modulus) <==> joined == cycle
  {
    if joined + 1 == cycle {
      assert Wrap(cycle, c.modulus) == Next(Wrap(joined, c.modulus), c.modulus);
    }
  }

  lemma {:induction false} CreateProgress(c: Config, s: State)
    requires |s.workers| == Requested(c) && s.main.Creating? && s.main.i <= |s.workers|
    requires forall w :: s.main.i <= w < |s.workers| ==> s.workers[w] == Worker(Absent, 0, 0)
    requires s.cycle == 0
    ensures Measure(c, StepMain(c, s)) < Measure(c, s)
  {
    var i := s.main.i;
    if i < |s.workers| {
      RankUpdate(s.workers, s.cycle, i, StepMain(c, s).workers[i]);
    }
  }

  lemma {:induction false} BroadcastProgress(c: Config, s: State)
    requires |s.workers| == Requested(c) && MainEnabled(s) && (s.main == RunBroadcast || s.main == EndBroadcast)
    ensures Measure(c, StepMain(c, s)) < Measure(c, s)
  {
    RankGrowth(s.workers, s.cycle, WakeAll(s.workers), s.cycle, 8);
  }

  /** Opening a cycle gives every thread at most six more steps of rank. */
  lemma {:induction false} OpenRanks(c: Config, s: State)
    requires Shape(c, s) && Mutex(s) && Generations(c, s) && s.main == RunOpen && s.owner == ByMain
    ensures TotalRank(s.workers, s.cycle + 1) <= TotalRank(s.workers, s.cycle) + 6 * Requested(c)
  {
    Quiet(c, s);
    RankGrowth(s.workers, s.cycle, s.workers, s.cycle + 1, 6);
  }

  lemma {:induction false} OpenMeasure(c: Config, s: State)
    requires s.main == RunOpen && s.workIndex <= |c.rt|
    requires TotalRank(s.workers, s.cycle + 1) <= TotalRank(s.workers, s.cycle) + 6 * Requested(c)
    ensures Measure(c, Open(c, s)) < Measure(c, s)
  {
  }

  /** Opening a cycle hands out all the work again. */
  lemma {:induction false} OpenProgress(c: Config, s: State)
    requires Shape(c, s) && Mutex(s) && Generations(c, s) && s.workIndex <= |c.rt|
    requires s.main == RunOpen && s.owner == ByMain
    ensures Measure(c, Open(c, s)) < Measure(c, s)
  {
    OpenRanks(c, s);
    OpenMeasure(c, s);
  }

  /** The other steps change no worker and no work: only the main thread's own rank falls. */
  lemma {:induction false} OwnProgress(c: Config, s: State)
    requires MainEnabled(s) && s.nthreads <= Requested(c) && (s.main.Join? ==> s.main.i <= s.nthreads)
    requires !s.main.Creating? && s.main != RunOpen && s.main != RunBroadcast && s.main != EndBroadcast
    ensures Measure(c, StepMain(c, s)) < Measure(c, s)
  {
    var t := StepMain(c, s);
    assert t.workers == s.workers && t.cycle == s.cycle && t.workIndex == s.workIndex;
    assert MainRank(c, t.main) < MainRank(c, s.main);
  }

  lemma {:induction false} MainProgress(c: Config, s: State)
    requires ValidConfig(c) && Inv(c, s) && MainEnabled(s)
    ensures Measure(c, StepMain(c, s)) < Measure(c, s)
  {
    if s.main.Creating? {
      CreateProgress(c, s);
    } else if s.main == RunOpen {
      OpenProgress(c, s);
    } else if s.main == RunBroadcast || s.main == EndBroadcast {
      BroadcastProgress(c, s);
    } else {
      OwnProgress(c, s);
    }
  }

  lemma {:induction false} Progress(c: Config, s: State, a: Action)
    requires ValidConfig(c) && Inv(c, s) && Enabled(s, a) && !Spurious(a) && !Call(a)
    ensures Measure(c, Step(c, s, a)) < Measure(c, s)
  {
    match a {
      case MainStep => MainProgress(c, s);
      case WorkerStep(w) => WorkerProgress(c, s, w);
      case CreateFails =>
    }
  }

  lemma {:induction false} WakeCost(c: Config, s: State, w: nat)
    requires w < |s.workers| && s.workers[w].pc == Asleep
    ensures Measure(c, Goto(s, w, Woken)) <= Measure(c, s) + 8
  {
    RankUpdate(s.workers, s.cycle, w, s.workers[w].(pc := Woken));
  }

  /** A spurious wakeup sets the system back by a bounded amount. */
  lemma {:induction false} SpuriousCost(c: Config, s: State, a: Action)
    requires Enabled(s, a) && Spurious(a)
    ensures Measure(c, Step(c, s, a)) <= Measure(c, s) + 8
  {
    if a.WorkerSpurious? {
      WakeCost(c, s, a.w);
    }
  }

  lemma {:induction false} RankNonNegative(c: Config, s: State)
    requires Shape(c, s) && Claims(c, s)
    ensures 0 <= Measure(c, s)
  {
  }

  function CountSpurious(actions: seq<Action>): nat {
    if actions == [] then 0
    else CountSpurious(actions[..|actions| - 1]) + (if Spurious(actions[|actions| - 1]) then 1 else 0)
  }

  /**
   From any state of the pool, and under any scheduling, a stretch without new calls is finite:
   its length is bounded by the measure at its start and the number of spurious wakeups in it.
   */
  lemma {:induction false} BoundedStretch(c: Config, trace: seq<State>, actions: seq<Action>)
    requires ValidConfig(c) && Steps(c, trace, actions) && Inv(c, trace[0])
    requires forall a :: a in actions ==> !Call(a)
    ensures Inv(c, trace[|actions|])
    ensures Measure(c, trace[|actions|]) + |actions| <= Measure(c, trace[0]) + 9 * CountSpurious(actions)
    ensures |actions| <= Measure(c, trace[0]) + 9 * CountSpurious(actions)
  {
    var n := |actions|;
    if 0 < n {
      BoundedStretch(c, trace[..n], actions[..n - 1]);
      InvStep(c, trace[n - 1], actions[n - 1]);
      if Spurious(actions[n - 1]) {
        SpuriousCost(c, trace[n - 1], actions[n - 1]);
      } else {
        Progress(c, trace[n - 1], actions[n - 1]);
      }
    }
    RankNonNegative(c, trace[n]);
  }

  // ---- No deadlock ----

  /** A thread that owns the mutex can always take its next step. */
  lemma {:induction false} OwnerRuns(c: Config, s: State) returns (a: Action)
    requires ValidConfig(c) && Inv(c, s) && s.owner != Nobody
    ensures Enabled(s, a) && !Spurious(a) && !Call(a)
  {
    a := if s.owner.ByMain? then MainStep else WorkerStep(s.owner.w);
  }

  /** A thread that is neither asleep nor gone can run when the mutex is free. */
  lemma {:induction false} AwakeRuns(c: Config, s: State, w: nat)
    requires Mutex(s) && s.owner == Nobody && w < |s.workers|
    requires s.workers[w].pc != Absent && s.workers[w].pc != Asleep && s.workers[w].pc != Exited
    ensures WorkerEnabled(s, w)
  {
  }

  /**
   No deadlock.  Unless the main thread has no call outstanding (or has freed the pool), some thread
   can take a step, and not merely by a spurious wakeup.
   */
  lemma {:induction false} NoDeadlock(c: Config, s: State) returns (a: Action)
    requires ValidConfig(c) && Inv(c, s) && s.main != Idle && s.main != Freed
    ensures Enabled(s, a) && !Spurious(a) && !Call(a)
  {
    if s.owner != Nobody {
      a := OwnerRuns(c, s);
    } else if s.main == RunAsleep {
      var w := CountPositive(s.workers, s.cycle);
      assert GenerationOf(c, s, s.workers[w]);
      SeenIffJoined(c, s.workers[w].joined, s.cycle);
      AwakeRuns(c, s, w);
      a := WorkerStep(w);
    } else if s.main.Join? && s.main.i < s.nthreads && s.workers[s.main.i].pc != Exited {
      AwakeRuns(c, s, s.main.i);
      a := WorkerStep(s.main.i);
    } else {
      a := MainStep;
    }
  }

  /**
   Cpool_RunCycle and Cpool_Destroy finish: a stretch of a run without new calls that cannot
   be continued (except by spurious wakeups) ends with the main thread back from its call.
   */
  lemma {:induction false} CallsFinish(c: Config, trace: seq<State>, actions: seq<Action>)
    requires ValidConfig(c) && Steps(c, trace, actions) && Inv(c, trace[0])
    requires forall a :: a in actions ==> !Call(a)
    requires forall a :: Enabled(trace[|actions|], a) ==> Spurious(a) || Call(a)
    ensures trace[|actions|].main == Idle || trace[|actions|].main == Freed
  {
    BoundedStretch(c, trace, actions);
    if trace[|actions|].main != Idle && trace[|actions|].main != Freed {
      var a := NoDeadlock(c, trace[|actions|]);
    }
  }

  // ---- Shutdown ----

  /** Nobody starts to work while Shutdown is set. */
  lemma {:induction false} StaysQuiet(c: Config, s: State, a: Action)
    requires Enabled(s, a) && s.shutdown && !s.main.Creating?
    requires forall w :: 0 <= w < |s.workers| ==> !Working(s.workers[w].pc)
    ensures Step(c, s, a).shutdown && |Step(c, s, a).workers| == |s.workers|
    ensures forall w :: 0 <= w < |s.workers| ==> !Working(Step(c, s, a).workers[w].pc)
  {
  }

  /** With Shutdown set no cycle is open, nobody is probing, and no step starts a probe. */
  lemma {:induction false} ShutdownIsQuiet(c: Config, s: State, a: Action)
    requires ValidConfig(c) && Inv(c, s) && s.shutdown && Enabled(s, a)
    ensures !CycleOpen(s.main) && Step(c, s, a).shutdown
    ensures |Step(c, s, a).workers| == |s.workers|
    ensures forall w :: 0 <= w < |s.workers| ==> !Working(s.workers[w].pc) && !Working(Step(c, s, a).workers[w].pc)
  {
    Quiet(c, s);
    StaysQuiet(c, s, a);
  }

  lemma {:induction false} FreedIsFinal(c: Config, s: State)
    requires Shape(c, s) && Ending(s) && s.main == Freed
    ensures forall w :: 0 <= w < s.nthreads ==> w < |s.workers| && s.workers[w].pc == Exited
    ensures forall a :: !Enabled(s, a)
  {
  }

  /** When the join loop is through, every thread that was created has exited. */
  lemma {:induction false} AllJoined(c: Config, trace: seq<State>, actions: seq<Action>, i: nat)
    requires ValidConfig(c) && Run(c, trace, actions) && i < |trace| && trace[i].main == Freed
    ensures forall w :: 0 <= w < trace[i].nthreads ==> w < |trace[i].workers| && trace[i].workers[w].pc == Exited
    ensures forall a :: !Enabled(trace[i], a)
  {
    InvRun(c, trace, actions, i);
    FreedIsFinal(c, trace[i]);
  }
}
