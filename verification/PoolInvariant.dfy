/** The inductive invariant of the probe pool, and its preservation by every step. */
module PoolInvariant {
  import opened Pool

  // ---- Which program counters mean what ----

  predicate HoldsMutex(pc: WorkerPc) {
    pc == Check || pc == Claim || pc == CheckOut || pc == Signal || pc == Exiting
  }

  predicate MainHoldsMutex(m: MainPc) {
    m == RunOpen || m == RunBroadcast || m == RunCheck || m == RunUnlock ||
    m == EndSet || m == EndBroadcast || m == EndUnlock
  }

  /** The main thread has opened a cycle and not yet seen it finish. */
  predicate CycleOpen(m: MainPc) {
    m == RunBroadcast || m == RunCheck || m == RunAsleep || m == RunWoken || m == RunUnlock
  }

  /** Inside the claim loop of a cycle the worker has joined. */
  predicate Working(pc: WorkerPc) { pc == Claim || pc.Probing? || pc == Relock || pc == CheckOut }

  /** A thread that exists and has not yet checked out of the current cycle. */
  predicate Busy(w: Worker, cycle: nat) { w.pc != Absent && (w.joined != cycle || Working(w.pc)) }

  function CountBusy(ws: seq<Worker>, cycle: nat): nat {
    if ws == [] then 0
    else CountBusy(ws[..|ws| - 1], cycle) + (if Busy(ws[|ws| - 1], cycle) then 1 else 0)
  }

  /** Number of threads created so far. */
  function Created(s: State): nat { if s.main.Creating? then s.main.i else s.nthreads }

  // ---- The invariant, part by part ----

  predicate Shape(c: Config, s: State) {
    && |s.workers| == Requested(c)
    && |s.scratch| == |s.before| == c.items
    && |s.history| == |c.rt|
    && Created(s) <= Requested(c)
    && s.nthreads <= Requested(c)
    && (s.main.Creating? ==> s.nthreads == Requested(c) && s.cycle == 0)
    && (s.main.Join? ==> s.main.i <= s.nthreads)
    && (s.main == Idle || CycleOpen(s.main) || s.main == RunLock || s.main == RunOpen || s.main == Returned
        ==> 0 < s.nthreads)
    && forall w :: 0 <= w < |s.workers| ==>
           (w < Created(s) <==> s.workers[w].pc != Absent)
           && (s.workers[w].pc == Absent ==> s.workers[w] == Worker(Absent, 0, 0))
  }

  predicate Mutex(s: State) {
    && (MainHoldsMutex(s.main) <==> s.owner == ByMain)
    && (forall w :: 0 <= w < |s.workers| ==> (HoldsMutex(s.workers[w].pc) <==> s.owner == ByWorker(w)))
    && (s.owner.ByWorker? ==> s.owner.w < |s.workers|)
  }

  /** Gen counts the cycles, modulo its width; a worker is at most one cycle behind. */
  predicate Generations(c: Config, s: State) {
    && s.gen == Wrap(s.cycle, c.modulus)
    && (forall w :: 0 <= w < |s.workers| && s.workers[w].pc != Absent ==> GenerationOf(c, s, s.workers[w]))
    && s.remaining == CountBusy(s.workers, s.cycle)
    && (!CycleOpen(s.main) ==> s.remaining == 0)
    && (s.main == RunUnlock ==> s.remaining == 0)
  }

  predicate GenerationOf(c: Config, s: State, w: Worker) {
    && w.seen == Wrap(w.joined, c.modulus)
    && (w.joined == s.cycle || w.joined + 1 == s.cycle)
    && (Working(w.pc) ==> w.joined == s.cycle && 0 < s.cycle)
    && (w.pc == Start ==> w.joined == 0)
    && (w.pc == Signal ==> w.joined == s.cycle && s.remaining == 0 && CycleOpen(s.main))
  }

  /** Where the claimed indices are: finished, or held by exactly one worker. */
  predicate Claims(c: Config, s: State) {
    && s.workIndex <= |c.rt|
    && (s.cycle == 0 ==> s.finished == [])
    && (forall k :: 0 <= k < |s.finished| ==> s.finished[k] < s.workIndex)
    && (forall j, k :: 0 <= j < k < |s.finished| ==> s.finished[j] != s.finished[k])
    && (forall w :: 0 <= w < |s.workers| && s.workers[w].pc.Probing? ==>
          s.workers[w].pc.idx < s.workIndex && s.workers[w].pc.idx !in s.finished)
    && (forall v, w :: 0 <= v < w < |s.workers| && s.workers[v].pc.Probing? && s.workers[w].pc.Probing? ==>
          s.workers[v].pc.idx != s.workers[w].pc.idx)
    && Covered(s)
  }

  predicate Covered(s: State) {
    0 < s.cycle ==> forall k :: 0 <= k < s.workIndex ==> k in s.finished || Held(s, k)
  }

  predicate Held(s: State, k: nat) {
    exists w :: 0 <= w < |s.workers| && s.workers[w].pc == Probing(k)
  }

  predicate OutOfWork(w: Worker, cycle: nat) {
    w.pc != Absent && w.joined == cycle && w.pc != Claim && !w.pc.Probing? && w.pc != Relock
  }

  /** A worker that left the claim loop found no work; so did everyone once the cycle is over. */
  predicate Exhaustion(c: Config, s: State) {
    && (forall w :: 0 <= w < |s.workers| && OutOfWork(s.workers[w], s.cycle) ==> s.workIndex == |c.rt|)
    && (!CycleOpen(s.main) ==> s.workIndex == |c.rt|)
  }

  /** The scratch fields: overwritten by the oracle's answer exactly where a probe has finished. */
  predicate Scratch(c: Config, s: State) {
    && (forall k :: 0 <= k < |s.finished| ==>
          s.finished[k] < |c.rt| && c.rt[s.finished[k]] < |s.scratch|
          && s.scratch[c.rt[s.finished[k]]] == c.oracle(s.cycle, s.finished[k]))
    && (forall t :: 0 <= t < |s.scratch| && !Probed(c, s, t) ==> t < |s.before| && s.scratch[t] == s.before[t])
  }

  /** Item t of the target list has had its probe in this cycle. */
  predicate Probed(c: Config, s: State, t: nat) {
    exists k :: 0 <= k < |s.finished| && s.finished[k] < |c.rt| && c.rt[s.finished[k]] == t
  }

  /** Nobody sleeps through a wakeup. */
  predicate Sleepers(s: State) {
    && (s.main != RunBroadcast && s.main != EndBroadcast ==>
          forall w :: 0 <= w < |s.workers| && s.workers[w].pc == Asleep ==> s.workers[w].seen == s.gen && !s.shutdown)
    && (s.main == RunAsleep ==>
          0 < s.remaining || (s.owner.ByWorker? && s.owner.w < |s.workers| && s.workers[s.owner.w].pc == Signal))
  }

  predicate Ending(s: State) {
    && (s.shutdown <==> s.main == EndBroadcast || s.main == EndUnlock || s.main.Join? || s.main == Freed)
    && (forall w :: 0 <= w < |s.workers| && (s.workers[w].pc == Exiting || s.workers[w].pc == Exited) ==> s.shutdown)
    && (s.main.Join? ==> forall w :: 0 <= w < s.main.i && w < |s.workers| ==> s.workers[w].pc == Exited)
    && (s.main == Freed ==> forall w :: 0 <= w < |s.workers| ==> s.workers[w].pc == Exited || s.workers[w].pc == Absent)
  }

  /** The cycles whose results have been processed. */
  function Recorded(s: State): nat {
    if (CycleOpen(s.main) || s.main == Returned) && s.cycle > 0 then s.cycle - 1 else s.cycle
  }

  predicate Histories(c: Config, s: State) {
    && (CycleOpen(s.main) || s.main == Returned ==> 0 < s.cycle)
    && forall k :: 0 <= k < |s.history| ==> HistoryOf(c, s, k)
  }

  predicate HistoryOf(c: Config, s: State, k: nat)
    requires k < |s.history|
  {
    s.history[k] == seq(Recorded(s), n requires 0 <= n < Recorded(s) => c.oracle(n + 1, k))
  }

  predicate Inv(c: Config, s: State) {
    && Shape(c, s) && Mutex(s) && Generations(c, s) && Claims(c, s) && Exhaustion(c, s)
    && Scratch(c, s) && Sleepers(s) && Ending(s) && Histories(c, s)
  }

  // ---- Counting ----

  lemma {:induction false} CountUpdate(ws: seq<Worker>, cycle: nat, w: nat, x: Worker)
    requires w < |ws|
    ensures CountBusy(ws[w := x], cycle)
         == CountBusy(ws, cycle) - (if Busy(ws[w], cycle) then 1 else 0) + (if Busy(x, cycle) then 1 else 0)
  {
    var n := |ws| - 1;
    if w == n {
      assert ws[w := x][..n] == ws[..n];
    } else {
      CountUpdate(ws[..n], cycle, w, x);
      assert ws[w := x][..n] == ws[..n][w := x];
    }
  }

  lemma {:induction false} CountAgree(us: seq<Worker>, vs: seq<Worker>, cycle: nat)
    requires |us| == |vs|
    requires forall i :: 0 <= i < |us| ==> (Busy(us[i], cycle) <==> Busy(vs[i], cycle))
    ensures CountBusy(us, cycle) == CountBusy(vs, cycle)
  {
    if us != [] {
      CountAgree(us[..|us| - 1], vs[..|vs| - 1], cycle);
    }
  }

  /** If exactly the first n are busy, the count is n. */
  lemma {:induction false} CountPrefix(ws: seq<Worker>, cycle: nat, n: nat)
    requires n <= |ws|
    requires forall i :: 0 <= i < |ws| ==> (Busy(ws[i], cycle) <==> i < n)
    ensures CountBusy(ws, cycle) == n
  {
    if ws != [] {
      CountPrefix(ws[..|ws| - 1], cycle, if n < |ws| then n else n - 1);
    }
  }

  lemma {:induction false} CountZero(ws: seq<Worker>, cycle: nat, w: nat)
    requires w < |ws| && CountBusy(ws, cycle) == 0
    ensures !Busy(ws[w], cycle)
  {
    if w < |ws| - 1 {
      CountZero(ws[..|ws| - 1], cycle, w);
    }
  }

  lemma {:induction false} CountPositive(ws: seq<Worker>, cycle: nat) returns (w: nat)
    requires 0 < CountBusy(ws, cycle)
    ensures w < |ws| && Busy(ws[w], cycle)
  {
    if Busy(ws[|ws| - 1], cycle) {
      w := |ws| - 1;
    } else {
      w := CountPositive(ws[..|ws| - 1], cycle);
    }
  }

  // ---- The invariant holds initially and is kept by every step ----

  lemma {:induction false} InvInit(c: Config, s: State)
    requires ValidConfig(c) && Init(c, s)
    ensures Inv(c, s)
  {
    CountPrefix(s.workers, 0, 0);
  }

  // ---- Worker steps ----

  lemma {:induction false} WorkerShape(c: Config, s: State, w: nat)
    requires Shape(c, s) && WorkerEnabled(s, w)
    ensures Shape(c, StepWorker(c, s, w))
  {
  }

  lemma {:induction false} WorkerMutex(c: Config, s: State, w: nat)
    requires Mutex(s) && WorkerEnabled(s, w)
    ensures Mutex(StepWorker(c, s, w))
  {
  }

  /** With Remaining at zero every thread has checked out of the current cycle. */
  lemma {:induction false} Quiet(c: Config, s: State)
    requires Generations(c, s) && s.remaining == 0
    ensures forall w :: 0 <= w < |s.workers| && s.workers[w].pc != Absent ==>
              s.workers[w].joined == s.cycle && !Working(s.workers[w].pc)
  {
    forall w | 0 <= w < |s.workers| ensures !Busy(s.workers[w], s.cycle) {
      CountZero(s.workers, s.cycle, w);
    }
  }

  /** Only checking out makes a worker less busy. */
  lemma {:induction false} WorkerBusy(c: Config, s: State, w: nat)
    requires WorkerEnabled(s, w) && GenerationOf(c, s, s.workers[w]) && s.gen == Wrap(s.cycle, c.modulus)
    ensures var t := StepWorker(c, s, w);
      && |t.workers| == |s.workers| && t.workers == s.workers[w := t.workers[w]]
      && t.gen == s.gen && t.cycle == s.cycle
      && (CycleOpen(t.main) <==> CycleOpen(s.main)) && (t.main == RunUnlock <==> s.main == RunUnlock)
      && (if s.workers[w].pc == CheckOut
          then Busy(s.workers[w], s.cycle) && !Busy(t.workers[w], s.cycle) && t.remaining == s.remaining - 1
          else (Busy(s.workers[w], s.cycle) <==> Busy(t.workers[w], s.cycle)) && t.remaining == s.remaining)
  {
  }

  lemma {:induction false} WorkerRemaining(c: Config, s: State, w: nat)
    requires WorkerEnabled(s, w) && Generations(c, s)
    ensures var t := StepWorker(c, s, w);
      && t.remaining == CountBusy(t.workers, t.cycle)
      && (t.remaining != s.remaining ==> 0 < s.remaining)
  {
    assert GenerationOf(c, s, s.workers[w]);
    WorkerBusy(c, s, w);
    CountUpdate(s.workers, s.cycle, w, StepWorker(c, s, w).workers[w]);
  }

  /** A worker's own part in the generations. */
  lemma {:induction false} WorkerGenerationOf(c: Config, s: State, w: nat)
    requires WorkerEnabled(s, w) && GenerationOf(c, s, s.workers[w]) && s.gen == Wrap(s.cycle, c.modulus)
    requires !CycleOpen(s.main) ==> s.remaining == 0
    requires (s.workers[w].pc == CheckOut ==> CycleOpen(s.main))
    ensures GenerationOf(c, StepWorker(c, s, w), StepWorker(c, s, w).workers[w])
  {
  }

  lemma {:induction false} WorkerGenerations(c: Config, s: State, w: nat)
    requires Shape(c, s) && Mutex(s) && Generations(c, s) && WorkerEnabled(s, w)
    ensures Generations(c, StepWorker(c, s, w))
  {
    var t := StepWorker(c, s, w);
    assert GenerationOf(c, s, s.workers[w]);
    WorkerBusy(c, s, w);
    WorkerRemaining(c, s, w);
    WorkerGenerationOf(c, s, w);
    forall v | 0 <= v < |t.workers| && t.workers[v].pc != Absent ensures GenerationOf(c, t, t.workers[v]) {
      if v != w {
        assert GenerationOf(c, s, s.workers[v]);
      }
    }
  }

  lemma {:induction false} WorkerCovered(c: Config, s: State, w: nat)
    requires WorkerEnabled(s, w) && Covered(s)
    ensures Covered(StepWorker(c, s, w))
  {
    var t := StepWorker(c, s, w);
    if 0 < s.cycle {
      forall k | 0 <= k < t.workIndex ensures k in t.finished || Held(t, k) {
        if k == s.workIndex {
          assert t.workers[w].pc == Probing(k);
        } else if k !in s.finished {
          var v :| 0 <= v < |s.workers| && s.workers[v].pc == Probing(k);
          if v == w {
            assert t.finished == s.finished + [k];
          } else {
            assert t.workers[v].pc == Probing(k);
          }
        }
      }
    }
  }

  lemma {:induction false} ProbingClaims(c: Config, s: State, w: nat)
    requires Claims(c, s) && WorkerEnabled(s, w) && s.workers[w].pc.Probing? && 0 < s.cycle
    ensures Claims(c, StepWorker(c, s, w))
  {
    WorkerCovered(c, s, w);
  }

  /** A worker takes the next index. */
  lemma {:induction false} TakingClaims(c: Config, s: State, w: nat)
    requires Claims(c, s) && WorkerEnabled(s, w) && s.workers[w].pc == Claim && s.workIndex < |c.rt|
    ensures Claims(c, StepWorker(c, s, w))
  {
    WorkerCovered(c, s, w);
  }

  lemma {:induction false} WorkerClaims(c: Config, s: State, w: nat)
    requires Claims(c, s) && WorkerEnabled(s, w) && !s.workers[w].pc.Probing?
    ensures Claims(c, StepWorker(c, s, w))
  {
    if s.workers[w].pc == Claim && s.workIndex < |c.rt| {
      TakingClaims(c, s, w);
    } else {
      SameClaims(c, s, StepWorker(c, s, w));
    }
  }

  lemma {:induction false} WorkerExhaustion(c: Config, s: State, w: nat)
    requires Mutex(s) && Claims(c, s) && Exhaustion(c, s) && Generations(c, s) && WorkerEnabled(s, w)
    ensures Exhaustion(c, StepWorker(c, s, w))
  {
  }

  /** Distinct indices are distinct items, so the new outcome overwrites no other one. */
  lemma {:induction false} FinishedScratch(c: Config, s: State, w: nat, k: nat)
    requires ValidConfig(c) && Shape(c, s) && Claims(c, s) && Scratch(c, s) && w < |s.workers|
    requires s.workers[w].pc.Probing? && k <= |s.finished|
    ensures var idx := s.workers[w].pc.idx;
      var t := FinishProbe(c, s, w, idx);
      && t.finished[k] < |c.rt| && c.rt[t.finished[k]] < |t.scratch|
      && t.scratch[c.rt[t.finished[k]]] == c.oracle(t.cycle, t.finished[k])
  {
    var idx := s.workers[w].pc.idx;
    if k < |s.finished| {
      assert s.finished[k] in s.finished && s.finished[k] != idx;
      assert c.rt[s.finished[k]] != c.rt[idx];
    }
  }

  lemma {:induction false} StillProbed(c: Config, s: State, w: nat, i: nat)
    requires w < |s.workers| && s.workers[w].pc.Probing? && Probed(c, s, i)
    ensures Probed(c, FinishProbe(c, s, w, s.workers[w].pc.idx), i)
  {
    var t := FinishProbe(c, s, w, s.workers[w].pc.idx);
    var k :| 0 <= k < |s.finished| && s.finished[k] < |c.rt| && c.rt[s.finished[k]] == i;
    assert t.finished[k] == s.finished[k];
  }

  lemma {:induction false} ProbingScratch(c: Config, s: State, w: nat)
    requires ValidConfig(c) && Shape(c, s) && Claims(c, s) && Scratch(c, s) && WorkerEnabled(s, w)
    requires s.workers[w].pc.Probing?
    ensures Scratch(c, StepWorker(c, s, w))
  {
    var t := StepWorker(c, s, w);
    forall k | 0 <= k < |t.finished|
      ensures t.finished[k] < |c.rt| && c.rt[t.finished[k]] < |t.scratch|
      ensures t.scratch[c.rt[t.finished[k]]] == c.oracle(t.cycle, t.finished[k])
    {
      FinishedScratch(c, s, w, k);
    }
    assert t.finished[|s.finished|] == s.workers[w].pc.idx;
    forall i | Probed(c, s, i) ensures Probed(c, t, i) {
      StillProbed(c, s, w, i);
    }
  }

  lemma {:induction false} WorkerScratch(c: Config, s: State, w: nat)
    requires ValidConfig(c) && Shape(c, s) && Claims(c, s) && Scratch(c, s) && WorkerEnabled(s, w)
    ensures Scratch(c, StepWorker(c, s, w))
  {
    if s.workers[w].pc.Probing? {
      ProbingScratch(c, s, w);
    } else {
      SameScratch(c, s, StepWorker(c, s, w));
    }
  }

  lemma {:induction false} SameScratch(c: Config, s: State, t: State)
    requires Scratch(c, s)
    requires t.scratch == s.scratch && t.before == s.before && t.finished == s.finished && t.cycle == s.cycle
    ensures Scratch(c, t)
  {
    assert forall i :: Probed(c, t, i) <==> Probed(c, s, i);
  }

  lemma {:induction false} WorkerSleepers(c: Config, s: State, w: nat)
    requires Mutex(s) && Generations(c, s) && Sleepers(s) && WorkerEnabled(s, w)
    ensures Sleepers(StepWorker(c, s, w))
  {
  }

  lemma {:induction false} WorkerEnding(c: Config, s: State, w: nat)
    requires Ending(s) && WorkerEnabled(s, w)
    ensures Ending(StepWorker(c, s, w))
  {
  }

  lemma {:induction false} WorkerHistories(c: Config, s: State, w: nat)
    requires Histories(c, s) && WorkerEnabled(s, w)
    ensures Histories(c, StepWorker(c, s, w))
  {
    var t := StepWorker(c, s, w);
    forall k | 0 <= k < |t.history| ensures HistoryOf(c, t, k) {
      assert HistoryOf(c, s, k);
    }
  }

  // ---- Main-thread steps ----

  lemma {:induction false} MainShape(c: Config, s: State)
    requires ValidConfig(c) && Shape(c, s) && MainEnabled(s)
    ensures Shape(c, StepMain(c, s))
  {
  }

  lemma {:induction false} MainMutex(c: Config, s: State)
    requires Shape(c, s) && Mutex(s) && MainEnabled(s)
    ensures Mutex(StepMain(c, s))
  {
    var t := StepMain(c, s);
    assert forall w :: 0 <= w < |s.workers| ==> (HoldsMutex(t.workers[w].pc) <==> HoldsMutex(s.workers[w].pc));
  }

  /** A thread's part in the current cycle is untouched by a step that does not open a cycle. */
  lemma {:induction false} MainRemaining(c: Config, s: State)
    requires Shape(c, s) && MainEnabled(s) && Generations(c, s) && s.main != RunOpen
    ensures StepMain(c, s).remaining == CountBusy(StepMain(c, s).workers, s.cycle)
  {
    var t := StepMain(c, s);
    if s.main.Creating? && s.main.i < |s.workers| {
      assert s.workers[s.main.i].pc == Absent;
      CountUpdate(s.workers, s.cycle, s.main.i, t.workers[s.main.i]);
    } else {
      CountAgree(s.workers, t.workers, s.cycle);
    }
  }

  /** At the opening every created thread is one cycle behind, hence busy. */
  lemma {:induction false} OpenBusy(c: Config, s: State, w: nat)
    requires Shape(c, s) && Generations(c, s) && s.main == RunOpen && w < |s.workers|
    ensures Busy(s.workers[w], s.cycle + 1) <==> w < s.nthreads
    ensures s.workers[w].pc != Absent ==> GenerationOf(c, Open(c, s), s.workers[w])
  {
    Quiet(c, s);
    if s.workers[w].pc != Absent {
      assert GenerationOf(c, s, s.workers[w]);
    }
  }

  lemma {:induction false} OpenCount(c: Config, s: State)
    requires Shape(c, s) && Generations(c, s) && s.main == RunOpen
    ensures CountBusy(s.workers, s.cycle + 1) == s.nthreads
  {
    forall w | 0 <= w < |s.workers| ensures Busy(s.workers[w], s.cycle + 1) <==> w < s.nthreads {
      OpenBusy(c, s, w);
    }
    CountPrefix(s.workers, s.cycle + 1, s.nthreads);
  }

  lemma {:induction false} OpenGenerations(c: Config, s: State)
    requires Shape(c, s) && Generations(c, s) && s.main == RunOpen
    ensures Generations(c, Open(c, s))
  {
    OpenCount(c, s);
    forall w | 0 <= w < |s.workers| && s.workers[w].pc != Absent
      ensures GenerationOf(c, Open(c, s), s.workers[w])
    {
      OpenBusy(c, s, w);
    }
  }

  lemma {:induction false} MainGenerationOf(c: Config, s: State, w: nat)
    requires MainEnabled(s) && s.main != RunOpen && (MainHoldsMutex(s.main) <==> s.owner == ByMain)
    requires w < |s.workers| && (HoldsMutex(s.workers[w].pc) <==> s.owner == ByWorker(w))
    requires if s.workers[w].pc == Absent then s.workers[w] == Worker(Absent, 0, 0)
             else GenerationOf(c, s, s.workers[w])
    requires s.main.Creating? ==> s.cycle == 0
    requires StepMain(c, s).workers[w].pc != Absent
    ensures GenerationOf(c, StepMain(c, s), StepMain(c, s).workers[w])
  {
  }

  lemma {:induction false} MainGenerations(c: Config, s: State)
    requires Shape(c, s) && Mutex(s) && Generations(c, s) && MainEnabled(s)
    ensures Generations(c, StepMain(c, s))
  {
    if s.main == RunOpen {
      OpenGenerations(c, s);
    } else {
      MainRemaining(c, s);
      forall w | 0 <= w < |s.workers| && StepMain(c, s).workers[w].pc != Absent
        ensures GenerationOf(c, StepMain(c, s), StepMain(c, s).workers[w])
      {
        MainGenerationOf(c, s, w);
      }
    }
  }

  lemma {:induction false} SameHeld(s: State, t: State)
    requires |s.workers| == |t.workers|
    requires forall w :: 0 <= w < |s.workers| && s.workers[w].pc.Probing? ==> t.workers[w] == s.workers[w]
    ensures forall k :: Held(s, k) ==> Held(t, k)
  {
    forall k | Held(s, k) ensures Held(t, k) {
      var v :| 0 <= v < |s.workers| && s.workers[v].pc == Probing(k);
      assert t.workers[v].pc == Probing(k);
    }
  }

  lemma {:induction false} OpenClaims(c: Config, s: State)
    requires Generations(c, s) && s.main == RunOpen
    ensures Claims(c, Open(c, s))
  {
    Quiet(c, s);
  }

  /** Claims depend on nothing but the work index, the finished indices and those held. */
  lemma {:induction false} SameClaims(c: Config, s: State, t: State)
    requires Claims(c, s) && |s.workers| == |t.workers|
    requires t.workIndex == s.workIndex && t.finished == s.finished && t.cycle == s.cycle
    requires forall w :: 0 <= w < |s.workers| ==>
               (t.workers[w].pc.Probing? <==> s.workers[w].pc.Probing?)
               && (t.workers[w].pc.Probing? ==> t.workers[w] == s.workers[w])
    ensures Claims(c, t)
  {
    SameHeld(s, t);
  }

  lemma {:induction false} MainClaims(c: Config, s: State)
    requires Shape(c, s) && Generations(c, s) && Claims(c, s) && MainEnabled(s)
    ensures Claims(c, StepMain(c, s))
  {
    if s.main == RunOpen {
      OpenClaims(c, s);
    } else {
      SameClaims(c, s, StepMain(c, s));
    }
  }

  lemma {:induction false} MainExhaustion(c: Config, s: State)
    requires Shape(c, s) && Exhaustion(c, s) && Generations(c, s) && MainEnabled(s)
    ensures Exhaustion(c, StepMain(c, s))
  {
    if s.main == RunUnlock {
      Quiet(c, s);
      assert OutOfWork(s.workers[0], s.cycle);
    }
  }

  lemma {:induction false} MainScratch(c: Config, s: State)
    requires Shape(c, s) && Claims(c, s) && Scratch(c, s) && MainEnabled(s)
    ensures Scratch(c, StepMain(c, s))
  {
    if s.main != RunOpen {
      SameScratch(c, s, StepMain(c, s));
    }
  }

  lemma {:induction false} MainSleepers(c: Config, s: State)
    requires Mutex(s) && Generations(c, s) && Sleepers(s) && MainEnabled(s)
    ensures Sleepers(StepMain(c, s))
  {
  }

  lemma {:induction false} MainEnding(c: Config, s: State)
    requires Shape(c, s) && Ending(s) && MainEnabled(s)
    ensures Ending(StepMain(c, s))
  {
  }

  /** Once Remaining is zero and the work is handed out, every index has been probed. */
  lemma {:induction false} AllFinished(c: Config, s: State)
    requires Shape(c, s) && Generations(c, s) && Claims(c, s)
    requires s.remaining == 0 && s.workIndex == |c.rt| && 0 < s.cycle
    ensures forall k :: k in s.finished <==> 0 <= k < |c.rt|
    ensures forall j, k :: 0 <= j < k < |s.finished| ==> s.finished[j] != s.finished[k]
    ensures forall w :: 0 <= w < |s.workers| ==> !s.workers[w].pc.Probing?
  {
    Quiet(c, s);
    forall k | 0 <= k < |c.rt| ensures k in s.finished {
      assert Covered(s) && !Held(s, k);
    }
  }

  lemma {:induction false} CollectHistories(c: Config, s: State)
    requires ValidConfig(c) && Shape(c, s) && Scratch(c, s) && Histories(c, s) && s.main == Returned
    requires forall k :: 0 <= k < |c.rt| ==> k in s.finished
    ensures Histories(c, StepMain(c, s))
  {
    var t := StepMain(c, s);
    forall k | 0 <= k < |t.history| ensures HistoryOf(c, t, k) {
      assert HistoryOf(c, s, k) && k in s.finished;
      assert t.history[k] == s.history[k] + [c.oracle(s.cycle, k)];
    }
  }

  lemma {:induction false} MainHistories(c: Config, s: State)
    requires Histories(c, s) && MainEnabled(s) && s.main != Returned
    ensures Histories(c, StepMain(c, s))
  {
    var t := StepMain(c, s);
    assert Recorded(t) == Recorded(s) && t.history == s.history;
    forall k | 0 <= k < |t.history| ensures HistoryOf(c, t, k) {
      assert HistoryOf(c, s, k);
    }
  }

  // ---- Environment steps: thread creation failing, the calls, spurious wakeups ----

  lemma {:induction false} OtherShape(c: Config, s: State, a: Action)
    requires ValidConfig(c) && Shape(c, s) && Enabled(s, a) && !a.MainStep? && !a.WorkerStep?
    ensures Shape(c, Step(c, s, a))
  {
  }

  lemma {:induction false} OtherMutex(c: Config, s: State, a: Action)
    requires Mutex(s) && Enabled(s, a) && !a.MainStep? && !a.WorkerStep?
    ensures Mutex(Step(c, s, a))
  {
  }

  lemma {:induction false} OtherClaims(c: Config, s: State, a: Action)
    requires Claims(c, s) && Enabled(s, a) && !a.MainStep? && !a.WorkerStep?
    ensures Claims(c, Step(c, s, a))
  {
    SameHeld(s, Step(c, s, a));
  }

  lemma {:induction false} OtherExhaustion(c: Config, s: State, a: Action)
    requires Exhaustion(c, s) && Enabled(s, a) && !a.MainStep? && !a.WorkerStep?
    ensures Exhaustion(c, Step(c, s, a))
  {
  }

  lemma {:induction false} OtherSleepers(c: Config, s: State, a: Action)
    requires Mutex(s) && Sleepers(s) && Enabled(s, a) && !a.MainStep? && !a.WorkerStep?
    ensures Sleepers(Step(c, s, a))
  {
  }

  lemma {:induction false} OtherEnding(c: Config, s: State, a: Action)
    requires Ending(s) && Enabled(s, a) && !a.MainStep? && !a.WorkerStep?
    ensures Ending(Step(c, s, a))
  {
  }

  lemma {:induction false} OtherHistories(c: Config, s: State, a: Action)
    requires Histories(c, s) && Enabled(s, a) && !a.MainStep? && !a.WorkerStep?
    ensures Histories(c, Step(c, s, a))
  {
    forall k | 0 <= k < |s.history| ensures HistoryOf(c, Step(c, s, a), k) {
      assert HistoryOf(c, s, k);
    }
  }

  lemma {:induction false} OtherGenerations(c: Config, s: State, a: Action)
    requires Shape(c, s) && Generations(c, s) && Enabled(s, a) && !a.MainStep? && !a.WorkerStep?
    ensures Generations(c, Step(c, s, a))
  {
    var t := Step(c, s, a);
    CountAgree(s.workers, t.workers, s.cycle);
    forall w | 0 <= w < |t.workers| && t.workers[w].pc != Absent ensures GenerationOf(c, t, t.workers[w]) {
      assert GenerationOf(c, s, s.workers[w]);
    }
  }

  lemma {:induction false} InvMain(c: Config, s: State)
    requires ValidConfig(c) && Inv(c, s) && MainEnabled(s)
    ensures Inv(c, StepMain(c, s))
  {
    MainShape(c, s);
    MainMutex(c, s);
    MainGenerations(c, s);
    MainClaims(c, s);
    MainExhaustion(c, s);
    MainScratch(c, s);
    MainSleepers(c, s);
    MainEnding(c, s);
    if s.main == Returned {
      AllFinished(c, s);
      CollectHistories(c, s);
    } else {
      MainHistories(c, s);
    }
  }

  lemma {:induction false} InvWorker(c: Config, s: State, w: nat)
    requires ValidConfig(c) && Inv(c, s) && WorkerEnabled(s, w)
    ensures Inv(c, StepWorker(c, s, w))
  {
    WorkerShape(c, s, w);
    WorkerMutex(c, s, w);
    WorkerGenerations(c, s, w);
    assert GenerationOf(c, s, s.workers[w]);
    if s.workers[w].pc.Probing? {
      ProbingClaims(c, s, w);
    } else {
      WorkerClaims(c, s, w);
    }
    WorkerExhaustion(c, s, w);
    WorkerScratch(c, s, w);
    WorkerSleepers(c, s, w);
    WorkerEnding(c, s, w);
    WorkerHistories(c, s, w);
  }

  lemma {:induction false} InvOther(c: Config, s: State, a: Action)
    requires ValidConfig(c) && Inv(c, s) && Enabled(s, a) && !a.MainStep? && !a.WorkerStep?
    ensures Inv(c, Step(c, s, a))
  {
    OtherShape(c, s, a);
    OtherMutex(c, s, a);
    OtherGenerations(c, s, a);
    OtherClaims(c, s, a);
    OtherExhaustion(c, s, a);
    SameScratch(c, s, Step(c, s, a));
    OtherSleepers(c, s, a);
    OtherEnding(c, s, a);
    OtherHistories(c, s, a);
  }

  lemma {:induction false} InvStep(c: Config, s: State, a: Action)
    requires ValidConfig(c) && Inv(c, s) && Enabled(s, a)
    ensures Inv(c, Step(c, s, a))
  {
    match a {
      case MainStep => InvMain(c, s);
      case WorkerStep(w) => InvWorker(c, s, w);
      case _ => InvOther(c, s, a);
    }
  }

  /** The invariant holds in every state of every run. */
  lemma {:induction false} InvRun(c: Config, trace: seq<State>, actions: seq<Action>, i: nat)
    requires ValidConfig(c) && Run(c, trace, actions) && i < |trace|
    ensures Inv(c, trace[i])
  {
    if i == 0 {
      InvInit(c, trace[0]);
    } else {
      InvRun(c, trace, actions, i - 1);
      InvStep(c, trace[i - 1], actions[i - 1]);
    }
  }
}
