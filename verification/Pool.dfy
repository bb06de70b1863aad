/**
 The persistent probe pool as a transition system.

 Every thread has a program counter; the mutex has an owner; being in a condition
 variable's wait set is a program counter of its own (`Asleep` for StartCv,
 `RunAsleep` for DoneCv), and leaving it means queueing for the mutex again
 (`Woken`, `RunWoken`).  Claiming a target, probing it with the lock released and
 taking the lock back are separate steps.  Wakeups may be spurious.
 */
module Pool {
  import opened Probe

  const CPOOL_MAX_THREADS: nat := 64

  /**
   `rt` holds the positions, in the target list, of the targets the pool serves;
   `modulus` is the number of values of the C type of `Gen`;
   `oracle(n, k)` is what probing target k yields in the n-th cycle, counted from 1.
   */
  datatype Config = Config(rt: seq<nat>, items: nat, modulus: Modulus, oracle: (nat, nat) -> Outcome)

  /** An unsigned type has at least two values. */
  type Modulus = m: nat | 2 <= m witness 2

  /** Incrementing an unsigned counter: past its largest value it wraps around to zero. */
  function Next(gen: nat, m: Modulus): nat { if gen + 1 >= m then 0 else gen + 1 }

  /** The counter after x increments from zero. */
  function Wrap(x: nat, m: Modulus): (v: nat)
    ensures v < m
  {
    if x == 0 then 0 else Next(Wrap(x - 1, m), m)
  }

  /** That is x modulo the number of values of the type, whatever its width. */
  lemma {:induction false} WrapIsRemainder(x: nat, m: Modulus) returns (wraps: nat)
    ensures x == wraps * m + Wrap(x, m)
  {
    if x == 0 {
      wraps := 0;
    } else {
      wraps := WrapIsRemainder(x - 1, m);
      if Wrap(x, m) == 0 {
        assert (wraps + 1) * m == wraps * m + m;
        wraps := wraps + 1;
      }
    }
  }

  ghost predicate ValidConfig(c: Config) {
    && 0 < |c.rt|
    && (forall k :: 0 <= k < |c.rt| ==> c.rt[k] < c.items)
    && (forall j, k :: 0 <= j < k < |c.rt| ==> c.rt[j] != c.rt[k])
  }

  function Requested(c: Config): nat {
    if |c.rt| > CPOOL_MAX_THREADS then CPOOL_MAX_THREADS else |c.rt|
  }

  /** One thread for every target served, but at most 64. */
  lemma {:induction false} PoolSize(c: Config)
    ensures Requested(c) <= 64 && Requested(c) <= |c.rt| && (Requested(c) == 64 || Requested(c) == |c.rt|)
  {
  }

  datatype WorkerPc =
    | Absent             // never created
    | Start              // about to take the mutex for the first time
    | Check              // holds the mutex, at the wait loop's condition
    | Asleep             // in StartCv's wait set
    | Woken              // out of the wait set, queueing for the mutex
    | Claim              // holds the mutex, at the claim loop's condition
    | Probing(idx: nat)  // mutex released, inside Probe_One
    | Relock             // probe done, queueing for the mutex
    | CheckOut           // holds the mutex, about to decrement Remaining
    | Signal             // holds the mutex, about to signal DoneCv
    | Exiting            // holds the mutex, left the main loop
    | Exited

  /** `seen` is the worker's private copy of Gen; `joined` counts the cycles it took part in. */
  datatype Worker = Worker(pc: WorkerPc, seen: nat, joined: nat)

  datatype MainPc =
    | Creating(i: nat)
    | Idle
    | RunLock | RunOpen | RunBroadcast | RunCheck | RunAsleep | RunWoken | RunUnlock
    | Returned           // Cpool_RunCycle has just returned; results not yet processed
    | EndLock | EndSet | EndBroadcast | EndUnlock | Join(i: nat)
    | Freed

  datatype Owner = Nobody | ByMain | ByWorker(w: nat)

  /**
   The shared fields of the pool, the threads, the targets' scratch fields, and a
   record of the run: `cycle` counts the cycles opened, `finished` lists the indices
   whose Probe_One call has returned in this cycle, `before` is the scratch at the
   opening of the cycle, `history[k]` the outcomes the result pass has consumed for target k.
   */
  datatype State = State(
    owner: Owner, gen: nat, workIndex: nat, remaining: int, shutdown: bool, nthreads: nat,
    workers: seq<Worker>, main: MainPc, scratch: seq<Outcome>,
    cycle: nat, finished: seq<nat>, before: seq<Outcome>, history: seq<seq<Outcome>>)

  datatype Action =
    | MainStep           // the main thread's next step
    | CreateFails        // pthread_create reports an error
    | CallRunCycle
    | CallDestroy
    | MainSpurious       // DoneCv wakes the main thread for no reason
    | WorkerStep(w: nat)
    | WorkerSpurious(w: nat)

  predicate Spurious(a: Action) { a.MainSpurious? || a.WorkerSpurious? }

  predicate Call(a: Action) { a.CallRunCycle? || a.CallDestroy? }

  predicate Init(c: Config, s: State) {
    && s.owner == Nobody && s.gen == 0 && s.workIndex == |c.rt| && s.remaining == 0 && !s.shutdown
    && s.nthreads == Requested(c)
    && s.workers == seq(Requested(c), _ => Worker(Absent, 0, 0))
    && s.main == Creating(0)
    && |s.scratch| == c.items && s.before == s.scratch
    && s.cycle == 0 && s.finished == []
    && s.history == seq(|c.rt|, _ => [])
  }

  predicate WorkerEnabled(s: State, w: nat) {
    && w < |s.workers|
    && match s.workers[w].pc
       case Absent => false
       case Start => s.owner == Nobody
       case Woken => s.owner == Nobody
       case Relock => s.owner == Nobody
       case Asleep => false
       case Probing(_) => true
       case Exited => false
       case _ => s.owner == ByWorker(w)
  }

  predicate MainEnabled(s: State) {
    match s.main
    case Creating(_) => true
    case Idle => false
    case RunLock => s.owner == Nobody
    case RunAsleep => false
    case RunWoken => s.owner == Nobody
    case Returned => true
    case EndLock => s.owner == Nobody
    case Join(i) => i < s.nthreads ==> i < |s.workers| && s.workers[i].pc == Exited
    case Freed => false
    case _ => s.owner == ByMain
  }

  predicate Enabled(s: State, a: Action) {
    match a
    case MainStep => MainEnabled(s)
    case CreateFails => s.main.Creating? && s.main.i < |s.workers|
    case CallRunCycle => s.main == Idle
    case CallDestroy => s.main == Idle
    case MainSpurious => s.main == RunAsleep
    case WorkerStep(w) => WorkerEnabled(s, w)
    case WorkerSpurious(w) => w < |s.workers| && s.workers[w].pc == Asleep
  }

  function WakeOne(w: Worker): Worker { if w.pc == Asleep then w.(pc := Woken) else w }

  /** cnd_broadcast on StartCv: the wait set is emptied. */
  function WakeAll(ws: seq<Worker>): (r: seq<Worker>)
    ensures |r| == |ws|
    ensures forall i :: 0 <= i < |ws| ==>
              r[i].pc != Asleep && (r[i] == ws[i] || (ws[i].pc == Asleep && r[i] == ws[i].(pc := Woken)))
  {
    seq(|ws|, i requires 0 <= i < |ws| => WakeOne(ws[i]))
  }

  /** Move worker w to `pc`, leaving its other fields alone. */
  function Goto(s: State, w: nat, pc: WorkerPc): State
    requires w < |s.workers|
  {
    s.(workers := s.workers[w := s.workers[w].(pc := pc)])
  }

  /** One step of worker w: src/cpool.c, WorkerMain. */
  function StepWorker(c: Config, s: State, w: nat): State
    requires WorkerEnabled(s, w)
  {
    match s.workers[w].pc
    case Start => Goto(s, w, Check).(owner := ByWorker(w))
    case Woken => Goto(s, w, Check).(owner := ByWorker(w))
    case Check =>
      if s.shutdown then Goto(s, w, Exiting)
      else if s.gen == s.workers[w].seen then Goto(s, w, Asleep).(owner := Nobody)
      else s.(workers := s.workers[w := Worker(Claim, s.gen, s.workers[w].joined + 1)])
    case Claim =>
      if s.workIndex >= |c.rt| then Goto(s, w, CheckOut)
      else Goto(s, w, Probing(s.workIndex)).(workIndex := s.workIndex + 1, owner := Nobody)
    case Probing(idx) => FinishProbe(c, s, w, idx)
    case Relock => Goto(s, w, Claim).(owner := ByWorker(w))
    case CheckOut =>
      Goto(s, w, if s.remaining - 1 == 0 then Signal else Check).(remaining := s.remaining - 1)
    case Signal =>
      Goto(s, w, Check).(main := if s.main == RunAsleep then RunWoken else s.main)
    case Exiting => Goto(s, w, Exited).(owner := Nobody)
  }

  /** Probe_One returns: all four scratch fields of the target are overwritten. */
  function FinishProbe(c: Config, s: State, w: nat, idx: nat): State
    requires w < |s.workers|
  {
    var t := if idx < |c.rt| then c.rt[idx] else 0;
    var result := c.oracle(s.cycle, idx);
    Goto(s, w, Relock).(
      scratch := if t < |s.scratch| then s.scratch[t := result] else s.scratch,
      finished := s.finished + [idx])
  }

  /** The result pass reads the scratch fields in target order. */
  function Collect(c: Config, s: State): seq<seq<Outcome>> {
    seq(|s.history|, k requires 0 <= k < |s.history| =>
      s.history[k] + (if k < |c.rt| && c.rt[k] < |s.scratch| then [s.scratch[c.rt[k]]] else []))
  }

  /** Cpool_RunCycle hands out the work and bumps the generation. */
  function Open(c: Config, s: State): State {
    s.(workIndex := 0, remaining := s.nthreads, gen := Next(s.gen, c.modulus),
       cycle := s.cycle + 1, finished := [], before := s.scratch, main := RunBroadcast)
  }

  /** One step of the main thread: Cpool_Create, Cpool_RunCycle, the result pass, Cpool_Destroy. */
  function StepMain(c: Config, s: State): State
    requires MainEnabled(s)
  {
    match s.main
    case Creating(i) =>
      if i < |s.workers| then Goto(s, i, Start).(main := Creating(i + 1)) else s.(main := Idle)
    case RunLock => s.(owner := ByMain, main := RunOpen)
    case RunOpen => Open(c, s)
    case RunBroadcast => s.(workers := WakeAll(s.workers), main := RunCheck)
    case RunCheck => if s.remaining > 0 then s.(owner := Nobody, main := RunAsleep) else s.(main := RunUnlock)
    case RunWoken => s.(owner := ByMain, main := RunCheck)
    case RunUnlock => s.(owner := Nobody, main := Returned)
    case Returned => s.(history := Collect(c, s), main := Idle)
    case EndLock => s.(owner := ByMain, main := EndSet)
    case EndSet => s.(shutdown := true, main := EndBroadcast)
    case EndBroadcast => s.(workers := WakeAll(s.workers), main := EndUnlock)
    case EndUnlock => s.(owner := Nobody, main := Join(0))
    case Join(i) => s.(main := if i < s.nthreads then Join(i + 1) else Freed)
  }

  function Step(c: Config, s: State, a: Action): State
    requires Enabled(s, a)
  {
    match a
    case MainStep => StepMain(c, s)
    case CreateFails => s.(nthreads := s.main.i, main := if s.main.i == 0 then EndLock else Idle)
    case CallRunCycle => s.(main := RunLock)
    case CallDestroy => s.(main := EndLock)
    case MainSpurious => s.(main := RunWoken)
    case WorkerStep(w) => StepWorker(c, s, w)
    case WorkerSpurious(w) => Goto(s, w, Woken)
  }

  /** `trace` is a run of the system: any interleaving of the threads, of any length. */
  ghost predicate Run(c: Config, trace: seq<State>, actions: seq<Action>) {
    && |trace| == |actions| + 1
    && Init(c, trace[0])
    && Steps(c, trace, actions)
  }

  ghost predicate Steps(c: Config, trace: seq<State>, actions: seq<Action>) {
    && |trace| == |actions| + 1
    && forall i :: 0 <= i < |actions| ==>
         Enabled(trace[i], actions[i]) && trace[i + 1] == Step(c, trace[i], actions[i])
  }
}
