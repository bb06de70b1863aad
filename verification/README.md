# PingDD: a verified model

PingDD probes hosts over TCP, UDP and ICMP, keeps statistics and diagnostics for every target, and prints
verdicts. This project models its algorithmic parts in Dafny and proves what they are for:

- **The persistent probe pool** (`Pool.dfy`, `PoolInvariant.dfy`, `PoolSafety.dfy`, `PoolProgress.dfy`,
  `PoolLiveness.dfy`): a mutex and condition-variable barrier with a generation counter, as a transition system over
  the program counters of the coordinator and of any number of workers. Wait sets are explicit, wakeups may be spurious, thread creation may stop
  early, `Gen` has any unsigned width. Safety, refinement of the sequential scheduler, a progress measure and freedom
  from deadlock hold in every interleaving, and every cycle can be run to its return.
- **Accounting, statistics, diagnostics** (`ProbeLoop.dfy`, `Stats.dfy`, `Percentiles.dfy`, `Moments.dfy`,
  `Diagnostics.dfy`, `Connectivity.dfy`, `Latency.dfy`, `Verdicts.dfy`, `Combined.dfy`, `Report.dfy`, `LoadTest.dfy`):
  classes and loops whose fields are functions of the whole history, and lemmas that say what those functions mean: failure
  blocks, order statistics, pooled moments, alternating alerts, coherent verdicts.
- **The tiny DNS client** (`Names.dfy`, `Answers.dfy`, `Origin.dfy`, `Cymru.dfy`), against a serialiser of RFC 1035.
- **Target expansion** (`Tokens.dfy`, `Ports.dfy`, `TargetList.dfy`, `Resolving.dfy`): the destructive tokenizer, port
  and protocol lists, the growable list and its matrix, the resolve cache.
- **The Internet checksum** (`Checksum.dfy`, RFC 1071), **the address fail-over** (`Failover.dfy`) and **the bounded JSON
  escaper** (`Json.dfy`, RFC 8259).

Conventions. Doubles are exact reals. C strings and buffers are sequences and arrays of bytes; a pointer into a buffer
is an index. The environment appears as parameters: a probe is an oracle for its result, an allocation is an oracle for
its success, clocks and the interrupt flag are predicates. `strtol` saturates at the limits of a 64-bit `long`.
Alerts are recorded in ghost fields instead of being printed.

Where the code does not meet what one would expect of it, the exact condition is proved for all inputs, beside a
concrete input:

- A high-latency condition can end if and only if the baseline is positive (`Latency.ClearsIffPositiveBaseline`); the run
  with round-trip times 0 s and 1 s enters it with baseline zero (`Latency.ZeroBaselineCanAlarm`).
- The bufferbloat estimate is negative without being the "not enough samples" sentinel if and only if the percentile's
  private copy cannot be allocated and the smallest sample is positive (`Statistics.Stats.BufferbloatMs`); five samples of
  10 ms give -10 then (`Statistics.BufferbloatWitness`).
- A target that is DOWN does not always make the combined verdict DOWN (`Verdicts.TargetDownAlone`). The combined verdict
  is DOWN if and only if some target's history ends in three failures, or there were probes and none succeeded anywhere
  (`Verdicts.CombinedDownIff`); that is when a DOWN target carries over (`Verdicts.DownCarriesOver`).
- A run broken by an interrupt accounts the targets its last sweep did not reach with the result they had before. Every
  history consists of the target's own probes if and only if the broken cycle probed all targets
  (`ProbeLoop.OwnProbesIff`; `ProbeLoop.OwnProbesExactly` also covers old results that were interrupts themselves). Which
  cycle breaks and how far it got is determined by the flag and the outcomes (`ProbeLoop.Run`). Entries are built zeroed,
  and zero is the code of success: of two targets, with the flag seen after the very first probe, the second is accounted
  a success with a round-trip time of 0 s though it was never probed (`ProbeLoop.NeverProbedWitness`).

Bounds are exact too: 131074 bytes is the largest length for which the checksum's 32-bit sum cannot wrap around
(`Checksum.NoWrapIff`).

## Model

| member | source | states |
|---|---|---|
| PoolInvariant.InvInit | src/cpool.c:158-168 | the state `Cpool_Create` sets up satisfies the invariant of the pool |
| PoolInvariant.InvStep | src/cpool.c:102-234 | every step of every thread, spurious wakeups and failing thread creation included, keeps the invariant |
| PoolInvariant.InvRun | src/cpool.c:95-234 | the invariant holds in every state of every interleaving, for any number of targets and workers |
| PoolInvariant.AllFinished | src/cpool.c:112-126 | with no cycle open, the indices probed in the last cycle are exactly those below `Rc`, each once, and nobody is probing |
| PoolSafety.EachTargetOnce | src/cpool.c:112-126 | when `Cpool_RunCycle` returns, every index below `Rc` was probed exactly once in that cycle and in each earlier one, no other index ever was, and no probe is in flight |
| PoolSafety.NoIndexShared | src/cpool.c:113-122 | two workers never hold the same index, and an index held is below `Rc` |
| PoolSafety.NoLostWakeup | src/cpool.c:102-127 | with the mutex free, a worker asleep on `StartCv` has seen the current generation and there is no shutdown; a coordinator asleep on `DoneCv` has workers left to wait for |
| Pool.WrapIsRemainder | src/cpool.c:86 | an unsigned counter of any width, incremented x times, holds x modulo the number of its values |
| Pool.PoolSize | src/lib/cpool.h:17 | one thread for every target served, but at most 64 |
| PoolSafety.GenerationBarrier | src/cpool.c:197-199 | `Gen`, wrapping at any width, is a worker's `seen` or its successor and equals it just when the worker joined every cycle; `Remaining` is the number of workers not yet checked out |
| PoolSafety.EveryWorkerJoinsOnce | src/cpool.c:104-110 | when a cycle has returned, every worker has joined every cycle exactly once |
| PoolSafety.LateStarter | src/cpool.c:97-100 | a worker first scheduled after the bump differs from `Gen` through its baseline 0 and is still counted in `Remaining` |
| PoolSafety.CycleIsSweep | src/main.c:892-901 | however the threads interleave, a cycle leaves all scratch fields as the sequential sweep does |
| PoolSafety.RefinesSequential | src/main.c:892-949 | between cycles the scratch fields, and the outcomes the result pass has consumed for every target, are those of as many sequential cycles |
| PoolSafety.SequentialHistoryIs | src/cpool.c:57-66 | a target's consumed outcomes are those its own probes yield, cycle by cycle |
| PoolProgress.Progress | src/cpool.c:113-126 | every step that is neither spurious nor a new call lowers a measure of unclaimed targets, probes in flight and unfinished workers |
| PoolProgress.SpuriousCost | src/cpool.c:102-106 | a spurious wakeup raises that measure by at most 8 |
| PoolProgress.BoundedStretch | src/cpool.c:192-205 | any stretch without new calls is no longer than the measure at its start plus nine times its spurious wakeups |
| PoolProgress.NoDeadlock | src/cpool.c:102-205 | while a call is outstanding some thread can take a non-spurious step |
| PoolProgress.CallsFinish | src/cpool.c:192-234 | a stretch that cannot be continued ends with the coordinator back from its call |
| PoolLiveness.CycleReturns | src/cpool.c:192-205 | from any moment inside `Cpool_RunCycle` some continuation without spurious wakeups reaches its return, in the same cycle |
| PoolLiveness.CyclesRun | src/cpool.c:137-205 | for every number n some run of the pool is back from its n-th cycle |
| PoolProgress.ShutdownIsQuiet | src/cpool.c:207-216 | once `Shutdown` is set no cycle is open, nobody probes and no step starts a probe |
| PoolProgress.AllJoined | src/cpool.c:218-227 | when the join loop is through, every created thread has exited and nothing can move |
| ProbeLoop.BuildRt | src/main.c:808-815 | the probed targets are exactly the resolved ones, in list order, each once |
| ProbeLoop.Sweep | src/main.c:895-900 | a sequential sweep overwrites the scratch fields of the targets up to the first interrupt, and nothing else |
| ProbeLoop.ResultPass | src/main.c:903-949 | every resolved target consumes its scratch result once, unresolved ones are untouched, and an interrupt is reported exactly if some result is one |
| ProbeLoop.ReturnedInv | src/main.c:892-893 | a state in which `Cpool_RunCycle` returns, in any run of the pool, satisfies the pool's invariant |
| ProbeLoop.EveryCycleReturns | src/main.c:892-893 | for every cycle there is such a state, whatever the scratch fields were at first |
| ProbeLoop.PoolCycle | src/main.c:892-893 | a pool cycle, in any run of the pool's threads, leaves in every target's scratch fields what its own probe yields, and touches no other target |
| ProbeLoop.ProbeAll | src/main.c:892-901 | pool or sweep: which targets have a new result afterwards, all of them unless a sweep met an interrupt |
| ProbeLoop.SweepsAgree | src/main.c:895-900 | the uninterrupted loop over the target list is the sweep the pool was shown to refine |
| ProbeLoop.Cycle | src/main.c:892-954 | on every path each target's tally, link and latency state stays a function of one history, which grows by the result found in its scratch fields: the new one, or the old one where a broken sweep did not get; the first probe after which the flag is seen delimits the sweep |
| ProbeLoop.Turn | src/main.c:884-955 | a cycle breaks the loop exactly if a probe reports an interrupt or the flag is seen during its sweep or after it |
| ProbeLoop.NotBegunIff | src/main.c:884-888 | the flag, the deadline or the count, before it or before an earlier one, is what keeps a cycle from being begun |
| ProbeLoop.DisturbedIff | src/main.c:895-955 | a cycle is disturbed by the flag after its results, by a probe with code 107, or by the flag after a probe of a sweep, and by nothing else |
| ProbeLoop.Run | src/main.c:884-964 | the whole loop, with sweeps or with the pool: all completed cycles are undisturbed, a broken run is broken in the first disturbed one, and otherwise the flag, the deadline or the count ends it; n completed cycles give each target the observations of its n outcomes, and a broken cycle adds exactly the results found in it |
| ProbeLoop.OwnProbesExactly | src/main.c:895-949 | after a broken run, every history is that of the target's own probes exactly if each unreached target's old result was an interrupt |
| ProbeLoop.OwnProbesIff | src/main.c:895-949 | with no interrupt among the old results, every history is that of the target's own probes exactly if the broken cycle probed all targets |
| ProbeLoop.NeverProbedWitness | src/targets.c:159-164 | a concrete run: a target that was never probed is accounted a success with a round-trip time of zero |
| ProbeLoop.Target.Account | src/main.c:904-948 | one result is accounted in the mutable statistics and diagnostics of a target, keeping both functions of the same observations: by its code it changes nothing (107), adds a connect and a sample (0), or adds a failure to the counter and the streak (any other) |
| ProbeLoop.Target.CountResult | src/main.c:920-933 | counters and aggregates advance by one observation |
| ProbeLoop.Target.AsValue | src/main.c:904-948 | the mutable objects of a target, seen as a value, track the same history, so the passes over the list describe them too |
| ProbeLoop.Target.Summary | src/main.c:920-948 | Attempts = Connects + Failures = number of `Diag_Observe` calls |
| ProbeLoop.TallyMeaning | src/main.c:920-933 | for every history: the counters count it, and sums and extremes are those of its successful round-trip times |
| ProbeLoop.AccountedTracks | src/main.c:904-948 | the result pass on one target appends exactly the noted observation to its history |
| ProbeLoop.AccountedMeaning | src/main.c:904-948 | by the codes themselves: 107 changes nothing; 0 adds a connect with its round-trip time and ends the failure streak; every other code adds one failure to counters and streak and nothing else |
| ProbeLoop.ObservationsCount | src/main.c:911-933 | the history of any outcomes has as many successes as there are codes 0, and as many failures as there are codes other than 0 and 107 |
| ProbeLoop.SchedulersAgree | src/main.c:892-949 | consuming what the pool left gives every target the statistics and diagnostics that an uninterrupted sequential run of as many cycles leaves |
| ProbeLoop.PoolAccounts | src/main.c:903-949 | when a pool cycle returns, accounting a target appends exactly the observation of its own probe to the history its fields are functions of |
| ProbeLoop.ConsumeTracks | src/main.c:903-949 | consuming outcomes cycle after cycle tracks their observations |
| Connectivity.LinkMeaning | src/diag.c:125-193 | for every history: the current streak is the trailing failure block, the longest streak the longest block, outages the maximal blocks of at least three, and down means a trailing block of at least three |
| Connectivity.LongestAppend | src/diag.c:178-181 | one more observation changes the longest failure block as the code updates it |
| Connectivity.OutagesAppend | src/diag.c:184-186 | a new maximal block of three or more begins exactly when the streak reaches the threshold |
| Connectivity.LinkAlertsAlternate | src/diag.c:125-193 | DOWN and RECOVERED strictly alternate, DOWN first, one DOWN per outage |
| Connectivity.AlertsAppend | src/diag.c:132-192 | after a trailing block of n failures, a success raises RECOVERED with the number n exactly if n is at least three, and a failure raises DOWN exactly if it is the third |
| Connectivity.OutageBudget | src/diag.c:178-193 | three times the outages never exceeds the failures |
| Connectivity.OutageIffBlock | src/lib/diag.h:17 | an outage is counted if and only if there were three failures in a row |
| Latency.AverageBetween | src/diag.c:145-154 | over any run the baseline is the smallest RTT and baseline ≤ average ≤ largest RTT |
| Latency.ObserveAverages | src/diag.c:145-154 | the average takes 0.3 of the new time and 0.7 of itself, the first time alone; the baseline is the lesser of the two |
| Latency.AlarmIff | src/diag.c:157-176 | HIGH LATENCY is entered exactly when the average exceeds three times the baseline and the baseline by more than 20 ms, and left exactly when it is below 1.5 times the baseline |
| Latency.AlertOnChange | src/diag.c:164-175 | one alert, with the average and the baseline in milliseconds, each time the flag changes, and none otherwise |
| Latency.SteadyIsSilent | src/diag.c:145-169 | RTTs within 20 ms of each other never raise HIGH LATENCY |
| Latency.LatencyAlertsAlternate | src/diag.c:157-176 | HIGH LATENCY and LATENCY NORMAL alternate, and the flag is the parity of the alerts |
| Latency.GeometricDecay | src/diag.c:151-154 | n probes at b leave 0.7^n of the excess of the average over b |
| Latency.ClearsAtBaseline | src/diag.c:145-176 | from any high-latency state with positive baseline some number of probes at the baseline clears it |
| Latency.StuckAtZero | src/diag.c:145-176 | at baseline zero no further run clears it |
| Latency.ClearsIffPositiveBaseline | src/diag.c:145-176 | the condition can still end if and only if the baseline is positive |
| Latency.ZeroBaselineCanAlarm | src/diag.c:145-170 | the other family is reachable: RTT 0 s, then 1 s |
| Diagnostics.Diag.constructor | src/diag.c:88-103 | the initial fields are those of the empty history |
| Diagnostics.Diag.SetDns | src/diag.c:105-111 | the DNS fields are stored and the tracking is unaffected |
| Diagnostics.Diag.Observe | src/diag.c:125-193 | all fields and alerts remain the functions of the history that the lemmas are about, with one observation added |
| Diagnostics.Diag.ObserveLatency | src/diag.c:145-176 | a success updates baseline, average, flag and alert as the tracker does |
| Diagnostics.Diag.CountFailure | src/diag.c:178-193 | a failure updates streaks, outages, flag and alert as the link tracker does |
| Diagnostics.Diag.LinkSummary | src/diag.c:125-193 | the connectivity fields of any reachable object, in terms of failure blocks, with the outage budget and alternating alerts |
| Diagnostics.Diag.LatencySummary | src/diag.c:145-176 | the latency fields of any reachable object: minimum, bounds of the average, alternation |
| Moments.VarianceIsMeanSquare | src/stats.c:34-46 | the one-pass variance equals the mean squared deviation |
| Moments.MeanMeaning | src/stats.c:34-46 | the mean times the number of samples is their sum |
| Reals.LargestDouble | src/stats.c:128-143 | the initial minimum is (2^53 - 1)·2^971, the largest double |
| Moments.VarianceSign | src/stats.c:34-46 | it is never negative, so the clamp is idle, and zero exactly when all samples agree |
| Moments.SumPermutation | src/main.c:632-656 | sums do not depend on the order of arrival |
| Moments.SumPooled | src/main.c:632-656 | sums over pooled samples are the sums of the parts, for any interleaving |
| Moments.LeastPooled | src/main.c:642-645 | so is the minimum |
| Moments.GreatestPooled | src/main.c:646-648 | so is the maximum |
| Percentiles.NearestRank | src/stats.c:91-126 | with k the least integer that is at least p·n/100, at least k samples are at most the percentile, fewer than k are below it, and it is a sample |
| Percentiles.OrderStatistic | src/stats.c:105-123 | the sample at index i of the sorted copy has more than i samples at most it and at most i below it |
| Percentiles.PercentileEnds | src/stats.c:109-112 | at 0 and below the percentile is the least sample, at 100 and above the greatest |
| Percentiles.NearestRankUnique | src/stats.c:91-126 | these counts determine the value |
| Percentiles.PercentileMonotone | src/stats.c:91-126 | percentiles grow with p |
| Percentiles.PercentileOrderFree | src/stats.c:48-126 | percentiles do not depend on the order of arrival |
| Percentiles.RankInRange | src/stats.c:113-121 | strictly between 0 and 100 neither index clamp fires |
| Percentiles.SortedUnique | src/stats.c:105-106 | sorting the copy has only one possible outcome |
| Statistics.Stats.constructor | src/stats.c:128-143 | empty statistics |
| Statistics.Stats.AddSample | src/stats.c:48-77 | moments cover every value; the retained samples are a subsequence, earlier ones are never disturbed, and they are the first million as long as no reallocation failed |
| Statistics.FirstMillion | src/stats.c:20-76 | while memory sufficed exactly the first 1000000 values are retained |
| Statistics.Stats.Retain | src/stats.c:62-76 | the growth policy: a full array, a failed reallocation and the retention limit |
| Statistics.Stats.Grow | src/stats.c:66-74 | a reallocation to the next capacity keeps the samples |
| Statistics.CapacityGrows | src/stats.c:66-67 | capacities stay 0 or 64·2^j with j ≤ 14 |
| Statistics.CapacityBound | src/stats.c:62-74 | the array never exceeds 1048576 entries |
| Statistics.Stats.PercentileOf | src/stats.c:91-126 | returns the nearest-rank percentile of the retained samples and changes nothing; 0 without samples or memory |
| Statistics.PercentileIndex | src/stats.c:108-121 | the index computation, clamps included, is the rank |
| Statistics.Stats.BufferbloatMs | src/diag.c:27-33 | the exact sign condition of the bufferbloat estimate |
| Statistics.BufferbloatWitness | src/diag.c:27-33 | a concrete negative estimate: five samples of 10 ms and no memory give -10 |
| Verdicts.HealthyMeaning | src/diag.c:74-82 | HEALTHY: never three failures in a row, at most 5 % failures, DNS worked |
| Verdicts.HealthyIff | src/diag.c:36-82 | the exact condition for HEALTHY: no three failures in a row, at most 5 % failures, DNS worked, mean at most 300 ms, standard deviation at most 50 ms |
| Verdicts.GradeMeaning | src/diag.c:36-48 | the exact conditions of POOR and GOOD, in terms of the standard deviation |
| Verdicts.DownMeaning | src/diag.c:74-82 | DOWN: the history ends in three failures or has no success at all, and only then |
| Verdicts.JitterMeaning | src/diag.c:36-48 | the squared jitter test is the comparison of standard deviations |
| Verdicts.LossBounds | src/diag.c:19-24 | the loss is a hundred times the failures by the attempts; its thresholds in whole numbers |
| Verdicts.TotalsConcat | src/main.c:632-656 | attempts, failures and outages of one target are those of its history, and those of two groups of targets add up |
| Verdicts.SpreadMeaning | src/stats.c:34-46 | the average and the variance computed from counters and sums are the mean and the mean squared deviation of the samples |
| Verdicts.AllHealthy | src/main.c:657-673 | if every target is HEALTHY, the combined verdict is HEALTHY |
| Verdicts.CombinedDown | src/main.c:657-673 | if the combined verdict is DOWN, some target's own verdict is DOWN |
| Verdicts.CombinedDownIff | src/main.c:657-673 | the combined verdict is DOWN exactly if some history ends in three failures, or there were probes and all failed |
| Verdicts.CombinedHealthyIff | src/main.c:657-673 | the combined verdict is HEALTHY exactly if at most one probe in twenty failed and no target ever failed three times in a row |
| Verdicts.NoOutagesIff | src/main.c:651-671 | no outage was counted exactly if no target ever failed three times in a row, and then none is down |
| Verdicts.DownCarriesOver | src/main.c:657-673 | a DOWN target makes the combined verdict DOWN exactly if some target ends in three failures or no target has a success |
| Verdicts.TargetDownAlone | src/main.c:657-673 | a concrete pair: one target DOWN, the combined verdict DEGRADED |
| Report.FieldsTellHistory | src/diag.c:36-82 | computed from fields that track a history, the verdict is the one on that history |
| Report.VerdictOf | src/diag.c:74-82 | the verdict read from the statistics and diagnostics objects of a target is the verdict on its history |
| Report.PrintedCoherent | src/main.c:632-673 | for the list's own fields: all resolved targets HEALTHY makes the printed combined verdict HEALTHY, and DOWN there means a resolved target is DOWN |
| Combined.PrintCombined | src/main.c:619-693 | the roll-up equals one computation over the pooled samples of the resolved targets: counts, loss, extremes, mean, mean squared deviation, verdict |
| Combined.Accumulate | src/main.c:632-656 | the loop adds up exactly the resolved targets |
| Combined.ResolvedMeaning | src/main.c:632-636 | the targets rolled up are those at the resolved positions, in list order |
| Combined.PooledConcat | src/main.c:632-656 | the pooled samples of one target are its own, and those of two groups follow each other |
| Combined.TotalCounts | src/main.c:632-656 | counters, outages and flags are totals over the targets |
| Combined.TotalSums | src/main.c:640-641 | sums are those of the pooled samples |
| Combined.TotalExtremes | src/main.c:642-650 | extremes are those of the pooled samples |
| Combined.MeanAndVariance | src/main.c:660-666 | mean and variance from the totals are those of the pooled samples, clamp idle |
| Combined.AnyInterleaving | src/main.c:632-667 | one pass over any interleaving of the samples gives the same numbers |
| LoadTest.WorkerMain | src/loadtest.c:68-96 | a worker's counters count exactly its attempts up to the first interrupted one; other workers' counters are untouched |
| LoadTest.CountedMeaning | src/loadtest.c:80-95 | one more attempt with code 0 is a success with its time, with code 107 an attempt only, with any other code a failure |
| LoadTest.RanMeaning | src/loadtest.c:80-95 | a worker makes the attempts up to the first one with code 107, or all of them |
| LoadTest.Merge | src/loadtest.c:228-249 | the merged result is one computation over the attempts of all workers; minimum 0 without a success |
| LoadTest.MergedNext | src/loadtest.c:234-246 | merging one worker more is pooling its samples |
| LoadTest.MergedIsCounted | src/loadtest.c:228-246 | the merged counters are those of all workers' attempts in one list |
| LoadTest.AloneIsMain | src/loadtest.c:68-96 | a worker's single steps, taken alone, are its loop |
| LoadTest.Interleave | src/loadtest.c:188-226 | under any interleaving of the workers' steps each worker ends with the counters of its own attempts |
| LoadTest.Run | src/loadtest.c:163-254 | concurrency is clamped to 1..256, failing allocation fails the test, a refused thread ends the start-up, and what ran concurrently is merged |
| LoadTest.Clamp | src/loadtest.c:165-171 | the number of workers is within 1..256, and the one asked for if that is |
| LoadTest.AttemptsBounded | src/loadtest.c:80-95 | Success + Failed ≤ Attempts ≤ Success + Failed + started workers |
| LoadTest.PooledMoments | src/loadtest.c:116-135 | average, variance and extremes are those of one pass over any interleaving of the workers' samples |
| LoadTest.BuildRamp | src/loadtest.c:284-288 | the ramp is 1, 2, 4, ... below the clamped maximum, then the maximum; its array never runs full |
| LoadTest.FindKnee | src/loadtest.c:301-333 | the knee is the first degraded level, never the very first level |
| LoadTest.MeasuresMeaning | src/loadtest.c:116-142 | loss is failures in a hundred attempts and the average is milliseconds per success, both 0 of nothing |
| LoadTest.DegradedMeaning | src/loadtest.c:323-329 | degraded is a loss more than two points above the first level, or an average more than twice that of a first level that has one |
| Names.EncodeName | src/resolve.c:74-101 | succeeds exactly if every label up to the first empty one has at most 63 bytes and the wire form is strictly shorter than the buffer; it then writes exactly the wire form there |
| Names.EncodableIff | src/resolve.c:79-100 | a name can be encoded exactly if its labels have at most 63 bytes and the room exceeds the length of the labels joined by dots plus two, or one for the root |
| Names.WireLayout | src/resolve.c:88-99 | a label is its length and its bytes; the name ends in a zero byte, or in two bytes that hold 49152 plus the target |
| Names.WriteLabels | src/resolve.c:79-95 | the label loop, with its two ways to give up |
| Names.NotEncodable | src/resolve.c:82-86 | giving up at a label means that the name as a whole does not fit |
| Names.LabelsMeaning | src/resolve.c:79-94 | the labels joined by dots are the name, but for a tail without further labels |
| Names.LabelsOfJoin | src/resolve.c:79-94 | splitting joined labels gives them back |
| Names.SkipName | src/resolve.c:104-118 | the loop computes where the name ends, or that the message ends first |
| Names.SkipMeaning | src/resolve.c:104-118 | on any bytes: from each byte between 1 and 191 that many bytes and one further; it ends behind a zero byte, behind the two bytes of a pointer, or without a result beyond the message |
| Names.SkipStops | src/resolve.c:104-118 | inside any message, skipping a well-formed name, root-terminated or compressed, stops exactly behind it |
| Names.DecodeWire | src/resolve.c:88-100 | the wire form decodes to the labels |
| Names.EncodedReadsBack | src/resolve.c:74-118 | whatever `EncodeName` wrote decodes to the name's labels and is skipped exactly |
| Answers.BuildQuery | src/resolve.c:141-160 | the query is the serialisation of a recursive one-question TXT message, twelve literal bytes, the name, type 16 and class 1; it is refused exactly if the name does not fit into 496 bytes |
| Answers.SkipQuestions | src/resolve.c:199-206 | the question loop, on any bytes |
| Answers.InspectRecord | src/resolve.c:214-233 | the body of the answer loop; the byte read for an empty TXT record does not matter |
| Answers.InspectMeaning | src/resolve.c:214-233 | a record cut short breaks the scan; a whole one gives up its text exactly if it is of type 16, not empty, and the string it begins with ends inside it, and is passed over otherwise |
| Answers.ScanAnswers | src/resolve.c:208-235 | the answer loop finds the text and where it stands, on any bytes |
| Answers.FindText | src/resolve.c:191-235 | for any datagram that holds a header: whether there is a text, and where it stands |
| Answers.ReadAnswer | src/resolve.c:187-235 | for any datagram or receive error: the text found stands in the buffer, terminated, with the rest kept, or as much of it as fits; otherwise only the first byte is cleared |
| Answers.RecordScanned | src/resolve.c:208-233 | a well-formed record gives up its first text or is passed over exactly |
| Answers.FixedLayout | src/resolve.c:217-219 | the ten bytes behind the name of a record begin with its type, 16 for texts, and end with the length of its data |
| Answers.ScanRoundTrip | src/resolve.c:187-235 | the scan of any serialised message returns the first character-string of its first TXT answer, and nothing exactly if there is none |
| Answers.FirstTextNone | src/resolve.c:235 | nothing is found exactly if no answer is a TXT record |
| Answers.FirstTextIs | src/resolve.c:223-231 | otherwise it is the first string of the first TXT record |
| Origin.BuildOriginQuery | src/resolve.c:278-306 | the query text of an IPv4 or IPv6 address stands in the buffer, terminated, or as much of it as fits; other families are refused and the buffer left alone |
| Origin.NameOfV4 | src/resolve.c:280-287 | the four decimal numbers, last byte first, and origin.asn.cymru.com |
| Origin.NameOfV6 | src/resolve.c:289-304 | 85 bytes: the hexadecimal digits of the sixteen bytes, last byte and low digit first, each with a dot, and origin6.asn.cymru.com |
| Origin.HexMeaning | src/resolve.c:292-300 | the digits are 0 to 9 and a to f |
| Origin.OriginEncodes | src/resolve.c:308-334 | every such name fits all buffers on its way and encodes |
| Origin.OriginInjective | src/resolve.c:278-306 | the name determines the address, family included |
| Cymru.CymruField | src/resolve.c:239-275 | the trimmed field of that index stands in the buffer, terminated, with the rest kept, or as much of it as fits; of a missing field only the terminator |
| Bytes.Copy | src/resolve.c:226-230 | a text that fits is copied with its terminator and nothing behind it changes; of a longer one the first bytes are copied and terminated |
| Bytes.WordMeaning | src/resolve.c:195-222 | two bytes make a 16-bit word, the first one its high half |
| Cymru.FieldAtMeaning | src/resolve.c:239-275 | of fields joined by bars the one of that index is found without the spaces around it, and nothing for any other index, negative ones included |
| Cymru.FindField | src/resolve.c:246-274 | the walk finds the field |
| Cymru.FieldsOfJoin | src/resolve.c:247-271 | joining fields and splitting them gives them back |
| Cymru.JoinOfFields | src/resolve.c:247-271 | splitting a record and joining the fields gives it back |
| Cymru.TrimUnique | src/resolve.c:250-258 | trimming cuts off exactly the surrounding spaces |
| Tokens.NextToken | src/targets.c:17-40 | one call yields the first run of what is pending as a string in the buffer; it overwrites the delimiter behind it and nothing else, and leaves a null save pointer when no token is left |
| Tokens.FirstToken | src/targets.c:17-40 | the tokens of a text are that run followed by the tokens of what is then pending |
| Tokens.SplitMeaning | src/targets.c:17-40 | the tokens are exactly the maximal delimiter-free runs, in order |
| Tokens.PendingKept | src/targets.c:85-88 | whatever a caller writes into the current token leaves the pending ones alone |
| Tokens.SplitOfJoin | src/targets.c:78-79 | splitting joined parts gives them back |
| Ports.ReadBounds | src/targets.c:80-92 | the bounds of a token, whose dash is overwritten while the pending tokens stay |
| Ports.Append | src/targets.c:97-103 | a range is appended in full and in ascending order, or the array is full |
| Ports.ParsePortList | src/targets.c:66-106 | accepted exactly if every token is a port or range within 1..65535 and all ports fit; then the array holds their expansion in order |
| Ports.PrintedParses | src/targets.c:66-106 | any printed list of ports and ranges is a string the parser takes, and parsing it gives its expansion |
| Ports.StrtolOfDigits | src/targets.c:87-90 | numerals read back, too large ones as the largest `long` |
| Ports.StrtolMeaning | src/targets.c:87-90 | any string is read as blanks, at most one sign and the digits up to the first other byte, within the range of a 64-bit `long` |
| Decimal.ValueAppend | src/targets.c:87-90 | the digits are the bytes 48 to 57, the most significant one in front |
| Ports.BoundsMeaning | src/targets.c:80-92 | a token without a dash is one number twice; any other is split at its first dash |
| Ports.GoodIff | src/targets.c:93-96 | of all written numbers and ranges exactly those within 1..65535, in ascending order, are good |
| Ports.SpecTokens | src/targets.c:69-79 | a port list is cut after 511 bytes, a protocol list after 63, and split at commas |
| Ports.ProtoFromToken | src/targets.c:47-63 | the seven-character comparison is equality with tcp, udp or icmp in any case |
| Ports.ProtoMeaning | src/targets.c:47-63 | letter by letter, in either case: which words are TCP, UDP and ICMP |
| Ports.ParseProtoList | src/targets.c:109-138 | accepted exactly if all tokens are protocols and at most as many as fit; TCP when none is named |
| Ports.ChosenMeaning | src/targets.c:119-138 | TCP alone for no token, otherwise one protocol for each, in order |
| TargetLists.TargetList.Add | src/targets.c:144-175 | appends one entry with the host, cut to 255 bytes, the port and the protocol given and all else zero, through reallocation to 8 entries or twice as many too; a failed reallocation changes nothing |
| TargetLists.Build | src/targets.c:286-341 | with good arguments and memory the list is the positional matrix; it fails only on bad arguments or failed reallocation |
| TargetLists.MatrixAt | src/targets.c:325-340 | host-major, then protocol, then port: host, port and protocol of the entry at each place, port 0 for ICMP |
| TargetLists.MatrixLength | src/targets.c:325-340 | hosts times (1 per ICMP, port count otherwise) entries |
| TargetLists.WidthMeaning | src/targets.c:325-340 | the entries of one host: one for each ICMP, and one per port for each other protocol |
| TargetLists.AddHosts | src/targets.c:325-340 | the three nested loops produce the matrix |
| TargetLists.ParseArguments | src/targets.c:306-323 | both lists are parsed, and a port is demanded exactly if some protocol needs one |
| TargetLists.WellFormedIff | src/targets.c:306-323 | good arguments: at most 1024 ports, all within range, at most eight known protocols, and a port unless ICMP alone is asked for |
| Resolving.Resolve | src/targets.c:389-429 | every entry is as if resolved alone, but that a cached one keeps its error code; counts the resolvable ones and records the lookups |
| Resolving.AfterMeaning | src/targets.c:403-427 | field by field: code 0 yields the addresses, any other code becomes the error and leaves the addresses; port and protocol are the own ones |
| Resolving.ResolvableCount | src/targets.c:386-429 | the number returned is that of the entries whose host resolves |
| Resolving.CacheIsTransparent | src/targets.c:403-427 | a target is as if resolved alone exactly if it was not cached or its error code was that of success; it keeps its own port and protocol in any case |
| Resolving.FreshListTransparent | src/main.c:1092 | on any list of unresolved entries, however they were added, the cache changes nothing |
| Resolving.BuiltListTransparent | src/targets.c:325-427 | so it is on the list built from the positional arguments |
| TargetLists.MatrixUnresolved | src/targets.c:159-164 | the entries built are unresolved, without error code and addresses |
| Resolving.EachHostOnce | src/targets.c:403-427 | a resolvable host is looked up once if it occurs, an unresolvable one once per occurrence |
| Failover.Connect | src/socket.c:875-934 | reports the first address that answers or is interrupted, else the last address with its error; the argument and start-up errors come first |
| Failover.ReachedIff | src/socket.c:893-925 | a target is reached exactly if some address answers and none before it was interrupted |
| Checksum.IcmpChecksum | src/socket.c:649-663 | up to 131074 bytes the complement of the end-around-carry sum, after at most two folds; with wrap-around explicit beyond |
| Checksum.WordSumMeaning | src/socket.c:653-658 | the words are big-endian, an odd last byte is a high half, and an even number of bytes in front adds its own words |
| Checksum.ChecksumMeaning | src/socket.c:650-662 | for any length, the complement of the folded sum modulo 2^32 |
| Checksum.ResidueMeaning | src/socket.c:659-661 | the folded sum is congruent to the sum modulo 65535 |
| Checksum.FoldCarries | src/socket.c:659-661 | the fold of any 32-bit sum takes at most two rounds and gives its one's complement representative |
| Checksum.OnesSumIsResidue | src/socket.c:653-661 | the end-around-carry sum depends on the plain sum alone |
| Checksum.NoWrapIff | src/socket.c:650-658 | no buffer of n bytes can overflow the sum if and only if n ≤ 131074 |
| Checksum.ChecksumVerifies | src/socket.c:788-793 | storing the checksum into a zero field at an even offset makes the packet check to zero |
| Checksum.BuildEcho | src/socket.c:779-793 | the ICMPv4 echo packet checks to zero and carries type, id, sequence and payload; ICMPv6 leaves the field zero |
| Json.JsonEscape | src/main.c:203-227 | writes as many whole escaped characters as the guard allows, terminated; no escape is ever split |
| Json.FilledReadsBack | src/main.c:203-227 | what was written unescapes to a prefix of the source with control bytes blanked, all of it if the buffer is longer than twice the text |
| Json.UnescapeEscaped | src/main.c:216-225 | unescaping inverts escaping, control bytes blanked |
| Json.ReaderMeaning | src/main.c:216-225 | the reader, byte by byte: quotes and backslashes only behind a backslash, nothing else behind one, no control bytes |
| Json.BlankedMeaning | src/main.c:220-221 | bytes below 32 become spaces and no others change, so exactly the texts without them are kept |

## Left out

- Sockets, `poll`, TLS, resolver, signals, clocks and the Windows API: foreign effects; a probe is an oracle for its outcome.
- The threads' memory model: the pool is a transition system whose steps are atomic, so data races are not modelled; every access to a shared field is inside a step that owns the mutex, and scratch fields belong to the worker that claimed the target.
- Pool.Step: `pthread_create` may fail at any thread, but failing `calloc` in `Cpool_Create` is not modelled.
- LoadTest.Run: the clock; a worker's script holds its attempts for as long as its loop condition held.
- ProbeLoop.Run: the state of the pool after each cycle is a parameter, taken from any run of the transition system; the two systems are not one.
- ProbeLoop.ResultPass: the list is an array of values, without the retained samples; the mutable objects of one target, samples included, are the class `Target`, whose value it is.
- Floating-point rounding, NaN, overflow beyond `DBL_MAX` and the precision of `sqrt`: doubles are reals, and standard deviations are compared through their squares.
- The width of the attempt counters: natural numbers.
- Statistics.Qsort: `qsort` is replaced by a loop that stores the one possible sorted arrangement.
- Text output: alerts as printed, labels, CSV, Prometheus, colours, error messages, the percentile lines of the summary.
- TargetLists.Build: the positional arguments only; `--target` specifications and the targets file (whose ports are not range-checked) are left out.
- Resolving.Resolve: the answer is assumed to depend on the host string alone; `getaddrinfo` is also given the protocol. A lookup that yields no usable address resets an address count that is already zero in a built list.
- `Resolve_Annotate`: only its parts are modelled; shortening the AS number to its first word is an easy step between them.
- `BloatName`, `QualityName`, `LoadTest_Rps`: single expressions.
- Failover.Connect: the probe itself, the port written into the address and the address as text.
- `src/traceroute.c`, `src/http.c`, `src/arguments.c`, `src/config.c`, `src/print.c`, `src/csv.c`, `src/timer.c`: input and output, option tables, clocks.
