/** The statistics of one target: src/stats.c. */
module Statistics {
  import opened Reals
  import opened Moments
  import opened Percentiles

  const MAX_RETAINED_SAMPLES: nat := 1000000

  /** 64 * 2^j. */
  function Doubled(j: nat): nat { if j == 0 then 64 else 2 * Doubled(j - 1) }

  /** A capacity the growth policy can reach. */
  predicate IsCapacity(cap: nat) {
    cap == 0 || exists j :: 0 <= j <= 14 && cap == Doubled(j)
  }

  lemma {:induction false} DoubledMonotone(i: nat, j: nat)
    requires i <= j
    ensures Doubled(i) <= Doubled(j)
  {
    if i < j {
      DoubledMonotone(i, j - 1);
    }
  }

  lemma {:induction false} LargestCapacity()
    ensures Doubled(14) == 1048576
  {
    assert Doubled(5) == 2048;
    assert Doubled(10) == 65536;
  }

  lemma {:induction false} CapacityGrows(cap: nat)
    requires IsCapacity(cap) && cap < MAX_RETAINED_SAMPLES
    ensures IsCapacity(if cap == 0 then 64 else 2 * cap)
  {
    LargestCapacity();
    if cap == 0 {
      assert 64 == Doubled(0);
    } else {
      var j :| 0 <= j <= 14 && cap == Doubled(j);
      assert 2 * cap == Doubled(j + 1);
    }
  }

  /** Whatever the number of samples, the array never exceeds 2^20 entries. */
  lemma {:induction false} CapacityBound(cap: nat)
    requires IsCapacity(cap)
    ensures cap <= 1048576
  {
    LargestCapacity();
    if cap != 0 {
      var j :| 0 <= j <= 14 && cap == Doubled(j);
      DoubledMonotone(j, 14);
    }
  }

  /** The elements of a appear in b in the same order. */
  predicate Subsequence(a: seq<real>, b: seq<real>) {
    a == [] ||
    (b != [] && ((a[|a| - 1] == b[|b| - 1] && Subsequence(a[..|a| - 1], b[..|b| - 1]))
                 || Subsequence(a, b[..|b| - 1])))
  }

  lemma {:induction false} SubsequenceAppend(a: seq<real>, b: seq<real>, x: real)
    requires Subsequence(a, b)
    ensures Subsequence(a, b + [x]) && Subsequence(a + [x], b + [x])
  {
    assert (b + [x])[..|b|] == b && (a + [x])[..|a|] == a;
  }

  lemma {:induction false} SubsequenceMembers(a: seq<real>, b: seq<real>)
    requires Subsequence(a, b)
    ensures forall x :: x in a ==> x in b
  {
    if a != [] {
      var a', b' := a[..|a| - 1], b[..|b| - 1];
      assert a == a' + [a[|a| - 1]] && b == b' + [b[|b| - 1]];
      if a[|a| - 1] == b[|b| - 1] && Subsequence(a', b') {
        SubsequenceMembers(a', b');
      } else {
        SubsequenceMembers(a, b');
      }
    }
  }

  /** The values retained when memory never runs out. */
  function FirstOf(s: seq<real>): seq<real> {
    if |s| <= MAX_RETAINED_SAMPLES then s else s[..MAX_RETAINED_SAMPLES]
  }

  lemma {:induction false} FirstOfAppend(s: seq<real>, x: real)
    ensures FirstOf(s + [x]) == if |s| < MAX_RETAINED_SAMPLES then FirstOf(s) + [x] else FirstOf(s)
  {
  }

  /** memcpy of the first n entries. */
  method CopyPrefix(src: array<real>, n: nat, dst: array<real>)
    requires n <= src.Length && n <= dst.Length && src != dst
    modifies dst
    ensures dst[..n] == src[..n]
  {
    for i := 0 to n
      invariant forall k :: 0 <= k < i ==> dst[k] == src[k]
    {
      dst[i] := src[i];
    }
  }

  /** The index computation of Stats_Percentile, clamps included. */
  method PercentileIndex(n: nat, percent: real) returns (idx: int)
    requires 0 < n
    ensures idx == Index(n, percent)
  {
    if percent <= 0.0 {
      idx := 0;
    } else if percent >= 100.0 {
      idx := n - 1;
    } else {
      RankInRange(n, percent);
      idx := Ceil(percent / 100.0 * n as real);
      if idx > 0 {
        idx := idx - 1;
      }
      if idx >= n {
        idx := n - 1;
      }
    }
  }

  /** qsort, with a comparison that orders doubles. */
  method Qsort(a: array<real>)
    modifies a
    ensures a[..] == Sort(old(a[..]))
  {
    var s := Sort(a[..]);
    for i := 0 to a.Length
      invariant forall k :: 0 <= k < i ==> a[k] == s[k]
    {
      a[i] := s[i];
    }
    assert a[..] == s;
  }

  class Stats {
    var attempts: nat
    var connects: nat
    var failures: nat
    var total: real
    var totalSq: real
    var minimum: real
    var maximum: real
    var samples: array<real>
    var sampleCount: nat
    var sampleCap: nat

    /** Every value added, and whether some reallocation has failed. */
    ghost var added: seq<real>
    ghost var outOfMemory: bool

    /** Extremes and sums cover every value, retained or not. */
    ghost predicate MomentsFor(all: seq<real>)
      reads this`total, this`totalSq, this`minimum, this`maximum
    {
      total == Sum(all) && totalSq == SumSq(all) && minimum == Least(all) && maximum == Greatest(all)
    }

    /** The retained samples: a subsequence, and all of the first million unless memory ran out. */
    ghost predicate SamplesFor(all: seq<real>)
      reads this`samples, this`sampleCount, this`sampleCap, this`outOfMemory, samples
    {
      && sampleCap == samples.Length && IsCapacity(sampleCap)
      && sampleCount <= sampleCap && sampleCount <= MAX_RETAINED_SAMPLES && sampleCount <= |all|
      && Subsequence(samples[..sampleCount], all)
      && (!outOfMemory ==> samples[..sampleCount] == FirstOf(all))
    }

    ghost predicate Valid()
      reads this`total, this`totalSq, this`minimum, this`maximum, this`added
      reads this`samples, this`sampleCount, this`sampleCap, this`outOfMemory, samples
    {
      MomentsFor(added) && SamplesFor(added)
    }

    ghost function Retained(): (s: seq<real>)
      requires sampleCount <= samples.Length
      reads this, samples
    {
      samples[..sampleCount]
    }

    constructor ()
      ensures Valid() && fresh(samples)
      ensures added == [] && !outOfMemory && attempts == connects == failures == 0
    {
      attempts, connects, failures := 0, 0, 0;
      total, totalSq, minimum, maximum := 0.0, 0.0, DBL_MAX, 0.0;
      samples := new real[0];
      sampleCount, sampleCap := 0, 0;
      added, outOfMemory := [], false;
    }

    /** `grow` is whether realloc, if it is called, succeeds. */
    method AddSample(value: real, grow: bool)
      requires Valid()
      modifies this`total, this`totalSq, this`minimum, this`maximum, this`added
      modifies this`samples, this`sampleCount, this`sampleCap, this`outOfMemory, samples
      ensures Valid() && added == old(added) + [value]
      ensures samples == old(samples) || fresh(samples)
      ensures old(Retained()) <= Retained()
      ensures outOfMemory ==> old(outOfMemory) || !grow
    {
      AddMoments(value);
      Retain(value, grow);
      added := added + [value];
    }

    method AddMoments(value: real)
      requires MomentsFor(added)
      modifies this`total, this`totalSq, this`minimum, this`maximum
      ensures MomentsFor(added + [value])
    {
      assert (added + [value])[..|added|] == added;
      if value < minimum {
        minimum := value;
      }
      if value > maximum {
        maximum := value;
      }
      total := total + value;
      totalSq := totalSq + Times(value, value);
    }

    method Retain(value: real, grow: bool)
      requires SamplesFor(added)
      modifies this`samples, this`sampleCount, this`sampleCap, this`outOfMemory, samples
      ensures SamplesFor(added + [value])
      ensures samples == old(samples) || fresh(samples)
      ensures old(samples[..sampleCount]) <= samples[..sampleCount]
      ensures outOfMemory ==> old(outOfMemory) || !grow
    {
      ghost var kept := samples[..sampleCount];
      SubsequenceAppend(kept, added, value);
      FirstOfAppend(added, value);
      if sampleCount >= MAX_RETAINED_SAMPLES {
        return;
      }
      if sampleCount == sampleCap {
        if !grow {
          outOfMemory := true;
          return;
        }
        Grow();
      }
      samples[sampleCount] := value;
      sampleCount := sampleCount + 1;
      assert samples[..sampleCount] == kept + [value];
    }

    /** A successful realloc: a larger block, the old contents in front. */
    method Grow()
      requires sampleCap == samples.Length == sampleCount && IsCapacity(sampleCap)
      requires sampleCount < MAX_RETAINED_SAMPLES
      modifies this`samples, this`sampleCap
      ensures fresh(samples) && sampleCap == samples.Length && IsCapacity(sampleCap) && sampleCount < sampleCap
      ensures sampleCap == if old(sampleCap) == 0 then 64 else 2 * old(sampleCap)
      ensures samples[..sampleCount] == old(samples[..sampleCount])
    {
      CapacityGrows(sampleCap);
      var cap := if sampleCap == 0 then 64 else sampleCap * 2;
      var grown := new real[cap];
      CopyPrefix(samples, sampleCount, grown);
      samples := grown;
      sampleCap := cap;
    }

    /** Stats_Percentile; `alloc` is whether malloc finds room for the private copy. */
    method PercentileOf(percent: real, alloc: bool) returns (r: real)
      requires sampleCount <= samples.Length
      ensures r == if sampleCount == 0 || !alloc then 0.0 else Percentile(Retained(), percent)
    {
      if sampleCount == 0 || !alloc {
        return 0.0;
      }
      var sorted := new real[sampleCount];
      CopyPrefix(samples, sampleCount, sorted);
      assert sorted[..] == sorted[..sampleCount];
      Qsort(sorted);
      var idx := PercentileIndex(sampleCount, percent);
      r := sorted[..][idx];
    }

    /** The bufferbloat estimate of src/diag.c: 95th percentile over the smallest value, or the sentinel. */
    method BufferbloatMs(alloc: bool) returns (r: real)
      requires Valid()
      ensures connects == 0 || sampleCount < 5 ==> r == -1.0
      ensures connects > 0 && sampleCount >= 5 && alloc ==> r == (Percentile(Retained(), 95.0) - minimum) * 1000.0
      ensures connects > 0 && sampleCount >= 5 && !alloc ==> r == -minimum * 1000.0
      ensures connects > 0 && sampleCount >= 5 ==> (r < 0.0 <==> !alloc && 0.0 < minimum)
    {
      if connects == 0 || sampleCount < 5 {
        return -1.0;
      }
      var p95 := PercentileOf(95.0, alloc);
      if alloc {
        PercentileIsSample(Retained(), 95.0);
        SubsequenceMembers(Retained(), added);
        LeastBounds(added);
      }
      r := (p95 - minimum) * 1000.0;
    }
  }

  lemma {:induction false} ConstantLeast(s: seq<real>, x: real)
    requires s != [] && x < DBL_MAX && forall i :: 0 <= i < |s| ==> s[i] == x
    ensures Least(s) == x
  {
    LeastBounds(s);
  }

  /** One more successful probe, with memory enough. */
  method AddConnected(stats: Stats, value: real)
    requires stats.Valid() && !stats.outOfMemory
    modifies stats, stats.samples
    ensures stats.Valid() && !stats.outOfMemory && (stats.samples == old(stats.samples) || fresh(stats.samples))
    ensures stats.added == old(stats.added) + [value] && stats.connects == old(stats.connects) + 1
  {
    stats.AddSample(value, true);
    stats.connects := stats.connects + 1;
  }

  /** As long as memory sufficed, the first million values are retained and no others. */
  lemma {:induction false} FirstMillion(stats: Stats)
    requires stats.Valid() && !stats.outOfMemory
    ensures stats.sampleCount == if |stats.added| <= 1000000 then |stats.added| else 1000000
    ensures stats.samples[..stats.sampleCount] == stats.added[..stats.sampleCount]
  {
    assert |stats.samples[..stats.sampleCount]| == |FirstOf(stats.added)|;
  }

  /** Five samples of 10 ms. */
  method FiveSamples() returns (stats: Stats)
    ensures fresh(stats) && stats.Valid() && stats.connects == 5 && stats.sampleCount == 5 && stats.minimum == 0.01
  {
    stats := new Stats();
    for i := 0 to 5
      invariant stats.Valid() && fresh(stats) && fresh(stats.samples) && !stats.outOfMemory
      invariant stats.connects == i == |stats.added|
      invariant forall j :: 0 <= j < i ==> stats.added[j] == 0.01
    {
      AddConnected(stats, 0.01);
    }
    ConstantLeast(stats.added, 0.01);
    FirstMillion(stats);
  }

  /** A negative estimate that is not the sentinel: those samples, and no memory for the copy. */
  method BufferbloatWitness() returns (r: real)
    ensures r == -10.0
  {
    var stats := FiveSamples();
    r := stats.BufferbloatMs(false);
  }
}
