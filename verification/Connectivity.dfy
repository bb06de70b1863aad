/** Failure blocks of a probe history: what the connectivity fields of the diagnostics mean. */
module Connectivity {
  datatype Observation = Failure | Success(rtt: real)

  const DIAG_DOWN_THRESHOLD: nat := 3

  /** The n observations from position i on are failures. */
  predicate BlockAt(h: seq<Observation>, i: nat, n: nat) {
    i + n <= |h| && forall k :: i <= k < i + n ==> h[k].Failure?
  }

  /** n is the length of the failure block the history ends with. */
  predicate IsTrailing(h: seq<Observation>, n: nat) {
    n <= |h| && BlockAt(h, |h| - n, n) && (n < |h| ==> h[|h| - n - 1].Success?)
  }

  ghost predicate HasBlock(h: seq<Observation>, n: nat) {
    exists i: nat :: BlockAt(h, i, n)
  }

  /** n is the length of the longest failure block. */
  ghost predicate IsLongest(h: seq<Observation>, n: nat) {
    HasBlock(h, n) && !HasBlock(h, n + 1)
  }

  /** Position i begins a maximal failure block of at least the threshold length. */
  predicate StartsOutage(h: seq<Observation>, i: nat) {
    BlockAt(h, i, 3) && (0 < i ==> h[i - 1].Success?)
  }

  /** One position for each maximal failure block of at least the threshold length. */
  ghost function OutageStarts(h: seq<Observation>): set<nat> {
    set i: nat | i < |h| && StartsOutage(h, i)
  }

  function CountFailures(h: seq<Observation>): nat {
    if h == [] then 0
    else CountFailures(h[..|h| - 1]) + (if h[|h| - 1].Failure? then 1 else 0)
  }

  // ---- Appending one observation ----

  lemma {:induction false} TrailingAppend(h: seq<Observation>, x: Observation, n: nat)
    requires IsTrailing(h, n)
    ensures IsTrailing(h + [x], if x.Failure? then n + 1 else 0)
  {
  }

  lemma {:induction false} TrailingUnique(h: seq<Observation>, m: nat, n: nat)
    requires IsTrailing(h, m) && IsTrailing(h, n)
    ensures m == n
  {
    // The observations just before the two blocks.
    var x := if m < |h| then h[|h| - m - 1] else Failure;
    var y := if n < |h| then h[|h| - n - 1] else Failure;
  }

  lemma {:induction false} BlockKept(h: seq<Observation>, x: Observation, n: nat)
    requires HasBlock(h, n)
    ensures HasBlock(h + [x], n)
  {
    var i: nat :| BlockAt(h, i, n);
    assert BlockAt(h + [x], i, n);
  }

  /** A block of the longer history is one of the shorter, or ends at the new failure. */
  lemma {:induction false} BlockAppend(h: seq<Observation>, x: Observation, t: nat, n: nat)
    requires IsTrailing(h, t) && HasBlock(h + [x], n)
    ensures HasBlock(h, n) || (x.Failure? && n <= t + 1)
  {
    var i: nat :| BlockAt(h + [x], i, n);
    if i + n <= |h| {
      forall k | i <= k < i + n ensures h[k].Failure? {
        assert (h + [x])[k] == h[k];
      }
      assert BlockAt(h, i, n);
    } else {
      // The success before the trailing block, and the observation just added.
      var before := if t < |h| then (h + [x])[|h| - t - 1] else x;
      var added := (h + [x])[|h|];
      assert n == 0 ==> BlockAt(h, 0, 0);
    }
  }

  lemma {:induction false} TrailingBlock(h: seq<Observation>, t: nat)
    requires IsTrailing(h, t)
    ensures HasBlock(h, t)
  {
    assert BlockAt(h, |h| - t, t);
  }

  lemma {:induction false} LongestAppend(h: seq<Observation>, x: Observation, t: nat, n: nat)
    requires IsTrailing(h, t) && IsLongest(h, n)
    ensures IsLongest(h + [x], if x.Failure? && n < t + 1 then t + 1 else n)
  {
    TrailingAppend(h, x, t);
    BlockKept(h, x, n);
    var m := if x.Failure? && n < t + 1 then t + 1 else n;
    if x.Failure? {
      TrailingBlock(h + [x], t + 1);
    }
    if HasBlock(h + [x], m + 1) {
      BlockAppend(h, x, t, m + 1);
      ShorterBlock(h, m + 1, n + 1);
    }
  }

  lemma {:induction false} ShorterBlock(h: seq<Observation>, m: nat, n: nat)
    requires n <= m && HasBlock(h, m)
    ensures HasBlock(h, n)
  {
    var i: nat :| BlockAt(h, i, m);
    assert BlockAt(h, i, n);
  }

  /** A new outage begins to count exactly when a trailing block of two grows to three. */
  lemma {:induction false} OutagesAppend(h: seq<Observation>, x: Observation, t: nat)
    requires IsTrailing(h, t)
    ensures |OutageStarts(h + [x])|
         == |OutageStarts(h)| + (if x.Failure? && t + 1 == 3 then 1 else 0)
  {
    var g := h + [x];
    forall i: nat ensures StartsOutage(g, i) <==>
      StartsOutage(h, i) || (i + 2 == |h| && x.Failure? && t + 1 == 3)
    {
      StartAppend(h, x, t, i);
    }
    if x.Failure? && t + 1 == 3 {
      assert OutageStarts(g) == OutageStarts(h) + {|h| - 2};
    } else {
      assert OutageStarts(g) == OutageStarts(h);
    }
  }

  lemma {:induction false} ThreeInARow(h: seq<Observation>, i: nat)
    requires i + 3 <= |h|
    ensures BlockAt(h, i, 3) <==> h[i].Failure? && h[i + 1].Failure? && h[i + 2].Failure?
  {
    if h[i].Failure? && h[i + 1].Failure? && h[i + 2].Failure? {
      forall k | i <= k < i + 3 ensures h[k].Failure? {
        assert k == i || k == i + 1 || k == i + 2;
      }
    }
  }

  lemma {:induction false} StartAppend(h: seq<Observation>, x: Observation, t: nat, i: nat)
    requires IsTrailing(h, t)
    ensures StartsOutage(h + [x], i) <==>
              StartsOutage(h, i) || (i + 2 == |h| && x.Failure? && t + 1 == 3)
  {
    var g := h + [x];
    if i + 3 <= |h| {
      ThreeInARow(g, i);
      ThreeInARow(h, i);
    } else if i + 2 == |h| {
      ThreeInARow(g, i);
      assert g[i + 2] == x && g[i] == h[i] && g[i + 1] == h[i + 1];
      if StartsOutage(g, i) {
        assert h[i].Failure? && h[i + 1].Failure? && (0 < i ==> g[i - 1] == h[i - 1]);
        assert BlockAt(h, i, 2) && |h| - 2 == i;
        assert IsTrailing(h, 2);
        TrailingUnique(h, t, 2);
      }
    }
  }

  /** Three failures in a row and an outage counted are the same thing. */
  lemma {:induction false} OutageIffBlock(h: seq<Observation>)
    ensures OutageStarts(h) != {} <==> HasBlock(h, 3)
  {
    if OutageStarts(h) != {} {
      var i :| i in OutageStarts(h);
      assert BlockAt(h, i, 3);
    }
    if HasBlock(h, 3) {
      var i: nat :| BlockAt(h, i, 3);
      var j := FirstOfBlock(h, i);
      assert BlockAt(h, j, 3);
      assert j in OutageStarts(h);
    }
  }

  /** Walk back to the beginning of a failure block. */
  lemma {:induction false} FirstOfBlock(h: seq<Observation>, i: nat) returns (j: nat)
    requires BlockAt(h, i, 3)
    ensures StartsOutage(h, j)
  {
    if i == 0 || h[i - 1].Success? {
      j := i;
    } else {
      j := FirstOfBlock(h, i - 1);
    }
  }

  // ---- The tracker, and what its fields mean ----

  datatype LinkAlert = Down | Recovered(after: nat)

  datatype Link = Link(fails: nat, longest: nat, outages: nat, down: bool, alerts: seq<LinkAlert>)

  /** One observation, as seen by the connectivity fields. */
  function Follow(l: Link, x: Observation): Link {
    if x.Success? then
      Link(0, l.longest, l.outages, false, if l.down then l.alerts + [Recovered(l.fails)] else l.alerts)
    else
      var fails := l.fails + 1;
      var longest := if fails > l.longest then fails else l.longest;
      if fails == DIAG_DOWN_THRESHOLD then Link(fails, longest, l.outages + 1, true, l.alerts + [Down])
      else Link(fails, longest, l.outages, l.down, l.alerts)
  }

  function LinkOf(h: seq<Observation>): Link {
    if h == [] then Link(0, 0, 0, false, []) else Follow(LinkOf(h[..|h| - 1]), h[|h| - 1])
  }

  /** DOWN first, then in turns with RECOVERED. */
  predicate LinkAlternating(alerts: seq<LinkAlert>) {
    forall i :: 0 <= i < |alerts| ==> (alerts[i].Down? <==> i % 2 == 0)
  }

  ghost predicate Means(l: Link, h: seq<Observation>) {
    && IsTrailing(h, l.fails)
    && IsLongest(h, l.longest)
    && l.outages == |OutageStarts(h)|
    && (l.down <==> 3 <= l.fails)
  }

  /**
   For every history: the current streak is the trailing failure block, the longest streak the longest
   block, and the outages the maximal blocks of at least three; the link is down exactly while the
   trailing block is that long.
   */
  lemma {:induction false} LinkMeaning(h: seq<Observation>)
    ensures Means(LinkOf(h), h)
  {
    if h == [] {
      assert BlockAt(h, 0, 0);
      assert OutageStarts(h) == {};
    } else {
      var g, x := h[..|h| - 1], h[|h| - 1];
      assert h == g + [x];
      LinkMeaning(g);
      MeaningStep(LinkOf(g), g, x);
    }
  }

  lemma {:induction false} MeaningStep(l: Link, h: seq<Observation>, x: Observation)
    requires Means(l, h)
    ensures Means(Follow(l, x), h + [x])
  {
    TrailingAppend(h, x, l.fails);
    LongestAppend(h, x, l.fails, l.longest);
    OutagesAppend(h, x, l.fails);
  }

  /** DOWN and RECOVERED strictly alternate, starting with DOWN, with one DOWN for every outage. */
  lemma {:induction false} LinkAlertsAlternate(h: seq<Observation>)
    ensures var l := LinkOf(h);
      && LinkAlternating(l.alerts)
      && |l.alerts| == 2 * l.outages - (if l.down then 1 else 0)
      && (l.down <==> 3 <= l.fails)
  {
    if h != [] {
      LinkAlertsAlternate(h[..|h| - 1]);
    }
  }

  /**
   After a trailing block of n failures: a success raises RECOVERED, with that number, if there were at least
   three; a failure raises DOWN if it is the third.
   */
  lemma {:induction false} AlertsAppend(h: seq<Observation>, x: Observation, n: nat)
    requires IsTrailing(h, n)
    ensures LinkOf(h + [x]).alerts
         == LinkOf(h).alerts + if x.Success? && 3 <= n then [Recovered(n)]
                               else if x.Failure? && n == 2 then [Down]
                               else []
  {
    LinkMeaning(h);
    TrailingUnique(h, n, LinkOf(h).fails);
    assert (h + [x])[..|h|] == h;
    assert LinkOf(h).alerts + [] == LinkOf(h).alerts;
  }

  /** Each outage takes three failures of its own; the failures now trailing come on top. */
  lemma {:induction false} OutageBudget(h: seq<Observation>)
    ensures var l := LinkOf(h);
      3 * l.outages + (if l.down then l.fails - 3 else l.fails) <= CountFailures(h)
      && (l.down <==> 3 <= l.fails)
  {
    if h != [] {
      OutageBudget(h[..|h| - 1]);
    }
  }
}
