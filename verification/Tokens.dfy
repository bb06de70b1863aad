/** The destructive tokenizer of src/targets.c. */
module Tokens {
  import opened Bytes
  import opened Options

  /** strspn: how many leading characters belong to the set. */
  function Span(s: seq<byte>, delim: set<byte>): (n: nat)
    ensures n <= |s|
  {
    if s == [] || s[0] !in delim then 0 else 1 + Span(s[1..], delim)
  }

  /** strcspn: how many leading characters do not. */
  function Reach(s: seq<byte>, delim: set<byte>): (n: nat)
    ensures n <= |s|
  {
    if s == [] || s[0] in delim then 0 else 1 + Reach(s[1..], delim)
  }

  lemma {:induction false} SpanMeaning(s: seq<byte>, delim: set<byte>)
    ensures forall k :: 0 <= k < Span(s, delim) ==> s[k] in delim
    ensures Span(s, delim) < |s| ==> s[Span(s, delim)] !in delim
  {
    if s != [] && s[0] in delim {
      SpanMeaning(s[1..], delim);
      assert forall k :: 1 <= k < Span(s, delim) ==> s[k] == s[1..][k - 1];
    }
  }

  lemma {:induction false} ReachMeaning(s: seq<byte>, delim: set<byte>)
    ensures forall k :: 0 <= k < Reach(s, delim) ==> s[k] !in delim
    ensures Reach(s, delim) < |s| ==> s[Reach(s, delim)] in delim
  {
    if s != [] && s[0] !in delim {
      ReachMeaning(s[1..], delim);
      assert forall k :: 1 <= k < Reach(s, delim) ==> s[k] == s[1..][k - 1];
    }
  }

  lemma {:induction false} SpanIs(s: seq<byte>, delim: set<byte>, n: nat)
    requires n <= |s| && (forall k :: 0 <= k < n ==> s[k] in delim) && (n < |s| ==> s[n] !in delim)
    ensures Span(s, delim) == n
  {
    if n > 0 {
      SpanIs(s[1..], delim, n - 1);
    }
  }

  lemma {:induction false} ReachIs(s: seq<byte>, delim: set<byte>, n: nat)
    requires n <= |s| && (forall k :: 0 <= k < n ==> s[k] !in delim) && (n < |s| ==> s[n] in delim)
    ensures Reach(s, delim) == n
  {
    if n > 0 {
      ReachIs(s[1..], delim, n - 1);
    }
  }

  /** The tokens of a text, in order. */
  function Split(text: seq<byte>, delim: set<byte>): seq<seq<byte>>
    decreases |text|
  {
    var a := Span(text, delim);
    if a == |text| then []
    else
      var b := a + Reach(text[a..], delim);
      if b == |text| then [text[a..b]] else [text[a..b]] + Split(text[b + 1..], delim)
  }

  // ---- What the tokens are ----

  datatype Run = Run(start: nat, end: nat)

  /** A run of the text from a up to b: no delimiter inside, and none could be added at either end. */
  ghost predicate MaximalRun(text: seq<byte>, delim: set<byte>, a: nat, b: nat) {
    && a < b <= |text|
    && (forall k :: a <= k < b ==> text[k] !in delim)
    && (a == 0 || text[a - 1] in delim)
    && (b == |text| || text[b] in delim)
  }

  ghost predicate Inside(runs: seq<Run>, k: nat) {
    exists i :: 0 <= i < |runs| && runs[i].start <= k < runs[i].end
  }

  /** All maximal delimiter-free runs, from left to right. */
  ghost predicate AllRuns(text: seq<byte>, delim: set<byte>, runs: seq<Run>) {
    && (forall i :: 0 <= i < |runs| ==> MaximalRun(text, delim, runs[i].start, runs[i].end))
    && (forall i, j :: 0 <= i < j < |runs| ==> runs[i].end < runs[j].start)
    && (forall k :: 0 <= k < |text| && text[k] !in delim ==> Inside(runs, k))
  }

  ghost function Shift(runs: seq<Run>, d: nat): seq<Run> {
    seq(|runs|, (i: nat) requires i < |runs| => Run(runs[i].start + d, runs[i].end + d))
  }

  lemma {:induction false} RunShifts(text: seq<byte>, delim: set<byte>, from: nat, a: nat, b: nat)
    requires 0 < from <= |text| && text[from - 1] in delim && MaximalRun(text[from..], delim, a, b)
    ensures MaximalRun(text, delim, a + from, b + from)
  {
    var rest := text[from..];
    forall k | a + from <= k < b + from ensures text[k] !in delim {
      assert text[k] == rest[k - from];
    }
    assert a > 0 ==> text[a + from - 1] == rest[a - 1];
    assert b < |rest| ==> text[b + from] == rest[b];
  }

  lemma {:induction false} RunsConsMaximal(text: seq<byte>, delim: set<byte>, a: nat, b: nat, runs: seq<Run>)
    requires MaximalRun(text, delim, a, b) && b < |text|
    requires forall i :: 0 <= i < |runs| ==> MaximalRun(text[b + 1..], delim, runs[i].start, runs[i].end)
    ensures var all := [Run(a, b)] + Shift(runs, b + 1);
      forall i :: 0 <= i < |all| ==> MaximalRun(text, delim, all[i].start, all[i].end)
  {
    var all := [Run(a, b)] + Shift(runs, b + 1);
    forall i | 1 <= i < |all| ensures MaximalRun(text, delim, all[i].start, all[i].end) {
      RunShifts(text, delim, b + 1, runs[i - 1].start, runs[i - 1].end);
    }
  }

  lemma {:induction false} RunsConsCover(text: seq<byte>, delim: set<byte>, a: nat, b: nat, runs: seq<Run>)
    requires MaximalRun(text, delim, a, b) && b < |text| && (forall k :: 0 <= k < a ==> text[k] in delim)
    requires forall k :: 0 <= k < |text[b + 1..]| && text[b + 1..][k] !in delim ==> Inside(runs, k)
    ensures forall k :: 0 <= k < |text| && text[k] !in delim ==> Inside([Run(a, b)] + Shift(runs, b + 1), k)
  {
    var all, rest := [Run(a, b)] + Shift(runs, b + 1), text[b + 1..];
    forall k: nat | k < |text| && text[k] !in delim ensures Inside(all, k) {
      if k < b {
        assert all[0].start <= k < all[0].end;
      } else {
        assert rest[k - (b + 1)] == text[k];
        assert Inside(runs, k - (b + 1));
        var i :| 0 <= i < |runs| && runs[i].start <= k - (b + 1) < runs[i].end;
        assert all[i + 1].start <= k < all[i + 1].end;
      }
    }
  }

  /** A first run before the runs of what follows its delimiter. */
  lemma {:induction false} RunsCons(text: seq<byte>, delim: set<byte>, a: nat, b: nat, runs: seq<Run>)
    requires MaximalRun(text, delim, a, b) && (forall k :: 0 <= k < a ==> text[k] in delim)
    requires b < |text| && AllRuns(text[b + 1..], delim, runs)
    ensures AllRuns(text, delim, [Run(a, b)] + Shift(runs, b + 1))
  {
    RunsConsMaximal(text, delim, a, b, runs);
    RunsConsCover(text, delim, a, b, runs);
  }

  /** The text of the i-th run. */
  ghost predicate RunTexts(text: seq<byte>, tokens: seq<seq<byte>>, runs: seq<Run>) {
    && |tokens| == |runs|
    && forall i :: 0 <= i < |runs| ==>
         runs[i].start <= runs[i].end <= |text| && tokens[i] == text[runs[i].start..runs[i].end]
  }

  lemma {:induction false} TextsCons(text: seq<byte>, a: nat, b: nat, tokens: seq<seq<byte>>, runs: seq<Run>)
    requires a <= b < |text| && RunTexts(text[b + 1..], tokens, runs)
    ensures RunTexts(text, [text[a..b]] + tokens, [Run(a, b)] + Shift(runs, b + 1))
  {
    var all, rest := [Run(a, b)] + Shift(runs, b + 1), text[b + 1..];
    forall i | 1 <= i < |all| ensures ([text[a..b]] + tokens)[i] == text[all[i].start..all[i].end] {
      assert tokens[i - 1] == rest[runs[i - 1].start..runs[i - 1].end];
    }
  }

  /** The first token is the first run, and only delimiters stand before it. */
  lemma {:induction false} FirstRun(text: seq<byte>, delim: set<byte>)
    ensures var a := Span(text, delim);
      && (forall k :: 0 <= k < a ==> text[k] in delim)
      && (a < |text| ==> MaximalRun(text, delim, a, a + Reach(text[a..], delim)))
  {
    var a := Span(text, delim);
    var rest := text[a..];
    SpanMeaning(text, delim);
    ReachMeaning(rest, delim);
    assert forall k :: a <= k < a + Reach(rest, delim) ==> text[k] == rest[k - a];
  }

  /** Split unfolded once: the last token. */
  lemma {:induction false} SplitLast(text: seq<byte>, delim: set<byte>, a: nat)
    requires a == Span(text, delim) < |text| && a + Reach(text[a..], delim) == |text|
    ensures Split(text, delim) == [text[a..|text|]]
  {
  }

  /** Split unfolded once: a token with others behind it. */
  lemma {:induction false} SplitInner(text: seq<byte>, delim: set<byte>, a: nat, b: nat,
                                      tail: seq<byte>, more: seq<seq<byte>>)
    requires a == Span(text, delim) < |text| && b == a + Reach(text[a..], delim) < |text|
    requires tail == text[b + 1..] && more == Split(tail, delim)
    ensures Split(text, delim) == [text[a..b]] + more
  {
  }

  lemma {:induction false} OneRun(text: seq<byte>, delim: set<byte>, a: nat)
    requires MaximalRun(text, delim, a, |text|) && (forall k :: 0 <= k < a ==> text[k] in delim)
    ensures AllRuns(text, delim, [Run(a, |text|)])
  {
    var runs := [Run(a, |text|)];
    forall k: nat | k < |text| && text[k] !in delim ensures Inside(runs, k) {
      assert runs[0].start <= k < runs[0].end;
    }
  }

  /** The tokens are the texts of all maximal delimiter-free runs, in order. */
  lemma {:induction false} SplitMeaning(text: seq<byte>, delim: set<byte>) returns (runs: seq<Run>)
    ensures AllRuns(text, delim, runs) && RunTexts(text, Split(text, delim), runs)
    decreases |text|
  {
    var a := Span(text, delim);
    FirstRun(text, delim);
    if a == |text| {
      runs := [];
    } else {
      var b := a + Reach(text[a..], delim);
      if b == |text| {
        SplitLast(text, delim, a);
        OneRun(text, delim, a);
        runs := [Run(a, b)];
      } else {
        var tail := text[b + 1..];
        var more := Split(tail, delim);
        var later := SplitMeaning(tail, delim);
        SplitInner(text, delim, a, b, tail, more);
        RunsCons(text, delim, a, b, later);
        TextsCons(text, a, b, more, later);
        runs := [Run(a, b)] + Shift(later, b + 1);
      }
    }
  }

  /** Splitting what was joined gives the parts back. */
  lemma {:induction false} SplitOfJoin(parts: seq<seq<byte>>, sep: byte)
    requires forall i :: 0 <= i < |parts| ==> parts[i] != [] && sep !in parts[i]
    ensures Split(Join(parts, sep), {sep}) == parts
  {
    var text := Join(parts, sep);
    if parts != [] {
      JoinFirst(parts, sep);
      if |parts| == 1 {
        SplitLast(text, {sep}, 0);
      } else {
        SplitOfJoin(parts[1..], sep);
        SplitInner(text, {sep}, 0, |parts[0]|, Join(parts[1..], sep), parts[1..]);
      }
    }
  }

  lemma {:induction false} JoinFirst(parts: seq<seq<byte>>, sep: byte)
    requires parts != [] && parts[0] != [] && sep !in parts[0]
    ensures var text, first := Join(parts, sep), parts[0];
      && Span(text, {sep}) == 0 && text[0..] == text && Reach(text, {sep}) == |first| <= |text|
      && text[0..|first|] == first
      && if |parts| == 1 then text == first else |first| < |text| && text[|first| + 1..] == Join(parts[1..], sep)
  {
    var text, first := Join(parts, sep), parts[0];
    assert text[..|first|] == first;
    assert text[0] == first[0];
    SpanIs(text, {sep}, 0);
    assert forall k :: 0 <= k < |first| ==> text[k] == first[k];
    ReachIs(text, {sep}, |first|);
  }

  // ---- The tokenizer ----

  /** The text, with its terminator, stands at p. */
  ghost predicate Holds(buf: seq<byte>, p: nat, text: seq<byte>) {
    p + |text| < |buf| && 0 !in text && buf[p..p + |text|] == text && buf[p + |text|] == 0
  }

  /** The tokens still to come are those of the text behind the save pointer; none behind a null pointer. */
  ghost predicate Pending(buf: seq<byte>, save: Option<nat>, text: seq<byte>) {
    match save
    case None => text == []
    case Some(i) => Holds(buf, i, text)
  }

  /** The length of the string at p: strlen. */
  function Length(buf: seq<byte>, p: nat): (n: nat)
    requires p <= |buf|
    ensures p + n <= |buf|
  {
    IndexOf(buf[p..], 0)
  }

  lemma {:induction false} LengthIs(buf: seq<byte>, p: nat, text: seq<byte>)
    requires Holds(buf, p, text)
    ensures Length(buf, p) == |text|
  {
    assert buf[p..][..|text|] == text;
    IndexOfIs(buf[p..], 0, |text|);
  }

  /** The token is the first run of the text, and `more` is what follows the delimiter behind it. */
  ghost predicate IsFirst(text: seq<byte>, delim: set<byte>, token: seq<byte>, more: seq<byte>) {
    var a := Span(text, delim);
    && a < |text|
    && var b := a + Reach(text[a..], delim);
    && token == text[a..b] && more == if b == |text| then [] else text[b + 1..]
  }

  lemma {:induction false} FirstToken(text: seq<byte>, delim: set<byte>, token: seq<byte>, more: seq<byte>)
    requires IsFirst(text, delim, token, more)
    ensures Split(text, delim) == [token] + Split(more, delim) && |more| < |text|
  {
    var a := Span(text, delim);
    var b := a + Reach(text[a..], delim);
    if b == |text| {
      SplitLast(text, delim, a);
      NoTokens(more, delim);
      assert [token] == [token] + [];
    } else {
      SplitInner(text, delim, a, b, more, Split(more, delim));
    }
  }

  /** There is no further run. */
  ghost predicate NoneLeft(text: seq<byte>, delim: set<byte>) { Span(text, delim) == |text| }

  lemma {:induction false} NoTokens(text: seq<byte>, delim: set<byte>)
    requires NoneLeft(text, delim)
    ensures Split(text, delim) == []
  {
  }

  lemma {:induction false} CharAt(buf: seq<byte>, p: nat, text: seq<byte>, k: nat)
    requires Holds(buf, p, text) && k <= |text|
    ensures buf[p + k] == 0 <==> k == |text|
  {
    if k < |text| {
      assert buf[p + k] == buf[p..p + |text|][k] == text[k];
    }
  }

  /** The buffer holds the first token of the text at tok, and behind it what is left for the next call. */
  ghost predicate Served(buf: seq<byte>, text: seq<byte>, delim: set<byte>, tok: nat, rest: Option<nat>,
                         token: seq<byte>, more: seq<byte>) {
    match rest
    case None => IsFirst(text, delim, token, more) && Holds(buf, tok, token) && more == []
    case Some(i) =>
      IsFirst(text, delim, token, more) && Holds(buf, tok, token) && Holds(buf, i, more) && tok + |token| < i
  }

  lemma {:induction false} HoldsCut(buf: seq<byte>, p: nat, text: seq<byte>, a: nat, b: nat)
    requires Holds(buf, p, text) && a <= b <= |text|
    ensures if b == |text| then Holds(buf, p + a, text[a..b])
            else Holds(buf[p + b := 0], p + a, text[a..b]) && Holds(buf[p + b := 0], p + b + 1, text[b + 1..])
  {
    assert forall k :: 0 <= k < |text| ==> buf[p + k] == buf[p..p + |text|][k] == text[k];
  }

  lemma {:induction false} LastToken(buf: seq<byte>, p: nat, text: seq<byte>, delim: set<byte>, a: nat,
                                     token: seq<byte>)
    requires Holds(buf, p, text) && a <= |text| && token == text[a..] && IsFirst(text, delim, token, [])
    ensures Served(buf, text, delim, p + a, None, token, [])
  {
    HoldsCut(buf, p, text, a, |text|);
    assert text[a..|text|] == text[a..];
  }

  lemma {:induction false} InnerToken(buf: seq<byte>, p: nat, text: seq<byte>, delim: set<byte>, a: nat, b: nat,
                                      token: seq<byte>, more: seq<byte>)
    requires Holds(buf, p, text) && a <= b < |text| && token == text[a..b] && more == text[b + 1..]
    requires IsFirst(text, delim, token, more)
    ensures Served(buf[p + b := 0], text, delim, p + a, Some(p + b + 1), token, more)
  {
    HoldsCut(buf, p, text, a, b);
  }

  /** The token from a up to b of the text, and what is behind its delimiter. */
  ghost predicate IsPart(text: seq<byte>, a: nat, b: nat, token: seq<byte>, more: seq<byte>) {
    a <= b <= |text| && token == text[a..b] && more == if b == |text| then [] else text[b + 1..]
  }

  /** strspn and strcspn on the string at p: where the token starts and ends, if there is one. */
  method FindToken(buf: array<byte>, p: nat, delim: set<byte>, ghost text: seq<byte>)
    returns (found: bool, a: nat, b: nat, ghost token: seq<byte>, ghost more: seq<byte>)
    requires 0 !in delim && Holds(buf[..], p, text)
    ensures found <==> !NoneLeft(text, delim)
    ensures found ==> IsFirst(text, delim, token, more) && IsPart(text, a, b, token, more)
    ensures found ==> p + b < buf.Length && (buf[p + b] == 0 <==> b == |text|)
  {
    LengthIs(buf[..], p, text);
    var s := buf[p..p + Length(buf[..], p)];
    assert s == text;
    a, b, token, more := Span(s, delim), 0, [], [];
    CharAt(buf[..], p, text, a);
    found := buf[p + a] != 0;
    if found {
      b := a + Reach(s[a..], delim);
      CharAt(buf[..], p, text, b);
      token, more := text[a..b], if b == |text| then [] else text[b + 1..];
    }
  }

  /** After a call the byte in front of the new save index is overwritten, and no other. */
  ghost predicate CutBefore(was: seq<byte>, now: seq<byte>, rest: Option<nat>) {
    match rest
    case None => now == was
    case Some(i) => 0 < i <= |was| && now == was[i - 1 := 0]
  }

  /** Terminates the token from a up to b, unless it ends the text. */
  method EndToken(buf: array<byte>, p: nat, delim: set<byte>, a: nat, b: nat,
                  ghost text: seq<byte>, ghost token: seq<byte>, ghost more: seq<byte>)
    returns (rest: Option<nat>)
    requires Holds(buf[..], p, text) && IsFirst(text, delim, token, more) && IsPart(text, a, b, token, more)
    requires p + b < buf.Length && (buf[p + b] == 0 <==> b == |text|)
    modifies buf
    ensures Served(buf[..], text, delim, p + a, rest, token, more)
    ensures CutBefore(old(buf[..]), buf[..], rest)
  {
    if buf[p + b] == 0 {
      LastToken(buf[..], p, text, delim, a, token);
      return None;
    }
    ghost var cut := buf[..][p + b := 0];
    InnerToken(buf[..], p, text, delim, a, b, token, more);
    buf[p + b] := 0;
    assert buf[..] == cut;
    rest := Some(p + b + 1);
  }

  /** The token of the string at p. */
  method TakeToken(buf: array<byte>, p: nat, delim: set<byte>, ghost text: seq<byte>)
    returns (tok: Option<nat>, rest: Option<nat>, ghost token: seq<byte>, ghost more: seq<byte>)
    requires 0 !in delim && Holds(buf[..], p, text)
    modifies buf
    ensures tok.None? <==> NoneLeft(text, delim)
    ensures tok.None? ==> rest.None?
    ensures tok.Some? ==> Served(buf[..], text, delim, tok.value, rest, token, more)
    ensures CutBefore(old(buf[..]), buf[..], rest)
  {
    tok, rest := None, None;
    var found, a, b;
    found, a, b, token, more := FindToken(buf, p, delim, text);
    if found {
      rest := EndToken(buf, p, delim, a, b, text, token, more);
      tok := Some(p + a);
    }
  }

  /**
    * One call: the first token of what is pending, as a string in the buffer, and a save pointer behind it,
    * null once nothing is left. Only the delimiter behind the token is overwritten, so what a caller does to
    * the token harms nothing.
    */
  method NextToken(buf: array<byte>, str: Option<nat>, delim: set<byte>, save: Option<nat>, ghost text: seq<byte>)
    returns (tok: Option<nat>, rest: Option<nat>, ghost token: seq<byte>, ghost more: seq<byte>)
    requires 0 !in delim && Pending(buf[..], if str.Some? then str else save, text)
    modifies buf
    ensures tok.None? <==> NoneLeft(text, delim)
    ensures tok.None? ==> rest.None?
    ensures tok.Some? ==> Served(buf[..], text, delim, tok.value, rest, token, more)
    ensures CutBefore(old(buf[..]), buf[..], rest)
  {
    var p := if str.Some? then str else save;
    if p.None? {
      return None, save, [], [];
    }
    tok, rest, token, more := TakeToken(buf, p.value, delim, text);
  }

  /** What is pending does not depend on anything in front of it. */
  lemma {:induction false} PendingKept(was: seq<byte>, now: seq<byte>, save: Option<nat>, text: seq<byte>)
    requires Pending(was, save, text) && |was| == |now|
    requires save.Some? ==> forall k :: save.value <= k < |was| ==> was[k] == now[k]
    ensures Pending(now, save, text)
  {
    if save.Some? {
      assert now[save.value..save.value + |text|] == was[save.value..save.value + |text|];
    }
  }
}
