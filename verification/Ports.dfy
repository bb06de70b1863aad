/** Port and protocol lists: ParsePortList and ParseProtoList of src/targets.c. */
module Ports {
  import opened Bytes
  import opened Options
  import opened Decimal
  import opened Tokens

  const COMMA: byte := 44
  const DASH: byte := 45
  const PLUS: byte := 43
  const LONG_MAX: int := 0x7FFF_FFFF_FFFF_FFFF

  // ---- strtol ----

  function DigitRun(s: seq<byte>): (n: nat)
    ensures n <= |s| && AllDigits(s[..n])
  {
    if s == [] || !IsDigit(s[0]) then 0
    else
      var n := 1 + DigitRun(s[1..]);
      assert forall i :: 1 <= i < n ==> s[i] == s[1..][i - 1] == s[1..][..n - 1][i - 1];
      n
  }

  lemma {:induction false} DigitRunAll(s: seq<byte>)
    requires AllDigits(s)
    ensures DigitRun(s) == |s|
  {
    if s != [] {
      DigitRunAll(s[1..]);
    }
  }

  /** strtol in base ten: blanks, a sign, digits, and saturation. */
  function Strtol(s: seq<byte>): int {
    var t := s[Span(s, {9, 10, 11, 12, 13, 32})..];
    if t != [] && t[0] == DASH then
      var v: int := Value(t[1..][..DigitRun(t[1..])]);
      if -v < -LONG_MAX - 1 then -LONG_MAX - 1 else -v
    else
      var u := if t != [] && t[0] == PLUS then t[1..] else t;
      var v: int := Value(u[..DigitRun(u)]);
      if v > LONG_MAX then LONG_MAX else v
  }

  lemma {:induction false} StrtolOfDigits(n: nat)
    ensures Strtol(Digits(n)) == if n > LONG_MAX then LONG_MAX else n
  {
    var s := Digits(n);
    assert IsDigit(s[0]);
    SpanIs(s, {9, 10, 11, 12, 13, 32}, 0);
    assert s[0..] == s;
    DigitRunAll(s);
    assert s[..|s|] == s;
    ValueOfDigits(n);
  }

  lemma {:induction false} DigitRunStops(s: seq<byte>)
    ensures DigitRun(s) < |s| ==> !IsDigit(s[DigitRun(s)])
  {
    if s != [] && IsDigit(s[0]) {
      DigitRunStops(s[1..]);
    }
  }

  /** The number with this sign and these digits, brought into the range of a 64-bit long. */
  function Saturated(sign: seq<byte>, v: nat): int {
    if sign == [45] then -(if v > 9223372036854775808 then 9223372036854775808 else v)
    else if v > 9223372036854775807 then 9223372036854775807 else v
  }

  /** The sign in front, if there is one. */
  function Sign(t: seq<byte>): (sign: seq<byte>)
    ensures sign <= t
  {
    if t != [] && (t[0] == 43 || t[0] == 45) then [t[0]] else []
  }

  lemma {:induction false} StrtolUnfold(s: seq<byte>, t: seq<byte>, u: seq<byte>)
    requires t == s[Span(s, {9, 10, 11, 12, 13, 32})..] && u == t[|Sign(t)|..]
    ensures Strtol(s) == Saturated(Sign(t), Value(u[..DigitRun(u)]))
  {
    assert Sign(t) == [45] <==> t != [] && t[0] == DASH;
  }

  /** A byte strtol skips in front of a number. */
  predicate IsBlank(c: byte) { 9 <= c <= 13 || c == 32 }

  lemma {:induction false} BlanksMeaning(s: seq<byte>, a: nat)
    requires a == Span(s, {9, 10, 11, 12, 13, 32})
    ensures forall i :: 0 <= i < a ==> IsBlank(s[i])
    ensures a < |s| ==> !IsBlank(s[a])
  {
    SpanMeaning(s, {9, 10, 11, 12, 13, 32});
  }

  lemma {:induction false} SignAt(s: seq<byte>, a: nat) returns (b: nat)
    requires a <= |s|
    ensures b == if a < |s| && (s[a] == 43 || s[a] == 45) then a + 1 else a
    ensures s[a..b] == Sign(s[a..]) && s[a..][|Sign(s[a..])|..] == s[b..]
  {
    b := a + |Sign(s[a..])|;
  }

  lemma {:induction false} DigitsAt(s: seq<byte>, b: nat) returns (c: nat)
    requires b <= |s|
    ensures b <= c <= |s| && s[b..c] == s[b..][..DigitRun(s[b..])]
    ensures AllDigits(s[b..c]) && (c < |s| ==> !IsDigit(s[c]))
  {
    c := b + DigitRun(s[b..]);
    DigitRunStops(s[b..]);
    assert s[b..c] == s[b..][..DigitRun(s[b..])];
  }

  /** Any string is read as blanks, at most one sign, the digits up to the first other byte, and an ignored rest. */
  lemma {:induction false} StrtolMeaning(s: seq<byte>) returns (a: nat, b: nat, c: nat)
    ensures a <= b <= c <= |s|
    ensures (forall i :: 0 <= i < a ==> IsBlank(s[i])) && (a < |s| ==> !IsBlank(s[a]))
    ensures b == if a < |s| && (s[a] == 43 || s[a] == 45) then a + 1 else a
    ensures AllDigits(s[b..c]) && (c < |s| ==> !IsDigit(s[c]))
    ensures Strtol(s) == Saturated(s[a..b], Value(s[b..c]))
  {
    a := Span(s, {9, 10, 11, 12, 13, 32});
    BlanksMeaning(s, a);
    b := SignAt(s, a);
    c := DigitsAt(s, b);
    StrtolUnfold(s, s[a..], s[b..]);
  }

  // ---- What a port list means ----

  /** The bounds written in a token, split at its first dash. */
  function Bounds(token: seq<byte>): (int, int) {
    var d := IndexOf(token, DASH);
    if d < |token| then (Strtol(token[..d]), Strtol(token[d + 1..])) else (Strtol(token), Strtol(token))
  }

  /** A token without a dash is one number; any other is split at its first dash. */
  lemma {:induction false} BoundsMeaning(a: seq<byte>, b: seq<byte>)
    requires 45 !in a
    ensures Bounds(a) == (Strtol(a), Strtol(a)) && Bounds(a + [45] + b) == (Strtol(a), Strtol(b))
  {
    var token := a + [45] + b;
    IndexOfIs(a, 45, |a|);
    assert token[..|a|] == a && token[|a| + 1..] == b;
    IndexOfIs(token, 45, |a|);
  }

  predicate Good(token: seq<byte>) { 1 <= Bounds(token).0 <= Bounds(token).1 <= 65535 }

  function Interval(lo: int, hi: int): seq<int>
    requires lo <= hi
  {
    seq(hi - lo + 1, (i: nat) => lo + i)
  }

  predicate AllGood(tokens: seq<seq<byte>>) { forall i :: 0 <= i < |tokens| ==> Good(tokens[i]) }

  /** The ports of all tokens, in order. */
  function Expand(tokens: seq<seq<byte>>): seq<int>
    requires AllGood(tokens)
  {
    if tokens == [] then []
    else
      var last := Bounds(tokens[|tokens| - 1]);
      Expand(tokens[..|tokens| - 1]) + Interval(last.0, last.1)
  }

  lemma {:induction false} ExpandAppend(tokens: seq<seq<byte>>, token: seq<byte>)
    requires AllGood(tokens) && Good(token)
    ensures AllGood(tokens + [token])
    ensures Expand(tokens + [token]) == Expand(tokens) + Interval(Bounds(token).0, Bounds(token).1)
  {
    var more := tokens + [token];
    assert more[..|more| - 1] == tokens;
  }

  lemma {:induction false} ExpandNext(tokens: seq<seq<byte>>, k: nat)
    requires k < |tokens| && AllGood(tokens[..k]) && Good(tokens[k])
    ensures AllGood(tokens[..k + 1])
    ensures var b := Bounds(tokens[k]); Expand(tokens[..k + 1]) == Expand(tokens[..k]) + Interval(b.0, b.1)
  {
    assert tokens[..k + 1] == tokens[..k] + [tokens[k]];
    ExpandAppend(tokens[..k], tokens[k]);
  }

  lemma {:induction false} ExpandPrefix(tokens: seq<seq<byte>>, k: nat)
    requires k <= |tokens| && AllGood(tokens)
    ensures AllGood(tokens[..k]) && |Expand(tokens[..k])| <= |Expand(tokens)|
    decreases |tokens|
  {
    if k < |tokens| {
      var n := |tokens| - 1;
      ExpandPrefix(tokens[..n], k);
      assert tokens[..n][..k] == tokens[..k];
    } else {
      assert tokens[..k] == tokens;
    }
  }

  /** strncpy into a buffer of the given size: what does not fit is cut off. */
  function Cut(spec: seq<byte>, room: nat): seq<byte> {
    if |spec| <= room then spec else spec[..room]
  }

  /** What a list of at most max ports is accepted for, and the tokens it has. */
  function PortTokens(spec: Option<seq<byte>>): seq<seq<byte>> {
    if spec.None? then [] else Split(Cut(spec.value, 511), {COMMA})
  }

  predicate Accepted(tokens: seq<seq<byte>>, max: nat) {
    AllGood(tokens) && |Expand(tokens)| <= max
  }

  // ---- The parser ----

  /** The k-th token is the current one, and the tokens behind it are pending; or there is none. */
  ghost predicate AtToken(buf: seq<byte>, tokens: seq<seq<byte>>, k: nat, tok: Option<nat>, save: Option<nat>,
                          more: seq<byte>) {
    if tok.None? then k == |tokens|
    else
      && k < |tokens| && Holds(buf, tok.value, tokens[k])
      && Pending(buf, save, more) && Split(more, {COMMA}) == tokens[k + 1..]
      && (save.Some? ==> tok.value + |tokens[k]| < save.value)
  }

  lemma {:induction false} AtServed(buf: seq<byte>, tokens: seq<seq<byte>>, k: nat, text: seq<byte>, tok: nat,
                                    save: Option<nat>, token: seq<byte>, more: seq<byte>)
    requires k <= |tokens| && Split(text, {COMMA}) == tokens[k..]
    requires Served(buf, text, {COMMA}, tok, save, token, more)
    ensures AtToken(buf, tokens, k, Some(tok), save, more)
  {
    FirstToken(text, {COMMA}, token, more);
    assert tokens[k] == tokens[k..][0] && tokens[k + 1..] == tokens[k..][1..];
  }

  lemma {:induction false} AtNone(buf: seq<byte>, tokens: seq<seq<byte>>, k: nat, text: seq<byte>, save: Option<nat>)
    requires k <= |tokens| && Split(text, {COMMA}) == tokens[k..] && NoneLeft(text, {COMMA})
    ensures AtToken(buf, tokens, k, None, save, [])
  {
    NoTokens(text, {COMMA});
  }

  /** Fetches the k-th token. */
  method Fetch(buf: array<byte>, str: Option<nat>, save: Option<nat>, ghost text: seq<byte>,
               ghost tokens: seq<seq<byte>>, ghost k: nat)
    returns (tok: Option<nat>, rest: Option<nat>, ghost more: seq<byte>)
    requires Pending(buf[..], if str.Some? then str else save, text)
    requires k <= |tokens| && Split(text, {COMMA}) == tokens[k..]
    modifies buf
    ensures AtToken(buf[..], tokens, k, tok, rest, more)
  {
    ghost var token;
    tok, rest, token, more := NextToken(buf, str, {COMMA}, save, text);
    if tok.Some? {
      AtServed(buf[..], tokens, k, text, tok.value, rest, token, more);
    } else {
      AtNone(buf[..], tokens, k, text, rest);
      more := [];
    }
  }

  /** The string at p, as strtol reads it. */
  method StringOf(buf: array<byte>, p: nat, ghost text: seq<byte>) returns (s: seq<byte>)
    requires Holds(buf[..], p, text)
    ensures s == text
  {
    LengthIs(buf[..], p, text);
    s := buf[p..p + Length(buf[..], p)];
  }

  /** A terminator in place of the d-th byte of the token makes two strings of it. */
  method CutDash(buf: array<byte>, tok: nat, d: nat, ghost save: Option<nat>, ghost token: seq<byte>,
                 ghost more: seq<byte>)
    requires Holds(buf[..], tok, token) && d < |token| && Pending(buf[..], save, more)
    requires save.Some? ==> tok + |token| < save.value
    modifies buf
    ensures Holds(buf[..], tok, token[..d]) && Holds(buf[..], tok + d + 1, token[d + 1..])
    ensures Pending(buf[..], save, more)
  {
    ghost var was, now := buf[..], buf[..][tok + d := 0];
    HoldsCut(was, tok, token, 0, d);
    assert token[0..d] == token[..d];
    PendingKept(was, now, save, more);
    buf[tok + d] := 0;
    assert buf[..] == now;
  }

  /** The bounds of the token at tok; its dash is overwritten, what is pending is not. */
  method ReadBounds(buf: array<byte>, tok: nat, save: Option<nat>, ghost token: seq<byte>, ghost more: seq<byte>)
    returns (lo: int, hi: int)
    requires Holds(buf[..], tok, token) && Pending(buf[..], save, more)
    requires save.Some? ==> tok + |token| < save.value
    modifies buf
    ensures (lo, hi) == Bounds(token)
    ensures Pending(buf[..], save, more)
  {
    var s := StringOf(buf, tok, token);
    var d := IndexOf(s, DASH);
    if d < |s| {
      CutDash(buf, tok, d, save, token, more);
      var low := StringOf(buf, tok, token[..d]);
      var high := StringOf(buf, tok + d + 1, token[d + 1..]);
      lo, hi := Strtol(low), Strtol(high);
    } else {
      lo := Strtol(s);
      hi := lo;
    }
  }

  /** The inner loop: appends lo up to hi, until the array is full. */
  method Append(out: array<int>, start: nat, max: nat, lo: int, hi: int) returns (ok: bool, count: nat)
    requires start <= max <= out.Length && lo <= hi
    modifies out
    ensures ok <==> start + (hi - lo + 1) <= max
    ensures ok ==> count == start + (hi - lo + 1) && out[..count] == old(out[..start]) + Interval(lo, hi)
    ensures ok ==> forall i :: start <= i < count ==> out[i] == lo + (i - start)
  {
    count := start;
    var port := lo;
    while port <= hi
      invariant lo <= port <= hi + 1 && count == start + (port - lo) <= max
      invariant out[..start] == old(out[..start])
      invariant forall i :: start <= i < count ==> out[i] == lo + (i - start)
    {
      if count >= max {
        return false, count;
      }
      out[count] := port;
      count := count + 1;
      port := port + 1;
    }
    assert out[..count] == out[..start] + out[start..count];
    assert out[start..count] == Interval(lo, hi);
    ok := true;
  }

  /** The first k tokens are parsed into the first count places. */
  ghost predicate Parsed(out: seq<int>, count: nat, tokens: seq<seq<byte>>, k: nat, max: nat) {
    && k <= |tokens| && AllGood(tokens[..k])
    && count == |Expand(tokens[..k])| && count <= max && count <= |out|
    && out[..count] == Expand(tokens[..k])
  }

  lemma {:induction false} ParsedNext(was: seq<int>, now: seq<int>, start: nat, count: nat,
                                      tokens: seq<seq<byte>>, k: nat, max: nat)
    requires Parsed(was, start, tokens, k, max) && k < |tokens| && Good(tokens[k]) && count <= max && count <= |now|
    requires now[..count] == was[..start] + Interval(Bounds(tokens[k]).0, Bounds(tokens[k]).1)
    ensures Parsed(now, count, tokens, k + 1, max)
  {
    ExpandNext(tokens, k);
  }

  lemma {:induction false} NotAccepted(was: seq<int>, start: nat, tokens: seq<seq<byte>>, k: nat, max: nat)
    requires Parsed(was, start, tokens, k, max) && k < |tokens|
    requires Good(tokens[k]) ==> start + (Bounds(tokens[k]).1 - Bounds(tokens[k]).0 + 1) > max
    ensures !Accepted(tokens, max)
  {
    if AllGood(tokens) {
      ExpandNext(tokens, k);
      ExpandPrefix(tokens, k + 1);
    }
  }

  /** The body of the token loop. */
  method ParseToken(buf: array<byte>, tok: nat, save: Option<nat>, out: array<int>, start: nat, max: nat,
                    ghost tokens: seq<seq<byte>>, ghost k: nat, ghost more: seq<byte>)
    returns (ok: bool, count: nat)
    requires max <= out.Length
    requires AtToken(buf[..], tokens, k, Some(tok), save, more) && Parsed(out[..], start, tokens, k, max)
    modifies buf, out
    ensures Pending(buf[..], save, more)
    ensures ok ==> Parsed(out[..], count, tokens, k + 1, max)
    ensures !ok ==> !Accepted(tokens, max)
  {
    ghost var was := out[..];
    count := start;
    var lo, hi := ReadBounds(buf, tok, save, tokens[k], more);
    if lo < 1 || hi > 65535 || lo > hi {
      NotAccepted(was, start, tokens, k, max);
      return false, count;
    }
    ok, count := Append(out, start, max, lo, hi);
    if ok {
      assert out[..][..count] == was[..start] + Interval(lo, hi);
      ParsedNext(was, out[..], start, count, tokens, k, max);
    } else {
      NotAccepted(was, start, tokens, k, max);
    }
  }

  /** A zeroed local buffer with the text copied in. */
  method LocalCopy(text: seq<byte>, size: nat) returns (buf: array<byte>)
    requires |text| < size && 0 !in text
    ensures fresh(buf) && Holds(buf[..], 0, text)
  {
    buf := new byte[size](_ => 0);
    forall i | 0 <= i < |text| {
      buf[i] := text[i];
    }
    assert buf[..][0..0 + |text|] == text;
  }

  /** The loop over the tokens of the text in the buffer. */
  method ParseTokens(buf: array<byte>, out: array<int>, max: nat, ghost text: seq<byte>, ghost tokens: seq<seq<byte>>)
    returns (ok: bool, count: nat)
    requires max <= out.Length && Holds(buf[..], 0, text) && Split(text, {COMMA}) == tokens
    modifies buf, out
    ensures ok ==> Parsed(out[..], count, tokens, |tokens|, max)
    ensures !ok ==> !Accepted(tokens, max)
  {
    count := 0;
    ghost var k: nat := 0;
    assert tokens[0..] == tokens;
    var tok, save, more := Fetch(buf, Some(0), None, text, tokens, 0);
    while tok.Some?
      invariant AtToken(buf[..], tokens, k, tok, save, more)
      invariant Parsed(out[..], count, tokens, k, max)
      decreases |tokens| - k
    {
      ok, count := ParseToken(buf, tok.value, save, out, count, max, tokens, k, more);
      if !ok {
        return;
      }
      k := k + 1;
      tok, save, more := Fetch(buf, None, save, more, tokens, k);
    }
    ok := true;
  }

  lemma {:induction false} AllParsed(out: seq<int>, count: nat, tokens: seq<seq<byte>>, max: nat)
    requires Parsed(out, count, tokens, |tokens|, max)
    ensures Accepted(tokens, max) && count == |Expand(tokens)| && count <= |out| && out[..count] == Expand(tokens)
  {
    assert tokens[..|tokens|] == tokens;
  }

  method ParsePortList(spec: Option<seq<byte>>, out: array<int>, max: nat) returns (ok: bool, count: nat)
    requires max <= out.Length && (spec.Some? ==> 0 !in spec.value)
    modifies out
    ensures ok <==> Accepted(PortTokens(spec), max)
    ensures ok ==> count == |Expand(PortTokens(spec))| && out[..count] == Expand(PortTokens(spec))
  {
    if spec.None? {
      return true, 0;
    }
    var text := Cut(spec.value, 511);
    var buf := LocalCopy(text, 512);
    ghost var tokens := PortTokens(spec);
    ok, count := ParseTokens(buf, out, max, text, tokens);
    if ok {
      AllParsed(out[..], count, tokens, max);
      assert out[..][..count] == out[..count];
    }
  }

  // ---- Printing and parsing ----

  /** A port or a range of ports, as a user writes them. */
  datatype Item = One(port: nat) | Range(low: nat, high: nat) {
    predicate Valid() {
      match this case One(p) => 1 <= p <= 65535 case Range(l, h) => 1 <= l <= h <= 65535
    }

    function Text(): seq<byte> {
      match this case One(p) => Digits(p) case Range(l, h) => Digits(l) + [DASH] + Digits(h)
    }

    function Ports(): seq<int>
      requires Valid()
    {
      match this case One(p) => [p] case Range(l, h) => Interval(l, h)
    }
  }

  predicate ValidItems(items: seq<Item>) { forall i :: 0 <= i < |items| ==> items[i].Valid() }

  function Texts(items: seq<Item>): seq<seq<byte>> { seq(|items|, (i: nat) requires i < |items| => items[i].Text()) }

  function Expansion(items: seq<Item>): seq<int>
    requires ValidItems(items)
  {
    if items == [] then [] else Expansion(items[..|items| - 1]) + items[|items| - 1].Ports()
  }

  lemma {:induction false} DigitsClean(n: nat, c: byte)
    requires !IsDigit(c)
    ensures c !in Digits(n)
  {
  }

  lemma {:induction false} OneBounds(p: nat)
    requires p <= 65535
    ensures Bounds(Digits(p)) == (p, p)
  {
    StrtolOfDigits(p);
    DigitsClean(p, DASH);
    BoundsMeaning(Digits(p), []);
  }

  lemma {:induction false} RangeBounds(l: nat, h: nat)
    requires l <= 65535 && h <= 65535
    ensures Bounds(Digits(l) + [DASH] + Digits(h)) == (l, h)
  {
    StrtolOfDigits(l);
    StrtolOfDigits(h);
    DigitsClean(l, DASH);
    BoundsMeaning(Digits(l), Digits(h));
  }

  /** Of the written numbers and ranges exactly those within 1..65535, in ascending order, are good. */
  lemma {:induction false} GoodIff(l: nat, h: nat)
    ensures Good(Digits(l)) <==> 1 <= l <= 65535
    ensures Good(Digits(l) + [45] + Digits(h)) <==> 1 <= l <= h <= 65535
  {
    StrtolOfDigits(l);
    StrtolOfDigits(h);
    DigitsClean(l, 45);
    BoundsMeaning(Digits(l), Digits(h));
  }

  lemma {:induction false} ItemToken(item: Item)
    requires item.Valid()
    ensures item.Text() != [] && COMMA !in item.Text() && 0 !in item.Text()
    ensures Good(item.Text()) && Interval(Bounds(item.Text()).0, Bounds(item.Text()).1) == item.Ports()
  {
    match item
    case One(p) =>
      DigitsClean(p, COMMA);
      DigitsClean(p, 0);
      OneBounds(p);
    case Range(l, h) =>
      DigitsClean(l, COMMA);
      DigitsClean(h, COMMA);
      DigitsClean(l, 0);
      DigitsClean(h, 0);
      RangeBounds(l, h);
  }

  lemma {:induction false} ItemAppended(tokens: seq<seq<byte>>, item: Item)
    requires AllGood(tokens) && item.Valid()
    ensures AllGood(tokens + [item.Text()])
    ensures Expand(tokens + [item.Text()]) == Expand(tokens) + item.Ports()
  {
    ItemToken(item);
    ExpandAppend(tokens, item.Text());
  }

  lemma {:induction false} TextsAppend(items: seq<Item>, item: Item)
    ensures Texts(items + [item]) == Texts(items) + [item.Text()]
  {
  }

  lemma {:induction false} ExpandOfTexts(items: seq<Item>)
    requires ValidItems(items)
    ensures AllGood(Texts(items)) && Expand(Texts(items)) == Expansion(items)
  {
    if items != [] {
      var init, last := items[..|items| - 1], items[|items| - 1];
      ExpandOfTexts(init);
      ItemAppended(Texts(init), last);
      TextsAppend(init, last);
      assert items == init + [last];
    }
  }

  lemma {:induction false} JoinClean(parts: seq<seq<byte>>, sep: byte, c: byte)
    requires c != sep && forall i :: 0 <= i < |parts| ==> c !in parts[i]
    ensures c !in Join(parts, sep)
  {
    if |parts| > 1 {
      JoinClean(parts[1..], sep, c);
    }
  }

  /** Parsing what was printed gives the ports in order; only their number can still be too large. */
  lemma {:induction false} PrintedParses(items: seq<Item>, max: nat)
    requires ValidItems(items) && |Join(Texts(items), COMMA)| <= 511
    ensures 0 !in Join(Texts(items), COMMA)
    ensures var tokens := PortTokens(Some(Join(Texts(items), COMMA)));
      && (Accepted(tokens, max) <==> |Expansion(items)| <= max)
      && AllGood(tokens) && Expand(tokens) == Expansion(items)
  {
    forall i | 0 <= i < |items| ensures var t := Texts(items)[i]; t != [] && COMMA !in t && 0 !in t {
      ItemToken(items[i]);
    }
    JoinClean(Texts(items), COMMA, 0);
    SplitOfJoin(Texts(items), COMMA);
    ExpandOfTexts(items);
  }

  // ---- Protocol lists ----

  datatype Proto = Tcp | Udp | Icmp

  function ToLower(c: byte): byte { if 65 <= c <= 90 then c + 32 else c }

  function Lower(s: seq<byte>): (r: seq<byte>) { seq(|s|, (i: nat) requires i < |s| => ToLower(s[i])) }

  const TCP: seq<byte> := [116, 99, 112]
  const UDP: seq<byte> := [117, 100, 112]
  const ICMP: seq<byte> := [105, 99, 109, 112]

  /** The protocol a word stands for, in any case. */
  function ProtoOf(word: seq<byte>): Option<Proto> {
    var low := Lower(word);
    if low == TCP then Some(Tcp) else if low == UDP then Some(Udp) else if low == ICMP then Some(Icmp) else None
  }

  /** Letter by letter: t or T, c or C, p or P, and so on. */
  lemma {:induction false} ProtoMeaning(word: seq<byte>)
    ensures ProtoOf(word) == Some(Tcp) <==>
              |word| == 3 && word[0] in {84, 116} && word[1] in {67, 99} && word[2] in {80, 112}
    ensures ProtoOf(word) == Some(Udp) <==>
              |word| == 3 && word[0] in {85, 117} && word[1] in {68, 100} && word[2] in {80, 112}
    ensures ProtoOf(word) == Some(Icmp) <==>
              |word| == 4 && word[0] in {73, 105} && word[1] in {67, 99} && word[2] in {77, 109} && word[3] in {80, 112}
  {
    var low := Lower(word);
    assert low == TCP <==> |low| == 3 && low[0] == 116 && low[1] == 99 && low[2] == 112;
    assert low == UDP <==> |low| == 3 && low[0] == 117 && low[1] == 100 && low[2] == 112;
    assert low == ICMP <==> |low| == 4 && low[0] == 105 && low[1] == 99 && low[2] == 109 && low[3] == 112;
  }

  /** Compares the first seven characters only, which never makes a difference. */
  method ProtoFromToken(word: seq<byte>) returns (proto: Option<Proto>)
    requires 0 !in word
    ensures proto == ProtoOf(word)
  {
    var low := new byte[8](_ => 0);
    var n: nat := 0;
    while n < 7 && n < |word|
      invariant n <= 7 && n <= |word|
      invariant low[..n] == Lower(word[..n]) && forall i :: n <= i < 8 ==> low[i] == 0
    {
      low[n] := ToLower(word[n]);
      n := n + 1;
    }
    assert Holds(low[..], 0, Lower(word[..n]));
    var s := StringOf(low, 0, Lower(word[..n]));
    assert n == |word| ==> word[..n] == word;
    if s == TCP {
      return Some(Tcp);
    }
    if s == UDP {
      return Some(Udp);
    }
    if s == ICMP {
      return Some(Icmp);
    }
    proto := None;
  }

  predicate AllProtos(tokens: seq<seq<byte>>) { forall i :: 0 <= i < |tokens| ==> ProtoOf(tokens[i]).Some? }

  function Protos(tokens: seq<seq<byte>>): seq<Proto>
    requires AllProtos(tokens)
  {
    seq(|tokens|, (i: nat) requires i < |tokens| => ProtoOf(tokens[i]).value)
  }

  function ProtoTokens(spec: Option<seq<byte>>): seq<seq<byte>> {
    if spec.None? then [] else Split(Cut(spec.value, 63), {COMMA})
  }

  /** The protocols asked for; TCP when none is named. */
  function Chosen(tokens: seq<seq<byte>>): seq<Proto>
    requires AllProtos(tokens)
  {
    if tokens == [] then [Tcp] else Protos(tokens)
  }

  /** The list is cut after 511 bytes, or after 63, and split at its commas; one not given has no tokens. */
  lemma {:induction false} SpecTokens(spec: seq<byte>)
    ensures PortTokens(None) == ProtoTokens(None) == []
    ensures PortTokens(Some(spec)) == Split(if |spec| <= 511 then spec else spec[..511], {44})
    ensures ProtoTokens(Some(spec)) == Split(if |spec| <= 63 then spec else spec[..63], {44})
  {
  }

  lemma {:induction false} ChosenMeaning(tokens: seq<seq<byte>>)
    requires AllProtos(tokens)
    ensures tokens == [] ==> Chosen(tokens) == [Tcp]
    ensures tokens != [] ==>
              && |Chosen(tokens)| == |tokens|
              && forall i :: 0 <= i < |tokens| ==> Some(Chosen(tokens)[i]) == ProtoOf(tokens[i])
  {
  }

  /** The first count tokens are parsed. */
  ghost predicate ProtosParsed(out: seq<Proto>, count: nat, tokens: seq<seq<byte>>, max: nat) {
    && count <= |tokens| && count <= max && count <= |out|
    && AllProtos(tokens[..count]) && out[..count] == Protos(tokens[..count])
  }

  lemma {:induction false} ProtosNext(was: seq<Proto>, count: nat, tokens: seq<seq<byte>>, max: nat, t: Proto)
    requires ProtosParsed(was, count, tokens, max) && count < |tokens| && count < max && count < |was|
    requires ProtoOf(tokens[count]) == Some(t)
    ensures ProtosParsed(was[count := t], count + 1, tokens, max)
  {
    assert tokens[..count + 1] == tokens[..count] + [tokens[count]];
    assert was[count := t][..count + 1] == was[..count] + [t];
    assert Protos(tokens[..count + 1]) == Protos(tokens[..count]) + [t];
  }

  /** The loop over the tokens of the text in the buffer. */
  method ParseProtoTokens(buf: array<byte>, out: array<Proto>, max: nat, ghost text: seq<byte>,
                          ghost tokens: seq<seq<byte>>)
    returns (ok: bool, count: nat)
    requires max <= out.Length && Holds(buf[..], 0, text) && Split(text, {COMMA}) == tokens
    modifies buf, out
    ensures ok ==> count == |tokens| && ProtosParsed(out[..], count, tokens, max)
    ensures !ok ==> !AllProtos(tokens) || |tokens| > max
  {
    count := 0;
    assert tokens[0..] == tokens;
    var tok, save, more := Fetch(buf, Some(0), None, text, tokens, 0);
    while tok.Some?
      invariant ProtosParsed(out[..], count, tokens, max)
      invariant AtToken(buf[..], tokens, count, tok, save, more)
      decreases |tokens| - count
    {
      var word := StringOf(buf, tok.value, tokens[count]);
      var t := ProtoFromToken(word);
      if t.None? || count >= max {
        return false, count;
      }
      count := StoreProto(out, count, t.value, tokens, max);
      tok, save, more := Fetch(buf, None, save, more, tokens, count);
    }
    ok := true;
  }

  method StoreProto(out: array<Proto>, start: nat, t: Proto, ghost tokens: seq<seq<byte>>, max: nat)
    returns (count: nat)
    requires start < |tokens| && start < max <= out.Length && ProtoOf(tokens[start]) == Some(t)
    requires ProtosParsed(out[..], start, tokens, max)
    modifies out
    ensures count == start + 1 && ProtosParsed(out[..], count, tokens, max)
  {
    ghost var next := out[..][start := t];
    ProtosNext(out[..], start, tokens, max, t);
    out[start] := t;
    assert out[..] == next;
    count := start + 1;
  }

  method ParseProtoList(spec: Option<seq<byte>>, out: array<Proto>, max: nat) returns (ok: bool, count: nat)
    requires 0 < max <= out.Length && (spec.Some? ==> 0 !in spec.value)
    modifies out
    ensures ok <==> AllProtos(ProtoTokens(spec)) && |ProtoTokens(spec)| <= max
    ensures ok ==> count <= max && out[..count] == Chosen(ProtoTokens(spec))
  {
    if spec.None? {
      out[0] := Tcp;
      return true, 1;
    }
    var text := Cut(spec.value, 63);
    var buf := LocalCopy(text, 64);
    ghost var tokens := ProtoTokens(spec);
    ok, count := ParseProtoTokens(buf, out, max, text, tokens);
    if ok {
      assert tokens[..count] == tokens && out[..][..count] == out[..count];
    }
    if ok && count == 0 {
      out[0] := Tcp;
      count := 1;
    }
  }
}
