/** The bounded JSON escaper of src/main.c, section 7 of RFC 8259. */
module Json {
  import opened Bytes
  import opened Options

  const QUOTE: byte := 34
  const BACKSLASH: byte := 92
  const SPACE: byte := 32

  predicate Control(c: byte) { c < 32 }

  /** What one character is written as; control characters are dropped for a space. */
  function Escape(c: byte): seq<byte> {
    if c == QUOTE || c == BACKSLASH then [BACKSLASH, c] else if Control(c) then [SPACE] else [c]
  }

  function Escaped(s: seq<byte>): seq<byte> {
    if s == [] then [] else Escaped(s[..|s| - 1]) + Escape(s[|s| - 1])
  }

  /** A reader of string contents: no bare quote, no control character, no escape cut short. */
  function Unescape(t: seq<byte>): Option<seq<byte>>
    decreases |t|
  {
    if t == [] then Some([])
    else if t[0] == QUOTE || Control(t[0]) then None
    else if t[0] == BACKSLASH then
      if |t| < 2 || (t[1] != QUOTE && t[1] != BACKSLASH) then None else Prepend(t[1], Unescape(t[2..]))
    else Prepend(t[0], Unescape(t[1..]))
  }

  function Prepend(c: byte, rest: Option<seq<byte>>): Option<seq<byte>> {
    if rest.None? then None else Some([c] + rest.value)
  }

  /** The text with its control characters blanked. */
  function Blanked(s: seq<byte>): seq<byte> {
    seq(|s|, (i: nat) requires i < |s| => if Control(s[i]) then SPACE else s[i])
  }

  /** The reader, byte by byte: a quote or backslash only behind a backslash, nothing else behind one, no controls. */
  lemma {:induction false} ReaderMeaning(c: byte, t: seq<byte>)
    ensures c < 32 || c == 34 ==> Unescape([c] + t) == None
    ensures 32 <= c && c != 34 && c != 92 ==> Unescape([c] + t) == Prepend(c, Unescape(t))
    ensures Unescape([92, c] + t) == if c == 34 || c == 92 then Prepend(c, Unescape(t)) else None
    ensures Unescape([92]) == None && Unescape([]) == Some([])
  {
    assert ([c] + t)[1..] == t && ([92, c] + t)[2..] == t;
  }

  /** Bytes below 32 become spaces and no others change: a text without them is kept. */
  lemma {:induction false} BlankedMeaning(s: seq<byte>)
    ensures |Blanked(s)| == |s|
    ensures forall i :: 0 <= i < |s| ==> Blanked(s)[i] == if s[i] < 32 then 32 else s[i]
    ensures Blanked(s) == s <==> forall i :: 0 <= i < |s| ==> 32 <= s[i]
  {
    if Blanked(s) == s {
      forall i | 0 <= i < |s| ensures 32 <= s[i] {
        assert Blanked(s)[i] == s[i];
      }
    }
  }

  lemma {:induction false} PrependConcat(c: byte, x: seq<byte>, y: Option<seq<byte>>)
    ensures Prepend(c, if y.None? then None else Some(x + y.value))
         == if y.None? then None else Some(([c] + x) + y.value)
  {
    if y.Some? {
      assert [c] + (x + y.value) == ([c] + x) + y.value;
    }
  }

  lemma {:induction false} UnescapeConcat(a: seq<byte>, b: seq<byte>)
    requires Unescape(a).Some?
    ensures Unescape(a + b) == if Unescape(b).None? then None else Some(Unescape(a).value + Unescape(b).value)
    decreases |a|
  {
    if a == [] {
      assert a + b == b;
      assert Unescape(b).Some? ==> [] + Unescape(b).value == Unescape(b).value;
    } else if a[0] == BACKSLASH {
      UnescapeConcat(a[2..], b);
      assert (a + b)[2..] == a[2..] + b;
      PrependConcat(a[1], Unescape(a[2..]).value, Unescape(b));
    } else {
      UnescapeConcat(a[1..], b);
      assert (a + b)[1..] == a[1..] + b;
      PrependConcat(a[0], Unescape(a[1..]).value, Unescape(b));
    }
  }

  lemma {:induction false} UnescapeOne(c: byte)
    ensures Unescape(Escape(c)) == Some([if Control(c) then SPACE else c])
  {
    var t := Escape(c);
    assert Unescape([]) == Some([]);
    if t[0] == BACKSLASH {
      assert t[2..] == [] && [c] + [] == [c];
    } else {
      assert t[1..] == [] && [t[0]] + [] == [t[0]];
    }
  }

  /** Reading an escaped text gives the text back, control characters blanked. */
  lemma {:induction false} UnescapeEscaped(s: seq<byte>)
    ensures Unescape(Escaped(s)) == Some(Blanked(s))
  {
    if s == [] {
      assert Blanked(s) == [];
    } else {
      var init, c := s[..|s| - 1], s[|s| - 1];
      UnescapeEscaped(init);
      UnescapeOne(c);
      UnescapeConcat(Escaped(init), Escape(c));
      assert Blanked(s) == Blanked(init) + [if Control(c) then SPACE else c];
    }
  }

  lemma {:induction false} EscapedLength(s: seq<byte>)
    ensures |s| <= |Escaped(s)| <= 2 * |s|
  {
    if s != [] {
      EscapedLength(s[..|s| - 1]);
    }
  }

  lemma {:induction false} EscapedNext(s: seq<byte>, k: nat)
    requires k < |s|
    ensures Escaped(s[..k + 1]) == Escaped(s[..k]) + Escape(s[k])
  {
    assert s[..k + 1][..k] == s[..k];
  }

  /** The buffer holds the first k characters, escaped and terminated, and no further one is sure to fit. */
  ghost predicate Filled(buf: seq<byte>, text: seq<byte>, k: nat) {
    && k <= |text| && |Escaped(text[..k])| < |buf|
    && buf[..|Escaped(text[..k])|] == Escaped(text[..k]) && buf[|Escaped(text[..k])|] == 0
    && (k < |text| ==> |Escaped(text[..k])| + 2 >= |buf|)
  }

  /** What the buffer holds reads back as that part of the text; it is all of it if the buffer is long enough. */
  lemma {:induction false} FilledReadsBack(buf: seq<byte>, text: seq<byte>, k: nat)
    requires Filled(buf, text, k)
    ensures Unescape(buf[..|Escaped(text[..k])|]) == Some(Blanked(text[..k]))
    ensures |buf| > 2 * |text| ==> k == |text|
  {
    UnescapeEscaped(text[..k]);
    EscapedLength(text[..k]);
  }

  /** One character is written. */
  method Write(dst: array<byte>, start: nat, c: byte) returns (pos: nat)
    requires start + 2 < dst.Length
    modifies dst
    ensures pos == start + |Escape(c)| < dst.Length && dst[..pos] == old(dst[..start]) + Escape(c)
  {
    pos := start;
    if c == QUOTE || c == BACKSLASH {
      dst[pos], dst[pos + 1] := BACKSLASH, c;
      pos := pos + 2;
    } else if Control(c) {
      dst[pos] := SPACE;
      pos := pos + 1;
    } else {
      dst[pos] := c;
      pos := pos + 1;
    }
  }

  /** Writes as many whole characters as fit and terminates them; k counts them. */
  method JsonEscape(src: Option<seq<byte>>, dst: array<byte>) returns (ghost k: nat)
    modifies dst
    ensures dst.Length > 0 ==> Filled(dst[..], if src.None? then [] else src.value, k)
  {
    k := 0;
    if dst.Length == 0 {
      return;
    }
    if src.None? {
      dst[0] := 0;
      return;
    }
    var text := src.value;
    var pos, i: nat := 0, 0;
    while i < |text| && pos + 2 < dst.Length
      invariant i <= |text| && pos < dst.Length
      invariant pos == |Escaped(text[..i])| && dst[..pos] == Escaped(text[..i])
    {
      EscapedNext(text, i);
      pos := Write(dst, pos, text[i]);
      i := i + 1;
    }
    dst[pos] := 0;
    k := i;
    assert dst[..][..pos] == Escaped(text[..k]);
  }
}
