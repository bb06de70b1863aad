/** Bytes and the big-endian 16-bit words built from them. */
module Bytes {
  type byte = x: int | 0 <= x < 256

  /** The value of (hi << 8) | lo. */
  function Word(hi: byte, lo: byte): (w: nat)
    ensures w < 65536
  {
    256 * hi + lo
  }

  lemma {:induction false} WordMeaning(hi: byte, lo: byte)
    ensures Word(hi, lo) / 256 == hi && Word(hi, lo) % 256 == lo
  {
  }

  /** strchr, with the terminator's place standing for none. */
  function IndexOf(s: seq<byte>, c: byte): (d: nat)
    ensures d <= |s| && (d < |s| ==> s[d] == c)
  {
    if s == [] || s[0] == c then 0 else 1 + IndexOf(s[1..], c)
  }

  lemma {:induction false} IndexOfMeaning(s: seq<byte>, c: byte)
    ensures c !in s[..IndexOf(s, c)]
  {
    if s != [] && s[0] != c {
      IndexOfMeaning(s[1..], c);
      var d := IndexOf(s, c);
      assert s[..d] == [s[0]] + s[1..][..d - 1];
    }
  }

  lemma {:induction false} IndexOfIs(s: seq<byte>, c: byte, d: nat)
    requires d <= |s| && c !in s[..d] && (d < |s| ==> s[d] == c)
    ensures IndexOf(s, c) == d
  {
    if d > 0 {
      assert s[0] in s[..d];
      assert forall x :: x in s[1..][..d - 1] ==> x in s[..d];
      IndexOfIs(s[1..], c, d - 1);
    }
  }

  /** The parts with one separator between any two. */
  function Join(parts: seq<seq<byte>>, sep: byte): seq<byte> {
    if parts == [] then []
    else if |parts| == 1 then parts[0]
    else parts[0] + [sep] + Join(parts[1..], sep)
  }

  /** The text as it is left in the caller's buffer: cut to size and terminated. */
  function Stored(buffer: seq<byte>, text: seq<byte>): seq<byte>
    requires buffer != []
  {
    var copy := if |text| < |buffer| - 1 then |text| else |buffer| - 1;
    text[..copy] + [0] + buffer[copy + 1..]
  }

  /** A text that fits stands at the front with its terminator behind it; of a longer one as much as fits. */
  lemma {:induction false} StoredMeaning(was: seq<byte>, text: seq<byte>, now: seq<byte>)
    requires was != [] && now == Stored(was, text)
    ensures |now| == |was|
    ensures |text| < |was| ==> now[..|text|] == text && now[|text|] == 0 && now[|text| + 1..] == was[|text| + 1..]
    ensures |text| >= |was| ==> now[..|was| - 1] == text[..|was| - 1] && now[|was| - 1] == 0
  {
  }

  /** memcpy of what fits, and the terminator. */
  method Copy(text: seq<byte>, out: array<byte>)
    requires out.Length > 0
    modifies out
    ensures out[..] == Stored(old(out[..]), text)
    ensures |text| < out.Length ==>
              out[..|text|] == text && out[|text|] == 0 && out[|text| + 1..] == old(out[..])[|text| + 1..]
    ensures |text| >= out.Length ==> out[..out.Length - 1] == text[..out.Length - 1] && out[out.Length - 1] == 0
  {
    var copy := if |text| < out.Length - 1 then |text| else out.Length - 1;
    forall k | 0 <= k < copy {
      out[k] := text[k];
    }
    out[copy] := 0;
    StoredMeaning(old(out[..]), text, out[..]);
    assert out[..][..|out[..]| - 1] == out[..out.Length - 1];
  }
}
