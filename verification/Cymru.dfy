/** The `|`-separated records of the ASN service: CymruField of src/resolve.c. */
module Cymru {
  import opened Bytes

  const BAR: byte := 124
  const SPACE: byte := 32

  /** All fields of a record, empty ones included. */
  function Fields(record: seq<byte>): (fields: seq<seq<byte>>)
    ensures fields != []
    decreases |record|
  {
    var d := IndexOf(record, BAR);
    if d == |record| then [record] else [record[..d]] + Fields(record[d + 1..])
  }

  lemma {:induction false} FieldsOfJoin(fields: seq<seq<byte>>)
    requires fields != [] && forall i :: 0 <= i < |fields| ==> BAR !in fields[i]
    ensures Fields(Join(fields, BAR)) == fields
  {
    var first := fields[0];
    if |fields| == 1 {
      IndexOfIs(first, BAR, |first|);
    } else {
      var rest := Join(fields[1..], BAR);
      FieldsOfJoin(fields[1..]);
      assert Join(fields, BAR)[..|first|] == first && Join(fields, BAR)[|first| + 1..] == rest;
      IndexOfIs(Join(fields, BAR), BAR, |first|);
    }
  }

  lemma {:induction false} JoinOfFields(record: seq<byte>)
    ensures Join(Fields(record), BAR) == record
    ensures forall i :: 0 <= i < |Fields(record)| ==> BAR !in Fields(record)[i]
    decreases |record|
  {
    var d := IndexOf(record, BAR);
    IndexOfMeaning(record, BAR);
    if d == |record| {
      assert record[..d] == record;
    } else {
      var rest := record[d + 1..];
      JoinOfFields(rest);
      assert Fields(record)[1..] == Fields(rest);
      assert record == record[..d] + [BAR] + rest;
    }
  }

  /** Without the spaces at both ends. */
  function Trim(s: seq<byte>): seq<byte> {
    if s == [] then []
    else if s[0] == SPACE then Trim(s[1..])
    else if s[|s| - 1] == SPACE then Trim(s[..|s| - 1])
    else s
  }

  predicate Spaces(s: seq<byte>) { forall i :: 0 <= i < |s| ==> s[i] == 32 }

  /** Trimming cuts off spaces only, and all of them. */
  lemma {:induction false} TrimUnique(a: seq<byte>, t: seq<byte>, b: seq<byte>)
    requires Spaces(a) && Spaces(b)
    requires t == [] || (t[0] != 32 && t[|t| - 1] != 32)
    ensures Trim(a + t + b) == t
    decreases |a| + |b|
  {
    var s := a + t + b;
    if a != [] {
      TrimUnique(a[1..], t, b);
      assert s[1..] == a[1..] + t + b;
    } else if b != [] {
      TrimUnique(a, t, b[..|b| - 1]);
      assert s[..|s| - 1] == a + t + b[..|b| - 1];
      if t == [] {
        TrimUnique(a, t, b[1..]);
        assert s[1..] == a + t + b[1..];
      }
    } else {
      assert s == t;
    }
  }

  /** The two loops that move the ends of the field inwards. */
  method TrimSpaces(field: seq<byte>) returns (text: seq<byte>)
    ensures text == Trim(field)
  {
    var s, e := 0, |field|;
    while s < e && field[s] == SPACE
      invariant 0 <= s <= e && Spaces(field[..s])
    {
      s := s + 1;
    }
    while e > s && field[e - 1] == SPACE
      invariant s <= e <= |field| && Spaces(field[e..])
      invariant s < e ==> field[s] != SPACE
    {
      e := e - 1;
    }
    text := field[s..e];
    TrimUnique(field[..s], text, field[e..]);
    assert field == field[..s] + text + field[e..];
  }

  /** What the field copy finds: the trimmed field, or nothing when there is no such field. */
  function FieldAt(record: seq<byte>, idx: int): seq<byte> {
    if 0 <= idx < |Fields(record)| then Trim(Fields(record)[idx]) else []
  }

  /** Of fields joined by bars the one asked for is found, without the spaces around it; of any other index nothing. */
  lemma {:induction false} FieldAtMeaning(fields: seq<seq<byte>>, idx: int, before: seq<byte>, text: seq<byte>,
                                          behind: seq<byte>)
    requires fields != [] && forall i :: 0 <= i < |fields| ==> 124 !in fields[i]
    requires Spaces(before) && Spaces(behind) && (text == [] || (text[0] != 32 && text[|text| - 1] != 32))
    requires 0 <= idx < |fields| ==> fields[idx] == before + text + behind
    ensures FieldAt(Join(fields, 124), idx) == if 0 <= idx < |fields| then text else []
  {
    FieldsOfJoin(fields);
    TrimUnique(before, text, behind);
  }

  lemma {:induction false} FirstField(seg: seq<byte>, q: nat)
    requires q <= |seg| && BAR !in seg[..q] && (q < |seg| ==> seg[q] == BAR)
    ensures Fields(seg)[0] == seg[..q]
    ensures if q == |seg| then |Fields(seg)| == 1 else Fields(seg)[1..] == Fields(seg[q + 1..])
  {
    IndexOfIs(seg, BAR, q);
    if q == |seg| {
      assert seg[..q] == seg;
    } else {
      var more := Fields(seg[q + 1..]);
      assert ([seg[..q]] + more)[1..] == more;
    }
  }

  /** At the end of the field: seg is the record from the start of the field on, q characters of it are read. */
  lemma {:induction false} FieldEnds(all: seq<seq<byte>>, cur: nat, seg: seq<byte>, q: nat)
    requires cur <= |all| && Fields(seg) == all[cur..]
    requires q <= |seg| && BAR !in seg[..q] && (q < |seg| ==> seg[q] == BAR)
    ensures cur < |all| && all[cur] == seg[..q]
    ensures if q == |seg| then cur + 1 == |all| else Fields(seg[q + 1..]) == all[cur + 1..]
  {
    FirstField(seg, q);
    assert all[cur] == all[cur..][0];
    if q < |seg| {
      assert all[cur + 1..] == all[cur..][1..];
    }
  }

  /** The walk over the record: finds the field's text, or none. */
  method FindField(record: seq<byte>, idx: int) returns (text: seq<byte>)
    ensures text == FieldAt(record, idx)
  {
    var cur: nat, seg, q: nat := 0, record, 0;
    ghost var all := Fields(record);
    while true
      invariant q <= |seg| && BAR !in seg[..q]
      invariant cur <= |all| && Fields(seg) == all[cur..]
      invariant 0 <= idx ==> cur <= idx
      decreases |seg| - q
    {
      if q == |seg| || seg[q] == BAR {
        FieldEnds(all, cur, seg, q);
        if cur == idx {
          text := TrimSpaces(seg[..q]);
          return;
        }
        if q == |seg| {
          return [];
        }
        cur, seg, q := cur + 1, seg[q + 1..], 0;
      } else {
        q := q + 1;
      }
    }
  }

  method CymruField(record: seq<byte>, idx: int, out: array<byte>)
    requires out.Length > 0
    modifies out
    ensures var text := FieldAt(record, idx);
      if |text| < out.Length
      then out[..|text|] == text && out[|text|] == 0 && out[|text| + 1..] == old(out[..])[|text| + 1..]
      else out[..out.Length - 1] == text[..out.Length - 1] && out[out.Length - 1] == 0
  {
    var text := FindField(record, idx);
    Copy(text, out);
  }
}
