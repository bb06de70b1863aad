/** The origin query names of the ASN lookup and the fields of its records: src/resolve.c. */
module Origin {
  import opened Bytes
  import opened Decimal
  import opened Names

  /** An address in network byte order, or one of another family. */
  datatype Address = V4(bytes: seq<byte>) | V6(bytes: seq<byte>) | OtherFamily {
    predicate Valid() { (V4? ==> |bytes| == 4) && (V6? ==> |bytes| == 16) }
  }

  const ORIGIN: seq<byte> := [111, 114, 105, 103, 105, 110]
  const ORIGIN6: seq<byte> := [111, 114, 105, 103, 105, 110, 54]
  const ASN: seq<byte> := [97, 115, 110]
  const CYMRU: seq<byte> := [99, 121, 109, 114, 117]
  const COM: seq<byte> := [99, 111, 109]

  /** A hexadecimal digit in lower case. */
  function Hex(n: nat): (c: byte)
    requires n < 16
    ensures c != DOT
  {
    if n < 10 then ZERO + n else 87 + n
  }

  /** The nibbles of an address as labels, last byte first and low nibble first. */
  function Nibbles(bytes: seq<byte>): (labels: seq<seq<byte>>)
    ensures |labels| == 2 * |bytes|
    ensures forall i :: 0 <= i < |labels| ==> |labels[i]| == 1 && labels[i][0] != DOT
  {
    if bytes == [] then []
    else [[Hex(bytes[|bytes| - 1] % 16)], [Hex(bytes[|bytes| - 1] / 16)]] + Nibbles(bytes[..|bytes| - 1])
  }

  /** The labels of the query name. */
  function OriginLabels(a: Address): seq<seq<byte>>
    requires a.Valid() && !a.OtherFamily?
  {
    if a.V4?
    then [Digits(a.bytes[3]), Digits(a.bytes[2]), Digits(a.bytes[1]), Digits(a.bytes[0])] + [ORIGIN, ASN, CYMRU, COM]
    else Nibbles(a.bytes) + [ORIGIN6, ASN, CYMRU, COM]
  }

  function OriginName(a: Address): seq<byte>
    requires a.Valid() && !a.OtherFamily?
  {
    Join(OriginLabels(a), DOT)
  }

  /** Every label with a dot behind it. */
  function Dotted(labels: seq<seq<byte>>): seq<byte> {
    if labels == [] then [] else labels[0] + [DOT] + Dotted(labels[1..])
  }

  lemma {:induction false} JoinCons(first: seq<byte>, rest: seq<seq<byte>>)
    requires rest != []
    ensures Join([first] + rest, DOT) == first + [DOT] + Join(rest, DOT)
  {
    assert ([first] + rest)[1..] == rest;
  }

  lemma {:induction false} JoinDotted(a: seq<seq<byte>>, b: seq<seq<byte>>)
    requires b != []
    ensures Join(a + b, DOT) == Dotted(a) + Join(b, DOT)
  {
    if a == [] {
      assert a + b == b;
    } else {
      JoinDotted(a[1..], b);
      JoinCons(a[0], a[1..] + b);
      assert a + b == [a[0]] + (a[1..] + b);
      Regroup(a[0] + [DOT], Dotted(a[1..]), Join(b, DOT));
    }
  }

  lemma {:induction false} DottedFour(a: seq<byte>, b: seq<byte>, c: seq<byte>, d: seq<byte>)
    ensures Dotted([a, b, c, d]) == a + [DOT] + b + [DOT] + c + [DOT] + d + [DOT]
  {
    assert [a, b, c, d][1..] == [b, c, d] && [b, c, d][1..] == [c, d] && [c, d][1..] == [d];
    assert Dotted([d]) == d + [DOT];
    assert Dotted([c, d]) == c + [DOT] + (d + [DOT]);
  }

  lemma {:induction false} DottedNext(a: seq<seq<byte>>, b: seq<seq<byte>>)
    ensures Dotted(a + b) == Dotted(a) + Dotted(b)
  {
    if a == [] {
      assert a + b == b;
    } else {
      DottedNext(a[1..], b);
      assert (a + b)[1..] == a[1..] + b;
    }
  }

  // ---- Building the name ----

  /** The nibbles of the loop over the sixteen bytes. */
  method PrintNibbles(b: seq<byte>) returns (text: seq<byte>)
    requires |b| == 16
    ensures text == Dotted(Nibbles(b))
  {
    var nibbles := new byte[80];
    var pos: nat := 0;
    var i := 16;
    ghost var all := Dotted(Nibbles(b));
    assert nibbles[..pos] == [] && b[..i] == b;
    while i > 0
      invariant 0 <= i <= 16 && pos == 4 * (16 - i)
      invariant nibbles[..pos] + Dotted(Nibbles(b[..i])) == all
    {
      i := i - 1;
      NibblesNext(b, i);
      PrintByte(nibbles, pos, b[i], Dotted(Nibbles(b[..i])));
      pos := pos + 4;
    }
    text := nibbles[..pos];
  }

  /** Both nibbles of a byte, each with its dot; `rest` is what is still to follow. */
  method PrintByte(nibbles: array<byte>, pos: nat, b: byte, ghost rest: seq<byte>)
    requires pos + 4 <= nibbles.Length
    modifies nibbles
    ensures nibbles[..pos + 4] + rest == old(nibbles[..pos]) + ([Hex(b % 16), DOT, Hex(b / 16), DOT] + rest)
  {
    nibbles[pos], nibbles[pos + 1] := Hex(b % 16), DOT;
    nibbles[pos + 2], nibbles[pos + 3] := Hex(b / 16), DOT;
    assert nibbles[..pos + 4] == old(nibbles[..pos]) + [Hex(b % 16), DOT, Hex(b / 16), DOT];
  }

  lemma {:induction false} NibblesNext(b: seq<byte>, i: nat)
    requires i < |b|
    ensures Dotted(Nibbles(b[..i + 1])) == [Hex(b[i] % 16), DOT, Hex(b[i] / 16), DOT] + Dotted(Nibbles(b[..i]))
  {
    var low, high: seq<byte> := [Hex(b[i] % 16)], [Hex(b[i] / 16)];
    assert b[..i + 1][..i] == b[..i];
    DottedNext([low, high], Nibbles(b[..i]));
    assert [low, high][1..] == [high];
    assert Dotted([high]) == high + [DOT];
  }

  lemma {:induction false} PartsOfV4(b: seq<byte>)
    requires |b| == 4
    ensures OriginName(V4(b))
         == Digits(b[3]) + [DOT] + Digits(b[2]) + [DOT] + Digits(b[1]) + [DOT] + Digits(b[0]) + [DOT]
            + Join([ORIGIN, ASN, CYMRU, COM], DOT)
  {
    DottedFour(Digits(b[3]), Digits(b[2]), Digits(b[1]), Digits(b[0]));
    JoinDotted([Digits(b[3]), Digits(b[2]), Digits(b[1]), Digits(b[0])], [ORIGIN, ASN, CYMRU, COM]);
  }

  lemma {:induction false} PartsOfV6(b: seq<byte>)
    requires |b| == 16
    ensures OriginName(V6(b)) == Dotted(Nibbles(b)) + Join([ORIGIN6, ASN, CYMRU, COM], DOT)
  {
    JoinDotted(Nibbles(b), [ORIGIN6, ASN, CYMRU, COM]);
  }

  method BuildOriginQuery(a: Address, out: array<byte>) returns (ok: bool)
    requires a.Valid() && out.Length > 0
    modifies out
    ensures ok <==> !a.OtherFamily?
    ensures !ok ==> out[..] == old(out[..])
    ensures ok ==> var text := OriginName(a);
      if |text| < out.Length
      then out[..|text|] == text && out[|text|] == 0 && out[|text| + 1..] == old(out[..])[|text| + 1..]
      else out[..out.Length - 1] == text[..out.Length - 1] && out[out.Length - 1] == 0
  {
    if a.V4? {
      var b := a.bytes;
      var text := Digits(b[3]) + [DOT] + Digits(b[2]) + [DOT] + Digits(b[1]) + [DOT] + Digits(b[0]) + [DOT]
                + Join([ORIGIN, ASN, CYMRU, COM], DOT);
      PartsOfV4(b);
      Copy(text, out);
      return true;
    }
    if a.V6? {
      var text := PrintNibbles(a.bytes);
      PartsOfV6(a.bytes);
      Copy(text + Join([ORIGIN6, ASN, CYMRU, COM], DOT), out);
      return true;
    }
    ok := false;
  }

  // ---- What the name is good for ----

  ghost predicate Labelled(labels: seq<seq<byte>>) { Plain(labels) && Fits(labels) }

  lemma {:induction false} LabelledConcat(a: seq<seq<byte>>, b: seq<seq<byte>>)
    requires Labelled(a) && Labelled(b)
    ensures Labelled(a + b)
  {
  }

  lemma {:induction false} DigitsLabelled(n: byte)
    ensures Labelled([Digits(n)])
  {
    ByteDigits(n);
  }

  lemma {:induction false} OriginPlain(a: Address)
    requires a.Valid() && !a.OtherFamily?
    ensures Labelled(OriginLabels(a)) && Labels(OriginName(a)) == OriginLabels(a)
  {
    assert DOT !in ORIGIN && DOT !in ORIGIN6 && DOT !in ASN && DOT !in CYMRU && DOT !in COM;
    if a.V4? {
      var b := a.bytes;
      DigitsLabelled(b[0]);
      DigitsLabelled(b[1]);
      DigitsLabelled(b[2]);
      DigitsLabelled(b[3]);
      var x, y := [Digits(b[3])] + [Digits(b[2])], [Digits(b[1])] + [Digits(b[0])];
      LabelledConcat(x, y);
      assert [Digits(b[3]), Digits(b[2]), Digits(b[1]), Digits(b[0])] == x + y;
      LabelledConcat(x + y, [ORIGIN, ASN, CYMRU, COM]);
    } else {
      LabelledConcat(Nibbles(a.bytes), [ORIGIN6, ASN, CYMRU, COM]);
    }
    LabelsOfJoin(OriginLabels(a));
  }

  lemma {:induction false} NibblesLength(bytes: seq<byte>)
    ensures |Dotted(Nibbles(bytes))| == 4 * |bytes|
  {
    if bytes != [] {
      NibblesLength(bytes[..|bytes| - 1]);
      NibblesNext(bytes, |bytes| - 1);
      assert bytes[..|bytes| - 1 + 1] == bytes;
    }
  }

  lemma {:induction false} SuffixLength(first: seq<byte>)
    ensures |Join([first, ASN, CYMRU, COM], DOT)| == |first| + 14
  {
    assert [first, ASN, CYMRU, COM][1..] == [ASN, CYMRU, COM];
    assert [ASN, CYMRU, COM][1..] == [CYMRU, COM] && [CYMRU, COM][1..] == [COM];
    assert Join([CYMRU, COM], DOT) == CYMRU + [DOT] + Join([COM], DOT);
    assert Join([ASN, CYMRU, COM], DOT) == ASN + [DOT] + Join([CYMRU, COM], DOT);
  }

  /** The name is short enough for every buffer on its way: 128 bytes of text, 500 bytes of wire form. */
  lemma {:induction false} OriginEncodes(a: Address)
    requires a.Valid() && !a.OtherFamily?
    ensures |OriginName(a)| <= 85
    ensures Encodable(OriginName(a), 500) && |Encoded(OriginName(a)).Wire()| <= 87
  {
    OriginPlain(a);
    BodyLength(OriginLabels(a));
    if a.V4? {
      var b := a.bytes;
      ByteDigits(b[0]);
      ByteDigits(b[1]);
      ByteDigits(b[2]);
      ByteDigits(b[3]);
      DottedFour(Digits(b[3]), Digits(b[2]), Digits(b[1]), Digits(b[0]));
      JoinDotted([Digits(b[3]), Digits(b[2]), Digits(b[1]), Digits(b[0])], [ORIGIN, ASN, CYMRU, COM]);
      SuffixLength(ORIGIN);
    } else {
      JoinDotted(Nibbles(a.bytes), [ORIGIN6, ASN, CYMRU, COM]);
      NibblesLength(a.bytes);
      SuffixLength(ORIGIN6);
    }
  }

  // ---- What the name looks like ----

  /** The bytes of a text in ASCII. */
  function Ascii(text: string): (s: seq<byte>)
    requires forall i :: 0 <= i < |text| ==> text[i] as int < 128
  {
    seq(|text|, (i: nat) requires i < |text| => text[i] as int)
  }

  lemma {:induction false} HexMeaning(n: nat)
    requires n < 16
    ensures Hex(n) == "0123456789abcdef"[n] as int
  {
  }

  lemma {:induction false} Zone()
    ensures Join([ASN, CYMRU, COM], DOT) == Ascii("asn.cymru.com")
  {
    assert [ASN, CYMRU, COM][1..] == [CYMRU, COM] && [CYMRU, COM][1..] == [COM];
    assert Join([CYMRU, COM], DOT) == Ascii("cymru.com");
  }

  lemma {:induction false} Suffix(first: seq<byte>)
    ensures Join([first, ASN, CYMRU, COM], DOT) == first + [DOT] + Ascii("asn.cymru.com")
  {
    Zone();
    assert [first, ASN, CYMRU, COM][1..] == [ASN, CYMRU, COM];
  }

  lemma {:induction false} Prefixes()
    ensures ORIGIN == Ascii("origin") && ORIGIN6 == Ascii("origin6")
  {
  }

  /** The decimal numbers of the four bytes, last byte first, each with a dot behind it, and the zone. */
  lemma {:induction false} NameOfV4(b: seq<byte>)
    requires |b| == 4
    ensures OriginName(V4(b)) == Digits(b[3]) + [46] + Digits(b[2]) + [46] + Digits(b[1]) + [46] + Digits(b[0]) + [46]
                                 + (Ascii("origin") + [46] + Ascii("asn.cymru.com"))
  {
    PartsOfV4(b);
    Suffix(ORIGIN);
    Prefixes();
  }

  lemma {:induction false} NibblesAt(b: seq<byte>, i: nat, k: nat)
    requires i < |b| && k == 4 * (|b| - 1 - i)
    ensures var text := Dotted(Nibbles(b));
      && k + 4 <= |text| && text[k + 1] == text[k + 3] == 46
      && text[k] == Hex(b[i] % 16) && text[k + 2] == Hex(b[i] / 16)
    decreases |b|
  {
    var n := |b| - 1;
    NibblesNext(b, n);
    assert b[..n + 1] == b;
    if i < n {
      NibblesAt(b[..n], i, k - 4);
    }
  }

  /** The two hexadecimal digits of each of the sixteen bytes, low one first, last byte first, and the zone. */
  lemma {:induction false} NameOfV6(b: seq<byte>, i: nat, k: nat)
    requires |b| == 16 && i < 16 && k == 4 * (15 - i)
    ensures var name := OriginName(V6(b));
      && |name| == 85 && name[64..] == Ascii("origin6") + [46] + Ascii("asn.cymru.com")
      && name[k] == Hex(b[i] % 16) && name[k + 2] == Hex(b[i] / 16) && name[k + 1] == name[k + 3] == 46
  {
    PartsOfV6(b);
    NibblesLength(b);
    Suffix(ORIGIN6);
    Prefixes();
    NibblesAt(b, i, k);
  }

  lemma {:induction false} NibblesInjective(a: seq<byte>, b: seq<byte>)
    requires |a| == |b| && Nibbles(a) == Nibbles(b)
    ensures a == b
  {
    if a != [] {
      var x, y := a[|a| - 1], b[|b| - 1];
      assert Nibbles(a)[0] == [Hex(x % 16)] && Nibbles(b)[0] == [Hex(y % 16)];
      assert Nibbles(a)[1] == [Hex(x / 16)] && Nibbles(b)[1] == [Hex(y / 16)];
      assert Nibbles(a)[2..] == Nibbles(a[..|a| - 1]) && Nibbles(b)[2..] == Nibbles(b[..|b| - 1]);
      NibblesInjective(a[..|a| - 1], b[..|b| - 1]);
    }
  }

  /** The name determines the address, family included. */
  lemma {:induction false} OriginInjective(a: Address, b: Address)
    requires a.Valid() && !a.OtherFamily? && b.Valid() && !b.OtherFamily?
    requires OriginName(a) == OriginName(b)
    ensures a == b
  {
    OriginPlain(a);
    OriginPlain(b);
    var la, lb := OriginLabels(a), OriginLabels(b);
    assert la == lb;
    if a.V4? {
      assert |la| == 8;
      SameV4(a.bytes, b.bytes);
    } else {
      assert |la| == 36;
      assert la[..32] == Nibbles(a.bytes) && lb[..32] == Nibbles(b.bytes);
      NibblesInjective(a.bytes, b.bytes);
    }
  }

  lemma {:induction false} SameV4(a: seq<byte>, b: seq<byte>)
    requires |a| == |b| == 4 && OriginLabels(V4(a)) == OriginLabels(V4(b))
    ensures a == b
  {
    var la, lb := OriginLabels(V4(a)), OriginLabels(V4(b));
    assert la[0] == lb[0] && la[1] == lb[1] && la[2] == lb[2] && la[3] == lb[3];
    DigitsInjective(a[0], b[0]);
    DigitsInjective(a[1], b[1]);
    DigitsInjective(a[2], b[2]);
    DigitsInjective(a[3], b[3]);
  }
}
