/** Domain names on the wire: EncodeName and SkipName of src/resolve.c, sections 3.1 and 4.1.4 of RFC 1035. */
module Names {
  import opened Bytes
  import opened Options

  const DOT: byte := 46

  // ---- Dotted text ----

  /** The labels of a dotted name, up to the first empty one. */
  function Labels(name: seq<byte>): seq<seq<byte>>
    decreases |name|
  {
    var d := IndexOf(name, DOT);
    if d == 0 then []
    else if d == |name| then [name]
    else [name[..d]] + Labels(name[d + 1..])
  }

  ghost predicate Plain(labels: seq<seq<byte>>) {
    forall i :: 0 <= i < |labels| ==> labels[i] != [] && DOT !in labels[i]
  }

  /** What follows the labels: nothing, one trailing dot, or an empty label that ends the name early. */
  ghost predicate Tail(rest: seq<byte>) {
    rest == [] || rest == [DOT] || (|rest| >= 2 && rest[0] == rest[1] == DOT)
  }

  lemma {:induction false} LabelsPlain(name: seq<byte>)
    ensures Plain(Labels(name))
    ensures Labels(name) == [] <==> name == [] || name[0] == DOT
    decreases |name|
  {
    var d := IndexOf(name, DOT);
    IndexOfMeaning(name, DOT);
    if 0 < d < |name| {
      LabelsPlain(name[d + 1..]);
    } else if 0 < d {
      assert name[..d] == name;
    }
  }

  lemma {:induction false} JoinNext(first: seq<byte>, labels: seq<seq<byte>>, rest: seq<byte>, tail: seq<byte>)
    requires rest == Join(labels, DOT) + tail
    ensures first + [DOT] + rest
         == if labels == [] then Join([first] + labels, DOT) + ([DOT] + rest) else Join([first] + labels, DOT) + tail
  {
    if labels == [] {
      assert [first] + labels == [first];
    } else {
      assert ([first] + labels)[1..] == labels;
    }
  }

  /** Labels unfolded once: the last label. */
  lemma {:induction false} LastLabel(name: seq<byte>)
    requires IndexOf(name, DOT) == |name| > 0
    ensures Labels(name) == [name]
  {
  }

  /** Labels unfolded once: a label with others behind it. */
  lemma {:induction false} InnerLabel(name: seq<byte>, d: nat, rest: seq<byte>, more: seq<seq<byte>>)
    requires d == IndexOf(name, DOT) && 0 < d < |name| && rest == name[d + 1..] && more == Labels(rest)
    ensures Labels(name) == [name[..d]] + more
  {
  }

  lemma {:induction false} NameParts(name: seq<byte>, d: nat)
    requires d < |name| && name[d] == DOT
    ensures name == name[..d] + [DOT] + name[d + 1..]
  {
  }

  /** The labels joined by dots are the name, but for a tail that holds no further label. */
  lemma {:induction false} LabelsMeaning(name: seq<byte>) returns (tail: seq<byte>)
    ensures name == Join(Labels(name), DOT) + tail
    ensures if Labels(name) == [] then tail == name && (name == [] || name[0] == DOT) else Tail(tail)
    decreases |name|
  {
    var d := IndexOf(name, DOT);
    if d == 0 {
      tail := name;
    } else if d == |name| {
      LastLabel(name);
      tail := [];
    } else {
      var rest := name[d + 1..];
      var more := Labels(rest);
      tail := LabelsMeaning(rest);
      InnerLabel(name, d, rest, more);
      JoinNext(name[..d], more, rest, tail);
      NameParts(name, d);
      tail := if more == [] then [DOT] + rest else tail;
    }
  }

  lemma {:induction false} LabelsOfJoin(labels: seq<seq<byte>>)
    requires Plain(labels)
    ensures Labels(Join(labels, DOT)) == labels
  {
    if labels != [] {
      var name, d := Join(labels, DOT), |labels[0]|;
      assert name[..d] == labels[0];
      IndexOfIs(name, DOT, d);
      if |labels| == 1 {
        LastLabel(name);
      } else {
        var rest := Join(labels[1..], DOT);
        assert name[d + 1..] == rest;
        LabelsOfJoin(labels[1..]);
        InnerLabel(name, d, rest, labels[1..]);
      }
    }
  }

  // ---- The wire form ----

  predicate Fits(labels: seq<seq<byte>>) {
    forall i :: 0 <= i < |labels| ==> |labels[i]| <= 63
  }

  function Body(labels: seq<seq<byte>>): seq<byte>
    requires Fits(labels)
  {
    if labels == [] then [] else [|labels[0]|] + labels[0] + Body(labels[1..])
  }

  /** A name ends in the root label or in a pointer to an earlier place of the message. */
  datatype End = Root | Pointer(target: nat)

  datatype Name = Name(labels: seq<seq<byte>>, end: End) {
    ghost predicate Valid() {
      && Fits(labels) && (forall i :: 0 <= i < |labels| ==> labels[i] != [])
      && (end.Pointer? ==> end.target < 16384)
    }

    function Wire(): (w: seq<byte>)
      requires Fits(labels) && (end.Pointer? ==> end.target < 16384)
      ensures w != []
    {
      Body(labels) + match end case Root => [0] case Pointer(target) => [192 + target / 256, target % 256]
    }
  }

  /** A label is written as its length and its bytes; then comes a zero byte, or two that hold 49152 plus the target. */
  lemma {:induction false} WireLayout(name: Name)
    requires name.Valid()
    ensures var w, rest := name.Wire(), Name(if name.labels == [] then [] else name.labels[1..], name.end);
      if name.labels != [] then rest.Valid() && w == ([|name.labels[0]|] + name.labels[0]) + rest.Wire()
      else if name.end.Root? then w == [0]
      else |w| == 2 && Word(w[0], w[1]) == 49152 + name.end.target
  {
    if name.labels == [] {
      assert Body(name.labels) == [];
    } else {
      Regroup([|name.labels[0]|] + name.labels[0], Body(name.labels[1..]), Name([], name.end).Wire());
    }
  }

  lemma {:induction false} Regroup(a: seq<byte>, b: seq<byte>, c: seq<byte>)
    ensures a + (b + c) == (a + b) + c
  {
  }

  lemma {:induction false} BodyAppend(a: seq<seq<byte>>, lab: seq<byte>)
    requires Fits(a) && |lab| <= 63
    ensures Body(a + [lab]) == Body(a) + [|lab|] + lab
  {
    if a == [] {
      assert [lab][1..] == [];
    } else {
      BodyAppend(a[1..], lab);
      assert (a + [lab])[1..] == a[1..] + [lab];
    }
  }

  lemma {:induction false} BodyPrefix(a: seq<seq<byte>>, b: seq<seq<byte>>)
    requires Fits(a + b)
    ensures Fits(a) && |Body(a)| + |b| <= |Body(a + b)|
    decreases |b|
  {
    assert forall i :: 0 <= i < |a| ==> (a + b)[i] == a[i];
    if b == [] {
      assert a + b == a;
    } else {
      assert a + b == (a + [b[0]]) + b[1..];
      BodyPrefix(a + [b[0]], b[1..]);
      assert (a + b)[|a|] == b[0];
      BodyAppend(a, b[0]);
    }
  }

  /** The name that EncodeName is to write. */
  function Encoded(name: seq<byte>): Name { Name(Labels(name), Root) }

  /** When the name fits: every label at most 63 bytes, and strictly fewer bytes than there is room for. */
  predicate Encodable(name: seq<byte>, room: nat) {
    Fits(Labels(name)) && |Encoded(name).Wire()| < room
  }

  lemma {:induction false} BodyLength(labels: seq<seq<byte>>)
    requires Fits(labels) && labels != []
    ensures |Body(labels)| == |Join(labels, DOT)| + 1
  {
    if |labels| > 1 {
      BodyLength(labels[1..]);
    } else {
      assert labels[1..] == [];
    }
  }

  /** Labels of at most 63 bytes, and room for more than two bytes besides the labels and the dots between them. */
  lemma {:induction false} EncodableIff(name: seq<byte>, room: nat)
    ensures Encodable(name, room) <==>
      && (forall i :: 0 <= i < |Labels(name)| ==> |Labels(name)[i]| <= 63)
      && (if Labels(name) == [] then 1 else |Join(Labels(name), 46)| + 2) < room
  {
    if Labels(name) != [] && Fits(Labels(name)) {
      BodyLength(Labels(name));
    }
  }

  /** The buffer with part written at `at`. */
  function Over(buffer: seq<byte>, at: nat, part: seq<byte>): seq<byte>
    requires at + |part| <= |buffer|
  {
    buffer[..at] + part + buffer[at + |part|..]
  }

  lemma {:induction false} OverTwice(buffer: seq<byte>, at: nat, a: seq<byte>, b: seq<byte>)
    requires at + |a| + |b| <= |buffer|
    ensures Over(Over(buffer, at, a), at + |a|, b) == Over(buffer, at, a + b)
  {
  }

  lemma {:induction false} FirstLabel(rest: seq<byte>)
    requires IndexOf(rest, DOT) != 0
    ensures var d := IndexOf(rest, DOT);
      && Labels(rest) != [] && Labels(rest)[0] == rest[..d]
      && if d == |rest| then |Labels(rest)| == 1 else Labels(rest)[1..] == Labels(rest[d + 1..])
  {
    var d := IndexOf(rest, DOT);
    if d < |rest| {
      InnerLabel(rest, d, rest[d + 1..], Labels(rest[d + 1..]));
    } else {
      LastLabel(rest);
      assert rest[..d] == rest;
    }
  }

  /** One label further: seg is the rest of the name, with k of the labels before it. */
  lemma {:induction false} ReadNext(all: seq<seq<byte>>, k: nat, seg: seq<byte>)
    requires k <= |all| && Labels(seg) == all[k..]
    ensures var d := IndexOf(seg, DOT);
      if d == 0 then k == |all|
      else
        && k < |all| && all[k] == seg[..d]
        && if d == |seg| then k + 1 == |all| else Labels(seg[d + 1..]) == all[k + 1..]
  {
    if IndexOf(seg, DOT) != 0 {
      FirstLabel(seg);
      assert all[k + 1..] == all[k..][1..];
    }
  }

  lemma {:induction false} BodyNext(labels: seq<seq<byte>>, k: nat)
    requires k < |labels| && Fits(labels[..k]) && |labels[k]| <= 63
    ensures Fits(labels[..k + 1]) && Body(labels[..k + 1]) == Body(labels[..k]) + ([|labels[k]|] + labels[k])
  {
    BodyAppend(labels[..k], labels[k]);
    assert labels[..k + 1] == labels[..k] + [labels[k]];
  }

  lemma {:induction false} NotEncodable(name: seq<byte>, all: seq<seq<byte>>, k: nat, room: nat)
    requires all == Labels(name) && k < |all|
    requires |all[k]| > 63 || (Fits(all[..k]) && |Body(all[..k])| + |all[k]| + 1 >= room)
    ensures !Encodable(name, room)
  {
    if Fits(all) {
      BodyNext(all, k);
      assert all == all[..k + 1] + all[k + 1..];
      BodyPrefix(all[..k + 1], all[k + 1..]);
    }
  }

  lemma {:induction false} OverMeaning(buffer: seq<byte>, at: nat, part: seq<byte>)
    requires at + |part| <= |buffer|
    ensures Over(buffer, at, part)[..at] == buffer[..at] && Over(buffer, at, part)[at..at + |part|] == part
    ensures Over(buffer, at, part)[at + |part|..] == buffer[at + |part|..]
  {
  }

  /** From `was` to `now`, exactly the first k labels were written at `at`, taking pos bytes. */
  ghost predicate Written(was: seq<byte>, now: seq<byte>, at: nat, pos: nat, labels: seq<seq<byte>>, k: nat) {
    && at + pos <= |was| && k <= |labels|
    && Fits(labels[..k]) && pos == |Body(labels[..k])|
    && now == Over(was, at, Body(labels[..k])) && now[..at] == was[..at]
  }

  lemma {:induction false} WrittenNext(was: seq<byte>, now: seq<byte>, at: nat, pos: nat, all: seq<seq<byte>>, k: nat)
    requires k < |all| && Written(was, now, at, pos, all, k)
    requires |all[k]| <= 63 && at + pos + 1 + |all[k]| <= |was| == |now|
    ensures Written(was, Over(now, at + pos, [|all[k]|] + all[k]), at, pos + 1 + |all[k]|, all, k + 1)
  {
    BodyNext(all, k);
    OverTwice(was, at, Body(all[..k]), [|all[k]|] + all[k]);
    OverMeaning(was, at, Body(all[..k + 1]));
  }

  lemma {:induction false} WrittenRoot(name: seq<byte>, was: seq<byte>, now: seq<byte>, at: nat, pos: nat)
    requires Written(was, now, at, pos, Labels(name), |Labels(name)|) && at + pos + 1 <= |was| == |now|
    ensures pos + 1 == |Encoded(name).Wire()|
    ensures Over(now, at + pos, [0]) == Over(was, at, Encoded(name).Wire())
  {
    assert Labels(name)[..|Labels(name)|] == Labels(name);
    OverTwice(was, at, Body(Labels(name)), [0]);
  }

  /** The root label. */
  method WriteRoot(buffer: array<byte>, at: nat)
    requires at < buffer.Length
    modifies buffer
    ensures buffer[..] == Over(old(buffer[..]), at, [0])
  {
    buffer[at] := 0;
  }

  /** A length byte and the copied characters. */
  method WriteLabel(buffer: array<byte>, at: nat, pos: nat, seg: seq<byte>, len: nat,
                    ghost was: seq<byte>, ghost all: seq<seq<byte>>, ghost k: nat)
    requires len <= 63 && len <= |seg| && at + pos + 1 + len <= buffer.Length == |was|
    requires k < |all| && all[k] == seg[..len]
    requires Written(was, buffer[..], at, pos, all, k)
    modifies buffer
    ensures Written(was, buffer[..], at, pos + 1 + len, all, k + 1)
  {
    ghost var before := buffer[..];
    WrittenNext(was, before, at, pos, all, k);
    buffer[at + pos] := len;
    forall i | 0 <= i < len {
      buffer[at + pos + 1 + i] := seg[i];
    }
    assert buffer[..] == Over(before, at + pos, [len] + all[k]);
  }

  /** The loop over the labels; it gives up at one that is too long or does not fit. */
  method WriteLabels(name: seq<byte>, buffer: array<byte>, at: nat) returns (ok: bool, pos: nat)
    requires at <= buffer.Length
    modifies buffer
    ensures buffer[..at] == old(buffer[..at])
    ensures ok ==> Written(old(buffer[..]), buffer[..], at, pos, Labels(name), |Labels(name)|)
    ensures !ok ==> !Encodable(name, buffer.Length - at)
  {
    pos := 0;
    var seg := name;
    ghost var all, k: nat, was := Labels(name), 0, buffer[..];
    while true
      invariant k <= |all| && Labels(seg) == all[k..]
      invariant Written(was, buffer[..], at, pos, all, k)
      decreases |seg|
    {
      var len := IndexOf(seg, DOT);
      ReadNext(all, k, seg);
      if len == 0 || len > 63 || pos + len + 1 >= buffer.Length - at {
        if len == 0 {
          break;
        }
        NotEncodable(name, all, k, buffer.Length - at);
        return false, 0;
      }
      WriteLabel(buffer, at, pos, seg, len, was, all, k);
      k := k + 1;
      pos := pos + 1 + len;
      if len == |seg| {
        break;
      }
      seg := seg[len + 1..];
    }
    ok := true;
  }

  /** Writes the wire form into the part of the buffer that starts at `at`; 0 when it does not fit. */
  method EncodeName(name: seq<byte>, buffer: array<byte>, at: nat) returns (length: nat)
    requires at <= buffer.Length
    modifies buffer
    ensures buffer[..at] == old(buffer[..at])
    ensures length != 0 <==> Encodable(name, buffer.Length - at)
    ensures length != 0 ==>
              length == |Encoded(name).Wire()| && buffer[..] == Over(old(buffer[..]), at, Encoded(name).Wire())
    ensures length != 0 ==>
              && at + length <= buffer.Length && buffer[at..at + length] == Encoded(name).Wire()
              && buffer[at + length..] == old(buffer[..])[at + length..]
  {
    var ok, pos := WriteLabels(name, buffer, at);
    if !ok || pos + 1 >= buffer.Length - at {
      assert ok ==> Labels(name)[..|Labels(name)|] == Labels(name);
      return 0;
    }
    WrittenRoot(name, old(buffer[..]), buffer[..], at, pos);
    WriteRoot(buffer, at + pos);
    OverMeaning(old(buffer[..]), at, Encoded(name).Wire());
    length := pos + 1;
  }

  // ---- Reading names ----

  /** The bytes `part` stand at offset off of the message. */
  ghost predicate At(msg: seq<byte>, off: nat, part: seq<byte>) {
    off + |part| <= |msg| && msg[off..off + |part|] == part
  }

  lemma {:induction false} AtSplit(msg: seq<byte>, off: nat, a: seq<byte>, b: seq<byte>)
    requires At(msg, off, a + b)
    ensures At(msg, off, a) && At(msg, off + |a|, b)
  {
    var part := msg[off..off + |a + b|];
    assert part[..|a|] == a && part[|a|..] == b;
    assert msg[off..off + |a|] == part[..|a|] && msg[off + |a|..off + |a| + |b|] == part[|a|..];
  }

  /** Where SkipName leaves the offset: behind the name, or nowhere when the message ends first. */
  function Skip(msg: seq<byte>, off: nat): Option<nat>
    decreases |msg| - off
  {
    if off >= |msg| then None
    else if msg[off] >= 192 then Some(off + 2)
    else if msg[off] == 0 then Some(off + 1)
    else Skip(msg, off + msg[off] + 1)
  }

  /**
   The places the loop visits, for any bytes: from each one below 192 and not 0 that many bytes and one further;
   it ends behind a 0 byte, behind the two bytes of a pointer, or beyond the message without a result.
   */
  lemma {:induction false} SkipMeaning(msg: seq<byte>, off: nat) returns (path: seq<nat>)
    ensures path != [] && path[0] == off
    ensures forall i :: 0 <= i < |path| - 1 ==>
              path[i] < |msg| && 0 < msg[path[i]] < 192 && path[i + 1] == path[i] + msg[path[i]] + 1
    ensures var last := path[|path| - 1];
      match Skip(msg, off)
      case None => last >= |msg|
      case Some(end) => last < |msg| && if msg[last] == 0 then end == last + 1 else msg[last] >= 192 && end == last + 2
    decreases |msg| - off
  {
    path := [off];
    if off < |msg| && 0 < msg[off] < 192 {
      var rest := SkipMeaning(msg, off + msg[off] + 1);
      path := [off] + rest;
      assert path[|path| - 1] == rest[|rest| - 1];
    }
  }

  method SkipName(buf: array<byte>, len: nat, start: nat) returns (ok: bool, off: nat)
    requires len <= buf.Length
    ensures ok <==> Skip(buf[..len], start).Some?
    ensures ok ==> off == Skip(buf[..len], start).value
  {
    off := start;
    while off < len
      invariant Skip(buf[..len], start) == Skip(buf[..len], off)
      decreases len - off
    {
      var b := buf[off];
      if b >= 192 {
        return true, off + 2;
      }
      if b == 0 {
        return true, off + 1;
      }
      off := off + b + 1;
    }
    ok := false;
  }

  /** Inside any message, skipping a well-formed name stops exactly behind it. */
  lemma {:induction false} SkipStops(msg: seq<byte>, off: nat, name: Name)
    requires name.Valid() && At(msg, off, name.Wire())
    ensures Skip(msg, off) == Some(off + |name.Wire()|)
    decreases |name.labels|
  {
    var w := name.Wire();
    assert msg[off] == msg[off..off + |w|][0] == w[0];
    WireLayout(name);
    if name.labels != [] {
      var l, rest := name.labels[0], Name(name.labels[1..], name.end);
      AtSplit(msg, off, [|l|] + l, rest.Wire());
      SkipStops(msg, off + |l| + 1, rest);
    }
  }

  /** The labels of a name that ends in the root label. */
  function Decode(msg: seq<byte>, off: nat): Option<seq<seq<byte>>>
    decreases |msg| - off
  {
    if off >= |msg| || msg[off] > 63 || off + msg[off] + 1 > |msg| then None
    else if msg[off] == 0 then Some([])
    else match Decode(msg, off + msg[off] + 1)
      case None => None
      case Some(rest) => Some([msg[off + 1..off + msg[off] + 1]] + rest)
  }

  lemma {:induction false} DecodeWire(msg: seq<byte>, off: nat, name: Name)
    requires name.Valid() && name.end.Root? && At(msg, off, name.Wire())
    ensures Decode(msg, off) == Some(name.labels)
    decreases |name.labels|
  {
    var w := name.Wire();
    assert msg[off] == msg[off..off + |w|][0] == w[0];
    WireLayout(name);
    if name.labels != [] {
      var l, rest := name.labels[0], Name(name.labels[1..], Root);
      AtSplit(msg, off, [|l|] + l, rest.Wire());
      AtSplit(msg, off, [|l|], l);
      DecodeWire(msg, off + |l| + 1, rest);
      assert name.labels == [l] + rest.labels;
    }
  }

  /** Whatever EncodeName wrote reads back as the labels, and SkipName passes over exactly it. */
  lemma {:induction false} EncodedReadsBack(name: seq<byte>, msg: seq<byte>, off: nat)
    requires Fits(Labels(name)) && At(msg, off, Encoded(name).Wire())
    ensures Decode(msg, off) == Some(Labels(name))
    ensures Skip(msg, off) == Some(off + |Encoded(name).Wire()|)
  {
    LabelsPlain(name);
    DecodeWire(msg, off, Encoded(name));
    SkipStops(msg, off, Encoded(name));
  }
}
