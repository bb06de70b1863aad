/**
  * The answer scan of the DNS client, src/resolve.c, and the messages of sections 3.3.14 and 4.1.1 to 4.1.4
  * of RFC 1035.
  */
module Answers {
  import opened Bytes
  import opened Options
  import opened Names

  const TXT: nat := 16
  const IN: nat := 1

  // ---- Well-formed messages ----

  function U16(v: nat): (w: seq<byte>)
    requires v < 65536
    ensures |w| == 2 && Word(w[0], w[1]) == v
  {
    [v / 256, v % 256]
  }

  datatype Question = Question(name: Name, qtype: nat, qclass: nat) {
    ghost predicate Valid() { name.Valid() && qtype < 65536 && qclass < 65536 }

    ghost function Wire(): seq<byte>
      requires Valid()
    {
      name.Wire() + (U16(qtype) + U16(qclass))
    }
  }

  /** One or more character-strings, each a length byte and up to 255 bytes. */
  ghost function Strings(texts: seq<seq<byte>>): seq<byte>
    requires forall i :: 0 <= i < |texts| ==> |texts[i]| <= 255
  {
    if texts == [] then [] else [|texts[0]|] + texts[0] + Strings(texts[1..])
  }

  datatype Rdata = Texts(texts: seq<seq<byte>>) | Other(rtype: nat, bytes: seq<byte>) {
    ghost predicate Valid() {
      && (Other? ==> rtype < 65536 && rtype != TXT)
      && (Texts? ==> texts != [] && forall i :: 0 <= i < |texts| ==> |texts[i]| <= 255)
      && |Wire()| < 65536
    }

    ghost function Wire(): seq<byte>
      requires Texts? ==> forall i :: 0 <= i < |texts| ==> |texts[i]| <= 255
    {
      match this case Texts(texts) => Strings(texts) case Other(_, bytes) => bytes
    }

    ghost function Type(): nat { if Texts? then TXT else rtype }
  }

  datatype Record = Record(name: Name, rclass: nat, ttl: seq<byte>, rdata: Rdata) {
    ghost predicate Valid() { name.Valid() && rclass < 65536 && |ttl| == 4 && rdata.Valid() }

    /** Type, class, time to live and the length of the data. */
    ghost function Fixed(): (w: seq<byte>)
      requires Valid()
      ensures |w| == 10 && Word(w[0], w[1]) == rdata.Type() && Word(w[8], w[9]) == |rdata.Wire()|
    {
      U16(rdata.Type()) + U16(rclass) + ttl + U16(|rdata.Wire()|)
    }

    ghost function Wire(): seq<byte>
      requires Valid()
    {
      name.Wire() + (Fixed() + rdata.Wire())
    }
  }

  ghost predicate ValidQuestions(qs: seq<Question>) { forall i :: 0 <= i < |qs| ==> qs[i].Valid() }

  ghost predicate ValidRecords(rs: seq<Record>) { forall i :: 0 <= i < |rs| ==> rs[i].Valid() }

  ghost function QuestionsWire(qs: seq<Question>): seq<byte>
    requires ValidQuestions(qs)
  {
    if qs == [] then [] else qs[0].Wire() + QuestionsWire(qs[1..])
  }

  ghost function RecordsWire(rs: seq<Record>): seq<byte>
    requires ValidRecords(rs)
  {
    if rs == [] then [] else rs[0].Wire() + RecordsWire(rs[1..])
  }

  /** A message; `rest` stands for the authority and additional sections and whatever follows. */
  datatype Message = Message(id: nat, flags: nat, questions: seq<Question>, answers: seq<Record>,
                             nscount: nat, arcount: nat, rest: seq<byte>) {
    ghost predicate Valid() {
      && id < 65536 && flags < 65536 && nscount < 65536 && arcount < 65536
      && |questions| < 65536 && |answers| < 65536
      && ValidQuestions(questions) && ValidRecords(answers)
    }

    ghost function Header(): (w: seq<byte>)
      requires Valid()
      ensures |w| == 12 && Word(w[4], w[5]) == |questions| && Word(w[6], w[7]) == |answers|
    {
      U16(id) + U16(flags) + U16(|questions|) + U16(|answers|) + U16(nscount) + U16(arcount)
    }

    ghost function Wire(): seq<byte>
      requires Valid()
    {
      Header() + (QuestionsWire(questions) + (RecordsWire(answers) + rest))
    }
  }

  /** The first character-string of the first TXT record. */
  ghost function FirstText(rs: seq<Record>): Option<seq<byte>>
    requires ValidRecords(rs)
  {
    if rs == [] then None
    else if rs[0].rdata.Texts? then Some(rs[0].rdata.texts[0])
    else FirstText(rs[1..])
  }

  /** There is none exactly when no answer is a TXT record. */
  lemma {:induction false} FirstTextNone(rs: seq<Record>)
    requires ValidRecords(rs)
    ensures FirstText(rs) == None <==> forall i :: 0 <= i < |rs| ==> !rs[i].rdata.Texts?
  {
    if rs != [] {
      FirstTextNone(rs[1..]);
      assert forall i :: 1 <= i < |rs| ==> rs[i] == rs[1..][i - 1];
    }
  }

  lemma {:induction false} FirstTextIs(rs: seq<Record>, i: nat)
    requires ValidRecords(rs) && i < |rs| && rs[i].rdata.Texts?
    requires forall j :: 0 <= j < i ==> !rs[j].rdata.Texts?
    ensures FirstText(rs) == Some(rs[i].rdata.texts[0])
  {
    if i > 0 {
      assert rs[1..][i - 1] == rs[i] && !rs[0].rdata.Texts?;
      assert forall j :: 0 <= j < i - 1 ==> rs[1..][j] == rs[j + 1];
      FirstTextIs(rs[1..], i - 1);
    }
  }

  /** The first two bytes behind the name hold the type, 16 for texts; the last two of ten the length of the data. */
  lemma {:induction false} FixedLayout(r: Record, w: seq<byte>, rtype: nat)
    requires r.Valid() && w == r.Fixed() && rtype == if r.rdata.Texts? then 16 else r.rdata.rtype
    ensures |w| == 10 && Word(w[0], w[1]) == rtype && Word(w[8], w[9]) == |r.rdata.Wire()|
  {
  }

  // ---- What the scan computes, on any bytes ----

  function SkipAll(msg: seq<byte>, off: nat, count: nat): Option<nat>
    decreases count
  {
    if count == 0 then Some(off)
    else match Skip(msg, off)
      case None => None
      case Some(end) => SkipAll(msg, end + 4, count - 1)
  }

  /** One record, its name already skipped: it breaks off, it holds the text, or the next one starts at `off`. */
  datatype Outcome = Broken | Text(text: seq<byte>) | Next(off: nat)

  function Inspect(msg: seq<byte>, end: nat): Outcome {
    if end + 10 > |msg| then Broken
    else
      var rdlength, data := Word(msg[end + 8], msg[end + 9]), end + 10;
      if data + rdlength > |msg| then Broken
      else if Word(msg[end], msg[end + 1]) == TXT && rdlength > 0 && msg[data] < rdlength
      then Text(msg[data + 1..data + 1 + msg[data]])
      else Next(data + rdlength)
  }

  /**
   A record cut short by the end of the message ends the scan; so does nothing else. A whole one is passed over
   unless it is of type 16, not empty, and the string it begins with ends inside it.
   */
  lemma {:induction false} InspectMeaning(msg: seq<byte>, end: nat, size: nat)
    requires end + 10 <= |msg| ==> size == Word(msg[end + 8], msg[end + 9])
    ensures Inspect(msg, end).Broken? <==> end + 10 > |msg| || end + 10 + size > |msg|
    ensures Inspect(msg, end).Next? ==> Inspect(msg, end).off == end + 10 + size
    ensures !Inspect(msg, end).Broken? ==>
      (Inspect(msg, end).Text? <==>
         msg[end] == 0 && msg[end + 1] == 16 && 0 < size && msg[end + 10] + 1 <= size)
    ensures Inspect(msg, end).Text? ==>
      |Inspect(msg, end).text| == msg[end + 10] && Inspect(msg, end).text <= msg[end + 11..]
  {
  }

  function ScanAll(msg: seq<byte>, off: nat, count: nat): Option<seq<byte>>
    decreases count
  {
    if count == 0 then None
    else match Skip(msg, off)
      case None => None
      case Some(end) =>
        match Inspect(msg, end)
        case Broken => None
        case Text(text) => Some(text)
        case Next(next) => ScanAll(msg, next, count - 1)
  }

  function Scan(msg: seq<byte>): Option<seq<byte>> {
    if |msg| < 12 || Word(msg[6], msg[7]) == 0 then None
    else match SkipAll(msg, 12, Word(msg[4], msg[5]))
      case None => None
      case Some(off) => ScanAll(msg, off, Word(msg[6], msg[7]))
  }

  // ---- The loops ----

  method SkipQuestions(resp: array<byte>, n: nat, qdcount: nat) returns (ok: bool, off: nat)
    requires n <= resp.Length
    ensures ok <==> SkipAll(resp[..n], 12, qdcount).Some?
    ensures ok ==> off == SkipAll(resp[..n], 12, qdcount).value
  {
    off := 12;
    for i := 0 to qdcount
      invariant SkipAll(resp[..n], 12, qdcount) == SkipAll(resp[..n], off, qdcount - i)
    {
      ok, off := SkipName(resp, n, off);
      if !ok {
        return false, off;
      }
      off := off + 4;
    }
    ok := true;
  }

  /** The body of the answer loop behind the name; the byte read for an empty record does not matter. */
  method InspectRecord(resp: array<byte>, n: nat, end: nat) returns (broken: bool, found: bool, off: nat, length: nat)
    requires n <= resp.Length
    ensures match Inspect(resp[..n], end)
            case Broken => broken
            case Text(text) => !broken && found && off + length <= n && text == resp[off..off + length]
            case Next(next) => !broken && !found && off == next
  {
    broken, found, off, length := true, false, end, 0;
    if off + 10 > n {
      return;
    }
    var rtype := Word(resp[off], resp[off + 1]);
    var rdlength := Word(resp[off + 8], resp[off + 9]);
    off := off + 10;
    if off + rdlength > n {
      return;
    }
    broken := false;
    if rtype == TXT {
      var slen: byte :| true;
      if off < resp.Length {
        slen := resp[off];
      }
      if slen + 1 <= rdlength {
        off, length, found := off + 1, slen, true;
        assert resp[off..off + length] == resp[..n][off..off + length];
        return;
      }
    }
    off := off + rdlength;
  }

  lemma {:induction false} ScanStep(msg: seq<byte>, off: nat, end: nat, count: nat)
    requires count > 0 && Skip(msg, off) == Some(end)
    ensures match Inspect(msg, end)
            case Broken => ScanAll(msg, off, count) == None
            case Text(text) => ScanAll(msg, off, count) == Some(text)
            case Next(next) => ScanAll(msg, off, count) == ScanAll(msg, next, count - 1)
  {
  }

  /** Finds the text and where it stands. */
  method ScanAnswers(resp: array<byte>, n: nat, start: nat, ancount: nat) returns (found: bool, off: nat, length: nat)
    requires n <= resp.Length
    ensures found <==> ScanAll(resp[..n], start, ancount).Some?
    ensures found ==> off + length <= n && ScanAll(resp[..n], start, ancount) == Some(resp[off..off + length])
  {
    found, off, length := false, start, 0;
    ghost var msg := resp[..n];
    for i := 0 to ancount
      invariant !found && ScanAll(msg, start, ancount) == ScanAll(msg, off, ancount - i)
    {
      var ok, end := SkipName(resp, n, off);
      if !ok {
        return;
      }
      ScanStep(msg, off, end, ancount - i);
      var broken;
      broken, found, off, length := InspectRecord(resp, n, end);
      if broken {
        found := false;
        return;
      }
      if found {
        return;
      }
    }
  }

  /** Where the text stands in the n bytes received, if there is one. */
  method FindText(resp: array<byte>, n: nat) returns (found: bool, off: nat, length: nat)
    requires 12 <= n <= resp.Length
    ensures found <==> Scan(resp[..n]).Some?
    ensures found ==> off + length <= n && Scan(resp[..n]) == Some(resp[off..off + length])
  {
    found, off, length := false, 0, 0;
    var qdcount, ancount := Word(resp[4], resp[5]), Word(resp[6], resp[7]);
    if ancount == 0 {
      return;
    }
    var ok;
    ok, off := SkipQuestions(resp, n, qdcount);
    if !ok {
      return;
    }
    found, off, length := ScanAnswers(resp, n, off, ancount);
  }

  /** The text found, stored as a string; the buffer is emptied first, and n may be the error value -1. */
  method ReadAnswer(resp: array<byte>, n: int, out: array<byte>) returns (found: bool)
    requires n <= resp.Length && out.Length > 0 && out != resp
    modifies out
    ensures found <==> 0 <= n && Scan(resp[..n]).Some?
    ensures !found ==> out[0] == 0 && out[1..] == old(out[1..])
    ensures found ==> var text := Scan(resp[..n]).value;
      if |text| < out.Length
      then out[..|text|] == text && out[|text|] == 0 && out[|text| + 1..] == old(out[..])[|text| + 1..]
      else out[..out.Length - 1] == text[..out.Length - 1] && out[out.Length - 1] == 0
  {
    out[0] := 0;
    if n < 12 {
      return false;
    }
    var off, length;
    found, off, length := FindText(resp, n);
    if found {
      Copy(resp[off..off + length], out);
    }
  }

  // ---- Round trip ----

  lemma {:induction false} AtByte(msg: seq<byte>, off: nat, part: seq<byte>, k: nat)
    requires At(msg, off, part) && k < |part|
    ensures msg[off + k] == part[k]
  {
    assert msg[off..off + |part|][k] == part[k];
  }

  lemma {:induction false} AtWord(msg: seq<byte>, off: nat, part: seq<byte>, k: nat)
    requires At(msg, off, part) && k + 1 < |part|
    ensures off + k + 1 < |msg| && Word(msg[off + k], msg[off + k + 1]) == Word(part[k], part[k + 1])
  {
    AtByte(msg, off, part, k);
    AtByte(msg, off, part, k + 1);
  }

  lemma {:induction false} QuestionsSkipped(msg: seq<byte>, off: nat, qs: seq<Question>)
    requires ValidQuestions(qs) && At(msg, off, QuestionsWire(qs))
    ensures SkipAll(msg, off, |qs|) == Some(off + |QuestionsWire(qs)|)
    decreases |qs|
  {
    if qs != [] {
      var q := qs[0];
      AtSplit(msg, off, q.Wire(), QuestionsWire(qs[1..]));
      AtSplit(msg, off, q.name.Wire(), U16(q.qtype) + U16(q.qclass));
      SkipStops(msg, off, q.name);
      QuestionsSkipped(msg, off + |q.Wire()|, qs[1..]);
    }
  }

  lemma {:induction false} RecordFields(msg: seq<byte>, end: nat, r: Record)
    requires r.Valid() && At(msg, end, r.Fixed() + r.rdata.Wire())
    ensures end + 10 + |r.rdata.Wire()| <= |msg| && At(msg, end + 10, r.rdata.Wire())
    ensures Word(msg[end], msg[end + 1]) == r.rdata.Type()
    ensures Word(msg[end + 8], msg[end + 9]) == |r.rdata.Wire()|
  {
    AtSplit(msg, end, r.Fixed(), r.rdata.Wire());
    AtWord(msg, end, r.Fixed(), 0);
    AtWord(msg, end, r.Fixed(), 8);
  }

  /** One record: it gives up its text if it holds any, and is passed over if not. */
  lemma {:induction false} RecordInspected(msg: seq<byte>, end: nat, r: Record)
    requires r.Valid() && At(msg, end, r.Fixed() + r.rdata.Wire())
    ensures Inspect(msg, end)
         == if r.rdata.Texts? then Text(r.rdata.texts[0]) else Next(end + 10 + |r.rdata.Wire()|)
  {
    RecordFields(msg, end, r);
    if r.rdata.Texts? {
      TextStands(msg, end + 10, r.rdata.texts);
    }
  }

  lemma {:induction false} TextStands(msg: seq<byte>, off: nat, texts: seq<seq<byte>>)
    requires texts != [] && (forall i :: 0 <= i < |texts| ==> |texts[i]| <= 255) && At(msg, off, Strings(texts))
    ensures var text := texts[0];
      && off + 1 + |text| <= |msg| && |text| + 1 <= |Strings(texts)|
      && msg[off] == |text| && msg[off + 1..off + 1 + |text|] == text
  {
    AtSplit(msg, off, [|texts[0]|] + texts[0], Strings(texts[1..]));
    AtSplit(msg, off, [|texts[0]|], texts[0]);
    AtByte(msg, off, [|texts[0]|], 0);
  }

  lemma {:induction false} RecordScanned(msg: seq<byte>, off: nat, r: Record) returns (end: nat, next: nat)
    requires r.Valid() && At(msg, off, r.Wire())
    ensures Skip(msg, off) == Some(end) && next == off + |r.Wire()|
    ensures Inspect(msg, end) == if r.rdata.Texts? then Text(r.rdata.texts[0]) else Next(next)
  {
    end, next := off + |r.name.Wire()|, off + |r.Wire()|;
    AtSplit(msg, off, r.name.Wire(), r.Fixed() + r.rdata.Wire());
    SkipStops(msg, off, r.name);
    RecordInspected(msg, end, r);
  }

  /** A record with something behind it gives up its text, or what is behind it comes next. */
  lemma {:induction false} RecordStep(msg: seq<byte>, off: nat, r: Record, tail: seq<byte>)
    returns (end: nat, next: nat)
    requires r.Valid() && At(msg, off, r.Wire() + tail)
    ensures Skip(msg, off) == Some(end)
    ensures Inspect(msg, end) == if r.rdata.Texts? then Text(r.rdata.texts[0]) else Next(next)
    ensures At(msg, next, tail)
  {
    AtSplit(msg, off, r.Wire(), tail);
    end, next := RecordScanned(msg, off, r);
  }

  lemma {:induction false} RecordsScanned(msg: seq<byte>, off: nat, rs: seq<Record>)
    requires ValidRecords(rs) && At(msg, off, RecordsWire(rs))
    ensures ScanAll(msg, off, |rs|) == FirstText(rs)
    decreases |rs|
  {
    if rs != [] {
      var end, next := RecordStep(msg, off, rs[0], RecordsWire(rs[1..]));
      ScanStep(msg, off, end, |rs|);
      RecordsScanned(msg, next, rs[1..]);
    }
  }

  /** Where the sections of a serialised message stand. */
  lemma {:induction false} MessageParts(m: Message, msg: seq<byte>, first: nat)
    requires m.Valid() && msg == m.Wire() && first == 12 + |QuestionsWire(m.questions)|
    ensures At(msg, 0, m.Header()) && At(msg, 12, QuestionsWire(m.questions))
    ensures At(msg, first, RecordsWire(m.answers))
  {
    var qs, rs := QuestionsWire(m.questions), RecordsWire(m.answers);
    assert At(msg, 0, msg);
    AtSplit(msg, 0, m.Header(), qs + (rs + m.rest));
    AtSplit(msg, 12, qs, rs + m.rest);
    AtSplit(msg, first, rs, m.rest);
  }

  /** The counts in the header are those of the sections. */
  lemma {:induction false} MessageCounts(m: Message, msg: seq<byte>)
    requires m.Valid() && At(msg, 0, m.Header())
    ensures 12 <= |msg| && Word(msg[4], msg[5]) == |m.questions| && Word(msg[6], msg[7]) == |m.answers|
  {
    AtWord(msg, 0, m.Header(), 4);
    AtWord(msg, 0, m.Header(), 6);
  }

  lemma {:induction false} SectionsScanned(m: Message, msg: seq<byte>, first: nat)
    requires m.Valid() && msg == m.Wire() && first == 12 + |QuestionsWire(m.questions)|
    ensures SkipAll(msg, 12, |m.questions|) == Some(first)
    ensures ScanAll(msg, first, |m.answers|) == FirstText(m.answers)
  {
    MessageParts(m, msg, first);
    QuestionsSkipped(msg, 12, m.questions);
    RecordsScanned(msg, first, m.answers);
  }

  /** The scan of a serialised message returns the first text of its first TXT answer, and nothing if it has none. */
  lemma {:induction false} ScanRoundTrip(m: Message)
    requires m.Valid()
    ensures Scan(m.Wire()) == FirstText(m.answers)
  {
    var msg, first := m.Wire(), 12 + |QuestionsWire(m.questions)|;
    MessageParts(m, msg, first);
    MessageCounts(m, msg);
    SectionsScanned(m, msg, first);
  }

  // ---- The query ----

  /** A recursive TXT query for the name, and nothing else. */
  ghost function QueryFor(name: seq<byte>): Message {
    Message(0x1234, 0x0100, [Question(Encoded(name), TXT, IN)], [], 0, 0, [])
  }

  /** The buffer after the header: twelve bytes, then zeros. */
  method BuildQuery(name: seq<byte>, query: array<byte>) returns (ok: bool, length: nat)
    requires query.Length == 512
    modifies query
    ensures ok <==> Fits(Labels(name)) && |Encoded(name).Wire()| <= 496
    ensures ok ==> length <= 512 && QueryFor(name).Valid() && query[..length] == QueryFor(name).Wire()
    ensures ok ==>
      query[..length] == [0x12, 0x34, 0x01, 0, 0, 1, 0, 0, 0, 0, 0, 0] + Encoded(name).Wire() + [0, 16, 0, 1]
  {
    forall k | 0 <= k < 512 {
      query[k] := 0;
    }
    query[0], query[1], query[2], query[5] := 0x12, 0x34, 0x01, 0x01;
    ghost var header := query[..12];
    var nameLength: nat := EncodeName(name, query, 12);
    if nameLength == 0 || 12 + nameLength + 4 > 512 {
      return false, 0;
    }
    length := AppendType(query, 12 + nameLength);
    ok := true;
    QueryWire(name, header, Encoded(name).Wire(), query[..length]);
  }

  method AppendType(query: array<byte>, at: nat) returns (length: nat)
    requires at + 4 <= query.Length
    modifies query
    ensures length == at + 4 && query[..length] == old(query[..at]) + [0, TXT, 0, IN]
  {
    length := at;
    query[length], query[length + 1] := 0, TXT;
    length := length + 2;
    query[length], query[length + 1] := 0, IN;
    length := length + 2;
  }

  /** Twelve bytes of header, the name, and the type TXT in the class IN. */
  lemma {:induction false} QueryWire(name: seq<byte>, header: seq<byte>, wire: seq<byte>, query: seq<byte>)
    requires Fits(Labels(name)) && wire == Encoded(name).Wire()
    requires header == [0x12, 0x34, 0x01, 0, 0, 1, 0, 0, 0, 0, 0, 0] && query == header + wire + [0, 16, 0, 1]
    ensures QueryFor(name).Valid() && query == QueryFor(name).Wire()
  {
    LabelsPlain(name);
    var m, q := QueryFor(name), Question(Encoded(name), TXT, IN);
    HeaderOfQuery(name, header);
    OneQuestion(q, wire + [0, 16, 0, 1]);
    var tail: seq<byte> := RecordsWire(m.answers) + m.rest;
    assert tail == [];
    assert QuestionsWire(m.questions) + tail == wire + [0, 16, 0, 1];
  }

  lemma {:induction false} HeaderOfQuery(name: seq<byte>, header: seq<byte>)
    requires QueryFor(name).Valid()
    requires header == [0x12, 0x34, 0x01, 0, 0, 1, 0, 0, 0, 0, 0, 0]
    ensures QueryFor(name).Header() == header
  {
    var m := QueryFor(name);
    var zero: seq<byte> := [0, 0];
    assert U16(m.id) == [0x12, 0x34] && U16(m.flags) == [0x01, 0];
    assert U16(|m.questions|) == [0, 1] && U16(|m.answers|) == U16(m.nscount) == U16(m.arcount) == zero;
  }

  lemma {:induction false} OneQuestion(q: Question, wire: seq<byte>)
    requires q.Valid() && q.qtype == TXT && q.qclass == IN && wire == q.name.Wire() + [0, 16, 0, 1]
    ensures QuestionsWire([q]) == wire
  {
    assert [q][1..] == [];
    assert U16(TXT) + U16(IN) == [0, 16, 0, 1];
    assert QuestionsWire([q]) == q.Wire() + [];
  }
}
