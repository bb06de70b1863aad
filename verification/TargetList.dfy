/** The growable target list, the positional matrix and name resolution: src/targets.c. */
module TargetLists {
  import opened Bytes
  import opened Options
  import opened Ports

  const SUCCESS: int := 0

  /** The addresses of a target with its own connection settings; none of them is set at first. */
  datatype Resolution = Resolution(addrs: seq<nat>, port: int, proto: Option<Proto>)

  datatype Entry = Entry(host: seq<byte>, port: int, proto: Proto,
                         resolved: Resolution, resolveOk: bool, resolveErr: int)

  /** A zeroed entry with its host, cut to 255 characters, its port and its protocol. */
  function NewEntry(host: seq<byte>, port: int, proto: Proto): Entry {
    Entry(Cut(host, 255), port, proto, Resolution([], 0, None), false, 0)
  }

  lemma {:induction false} NewEntryFields(host: seq<byte>, port: int, proto: Proto)
    ensures var e := NewEntry(host, port, proto);
      && e.host == (if |host| <= 255 then host else host[..255]) && e.port == port && e.proto == proto
      && !e.resolveOk && e.resolveErr == 0 && e.resolved == Resolution([], 0, None)
  {
  }

  function Grown(cap: nat): nat { if cap == 0 then 8 else 2 * cap }

  class TargetList {
    var items: array<Entry>
    var count: nat

    ghost predicate Valid()
      reads this
    {
      count <= items.Length
    }

    ghost function Contents(): seq<Entry>
      reads this, items
      requires Valid()
    {
      items[..count]
    }

    constructor ()
      ensures Valid() && Contents() == [] && fresh(items)
    {
      items := new Entry[0];
      count := 0;
    }

    /** Appends an entry; alloc tells whether a reallocation to the given capacity succeeds. */
    method Add(host: seq<byte>, port: int, proto: Proto, alloc: nat -> bool) returns (ok: bool)
      requires Valid()
      modifies this, items
      ensures Valid() && (items == old(items) || fresh(items))
      ensures var cap := old(items.Length);
        && (ok <==> old(count) < cap || alloc(if cap == 0 then 8 else 2 * cap))
        && (items.Length == if !ok || old(count) < cap then cap else if cap == 0 then 8 else 2 * cap)
      ensures Contents() == if ok then old(Contents()) + [NewEntry(host, port, proto)] else old(Contents())
      ensures ok ==> var e := Contents()[old(count)];
        && e.host == (if |host| <= 255 then host else host[..255]) && e.port == port && e.proto == proto
        && !e.resolveOk && e.resolveErr == 0 && e.resolved == Resolution([], 0, None)
    {
      if count == items.Length {
        var cap := Grown(items.Length);
        if !alloc(cap) {
          return false;
        }
        var grown := new Entry[cap](_ => NewEntry([], 0, Tcp));
        forall i | 0 <= i < count {
          grown[i] := items[i];
        }
        assert grown[..count] == items[..count];
        items := grown;
      }
      items[count] := NewEntry(host, port, proto);
      count := count + 1;
      ok := true;
    }
  }

  // ---- The positional matrix ----

  /** The entries of one host and one protocol: one per port, or a single one for ICMP. */
  function Cells(host: seq<byte>, proto: Proto, ports: seq<int>): seq<Entry> {
    if proto == Icmp then [NewEntry(host, 0, Icmp)]
    else seq(|ports|, (i: nat) requires i < |ports| => NewEntry(host, ports[i], proto))
  }

  function CellsOf(host: seq<byte>, protos: seq<Proto>, ports: seq<int>): seq<seq<Entry>> {
    seq(|protos|, (t: nat) requires t < |protos| => Cells(host, protos[t], ports))
  }

  function Row(host: seq<byte>, protos: seq<Proto>, ports: seq<int>): seq<Entry> {
    Flat(CellsOf(host, protos, ports))
  }

  function Rows(hosts: seq<seq<byte>>, protos: seq<Proto>, ports: seq<int>): seq<seq<Entry>> {
    seq(|hosts|, (h: nat) requires h < |hosts| => Row(hosts[h], protos, ports))
  }

  function Matrix(hosts: seq<seq<byte>>, protos: seq<Proto>, ports: seq<int>): seq<Entry> {
    Flat(Rows(hosts, protos, ports))
  }

  /** All blocks, one behind the other. */
  function Flat(blocks: seq<seq<Entry>>): seq<Entry> {
    if blocks == [] then [] else Flat(blocks[..|blocks| - 1]) + blocks[|blocks| - 1]
  }

  lemma {:induction false} FlatAppend(blocks: seq<seq<Entry>>, block: seq<Entry>)
    ensures Flat(blocks + [block]) == Flat(blocks) + block
  {
    assert (blocks + [block])[..|blocks|] == blocks;
  }

  lemma {:induction false} RowNext(host: seq<byte>, protos: seq<Proto>, ports: seq<int>, t: nat)
    requires t < |protos|
    ensures Row(host, protos[..t + 1], ports) == Row(host, protos[..t], ports) + Cells(host, protos[t], ports)
  {
    assert CellsOf(host, protos[..t + 1], ports) == CellsOf(host, protos[..t], ports) + [Cells(host, protos[t], ports)];
    FlatAppend(CellsOf(host, protos[..t], ports), Cells(host, protos[t], ports));
  }

  lemma {:induction false} MatrixNext(hosts: seq<seq<byte>>, protos: seq<Proto>, ports: seq<int>, h: nat)
    requires h < |hosts|
    ensures Matrix(hosts[..h + 1], protos, ports) == Matrix(hosts[..h], protos, ports) + Row(hosts[h], protos, ports)
  {
    assert Rows(hosts[..h + 1], protos, ports) == Rows(hosts[..h], protos, ports) + [Row(hosts[h], protos, ports)];
    FlatAppend(Rows(hosts[..h], protos, ports), Row(hosts[h], protos, ports));
  }

  /** The k-th entry of the i-th block stands behind all blocks before. */
  lemma {:induction false} FlatAt(blocks: seq<seq<Entry>>, i: nat, first: nat, k: nat)
    requires i < |blocks| && first == |Flat(blocks[..i])| && k < |blocks[i]|
    ensures first + k < |Flat(blocks)|
    ensures Flat(blocks)[first + k] == blocks[i][k]
    decreases |blocks|
  {
    var init := blocks[..|blocks| - 1];
    if i < |init| {
      assert init[..i] == blocks[..i];
      FlatAt(init, i, first, k);
    }
  }

  /** How many entries a host has: one for every ICMP, one per port for every other protocol. */
  function Width(protos: seq<Proto>, nport: nat): nat {
    if protos == [] then 0
    else Width(protos[..|protos| - 1], nport) + if protos[|protos| - 1] == Icmp then 1 else nport
  }

  /** How many of the protocols are ICMP. */
  function Icmps(protos: seq<Proto>): nat {
    if protos == [] then 0 else Icmps(protos[..|protos| - 1]) + if protos[|protos| - 1] == Icmp then 1 else 0
  }

  lemma {:induction false} WidthMeaning(protos: seq<Proto>, nport: nat)
    ensures Icmps(protos) == multiset(protos)[Icmp] <= |protos|
    ensures Width(protos, nport) == Icmps(protos) + (|protos| - Icmps(protos)) * nport
  {
    if protos != [] {
      var init, last := protos[..|protos| - 1], protos[|protos| - 1];
      WidthMeaning(init, nport);
      assert protos == init + [last];
      OneWider(|init| - Icmps(init), nport);
    }
  }

  lemma {:induction false} OneWider(n: nat, nport: nat)
    ensures (n + 1) * nport == n * nport + nport
  {
  }

  lemma {:induction false} RowLength(host: seq<byte>, protos: seq<Proto>, ports: seq<int>)
    ensures |Row(host, protos, ports)| == Width(protos, |ports|)
  {
    if protos != [] {
      var n := |protos| - 1;
      RowLength(host, protos[..n], ports);
      RowNext(host, protos, ports, n);
      assert protos[..n + 1] == protos;
    }
  }

  lemma {:induction false} FlatUniform(blocks: seq<seq<Entry>>, w: nat)
    requires forall i :: 0 <= i < |blocks| ==> |blocks[i]| == w
    ensures |Flat(blocks)| == |blocks| * w
  {
    if blocks != [] {
      FlatUniform(blocks[..|blocks| - 1], w);
      assert |blocks| * w == (|blocks| - 1) * w + w;
    }
  }

  lemma {:induction false} MatrixLength(hosts: seq<seq<byte>>, protos: seq<Proto>, ports: seq<int>)
    ensures |Matrix(hosts, protos, ports)| == |hosts| * Width(protos, |ports|)
  {
    forall h | 0 <= h < |hosts| ensures |Rows(hosts, protos, ports)[h]| == Width(protos, |ports|) {
      RowLength(hosts[h], protos, ports);
    }
    FlatUniform(Rows(hosts, protos, ports), Width(protos, |ports|));
  }

  lemma {:induction false} CellsPrefix(host: seq<byte>, protos: seq<Proto>, ports: seq<int>, t: nat)
    requires t <= |protos|
    ensures CellsOf(host, protos, ports)[..t] == CellsOf(host, protos[..t], ports)
  {
  }

  /** Within a host, the p-th port of the t-th protocol stands behind all entries of the protocols before. */
  lemma {:induction false} RowAt(host: seq<byte>, protos: seq<Proto>, ports: seq<int>, t: nat, first: nat, p: nat)
    requires t < |protos| && first == Width(protos[..t], |ports|) && p < |Cells(host, protos[t], ports)|
    ensures first + p < |Row(host, protos, ports)|
    ensures Row(host, protos, ports)[first + p] == Cells(host, protos[t], ports)[p]
  {
    CellsPrefix(host, protos, ports, t);
    RowLength(host, protos[..t], ports);
    FlatAt(CellsOf(host, protos, ports), t, first, p);
  }

  /** Every host has a block of its own; `first` is where it starts. */
  lemma {:induction false} MatrixBlock(hosts: seq<seq<byte>>, protos: seq<Proto>, ports: seq<int>, h: nat,
                                       first: nat, k: nat)
    requires h < |hosts| && first == h * Width(protos, |ports|) && k < |Row(hosts[h], protos, ports)|
    ensures first + k < |Matrix(hosts, protos, ports)|
    ensures Matrix(hosts, protos, ports)[first + k] == Row(hosts[h], protos, ports)[k]
  {
    assert Rows(hosts, protos, ports)[..h] == Rows(hosts[..h], protos, ports);
    MatrixLength(hosts[..h], protos, ports);
    FlatAt(Rows(hosts, protos, ports), h, first, k);
  }

  /** The list is host-major, then by protocol, then by port: which entry stands there. */
  lemma {:induction false} MatrixAt(hosts: seq<seq<byte>>, protos: seq<Proto>, ports: seq<int>, h: nat,
                                    t: nat, p: nat, first: nat)
    requires h < |hosts| && t < |protos| && p < if protos[t] == Icmp then 1 else |ports|
    requires first == h * Width(protos, |ports|)
    ensures var k := first + (Width(protos[..t], |ports|) + p);
      k < |Matrix(hosts, protos, ports)|
      && var e := Matrix(hosts, protos, ports)[k];
      && e.host == (if |hosts[h]| <= 255 then hosts[h] else hosts[h][..255])
      && e.proto == protos[t] && e.port == (if protos[t] == Icmp then 0 else ports[p])
      && !e.resolveOk && e.resolveErr == 0 && e.resolved == Resolution([], 0, None)
  {
    var inner := Width(protos[..t], |ports|);
    RowAt(hosts[h], protos, ports, t, inner, p);
    MatrixBlock(hosts, protos, ports, h, first, inner + p);
    NewEntryFields(hosts[h], if protos[t] == Icmp then 0 else ports[p], protos[t]);
  }

  ghost predicate Unresolved(es: seq<Entry>) {
    forall i :: 0 <= i < |es| ==> !es[i].resolveOk && es[i].resolveErr == SUCCESS && es[i].resolved.addrs == []
  }

  lemma {:induction false} FlatUnresolved(blocks: seq<seq<Entry>>)
    requires forall b :: 0 <= b < |blocks| ==> Unresolved(blocks[b])
    ensures Unresolved(Flat(blocks))
  {
    if blocks != [] {
      FlatUnresolved(blocks[..|blocks| - 1]);
    }
  }

  /** Every entry of the matrix is fresh: not resolved, no error code, no addresses. */
  lemma {:induction false} MatrixUnresolved(hosts: seq<seq<byte>>, protos: seq<Proto>, ports: seq<int>)
    ensures Unresolved(Matrix(hosts, protos, ports))
  {
    forall h | 0 <= h < |hosts| ensures Unresolved(Rows(hosts, protos, ports)[h]) {
      FlatUnresolved(CellsOf(hosts[h], protos, ports));
    }
    FlatUnresolved(Rows(hosts, protos, ports));
  }

  // ---- Building ----

  method AddPorts(list: TargetList, host: seq<byte>, proto: Proto, ports: array<int>, nport: nat, alloc: nat -> bool)
    returns (ok: bool)
    requires list.Valid() && nport <= ports.Length && proto != Icmp
    modifies list, list.items
    ensures list.Valid() && (list.items == old(list.items) || fresh(list.items))
    ensures ok ==> list.Contents() == old(list.Contents()) + Cells(host, proto, ports[..nport])
    ensures !ok ==> exists cap :: !alloc(cap)
  {
    ghost var all := ports[..nport];
    for pi := 0 to nport
      invariant list.Valid() && (list.items == old(list.items) || fresh(list.items))
      invariant ports[..nport] == all
      invariant list.Contents() == old(list.Contents()) + Cells(host, proto, all[..pi])
    {
      ok := list.Add(host, ports[pi], proto, alloc);
      if !ok {
        return;
      }
      assert Cells(host, proto, all[..pi + 1]) == Cells(host, proto, all[..pi]) + [NewEntry(host, all[pi], proto)];
    }
    assert all[..nport] == all;
    ok := true;
  }

  method AddProto(list: TargetList, host: seq<byte>, proto: Proto, ports: array<int>, nport: nat, alloc: nat -> bool)
    returns (ok: bool)
    requires list.Valid() && nport <= ports.Length
    modifies list, list.items
    ensures list.Valid() && (list.items == old(list.items) || fresh(list.items))
    ensures ok ==> list.Contents() == old(list.Contents()) + Cells(host, proto, ports[..nport])
    ensures !ok ==> exists cap :: !alloc(cap)
  {
    if proto == Icmp {
      ok := list.Add(host, 0, Icmp, alloc);
    } else {
      ok := AddPorts(list, host, proto, ports, nport, alloc);
    }
  }

  method AddHost(list: TargetList, host: seq<byte>, protos: array<Proto>, nproto: nat, ports: array<int>, nport: nat,
                 alloc: nat -> bool)
    returns (ok: bool)
    requires list.Valid() && nport <= ports.Length && nproto <= protos.Length
    modifies list, list.items
    ensures list.Valid() && (list.items == old(list.items) || fresh(list.items))
    ensures ok ==> list.Contents() == old(list.Contents()) + Row(host, protos[..nproto], ports[..nport])
    ensures !ok ==> exists cap :: !alloc(cap)
  {
    ghost var kinds, numbers := protos[..nproto], ports[..nport];
    for ti := 0 to nproto
      invariant list.Valid() && (list.items == old(list.items) || fresh(list.items))
      invariant protos[..nproto] == kinds && ports[..nport] == numbers
      invariant list.Contents() == old(list.Contents()) + Row(host, kinds[..ti], numbers)
    {
      assert protos[ti] == kinds[ti];
      ok := AddProto(list, host, protos[ti], ports, nport, alloc);
      if !ok {
        return;
      }
      RowNext(host, kinds, numbers, ti);
    }
    assert kinds[..nproto] == kinds;
    ok := true;
  }

  method AddHosts(list: TargetList, hosts: seq<seq<byte>>, protos: array<Proto>, nproto: nat,
                  ports: array<int>, nport: nat, alloc: nat -> bool)
    returns (ok: bool)
    requires list.Valid() && nport <= ports.Length && nproto <= protos.Length && list.Contents() == []
    modifies list, list.items
    ensures list.Valid() && (list.items == old(list.items) || fresh(list.items))
    ensures ok ==> list.Contents() == Matrix(hosts, protos[..nproto], ports[..nport])
    ensures !ok ==> exists cap :: !alloc(cap)
  {
    ghost var kinds, numbers := protos[..nproto], ports[..nport];
    for h := 0 to |hosts|
      invariant list.Valid() && (list.items == old(list.items) || fresh(list.items))
      invariant protos[..nproto] == kinds && ports[..nport] == numbers
      invariant list.Contents() == Matrix(hosts[..h], kinds, numbers)
    {
      ok := AddHost(list, hosts[h], protos, nproto, ports, nport, alloc);
      if !ok {
        return;
      }
      MatrixNext(hosts, kinds, numbers, h);
    }
    assert hosts[..|hosts|] == hosts;
    ok := true;
  }

  /** Some protocol is not ICMP. */
  predicate NeedsPort(protos: seq<Proto>) { exists i :: 0 <= i < |protos| && protos[i] != Icmp }

  /** When the argument strings are good: well-formed, not too long, and with a port if one is needed. */
  predicate WellFormed(portTokens: seq<seq<byte>>, protoTokens: seq<seq<byte>>) {
    && Accepted(portTokens, 1024) && AllProtos(protoTokens) && |protoTokens| <= 8
    && (NeedsPort(Chosen(protoTokens)) ==> Expand(portTokens) != [])
  }

  lemma {:induction false} ExpandsToSome(tokens: seq<seq<byte>>)
    requires AllGood(tokens)
    ensures Expand(tokens) == [] <==> tokens == []
  {
    if tokens != [] {
      var b := Bounds(tokens[|tokens| - 1]);
      assert |Interval(b.0, b.1)| > 0;
    }
  }

  /**
   Good arguments: at most 1024 ports, all of them within range, at most eight protocols, all of them known,
   and a port unless ICMP alone is asked for; a list without protocols asks for TCP.
   */
  lemma {:induction false} WellFormedIff(portTokens: seq<seq<byte>>, protoTokens: seq<seq<byte>>)
    ensures WellFormed(portTokens, protoTokens) <==>
      && (forall i :: 0 <= i < |portTokens| ==> 1 <= Bounds(portTokens[i]).0 <= Bounds(portTokens[i]).1 <= 65535)
      && |Expand(portTokens)| <= 1024
      && (forall i :: 0 <= i < |protoTokens| ==> ProtoOf(protoTokens[i]).Some?) && |protoTokens| <= 8
      && (protoTokens == [] || (exists i :: 0 <= i < |protoTokens| && ProtoOf(protoTokens[i]) != Some(Icmp))
          ==> portTokens != [])
  {
    if AllGood(portTokens) && AllProtos(protoTokens) {
      ExpandsToSome(portTokens);
      ChosenMeaning(protoTokens);
      assert protoTokens == [] ==> Chosen(protoTokens)[0] != Icmp;
    }
  }

  method AnyNeedsPort(protos: array<Proto>, nproto: nat) returns (need: bool)
    requires nproto <= protos.Length
    ensures need <==> NeedsPort(protos[..nproto])
  {
    need := false;
    for ti := 0 to nproto
      invariant need <==> exists i :: 0 <= i < ti && protos[i] != Icmp
    {
      if protos[ti] != Icmp {
        need := true;
      }
    }
    assert forall i :: 0 <= i < nproto ==> protos[..nproto][i] == protos[i];
  }

  /** Both argument strings, and the check that a port is there when one is needed. */
  method ParseArguments(portSpec: Option<seq<byte>>, protoSpec: Option<seq<byte>>,
                        ports: array<int>, protos: array<Proto>)
    returns (ok: bool, nport: nat, nproto: nat)
    requires (portSpec.Some? ==> 0 !in portSpec.value) && (protoSpec.Some? ==> 0 !in protoSpec.value)
    requires ports.Length == 1024 && protos.Length == 8
    modifies ports, protos
    ensures ok <==> WellFormed(PortTokens(portSpec), ProtoTokens(protoSpec))
    ensures ok ==> nport <= 1024 && nproto <= 8
    ensures ok ==> ports[..nport] == Expand(PortTokens(portSpec)) && protos[..nproto] == Chosen(ProtoTokens(protoSpec))
  {
    nproto := 0;
    ok, nport := ParsePortList(portSpec, ports, 1024);
    if !ok {
      return;
    }
    ghost var numbers := ports[..nport];
    ok, nproto := ParseProtoList(protoSpec, protos, 8);
    if !ok {
      return;
    }
    assert ports[..nport] == numbers;
    var need := AnyNeedsPort(protos, nproto);
    ok := !(need && nport == 0);
  }

  lemma {:induction false} MatrixNotEmpty(hosts: seq<seq<byte>>, protos: seq<Proto>, ports: seq<int>)
    requires hosts != [] && protos != [] && (NeedsPort(protos) ==> ports != [])
    ensures Matrix(hosts, protos, ports) != []
  {
    assert protos[0] != Icmp ==> NeedsPort(protos);
    MatrixAt(hosts, protos, ports, 0, 0, 0, 0);
  }

  /** Builds the list from the positional arguments alone; it fails on bad arguments and on failed reallocation only. */
  method Build(hosts: seq<seq<byte>>, portSpec: Option<seq<byte>>, protoSpec: Option<seq<byte>>, alloc: nat -> bool)
    returns (ok: bool, list: TargetList)
    requires (portSpec.Some? ==> 0 !in portSpec.value) && (protoSpec.Some? ==> 0 !in protoSpec.value)
    ensures fresh(list) && list.Valid()
    ensures ok ==> hosts != [] && WellFormed(PortTokens(portSpec), ProtoTokens(protoSpec))
    ensures ok ==> list.Contents() == Matrix(hosts, Chosen(ProtoTokens(protoSpec)), Expand(PortTokens(portSpec)))
    ensures !ok ==>
              || hosts == [] || !WellFormed(PortTokens(portSpec), ProtoTokens(protoSpec))
              || exists cap :: !alloc(cap)
  {
    ok := false;
    list := new TargetList();
    if |hosts| > 0 {
      var ports, protos := new int[1024], new Proto[8];
      var good, nport, nproto := ParseArguments(portSpec, protoSpec, ports, protos);
      if !good {
        return;
      }
      good := AddHosts(list, hosts, protos, nproto, ports, nport, alloc);
      if !good {
        return;
      }
      MatrixNotEmpty(hosts, protos[..nproto], ports[..nport]);
    }
    if list.count == 0 {
      return;
    }
    ok := true;
  }
}
