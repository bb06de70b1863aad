/** Resolving a target list with its cache of earlier duplicates: Targets_Resolve of src/targets.c. */
module Resolving {
  import opened Bytes
  import opened Options
  import opened Ports
  import opened TargetLists

  /** What the resolver says about a host: a result code, and addresses when the code is SUCCESS. */
  datatype Answer = Answer(code: int, addrs: seq<nat>) {
    predicate Ok() { code == SUCCESS }
  }

  /** The entry after a query of its own. */
  function Alone(e: Entry, a: Answer): Entry {
    var addrs := if a.Ok() then a.addrs else e.resolved.addrs;
    e.(resolved := Resolution(addrs, e.port, Some(e.proto)), resolveOk := a.Ok(), resolveErr := a.code)
  }

  /** An earlier target has the same host, and the host resolves. */
  ghost predicate Cached(es: seq<Entry>, i: nat, answer: seq<byte> -> Answer)
    requires i < |es|
  {
    answer(es[i].host).Ok() && exists j :: 0 <= j < i && es[j].host == es[i].host
  }

  /** The i-th entry afterwards: as if resolved alone, but the error code of a cached one is left as it was. */
  ghost function After(es: seq<Entry>, i: nat, answer: seq<byte> -> Answer): Entry
    requires i < |es|
  {
    var alone := Alone(es[i], answer(es[i].host));
    if Cached(es, i, answer) then alone.(resolveErr := es[i].resolveErr) else alone
  }

  /** The hosts that are looked up, in order. */
  ghost function Queries(es: seq<Entry>, n: nat, answer: seq<byte> -> Answer): seq<seq<byte>>
    requires n <= |es|
  {
    if n == 0 then []
    else
      var before := Queries(es, n - 1, answer);
      if Cached(es, n - 1, answer) then before else before + [es[n - 1].host]
  }

  function Resolvable(es: seq<Entry>, answer: seq<byte> -> Answer): nat {
    if es == [] then 0
    else Resolvable(es[..|es| - 1], answer) + if answer(es[|es| - 1].host).Ok() then 1 else 0
  }

  lemma {:induction false} ResolvableNext(es: seq<Entry>, i: nat, answer: seq<byte> -> Answer)
    requires i < |es|
    ensures Resolvable(es[..i + 1], answer)
         == Resolvable(es[..i], answer) + if answer(es[i].host).Ok() then 1 else 0
  {
    assert es[..i + 1][..i] == es[..i];
  }

  /** The first i entries are done, the others untouched. */
  ghost predicate Progress(was: seq<Entry>, now: seq<Entry>, i: nat, answer: seq<byte> -> Answer) {
    && i <= |was| == |now|
    && (forall k :: 0 <= k < i ==> now[k] == After(was, k, answer))
    && (forall k :: i <= k < |was| ==> now[k] == was[k])
  }

  /** The inner loop: an earlier entry that is resolved and has the same host, or i itself. */
  method FindEarlier(items: array<Entry>, i: nat) returns (j: nat)
    requires i < items.Length
    ensures j <= i
    ensures j < i ==> items[j].resolveOk && items[j].host == items[i].host
    ensures j == i ==> forall k :: 0 <= k < i ==> !(items[k].resolveOk && items[k].host == items[i].host)
  {
    j := 0;
    while j < i
      invariant j <= i
      invariant forall k :: 0 <= k < j ==> !(items[k].resolveOk && items[k].host == items[i].host)
    {
      if items[j].resolveOk && items[j].host == items[i].host {
        return;
      }
      j := j + 1;
    }
  }

  lemma {:induction false} CacheHit(was: seq<Entry>, now: seq<Entry>, i: nat, j: nat, answer: seq<byte> -> Answer)
    requires Progress(was, now, i, answer) && j < i < |was| && now[j].resolveOk && now[j].host == now[i].host
    ensures Cached(was, i, answer)
    ensures now[j].resolved.addrs == answer(was[i].host).addrs
  {
    assert now[j] == After(was, j, answer);
  }

  lemma {:induction false} CacheMiss(was: seq<Entry>, now: seq<Entry>, i: nat, answer: seq<byte> -> Answer)
    requires Progress(was, now, i, answer) && i < |was|
    requires forall k :: 0 <= k < i ==> !(now[k].resolveOk && now[k].host == now[i].host)
    ensures !Cached(was, i, answer)
  {
    forall j | 0 <= j < i && was[j].host == was[i].host ensures !answer(was[i].host).Ok() {
      assert now[j] == After(was, j, answer);
    }
  }

  /** The body of the outer loop: whether the entry resolved, and whether the resolver was asked. */
  method ResolveOne(items: array<Entry>, count: nat, i: nat, answer: seq<byte> -> Answer, ghost was: seq<Entry>)
    returns (ok: bool, ghost asked: bool)
    requires i < count == |was| && count <= items.Length && Progress(was, items[..count], i, answer)
    modifies items
    ensures Progress(was, items[..count], i + 1, answer) && items[count..] == old(items[count..])
    ensures ok == answer(was[i].host).Ok() && asked == !Cached(was, i, answer)
  {
    ghost var now := items[..count];
    var t := items[i];
    var j := FindEarlier(items, i);
    assert now[i] == was[i] == t;
    if j < i {
      CacheHit(was, now, i, j, answer);
      items[i] := t.(resolved := Resolution(items[j].resolved.addrs, t.port, Some(t.proto)), resolveOk := true);
      ok, asked := true, false;
    } else {
      CacheMiss(was, now, i, answer);
      var a := answer(t.host);
      var addrs := if a.Ok() then a.addrs else t.resolved.addrs;
      ok, asked := a.code == SUCCESS, true;
      items[i] := t.(resolved := Resolution(addrs, t.port, Some(t.proto)), resolveErr := a.code, resolveOk := ok);
    }
    assert items[..count] == now[i := After(was, i, answer)];
  }

  /** The outer loop over the first count items; `queries` records the calls of the resolver. */
  method Resolve(items: array<Entry>, count: nat, answer: seq<byte> -> Answer)
    returns (ok: nat, ghost queries: seq<seq<byte>>)
    requires count <= items.Length
    modifies items
    ensures forall i :: 0 <= i < count ==> items[i] == After(old(items[..count]), i, answer)
    ensures items[count..] == old(items[count..])
    ensures ok == Resolvable(old(items[..count]), answer)
    ensures queries == Queries(old(items[..count]), count, answer)
  {
    ghost var was := items[..count];
    ok, queries := 0, [];
    for i := 0 to count
      invariant Progress(was, items[..count], i, answer)
      invariant items[count..] == old(items[count..])
      invariant ok == Resolvable(was[..i], answer) && queries == Queries(was, i, answer)
    {
      var good, asked := ResolveOne(items, count, i, answer, was);
      ResolvableNext(was, i, answer);
      if good {
        ok := ok + 1;
      }
      queries := if asked then queries + [was[i].host] else queries;
    }
    assert was[..count] == was;
    assert forall k :: 0 <= k < count ==> items[..count][k] == items[k];
  }

  // ---- What the cache changes, and what it does not ----

  /** An entry is as if resolved alone exactly if it was not cached or its error code was that of success before. */
  lemma {:induction false} CacheIsTransparent(es: seq<Entry>, i: nat, answer: seq<byte> -> Answer)
    requires i < |es|
    ensures After(es, i, answer) == Alone(es[i], answer(es[i].host))
       <==> !Cached(es, i, answer) || es[i].resolveErr == SUCCESS
    ensures var r := After(es, i, answer);
      && r.resolved.port == es[i].port && r.resolved.proto == Some(es[i].proto)
      && (r.resolveOk <==> answer(es[i].host).Ok())
  {
  }

  /** Field by field: code 0 yields addresses, any other code is kept as the error and the addresses stay. */
  lemma {:induction false} AfterMeaning(es: seq<Entry>, i: nat, answer: seq<byte> -> Answer)
    requires i < |es|
    ensures var r, e, a := After(es, i, answer), es[i], answer(es[i].host);
      && r.host == e.host && r.port == e.port && r.proto == e.proto
      && r.resolved.port == e.port && r.resolved.proto == Some(e.proto)
      && (r.resolveOk <==> a.code == 0)
      && r.resolved.addrs == (if a.code == 0 then a.addrs else e.resolved.addrs)
      && r.resolveErr
         == (if a.code == 0 && exists j :: 0 <= j < i && es[j].host == e.host then e.resolveErr else a.code)
  {
  }

  ghost function Resolvables(es: seq<Entry>, n: nat, answer: seq<byte> -> Answer): set<nat>
    requires n <= |es|
  {
    set i: nat | i < n && answer(es[i].host).code == 0
  }

  /** The number returned is that of the entries whose host resolves. */
  lemma {:induction false} ResolvableCount(es: seq<Entry>, n: nat, answer: seq<byte> -> Answer)
    requires n <= |es|
    ensures Resolvable(es[..n], answer) == |Resolvables(es, n, answer)|
  {
    if n > 0 {
      ResolvableCount(es, n - 1, answer);
      ResolvableNext(es, n - 1, answer);
      assert Resolvables(es, n, answer)
          == Resolvables(es, n - 1, answer) + if answer(es[n - 1].host).code == 0 then {n - 1} else {};
    }
  }

  /** On any list of entries that are not yet resolved the cache changes nothing. */
  lemma {:induction false} FreshListTransparent(es: seq<Entry>, i: nat, answer: seq<byte> -> Answer)
    requires Unresolved(es) && i < |es|
    ensures After(es, i, answer) == Alone(es[i], answer(es[i].host))
  {
    CacheIsTransparent(es, i, answer);
  }

  /** So it is on the list built from the positional arguments. */
  lemma {:induction false} BuiltListTransparent(hosts: seq<seq<byte>>, protos: seq<Proto>, ports: seq<int>, i: nat,
                                                answer: seq<byte> -> Answer)
    requires i < |Matrix(hosts, protos, ports)|
    ensures var es := Matrix(hosts, protos, ports); After(es, i, answer) == Alone(es[i], answer(es[i].host))
  {
    MatrixUnresolved(hosts, protos, ports);
    FreshListTransparent(Matrix(hosts, protos, ports), i, answer);
  }

  /** How often a host occurs among the first n entries. */
  ghost function Occurrences(es: seq<Entry>, n: nat, host: seq<byte>): nat
    requires n <= |es|
  {
    if n == 0 then 0 else Occurrences(es, n - 1, host) + if es[n - 1].host == host then 1 else 0
  }

  lemma {:induction false} OccursIff(es: seq<Entry>, n: nat, host: seq<byte>)
    requires n <= |es|
    ensures Occurrences(es, n, host) > 0 <==> exists j :: 0 <= j < n && es[j].host == host
  {
    if n > 0 {
      OccursIff(es, n - 1, host);
      if Occurrences(es, n - 1, host) > 0 {
        var j :| 0 <= j < n - 1 && es[j].host == host;
        assert 0 <= j < n && es[j].host == host;
      }
    }
  }

  lemma {:induction false} CountAppend(q: seq<seq<byte>>, h: seq<byte>, host: seq<byte>)
    ensures multiset(q + [h])[host] == multiset(q)[host] + if h == host then 1 else 0
  {
    assert multiset(q + [h]) == multiset(q) + multiset{h};
  }

  /** How often a host is looked up for the first n entries. */
  ghost function Asked(es: seq<Entry>, n: nat, host: seq<byte>, answer: seq<byte> -> Answer): nat
    requires n <= |es|
  {
    if n == 0 then 0
    else Asked(es, n - 1, host, answer) + if es[n - 1].host == host && !Cached(es, n - 1, answer) then 1 else 0
  }

  lemma {:induction false} AskedCounts(es: seq<Entry>, n: nat, host: seq<byte>, answer: seq<byte> -> Answer)
    requires n <= |es|
    ensures multiset(Queries(es, n, answer))[host] == Asked(es, n, host, answer)
  {
    if n > 0 {
      AskedCounts(es, n - 1, host, answer);
      CountAppend(Queries(es, n - 1, answer), es[n - 1].host, host);
    }
  }

  lemma {:induction false} CachedIff(es: seq<Entry>, n: nat, answer: seq<byte> -> Answer)
    requires n < |es|
    ensures Cached(es, n, answer) <==> answer(es[n].host).Ok() && Occurrences(es, n, es[n].host) > 0
  {
    OccursIff(es, n, es[n].host);
  }

  lemma {:induction false} AskedOnce(es: seq<Entry>, n: nat, host: seq<byte>, answer: seq<byte> -> Answer)
    requires n <= |es|
    ensures Asked(es, n, host, answer)
         == if !answer(host).Ok() then Occurrences(es, n, host)
            else if Occurrences(es, n, host) > 0 then 1 else 0
  {
    if n > 0 {
      AskedOnce(es, n - 1, host, answer);
      CachedIff(es, n - 1, answer);
    }
  }

  /** A host that resolves is looked up once, if it occurs at all; one that does not, once for every occurrence. */
  lemma {:induction false} EachHostOnce(es: seq<Entry>, host: seq<byte>, answer: seq<byte> -> Answer)
    ensures multiset(Queries(es, |es|, answer))[host]
         == if !answer(host).Ok() then Occurrences(es, |es|, host)
            else if exists j :: 0 <= j < |es| && es[j].host == host then 1 else 0
  {
    AskedCounts(es, |es|, host, answer);
    AskedOnce(es, |es|, host, answer);
    OccursIff(es, |es|, host);
  }
}
