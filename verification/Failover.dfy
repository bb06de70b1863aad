/** Trying the addresses of a target in turn: Connect of src/socket.c. */
module Failover {
  import opened Probe

  const PINGDD_SOCKET_FAILURE: int := 103
  const PINGDD_INVALID_ARGS: int := 200

  /** What probing one address yields. */
  datatype Answer = Answer(result: int, rtt: real)

  /** The loop stops at an address that answers, and at an interrupt. */
  predicate Final(a: Answer) { a.result == 0 || a.result == 107 }

  /** The first address whose answer is final, or the number of addresses. */
  function FirstFinal(answers: seq<Answer>): (n: nat)
    ensures n <= |answers| && (n < |answers| ==> Final(answers[n]))
    ensures forall i :: 0 <= i < n ==> !Final(answers[i])
  {
    if answers == [] || Final(answers[0]) then 0
    else
      assert forall i :: 1 <= i < |answers| ==> answers[i] == answers[1..][i - 1];
      1 + FirstFinal(answers[1..])
  }

  /**
   `answers` holds what each resolved address would yield; `ready` is whether the network layer starts.
   `address` is the address reported, and the round-trip time is that of the address probed last.
   */
  method Connect(answers: seq<Answer>, ready: bool) returns (result: int, rtt: real, address: int)
    ensures answers == [] ==> result == 200 && address == -1
    ensures answers != [] && !ready ==> result == 103 && address == -1
    ensures answers != [] && ready ==>
      var n := FirstFinal(answers);
      && address == (if n < |answers| then n else |answers| - 1)
      && result == answers[address].result && rtt == answers[address].rtt
  {
    result, rtt, address := PINGDD_SOCKET_FAILURE, 0.0, -1;
    if |answers| == 0 {
      return PINGDD_INVALID_ARGS, rtt, address;
    }
    if !ready {
      return;
    }
    for i := 0 to |answers|
      invariant i <= FirstFinal(answers)
      invariant i > 0 ==> result == answers[i - 1].result && rtt == answers[i - 1].rtt
    {
      rtt := answers[i].rtt;
      if answers[i].result == SUCCESS || answers[i].result == PINGDD_INTERRUPTED {
        return answers[i].result, rtt, i;
      }
      result := answers[i].result;
    }
    address := |answers| - 1;
  }

  /** The target counts as reached exactly if some address answers and no address before it was interrupted. */
  lemma {:induction false} ReachedIff(answers: seq<Answer>)
    requires answers != []
    ensures var n := FirstFinal(answers);
      (n < |answers| && answers[n].result == 0)
      <==> exists i :: 0 <= i < |answers| && answers[i].result == 0
                       && forall j :: 0 <= j < i ==> answers[j].result != 107
  {
    var n := FirstFinal(answers);
    if i :| 0 <= i < |answers| && answers[i].result == 0
            && forall j :: 0 <= j < i ==> answers[j].result != 107 {
      assert Final(answers[i]);
      assert n <= i;
    }
  }
}
