/** The retry loop of a client call: which addresses are tried, how often, and in what rounds. */
module RetryLoop {
  type Address = seq<char>  // ToString() of an address

  /** What `SendAndRecvTinyPb` comes to. */
  datatype Outcome = Succeeded | TimedOut | Failed

  datatype Result = Reply | Exhausted | Timeout | NotFound | EncodeFailed

  /** `erase` of the first address equal to `a`, if there is one. */
  function Erased(addrs: seq<Address>, a: Address): (r: seq<Address>)
    ensures a in addrs ==> |r| == |addrs| - 1
    ensures forall b :: b in r ==> b in addrs
    ensures forall b :: b in addrs && b != a ==> b in r
  {
    if addrs == [] then [] else if addrs[0] == a then addrs[1..] else [addrs[0]] + Erased(addrs[1..], a)
  }

  ghost predicate Subsequence(s: seq<Address>, of: seq<Address>) {
    s == [] || (of != [] && ((s[0] == of[0] && Subsequence(s[1..], of[1..])) || Subsequence(s, of[1..])))
  }

  ghost predicate Distinct(s: seq<Address>) {
    forall i, j :: 0 <= i < j < |s| ==> s[i] != s[j]
  }

  lemma {:induction false} SubsequenceRefl(s: seq<Address>)
    ensures Subsequence(s, s)
  {
    if s != [] {
      SubsequenceRefl(s[1..]);
    }
  }

  lemma NothingFromNothing(s: seq<Address>, of: seq<Address>)
    requires Subsequence(s, of)
    ensures of == [] ==> s == []
  {
  }

  lemma {:induction false} SubsequenceTail(s: seq<Address>, of: seq<Address>)
    requires Subsequence(s, of) && s != []
    ensures Subsequence(s[1..], of)
  {
    if s[0] == of[0] && Subsequence(s[1..], of[1..]) {
      assert s[1..] == [] || of != [];
    } else {
      SubsequenceTail(s, of[1..]);
    }
  }

  lemma {:induction false} ErasedIsSubsequence(s: seq<Address>, of: seq<Address>, a: Address)
    requires Subsequence(s, of)
    ensures Subsequence(Erased(s, a), of)
    decreases |of|
  {
    if s != [] {
      if s[0] == a {
        SubsequenceTail(s, of);
      } else if s[0] == of[0] && Subsequence(s[1..], of[1..]) {
        ErasedIsSubsequence(s[1..], of[1..], a);
        assert Erased(s, a)[1..] == Erased(s[1..], a);
      } else {
        ErasedIsSubsequence(s, of[1..], a);
      }
    }
  }

  lemma {:induction false} ErasedGone(s: seq<Address>, a: Address)
    requires Distinct(s)
    ensures Distinct(Erased(s, a)) && a !in Erased(s, a)
  {
    if s != [] {
      assert s[0] !in s[1..];
      if s[0] != a {
        ErasedGone(s[1..], a);
        assert s[0] !in Erased(s[1..], a);
        DistinctCons(s[0], Erased(s[1..], a));
      }
    }
  }

  lemma DistinctCons(x: Address, s: seq<Address>)
    requires Distinct(s) && x !in s
    ensures Distinct([x] + s)
  {
  }

  // ---- traces ---------------------------------------------------------------------------------------

  /** One turn of the loop: the list it selected from, whether that was just refilled, whom it tried, what happened. */
  datatype Attempt = Attempt(from: seq<Address>, refilled: bool, addr: Address, outcome: Outcome)

  /** The list left behind by an attempt: a failed address is erased. */
  function Left(t: Attempt): seq<Address> {
    if t.outcome.Failed? then Erased(t.from, t.addr) else t.from
  }

  /** A run of attempts from `addrs`: each selects from what the one before left, refilled when that is empty. */
  ghost predicate Chained(trace: seq<Attempt>, addrs: seq<Address>, origin: seq<Address>, end: seq<Address>)
    decreases |trace|
  {
    if trace == [] then end == addrs
    else
      var t := trace[0];
      && t.refilled == (addrs == [])
      && t.from == (if addrs == [] then origin else addrs)
      && t.addr in t.from
      && Chained(trace[1..], Left(t), origin, end)
  }

  lemma {:induction false} ChainedSnoc(trace: seq<Attempt>, addrs: seq<Address>, origin: seq<Address>,
                                       end: seq<Address>, t: Attempt)
    requires Chained(trace, addrs, origin, end)
    requires t.refilled == (end == []) && t.from == (if end == [] then origin else end) && t.addr in t.from
    ensures Chained(trace + [t], addrs, origin, Left(t))
    decreases |trace|
  {
    if trace == [] {
      assert (trace + [t])[1..] == [];
    } else {
      assert (trace + [t])[1..] == trace[1..] + [t];
      ChainedSnoc(trace[1..], Left(trace[0]), origin, end, t);
    }
  }

  /** No refill at positions `i < k <= j`. */
  ghost predicate SameRound(trace: seq<Attempt>, i: nat, j: nat)
    requires i <= j < |trace|
  {
    forall k :: i < k <= j ==> !trace[k].refilled
  }

  /** Within a round the lists shrink and stay free of the addresses that failed. */
  lemma {:induction false} RoundForgets(trace: seq<Attempt>, addrs: seq<Address>, origin: seq<Address>,
                                        end: seq<Address>, a: Address, j: nat)
    requires Chained(trace, addrs, origin, end) && j < |trace|
    requires forall k :: 0 <= k <= j ==> !trace[k].refilled
    requires a !in addrs
    ensures a !in trace[j].from
    decreases |trace|
  {
    if j > 0 {
      RoundForgets(trace[1..], Left(trace[0]), origin, end, a, j - 1);
    }
  }

  lemma {:induction false} ChainedFrom(trace: seq<Attempt>, addrs: seq<Address>, origin: seq<Address>,
                                       end: seq<Address>, i: nat)
    requires Chained(trace, addrs, origin, end) && i < |trace|
    ensures Chained(trace[i + 1..], Left(trace[i]), origin, end)
    ensures Distinct(origin) && Distinct(addrs) ==> Distinct(trace[i].from)
    decreases |trace|
  {
    hide Distinct, Erased;
    if i > 0 {
      if Distinct(addrs) && Distinct(origin) {
        ErasedGone(trace[0].from, trace[0].addr);
      }
      ChainedFrom(trace[1..], Left(trace[0]), origin, end, i - 1);
      assert trace[1..][i..] == trace[i + 1..];
    }
  }

  /** With distinct addresses, one that failed is not tried again in the same round. */
  lemma NoRepeatInARound(trace: seq<Attempt>, addrs: seq<Address>, origin: seq<Address>, end: seq<Address>,
                         i: nat, j: nat)
    requires Chained(trace, addrs, origin, end) && Distinct(origin) && Distinct(addrs)
    requires i < j < |trace| && trace[i].outcome.Failed? && SameRound(trace, i, j)
    ensures trace[j].addr != trace[i].addr
  {
    hide Chained, Distinct, Erased;
    ChainedFrom(trace, addrs, origin, end, i);
    ErasedGone(trace[i].from, trace[i].addr);
    RoundForgets(trace[i + 1..], Left(trace[i]), origin, end, trace[i].addr, j - i - 1);
    AddrIsFromList(trace, addrs, origin, end, j);
  }

  lemma {:induction false} AddrIsFromList(trace: seq<Attempt>, addrs: seq<Address>, origin: seq<Address>,
                                          end: seq<Address>, j: nat)
    requires Chained(trace, addrs, origin, end) && j < |trace|
    ensures trace[j].addr in trace[j].from
    decreases |trace|
  {
    if j > 0 {
      AddrIsFromList(trace[1..], Left(trace[0]), origin, end, j - 1);
    }
  }

  /** An address at hand is still at hand, or has been tried and failed since. */
  lemma {:induction false} TriedOrLeft(trace: seq<Attempt>, addrs: seq<Address>, origin: seq<Address>,
                                       end: seq<Address>, a: Address, n: nat)
    requires Chained(trace, addrs, origin, end) && n < |trace|
    requires a in addrs && forall k :: 0 <= k < n ==> !trace[k].refilled
    requires trace[n].refilled
    ensures exists k :: 0 <= k < n && trace[k].addr == a && trace[k].outcome.Failed?
    decreases |trace|
  {
    if n > 0 {
      if trace[0].addr == a && trace[0].outcome.Failed? {
      } else {
        TriedOrLeft(trace[1..], Left(trace[0]), origin, end, a, n - 1);
        var k :| 0 <= k < n - 1 && trace[1..][k].addr == a && trace[1..][k].outcome.Failed?;
        assert trace[k + 1].addr == a;
      }
    }
  }

  /** A refill comes only after every address of the round has been tried and has failed. */
  lemma RoundCoversAll(trace: seq<Attempt>, addrs: seq<Address>, origin: seq<Address>, end: seq<Address>,
                       i: nat, j: nat, a: Address)
    requires Chained(trace, addrs, origin, end)
    requires i < j < |trace| && trace[j].refilled && forall k :: i < k < j ==> !trace[k].refilled
    requires a in trace[i].from
    ensures exists k :: i <= k < j && trace[k].addr == a && trace[k].outcome.Failed?
  {
    hide Chained;
    ChainedFrom(trace, addrs, origin, end, i);
    if trace[i].addr == a && trace[i].outcome.Failed? {
    } else {
      var rest := trace[i + 1..];
      TriedOrLeft(rest, Left(trace[i]), origin, end, a, j - i - 1);
      var k :| 0 <= k < j - i - 1 && rest[k].addr == a && rest[k].outcome.Failed?;
      assert trace[i + 1 + k].addr == a;
    }
  }

  /** The trace follows the balancer's choices and the exchanges' outcomes, and every attempt but the last failed. */
  ghost predicate Faithful(trace: seq<Attempt>, select: (nat, seq<Address>) -> Address, send: nat -> Outcome) {
    && (forall k :: 0 <= k < |trace| ==>
          trace[k].outcome == send(k) && trace[k].addr == select(k, trace[k].from))
    && (forall k :: 0 <= k < |trace| - 1 ==> trace[k].outcome.Failed?)
  }

  ghost predicate AllFailed(trace: seq<Attempt>) {
    forall k :: 0 <= k < |trace| ==> trace[k].outcome.Failed?
  }

  lemma StartOfTrace(addrs: seq<Address>, origin: seq<Address>, select: (nat, seq<Address>) -> Address, send: nat -> Outcome)
    ensures Chained([], addrs, origin, addrs) && Faithful([], select, send) && AllFailed([])
  {
  }

  lemma FaithfulSnoc(trace: seq<Attempt>, t: Attempt, select: (nat, seq<Address>) -> Address, send: nat -> Outcome)
    requires Faithful(trace, select, send) && AllFailed(trace)
    requires t.outcome == send(|trace|) && t.addr == select(|trace|, t.from)
    ensures Faithful(trace + [t], select, send)
    ensures t.outcome.Failed? ==> AllFailed(trace + [t])
  {
  }

  // ---- the channel ------------------------------------------------------------------------------------

  class RpcChannel {
    var addrs: seq<Address>
    const originAddrs: seq<Address>

    ghost predicate Valid()
      reads this
    {
      Subsequence(addrs, originAddrs)
    }

    constructor (addrs: seq<Address>)
      ensures Valid() && this.addrs == addrs && originAddrs == addrs
    {
      this.addrs, originAddrs := addrs, addrs;
      new;
      SubsequenceRefl(addrs);
    }

    /**
     The loop of `CallMethod`. `select(k, list)` is the balancer's k-th choice, `send(k)` what the k-th
     exchange comes to, `encodes` whether the request can be framed.
     */
    method CallLoop(maxRetry: int, select: (nat, seq<Address>) -> Address, send: nat -> Outcome, encodes: bool)
      returns (result: Result, ghost trace: seq<Attempt>)
      requires Valid()
      requires forall k, list :: list != [] ==> select(k, list) in list
      modifies this
      ensures Valid()
      ensures |trace| <= (if maxRetry >= 0 then maxRetry + 1 else 0)
      ensures Chained(trace, old(addrs), originAddrs, addrs)
              || (result == EncodeFailed && trace == [] && addrs == originAddrs && old(addrs) == [])
      ensures Faithful(trace, select, send)
      ensures result.Reply? <==> trace != [] && trace[|trace| - 1].outcome.Succeeded?
      ensures result.Timeout? <==> trace != [] && trace[|trace| - 1].outcome.TimedOut?
      ensures result.Exhausted? ==> |trace| == if maxRetry >= 0 then maxRetry + 1 else 0
      ensures result.NotFound? <==> maxRetry >= 0 && originAddrs == []
      ensures result.EncodeFailed? <==> maxRetry >= 0 && originAddrs != [] && !encodes
      ensures result.EncodeFailed? ==> trace == []
    {
      trace := [];
      hide Subsequence, Faithful, AllFailed;
      StartOfTrace(addrs, originAddrs, select, send);
      NothingFromNothing(addrs, originAddrs);
      var retryTimes := 0;
      while retryTimes <= maxRetry
        invariant 0 <= retryTimes && retryTimes == |trace|
        invariant retryTimes <= (if maxRetry >= 0 then maxRetry + 1 else 0)
        invariant Valid() && Chained(trace, old(addrs), originAddrs, addrs)
        invariant Faithful(trace, select, send) && AllFailed(trace)
        invariant trace != [] ==> encodes && originAddrs != [] && trace[|trace| - 1].outcome.Failed?
        decreases maxRetry - retryTimes
      {
        ghost var left := addrs;
        if addrs == [] {
          addrs := originAddrs;
          SubsequenceRefl(originAddrs);
          if addrs == [] {
            return NotFound, trace;
          }
        }
        var addr := select(retryTimes, addrs);
        if !encodes {
          return EncodeFailed, trace;
        }
        var ret := send(retryTimes);
        ghost var t := Attempt(addrs, left == [], addr, ret);
        ChainedSnoc(trace, old(addrs), originAddrs, left, t);
        FaithfulSnoc(trace, t, select, send);
        trace := trace + [t];
        if ret.Succeeded? {
          return Reply, trace;
        } else if !ret.TimedOut? {
          ErasedIsSubsequence(addrs, originAddrs, addr);
          addrs := Erased(addrs, addr);
        } else {
          return Timeout, trace;
        }
        retryTimes := retryTimes + 1;
      }
      return Exhausted, trace;
    }
  }
}
