/**
 `CoroutineTaskQueue`: one queue per sub-reactor, each behind its own lock. `Steal` takes one lock
 after another, so other threads' locked sections may come between; the model runs an arbitrary list
 of them before each lock is taken.
 */
module TaskQueues {
  import opened Common

  /** A locked section of another thread: a push, or the removal of up to `n` tasks from the front. */
  datatype Section<T> = PushAt(q: nat, task: T) | TakeAt(q: nat, n: nat)

  /** The queues, with the history of each: every task pushed and every task taken, in order. */
  datatype Queues<T> = Queues(tasks: seq<seq<T>>, pushed: seq<seq<T>>, taken: seq<seq<T>>) {
    predicate Shaped(n: nat) {
      |tasks| == |pushed| == |taken| == n
    }

    ghost predicate Conserved() {
      && Shaped(|tasks|)
      && forall q :: 0 <= q < |tasks| ==> taken[q] + tasks[q] == pushed[q]
    }

    function Push(q: nat, task: T): (r: Queues<T>)
      requires Shaped(|tasks|) && q < |tasks|
      ensures r.Shaped(|tasks|)
    {
      this.(tasks := tasks[q := tasks[q] + [task]], pushed := pushed[q := pushed[q] + [task]])
    }

    function Take(q: nat, n: nat): (r: Queues<T>)
      requires Shaped(|tasks|) && q < |tasks| && n <= |tasks[q]|
      ensures r.Shaped(|tasks|)
    {
      this.(tasks := tasks[q := tasks[q][n..]], taken := taken[q := taken[q] + tasks[q][..n]])
    }

    function Run(s: Section<T>): (r: Queues<T>)
      requires Shaped(|tasks|)
      ensures r.Shaped(|tasks|)
    {
      match s
      case PushAt(q, task) => if q < |tasks| then Push(q, task) else this
      case TakeAt(q, n) => if q < |tasks| then Take(q, Min(n, |tasks[q]|)) else this
    }

    function RunAll(ss: seq<Section<T>>): (r: Queues<T>)
      requires Shaped(|tasks|)
      ensures r.Shaped(|tasks|)
      decreases |ss|
    {
      if ss == [] then this else Run(ss[0]).RunAll(ss[1..])
    }
  }

  lemma RunConserves<T>(qs: Queues<T>, s: Section<T>)
    requires qs.Conserved()
    ensures qs.Run(s).Conserved()
  {
    match s
    case PushAt(q, task) =>
      if q < |qs.tasks| {
        assert qs.taken[q] + (qs.tasks[q] + [task]) == qs.pushed[q] + [task];
      }
    case TakeAt(q, n) =>
      if q < |qs.tasks| {
        TakeConserves(qs, q, Min(n, |qs.tasks[q]|));
      }
  }

  lemma TakeConserves<T>(qs: Queues<T>, q: nat, n: nat)
    requires qs.Conserved() && q < |qs.tasks| && n <= |qs.tasks[q]|
    ensures qs.Take(q, n).Conserved()
  {
    assert qs.tasks[q] == qs.tasks[q][..n] + qs.tasks[q][n..];
  }

  /** Conservation: in every interleaving of locked sections, tasks taken ++ tasks queued == tasks pushed. */
  lemma {:induction false} RunAllConserves<T>(qs: Queues<T>, ss: seq<Section<T>>)
    requires qs.Conserved()
    ensures qs.RunAll(ss).Conserved()
    decreases |ss|
  {
    if ss != [] {
      RunConserves(qs, ss[0]);
      RunAllConserves(qs.Run(ss[0]), ss[1..]);
    }
  }

  /** The tasks that a list of sections pushes on a queue, in order. */
  function PushesOn<T>(ss: seq<Section<T>>, q: nat): seq<T> {
    if ss == [] then []
    else (if ss[0].PushAt? && ss[0].q == q then [ss[0].task] else []) + PushesOn(ss[1..], q)
  }

  /** Nothing pushed is lost or made up: each queue's history grows by exactly the pushes on it, in order. */
  lemma {:induction false} PushedExactly<T>(qs: Queues<T>, ss: seq<Section<T>>, q: nat)
    requires qs.Shaped(|qs.tasks|) && q < |qs.tasks|
    ensures qs.RunAll(ss).Shaped(|qs.tasks|) && qs.RunAll(ss).pushed[q] == qs.pushed[q] + PushesOn(ss, q)
    decreases |ss|
  {
    if ss != [] {
      PushedExactly(qs.Run(ss[0]), ss[1..], q);
    }
  }

  lemma TakeNothing<T>(qs: Queues<T>, q: nat)
    requires qs.Shaped(|qs.tasks|) && q < |qs.tasks|
    ensures qs.Take(q, 0) == qs
  {
    assert qs.tasks[q][0..] == qs.tasks[q];
    assert qs.taken[q] + qs.tasks[q][..0] == qs.taken[q];
  }

  lemma TakeTwice<T>(qs: Queues<T>, q: nat, n: nat)
    requires qs.Shaped(|qs.tasks|) && q < |qs.tasks| && n < |qs.tasks[q]|
    ensures qs.Take(q, n).Take(q, 1) == qs.Take(q, n + 1)
    ensures qs.tasks[q][..n] + [qs.Take(q, n).tasks[q][0]] == qs.tasks[q][..n + 1]
  {
    var queue := qs.tasks[q];
    assert queue[n..][1..] == queue[n + 1..];
    assert queue[..n] + queue[n..][..1] == queue[..n + 1];
    assert qs.taken[q] + queue[..n] + queue[n..][..1] == qs.taken[q] + queue[..n + 1];
  }

  /** A thief: which queue is its own, and which sections of others run before each lock is taken. */
  datatype Thief<!T> = Thief(self: nat, others: nat -> seq<Section<T>>)

  /** What the thief finds when it has the lock of queue `|gots|`, having taken `gots` before. */
  function Found<T>(qs: Queues<T>, thief: Thief<T>, gots: seq<nat>): (r: Queues<T>)
    requires qs.Shaped(|qs.tasks|)
    ensures r.Shaped(|qs.tasks|)
    decreases |gots|, 1
  {
    var left := Left(qs, thief, gots);
    if |gots| == thief.self then left else left.RunAll(thief.others(|gots|))
  }

  /** The queues as the thief leaves them after taking `gots[i]` from the front of each queue `i`. */
  function Left<T>(qs: Queues<T>, thief: Thief<T>, gots: seq<nat>): (r: Queues<T>)
    requires qs.Shaped(|qs.tasks|)
    ensures r.Shaped(|qs.tasks|)
    decreases |gots|, 0
  {
    if gots == [] then qs
    else
      var i := |gots| - 1;
      var found := Found(qs, thief, gots[..i]);
      if i >= |qs.tasks| then found else found.Take(i, Min(gots[i], |found.tasks[i]|))
  }

  /** What it has taken, in order. */
  function Loot<T>(qs: Queues<T>, thief: Thief<T>, gots: seq<nat>): seq<T>
    requires qs.Shaped(|qs.tasks|)
    decreases |gots|
  {
    if gots == [] then []
    else
      var i := |gots| - 1;
      var found := Found(qs, thief, gots[..i]);
      Loot(qs, thief, gots[..i])
      + if i >= |qs.tasks| then [] else found.tasks[i][..Min(gots[i], |found.tasks[i]|)]
  }

  /** The i-th visit emptied the queue it was at. */
  predicate Emptied<T>(qs: Queues<T>, thief: Thief<T>, gots: seq<nat>, i: nat)
    requires qs.Shaped(|qs.tasks|) && i < |gots| <= |qs.tasks|
  {
    gots[i] == |Found(qs, thief, gots[..i]).tasks[i]|
  }

  lemma OneMoreVisit<T>(qs: Queues<T>, thief: Thief<T>, gots: seq<nat>, got: nat)
    requires qs.Shaped(|qs.tasks|) && |gots| < |qs.tasks|
    requires got <= |Found(qs, thief, gots).tasks[|gots|]|
    ensures var found := Found(qs, thief, gots);
            && Left(qs, thief, gots + [got]) == found.Take(|gots|, got)
            && Loot(qs, thief, gots + [got]) == Loot(qs, thief, gots) + found.tasks[|gots|][..got]
    ensures forall i :: 0 <= i < |gots| && Emptied(qs, thief, gots, i) ==> Emptied(qs, thief, gots + [got], i)
    ensures Emptied(qs, thief, gots + [got], |gots|) <==> got == |Found(qs, thief, gots).tasks[|gots|]|
  {
    assert (gots + [got])[..|gots|] == gots;
    forall i | 0 <= i < |gots| && Emptied(qs, thief, gots, i)
      ensures Emptied(qs, thief, gots + [got], i)
    {
      assert (gots + [got])[..i] == gots[..i];
    }
  }

  class CoroutineTaskQueue<T> {
    var state: Queues<T>

    ghost predicate Valid()
      reads this
    {
      state.Conserved()
    }

    constructor (n: nat)
      ensures Valid() && state == Queues(seq(n, _ => []), seq(n, _ => []), seq(n, _ => []))
    {
      state := Queues(seq(n, _ => []), seq(n, _ => []), seq(n, _ => []));
    }

    method Push(threadIdx: nat, task: T)
      requires Valid() && threadIdx < |state.tasks|
      modifies this
      ensures Valid()
      ensures state.tasks == old(state).tasks[threadIdx := old(state).tasks[threadIdx] + [task]]
      ensures state.pushed == old(state).pushed[threadIdx := old(state).pushed[threadIdx] + [task]]
      ensures state.taken == old(state).taken
    {
      state := state.Push(threadIdx, task);
    }

    /** One task from the front of a queue. */
    method PopFront(q: nat) returns (task: T)
      requires Valid() && q < |state.tasks| && state.tasks[q] != []
      modifies this
      ensures Valid() && task == old(state).tasks[q][0] && state == old(state).Take(q, 1)
    {
      TakeConserves(state, q, 1);
      task := state.tasks[q][0];
      state := state.Take(q, 1);
    }

    /** The first `popCnt` tasks of a queue, or all of them. */
    method PopSome(threadIdx: nat, popCnt: nat) returns (vec: seq<T>)
      requires Valid() && threadIdx < |state.tasks|
      modifies this
      ensures Valid()
      ensures var n := Min(popCnt, |old(state).tasks[threadIdx]|);
              && vec == old(state).tasks[threadIdx][..n]
              && state.tasks == old(state).tasks[threadIdx := old(state).tasks[threadIdx][n..]]
              && state.taken == old(state).taken[threadIdx := old(state).taken[threadIdx] + vec]
              && state.pushed == old(state).pushed
    {
      ghost var queue := state.tasks[threadIdx];
      vec := [];
      var cnt := 0;
      TakeNothing(state, threadIdx);
      while state.tasks[threadIdx] != [] && cnt != popCnt
        invariant Valid() && cnt <= popCnt && cnt <= |queue| && |state.tasks| == |old(state).tasks|
        invariant vec == queue[..cnt] && state == old(state).Take(threadIdx, cnt)
        decreases |state.tasks[threadIdx]|
      {
        var task := PopFront(threadIdx);
        TakeTwice(old(state), threadIdx, cnt);
        vec := vec + [task];
        cnt := cnt + 1;
      }
    }

    /** Whether everything ever pushed on a queue has been taken. */
    method Empty(threadIdx: nat) returns (empty: bool)
      requires Valid() && threadIdx < |state.tasks|
      ensures empty <==> state.taken[threadIdx] == state.pushed[threadIdx]
    {
      empty := state.tasks[threadIdx] == [];
      assert state.taken[threadIdx] + state.tasks[threadIdx] == state.pushed[threadIdx];
    }

    /** The locked sections of other threads that happen to run now. */
    method Interfere(ss: seq<Section<T>>)
      requires Valid()
      modifies this
      ensures Valid() && state == old(state).RunAll(ss)
      ensures |state.tasks| == |old(state).tasks|
    {
      RunAllConserves(state, ss);
      state := state.RunAll(ss);
    }

    /**
     Take up to `stealCnt` tasks from the fronts of the other queues, queue by queue. `gots` says how
     many came from each; a short haul means that every other queue was empty when it was left.
     */
    method Steal(thief: Thief<T>, stealCnt: nat) returns (stealTasks: seq<T>, ghost gots: seq<nat>)
      requires Valid()
      modifies this
      ensures Valid() && |gots| <= |old(state).tasks|
      ensures state == Left(old(state), thief, gots) && stealTasks == Loot(old(state), thief, gots)
      ensures |stealTasks| <= stealCnt
      ensures thief.self < |gots| ==> gots[thief.self] == 0
      ensures |stealTasks| < stealCnt ==>
                && |gots| == |old(state).tasks|
                && forall i :: 0 <= i < |gots| && i != thief.self ==> Emptied(old(state), thief, gots, i)
    {
      hide Left, Found, Loot, Emptied;
      stealTasks := [];
      gots := [];
      StealStart(state, thief);
      var cnt := 0;
      var i := 0;
      while i < |state.tasks|
        invariant Valid() && |state.tasks| == |old(state).tasks| && i == |gots| <= |state.tasks|
        invariant state == Left(old(state), thief, gots) && stealTasks == Loot(old(state), thief, gots)
        invariant |stealTasks| == cnt <= stealCnt
        invariant thief.self < |gots| ==> gots[thief.self] == 0
        invariant cnt < stealCnt ==>
                    forall k :: 0 <= k < |gots| && k != thief.self ==> Emptied(old(state), thief, gots, k)
      {
        if cnt == stealCnt {
          break;
        }
        ghost var haul, got := stealTasks, 0;
        AtQueue(old(state), thief, gots);
        if i == thief.self {
          TakeNothing(state, i);
        } else {
          Interfere(thief.others(i));
          ghost var found := state;
          TakeNothing(found, i);
          while state.tasks[i] != [] && cnt < stealCnt
            invariant Valid() && |state.tasks| == |old(state).tasks|
            invariant got <= |found.tasks[i]| && cnt == |haul| + got <= stealCnt
            invariant state == found.Take(i, got)
            invariant stealTasks == haul + found.tasks[i][..got]
            decreases |state.tasks[i]|
          {
            var task := PopFront(i);
            TakeTwice(found, i, got);
            stealTasks := stealTasks + [task];
            cnt := cnt + 1;
            got := got + 1;
          }
        }
        OneMoreVisit(old(state), thief, gots, got);
        gots := gots + [got];
        i := i + 1;
      }
    }
  }

  lemma StealStart<T>(qs: Queues<T>, thief: Thief<T>)
    requires qs.Shaped(|qs.tasks|)
    ensures Left(qs, thief, []) == qs && Loot(qs, thief, []) == []
  {
  }

  lemma AtQueue<T>(qs: Queues<T>, thief: Thief<T>, gots: seq<nat>)
    requires qs.Shaped(|qs.tasks|)
    ensures Found(qs, thief, gots)
         == var left := Left(qs, thief, gots);
            if |gots| == thief.self then left else left.RunAll(thief.others(|gots|))
  {
  }
}
