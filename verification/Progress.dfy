/**
 What the loop of a sub-reactor gets done. `ReactorProtocol` says that no connection is in two hands or
 lost from all; here it is shown that what is queued, posted or reported is taken up: in order, each
 event and task once, and a turn of the loop comes round.
 */
module Progress {
  import opened Common
  import opened ReactorProtocol

  // ---- what a run resumes, starts and handles on a thread -----------------------------------------

  /** The connections that thread `t` resumes from its hand in a run, in order. */
  function Resumed(s: State, run: Run, t: Tid): seq<Fd>
    requires InRange(s) && Legal(s, run)
    decreases |run|
  {
    if run == [] then []
    else
      var (u, a) := run[0];
      var th := s.threads[u];
      (if u == t && a.Loop? && th.mode.Batch? && th.hand != [] then [th.hand[0]] else [])
      + Resumed(Step(s, u, a), run[1..], t)
  }

  /** The new connections whose coroutines it starts. */
  function Started(s: State, run: Run, t: Tid): seq<Fd>
    requires InRange(s) && Legal(s, run)
    decreases |run|
  {
    if run == [] then []
    else
      var (u, a) := run[0];
      var th := s.threads[u];
      (if u == t && a.Loop? && th.mode.RunTasks? && th.tasks != [] then [th.tasks[0]] else [])
      + Started(Step(s, u, a), run[1..], t)
  }

  /** The connections whose events it handles. */
  function Handled(s: State, run: Run, t: Tid): seq<Fd>
    requires InRange(s) && Legal(s, run)
    decreases |run|
  {
    if run == [] then []
    else
      var (u, a) := run[0];
      (if u == t && a.Handle? then [s.threads[u].events[0]] else []) + Handled(Step(s, u, a), run[1..], t)
  }

  /** A step of another thread leaves this thread's place in its loop, and all it holds, alone. */
  lemma OthersLeaveIt(s: State, u: Tid, a: Action, t: Tid)
    requires Inv(s) && u < |s.threads| && Enabled(s, u, a) && t < |s.threads| && t != u
    ensures var s' := Step(s, u, a);
            |s'.threads| == |s.threads| && s'.threads[t] == s.threads[t]
  {
    ThreadIsOk(s, u);
    if s.threads[u].cur.Some? {
      CurrentRunsHere(s, u);
      if a.Arm? { ArmInLoopThread(s, u, a.dir, a.ok); }
      if a.Disarm? { DisarmInLoopThread(s, u, a.ok); }
    }
  }

  /** What a coroutine does leaves its thread's place in the loop alone. */
  lemma CoroutineLeavesIt(s: State, t: Tid, a: Action)
    requires Inv(s) && t < |s.threads| && Enabled(s, t, a) && s.threads[t].cur.Some? && !a.Accept?
    ensures var s' := Step(s, t, a);
            && |s'.threads| == |s.threads| && s'.queues == s.queues
            && s'.threads[t] == s.threads[t].(fds := s'.threads[t].fds, cur := s'.threads[t].cur)
  {
    CurrentRunsHere(s, t);
    if a.Arm? { ArmInLoopThread(s, t, a.dir, a.ok); }
    if a.Disarm? { DisarmInLoopThread(s, t, a.ok); }
  }

  // ---- in order, whatever the other threads do -----------------------------------------------------

  /** A resumed coroutine runs on the thread that took it, woken from the wait it was in. */
  lemma ResumeWakes(s: State, t: Tid)
    requires Inv(s) && t < |s.threads| && s.threads[t].mode.Batch? && s.threads[t].cur.None? && s.threads[t].hand != []
    ensures LoopEnabled(s, t)
    ensures var f, s' := s.threads[t].hand[0], Step(s, t, Loop);
            && s'.threads[t] == s.threads[t].(cur := Some(f), hand := s.threads[t].hand[1..])
            && f < |s.ev| == |s'.ev| && s.at[f].Armed? && s'.at[f] == Woken(s.at[f].dir)
            && s'.ev[f] == s.ev[f].(reactor := Some(t))
            && s'.queues == s.queues
  {
    ThreadIsOk(s, t);
    assert FdOk(s, s.threads[t].hand[0]);
  }

  /** A started coroutine runs on its thread, at the beginning of its code. */
  lemma StartStarts(s: State, t: Tid)
    requires Inv(s) && t < |s.threads| && s.threads[t].mode.RunTasks? && s.threads[t].cur.None? && s.threads[t].tasks != []
    ensures LoopEnabled(s, t)
    ensures var f, s' := s.threads[t].tasks[0], Step(s, t, Loop);
            && s'.threads[t] == s.threads[t].(cur := Some(f), tasks := s.threads[t].tasks[1..])
            && f < |s.ev| == |s'.ev| && s'.at[f] == Body && s'.ev[f].reactor == Some(t)
            && s'.queues == s.queues
  {
    ThreadIsOk(s, t);
    var f := s.threads[t].tasks[0];
    assert (s.threads[t].tasks + s.threads[t].pending)[0] == f;
    assert FdOk(s, f);
  }

  /**
   A thread resumes what it has in hand in order, and leaves the batch only after the last: in every run,
   of any threads, what it has resumed is a beginning of the hand, and the rest is still there, or all of
   it has been resumed.
   */
  lemma {:induction false} BatchInOrder(s: State, run: Run, t: Tid)
    requires Inv(s) && Legal(s, run) && t < |s.threads| && s.threads[t].mode.Batch?
    ensures var r, hand, s' := Resumed(s, run, t), s.threads[t].hand, After(s, run);
            if |r| < |hand| then
              && r <= hand && t < |s'.threads|
              && s'.threads[t].mode == s.threads[t].mode && s'.threads[t].hand == hand[|r|..]
            else hand <= r
    decreases |run|
  {
    hide Step, Enabled;
    var hand := s.threads[t].hand;
    if run == [] {
      assert hand[0..] == hand;
    } else if hand != [] {
      var (u, a) := run[0];
      NextStepKeeps(s, u, a);
      var next := Step(s, u, a);
      BatchStep(s, u, a, t);
      BatchInOrder(next, run[1..], t);
      var r := Resumed(next, run[1..], t);
      if u == t && a.Loop? {
        assert hand == [hand[0]] + hand[1..];
        assert Resumed(s, run, t) == [hand[0]] + r;
      } else {
        assert Resumed(s, run, t) == [] + r == r;
      }
    }
  }

  lemma BatchStep(s: State, u: Tid, a: Action, t: Tid)
    requires Inv(s) && u < |s.threads| && Enabled(s, u, a) && t < |s.threads|
    requires s.threads[t].mode.Batch? && s.threads[t].hand != []
    ensures var s', th := Step(s, u, a), s.threads[t];
            && |s'.threads| == |s.threads| && s'.threads[t].mode == th.mode
            && s'.threads[t].hand == if u == t && a.Loop? then th.hand[1..] else th.hand
  {
    if u != t {
      OthersLeaveIt(s, u, a, t);
    } else if s.threads[t].cur.Some? && !a.Accept? {
      CoroutineLeavesIt(s, t, a);
    } else if a.Loop? {
      ResumeWakes(s, t);
    }
  }

  /** The same of the posted tasks it runs. */
  lemma {:induction false} TasksInOrder(s: State, run: Run, t: Tid)
    requires Inv(s) && Legal(s, run) && t < |s.threads| && s.threads[t].mode.RunTasks?
    ensures var r, tasks, s' := Started(s, run, t), s.threads[t].tasks, After(s, run);
            if |r| < |tasks| then
              && r <= tasks && t < |s'.threads|
              && s'.threads[t].mode.RunTasks? && s'.threads[t].tasks == tasks[|r|..]
            else tasks <= r
    decreases |run|
  {
    hide Step, Enabled;
    var tasks := s.threads[t].tasks;
    if run == [] {
      assert tasks[0..] == tasks;
    } else if tasks != [] {
      var (u, a) := run[0];
      NextStepKeeps(s, u, a);
      var next := Step(s, u, a);
      TasksStep(s, u, a, t);
      TasksInOrder(next, run[1..], t);
      var r := Started(next, run[1..], t);
      if u == t && a.Loop? {
        assert tasks == [tasks[0]] + tasks[1..];
        assert Started(s, run, t) == [tasks[0]] + r;
      } else {
        assert Started(s, run, t) == [] + r == r;
      }
    }
  }

  lemma TasksStep(s: State, u: Tid, a: Action, t: Tid)
    requires Inv(s) && u < |s.threads| && Enabled(s, u, a) && t < |s.threads|
    requires s.threads[t].mode.RunTasks? && s.threads[t].tasks != []
    ensures var s', th := Step(s, u, a), s.threads[t];
            && |s'.threads| == |s.threads| && s'.threads[t].mode.RunTasks?
            && s'.threads[t].tasks == if u == t && a.Loop? then th.tasks[1..] else th.tasks
  {
    if u != t {
      OthersLeaveIt(s, u, a, t);
    } else if s.threads[t].cur.Some? && !a.Accept? {
      CoroutineLeavesIt(s, t, a);
    } else if a.Loop? {
      StartStarts(s, t);
    }
  }

  /** And of the events of one `epoll_wait`. */
  lemma {:induction false} EventsInOrder(s: State, run: Run, t: Tid)
    requires Inv(s) && Legal(s, run) && t < |s.threads| && (s.threads[t].mode.Events? || s.threads[t].mode.Pushing?)
    ensures var r, events, s' := Handled(s, run, t), s.threads[t].events, After(s, run);
            if |r| < |events| then
              && r <= events && t < |s'.threads|
              && (s'.threads[t].mode.Events? || s'.threads[t].mode.Pushing?) && s'.threads[t].events == events[|r|..]
            else events <= r
    decreases |run|
  {
    hide Step, Enabled;
    var events := s.threads[t].events;
    if run == [] {
      assert events[0..] == events;
    } else if events != [] {
      var (u, a) := run[0];
      NextStepKeeps(s, u, a);
      var next := Step(s, u, a);
      EventsStep(s, u, a, t);
      EventsInOrder(next, run[1..], t);
      var r := Handled(next, run[1..], t);
      if u == t && a.Handle? {
        assert events == [events[0]] + events[1..];
        assert Handled(s, run, t) == [events[0]] + r;
      } else {
        assert Handled(s, run, t) == [] + r == r;
      }
    }
  }

  lemma EventsStep(s: State, u: Tid, a: Action, t: Tid)
    requires Inv(s) && u < |s.threads| && Enabled(s, u, a) && t < |s.threads|
    requires (s.threads[t].mode.Events? || s.threads[t].mode.Pushing?) && s.threads[t].events != []
    ensures var s', th := Step(s, u, a), s.threads[t];
            && |s'.threads| == |s.threads| && (s'.threads[t].mode.Events? || s'.threads[t].mode.Pushing?)
            && s'.threads[t].events == if u == t && a.Handle? then th.events[1..] else th.events
  {
    ThreadIsOk(s, t);
    if u != t {
      OthersLeaveIt(s, u, a, t);
    }
  }

  /** No thread is ever stuck: its coroutine or its loop has a move. */
  lemma NeverStuck(n: nat, m: nat, run: Run, t: Tid)
    requires InRange(Initial(n, m)) && Legal(Initial(n, m), run)
    ensures var s := After(Initial(n, m), run);
            && InRange(s)
            && (t < |s.threads| ==>
                  || Enabled(s, t, Loop) || Enabled(s, t, Poll([])) || Enabled(s, t, Handle(true))
                  || Enabled(s, t, Apply(_ => true))
                  || Enabled(s, t, Arm(READ, true)) || Enabled(s, t, Yield) || Enabled(s, t, Disarm(true)))
  {
    hide After, Legal, Inv, FdOk;
    InitialInv(n, m);
    RunKeeps(Initial(n, m), run);
    var s := After(Initial(n, m), run);
    AtAMove(s, t);
  }

  lemma AtAMove(s: State, t: Tid)
    requires Inv(s)
    ensures InRange(s)
    ensures t < |s.threads| ==>
              || Enabled(s, t, Loop) || Enabled(s, t, Poll([])) || Enabled(s, t, Handle(true))
              || Enabled(s, t, Apply(_ => true))
              || Enabled(s, t, Arm(READ, true)) || Enabled(s, t, Yield) || Enabled(s, t, Disarm(true))
  {
    if t < |s.threads| {
      ThreadIsOk(s, t);
      var th := s.threads[t];
      if th.cur.Some? {
        CurrentRunsHere(s, t);
      } else if th.mode.RunTasks? && th.tasks != [] {
        assert (th.tasks + th.pending)[0] == th.tasks[0];
      }
    }
  }

  /** A new connection is posted behind what is posted already, its reactor set; a failed poll starts a turn over. */
  lemma PostedBehind(s: State, t: Tid, f: Fd)
    requires InRange(s) && t < |s.threads|
    ensures Enabled(s, t, Accept(f)) ==>
              var s' := Step(s, t, Accept(f));
              && s'.threads == s.threads[t := s.threads[t].(pending := s.threads[t].pending + [f])]
              && s'.ev[f].reactor == Some(t) && s'.at[f] == Body && s'.open[f] && s'.queues == s.queues
    ensures Enabled(s, t, PollFails) ==>
              Step(s, t, PollFails) == s.(threads := s.threads[t := s.threads[t].(mode := Top)])
  {
  }

  // ---- a turn of the loop by the thread's own moves --------------------------------------------------

  /** A run of thread `t` alone from `s` to `s'`, resuming and starting these connections, in order. */
  ghost predicate Goes(s: State, run: Run, t: Tid, s': State, resumed: seq<Fd>, started: seq<Fd>) {
    && InRange(s) && Legal(s, run) && After(s, run) == s' && Inv(s')
    && (forall move <- run :: move.0 == t)
    && Resumed(s, run, t) == resumed && Started(s, run, t) == started
  }

  lemma {:induction false} OneAfterTheOther(s: State, a: Run, b: Run, t: Tid)
    requires InRange(s) && Legal(s, a) && InRange(After(s, a)) && Legal(After(s, a), b)
    ensures Legal(s, a + b) && After(s, a + b) == After(After(s, a), b)
    ensures Resumed(s, a + b, t) == Resumed(s, a, t) + Resumed(After(s, a), b, t)
    ensures Started(s, a + b, t) == Started(s, a, t) + Started(After(s, a), b, t)
    decreases |a|
  {
    hide Step, Enabled;
    if a == [] {
      assert a + b == b;
    } else {
      var next := Step(s, a[0].0, a[0].1);
      assert (a + b)[1..] == a[1..] + b && (a + b)[0] == a[0];
      OneAfterTheOther(next, a[1..], b, t);
      var r, w := Resumed(After(s, a), b, t), Started(After(s, a), b, t);
      Regroup(if a[0].0 == t && a[0].1.Loop? && s.threads[t].mode.Batch? && s.threads[t].hand != [] then [s.threads[t].hand[0]] else [],
              Resumed(next, a[1..], t), r);
      Regroup(if a[0].0 == t && a[0].1.Loop? && s.threads[t].mode.RunTasks? && s.threads[t].tasks != [] then [s.threads[t].tasks[0]] else [],
              Started(next, a[1..], t), w);
    }
  }

  lemma Regroup(x: seq<Fd>, y: seq<Fd>, z: seq<Fd>)
    ensures x + (y + z) == (x + y) + z
  {
  }

  lemma GoesOn(s: State, a: Run, t: Tid, s1: State, r1: seq<Fd>, w1: seq<Fd>,
               b: Run, s2: State, r2: seq<Fd>, w2: seq<Fd>, r: seq<Fd>, w: seq<Fd>)
    requires Goes(s, a, t, s1, r1, w1) && Goes(s1, b, t, s2, r2, w2)
    requires r == r1 + r2 && w == w1 + w2
    ensures Goes(s, a + b, t, s2, r, w)
  {
    hide Legal, After, Resumed, Started, Inv;
    OneAfterTheOther(s, a, b, t);
    assert forall move <- a + b :: move in a || move in b;
  }

  lemma GoesNowhere(s: State, t: Tid)
    requires Inv(s)
    ensures Goes(s, [], t, s, [], [])
  {
  }

  /** One move. */
  lemma Moves(s: State, t: Tid, a: Action) returns (run: Run, s': State)
    requires Inv(s) && t < |s.threads| && Enabled(s, t, a)
    ensures s' == Step(s, t, a) && run == [(t, a)]
    ensures var th := s.threads[t];
            Goes(s, run, t, s', if a.Loop? && th.mode.Batch? && th.hand != [] then [th.hand[0]] else [],
                 if a.Loop? && th.mode.RunTasks? && th.tasks != [] then [th.tasks[0]] else [])
  {
    NextStepKeeps(s, t, a);
    s' := Step(s, t, a);
    run := [(t, a)];
    hide Step, Enabled, Inv;
    assert run[1..] == [] && run[0] == (t, a) && Legal(s', []) && After(s', []) == s';
    assert Resumed(s', [], t) == [] && Started(s', [], t) == [];
    var th := s.threads[t];
    assert Legal(s, run) && After(s, run) == s';
    var r := if a.Loop? && th.mode.Batch? && th.hand != [] then [th.hand[0]] else [];
    var w := if a.Loop? && th.mode.RunTasks? && th.tasks != [] then [th.tasks[0]] else [];
    assert Resumed(s, run, t) == r + [] == r;
    assert Started(s, run, t) == w + [] == w;
  }

  /** The loop's own data on a thread, but for what is registered. */
  predicate SameLoop(th: Thread, th': Thread) {
    th' == th.(fds := th'.fds)
  }

  /** A coroutine that runs can go straight back to waiting. */
  lemma BackToWait(s: State, t: Tid) returns (run: Run, s': State)
    requires Inv(s) && t < |s.threads| && s.threads[t].cur.Some?
    ensures Goes(s, run, t, s', [], []) && t < |s'.threads| && s'.queues == s.queues
    ensures SameLoop(s.threads[t].(cur := None), s'.threads[t])
  {
    CurrentRunsHere(s, t);
    var f := s.threads[t].cur.value;
    run, s' := [], s;
    GoesNowhere(s, t);
    hide Step, Goes, FdOk, Inv;
    if s'.at[f].Woken? {
      run, s' := OneCoroutineMove(s, run, t, s', Disarm(true));
    }
    if s'.at[f].Body? {
      run, s' := OneCoroutineMove(s, run, t, s', Arm(READ, true));
    }
    run, s' := OneCoroutineMove(s, run, t, s', Yield);
  }

  lemma OneCoroutineMove(s: State, a: Run, t: Tid, s1: State, step: Action) returns (run: Run, s': State)
    requires Goes(s, a, t, s1, [], []) && t < |s1.threads| && s1.threads[t].cur.Some?
    requires step in {Disarm(true), Arm(READ, true), Yield} && Enabled(s1, t, step)
    ensures Goes(s, run, t, s', [], []) && t < |s'.threads| && s'.queues == s1.queues
    ensures InRange(s') && s1.threads[t].cur.value < |s'.at|
    ensures step.Yield? ==> SameLoop(s1.threads[t].(cur := None), s'.threads[t])
    ensures !step.Yield? ==> SameLoop(s1.threads[t], s'.threads[t])
    ensures step.Disarm? ==> s'.at[s1.threads[t].cur.value].Body?
    ensures step.Arm? ==> s'.at[s1.threads[t].cur.value].Armed?
  {
    var b;
    ThreadIsOk(s1, t);
    CoroutineLeavesIt(s1, t, step);
    b, s' := Moves(s1, t, step);
    CurrentRunsHere(s1, t);
    if step.Arm? { ArmInLoopThread(s1, t, READ, true); }
    if step.Disarm? { DisarmInLoopThread(s1, t, true); }
    ThreadIsOk(s', t);
    GoesOn(s, a, t, s1, [], [], b, s', [], [], [], []);
    run := a + b;
  }

  /** All that is in hand is resumed, each coroutine going back to wait. */
  lemma {:induction false} HandDrains(s: State, t: Tid) returns (run: Run, s': State)
    requires Inv(s) && t < |s.threads| && s.threads[t].mode.Batch? && s.threads[t].cur.None?
    ensures Goes(s, run, t, s', s.threads[t].hand, []) && t < |s'.threads| && s'.queues == s.queues
    ensures SameLoop(s.threads[t].(hand := []), s'.threads[t])
    decreases |s.threads[t].hand|
  {
    var hand := s.threads[t].hand;
    if hand == [] {
      GoesNowhere(s, t);
      run, s' := [], s;
    } else {
      ResumeWakes(s, t);
      var a, s1 := Moves(s, t, Loop);
      hide Step, Goes, Inv, LoopEnabled;
      GoesInv(s, a, t, s1, [hand[0]], []);
      var b, s2 := BackToWait(s1, t);
      GoesInv(s1, b, t, s2, [], []);
      GoesOn(s, a, t, s1, [hand[0]], [], b, s2, [], [], [hand[0]], []);
      var c;
      c, s' := HandDrains(s2, t);
      GoesOn(s, a + b, t, s2, [hand[0]], [], c, s', hand[1..], [], hand, []);
      run := a + b + c;
    }
  }

  lemma GoesInv(s: State, run: Run, t: Tid, s': State, resumed: seq<Fd>, started: seq<Fd>)
    requires Goes(s, run, t, s', resumed, started)
    ensures Inv(s') && InRange(s')
  {
  }

  /** The first sixteen of a thread's own queue, or all of it, come into its hand, in order. */
  lemma TakesOwn(s: State, t: Tid)
    requires Inv(s) && t < |s.threads| && s.threads[t].mode.Popping? && s.threads[t].cur.None? && s.queues[t] != []
    ensures LoopEnabled(s, t)
    ensures var q, s' := s.queues[t], Step(s, t, Loop);
            var n := if |q| < 16 then |q| else 16;
            && s'.threads[t] == s.threads[t].(mode := Batch(true), hand := q[..n])
            && s'.queues == s.queues[t := q[n..]] && s'.ev == s.ev && s'.at == s.at
  {
    ThreadIsOk(s, t);
    assert [] + s.queues[t][..Min(|s.queues[t]|, 16)] == s.queues[t][..Min(|s.queues[t]|, 16)];
  }

  /** A thread's own queue is popped and resumed to the end, batch by batch. */
  lemma {:induction false} PopsDrain(s: State, t: Tid) returns (run: Run, s': State)
    requires Inv(s) && t < |s.threads| && s.threads[t].mode.Popping? && s.threads[t].cur.None?
    ensures Goes(s, run, t, s', s.queues[t], []) && t < |s'.threads|
    ensures SameLoop(s.threads[t].(mode := SwapTasks), s'.threads[t]) && s'.queues == s.queues[t := []]
    decreases |s.queues[t]|
  {
    ThreadIsOk(s, t);
    var q := s.queues[t];
    if q == [] {
      run, s' := Moves(s, t, Loop);
    } else {
      TakesOwn(s, t);
      var a, s1 := Moves(s, t, Loop);
      assert s1.threads[t].mode == Batch(true);
      hide Goes, Inv;
      GoesInv(s, a, t, s1, [], []);
      var b, s2 := HandDrains(s1, t);
      var got := s1.threads[t].hand;
      GoesInv(s1, b, t, s2, got, []);
      GoesOn(s, a, t, s1, [], [], b, s2, got, [], got, []);
      var c, s3 := Moves(s2, t, Loop);
      GoesInv(s2, c, t, s3, [], []);
      GoesOn(s, a + b, t, s2, got, [], c, s3, [], [], got, []);
      var d;
      hide Step;
      d, s' := PopsDrain(s3, t);
      GoesOn(s, a + b + c, t, s3, got, [], d, s', s3.queues[t], [], q, []);
      run := a + b + c + d;
    }
  }

  /** Each posted task is run, each coroutine going to wait. */
  lemma {:induction false} TasksDrain(s: State, t: Tid) returns (run: Run, s': State)
    requires Inv(s) && t < |s.threads| && s.threads[t].mode.RunTasks? && s.threads[t].cur.None?
    ensures Goes(s, run, t, s', [], s.threads[t].tasks) && t < |s'.threads| && s'.queues == s.queues
    ensures SameLoop(s.threads[t].(mode := EpollWait, tasks := []), s'.threads[t])
    decreases |s.threads[t].tasks|
  {
    var tasks := s.threads[t].tasks;
    if tasks == [] {
      run, s' := Moves(s, t, Loop);
    } else {
      StartStarts(s, t);
      var a, s1 := Moves(s, t, Loop);
      hide Step, Goes, Inv, LoopEnabled;
      GoesInv(s, a, t, s1, [], [tasks[0]]);
      var b, s2 := BackToWait(s1, t);
      GoesInv(s1, b, t, s2, [], []);
      GoesOn(s, a, t, s1, [], [tasks[0]], b, s2, [], [], [], [tasks[0]]);
      var c;
      c, s' := TasksDrain(s2, t);
      GoesOn(s, a + b, t, s2, [], [tasks[0]], c, s', [], tasks[1..], [], tasks);
      run := a + b + c;
    }
  }

  /** The queues of the other threads from the i-th on, one behind the other. */
  function Others(queues: seq<seq<Fd>>, t: Tid, i: nat): seq<Fd>
    decreases |queues| - i
  {
    if i >= |queues| then [] else (if i == t then [] else queues[i]) + Others(queues, t, i + 1)
  }

  lemma {:induction false} OthersBehind(queues: seq<seq<Fd>>, t: Tid, i: nat, q: seq<Fd>, j: nat)
    requires i < |queues| && i < j
    ensures Others(queues[i := q], t, j) == Others(queues, t, j)
    decreases |queues| - j
  {
    if j < |queues| {
      OthersBehind(queues, t, i, q, j + 1);
    }
  }

  /** As much of `all` as fits a hand that holds `hand` already. */
  function Fit(hand: seq<Fd>, all: seq<Fd>): seq<Fd>
    requires |hand| <= 16
  {
    hand + all[..if |all| < 16 - |hand| then |all| else 16 - |hand|]
  }

  lemma FitTwice(hand: seq<Fd>, q: seq<Fd>, rest: seq<Fd>)
    requires |hand| <= 16
    ensures Fit(Fit(hand, q), rest) == Fit(hand, q + rest)
  {
    var n := if |q| < 16 - |hand| then |q| else 16 - |hand|;
    if n < |q| {
      assert (q + rest)[..n] == q[..n];
      assert Fit(hand, q) + rest[..0] == Fit(hand, q);
    } else {
      var k := if |rest| < 16 - |hand| - n then |rest| else 16 - |hand| - n;
      assert (q + rest)[..n + k] == q + rest[..k];
      assert hand + q + rest[..k] == hand + (q + rest[..k]);
    }
  }

  /** One visit: the front of queue i goes behind what is in hand, as far as it fits. */
  lemma StealVisit(s: State, t: Tid, i: nat)
    requires Inv(s) && t < |s.threads| && s.threads[t].cur.None? && s.threads[t].mode == Stealing(i)
    requires i < |s.queues| && |s.threads[t].hand| < 16
    ensures LoopEnabled(s, t)
    ensures var th, s' := s.threads[t], Step(s, t, Loop);
            && |s'.threads| == |s.threads| && |s'.queues| == |s.queues| && s'.ev == s.ev && s'.at == s.at
            && s'.threads[t] == th.(mode := Stealing(i + 1), hand := Fit(th.hand, if i == t then [] else s.queues[i]))
            && Others(s'.queues, t, i + 1) == Others(s.queues, t, i + 1) && s'.queues[t] == s.queues[t]
  {
    ThreadIsOk(s, t);
    var th := s.threads[t];
    hide Inv, Others, TakeFrom;
    if i == t {
      assert Fit(th.hand, []) == th.hand + [] == th.hand;
    } else {
      TakesFront(s, t, i);
      OthersBehind(s.queues, t, i, s.queues[i][Min(|s.queues[i]|, 16 - |th.hand|)..], i + 1);
    }
  }

  lemma TakesFront(s: State, t: Tid, i: nat)
    requires InRange(s) && t < |s.threads| && i < |s.queues| && i != t && |s.threads[t].hand| < 16
    ensures var th, n := s.threads[t], Min(|s.queues[i]|, 16 - |s.threads[t].hand|);
            var s' := TakeFrom(s, t, i, n, Stealing(i + 1));
            && s'.threads == s.threads[t := th.(mode := Stealing(i + 1), hand := Fit(th.hand, s.queues[i]))]
            && s'.queues == s.queues[i := s.queues[i][n..]] && s'.ev == s.ev && s'.at == s.at
  {
    var th, n := s.threads[t], Min(|s.queues[i]|, 16 - |s.threads[t].hand|);
    assert Fit(th.hand, s.queues[i]) == th.hand + s.queues[i][..n];
  }

  lemma StealEnds(s: State, t: Tid, i: nat)
    requires Inv(s) && t < |s.threads| && s.threads[t].cur.None? && s.threads[t].mode == Stealing(i)
    requires i == |s.queues| || |s.threads[t].hand| == 16
    ensures InRange(s) && LoopEnabled(s, t) && |s.threads[t].hand| <= 16
    ensures var th, s' := s.threads[t], Step(s, t, Loop);
            && |s'.threads| == |s.threads| && s'.queues == s.queues && s'.ev == s.ev && s'.at == s.at
            && s'.threads[t] == th.(mode := Batch(false), hand := Fit(th.hand, Others(s.queues, t, i)))
  {
    ThreadIsOk(s, t);
    assert Fit(s.threads[t].hand, Others(s.queues, t, i)) == s.threads[t].hand;
  }

  /** A thief goes round the other queues in order, taking what they hold until its hand is full. */
  lemma {:induction false} Steals(s: State, t: Tid, i: nat) returns (run: Run, s': State)
    requires Inv(s) && t < |s.threads| && s.threads[t].cur.None? && s.threads[t].mode == Stealing(i)
    requires i <= |s.queues| && |s.threads[t].hand| <= 16
    ensures Goes(s, run, t, s', [], []) && t < |s'.threads| && s'.ev == s.ev && s'.at == s.at
    ensures t < |s'.queues| && s'.queues[t] == s.queues[t]
    ensures s'.threads[t] == s.threads[t].(mode := Batch(false), hand := Fit(s.threads[t].hand, Others(s.queues, t, i)))
    decreases |s.queues| - i
  {
    hide Goes, Inv, LoopEnabled, Fit, Step;
    var th := s.threads[t];
    if i == |s.queues| || |th.hand| == 16 {
      StealEnds(s, t, i);
      run, s' := Moves(s, t, Loop);
    } else {
      StealVisit(s, t, i);
      var a, s1 := Moves(s, t, Loop);
      GoesInv(s, a, t, s1, [], []);
      var got := if i == t then [] else s.queues[i];
      FitIsSmall(th.hand, got);
      var b;
      b, s' := Steals(s1, t, i + 1);
      GoesOn(s, a, t, s1, [], [], b, s', [], [], [], []);
      FitTwice(th.hand, got, Others(s.queues, t, i + 1));
      run := a + b;
    }
  }

  lemma FitIsSmall(hand: seq<Fd>, all: seq<Fd>)
    requires |hand| <= 16
    ensures |Fit(hand, all)| <= 16
  {
  }

  /** What a thread gets to resume in a turn: its own queue, or else the first sixteen of the others' queues. */
  function Due(s: State, t: Tid): seq<Fd>
    requires InRange(s) && t < |s.queues|
  {
    if s.queues[t] != [] then s.queues[t] else Fit([], Others(s.queues, t, 0))
  }

  /** From the top of the loop past the queues. */
  lemma DrainQueues(s: State, t: Tid) returns (run: Run, s': State)
    requires Inv(s) && t < |s.threads| && s.threads[t].mode.Top? && s.threads[t].cur.None?
    ensures Goes(s, run, t, s', Due(s, t), []) && t < |s'.threads|
    ensures SameLoop(s.threads[t].(mode := SwapTasks), s'.threads[t])
    ensures t < |s'.queues| && s'.queues[t] == []
  {
    ThreadIsOk(s, t);
    var a, s1 := Moves(s, t, Loop);
    var mode := s1.threads[t].mode;
    hide Goes, Inv, Fit;
    GoesInv(s, a, t, s1, [], []);
    if s.queues[t] != [] {
      var b;
      b, s' := PopsDrain(s1, t);
      GoesOn(s, a, t, s1, [], [], b, s', s.queues[t], [], s.queues[t], []);
      run := a + b;
    } else {
      assert mode == Stealing(0);
      run, s' := StealAndResume(s1, t);
      GoesOn(s, a, t, s1, [], [], run, s', Due(s, t), [], Due(s, t), []);
      run := a + run;
    }
  }

  lemma StealAndResume(s: State, t: Tid) returns (run: Run, s': State)
    requires Inv(s) && t < |s.threads| && s.threads[t].mode == Stealing(0) && s.threads[t].cur.None? && s.threads[t].hand == []
    ensures Goes(s, run, t, s', Fit([], Others(s.queues, t, 0)), []) && t < |s'.threads|
    ensures t < |s'.queues| && s'.queues[t] == s.queues[t]
    ensures SameLoop(s.threads[t].(mode := SwapTasks), s'.threads[t])
  {
    hide Goes, Fit, Inv;
    var haul := Fit([], Others(s.queues, t, 0));
    var a, s1 := Steals(s, t, 0);
    GoesInv(s, a, t, s1, [], []);
    var b, s2 := HandDrains(s1, t);
    GoesInv(s1, b, t, s2, haul, []);
    GoesOn(s, a, t, s1, [], [], b, s2, haul, [], haul, []);
    var c;
    c, s' := Moves(s2, t, Loop);
    GoesOn(s, a + b, t, s2, haul, [], c, s', [], [], haul, []);
    run := a + b + c;
  }

  /** The posted tasks are taken all at once and run, then the loop polls. */
  lemma DrainTasks(s: State, t: Tid) returns (run: Run, s': State)
    requires Inv(s) && t < |s.threads| && s.threads[t].mode.SwapTasks? && s.threads[t].cur.None?
    ensures Goes(s, run, t, s', [], s.threads[t].pending) && t < |s'.threads| && s'.queues == s.queues
    ensures SameLoop(s.threads[t].(mode := EpollWait, tasks := [], pending := []), s'.threads[t])
  {
    var pending := s.threads[t].pending;
    var a, s1 := Moves(s, t, Loop);
    assert s1.threads[t] == s.threads[t].(mode := RunTasks, tasks := pending, pending := []) && s1.queues == s.queues;
    hide Goes, Inv;
    GoesInv(s, a, t, s1, [], []);
    var b;
    b, s' := TasksDrain(s1, t);
    GoesOn(s, a, t, s1, [], [], b, s', [], pending, [], pending);
    run := a + b;
  }

  /**
   A turn. From the top of its loop, in every state reached by any run, a thread can come to its poll by
   its own moves alone, each coroutine it runs going back to wait; on the way it resumes its whole own
   queue, or if that is empty the first sixteen of the others', and starts all that has been posted to
   it, each once and in order; and its own queue, its hand and its tasks are empty then.
   */
  lemma TurnReachesPoll(n: nat, m: nat, before: Run, t: Tid) returns (run: Run)
    requires InRange(Initial(n, m)) && Legal(Initial(n, m), before)
    requires var s := After(Initial(n, m), before);
             InRange(s) && t < |s.threads| && s.threads[t].mode.Top? && s.threads[t].cur.None?
    ensures var s := After(Initial(n, m), before);
            && Legal(s, run) && (forall move <- run :: move.0 == t)
            && Resumed(s, run, t) == (if s.queues[t] != [] then s.queues[t] else Fit([], Others(s.queues, t, 0)))
            && Started(s, run, t) == s.threads[t].pending
            && var s' := After(s, run);
               && t < |s'.threads| && t < |s'.queues| && s'.threads[t].mode.EpollWait? && s'.threads[t].cur.None?
               && s'.queues[t] == [] && s'.threads[t].hand == [] && s'.threads[t].tasks == [] && s'.threads[t].pending == []
  {
    hide Legal, After, Resumed, Started, Inv, Fit;
    InitialInv(n, m);
    RunKeeps(Initial(n, m), before);
    var s := After(Initial(n, m), before);
    ThreadIsOk(s, t);
    var a, s1 := DrainQueues(s, t);
    GoesInv(s, a, t, s1, Due(s, t), []);
    var b, s2 := DrainTasks(s1, t);
    GoesOn(s, a, t, s1, Due(s, t), [], b, s2, [], s.threads[t].pending, Due(s, t), s.threads[t].pending);
    run := a + b;
    GoesInv(s, run, t, s2, Due(s, t), s.threads[t].pending);
  }

  lemma HandleDetaches(s: State, t: Tid)
    requires Inv(s) && t < |s.threads| && s.threads[t].mode.Events? && s.threads[t].cur.None? && s.threads[t].events != []
    ensures Enabled(s, t, Handle(true))
    ensures var th, f, s' := s.threads[t], s.threads[t].events[0], Step(s, t, Handle(true));
            && |s'.threads| == |s.threads| && s'.queues == s.queues && |s'.ev| == |s.ev| && f < |s.ev|
            && s'.threads[t] == th.(events := th.events[1..], fds := s'.threads[t].fds, mode := Pushing, hand := [f])
            && s'.ev[f].reactor.None?
  {
    ThreadIsOk(s, t);
    assert FdOk(s, s.threads[t].events[0]);
  }

  lemma PushGoesBehind(s: State, t: Tid)
    requires Inv(s) && t < |s.threads| && s.threads[t].mode.Pushing? && s.threads[t].cur.None? && |s.threads[t].hand| == 1
    ensures Enabled(s, t, Loop) && t < |s.queues|
    ensures var th, s' := s.threads[t], Step(s, t, Loop);
            && |s'.threads| == |s.threads| && s'.threads[t] == th.(mode := Events, hand := [])
            && s'.queues == s.queues[t := s.queues[t] + th.hand] && s'.ev == s.ev
  {
    ThreadIsOk(s, t);
    assert s.threads[t].hand == [s.threads[t].hand[0]];
  }

  /** A reported event of a waiting connection is detached and pushed behind the thread's own queue. */
  lemma EventIsPushed(s: State, t: Tid) returns (run: Run, s': State)
    requires Inv(s) && t < |s.threads| && s.threads[t].mode.Events? && s.threads[t].cur.None? && s.threads[t].events != []
    ensures Goes(s, run, t, s', [], []) && t < |s'.threads|
    ensures s'.threads[t] == s.threads[t].(events := s.threads[t].events[1..], fds := s'.threads[t].fds)
    ensures t < |s.queues| && s'.queues == s.queues[t := s.queues[t] + [s.threads[t].events[0]]]
    ensures s.threads[t].events[0] < |s'.ev| && s'.ev[s.threads[t].events[0]].reactor.None?
  {
    ThreadIsOk(s, t);
    hide Goes, Inv, Step, Enabled;
    HandleDetaches(s, t);
    var a, s1 := Moves(s, t, Handle(true));
    GoesInv(s, a, t, s1, [], []);
    PushGoesBehind(s1, t);
    var b;
    b, s' := Moves(s1, t, Loop);
    GoesOn(s, a, t, s1, [], [], b, s', [], [], [], []);
    run := a + b;
  }

  lemma {:induction false} EventsDrain(s: State, t: Tid) returns (run: Run, s': State)
    requires Inv(s) && t < |s.threads| && s.threads[t].mode.Events? && s.threads[t].cur.None?
    ensures Goes(s, run, t, s', [], []) && t < |s'.threads|
    ensures SameLoop(s.threads[t].(events := []), s'.threads[t])
    ensures t < |s.queues| && s'.queues == s.queues[t := s.queues[t] + s.threads[t].events]
    decreases |s.threads[t].events|
  {
    ThreadIsOk(s, t);
    var events := s.threads[t].events;
    hide Goes, Inv;
    if events == [] {
      GoesNowhere(s, t);
      run, s' := [], s;
      assert s.queues[t] + [] == s.queues[t];
    } else {
      var a, s1 := EventIsPushed(s, t);
      GoesInv(s, a, t, s1, [], []);
      var b;
      b, s' := EventsDrain(s1, t);
      GoesOn(s, a, t, s1, [], [], b, s', [], [], [], []);
      run := a + b;
      assert s.queues[t] + [events[0]] + events[1..] == s.queues[t] + events;
    }
  }

  /**
   The other half of a turn: whatever a poll reports as ready is queued behind what is queued already, in
   the order reported, and the loop comes back to its top; the next turn resumes it, or a thief does.
   */
  lemma PollReachesTop(n: nat, m: nat, before: Run, t: Tid, ready: seq<Fd>) returns (run: Run)
    requires InRange(Initial(n, m)) && Legal(Initial(n, m), before)
    requires var s := After(Initial(n, m), before); InRange(s) && t < |s.threads| && Enabled(s, t, Poll(ready))
    ensures var s := After(Initial(n, m), before);
            && Legal(s, run) && (forall move <- run :: move.0 == t) && run != [] && run[0] == (t, Poll(ready))
            && var s' := After(s, run);
               && t < |s'.threads| && s'.threads[t].mode.Top? && s'.threads[t].cur.None?
               && t < |s.queues| && s'.queues == s.queues[t := s.queues[t] + ready]
  {
    hide Legal, After, Resumed, Started, Inv;
    InitialInv(n, m);
    RunKeeps(Initial(n, m), before);
    var s := After(Initial(n, m), before);
    ThreadIsOk(s, t);
    var a, s1 := Moves(s, t, Poll(ready));
    assert s1.threads[t].events == ready && s1.queues == s.queues;
    GoesInv(s, a, t, s1, [], []);
    var b, s2 := EventsDrain(s1, t);
    GoesInv(s1, b, t, s2, [], []);
    var c, s3 := EndsTurn(s2, t);
    hide Goes, Step;
    GoesOn(s1, b, t, s2, [], [], c, s3, [], [], [], []);
    GoesOn(s, a, t, s1, [], [], b + c, s3, [], [], [], []);
    run := a + (b + c);
    GoesParts(s, run, t, s3);
  }

  lemma GoesParts(s: State, run: Run, t: Tid, s': State)
    requires Goes(s, run, t, s', [], [])
    ensures InRange(s) && Legal(s, run) && After(s, run) == s' && forall move <- run :: move.0 == t
  {
  }

  lemma EndsTurn(s: State, t: Tid) returns (run: Run, s': State)
    requires Inv(s) && t < |s.threads| && s.threads[t].mode.Events? && s.threads[t].cur.None? && s.threads[t].events == []
    ensures Goes(s, run, t, s', [], []) && t < |s'.threads| && s'.queues == s.queues
    ensures SameLoop(s.threads[t].(mode := Top), s'.threads[t])
  {
    hide Goes, Inv;
    ThreadIsOk(s, t);
    var a, s1 := Moves(s, t, Loop);
    GoesInv(s, a, t, s1, [], []);
    ThreadIsOk(s1, t);
    var b;
    b, s' := Moves(s1, t, Apply(_ => true));
    GoesOn(s, a, t, s1, [], [], b, s', [], [], [], []);
    run := a + b;
  }

  // ---- the first moves of a turn, in every state reached -------------------------------------------------

  /** Two moves of its own bring the first sixteen of a non-empty own queue, in order, into a thread's hand. */
  lemma OwnQueueIsTaken(n: nat, m: nat, before: Run, t: Tid)
    requires InRange(Initial(n, m)) && Legal(Initial(n, m), before)
    requires var s := After(Initial(n, m), before);
             && InRange(s) && t < |s.threads| && s.threads[t].mode.Top? && s.threads[t].cur.None? && s.queues[t] != []
    ensures var s := After(Initial(n, m), before);
            var q := s.queues[t];
            var k := if |q| < 16 then |q| else 16;
            && Enabled(s, t, Loop) && InRange(Step(s, t, Loop)) && Enabled(Step(s, t, Loop), t, Loop)
            && var s' := Step(Step(s, t, Loop), t, Loop);
               && |s'.threads| == |s.threads| && s'.threads[t].mode == Batch(true) && s'.threads[t].hand == q[..k]
               && s'.queues == s.queues[t := q[k..]] && s'.ev == s.ev && s'.at == s.at
  {
    hide Legal, After, Inv;
    InitialInv(n, m);
    RunKeeps(Initial(n, m), before);
    var s := After(Initial(n, m), before);
    ThreadIsOk(s, t);
    NextStepKeeps(s, t, Loop);
    TakesOwn(Step(s, t, Loop), t);
  }

  /** With an empty queue of its own, its own moves bring the first sixteen of the others' queues into its hand. */
  lemma OtherQueuesAreTaken(n: nat, m: nat, before: Run, t: Tid) returns (run: Run)
    requires InRange(Initial(n, m)) && Legal(Initial(n, m), before)
    requires var s := After(Initial(n, m), before);
             && InRange(s) && t < |s.threads| && s.threads[t].mode.Top? && s.threads[t].cur.None? && s.queues[t] == []
    ensures var s := After(Initial(n, m), before);
            && Legal(s, run) && (forall move <- run :: move.0 == t)
            && var s', all := After(s, run), Others(s.queues, t, 0);
               && t < |s'.threads| && s'.threads[t].mode == Batch(false)
               && s'.threads[t].hand == all[..if |all| < 16 then |all| else 16]
               && s'.ev == s.ev && s'.at == s.at
  {
    hide Legal, After, Resumed, Started, Inv;
    InitialInv(n, m);
    RunKeeps(Initial(n, m), before);
    var s := After(Initial(n, m), before);
    ThreadIsOk(s, t);
    var a, s1 := Moves(s, t, Loop);
    assert s1.threads[t].mode == Stealing(0) && s1.queues == s.queues && s1.threads[t].hand == [];
    GoesInv(s, a, t, s1, [], []);
    hide Goes, Step;
    var b, s2 := Steals(s1, t, 0);
    GoesOn(s, a, t, s1, [], [], b, s2, [], [], [], []);
    run := a + b;
    GoesParts(s, run, t, s2);
    var all := Others(s.queues, t, 0);
    assert Fit([], all) == all[..if |all| < 16 then |all| else 16];
  }

  /** Once in hand, each in turn becomes the running coroutine: woken, on the thread that holds it. */
  lemma HeldIsResumed(n: nat, m: nat, before: Run, t: Tid)
    requires InRange(Initial(n, m)) && Legal(Initial(n, m), before)
    requires var s := After(Initial(n, m), before);
             InRange(s) && t < |s.threads| && s.threads[t].mode.Batch? && s.threads[t].cur.None? && s.threads[t].hand != []
    ensures var s := After(Initial(n, m), before);
            && Enabled(s, t, Loop)
            && var f, s' := s.threads[t].hand[0], Step(s, t, Loop);
               && s'.threads[t].cur == Some(f) && s'.threads[t].hand == s.threads[t].hand[1..]
               && f < |s.ev| == |s'.ev| && s.at[f].Armed? && s'.at[f] == Woken(s.at[f].dir) && s'.ev[f].reactor == Some(t)
  {
    hide Legal, After, Inv;
    InitialInv(n, m);
    RunKeeps(Initial(n, m), before);
    ResumeWakes(After(Initial(n, m), before), t);
  }
}
