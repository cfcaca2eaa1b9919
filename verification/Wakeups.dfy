/**
 Which waits can end. `ReactorProtocol` says where every connection is; here the kernel's side is added:
 what each epoll instance watches, changed by exactly the `epoll_ctl` calls of the steps. A wait can
 end exactly if the `epoll_ctl` that began it succeeded and no error event has been handled for the
 connection since; otherwise the program never resumes the coroutine.
 */
module Wakeups {
  import opened Common
  import opened ReactorProtocol

  /** For each thread's epoll instance and each descriptor it has: the directions it watches. */
  type Watch = map<(Tid, Fd), set<IOEvent>>

  function Ctl(w: Watch, t: Tid, f: Fd, events: set<IOEvent>, ok: bool): Watch {
    if ok then w[(t, f) := events] else w
  }

  /**
   The `epoll_ctl` calls of a step; closing a descriptor takes it out of every instance. Deferred calls
   are not among them: `OwnershipInEveryRun` shows that nothing is ever deferred.
   */
  function Watched(s: State, t: Tid, a: Action, w: Watch): Watch
    requires InRange(s) && t < |s.threads| && Enabled(s, t, a)
  {
    var th := s.threads[t];
    match a
    case Arm(dir, ok) =>
      var e := s.ev[th.cur.value];
      if dir in e.listen || ReactorOf(e, t) != t then w else Ctl(w, t, th.cur.value, e.listen + {dir}, ok)
    case Disarm(ok) =>
      var e, dir := s.ev[th.cur.value], s.at[th.cur.value].dir;
      if dir !in e.listen || ReactorOf(e, t) != t then w else Ctl(w, t, th.cur.value, e.listen - {dir}, ok)
    case Handle(readable) =>
      var f := th.events[0];
      if f in th.fds && (!readable || s.ev[f].cor) then w - {(t, f)} else w
    case Close => map x | x in w && x.1 != th.cur.value :: w[x]
    case _ => w
  }

  /** History: the connections whose last wait began with a successful `epoll_ctl` and has met no error event since. */
  function ArmedAfter(s: State, t: Tid, a: Action, armed: set<Fd>): set<Fd>
    requires InRange(s) && t < |s.threads| && Enabled(s, t, a)
  {
    match a
    case Arm(_, ok) => if ok then armed + {s.threads[t].cur.value} else armed - {s.threads[t].cur.value}
    case Handle(readable) => if readable then armed else armed - {s.threads[t].events[0]}
    case _ => armed
  }

  /** What the kernel can report: descriptors it watches, and readiness in a direction watched for. */
  predicate Reported(s: State, t: Tid, a: Action, w: Watch)
    requires InRange(s) && t < |s.threads| && Enabled(s, t, a)
  {
    match a
    case Poll(ready) => forall f <- ready :: (t, f) in w
    case Handle(readable) => readable ==> (t, s.threads[t].events[0]) in w && w[(t, s.threads[t].events[0])] != {}
    case _ => true
  }

  // ---- the two sides agree --------------------------------------------------------------------------

  ghost predicate SameFds(s: State, w: Watch) {
    forall t: Tid, f: Fd :: (t, f) in w <==> t < |s.threads| && f in s.threads[t].fds
  }

  predicate WatchesFor(w: Watch, t: Tid, f: Fd, dir: IOEvent) {
    (t, f) in w && w[(t, f)] == {dir}
  }

  predicate WaitOk(w: Watch, armed: set<Fd>, t: Tid, f: Fd, dir: IOEvent) {
    && (f in armed <==> WatchesFor(w, t, f, dir))
    && ((t, f) in w ==> w[(t, f)] == {} || w[(t, f)] == {dir})
  }

  predicate WatchOk(s: State, w: Watch, armed: set<Fd>, f: Fd)
    requires InRange(s) && f < |s.ev|
  {
    match s.place[f]
    case Running(t) =>
      (match s.at[f]
       case Body => (t, f) in w ==> w[(t, f)] == {}
       case Armed(dir) => WaitOk(w, armed, t, f, dir)
       case Woken(_) => (t, f) !in w
       case Ended => true)
    case Waiting(t) => s.at[f].Armed? ==> WaitOk(w, armed, t, f, s.at[f].dir)
    case _ => true
  }

  ghost predicate Agree(s: State, w: Watch, armed: set<Fd>) {
    && Inv(s) && SameFds(s, w)
    && forall f :: 0 <= f < |s.ev| ==> WatchOk(s, w, armed, f)
  }

  /** A connection that is neither running nor waiting on a thread is not watched there. */
  lemma ElsewhereIsUnwatched(s: State, w: Watch, t: Tid, f: Fd)
    requires Inv(s) && SameFds(s, w) && f < |s.ev| && s.place[f] !in {Running(t), Waiting(t)}
    ensures (t, f) !in w
  {
    if t < |s.threads| {
      assert ThreadOk(s, t);
    }
  }

  /** What a step without `epoll_ctl` does to a connection: nothing, let its coroutine wait, or move it between places where it is unwatched. */
  predicate MovedQuietly(s: State, s': State, t: Tid, f: Fd)
    requires InRange(s) && InRange(s') && |s.ev| == |s'.ev| && f < |s.ev|
  {
    || (s'.place[f] == s.place[f] && s'.at[f] == s.at[f])
    || (s.place[f] == Running(t) && s'.place[f] == Waiting(t) && s'.at[f] == s.at[f])
    || s'.place[f].Posted? || s'.place[f].Queued? || s'.place[f].InHand?
    || (s.place[f] in {Posted(t), InHand(t)} && s'.place[f] == Running(t) && (s'.at[f].Body? || s'.at[f].Woken?))
  }

  lemma LoopMovesQuietly(s: State, t: Tid)
    requires Inv(s) && t < |s.threads| && LoopEnabled(s, t)
    ensures var s' := LoopStep(s, t);
            && |s'.threads| == |s.threads| && InRange(s') && |s'.ev| == |s.ev|
            && (forall u :: 0 <= u < |s.threads| ==> s'.threads[u].fds == s.threads[u].fds)
            && (forall f :: 0 <= f < |s.ev| ==> MovedQuietly(s, s', t, f))
  {
    ThreadIsOk(s, t);
    var th := s.threads[t];
    if th.mode.Batch? && th.hand != [] {
      assert FdOk(s, th.hand[0]);
    } else if th.mode.RunTasks? && th.tasks != [] {
      assert (th.tasks + th.pending)[0] == th.tasks[0];
      assert FdOk(s, th.tasks[0]);
    }
  }

  /** A step that calls no `epoll_ctl`. */
  lemma QuietStepAgrees(s: State, t: Tid, a: Action, w: Watch, armed: set<Fd>)
    requires Agree(s, w, armed) && t < |s.threads| && Enabled(s, t, a)
    requires a.Accept? || a.Loop? || a.Poll? || a.PollFails? || a.Yield? || a.Apply?
    ensures Agree(Step(s, t, a), w, armed)
  {
    var s' := Step(s, t, a);
    StepKeeps(s, t, a);
    ThreadIsOk(s, t);
    if a.Loop? {
      LoopMovesQuietly(s, t);
    }
    hide Inv, LoopStep;
    assert SameFds(s', w);
    forall f | 0 <= f < |s.ev|
      ensures WatchOk(s', w, armed, f)
    {
      assert WatchOk(s, w, armed, f) && MovedQuietly(s, s', t, f);
      if s.place[f] !in {Running(t), Waiting(t)} {
        ElsewhereIsUnwatched(s, w, t, f);
      }
    }
  }

  lemma ArmAgrees(s: State, t: Tid, dir: IOEvent, ok: bool, w: Watch, armed: set<Fd>)
    requires Agree(s, w, armed) && t < |s.threads| && Enabled(s, t, Arm(dir, ok))
    ensures Agree(Step(s, t, Arm(dir, ok)), Watched(s, t, Arm(dir, ok), w), ArmedAfter(s, t, Arm(dir, ok), armed))
  {
    var a := Arm(dir, ok);
    var f, s' := s.threads[t].cur.value, Step(s, t, a);
    StepKeeps(s, t, a);
    CurrentRunsHere(s, t);
    ArmInLoopThread(s, t, dir, ok);
    var w' := Watched(s, t, a, w);
    assert w' == Ctl(w, t, f, {dir}, ok) by { assert s.ev[f].listen + {dir} == {dir}; }
    hide Inv, Step;
    assert SameFds(s', w');
    forall g | 0 <= g < |s.ev|
      ensures WatchOk(s', w', ArmedAfter(s, t, a, armed), g)
    {
      assert WatchOk(s, w, armed, g);
    }
  }

  lemma DisarmAgrees(s: State, t: Tid, ok: bool, w: Watch, armed: set<Fd>)
    requires Agree(s, w, armed) && t < |s.threads| && Enabled(s, t, Disarm(ok))
    ensures Agree(Step(s, t, Disarm(ok)), Watched(s, t, Disarm(ok), w), armed)
  {
    var a := Disarm(ok);
    var f, s' := s.threads[t].cur.value, Step(s, t, a);
    StepKeeps(s, t, a);
    CurrentRunsHere(s, t);
    DisarmInLoopThread(s, t, ok);
    var w' := Watched(s, t, a, w);
    assert w' == Ctl(w, t, f, {}, ok) by { assert s.ev[f].listen - {s.at[f].dir} == {}; }
    hide Inv, Step;
    assert SameFds(s', w');
    forall g | 0 <= g < |s.ev|
      ensures WatchOk(s', w', armed, g)
    {
      assert WatchOk(s, w, armed, g);
    }
  }

  lemma HandleAgrees(s: State, t: Tid, readable: bool, w: Watch, armed: set<Fd>)
    requires Agree(s, w, armed) && t < |s.threads| && Enabled(s, t, Handle(readable))
    ensures Agree(Step(s, t, Handle(readable)), Watched(s, t, Handle(readable), w), ArmedAfter(s, t, Handle(readable), armed))
  {
    var a := Handle(readable);
    var th, f, s' := s.threads[t], s.threads[t].events[0], Step(s, t, a);
    StepKeeps(s, t, a);
    ThreadIsOk(s, t);
    assert FdOk(s, f) && s.place[f] == Waiting(t);
    WithoutRemoves(th.fds, f);
    var w' := Watched(s, t, a, w);
    hide Inv, Without;
    assert s'.threads[t].fds == Without(th.fds, f);
    assert SameFds(s', w');
    forall g | 0 <= g < |s.ev|
      ensures WatchOk(s', w', ArmedAfter(s, t, a, armed), g)
    {
      assert WatchOk(s, w, armed, g);
    }
  }

  lemma CloseAgrees(s: State, t: Tid, w: Watch, armed: set<Fd>)
    requires Agree(s, w, armed) && t < |s.threads| && Enabled(s, t, Close)
    ensures Agree(Step(s, t, Close), Watched(s, t, Close, w), armed)
  {
    var th, f, s' := s.threads[t], s.threads[t].cur.value, Step(s, t, Close);
    StepKeeps(s, t, Close);
    ThreadIsOk(s, t);
    CurrentRunsHere(s, t);
    RunningIsAtHome(s, t);
    WithoutRemoves(th.fds, f);
    var w' := Watched(s, t, Close, w);
    hide Inv, Without;
    assert s'.threads[t].fds == Without(th.fds, f);
    assert SameFds(s', w');
    forall g | 0 <= g < |s.ev|
      ensures WatchOk(s', w', armed, g)
    {
      assert WatchOk(s, w, armed, g);
    }
  }

  lemma StepAgrees(s: State, t: Tid, a: Action, w: Watch, armed: set<Fd>)
    requires Agree(s, w, armed) && t < |s.threads| && Enabled(s, t, a)
    ensures Agree(Step(s, t, a), Watched(s, t, a, w), ArmedAfter(s, t, a, armed))
  {
    hide Agree, Step, WatchOk, Enabled;
    match a
    case Arm(dir, ok) => ArmAgrees(s, t, dir, ok, w, armed);
    case Disarm(ok) => DisarmAgrees(s, t, ok, w, armed);
    case Handle(readable) => HandleAgrees(s, t, readable, w, armed);
    case Close => CloseAgrees(s, t, w, armed);
    case _ => QuietStepAgrees(s, t, a, w, armed);
  }

  // ---- whole runs -------------------------------------------------------------------------------------

  ghost predicate Real(s: State, run: Run, w: Watch)
    requires InRange(s) && Legal(s, run)
    decreases |run|
  {
    run == [] ||
    var (t, a) := run[0];
    Reported(s, t, a, w) && Real(Step(s, t, a), run[1..], Watched(s, t, a, w))
  }

  /** What is watched, and which waits are armed, after a run. */
  function WatchAfter(s: State, run: Run, w: Watch): Watch
    requires InRange(s) && Legal(s, run)
    decreases |run|
  {
    if run == [] then w
    else WatchAfter(Step(s, run[0].0, run[0].1), run[1..], Watched(s, run[0].0, run[0].1, w))
  }

  function ArmedBy(s: State, run: Run, armed: set<Fd>): set<Fd>
    requires InRange(s) && Legal(s, run)
    decreases |run|
  {
    if run == [] then armed
    else ArmedBy(Step(s, run[0].0, run[0].1), run[1..], ArmedAfter(s, run[0].0, run[0].1, armed))
  }

  lemma {:induction false} RunAgrees(s: State, run: Run, w: Watch, armed: set<Fd>)
    requires Agree(s, w, armed) && Legal(s, run)
    ensures Agree(After(s, run), WatchAfter(s, run, w), ArmedBy(s, run, armed))
    decreases |run|
  {
    hide Agree, Step, Watched, ArmedAfter;
    if run != [] {
      var (t, a) := run[0];
      AgreeInv(s, w, armed);
      NextStepKeeps(s, t, a);
      StepAgrees(s, t, a, w, armed);
      RunAgrees(Step(s, t, a), run[1..], Watched(s, t, a, w), ArmedAfter(s, t, a, armed));
    }
  }

  lemma AgreeInv(s: State, w: Watch, armed: set<Fd>)
    requires Agree(s, w, armed)
    ensures Inv(s) && InRange(s)
  {
  }

  lemma InitialAgrees(n: nat, m: nat)
    ensures Agree(Initial(n, m), map[], {})
  {
    InitialInv(n, m);
  }

  /** A coroutine has switched away in a hook on thread `t`, and nothing has taken its descriptor's event yet. */
  predicate WaitsOn(s: State, t: Tid, f: Fd)
    requires InRange(s)
  {
    && f < |s.ev| && t < |s.threads| && s.open[f]
    && s.at[f].Armed? && s.ev[f].reactor == Some(t) && s.threads[t].cur != Some(f)
  }

  lemma WaitsOnIsWaiting(s: State, t: Tid, f: Fd)
    requires Inv(s)
    ensures WaitsOn(s, t, f) <==> f < |s.ev| && s.place[f] == Waiting(t)
  {
    if f < |s.ev| {
      assert FdOk(s, f);
      if t < |s.threads| {
        assert ThreadOk(s, t);
      }
    }
  }

  /**
   In every run, a waiting connection is watched for its direction, by its reactor's epoll instance,
   exactly if the `epoll_ctl` that began the wait succeeded and no error event has been handled for it
   since. Its descriptor is in `fds_` exactly if it is watched at all, which in an unarmed wait is for
   no direction.
   */
  lemma WatchedExactly(n: nat, m: nat, run: Run, t: Tid, f: Fd)
    requires InRange(Initial(n, m)) && Legal(Initial(n, m), run)
    requires InRange(After(Initial(n, m), run)) && WaitsOn(After(Initial(n, m), run), t, f)
    ensures var s, w := After(Initial(n, m), run), WatchAfter(Initial(n, m), run, map[]);
            && (f in ArmedBy(Initial(n, m), run, {}) <==> WatchesFor(w, t, f, s.at[f].dir))
            && (f in s.threads[t].fds <==> (t, f) in w)
            && (f !in ArmedBy(Initial(n, m), run, {}) && (t, f) in w ==> w[(t, f)] == {})
  {
    hide After, WatchAfter, ArmedBy, Legal, Inv, FdOk;
    InitialAgrees(n, m);
    RunAgrees(Initial(n, m), run, map[], {});
    WaitsOnIsWaiting(After(Initial(n, m), run), t, f);
    assert WatchOk(After(Initial(n, m), run), WatchAfter(Initial(n, m), run, map[]), ArmedBy(Initial(n, m), run, {}), f);
  }

  // ---- an unarmed wait never ends -----------------------------------------------------------------------

  lemma StaysUnarmed(s: State, t: Tid, a: Action, w: Watch, armed: set<Fd>, u: Tid, f: Fd)
    requires Agree(s, w, armed) && t < |s.threads| && Enabled(s, t, a) && Reported(s, t, a, w)
    requires f < |s.ev| && s.place[f] == Waiting(u) && f !in armed
    ensures |Step(s, t, a).ev| == |s.ev| && f < |Step(s, t, a).place| && Step(s, t, a).place[f] == Waiting(u)
    ensures f !in ArmedAfter(s, t, a, armed)
  {
    ThreadIsOk(s, t);
    assert FdOk(s, f) && WatchOk(s, w, armed, f);
    if s.threads[t].cur.Some? {
      CurrentRunsHere(s, t);
      if a.Arm? { ArmInLoopThread(s, t, a.dir, a.ok); }
      if a.Disarm? { DisarmInLoopThread(s, t, a.ok); }
    }
    if a.Loop? {
      LoopLeavesWaiting(s, t, u, f);
    }
  }

  lemma LoopLeavesWaiting(s: State, t: Tid, u: Tid, f: Fd)
    requires Inv(s) && t < |s.threads| && LoopEnabled(s, t)
    requires f < |s.ev| && s.place[f] == Waiting(u)
    ensures var s' := LoopStep(s, t); |s'.place| == |s'.ev| == |s.ev| && s'.place[f] == Waiting(u)
  {
    ThreadIsOk(s, t);
    var th := s.threads[t];
    if th.mode.Stealing? && th.mode.next < |s.queues| {
      assert QueueOk(s, th.mode.next);
    } else if th.mode.Popping? {
      assert QueueOk(s, t);
    } else if th.mode.RunTasks? && th.tasks != [] {
      assert (th.tasks + th.pending)[0] == th.tasks[0];
    }
  }

  lemma {:induction false} RunStaysUnarmed(s: State, later: Run, w: Watch, armed: set<Fd>, u: Tid, f: Fd)
    requires Agree(s, w, armed) && Legal(s, later) && Real(s, later, w)
    requires f < |s.ev| && s.place[f] == Waiting(u) && f !in armed
    ensures var s' := After(s, later); |s'.ev| == |s.ev| && f < |s'.place| && s'.place[f] == Waiting(u)
    ensures f !in ArmedBy(s, later, armed)
    decreases |later|
  {
    hide Agree, Step, Watched, ArmedAfter, Reported;
    AgreeInv(s, w, armed);
    if later != [] {
      var (t, a) := later[0];
      NextStepKeeps(s, t, a);
      StepAgrees(s, t, a, w, armed);
      StaysUnarmed(s, t, a, w, armed, u, f);
      RunStaysUnarmed(Step(s, t, a), later[1..], Watched(s, t, a, w), ArmedAfter(s, t, a, armed), u, f);
    }
  }

  /**
   A wait that is not armed never ends: whatever all the threads do later, as long as the kernel reports
   only what it watches, the connection stays open, waiting, and not watched for its direction.
   */
  lemma UnarmedNeverEnds(n: nat, m: nat, run: Run, later: Run, t: Tid, f: Fd)
    requires InRange(Initial(n, m)) && Legal(Initial(n, m), run)
    requires var s := After(Initial(n, m), run);
             && InRange(s) && WaitsOn(s, t, f) && f !in ArmedBy(Initial(n, m), run, {})
             && Legal(s, later) && Real(s, later, WatchAfter(Initial(n, m), run, map[]))
    ensures var s, w := After(Initial(n, m), run), WatchAfter(Initial(n, m), run, map[]);
            var s', w' := After(s, later), WatchAfter(s, later, w);
            InRange(s') && WaitsOn(s', t, f) && !WatchesFor(w', t, f, s'.at[f].dir)
  {
    hide After, WatchAfter, ArmedBy, Legal, Real, Inv, FdOk;
    InitialAgrees(n, m);
    RunAgrees(Initial(n, m), run, map[], {});
    var s, w, armed := After(Initial(n, m), run), WatchAfter(Initial(n, m), run, map[]), ArmedBy(Initial(n, m), run, {});
    WaitsOnIsWaiting(s, t, f);
    RunStaysUnarmed(s, later, w, armed, t, f);
    RunAgrees(s, later, w, armed);
    var s' := After(s, later);
    AgreeInv(s', WatchAfter(s, later, w), ArmedBy(s, later, armed));
    WaitsOnIsWaiting(s', t, f);
    assert WatchOk(s', WatchAfter(s, later, w), ArmedBy(s, later, armed), f);
  }

  /** An armed wait can end: the next poll of its thread may report it, and then its event is detached for whoever takes it. */
  lemma ArmedCanEnd(n: nat, m: nat, run: Run, t: Tid, f: Fd)
    requires InRange(Initial(n, m)) && Legal(Initial(n, m), run)
    requires var s := After(Initial(n, m), run);
             && InRange(s) && WaitsOn(s, t, f) && f in ArmedBy(Initial(n, m), run, {})
             && s.threads[t].mode.EpollWait? && s.threads[t].cur.None?
    ensures var s, w := After(Initial(n, m), run), WatchAfter(Initial(n, m), run, map[]);
            var later := [(t, Poll([f])), (t, Handle(true))];
            && Legal(s, later) && Real(s, later, w)
            && var s' := After(s, later);
               t < |s'.threads| && s'.threads[t].hand == [f] && s'.threads[t].mode.Pushing?
  {
    hide WatchAfter, ArmedBy;
    InitialAgrees(n, m);
    RunAgrees(Initial(n, m), run, map[], {});
    var s, w := After(Initial(n, m), run), WatchAfter(Initial(n, m), run, map[]);
    hide After, Legal;
    WaitsOnIsWaiting(s, t, f);
    AgreeInv(s, w, ArmedBy(Initial(n, m), run, {}));
    assert WatchOk(s, w, ArmedBy(Initial(n, m), run, {}), f) && FdOk(s, f);
    ThreadIsOk(s, t);
    PollThenHandle(s, w, t, f);
  }

  lemma PollThenHandle(s: State, w: Watch, t: Tid, f: Fd)
    requires Inv(s) && t < |s.threads| && s.threads[t].mode.EpollWait? && s.threads[t].cur.None?
    requires f < |s.ev| && f in s.threads[t].fds && s.ev[f].cor && s.threads[t].hand == []
    requires (t, f) in w && w[(t, f)] != {}
    ensures var later := [(t, Poll([f])), (t, Handle(true))];
            && Legal(s, later) && Real(s, later, w)
            && var s' := After(s, later);
               t < |s'.threads| && s'.threads[t].hand == [f] && s'.threads[t].mode.Pushing?
  {
    var later: Run := [(t, Poll([f])), (t, Handle(true))];
    var s1 := Step(s, t, Poll([f]));
    NextStepKeeps(s, t, Poll([f]));
    NextStepKeeps(s1, t, Handle(true));
    hide Inv;
    var s2 := Step(s1, t, Handle(true));
    assert s2.threads[t].hand == [f];
    assert later[1..] == [(t, Handle(true))] && later[1..][1..] == [];
    assert Legal(s2, []) && After(s2, []) == s2;
    assert Legal(s1, later[1..]) && After(s1, later[1..]) == s2;
    assert Legal(s, later) && After(s, later) == s2;
    assert s1.threads[t].events[0] == f && Reported(s1, t, Handle(true), w);
    assert Real(s2, [], Watched(s1, t, Handle(true), w)) && Real(s1, later[1..], w);
    assert Watched(s, t, Poll([f]), w) == w && Reported(s, t, Poll([f]), w);
  }

  // ---- how a connection comes to wait for ever ------------------------------------------------------------

  /** One more step at the end of a run. */
  lemma {:induction false} RunSnoc(s: State, run: Run, t: Tid, a: Action, armed: set<Fd>)
    requires InRange(s) && Legal(s, run) && InRange(After(s, run))
    requires t < |After(s, run).threads| && Enabled(After(s, run), t, a) && InRange(Step(After(s, run), t, a))
    ensures Legal(s, run + [(t, a)]) && After(s, run + [(t, a)]) == Step(After(s, run), t, a)
    ensures ArmedBy(s, run + [(t, a)], armed) == ArmedAfter(After(s, run), t, a, ArmedBy(s, run, armed))
    decreases |run|
  {
    hide Step, ArmedAfter, Enabled;
    if run == [] {
      assert run + [(t, a)] == [(t, a)] && [(t, a)][1..] == [];
      assert Legal(Step(s, t, a), []);
    } else {
      assert (run + [(t, a)])[1..] == run[1..] + [(t, a)];
      RunSnoc(Step(s, run[0].0, run[0].1), run[1..], t, a, ArmedAfter(s, run[0].0, run[0].1, armed));
    }
  }

  /** A state of one sub-reactor and one connection. */
  function One(mode: Mode, tasks: seq<Fd>, cur: Option<Fd>, pending: seq<Fd>, at: Point, place: Place): State {
    State([Thread(mode, [], [], tasks, [], cur, pending, [], [])], [[]],
          [FdEvent(Some(0), {}, false)], [at], [true], [place])
  }

  /** A server's first connection is handed to its one sub-reactor, which finds nothing else to do. */
  lemma FirstAccepted() returns (run: Run)
    ensures InRange(Initial(1, 1)) && Legal(Initial(1, 1), run)
    ensures After(Initial(1, 1), run) == One(Batch(false), [], None, [0], Body, Posted(0))
  {
    var s := Initial(1, 1);
    run := [];
    var idle := Thread(Top, [], [], [], [], None, [], [], []);
    assert s.threads == [idle] && s.queues == [[]] && s.ev == [FdEvent(None, {}, false)] && s.at == [Ended];
    assert [] + [0] == [0 as Fd];
    assert Legal(s, run) && After(s, run) == s;
    hide Legal, After, ArmedBy;
    run := Go(s, run, 0, Accept(0), One(Top, [], None, [0], Body, Posted(0)));
    run := Go(s, run, 0, Loop, One(Stealing(0), [], None, [0], Body, Posted(0)));
    run := Go(s, run, 0, Loop, One(Stealing(1), [], None, [0], Body, Posted(0)));
    run := Go(s, run, 0, Loop, One(Batch(false), [], None, [0], Body, Posted(0)));
  }

  /** Then its coroutine is started, and comes to its first wait. */
  lemma FirstStarted() returns (run: Run)
    ensures InRange(Initial(1, 1)) && Legal(Initial(1, 1), run)
    ensures After(Initial(1, 1), run) == One(RunTasks, [], Some(0), [], Body, Running(0))
  {
    hide Legal, After, ArmedBy, Initial;
    var s := Initial(1, 1);
    run := FirstAccepted();
    run := Go(s, run, 0, Loop, One(SwapTasks, [], None, [0], Body, Posted(0)));
    run := Go(s, run, 0, Loop, One(RunTasks, [0], None, [], Body, Posted(0)));
    assert [0 as Fd][1..] == [];
    run := Go(s, run, 0, Loop, One(RunTasks, [], Some(0), [], Body, Running(0)));
  }

  lemma Go(s: State, run: Run, t: Tid, a: Action, next: State) returns (run': Run)
    requires InRange(s) && Legal(s, run) && InRange(After(s, run)) && InRange(next)
    requires t < |After(s, run).threads| && Enabled(After(s, run), t, a) && Step(After(s, run), t, a) == next
    ensures Legal(s, run') && After(s, run') == next
    ensures ArmedBy(s, run', {}) == ArmedAfter(After(s, run), t, a, ArmedBy(s, run, {}))
  {
    hide Step, ArmedAfter, Enabled;
    RunSnoc(s, run, t, a, {});
    run' := run + [(t, a)];
  }

  /** A connection that waits on thread 0, is open, and is in no `fds_`. */
  predicate Stranded(s: State) {
    InRange(s) && WaitsOn(s, 0, 0) && forall th <- s.threads :: 0 !in th.fds
  }

  /** The first coroutine begins its first wait, its `epoll_ctl` succeeding or not. */
  lemma FirstWait(ok: bool) returns (run: Run)
    ensures InRange(Initial(1, 1)) && Legal(Initial(1, 1), run)
    ensures After(Initial(1, 1), run)
         == State([Thread(RunTasks, if ok then [0] else [], [], [], [], None, [], [], [])], [[]],
                  [FdEvent(Some(0), {READ}, true)], [Armed(READ)], [true], [Waiting(0)])
    ensures !ok ==> 0 !in ArmedBy(Initial(1, 1), run, {})
  {
    hide Legal, After, ArmedBy, Initial;
    var s0 := Initial(1, 1);
    run := FirstStarted();
    var s := After(s0, run);
    var fds := if ok then [0] else [];
    ArmInLoopThread(s, 0, READ, ok);
    var th := s.threads[0].(fds := fds);
    var s1 := s.(threads := [th], ev := [FdEvent(Some(0), {READ}, true)], at := [Armed(READ)]);
    assert AddInLoop(s.threads[0].fds, 0, ok) == fds;
    hide ArmStep;
    run := Go(s0, run, 0, Arm(READ, ok), s1);
    run := Go(s0, run, 0, Yield, s1.(threads := [th.(cur := None)], place := [Waiting(0)]));
  }

  /** The registration that begins the wait fails: the coroutine yields all the same, registered nowhere. */
  lemma FailedRegistrationStrands() returns (run: Run)
    ensures InRange(Initial(1, 1)) && Legal(Initial(1, 1), run)
    ensures Stranded(After(Initial(1, 1), run)) && 0 !in ArmedBy(Initial(1, 1), run, {})
  {
    hide Legal, After, ArmedBy;
    run := FirstWait(false);
  }

  /** An error event is handled for a registered wait: the descriptor is unregistered, the coroutine not resumed. */
  lemma ErrorEventStrands() returns (run: Run)
    ensures InRange(Initial(1, 1)) && Legal(Initial(1, 1), run)
    ensures Stranded(After(Initial(1, 1), run)) && 0 !in ArmedBy(Initial(1, 1), run, {})
  {
    hide Legal, After, ArmedBy;
    var s0 := Initial(1, 1);
    run := FirstWait(true);
    var s := After(s0, run);
    var th := s.threads[0];
    run := Go(s0, run, 0, Loop, s.(threads := [th.(mode := EpollWait)]));
    run := Go(s0, run, 0, Poll([0]), s.(threads := [th.(mode := Events, events := [0])]));
    assert [0 as Fd][1..] == [] && Without([0], 0) == [];
    run := Go(s0, run, 0, Handle(false), s.(threads := [th.(mode := Events, fds := [])]));
  }
}
