/**
 The hand-off of connections between sub-reactors.

 Every sub-reactor thread runs the loop of `Reactor::Loop`; a connection's coroutine registers its fd
 with the reactor of the thread it runs on and yields; the reactor that sees the event unregisters
 the fd and queues its `FdEvent`; any thread may pop or steal it and resume the coroutine. A step of
 the machine below is one locked section, one system call, or one stretch of code that touches only
 the acting thread's own data, so a run is any interleaving of the threads.
 */
module ReactorProtocol {
  import opened Common

  type Fd = nat
  type Tid = nat

  datatype IOEvent = READ | WRITE

  const BATCH := 16       // tasks popped or stolen at a time
  const MAX_EVENTS := 10  // events taken from one epoll_wait

  /** `reactor_`, `listen_events_`, and whether `cor_` is set. */
  datatype FdEvent = FdEvent(reactor: Option<Tid>, listen: set<IOEvent>, cor: bool)

  /** Where a connection's coroutine stands in its own code. */
  datatype Point =
    | Body                 // between two waits
    | Armed(dir: IOEvent)  // toEpoll has returned; at the Yield of the hook
    | Woken(dir: IOEvent)  // the Yield has returned
    | Ended                // ClearClient has run; never resumed again

  /** Where a reactor's loop stands. */
  datatype Mode =
    | Top
    | Stealing(next: nat)
    | Popping
    | Batch(own: bool)
    | SwapTasks
    | RunTasks
    | EpollWait
    | Events
    | Pushing
    | ApplyPending

  datatype Thread = Thread(
    mode: Mode,
    fds: seq<Fd>,         // fds_
    hand: seq<Fd>,        // tasks popped or stolen, or the one about to be pushed
    tasks: seq<Fd>,       // pending_tasks_ after the swap: first resumes of new coroutines
    events: seq<Fd>,      // events of the last epoll_wait still to be handled
    cur: Option<Fd>,      // the connection whose coroutine runs here
    pending: seq<Fd>,     // pending_tasks_
    pendingAdd: seq<Fd>,  // pending_add_fds_
    pendingDel: seq<Fd>)  // pending_del_fds_

  /** Auxiliary: who answers for a connection. No step's guard or effect on other fields reads it. */
  datatype Place =
    | Nowhere             // not open
    | Posted(t: Tid)
    | Running(t: Tid)
    | Waiting(t: Tid)
    | Queued(q: Tid)
    | InHand(t: Tid)

  datatype State = State(
    threads: seq<Thread>,
    queues: seq<seq<Fd>>,  // CoroutineTaskQueue::tasks_
    ev: seq<FdEvent>,      // FdEventContainer::fds_
    at: seq<Point>,
    open: seq<bool>,
    place: seq<Place>)

  // ---- sequences without repetition -----------------------------------------------------------

  ghost predicate Distinct(s: seq<Fd>) {
    forall i, j :: 0 <= i < j < |s| ==> s[i] != s[j]
  }

  /** `fds_.erase(find(...))`. */
  function Without(s: seq<Fd>, f: Fd): (r: seq<Fd>) {
    if s == [] then [] else if s[0] == f then s[1..] else [s[0]] + Without(s[1..], f)
  }

  lemma {:induction false} WithoutRemoves(s: seq<Fd>, f: Fd)
    requires Distinct(s)
    ensures Distinct(Without(s, f))
    ensures forall x :: x in Without(s, f) <==> x in s && x != f
  {
    if s != [] {
      assert forall x :: x in s <==> x == s[0] || x in s[1..];
      if s[0] == f {
        assert f !in s[1..];
      } else {
        WithoutRemoves(s[1..], f);
        assert s[0] !in s[1..];
      }
    }
  }

  lemma DistinctSnoc(s: seq<Fd>, f: Fd)
    requires Distinct(s) && f !in s
    ensures Distinct(s + [f])
  {
  }

  // ---- the steps --------------------------------------------------------------------------------

  datatype Action =
    | Accept(f: Fd)              // main thread: new connection handed to this sub-reactor
    | Loop                       // the loop's next move that needs no choice
    | Poll(ready: seq<Fd>)       // epoll_wait returns these
    | PollFails
    | Handle(readable: bool)     // next event; `readable` when it has EPOLLIN or EPOLLOUT
    | Arm(dir: IOEvent, ok: bool)// coroutine: toEpoll; `ok` when epoll_ctl succeeds
    | Yield
    | Disarm(ok: bool)           // coroutine: after the Yield of the hook
    | Close                      // coroutine: ClearClient, then the last Yield
    | Apply(adds: Fd -> bool)    // end of a loop turn: the deferred changes; `adds` says whose epoll_ctl succeeds

  predicate InRange(s: State) {
    && |s.queues| == |s.threads|
    && |s.ev| == |s.at| == |s.open| == |s.place|
    && forall t :: 0 <= t < |s.threads| ==> s.threads[t].cur.Some? ==> s.threads[t].cur.value < |s.ev|
  }

  predicate LoopEnabled(s: State, t: Tid)
    requires InRange(s) && t < |s.threads|
  {
    var th := s.threads[t];
    th.cur.None? &&
    match th.mode
    case Top => true
    case Stealing(_) => true
    case Popping => true
    case Batch(_) => th.hand != [] ==> th.hand[0] < |s.ev|
    case SwapTasks => true
    case RunTasks => th.tasks != [] ==> th.tasks[0] < |s.ev|
    case Events => th.events == []
    case Pushing => th.hand != [] && th.hand[0] < |s.ev|
    case ApplyPending => false
    case EpollWait => false
  }

  predicate Enabled(s: State, t: Tid, a: Action)
    requires InRange(s) && t < |s.threads|
  {
    var th := s.threads[t];
    match a
    case Accept(f) => f < |s.ev| && !s.open[f]
    case Loop => LoopEnabled(s, t)
    case Poll(ready) =>
      && th.cur.None? && th.mode.EpollWait? && |ready| <= MAX_EVENTS
      && (forall i :: 0 <= i < |ready| ==> ready[i] in th.fds && ready[i] < |s.ev|)
      && (forall i, j :: 0 <= i < j < |ready| ==> ready[i] != ready[j])
    case PollFails => th.cur.None? && th.mode.EpollWait?
    case Handle(_) => th.cur.None? && th.mode.Events? && th.events != [] && th.events[0] < |s.ev|
    case Arm(_, _) => th.cur.Some? && s.at[th.cur.value].Body?
    case Yield => th.cur.Some? && s.at[th.cur.value].Armed?
    case Disarm(_) => th.cur.Some? && s.at[th.cur.value].Woken?
    case Close => th.cur.Some? && s.at[th.cur.value].Body?
    case Apply(_) => th.cur.None? && th.mode.ApplyPending?
  }

  /** Thread `t` takes the first `k` tasks of queue `q` into its hand. */
  function TakeFrom(s: State, t: Tid, q: Tid, k: nat, mode: Mode): State
    requires InRange(s) && t < |s.threads| && q < |s.queues| && k <= |s.queues[q]|
  {
    var got := s.queues[q][..k];
    s.(queues := s.queues[q := s.queues[q][k..]],
       threads := s.threads[t := s.threads[t].(mode := mode, hand := s.threads[t].hand + got)],
       place := seq(|s.place|, f requires 0 <= f < |s.place| => if f in got then InHand(t) else s.place[f]))
  }

  function SetMode(s: State, t: Tid, mode: Mode): State
    requires t < |s.threads|
  {
    s.(threads := s.threads[t := s.threads[t].(mode := mode)])
  }

  /** `SetReactor(this)` and `Resume` for the next task in hand. */
  function ResumeNext(s: State, t: Tid): State
    requires InRange(s) && t < |s.threads|
    requires s.threads[t].hand != [] && s.threads[t].hand[0] < |s.ev|
  {
    var th := s.threads[t];
    var f := th.hand[0];
    s.(threads := s.threads[t := th.(hand := th.hand[1..], cur := Some(f))],
       ev := s.ev[f := s.ev[f].(reactor := Some(t))],
       at := s.at[f := if s.at[f].Armed? then Woken(s.at[f].dir) else s.at[f]],
       place := s.place[f := Running(t)])
  }

  function StartTask(s: State, t: Tid): State
    requires InRange(s) && t < |s.threads|
    requires s.threads[t].tasks != [] && s.threads[t].tasks[0] < |s.ev|
  {
    var th := s.threads[t];
    var f := th.tasks[0];
    s.(threads := s.threads[t := th.(tasks := th.tasks[1..], cur := Some(f))],
       place := s.place[f := Running(t)])
  }

  /** `Push` of the detached event on the thread's own queue. */
  function PushHand(s: State, t: Tid): State
    requires InRange(s) && t < |s.threads|
    requires s.threads[t].hand != [] && s.threads[t].hand[0] < |s.ev|
  {
    var th := s.threads[t];
    var f := th.hand[0];
    s.(threads := s.threads[t := th.(mode := Events, hand := th.hand[1..])],
       queues := s.queues[t := s.queues[t] + [f]],
       place := s.place[f := Queued(t)])
  }

  /** `epoll_ctl` by the thread itself: add unless there or failing. */
  function AddInLoop(fds: seq<Fd>, f: Fd, ok: bool): seq<Fd> {
    if f in fds || !ok then fds else fds + [f]
  }

  function AddAll(fds: seq<Fd>, add: seq<Fd>, ok: Fd -> bool): seq<Fd>
    decreases |add|
  {
    if add == [] then fds else AddAll(AddInLoop(fds, add[0], ok(add[0])), add[1..], ok)
  }

  function DelAll(fds: seq<Fd>, del: seq<Fd>): seq<Fd>
    decreases |del|
  {
    if del == [] then fds else DelAll(Without(fds, del[0]), del[1..])
  }

  function LoopStep(s: State, t: Tid): State
    requires InRange(s) && t < |s.threads| && LoopEnabled(s, t)
  {
    var th := s.threads[t];
    match th.mode
    case Top => SetMode(s, t, if s.queues[t] == [] then Stealing(0) else Popping)
    case Stealing(i) =>
      if i >= |s.queues| || |th.hand| >= BATCH then SetMode(s, t, Batch(false))
      else if i == t then SetMode(s, t, Stealing(i + 1))
      else TakeFrom(s, t, i, Min(|s.queues[i]|, BATCH - |th.hand|), Stealing(i + 1))
    case Popping =>
      if s.queues[t] == [] then SetMode(s, t, SwapTasks)
      else TakeFrom(s, t, t, Min(|s.queues[t]|, BATCH), Batch(true))
    case Batch(own) =>
      if th.hand == [] then SetMode(s, t, if own then Popping else SwapTasks)
      else ResumeNext(s, t)
    case SwapTasks =>
      s.(threads := s.threads[t := th.(mode := RunTasks, tasks := th.pending, pending := [])])
    case RunTasks =>
      if th.tasks == [] then SetMode(s, t, EpollWait) else StartTask(s, t)
    case Events => SetMode(s, t, ApplyPending)
    case Pushing => PushHand(s, t)
    case ApplyPending => s
    case EpollWait => s
  }

  /** The reactor an `FdEvent` uses when touched on thread `t`: its own, or the thread's if it has none. */
  function ReactorOf(e: FdEvent, t: Tid): Tid {
    if e.reactor.None? then t else e.reactor.value
  }

  /** `UpdateToReactor` on thread `t`: the in-loop-thread path if the reactor is the thread's own. */
  function UpdateToReactor(s: State, t: Tid, f: Fd, ok: bool): State
    requires InRange(s) && t < |s.threads| && f < |s.ev|
  {
    var r := ReactorOf(s.ev[f], t);
    var s1 := s.(ev := s.ev[f := s.ev[f].(reactor := Some(r))]);
    if r == t then
      if f in s.threads[t].fds || !ok then s1
      else s1.(threads := s.threads[t := s.threads[t].(fds := s.threads[t].fds + [f])])
    else if r < |s.threads| then
      s1.(threads := s.threads[r := s.threads[r].(pendingAdd := AddInLoop(s.threads[r].pendingAdd, f, true))])
    else s1
  }

  /** `DelEvent` on thread `t`. */
  function DelEvent(s: State, t: Tid, f: Fd): State
    requires InRange(s) && t < |s.threads| && f < |s.ev|
  {
    var r := ReactorOf(s.ev[f], t);
    var s1 := s.(ev := s.ev[f := s.ev[f].(reactor := Some(r))]);
    if r == t then
      s1.(threads := s.threads[t := s.threads[t].(fds := Without(s.threads[t].fds, f))])
    else if r < |s.threads| then
      s1.(threads := s.threads[r := s.threads[r].(pendingDel := s.threads[r].pendingDel + [f])])
    else s1
  }

  function HandleStep(s: State, t: Tid, readable: bool): State
    requires InRange(s) && t < |s.threads| && Enabled(s, t, Handle(readable))
  {
    var th := s.threads[t];
    var f := th.events[0];
    var rest := th.(events := th.events[1..]);
    if !readable then
      s.(threads := s.threads[t := rest.(fds := Without(th.fds, f))])
    else if s.ev[f].cor then
      s.(threads := s.threads[t := rest.(fds := Without(th.fds, f), mode := Pushing, hand := th.hand + [f])],
         ev := s.ev[f := s.ev[f].(reactor := None)],
         place := s.place[f := InHand(t)])
    else
      s.(threads := s.threads[t := rest])  // its callbacks are null, so nothing runs
  }

  function ArmStep(s: State, t: Tid, f: Fd, dir: IOEvent, ok: bool): State
    requires InRange(s) && t < |s.threads| && f < |s.ev|
  {
    var e := s.ev[f].(reactor := Some(ReactorOf(s.ev[f], t)), cor := true);
    var s1 := s.(ev := s.ev[f := e], at := s.at[f := Armed(dir)]);
    if dir in e.listen then s1
    else UpdateToReactor(s1.(ev := s1.ev[f := e.(listen := e.listen + {dir})]), t, f, ok)
  }

  function DisarmStep(s: State, t: Tid, f: Fd, dir: IOEvent, ok: bool): State
    requires InRange(s) && t < |s.threads| && f < |s.ev|
  {
    var e := s.ev[f];
    var s1 := s.(at := s.at[f := Body]);
    var s2 := if dir in e.listen
              then UpdateToReactor(s1.(ev := s1.ev[f := e.(listen := e.listen - {dir})]), t, f, ok)
              else s1;
    s2.(ev := s2.ev[f := s2.ev[f].(cor := false)])
  }

  function CloseStep(s: State, t: Tid, f: Fd): State
    requires InRange(s) && t < |s.threads| && f < |s.ev|
  {
    var s1 := DelEvent(s, t, f);
    s1.(ev := s1.ev[f := s1.ev[f].(listen := {})],
        threads := s1.threads[t := s1.threads[t].(cur := None)],
        at := s1.at[f := Ended], open := s1.open[f := false], place := s1.place[f := Nowhere])
  }

  /** The additions asked for by other threads, then the removals. */
  function ApplyStep(s: State, t: Tid, ok: Fd -> bool): State
    requires t < |s.threads|
  {
    var th := s.threads[t];
    s.(threads := s.threads[t := th.(mode := Top,
                                     fds := DelAll(AddAll(th.fds, th.pendingAdd, ok), th.pendingDel),
                                     pendingAdd := [], pendingDel := [])])
  }

  function Step(s: State, t: Tid, a: Action): State
    requires InRange(s) && t < |s.threads| && Enabled(s, t, a)
  {
    var th := s.threads[t];
    match a
    case Accept(f) =>
      s.(threads := s.threads[t := th.(pending := th.pending + [f])],
         ev := s.ev[f := s.ev[f].(reactor := Some(t))],
         at := s.at[f := Body], open := s.open[f := true], place := s.place[f := Posted(t)])
    case Loop => LoopStep(s, t)
    case Poll(ready) => s.(threads := s.threads[t := th.(mode := Events, events := ready)])
    case PollFails => SetMode(s, t, Top)
    case Handle(readable) => HandleStep(s, t, readable)
    case Arm(dir, ok) => ArmStep(s, t, th.cur.value, dir, ok)
    case Yield =>
      s.(threads := s.threads[t := th.(cur := None)], place := s.place[th.cur.value := Waiting(t)])
    case Disarm(ok) => DisarmStep(s, t, th.cur.value, s.at[th.cur.value].dir, ok)
    case Close => CloseStep(s, t, th.cur.value)
    case Apply(ok) => ApplyStep(s, t, ok)
  }

  // ---- the invariant ------------------------------------------------------------------------------

  ghost predicate AllAt(fs: seq<Fd>, s: State, p: Place) {
    forall i :: 0 <= i < |fs| ==> fs[i] < |s.place| && s.place[fs[i]] == p
  }

  ghost predicate QueueOk(s: State, q: Tid)
    requires q < |s.queues|
  {
    Distinct(s.queues[q]) && AllAt(s.queues[q], s, Queued(q))
  }

  ghost predicate ThreadOk(s: State, t: Tid)
    requires t < |s.threads|
  {
    var th := s.threads[t];
    && Distinct(th.hand) && AllAt(th.hand, s, InHand(t))
    && Distinct(th.tasks + th.pending) && AllAt(th.tasks + th.pending, s, Posted(t))
    && Distinct(th.fds)
    && (forall f <- th.fds :: f < |s.place| && s.place[f] in {Running(t), Waiting(t)})
    && Distinct(th.events) && AllAt(th.events, s, Waiting(t))
    && (th.cur.Some? ==>
          && th.cur.value < |s.place| && s.place[th.cur.value] == Running(t)
          && th.mode in {Batch(true), Batch(false), RunTasks})
    && th.pendingAdd == [] && th.pendingDel == []
    && (th.hand != [] ==> th.mode.Stealing? || th.mode.Batch? || th.mode.Pushing?)
    && (th.mode.Pushing? ==> |th.hand| == 1)
    && |th.hand| <= BATCH
    && (th.events != [] ==> th.mode.Events? || th.mode.Pushing?)
    && (th.tasks != [] ==> th.mode.RunTasks?)
  }

  ghost predicate FdOk(s: State, f: Fd)
    requires InRange(s) && f < |s.ev|
  {
    var e := s.ev[f];
    match s.place[f]
    case Nowhere => !s.open[f] && !e.cor && e.listen == {}
    case Posted(t) =>
      && s.open[f] && t < |s.threads| && f in s.threads[t].tasks + s.threads[t].pending
      && e == FdEvent(Some(t), {}, false) && s.at[f] == Body
    case Running(t) =>
      && s.open[f] && t < |s.threads| && s.threads[t].cur == Some(f)
      && e.reactor == Some(t) && !s.at[f].Ended? && e.cor == !s.at[f].Body?
      && e.listen == (if s.at[f].Body? then {} else {s.at[f].dir})
    case Waiting(t) =>
      && s.open[f] && t < |s.threads|
      && s.at[f].Armed? && e == FdEvent(Some(t), {s.at[f].dir}, true)
    case Queued(q) =>
      && s.open[f] && q < |s.queues| && f in s.queues[q]
      && s.at[f].Armed? && e == FdEvent(None, {s.at[f].dir}, true)
    case InHand(t) =>
      && s.open[f] && t < |s.threads| && f in s.threads[t].hand
      && s.at[f].Armed? && e == FdEvent(None, {s.at[f].dir}, true)
  }

  ghost predicate Inv(s: State) {
    && InRange(s)
    && (forall q :: 0 <= q < |s.queues| ==> QueueOk(s, q))
    && (forall t :: 0 <= t < |s.threads| ==> ThreadOk(s, t))
    && (forall f :: 0 <= f < |s.ev| ==> FdOk(s, f))
  }

  /** `n` threads about to enter their loops, `m` fds, nothing open. */
  function Initial(n: nat, m: nat): State {
    State(seq(n, _ => Thread(Top, [], [], [], [], None, [], [], [])),
          seq(n, _ => []),
          seq(m, _ => FdEvent(None, {}, false)),
          seq(m, _ => Ended),
          seq(m, _ => false),
          seq(m, _ => Nowhere))
  }

  lemma InitialInv(n: nat, m: nat)
    ensures Inv(Initial(n, m))
  {
  }

  // ---- every step keeps the invariant -----------------------------------------------------------------

  predicate OwnedBy(p: Place, t: Tid) {
    p in {Posted(t), Running(t), Waiting(t), InHand(t)}
  }

  /** A place that thread `t`, working on queue `q`, may take a connection from or put it in. */
  predicate Local(p: Place, t: Tid, q: Tid) {
    OwnedBy(p, t) || p == Queued(q) || p == Nowhere
  }

  ghost predicate SameFd(s: State, s': State, f: Fd)
    requires InRange(s) && InRange(s') && |s.ev| == |s'.ev| && f < |s.ev|
  {
    s'.place[f] == s.place[f] && s'.ev[f] == s.ev[f] && s'.at[f] == s.at[f] && s'.open[f] == s.open[f]
  }

  /**
   A step of thread `t` on queue `q` touches nothing that another thread or queue answers for, so
   only what `t` and `q` answer for has to be looked at again.
   */
  lemma FrameStep(s: State, s': State, t: Tid, q: Tid)
    requires Inv(s) && InRange(s') && t < |s.threads| && q < |s.queues|
    requires |s'.threads| == |s.threads| && |s'.ev| == |s.ev|
    requires forall u :: 0 <= u < |s.threads| && u != t ==> s'.threads[u] == s.threads[u]
    requires forall r :: 0 <= r < |s.queues| && r != q ==> s'.queues[r] == s.queues[r]
    requires forall f :: 0 <= f < |s.ev| ==> SameFd(s, s', f) || Local(s.place[f], t, q)
    requires ThreadOk(s', t) && QueueOk(s', q)
    requires forall f :: 0 <= f < |s.ev| && Local(s.place[f], t, q) ==> FdOk(s', f)
    ensures Inv(s')
  {
    forall u | 0 <= u < |s.threads|
      ensures ThreadOk(s', u)
    {
      if u != t {
        OtherThread(s, s', t, q, u);
      }
    }
    forall r | 0 <= r < |s.queues|
      ensures QueueOk(s', r)
    {
      if r != q {
        OtherQueue(s, s', t, q, r);
      }
    }
    forall f | 0 <= f < |s.ev|
      ensures FdOk(s', f)
    {
      if !Local(s.place[f], t, q) {
        assert FdOk(s, f) && SameFd(s, s', f);
      }
    }
  }

  lemma OtherThread(s: State, s': State, t: Tid, q: Tid, u: Tid)
    requires Inv(s) && InRange(s') && t < |s.threads| && u < |s.threads| && u != t
    requires |s'.threads| == |s.threads| && |s'.ev| == |s.ev|
    requires s'.threads[u] == s.threads[u]
    requires forall f :: 0 <= f < |s.ev| ==> SameFd(s, s', f) || Local(s.place[f], t, q)
    ensures ThreadOk(s', u)
  {
    assert ThreadOk(s, u);
    forall f | 0 <= f < |s.ev| && OwnedBy(s.place[f], u)
      ensures s'.place[f] == s.place[f]
    {
      assert SameFd(s, s', f);
    }
  }

  lemma OtherQueue(s: State, s': State, t: Tid, q: Tid, r: Tid)
    requires Inv(s) && InRange(s') && r < |s.queues| && r != q
    requires |s'.queues| == |s.queues| && |s'.ev| == |s.ev|
    requires s'.queues[r] == s.queues[r]
    requires forall f :: 0 <= f < |s.ev| ==> SameFd(s, s', f) || Local(s.place[f], t, q)
    ensures QueueOk(s', r)
  {
    assert QueueOk(s, r);
    forall f | 0 <= f < |s.ev| && s.place[f] == Queued(r)
      ensures s'.place[f] == Queued(r)
    {
      assert SameFd(s, s', f);
    }
  }

  /** The loop's moves between places where it holds nothing new. */
  lemma SetModeKeeps(s: State, t: Tid, mode: Mode)
    requires Inv(s) && t < |s.threads|
    requires var th := s.threads[t];
             && th.cur.None? && !mode.Pushing?
             && (th.hand != [] ==> mode.Stealing? || mode.Batch?)
             && (th.events != [] ==> mode.Events?)
             && (th.tasks != [] ==> mode.RunTasks?)
    ensures Inv(SetMode(s, t, mode))
  {
    var s' := SetMode(s, t, mode);
    assert ThreadOk(s, t) && QueueOk(s, t);
    forall f | 0 <= f < |s.ev|
      ensures FdOk(s', f)
    {
      assert FdOk(s, f);
    }
    FrameStep(s, s', t, t);
  }

  /** The tasks taken from a queue and the ones left are all queued there, and apart. */
  lemma TakenSplits(s: State, q: Tid, k: nat)
    requires Inv(s) && q < |s.queues| && k <= |s.queues[q]|
    ensures var got, left := s.queues[q][..k], s.queues[q][k..];
            && Distinct(got) && Distinct(left)
            && AllAt(got, s, Queued(q)) && AllAt(left, s, Queued(q))
            && (forall f :: f in left ==> f !in got)
            && (forall f :: f in s.queues[q] <==> f in got || f in left)
  {
    assert QueueOk(s, q);
    assert s.queues[q] == s.queues[q][..k] + s.queues[q][k..];
  }

  lemma TakerIsOk(s: State, t: Tid, q: Tid, k: nat, mode: Mode)
    requires Inv(s) && t < |s.threads| && q < |s.queues| && k <= |s.queues[q]|
    requires s.threads[t].cur.None? && (mode.Stealing? || mode.Batch?)
    requires s.threads[t].events == [] && s.threads[t].tasks == [] && |s.threads[t].hand| + k <= BATCH
    ensures ThreadOk(TakeFrom(s, t, q, k, mode), t)
  {
    TakenSplits(s, q, k);
    assert ThreadOk(s, t);
  }

  lemma TakeKeeps(s: State, t: Tid, q: Tid, k: nat, mode: Mode)
    requires Inv(s) && t < |s.threads| && q < |s.queues| && k <= |s.queues[q]|
    requires s.threads[t].cur.None? && (mode.Stealing? || mode.Batch?)
    requires s.threads[t].events == [] && s.threads[t].tasks == [] && |s.threads[t].hand| + k <= BATCH
    ensures Inv(TakeFrom(s, t, q, k, mode))
  {
    var s' := TakeFrom(s, t, q, k, mode);
    TakenSplits(s, q, k);
    TakerIsOk(s, t, q, k, mode);
    assert QueueOk(s', q);
    forall f | 0 <= f < |s.ev|
      ensures FdOk(s', f)
    {
      assert FdOk(s, f);
    }
    FrameStep(s, s', t, q);
  }

  lemma ResumeKeeps(s: State, t: Tid)
    requires Inv(s) && t < |s.threads| && s.threads[t].mode.Batch? && s.threads[t].cur.None?
    requires s.threads[t].hand != [] && s.threads[t].hand[0] < |s.ev|
    ensures Inv(ResumeNext(s, t))
  {
    var s' := ResumeNext(s, t);
    assert ThreadOk(s, t) && QueueOk(s, t);
    assert ThreadOk(s', t);
    forall f | 0 <= f < |s.ev|
      ensures FdOk(s', f)
    {
      assert FdOk(s, f);
    }
    FrameStep(s, s', t, t);
  }

  lemma StartKeeps(s: State, t: Tid)
    requires Inv(s) && t < |s.threads| && s.threads[t].mode.RunTasks? && s.threads[t].cur.None?
    requires s.threads[t].tasks != [] && s.threads[t].tasks[0] < |s.ev|
    ensures Inv(StartTask(s, t))
  {
    var s' := StartTask(s, t);
    var th := s.threads[t];
    assert ThreadOk(s, t) && QueueOk(s, t);
    var posted := th.tasks + th.pending;
    assert posted[0] == th.tasks[0];
    assert forall i :: 0 <= i < |posted| - 1 ==> (th.tasks[1..] + th.pending)[i] == posted[i + 1];
    assert ThreadOk(s', t);
    forall f | 0 <= f < |s.ev|
      ensures FdOk(s', f)
    {
      assert FdOk(s, f);
    }
    FrameStep(s, s', t, t);
  }

  lemma PushKeeps(s: State, t: Tid)
    requires Inv(s) && t < |s.threads| && s.threads[t].mode.Pushing? && s.threads[t].cur.None?
    requires s.threads[t].hand != [] && s.threads[t].hand[0] < |s.ev|
    ensures Inv(PushHand(s, t))
  {
    var s' := PushHand(s, t);
    assert ThreadOk(s, t) && QueueOk(s, t);
    assert ThreadOk(s', t);
    assert QueueOk(s', t);
    forall f | 0 <= f < |s.ev|
      ensures FdOk(s', f)
    {
      assert FdOk(s, f);
    }
    FrameStep(s, s', t, t);
  }

  lemma SwapKeeps(s: State, t: Tid)
    requires Inv(s) && t < |s.threads| && s.threads[t].mode.SwapTasks? && s.threads[t].cur.None?
    ensures Inv(LoopStep(s, t))
  {
    var s' := LoopStep(s, t);
    var th := s.threads[t];
    assert ThreadOk(s, t) && QueueOk(s, t);
    assert th.tasks + th.pending == th.pending == s'.threads[t].tasks + s'.threads[t].pending;
    forall f | 0 <= f < |s.ev|
      ensures FdOk(s', f)
    {
      assert FdOk(s, f);
    }
    FrameStep(s, s', t, t);
  }

  lemma AcceptKeeps(s: State, t: Tid, f: Fd)
    requires Inv(s) && t < |s.threads| && f < |s.ev| && !s.open[f]
    ensures Inv(Step(s, t, Accept(f)))
  {
    var s' := Step(s, t, Accept(f));
    var th := s.threads[t];
    assert ThreadOk(s, t) && QueueOk(s, t) && FdOk(s, f);
    assert f !in th.tasks + th.pending;
    DistinctSnoc(th.tasks + th.pending, f);
    assert s'.threads[t].tasks + s'.threads[t].pending == (th.tasks + th.pending) + [f];
    assert ThreadOk(s', t);
    forall g | 0 <= g < |s.ev|
      ensures FdOk(s', g)
    {
      assert FdOk(s, g);
    }
    FrameStep(s, s', t, t);
  }

  lemma PollKeeps(s: State, t: Tid, ready: seq<Fd>)
    requires Inv(s) && t < |s.threads| && Enabled(s, t, Poll(ready))
    ensures Inv(Step(s, t, Poll(ready)))
  {
    var s' := Step(s, t, Poll(ready));
    assert ThreadOk(s, t) && QueueOk(s, t);
    forall i | 0 <= i < |ready|
      ensures s.place[ready[i]] == Waiting(t)
    {
      assert FdOk(s, ready[i]);
    }
    assert ThreadOk(s', t);
    forall f | 0 <= f < |s.ev|
      ensures FdOk(s', f)
    {
      assert FdOk(s, f);
    }
    FrameStep(s, s', t, t);
  }

  /** An event without EPOLLIN or EPOLLOUT: the fd is unregistered and nothing else happens. */
  lemma HandleErrorKeeps(s: State, t: Tid)
    requires Inv(s) && t < |s.threads| && Enabled(s, t, Handle(false))
    ensures Inv(Step(s, t, Handle(false)))
  {
    var s' := Step(s, t, Handle(false));
    var th := s.threads[t];
    assert ThreadOk(s, t) && QueueOk(s, t);
    WithoutRemoves(th.fds, th.events[0]);
    assert ThreadOk(s', t);
    forall f | 0 <= f < |s.ev|
      ensures FdOk(s', f)
    {
      assert FdOk(s, f);
    }
    FrameStep(s, s', t, t);
  }

  /** An event for a waiting coroutine: its fd leaves this reactor, its `FdEvent` is in hand. */
  lemma HandleReadyKeeps(s: State, t: Tid)
    requires Inv(s) && t < |s.threads| && Enabled(s, t, Handle(true))
    ensures Inv(Step(s, t, Handle(true)))
  {
    var th := s.threads[t];
    var e := th.events[0];
    assert ThreadOk(s, t) && QueueOk(s, t);
    assert FdOk(s, e) && s.ev[e].cor;
    WithoutRemoves(th.fds, e);
    var s' := Step(s, t, Handle(true));
    assert s'.threads[t] == th.(events := th.events[1..], fds := Without(th.fds, e), mode := Pushing, hand := [e]);
    assert ThreadOk(s', t);
    hide Step, HandleStep, Without;
    forall f | 0 <= f < |s.ev|
      ensures FdOk(s', f)
    {
      assert FdOk(s, f);
    }
    FrameStep(s, s', t, t);
  }

  lemma ArmInLoopThread(s: State, t: Tid, dir: IOEvent, ok: bool)
    requires InRange(s) && t < |s.threads| && Enabled(s, t, Arm(dir, ok))
    requires var f := s.threads[t].cur.value; s.ev[f] == FdEvent(Some(t), {}, false)
    ensures Step(s, t, Arm(dir, ok))
         == var th, f := s.threads[t], s.threads[t].cur.value;
            s.(threads := s.threads[t := th.(fds := AddInLoop(th.fds, f, ok))],
               ev := s.ev[f := FdEvent(Some(t), {dir}, true)],
               at := s.at[f := Armed(dir)])
  {
    var f := s.threads[t].cur.value;
    var s1 := s.(ev := s.ev[f := FdEvent(Some(t), {dir}, true)], at := s.at[f := Armed(dir)]);
    assert s.ev[f].listen + {dir} == {dir};
    assert Step(s, t, Arm(dir, ok)) == UpdateToReactor(s1, t, f, ok);
    assert s.threads[t := s.threads[t].(fds := s.threads[t].fds)] == s.threads;
    assert s1.ev[f := s1.ev[f]] == s1.ev;
  }

  lemma DisarmInLoopThread(s: State, t: Tid, ok: bool)
    requires InRange(s) && t < |s.threads| && Enabled(s, t, Disarm(ok))
    requires var f := s.threads[t].cur.value; s.ev[f] == FdEvent(Some(t), {s.at[f].dir}, true)
    ensures Step(s, t, Disarm(ok))
         == var th, f := s.threads[t], s.threads[t].cur.value;
            s.(threads := s.threads[t := th.(fds := AddInLoop(th.fds, f, ok))],
               ev := s.ev[f := FdEvent(Some(t), {}, false)],
               at := s.at[f := Body])
  {
    var f := s.threads[t].cur.value;
    var dir := s.at[f].dir;
    var s1 := s.(ev := s.ev[f := FdEvent(Some(t), {}, true)], at := s.at[f := Body]);
    assert s.ev[f].listen - {dir} == {};
    var s2 := UpdateToReactor(s1, t, f, ok);
    assert Step(s, t, Disarm(ok)) == s2.(ev := s2.ev[f := s2.ev[f].(cor := false)]);
    assert s.threads[t := s.threads[t].(fds := s.threads[t].fds)] == s.threads;
    assert s1.ev[f := s1.ev[f]] == s1.ev;
    assert s1.ev[f := FdEvent(Some(t), {}, false)] == s.ev[f := FdEvent(Some(t), {}, false)];
  }

  /** A thread stays right when its running coroutine registers there, whatever else happens to that connection. */
  lemma RegisteringKeeps(s: State, s': State, t: Tid, ok: bool)
    requires Inv(s) && InRange(s') && t < |s.threads| == |s'.threads| && s.threads[t].cur.Some?
    requires s'.place == s.place && s'.queues == s.queues
    requires var th := s.threads[t]; s'.threads[t] == th.(fds := AddInLoop(th.fds, th.cur.value, ok))
    ensures ThreadOk(s, t) && ThreadOk(s', t) && QueueOk(s', t)
  {
    hide FdOk;
    assert ThreadOk(s, t) && QueueOk(s, t);
  }

  lemma ArmKeeps(s: State, t: Tid, dir: IOEvent, ok: bool)
    requires Inv(s) && t < |s.threads| && Enabled(s, t, Arm(dir, ok))
    ensures Inv(Step(s, t, Arm(dir, ok)))
  {
    hide Step, ThreadOk, QueueOk;
    var s' := Step(s, t, Arm(dir, ok));
    var f := s.threads[t].cur.value;
    CurrentRunsHere(s, t);
    ArmInLoopThread(s, t, dir, ok);
    RegisteringKeeps(s, s', t, ok);
    forall g | 0 <= g < |s.ev|
      ensures FdOk(s', g)
    {
      assert FdOk(s, g);
    }
    FrameStep(s, s', t, t);
  }

  lemma CurrentRunsHere(s: State, t: Tid)
    requires Inv(s) && t < |s.threads| && s.threads[t].cur.Some?
    ensures InRange(s) && s.place[s.threads[t].cur.value] == Running(t) && FdOk(s, s.threads[t].cur.value)
  {
    assert ThreadOk(s, t);
  }

  lemma YieldKeeps(s: State, t: Tid)
    requires Inv(s) && t < |s.threads| && Enabled(s, t, Yield)
    ensures Inv(Step(s, t, Yield))
  {
    var s' := Step(s, t, Yield);
    var f := s.threads[t].cur.value;
    assert ThreadOk(s, t) && QueueOk(s, t) && FdOk(s, f);
    assert ThreadOk(s', t);
    forall g | 0 <= g < |s.ev|
      ensures FdOk(s', g)
    {
      assert FdOk(s, g);
    }
    FrameStep(s, s', t, t);
  }

  lemma DisarmKeeps(s: State, t: Tid, ok: bool)
    requires Inv(s) && t < |s.threads| && Enabled(s, t, Disarm(ok))
    ensures Inv(Step(s, t, Disarm(ok)))
  {
    hide Step, ThreadOk, QueueOk;
    var s' := Step(s, t, Disarm(ok));
    CurrentRunsHere(s, t);
    DisarmInLoopThread(s, t, ok);
    RegisteringKeeps(s, s', t, ok);
    forall g | 0 <= g < |s.ev|
      ensures FdOk(s', g)
    {
      assert FdOk(s, g);
    }
    FrameStep(s, s', t, t);
  }

  lemma CloseKeeps(s: State, t: Tid)
    requires Inv(s) && t < |s.threads| && Enabled(s, t, Close)
    ensures Inv(Step(s, t, Close))
  {
    var s' := Step(s, t, Close);
    var f := s.threads[t].cur.value;
    assert ThreadOk(s, t) && QueueOk(s, t) && FdOk(s, f);
    WithoutRemoves(s.threads[t].fds, f);
    assert ThreadOk(s', t);
    forall g | 0 <= g < |s.ev|
      ensures FdOk(s', g)
    {
      assert FdOk(s, g);
    }
    FrameStep(s, s', t, t);
  }

  lemma ThreadIsOk(s: State, t: Tid)
    requires Inv(s) && t < |s.threads|
    ensures InRange(s) && ThreadOk(s, t)
  {
  }

  lemma LoopKeeps(s: State, t: Tid)
    requires Inv(s) && t < |s.threads| && LoopEnabled(s, t)
    ensures Inv(LoopStep(s, t))
  {
    hide Inv, FdOk;
    ThreadIsOk(s, t);
    var th := s.threads[t];
    match th.mode
    case Top => SetModeKeeps(s, t, if s.queues[t] == [] then Stealing(0) else Popping);
    case Stealing(i) =>
      if i >= |s.queues| || |th.hand| >= BATCH { SetModeKeeps(s, t, Batch(false)); }
      else if i == t { SetModeKeeps(s, t, Stealing(i + 1)); }
      else { TakeKeeps(s, t, i, Min(|s.queues[i]|, BATCH - |th.hand|), Stealing(i + 1)); }
    case Popping =>
      if s.queues[t] == [] { SetModeKeeps(s, t, SwapTasks); }
      else { TakeKeeps(s, t, t, Min(|s.queues[t]|, BATCH), Batch(true)); }
    case Batch(own) =>
      if th.hand == [] { SetModeKeeps(s, t, if own then Popping else SwapTasks); }
      else { ResumeKeeps(s, t); }
    case SwapTasks => SwapKeeps(s, t);
    case RunTasks =>
      if th.tasks == [] { SetModeKeeps(s, t, EpollWait); } else { StartKeeps(s, t); }
    case Events => SetModeKeeps(s, t, ApplyPending);
    case Pushing => PushKeeps(s, t);
  }

  lemma StepKeeps(s: State, t: Tid, a: Action)
    requires Inv(s) && t < |s.threads| && Enabled(s, t, a)
    ensures Inv(Step(s, t, a))
  {
    hide Inv, LoopStep, HandleStep, ArmStep, DisarmStep, CloseStep;
    ThreadIsOk(s, t);
    match a
    case Accept(f) => AcceptKeeps(s, t, f);
    case Loop => LoopKeeps(s, t);
    case Poll(ready) => PollKeeps(s, t, ready);
    case PollFails => SetModeKeeps(s, t, Top);
    case Handle(readable) => if readable { HandleReadyKeeps(s, t); } else { HandleErrorKeeps(s, t); }
    case Arm(dir, ok) => ArmKeeps(s, t, dir, ok);
    case Yield => YieldKeeps(s, t);
    case Disarm(ok) => DisarmKeeps(s, t, ok);
    case Close => CloseKeeps(s, t);
    case Apply(ok) => SetModeKeeps(s, t, Top);
  }

  lemma NextStepKeeps(s: State, t: Tid, a: Action)
    requires Inv(s) && t < |s.threads| && Enabled(s, t, a)
    ensures InRange(s) && InRange(Step(s, t, a)) && Inv(Step(s, t, a))
  {
    StepKeeps(s, t, a);
    ThreadIsOk(s, t);
    hide Step;
  }

  // ---- whole runs -----------------------------------------------------------------------------------

  /** An interleaving: which thread moves, and how. (That a step stays in range is no restriction: NextStepKeeps.) */
  type Run = seq<(Tid, Action)>

  predicate Legal(s: State, run: Run)
    requires InRange(s)
    decreases |run|
  {
    run == [] ||
    var (t, a) := run[0];
    && t < |s.threads| && Enabled(s, t, a)
    && InRange(Step(s, t, a)) && Legal(Step(s, t, a), run[1..])
  }

  function After(s: State, run: Run): State
    requires InRange(s) && Legal(s, run)
    decreases |run|
  {
    if run == [] then s else After(Step(s, run[0].0, run[0].1), run[1..])
  }

  lemma {:induction false} RunKeeps(s: State, run: Run)
    requires Inv(s) && Legal(s, run)
    ensures Inv(After(s, run))
    decreases |run|
  {
    if run != [] {
      NextStepKeeps(s, run[0].0, run[0].1);
      RunKeeps(Step(s, run[0].0, run[0].1), run[1..]);
    }
  }

  // ---- what the invariant says about the program's own data -------------------------------------------

  /** Every member of `a` is missing from `b`. */
  ghost predicate Apart(a: seq<Fd>, b: seq<Fd>) {
    forall f <- a :: f !in b
  }

  /** An fd is in the `fds_` of at most one reactor, once, and in none while it is queued or in a hand. */
  ghost predicate RegisteredOnce(s: State) {
    && (forall t :: 0 <= t < |s.threads| ==> Distinct(s.threads[t].fds))
    && (forall t, u :: 0 <= t < |s.threads| && 0 <= u < |s.threads| && t != u ==>
          Apart(s.threads[t].fds, s.threads[u].fds))
    && (forall q, t :: 0 <= q < |s.queues| && 0 <= t < |s.threads| ==> Apart(s.queues[q], s.threads[t].fds))
    && (forall t, u :: 0 <= t < |s.threads| && 0 <= u < |s.threads| ==> Apart(s.threads[t].hand, s.threads[u].fds))
  }

  /** An `FdEvent` occurs at most once over all the queues and hands. */
  ghost predicate QueuedOnce(s: State) {
    && (forall q :: 0 <= q < |s.queues| ==> Distinct(s.queues[q]))
    && (forall q, r :: 0 <= q < |s.queues| && 0 <= r < |s.queues| && q != r ==> Apart(s.queues[q], s.queues[r]))
    && (forall t :: 0 <= t < |s.threads| ==> Distinct(s.threads[t].hand))
    && (forall t, u :: 0 <= t < |s.threads| && 0 <= u < |s.threads| && t != u ==>
          Apart(s.threads[t].hand, s.threads[u].hand))
    && (forall q, t :: 0 <= q < |s.queues| && 0 <= t < |s.threads| ==> Apart(s.queues[q], s.threads[t].hand))
  }

  /** While a coroutine runs on a thread, it runs nowhere else, waits nowhere, and its reactor is the thread's. */
  ghost predicate RunsAtHome(s: State)
    requires InRange(s)
  {
    forall t :: 0 <= t < |s.threads| && s.threads[t].cur.Some? ==> AtHome(s, t, s.threads[t].cur.value)
  }

  ghost predicate AtHome(s: State, t: Tid, f: Fd)
    requires f < |s.ev|
  {
    && s.ev[f].reactor == Some(t)
    && (forall u :: 0 <= u < |s.threads| && u != t ==> s.threads[u].cur != Some(f) && f !in s.threads[u].fds)
    && (forall q :: 0 <= q < |s.queues| ==> f !in s.queues[q])
    && (forall u :: 0 <= u < |s.threads| ==> f !in s.threads[u].hand)
  }

  /** No connection's registration ever goes through the lists meant for other threads. */
  ghost predicate NothingDeferred(s: State) {
    forall t :: 0 <= t < |s.threads| ==> s.threads[t].pendingAdd == [] && s.threads[t].pendingDel == []
  }

  /**
   Every open connection is accounted for: its coroutine is about to start, running, at a wait it has
   not been woken from, queued or in a hand. (Whether such a wait can ever end: module `Wakeups`.)
   */
  ghost predicate Accounted(s: State)
    requires InRange(s)
  {
    forall f :: 0 <= f < |s.ev| && s.open[f] ==>
      || (exists t :: 0 <= t < |s.threads| && (f in s.threads[t].tasks || f in s.threads[t].pending))
      || (exists t :: 0 <= t < |s.threads| && s.threads[t].cur == Some(f))
      || (s.at[f].Armed? && s.ev[f].cor && s.ev[f].reactor.Some? && s.ev[f].listen == {s.at[f].dir})
      || (exists q :: 0 <= q < |s.queues| && f in s.queues[q])
      || (exists t :: 0 <= t < |s.threads| && f in s.threads[t].hand)
  }

  lemma InvRegisteredOnce(s: State)
    requires Inv(s)
    ensures RegisteredOnce(s) && NothingDeferred(s)
  {
    forall t | 0 <= t < |s.threads|
      ensures Distinct(s.threads[t].fds)
      ensures s.threads[t].pendingAdd == [] && s.threads[t].pendingDel == []
    {
      assert ThreadOk(s, t);
    }
    forall t, u | 0 <= t < |s.threads| && 0 <= u < |s.threads|
      ensures t != u ==> Apart(s.threads[t].fds, s.threads[u].fds)
      ensures Apart(s.threads[t].hand, s.threads[u].fds)
    {
      assert ThreadOk(s, t) && ThreadOk(s, u);
    }
    forall q, t | 0 <= q < |s.queues| && 0 <= t < |s.threads|
      ensures Apart(s.queues[q], s.threads[t].fds)
    {
      assert ThreadOk(s, t) && QueueOk(s, q);
    }
  }

  lemma InvQueuedOnce(s: State)
    requires Inv(s)
    ensures QueuedOnce(s)
  {
    forall t | 0 <= t < |s.threads|
      ensures Distinct(s.threads[t].hand)
    {
      assert ThreadOk(s, t);
    }
    forall q | 0 <= q < |s.queues|
      ensures Distinct(s.queues[q])
    {
      assert QueueOk(s, q);
    }
    forall t, u | 0 <= t < |s.threads| && 0 <= u < |s.threads| && t != u
      ensures Apart(s.threads[t].hand, s.threads[u].hand)
    {
      assert ThreadOk(s, t) && ThreadOk(s, u);
    }
    forall q, r | 0 <= q < |s.queues| && 0 <= r < |s.queues| && q != r
      ensures Apart(s.queues[q], s.queues[r])
    {
      assert QueueOk(s, q) && QueueOk(s, r);
    }
    forall q, t | 0 <= q < |s.queues| && 0 <= t < |s.threads|
      ensures Apart(s.queues[q], s.threads[t].hand)
    {
      assert ThreadOk(s, t) && QueueOk(s, q);
    }
  }

  lemma InvRunsAtHome(s: State)
    requires Inv(s)
    ensures RunsAtHome(s)
  {
    forall t | 0 <= t < |s.threads| && s.threads[t].cur.Some?
      ensures AtHome(s, t, s.threads[t].cur.value)
    {
      RunningIsAtHome(s, t);
    }
  }

  lemma RunningIsAtHome(s: State, t: Tid)
    requires Inv(s) && t < |s.threads| && s.threads[t].cur.Some?
    ensures AtHome(s, t, s.threads[t].cur.value)
  {
    var f := s.threads[t].cur.value;
    assert ThreadOk(s, t) && FdOk(s, f);
    forall u | 0 <= u < |s.threads|
      ensures u != t ==> s.threads[u].cur != Some(f) && f !in s.threads[u].fds
      ensures f !in s.threads[u].hand
    {
      assert ThreadOk(s, u);
    }
    forall q | 0 <= q < |s.queues|
      ensures f !in s.queues[q]
    {
      assert QueueOk(s, q);
    }
  }

  lemma InvAccounted(s: State)
    requires Inv(s)
    ensures Accounted(s)
  {
    forall f | 0 <= f < |s.ev| && s.open[f]
      ensures || (exists t :: 0 <= t < |s.threads| && (f in s.threads[t].tasks || f in s.threads[t].pending))
              || (exists t :: 0 <= t < |s.threads| && s.threads[t].cur == Some(f))
              || (s.at[f].Armed? && s.ev[f].cor && s.ev[f].reactor.Some? && s.ev[f].listen == {s.at[f].dir})
              || (exists q :: 0 <= q < |s.queues| && f in s.queues[q])
              || (exists t :: 0 <= t < |s.threads| && f in s.threads[t].hand)
    {
      assert FdOk(s, f);
    }
  }

  /** Fd ownership, in every interleaving of any number of sub-reactors and connections. */
  lemma OwnershipInEveryRun(n: nat, m: nat, run: Run)
    requires InRange(Initial(n, m)) && Legal(Initial(n, m), run)
    ensures var s := After(Initial(n, m), run);
            && InRange(s)
            && RegisteredOnce(s) && QueuedOnce(s) && RunsAtHome(s) && NothingDeferred(s) && Accounted(s)
  {
    hide RegisteredOnce, QueuedOnce, RunsAtHome, NothingDeferred, Accounted;
    InitialInv(n, m);
    RunKeeps(Initial(n, m), run);
    var s := After(Initial(n, m), run);
    InvRegisteredOnce(s);
    InvQueuedOnce(s);
    InvRunsAtHome(s);
    InvAccounted(s);
  }

  /** A running coroutine registers its fd on the thread it runs on, directly. */
  lemma RegistersInLoopThread(n: nat, m: nat, run: Run, t: Tid, dir: IOEvent, ok: bool)
    requires InRange(Initial(n, m)) && Legal(Initial(n, m), run)
    requires var s := After(Initial(n, m), run);
             InRange(s) && t < |s.threads| && Enabled(s, t, Arm(dir, ok))
    ensures var s := After(Initial(n, m), run);
            var s' := Step(s, t, Arm(dir, ok));
            var f := s.threads[t].cur.value;
            && s'.ev[f] == FdEvent(Some(t), {dir}, true)
            && (f in s'.threads[t].fds <==> ok || f in s.threads[t].fds)
            && forall u :: 0 <= u < |s.threads| && u != t ==> s'.threads[u] == s.threads[u]
  {
    hide Step, Legal, After;
    InitialInv(n, m);
    RunKeeps(Initial(n, m), run);
    var s := After(Initial(n, m), run);
    assert ThreadOk(s, t) && FdOk(s, s.threads[t].cur.value);
    ArmInLoopThread(s, t, dir, ok);
  }
}
