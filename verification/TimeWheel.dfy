/**
 The wheel that closes idle connections.

 A connection's slot is a reference-counted object; its destructor shuts the connection down. The
 wheel is a queue of buckets of references. A refresh posts a task that puts one more reference into
 the back bucket; a tick drops the front bucket. `World` carries the reference counts that the
 shared pointers keep, so "destroyed" is "count zero".
 */
module TimeWheels {
  type Slot = nat

  datatype World = World(
    wheel: seq<seq<Slot>>,
    tasks: seq<Slot>,        // refresh tasks posted to the main reactor, each holding a reference
    held: multiset<Slot>,    // references held for a moment by a connection's own code
    count: map<Slot, nat>,   // use counts of all slots ever made
    conns: set<Slot>,        // slots whose connection object still exists
    called: seq<Slot>)       // shutdown callbacks run, in order

  function InWheel(wheel: seq<seq<Slot>>, s: Slot): nat {
    if wheel == [] then 0 else multiset(wheel[0])[s] + InWheel(wheel[1..], s)
  }

  /** How many buckets' entries, posted tasks and held pointers refer to a slot. */
  function Refs(w: World, s: Slot): nat {
    InWheel(w.wheel, s) + multiset(w.tasks)[s] + w.held[s]
  }

  ghost predicate Counted(w: World) {
    && (forall s: Slot :: s in w.count ==> w.count[s] == Refs(w, s))
    && (forall s: Slot :: s !in w.count ==> Refs(w, s) == 0)
  }

  ghost predicate CalledOnce(w: World) {
    && (forall s: Slot :: multiset(w.called)[s] <= 1)
    && (forall s: Slot :: s in w.called ==> s in w.count && w.count[s] == 0)
    && (forall s: Slot :: s in w.count && w.count[s] == 0 && s in w.conns ==> s in w.called)
  }

  ghost predicate Inv(w: World) {
    |w.wheel| >= 1 && Counted(w) && CalledOnce(w)
  }

  // ---- the operations on values --------------------------------------------------------------------

  function Grab(w: World, s: Slot): World
    requires s in w.count
  {
    w.(count := w.count[s := w.count[s] + 1])
  }

  /** One reference goes; with the last one the destructor runs the callback if the connection is still there. */
  function Drop(w: World, s: Slot): World
    requires s in w.count && w.count[s] > 0
  {
    var w1 := w.(count := w.count[s := w.count[s] - 1]);
    if w1.count[s] == 0 && s in w.conns then w1.(called := w.called + [s]) else w1
  }

  ghost predicate Droppable(w: World, ss: seq<Slot>) {
    forall s: Slot :: s in ss ==> s in w.count && multiset(ss)[s] <= w.count[s]
  }

  ghost function DropAll(w: World, ss: seq<Slot>): World
    requires Droppable(w, ss)
    decreases |ss|
  {
    if ss == [] then w
    else
      DroppableTail(w, ss);
      DropAll(Drop(w, ss[0]), ss[1..])
  }

  lemma DroppableTail(w: World, ss: seq<Slot>)
    requires Droppable(w, ss) && ss != []
    ensures ss[0] in w.count && w.count[ss[0]] > 0 && Droppable(Drop(w, ss[0]), ss[1..])
  {
    assert ss == [ss[0]] + ss[1..];
    assert multiset(ss) == multiset{ss[0]} + multiset(ss[1..]);
  }

  /** What dropping a bucket does, slot by slot: counts fall by the number of entries, and nothing else but the calls changes. */
  lemma DropAllCounts(w: World, ss: seq<Slot>)
    requires Droppable(w, ss) && CalledOnce(w)
    ensures var w' := DropAll(w, ss);
            && w' == w.(count := w'.count, called := w'.called)
            && w'.count.Keys == w.count.Keys
            && (forall s: Slot :: s in w.count ==> w'.count[s] == w.count[s] - multiset(ss)[s])
            && CalledOnce(w')
            && (forall s: Slot :: s in w'.called <==>
                  s in w.called || (s in ss && s in w.conns && w.count[s] == multiset(ss)[s]))
  {
    DropAllFalls(w, ss);
    DropAllCalls(w, ss);
  }

  lemma HeadCounts(ss: seq<Slot>)
    requires ss != []
    ensures forall s: Slot :: multiset(ss)[s] == multiset(ss[1..])[s] + if s == ss[0] then 1 else 0
    ensures forall s: Slot :: s in ss <==> s == ss[0] || s in ss[1..]
  {
    assert ss == [ss[0]] + ss[1..];
    assert multiset(ss) == multiset{ss[0]} + multiset(ss[1..]);
  }

  lemma {:induction false} DropAllFalls(w: World, ss: seq<Slot>)
    requires Droppable(w, ss)
    ensures var w' := DropAll(w, ss);
            && w' == w.(count := w'.count, called := w'.called)
            && w'.count.Keys == w.count.Keys
            && (forall s: Slot :: s in w.count ==> w'.count[s] == w.count[s] - multiset(ss)[s])
    decreases |ss|
  {
    if ss != [] {
      DroppableTail(w, ss);
      HeadCounts(ss);
      hide Droppable;
      DropAllFalls(Drop(w, ss[0]), ss[1..]);
    }
  }

  lemma {:induction false} DropAllCalls(w: World, ss: seq<Slot>)
    requires Droppable(w, ss) && CalledOnce(w)
    ensures CalledOnce(DropAll(w, ss))
    ensures forall s: Slot :: s in DropAll(w, ss).called <==>
              s in w.called || (s in ss && s in w.conns && w.count[s] == multiset(ss)[s])
    decreases |ss|
  {
    if ss != [] {
      DroppableTail(w, ss);
      HeadCounts(ss);
      DropOnce(w, ss[0]);
      hide CalledOnce, Droppable;
      var w1 := Drop(w, ss[0]);
      DropAllCalls(w1, ss[1..]);
      forall s: Slot
        ensures s in DropAll(w1, ss[1..]).called <==>
                  s in w.called || (s in ss && s in w.conns && w.count[s] == multiset(ss)[s])
      {
        assert s in ss[1..] <==> multiset(ss[1..])[s] > 0;
      }
    }
  }

  lemma DropOnce(w: World, s: Slot)
    requires s in w.count && w.count[s] > 0 && CalledOnce(w)
    ensures CalledOnce(Drop(w, s))
    ensures forall t: Slot :: t in Drop(w, s).called <==>
              t in w.called || (t == s && w.count[s] == 1 && s in w.conns)
  {
    assert s !in w.called;
  }

  // ---- steps -----------------------------------------------------------------------------------------

  datatype Op =
    | Create(s: Slot)     // RegisterToTimeWheel: the slot is made, one pointer held
    | Lock(s: Slot)       // weak_slot_.lock() in Input
    | Post(s: Slot)       // FreshTcpConnection with a held pointer
    | Release(s: Slot)    // a held pointer goes out of scope
    | RunTask             // main reactor: Fresh of the first posted task
    | Tick                // main reactor: LoopFunc
    | ConnGone(s: Slot)   // the connection object is destroyed

  predicate Enabled(w: World, op: Op) {
    match op
    case Create(s) => s !in w.count
    case Lock(s) => s in w.count
    case Post(s) => s in w.held && s in w.count
    case Release(s) => s in w.held && s in w.count && w.count[s] > 0
    case RunTask => w.tasks != [] && w.wheel != []
    case Tick => w.wheel != []
    case ConnGone(s) => s in w.conns
  }

  /** The front bucket goes with its references, an empty one comes in at the back. */
  ghost function Ticked(w: World): World
    requires w.wheel != [] && Droppable(w, w.wheel[0])
  {
    var w1 := DropAll(w, w.wheel[0]);
    w1.(wheel := w.wheel[1..] + [[]])
  }

  function Freshened(w: World): World
    requires w.tasks != [] && w.wheel != []
  {
    var back := |w.wheel| - 1;
    w.(tasks := w.tasks[1..], wheel := w.wheel[back := w.wheel[back] + [w.tasks[0]]])
  }

  ghost function Step(w: World, op: Op): World
    requires Enabled(w, op)
    requires op.Tick? ==> Droppable(w, w.wheel[0])
  {
    match op
    case Create(s) => w.(count := w.count[s := 1], held := w.held[s := w.held[s] + 1], conns := w.conns + {s})
    case Lock(s) => if w.count[s] == 0 then w else Grab(w, s).(held := w.held[s := w.held[s] + 1])
    case Post(s) => Grab(w, s).(tasks := w.tasks + [s])
    case Release(s) => Drop(w, s).(held := w.held[s := w.held[s] - 1])
    case RunTask => Freshened(w)
    case Tick => Ticked(w)
    case ConnGone(s) => w.(conns := w.conns - {s})
  }

  lemma {:induction false} InWheelUpdate(wheel: seq<seq<Slot>>, i: nat, s: Slot, t: Slot)
    requires i < |wheel|
    ensures InWheel(wheel[i := wheel[i] + [t]], s) == InWheel(wheel, s) + if s == t then 1 else 0
  {
    var wheel' := wheel[i := wheel[i] + [t]];
    if i == 0 {
      assert wheel'[1..] == wheel[1..];
    } else {
      assert wheel'[1..] == wheel[1..][i - 1 := wheel[1..][i - 1] + [t]];
      InWheelUpdate(wheel[1..], i - 1, s, t);
    }
  }

  lemma {:induction false} InWheelSnocEmpty(wheel: seq<seq<Slot>>, s: Slot)
    ensures InWheel(wheel + [[]], s) == InWheel(wheel, s)
  {
    if wheel != [] {
      assert (wheel + [[]])[1..] == wheel[1..] + [[]];
      InWheelSnocEmpty(wheel[1..], s);
    }
  }

  lemma {:induction false} InWheelPositive(wheel: seq<seq<Slot>>, s: Slot)
    ensures InWheel(wheel, s) > 0 <==> exists i :: 0 <= i < |wheel| && s in wheel[i]
  {
    if wheel != [] {
      InWheelPositive(wheel[1..], s);
      assert s in wheel[0] <==> multiset(wheel[0])[s] > 0;
      if i :| 0 <= i < |wheel[1..]| && s in wheel[1..][i] {
        assert s in wheel[i + 1];
      }
      if i :| 0 <= i < |wheel| && s in wheel[i] {
        assert i > 0 ==> s in wheel[1..][i - 1];
      }
    }
  }

  lemma FrontIsDroppable(w: World)
    requires |w.wheel| >= 1 && Counted(w)
    ensures Droppable(w, w.wheel[0])
  {
    forall s: Slot | s in w.wheel[0]
      ensures s in w.count && multiset(w.wheel[0])[s] <= w.count[s]
    {
      assert Refs(w, s) >= multiset(w.wheel[0])[s] > 0;
    }
  }

  /** A slot's use count is the number of references to it, through every step. */
  lemma StepKeeps(w: World, op: Op)
    requires Inv(w) && Enabled(w, op)
    ensures op.Tick? ==> Droppable(w, w.wheel[0])
    ensures Inv(Step(w, op)) && |Step(w, op).wheel| == |w.wheel|
  {
    hide InWheel, CalledOnce, Ticked;
    FrontIsDroppable(w);
    match op
    case Create(s) => CreateKeeps(w, s);
    case Lock(s) => LockKeeps(w, s);
    case Post(s) => PostKeeps(w, s);
    case Release(s) => ReleaseKeeps(w, s);
    case RunTask => FreshenKeeps(w);
    case Tick => TickKeeps(w); TickedWheel(w);
    case ConnGone(s) =>
      var w' := Step(w, op);
      assert forall t: Slot :: Refs(w', t) == Refs(w, t);
      assert CalledOnce(w') by { SameCalls(w, w'); }
  }

  lemma SameCalls(w: World, w': World)
    requires CalledOnce(w) && w'.called == w.called
    requires forall s: Slot :: s in w.count && w.count[s] == 0 ==> s in w'.count && w'.count[s] == 0
    requires forall s: Slot :: s in w'.count && w'.count[s] == 0 && s in w'.conns ==>
               s in w.count && w.count[s] == 0 && s in w.conns
    ensures CalledOnce(w')
  {
  }

  lemma CreateKeeps(w: World, s: Slot)
    requires Inv(w) && Enabled(w, Create(s))
    ensures Inv(Step(w, Create(s)))
  {
    hide InWheel, CalledOnce;
    var w' := Step(w, Create(s));
    assert forall t: Slot :: Refs(w', t) == Refs(w, t) + if t == s then 1 else 0;
    SameCalls(w, w');
  }

  lemma LockKeeps(w: World, s: Slot)
    requires Inv(w) && Enabled(w, Lock(s))
    ensures Inv(Step(w, Lock(s)))
  {
    hide InWheel, CalledOnce;
    if w.count[s] != 0 {
      var w' := Step(w, Lock(s));
      assert forall t: Slot :: Refs(w', t) == Refs(w, t) + if t == s then 1 else 0;
      SameCalls(w, w');
    }
  }

  lemma PostKeeps(w: World, s: Slot)
    requires Inv(w) && Enabled(w, Post(s))
    ensures Inv(Step(w, Post(s)))
  {
    hide InWheel, CalledOnce;
    var w' := Step(w, Post(s));
    assert forall t: Slot :: Refs(w', t) == Refs(w, t) + if t == s then 1 else 0;
    SameCalls(w, w');
  }

  lemma ReleaseKeeps(w: World, s: Slot)
    requires Inv(w) && Enabled(w, Release(s))
    ensures Inv(Step(w, Release(s)))
  {
    hide InWheel, CalledOnce;
    var w' := Step(w, Release(s));
    DropOnce(w, s);
    SameCalls(Drop(w, s), w');
    assert forall t: Slot :: Refs(w', t) == Refs(w, t) - if t == s then 1 else 0;
  }

  lemma FreshenKeeps(w: World)
    requires Inv(w) && w.tasks != []
    ensures Inv(Freshened(w))
  {
    var w' := Freshened(w);
    forall s: Slot
      ensures Refs(w', s) == Refs(w, s)
    {
      InWheelUpdate(w.wheel, |w.wheel| - 1, s, w.tasks[0]);
      assert w.tasks == [w.tasks[0]] + w.tasks[1..];
    }
  }

  lemma TickKeeps(w: World)
    requires Inv(w) && Droppable(w, w.wheel[0])
    ensures Inv(Ticked(w))
  {
    DropAllCounts(w, w.wheel[0]);
    var w' := Ticked(w);
    forall s: Slot
      ensures Refs(w', s) == Refs(w, s) - multiset(w.wheel[0])[s]
    {
      InWheelSnocEmpty(w.wheel[1..], s);
    }
  }

  /** A new slot, referred to by its posted task only: made, posted, and the pointer held meanwhile released. */
  function Registered(w: World, s: Slot): World {
    w.(count := w.count[s := 1], tasks := w.tasks + [s], conns := w.conns + {s})
  }

  /** One more posted task for a living slot: locked, posted, and released. */
  function Refreshed(w: World, s: Slot): World
    requires s in w.count
  {
    w.(count := w.count[s := w.count[s] + 1], tasks := w.tasks + [s])
  }

  lemma RegisteredKeeps(w: World, s: Slot)
    requires Inv(w) && s !in w.count
    ensures Inv(Registered(w, s))
  {
    hide Inv;
    var w1 := Step(w, Create(s));
    StepKeeps(w, Create(s));
    var w2 := Step(w1, Post(s));
    StepKeeps(w1, Post(s));
    StepKeeps(w2, Release(s));
    assert Step(w2, Release(s)) == Registered(w, s) by {
      assert w2.held[s := w2.held[s] - 1] == w.held;
    }
  }

  lemma RefreshedKeeps(w: World, s: Slot)
    requires Inv(w) && s in w.count && w.count[s] > 0
    ensures Inv(Refreshed(w, s))
  {
    hide Inv;
    var w1 := Step(w, Lock(s));
    StepKeeps(w, Lock(s));
    var w2 := Step(w1, Post(s));
    StepKeeps(w1, Post(s));
    StepKeeps(w2, Release(s));
    assert Step(w2, Release(s)) == Refreshed(w, s) by {
      assert w2.held[s := w2.held[s] - 1] == w.held;
    }
  }

  // ---- whole runs: the ages ---------------------------------------------------------------------------

  /** The specification: ticks since a slot's last applied refresh; a slot never refreshed has no age. */
  type Ages = map<Slot, nat>

  function Aged(w: World, ages: Ages, op: Op): Ages
    requires Enabled(w, op)
  {
    match op
    case RunTask => ages[w.tasks[0] := 0]
    case Tick => map s | s in ages :: ages[s] + 1
    case _ => ages
  }

  /** The newest reference to a slot of age `a` is in the bucket that has `a` newer ones behind it. */
  ghost predicate Refines(wheel: seq<seq<Slot>>, ages: Ages) {
    var n := |wheel|;
    && (forall s: Slot, i :: 0 <= i < n && s in wheel[i] ==> s in ages && i <= n - 1 - ages[s])
    && (forall s: Slot :: s in ages && ages[s] < n ==> s in wheel[n - 1 - ages[s]])
  }

  lemma StepRefines(w: World, ages: Ages, op: Op)
    requires Inv(w) && Enabled(w, op) && Refines(w.wheel, ages)
    ensures op.Tick? ==> Droppable(w, w.wheel[0])
    ensures Refines(Step(w, op).wheel, Aged(w, ages, op))
  {
    hide Inv, Droppable, Freshened, Ticked;
    FrontIsDroppable(w) by { InvParts(w); }
    match op
    case RunTask => FreshenRefines(w, ages);
    case Tick => TickRefines(w, ages);
    case _ => assert Step(w, op).wheel == w.wheel && Aged(w, ages, op) == ages;
  }

  lemma InvParts(w: World)
    requires Inv(w)
    ensures |w.wheel| >= 1 && Counted(w) && CalledOnce(w)
  {
  }

  lemma TickedWheel(w: World)
    requires Inv(w) && Droppable(w, w.wheel[0])
    ensures Ticked(w).wheel == w.wheel[1..] + [[]]
  {
    DropAllCounts(w, w.wheel[0]);
  }

  lemma FreshenRefines(w: World, ages: Ages)
    requires Inv(w) && w.tasks != [] && Refines(w.wheel, ages)
    ensures Refines(Freshened(w).wheel, ages[w.tasks[0] := 0])
  {
    var n, t, w' := |w.wheel|, w.tasks[0], Freshened(w);
    forall s: Slot, i | 0 <= i < n && s in w'.wheel[i]
      ensures s in ages[t := 0] && i <= n - 1 - ages[t := 0][s]
    {
      assert s in w.wheel[i] || s == t;
    }
  }

  lemma TickRefines(w: World, ages: Ages)
    requires Inv(w) && Droppable(w, w.wheel[0]) && Refines(w.wheel, ages)
    ensures Refines(Ticked(w).wheel, map s | s in ages :: ages[s] + 1)
  {
    TickedWheel(w);
    hide Ticked, Inv, Droppable, Refines;
    ShiftRefines(w.wheel, ages);
  }

  lemma ShiftRefines(wheel: seq<seq<Slot>>, ages: Ages)
    requires wheel != [] && Refines(wheel, ages)
    ensures Refines(wheel[1..] + [[]], map s | s in ages :: ages[s] + 1)
  {
    var n, wheel' := |wheel|, wheel[1..] + [[]];
    assert forall i :: 0 <= i < n - 1 ==> wheel'[i] == wheel[i + 1];
    var ages' := map s | s in ages :: ages[s] + 1;
    forall s: Slot | s in ages' && ages'[s] < n
      ensures s in wheel'[n - 1 - ages'[s]]
    {
      assert wheel'[n - 1 - ages'[s]] == wheel[n - 1 - ages[s]];
    }
  }

  /** (That the front bucket can be dropped is no restriction: StepKeeps.) */
  ghost predicate Legal(w: World, ops: seq<Op>)
    decreases |ops|
  {
    if ops == [] then true
    else
      && Enabled(w, ops[0])
      && (ops[0].Tick? ==> Droppable(w, w.wheel[0]))
      && Legal(Step(w, ops[0]), ops[1..])
  }

  ghost function After(w: World, ops: seq<Op>): World
    requires Legal(w, ops)
    decreases |ops|
  {
    if ops == [] then w else After(Step(w, ops[0]), ops[1..])
  }

  ghost function AgesAfter(w: World, ages: Ages, ops: seq<Op>): Ages
    requires Legal(w, ops)
    decreases |ops|
  {
    if ops == [] then ages else AgesAfter(Step(w, ops[0]), Aged(w, ages, ops[0]), ops[1..])
  }

  /** `n` empty buckets and nothing else. */
  function Initial(n: nat): World {
    World(seq(n, _ => []), [], multiset{}, map[], {}, [])
  }

  lemma InitialInv(n: nat)
    requires n >= 1
    ensures Inv(Initial(n)) && Refines(Initial(n).wheel, map[])
  {
    forall s: Slot
      ensures Refs(Initial(n), s) == 0
    {
      InWheelPositive(Initial(n).wheel, s);
    }
  }

  lemma {:induction false} RunRefines(w: World, ages: Ages, ops: seq<Op>)
    requires Inv(w) && Refines(w.wheel, ages) && Legal(w, ops)
    ensures Inv(After(w, ops)) && Refines(After(w, ops).wheel, AgesAfter(w, ages, ops))
    ensures |After(w, ops).wheel| == |w.wheel|
    decreases |ops|
  {
    if ops != [] {
      StepKeeps(w, ops[0]);
      StepRefines(w, ages, ops[0]);
      hide Step, Inv, Refines;
      RunRefines(Step(w, ops[0]), Aged(w, ages, ops[0]), ops[1..]);
    }
  }

  /**
   The wheel refines the ages. In every run, a slot is destroyed exactly when nothing in flight refers
   to it and its last applied refresh, if any, is at least `n` ticks ago; it is destroyed exactly when
   no bucket, task or held pointer refers to it; its callback runs at most once and only on destruction,
   and has run if the slot is destroyed while its connection still exists.
   */
  lemma WheelRefinesAges(n: nat, ops: seq<Op>, s: Slot)
    requires n >= 1 && Legal(Initial(n), ops)
    ensures var w, ages := After(Initial(n), ops), AgesAfter(Initial(n), map[], ops);
            s in w.count ==>
              && (w.count[s] == 0 <==> Refs(w, s) == 0)
              && (w.count[s] == 0 <==> s !in w.tasks && s !in w.held && (s !in ages || ages[s] >= n))
              && multiset(w.called)[s] <= 1
              && (s in w.called ==> w.count[s] == 0)
              && (w.count[s] == 0 && s in w.conns ==> s in w.called)
  {
    hide After, AgesAfter, Legal, Inv, Refines;
    InitialInv(n);
    RunRefines(Initial(n), map[], ops);
    var w, ages := After(Initial(n), ops), AgesAfter(Initial(n), map[], ops);
    if s in w.count {
      AliveByAge(w, ages, s);
      InvParts(w);
    }
  }

  lemma AliveByAge(w: World, ages: Ages, s: Slot)
    requires Inv(w) && Refines(w.wheel, ages) && s in w.count
    ensures w.count[s] == 0 <==> s !in w.tasks && s !in w.held && (s !in ages || ages[s] >= |w.wheel|)
    ensures w.count[s] == 0 <==> Refs(w, s) == 0
  {
    InWheelPositive(w.wheel, s);
    assert s in w.tasks <==> multiset(w.tasks)[s] > 0;
    if s in ages && ages[s] < |w.wheel| {
      assert s in w.wheel[|w.wheel| - 1 - ages[s]];
    }
  }

  /** Ticks in a run, if it holds no refresh of `s`. */
  function Ticks(ops: seq<Op>): nat {
    if ops == [] then 0 else (if ops[0].Tick? then 1 else 0) + Ticks(ops[1..])
  }

  ghost predicate NoRefreshOf(w: World, ops: seq<Op>, s: Slot)
    requires Legal(w, ops)
    decreases |ops|
  {
    ops == [] || ((ops[0].RunTask? ==> w.tasks[0] != s) && NoRefreshOf(Step(w, ops[0]), ops[1..], s))
  }

  lemma {:induction false} AgeIsTicks(w: World, ages: Ages, ops: seq<Op>, s: Slot)
    requires Legal(w, ops) && s in ages && NoRefreshOf(w, ops, s)
    ensures s in AgesAfter(w, ages, ops) && AgesAfter(w, ages, ops)[s] == ages[s] + Ticks(ops)
    decreases |ops|
  {
    hide Step;
    if ops != [] {
      AgeIsTicks(Step(w, ops[0]), Aged(w, ages, ops[0]), ops[1..], s);
    }
  }

  /** A refresh applied now keeps the slot alive through the next n-1 ticks; without another, it dies at the n-th. */
  lemma RefreshLastsNTicks(w: World, ages: Ages, ops: seq<Op>)
    requires Inv(w) && Refines(w.wheel, ages) && w.tasks != []
    requires Legal(Freshened(w), ops) && NoRefreshOf(Freshened(w), ops, w.tasks[0])
    ensures var s, w' := w.tasks[0], After(Freshened(w), ops);
            && s in w'.count
            && (Ticks(ops) < |w.wheel| ==> w'.count[s] > 0)
            && (Ticks(ops) >= |w.wheel| && s !in w'.tasks && s !in w'.held ==> w'.count[s] == 0)
  {
    hide After, AgesAfter, Legal, Inv, Refines, NoRefreshOf, InWheel;
    var s, ages0 := w.tasks[0], ages[w.tasks[0] := 0];
    InvParts(w);
    FreshenKeeps(w);
    FreshenRefines(w, ages);
    RunRefines(Freshened(w), ages0, ops);
    AgeIsTicks(Freshened(w), ages0, ops, s);
    var w' := After(Freshened(w), ops);
    assert s in w.count by { assert Refs(w, s) > 0; }
    CountStays(Freshened(w), ops, s);
    AliveByAge(w', AgesAfter(Freshened(w), ages0, ops), s);
  }

  /** A slot's age never exceeds the ticks since, whatever refreshes come. */
  lemma {:induction false} AgeAtMostTicks(w: World, ages: Ages, ops: seq<Op>, s: Slot)
    requires Legal(w, ops) && s in ages
    ensures s in AgesAfter(w, ages, ops) && AgesAfter(w, ages, ops)[s] <= ages[s] + Ticks(ops)
    decreases |ops|
  {
    hide Step;
    if ops != [] {
      AgeAtMostTicks(Step(w, ops[0]), Aged(w, ages, ops[0]), ops[1..], s);
    }
  }

  /** How many posted tasks a run carries out. */
  function TasksRun(ops: seq<Op>): nat {
    if ops == [] then 0 else (if ops[0].RunTask? then 1 else 0) + TasksRun(ops[1..])
  }

  /** Posted tasks are carried out first in, first out. */
  lemma {:induction false} TasksAreFifo(w: World, ops: seq<Op>)
    requires Inv(w) && Legal(w, ops) && TasksRun(ops) <= |w.tasks|
    ensures w.tasks[TasksRun(ops)..] <= After(w, ops).tasks
    decreases |ops|
  {
    if ops == [] {
      assert w.tasks[0..] == w.tasks;
    } else {
      StepKeeps(w, ops[0]);
      StepTasks(w, ops[0]);
      hide Step, Inv;
      var next := Step(w, ops[0]);
      TasksAreFifo(next, ops[1..]);
      if ops[0].RunTask? {
        assert w.tasks[1..][TasksRun(ops) - 1..] == w.tasks[TasksRun(ops)..];
      } else {
        assert w.tasks[TasksRun(ops)..] <= next.tasks[TasksRun(ops)..];
      }
    }
  }

  lemma StepTasks(w: World, op: Op)
    requires Inv(w) && Enabled(w, op)
    requires op.Tick? ==> Droppable(w, w.wheel[0])
    ensures if op.RunTask? then w.tasks != [] && Step(w, op).tasks == w.tasks[1..] else w.tasks <= Step(w, op).tasks
  {
    if op.Tick? {
      DropAllCounts(w, w.wheel[0]);
    }
  }

  /**
   A read keeps the connection's slot alive. After the read of a living slot, however the run goes on:
   when the tasks posted before have been carried out, the refresh of that read is next, and the slot is
   alive; once it has been carried out the slot's age is 0, and it lives through the next n-1 ticks.
   */
  lemma ReadKeepsAlive(w: World, ages: Ages, s: Slot, before: seq<Op>, later: seq<Op>)
    requires Inv(w) && Refines(w.wheel, ages) && s in w.count && w.count[s] > 0
    requires Legal(Refreshed(w, s), before) && TasksRun(before) == |w.tasks|
    ensures var w1 := After(Refreshed(w, s), before);
            && w1.wheel != [] && w1.tasks != [] && w1.tasks[0] == s && s in w1.count && w1.count[s] > 0
            && (Legal(Freshened(w1), later) && Ticks(later) < |w.wheel| ==>
                  var w2 := After(Freshened(w1), later); s in w2.count && w2.count[s] > 0)
  {
    hide After, AgesAfter, Legal, Inv, Refines, InWheel;
    RefreshedKeeps(w, s);
    var w0 := Refreshed(w, s);
    assert w0.tasks == w.tasks + [s];
    TasksAreFifo(w0, before);
    RunRefines(w0, ages, before);
    var w1 := After(w0, before);
    assert w0.tasks[|w.tasks|..] == [s];
    InvParts(w1);
    assert w1.tasks[0] == s;
    assert Refs(w1, s) > 0;
    if Legal(Freshened(w1), later) && Ticks(later) < |w.wheel| {
      var ages1 := AgesAfter(w0, ages, before);
      FreshenKeeps(w1);
      FreshenRefines(w1, ages1);
      RunRefines(Freshened(w1), ages1[s := 0], later);
      AgeAtMostTicks(Freshened(w1), ages1[s := 0], later, s);
      CountStays(Freshened(w1), later, s);
      AliveByAge(After(Freshened(w1), later), AgesAfter(Freshened(w1), ages1[s := 0], later), s);
    }
  }

  lemma {:induction false} CountStays(w: World, ops: seq<Op>, s: Slot)
    requires Inv(w) && Legal(w, ops) && s in w.count
    ensures s in After(w, ops).count
    ensures w.count[s] == 0 ==> After(w, ops).count[s] == 0
    decreases |ops|
  {
    if ops != [] {
      StepKeeps(w, ops[0]);
      StepNeverRevives(w, ops[0], s);
      hide Step, Inv;
      CountStays(Step(w, ops[0]), ops[1..], s);
    }
  }

  lemma StepNeverRevives(w: World, op: Op, s: Slot)
    requires Inv(w) && Enabled(w, op) && s in w.count
    requires op.Tick? ==> Droppable(w, w.wheel[0])
    ensures s in Step(w, op).count
    ensures w.count[s] == 0 ==> Step(w, op).count[s] == 0
  {
    if op.Tick? {
      DropAllCounts(w, w.wheel[0]);
    }
    if op.Post? {
      assert Refs(w, op.s) > 0;
    }
  }

  /** Once destroyed, a slot is never revived, whatever happens next. */
  lemma NeverRevived(n: nat, before: seq<Op>, later: seq<Op>, s: Slot)
    requires n >= 1 && Legal(Initial(n), before)
    requires Legal(After(Initial(n), before), later)
    requires var w := After(Initial(n), before); s in w.count && w.count[s] == 0
    ensures var w := After(After(Initial(n), before), later); s in w.count && w.count[s] == 0
  {
    InitialInv(n);
    RunRefines(Initial(n), map[], before);
    CountStays(After(Initial(n), before), later, s);
  }

  // ---- the class ------------------------------------------------------------------------------------

  class TcpTimeWheel {
    var wheel: seq<seq<Slot>>
    var tasks: seq<Slot>
    var held: multiset<Slot>
    var count: map<Slot, nat>
    var conns: set<Slot>
    var called: seq<Slot>

    ghost function View(): World
      reads this
    {
      World(wheel, tasks, held, count, conns, called)
    }

    /** `bucketCount` empty buckets. */
    constructor (bucketCount: nat)
      ensures View() == Initial(bucketCount)
    {
      wheel := [];
      tasks, held, count, conns, called := [], multiset{}, map[], {}, [];
      new;
      for i := 0 to bucketCount
        invariant View() == Initial(i)
      {
        wheel := wheel + [[]];
      }
    }

    /** `~shared_ptr`, and the slot's destructor with the last one. */
    method DropReference(s: Slot)
      requires s in count && count[s] > 0
      modifies this
      ensures View() == Drop(old(View()), s)
    {
      count := count[s := count[s] - 1];
      if count[s] == 0 && s in conns {
        called := called + [s];
      }
    }

    /** Post a refresh with a reference of its own, which keeps the slot from being destroyed until it runs. */
    method FreshTcpConnection(slot: Slot)
      requires slot in count && count[slot] > 0
      modifies this
      ensures View() == old(View()).(count := old(count)[slot := old(count)[slot] + 1], tasks := old(tasks) + [slot])
      ensures old(Inv(View())) ==> Inv(View())
    {
      if Inv(View()) {
        RefreshedKeeps(View(), slot);
      }
      count := count[slot := count[slot] + 1];
      tasks := tasks + [slot];
    }

    /** Make the slot of a new connection; what is left when the method returns is the posted task's reference. */
    method RegisterToTimeWheel(slot: Slot)
      requires Inv(View()) && slot !in count
      modifies this
      ensures Inv(View())
      ensures tasks == old(tasks) + [slot] && slot in count && count[slot] == 1 && called == old(called)
      ensures conns == old(conns) + {slot} && wheel == old(wheel) && held == old(held)
      ensures View() == Registered(old(View()), slot)
    {
      hide Inv;
      RegisteredKeeps(View(), slot);
      count, conns := count[slot := 1], conns + {slot};
      FreshTcpConnection(slot);
      DropReference(slot);
      assert View() == Registered(old(View()), slot);
    }

    /** After a read: refresh through the weak pointer, unless the slot is gone. */
    method RefreshAfterRead(slot: Slot)
      requires Inv(View()) && slot in count
      modifies this
      ensures old(count)[slot] == 0 ==> View() == old(View())
      ensures old(count)[slot] != 0 ==>
                && tasks == old(tasks) + [slot]
                && count == old(count)[slot := old(count)[slot] + 1]
                && wheel == old(wheel) && held == old(held) && conns == old(conns) && called == old(called)
                && View() == Refreshed(old(View()), slot)
      ensures Inv(View())
    {
      hide Inv;
      if count[slot] != 0 {
        RefreshedKeeps(View(), slot);
        count := count[slot := count[slot] + 1];  // tmp = weak_slot_.lock()
        FreshTcpConnection(slot);
        DropReference(slot);
      }
    }

    /** Timer callback: drop the front bucket, push an empty one. */
    method LoopFunc()
      requires Inv(View())
      modifies this
      ensures Droppable(old(View()), old(wheel)[0])
      ensures View() == Ticked(old(View())) && Inv(View())
    {
      FrontIsDroppable(View());
      TickKeeps(View());
      ghost var start := View();
      var bucket := wheel[0];
      var i := 0;
      assert bucket[0..] == bucket;
      while i < |bucket|
        invariant 0 <= i <= |bucket|
        invariant Droppable(View(), bucket[i..])
        invariant DropAll(View(), bucket[i..]) == DropAll(start, bucket)
        invariant wheel == start.wheel
      {
        DroppableTail(View(), bucket[i..]);
        assert bucket[i..][1..] == bucket[i + 1..];
        DropReference(bucket[i]);
        i := i + 1;
      }
      wheel := wheel[1..];
      wheel := wheel + [[]];
    }

    /** Put one more reference into the back bucket; the posted reference moves there. */
    method Fresh()
      requires Inv(View()) && tasks != []
      modifies this
      ensures View() == Freshened(old(View())) && Inv(View())
    {
      FreshenKeeps(View());
      var slot := tasks[0];
      tasks := tasks[1..];
      wheel := wheel[|wheel| - 1 := wheel[|wheel| - 1] + [slot]];
    }
  }
}
