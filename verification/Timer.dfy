/**
 The timer: a multimap from deadlines to events, kept as the sequence it iterates over. Events are
 shared objects; the model names them and keeps their fields in a table.
 */
module Timers {
  type Id = nat

  datatype Event = Event(arrive: int, interval: int, repeated: bool, canceled: bool)

  datatype Entry = Entry(key: int, id: Id)

  datatype State = State(pending: seq<Entry>, events: map<Id, Event>)

  // ---- the multimap -----------------------------------------------------------------------------

  ghost predicate Sorted(p: seq<Entry>) {
    forall i, j :: 0 <= i < j < |p| ==> p[i].key <= p[j].key
  }

  ghost predicate DistinctIds(p: seq<Entry>) {
    forall i, j :: 0 <= i < j < |p| ==> p[i].id != p[j].id
  }

  ghost predicate Pending(p: seq<Entry>, id: Id) {
    exists i :: 0 <= i < |p| && p[i].id == id
  }

  /** The first position with a key of at least `k`. */
  function LowerBound(p: seq<Entry>, k: int): (i: nat)
    ensures i <= |p| && forall j :: 0 <= j < i ==> p[j].key < k
    ensures i < |p| ==> p[i].key >= k
  {
    if p == [] || p[0].key >= k then 0 else LowerBound(p[1..], k) + 1
  }

  /** `emplace`: behind every entry with the same key or a smaller one. */
  function Emplaced(p: seq<Entry>, e: Entry): seq<Entry> {
    var i := LowerBound(p, e.key + 1);
    p[..i] + [e] + p[i..]
  }

  /** One entry more, at `i`: behind the last that is not later, before the first that is. */
  ghost predicate EmplacedAt(p: seq<Entry>, p': seq<Entry>, i: int, id: Id, arrive: int) {
    && 0 <= i <= |p| && p' == p[..i] + [Entry(arrive, id)] + p[i..]
    && (forall j :: 0 <= j < i ==> p[j].key <= arrive)
    && (i < |p| ==> p[i].key > arrive)
  }

  lemma EmplacedKeeps(p: seq<Entry>, e: Entry)
    requires Sorted(p) && DistinctIds(p) && !Pending(p, e.id)
    ensures Sorted(Emplaced(p, e)) && DistinctIds(Emplaced(p, e))
    ensures forall x :: x in Emplaced(p, e) <==> x in p || x == e
  {
    hide Sorted, DistinctIds, Pending;
    var i := LowerBound(p, e.key + 1);
    InsertedIsSorted(p, i, e);
    InsertedIsDistinct(p, i, e);
    forall x
      ensures x in Emplaced(p, e) <==> x in p || x == e
    {
      assert p == p[..i] + p[i..];
    }
  }

  lemma InsertedIsSorted(p: seq<Entry>, i: nat, e: Entry)
    requires Sorted(p) && i <= |p|
    requires forall j :: 0 <= j < i ==> p[j].key <= e.key
    requires i < |p| ==> p[i].key >= e.key
    ensures Sorted(p[..i] + [e] + p[i..])
  {
    var q := p[..i] + [e] + p[i..];
    assert forall j :: 0 <= j < i ==> q[j] == p[j];
    assert forall j :: i < j < |q| ==> q[j] == p[j - 1];
  }

  lemma InsertedIsDistinct(p: seq<Entry>, i: nat, e: Entry)
    requires DistinctIds(p) && !Pending(p, e.id) && i <= |p|
    ensures DistinctIds(p[..i] + [e] + p[i..])
  {
    var q := p[..i] + [e] + p[i..];
    assert forall j :: 0 <= j < i ==> q[j] == p[j];
    assert forall j :: i < j < |q| ==> q[j] == p[j - 1];
  }

  /** Whether the first entries of one key, from position `i` on, hold an event: where, or where the key ends. */
  function FindInKey(p: seq<Entry>, i: nat, k: int, id: Id): (r: nat)
    requires i <= |p|
    ensures i <= r <= |p|
    ensures forall j :: i <= j < r ==> p[j].key == k && p[j].id != id
    ensures r < |p| && p[r].key == k ==> p[r].id == id
    decreases |p| - i
  {
    if i == |p| || p[i].key != k || p[i].id == id then i else FindInKey(p, i + 1, k, id)
  }

  function RemovedAt(p: seq<Entry>, i: nat): seq<Entry>
    requires i <= |p|
  {
    if i == |p| then p else p[..i] + p[i + 1..]
  }

  // ---- operations -------------------------------------------------------------------------------

  function Added(s: State, id: Id): State
    requires id in s.events
  {
    s.(pending := Emplaced(s.pending, Entry(s.events[id].arrive, id)))
  }

  /** The position `DelTimerEvent` erases at, if it is not the end. */
  function DelPosition(s: State, id: Id): (i: nat)
    requires id in s.events
    ensures i <= |s.pending|
  {
    var k := s.events[id].arrive;
    FindInKey(s.pending, LowerBound(s.pending, k), k, id)
  }

  function Deleted(s: State, id: Id): State
    requires id in s.events
  {
    State(RemovedAt(s.pending, DelPosition(s, id)), s.events[id := s.events[id].(canceled := true)])
  }

  ghost predicate Known(s: State) {
    forall e :: e in s.pending ==> e.id in s.events
  }

  /** Expired, and not cancelled. */
  predicate Due(s: State, e: Entry, now: int)
    requires e.id in s.events
  {
    e.key <= now && !s.events[e.id].canceled
  }

  /** The length of the front run of due entries, from position `i` on. */
  function FrontRun(s: State, now: int, i: nat): (n: nat)
    requires Known(s) && i <= |s.pending|
    ensures i <= n <= |s.pending|
    ensures forall j :: i <= j < n ==> Due(s, s.pending[j], now)
    ensures n < |s.pending| ==> !Due(s, s.pending[n], now)
    decreases |s.pending| - i
  {
    if i == |s.pending| || !Due(s, s.pending[i], now) then i else FrontRun(s, now, i + 1)
  }

  function Reset(e: Event, now: int): Event {
    e.(arrive := now + e.interval, canceled := false)
  }

  /** Reset and add again the repeated ones of `run`, the clock reading `clock(k)` at the k-th reset. */
  function Rescheduled(s: State, run: seq<Entry>, clock: nat -> int, k: nat): State
    requires forall e <- run :: e.id in s.events
    decreases |run|
  {
    if run == [] then s
    else
      var id := run[0].id;
      if s.events[id].repeated then
        var s1 := s.(events := s.events[id := Reset(s.events[id], clock(k))]);
        Rescheduled(Added(s1, id), run[1..], clock, k + 1)
      else Rescheduled(s, run[1..], clock, k)
  }

  function Fired(s: State, now: int, clock: nat -> int): State
    requires Known(s)
  {
    var n := FrontRun(s, now, 0);
    Rescheduled(s.(pending := s.pending[n..]), s.pending[..n], clock, 0)
  }

  // ---- the invariant --------------------------------------------------------------------------------

  /** Sorted by key, each event at most once, every key its event's deadline. */
  ghost predicate Inv(s: State) {
    && Sorted(s.pending) && DistinctIds(s.pending) && Known(s)
    && forall e :: e in s.pending ==> e.key == s.events[e.id].arrive
  }

  lemma AddKeeps(s: State, id: Id)
    requires Inv(s) && id in s.events && !Pending(s.pending, id)
    ensures Inv(Added(s, id)) && Pending(Added(s, id).pending, id)
  {
    var e := Entry(s.events[id].arrive, id);
    EmplacedKeeps(s.pending, e);
    assert e in Added(s, id).pending;
  }

  lemma RemoveKeeps(s: State, i: nat)
    requires Inv(s) && i <= |s.pending|
    ensures Inv(s.(pending := RemovedAt(s.pending, i)))
  {
    hide Sorted, DistinctIds;
    RemovedIsSorted(s.pending, i);
    RemovedIsDistinct(s.pending, i);
    assert forall e :: e in RemovedAt(s.pending, i) ==> e in s.pending;
  }

  lemma RemovedIsSorted(p: seq<Entry>, i: nat)
    requires Sorted(p) && i <= |p|
    ensures Sorted(RemovedAt(p, i))
  {
    if i < |p| {
      var q := p[..i] + p[i + 1..];
      assert forall j :: 0 <= j < i ==> q[j] == p[j];
      assert forall j :: i <= j < |q| ==> q[j] == p[j + 1];
    }
  }

  lemma RemovedIsDistinct(p: seq<Entry>, i: nat)
    requires DistinctIds(p) && i <= |p|
    ensures DistinctIds(RemovedAt(p, i))
  {
    var q := RemovedAt(p, i);
    forall j, k | 0 <= j < k < |q|
      ensures q[j].id != q[k].id
    {
      assert q[j] == if j < i then p[j] else p[j + 1];
      assert q[k] == if k < i then p[k] else p[k + 1];
    }
  }

  lemma DelKeeps(s: State, id: Id)
    requires Inv(s) && id in s.events
    ensures Inv(Deleted(s, id))
  {
    RemoveKeeps(s, DelPosition(s, id));
  }

  /** Deleting a pending event removes that event and nothing else. */
  lemma DeletePending(s: State, id: Id, i: nat)
    requires Inv(s) && i < |s.pending| && s.pending[i].id == id
    ensures Deleted(s, id).pending == s.pending[..i] + s.pending[i + 1..] && !Pending(Deleted(s, id).pending, id)
    ensures id in Deleted(s, id).events && Deleted(s, id).events[id].canceled
  {
    assert s.pending[i] in s.pending;
    var k := s.events[id].arrive;
    assert s.pending[i].key == k;
    assert DelPosition(s, id) == i;
  }

  /** Deleting an event that is not pending leaves the others alone exactly if none has a later deadline. */
  lemma DeleteNotPending(s: State, id: Id)
    requires Inv(s) && id in s.events && !Pending(s.pending, id)
    ensures Deleted(s, id).pending == s.pending <==>
              forall i :: 0 <= i < |s.pending| ==> s.pending[i].key <= s.events[id].arrive
  {
    var k := s.events[id].arrive;
    var r := DelPosition(s, id);
    if r < |s.pending| {
      assert s.pending[r].key > k;
      assert |Deleted(s, id).pending| < |s.pending|;
    }
  }

  // ---- OnTimer ----------------------------------------------------------------------------------------

  /** The repeated events of a run. */
  ghost function RepeatedIds(s: State, run: seq<Entry>): (ids: set<Id>)
    requires forall e <- run :: e.id in s.events
    ensures forall id :: id in ids <==> exists e :: e in run && e.id == id && s.events[id].repeated
  {
    set e | e in run && s.events[e.id].repeated :: e.id
  }

  ghost predicate Renewed(e: Event, e': Event, clock: nat -> int) {
    exists k: nat :: e' == Event(clock(k) + e.interval, e.interval, e.repeated, false)
  }

  /** Exactly the events `ids` have been renewed, and are pending; all other events and entries are as before. */
  ghost predicate OnlyRenewed(s: State, s': State, ids: set<Id>, clock: nat -> int) {
    && ids <= s.events.Keys == s'.events.Keys
    && (forall id <- ids :: Renewed(s.events[id], s'.events[id], clock) && Pending(s'.pending, id))
    && (forall id <- s.events.Keys - ids :: s'.events[id] == s.events[id])
    && (forall e :: e in s.pending ==> e in s'.pending)
    && (forall e :: e in s'.pending ==> e in s.pending || e.id in ids)
  }

  lemma OnlyRenewedChain(s: State, m: State, s': State, id: Id, ids: set<Id>, clock: nat -> int)
    requires OnlyRenewed(s, m, {id}, clock) && OnlyRenewed(m, s', ids, clock) && id !in ids
    ensures OnlyRenewed(s, s', ids + {id}, clock)
  {
    assert Pending(s'.pending, id) by {
      var i :| 0 <= i < |m.pending| && m.pending[i].id == id;
      assert m.pending[i] in s'.pending;
    }
  }

  lemma RenewOne(s: State, id: Id, clock: nat -> int, k: nat)
    requires Inv(s) && id in s.events && !Pending(s.pending, id)
    ensures var m := Renew(s, id, clock(k));
            Inv(m) && OnlyRenewed(s, m, {id}, clock)
  {
    hide Sorted, DistinctIds;
    var s1 := s.(events := s.events[id := Reset(s.events[id], clock(k))]);
    assert forall e :: e in s.pending ==> e.id != id;
    assert Inv(s1);
    AddKeeps(s1, id);
    EmplacedKeeps(s1.pending, Entry(s1.events[id].arrive, id));
  }

  lemma {:induction false} RescheduledKeeps(s: State, run: seq<Entry>, clock: nat -> int, k: nat)
    requires Inv(s) && DistinctIds(run)
    requires forall e <- run :: e.id in s.events && !Pending(s.pending, e.id)
    ensures Inv(Rescheduled(s, run, clock, k))
    ensures OnlyRenewed(s, Rescheduled(s, run, clock, k), RepeatedIds(s, run), clock)
    decreases |run|
  {
    hide Inv, OnlyRenewed, Pending, DistinctIds, RepeatedIds, Added, Reset;
    if run == [] {
      NothingRenewed(s, run, clock);
    } else {
      assert run[0] in run;
      hide Rescheduled;
      if s.events[run[0].id].repeated {
        RescheduleFirst(s, run, clock, k);
      } else {
        RescheduleSkip(s, run, clock, k);
      }
    }
  }

  lemma {:induction false} RescheduleSkip(s: State, run: seq<Entry>, clock: nat -> int, k: nat)
    requires Inv(s) && DistinctIds(run) && run != []
    requires forall e <- run :: e.id in s.events && !Pending(s.pending, e.id)
    requires !s.events[run[0].id].repeated
    ensures Inv(Rescheduled(s, run, clock, k))
    ensures OnlyRenewed(s, Rescheduled(s, run, clock, k), RepeatedIds(s, run), clock)
    decreases |run|, 0
  {
    RestOfRun(run);
    assert run[0] in run;
    RescheduleStep(s, run, clock, k);
    hide Inv, OnlyRenewed, Pending, DistinctIds, RepeatedIds, Rescheduled;
    RescheduledKeeps(s, run[1..], clock, k);
    RepeatedCons(s, s, run);
    assert RepeatedIds(s, run) == RepeatedIds(s, run[1..]);
  }

  /** One turn of the loop over the run. */
  function Renew(s: State, id: Id, now: int): State
    requires id in s.events
  {
    Added(s.(events := s.events[id := Reset(s.events[id], now)]), id)
  }

  lemma RescheduleStep(s: State, run: seq<Entry>, clock: nat -> int, k: nat)
    requires run != [] && forall e <- run :: e.id in s.events
    ensures if s.events[run[0].id].repeated
            then Rescheduled(s, run, clock, k) == Rescheduled(Renew(s, run[0].id, clock(k)), run[1..], clock, k + 1)
            else Rescheduled(s, run, clock, k) == Rescheduled(s, run[1..], clock, k)
  {
  }

  lemma {:induction false} RescheduleFirst(s: State, run: seq<Entry>, clock: nat -> int, k: nat)
    requires Inv(s) && DistinctIds(run) && run != []
    requires forall e <- run :: e.id in s.events && !Pending(s.pending, e.id)
    requires s.events[run[0].id].repeated
    ensures Inv(Rescheduled(s, run, clock, k))
    ensures OnlyRenewed(s, Rescheduled(s, run, clock, k), RepeatedIds(s, run), clock)
    decreases |run|, 0
  {
    var id0, rest := run[0].id, run[1..];
    var m := Renew(s, id0, clock(k));
    RestOfRun(run);
    assert run[0] in run;
    RescheduleStep(s, run, clock, k);
    hide Inv, Pending, DistinctIds, RepeatedIds, Rescheduled, Renew;
    RenewOne(s, id0, clock, k);
    RestStillAway(s, m, id0, rest, clock);
    hide OnlyRenewed;
    RescheduledKeeps(m, rest, clock, k + 1);
    RepeatedCons(s, m, run);
    OnlyRenewedChain(s, m, Rescheduled(m, rest, clock, k + 1), id0, RepeatedIds(m, rest), clock);
  }

  /** The first event of a run and the repeated ones behind it. */
  lemma RepeatedCons(s: State, m: State, run: seq<Entry>)
    requires DistinctIds(run) && run != []
    requires forall e <- run :: e.id in s.events
    requires forall e <- run[1..] :: e.id in m.events && m.events[e.id] == s.events[e.id]
    ensures RepeatedIds(s, run) == RepeatedIds(m, run[1..]) + if s.events[run[0].id].repeated then {run[0].id} else {}
    ensures run[0].id !in RepeatedIds(m, run[1..])
  {
    RestOfRun(run);
  }

  lemma NothingRenewed(s: State, run: seq<Entry>, clock: nat -> int)
    requires run == []
    ensures OnlyRenewed(s, s, RepeatedIds(s, run), clock)
  {
    assert RepeatedIds(s, run) == {};
  }

  lemma RestOfRun(run: seq<Entry>)
    requires DistinctIds(run) && run != []
    ensures DistinctIds(run[1..])
    ensures forall e :: e in run <==> e == run[0] || e in run[1..]
    ensures forall e :: e in run[1..] ==> e.id != run[0].id
  {
    assert run == [run[0]] + run[1..];
  }

  lemma RestStillAway(s: State, m: State, id: Id, rest: seq<Entry>, clock: nat -> int)
    requires OnlyRenewed(s, m, {id}, clock)
    requires forall e <- rest :: e.id in s.events && e.id != id && !Pending(s.pending, e.id)
    ensures forall e <- rest :: e.id in m.events && m.events[e.id] == s.events[e.id] && !Pending(m.pending, e.id)
  {
  }

  /**
   A firing takes exactly the maximal front run of due events. They come in deadline order, each once,
   none early; a one-shot one is gone afterwards; a repeated one is pending again at a new deadline;
   every other pending event stays as it was.
   */
  lemma FiringIsExact(s: State, now: int, clock: nat -> int)
    requires Inv(s)
    ensures var n, s' := FrontRun(s, now, 0), Fired(s, now, clock);
            && Inv(s')
            && Sorted(s.pending[..n]) && DistinctIds(s.pending[..n])
            && (forall i :: 0 <= i < n ==> s.pending[i].key == s.events[s.pending[i].id].arrive <= now)
            && (n < |s.pending| ==> s.pending[n].key > now || s.events[s.pending[n].id].canceled)
            && (forall i :: 0 <= i < n ==>
                  var id := s.pending[i].id;
                  if s.events[id].repeated then Pending(s'.pending, id) && Renewed(s.events[id], s'.events[id], clock)
                  else !Pending(s'.pending, id))
            && (forall i :: n <= i < |s.pending| ==>
                  s.pending[i] in s'.pending && s'.events[s.pending[i].id] == s.events[s.pending[i].id])
  {
    var n := FrontRun(s, now, 0);
    var run, s1 := s.pending[..n], s.(pending := s.pending[n..]);
    SplitKeeps(s, n);
    RescheduledKeeps(s1, run, clock, 0);
    var s' := Fired(s, now, clock);
    assert s' == Rescheduled(s1, run, clock, 0);
    hide Sorted, DistinctIds, Inv, Fired, Rescheduled, FrontRun;
    forall i | 0 <= i < n
      ensures var id := s.pending[i].id;
              if s.events[id].repeated then Pending(s'.pending, id) && Renewed(s.events[id], s'.events[id], clock)
              else !Pending(s'.pending, id)
    {
      FateOfFired(s, n, s', clock, i);
    }
    forall i | n <= i < |s.pending|
      ensures s.pending[i] in s'.pending && s'.events[s.pending[i].id] == s.events[s.pending[i].id]
    {
      FateOfOthers(s, n, s', clock, i);
    }
  }

  lemma SplitKeeps(s: State, n: nat)
    requires Inv(s) && n <= |s.pending|
    ensures Inv(s.(pending := s.pending[n..]))
    ensures Sorted(s.pending[..n]) && DistinctIds(s.pending[..n])
    ensures forall e <- s.pending[..n] :: e.id in s.events && !Pending(s.pending[n..], e.id)
    ensures forall i :: 0 <= i < |s.pending| ==> s.pending[i].id in s.events && s.pending[i].key == s.events[s.pending[i].id].arrive
  {
    assert forall e :: e in s.pending[n..] ==> e in s.pending;
    assert forall e :: e in s.pending[..n] ==> e in s.pending;
  }

  lemma FateOfFired(s: State, n: nat, s': State, clock: nat -> int, i: nat)
    requires i < n <= |s.pending|
    requires forall e <- s.pending[..n] :: e.id in s.events && !Pending(s.pending[n..], e.id)
    requires OnlyRenewed(s.(pending := s.pending[n..]), s', RepeatedIds(s.(pending := s.pending[n..]), s.pending[..n]), clock)
    requires DistinctIds(s.pending[..n])
    ensures var id := s.pending[i].id;
            if s.events[id].repeated then Pending(s'.pending, id) && Renewed(s.events[id], s'.events[id], clock)
            else !Pending(s'.pending, id)
  {
    var id, run := s.pending[i].id, s.pending[..n];
    assert run[i] in run && run[i].id == id;
  }

  lemma FateOfOthers(s: State, n: nat, s': State, clock: nat -> int, i: nat)
    requires n <= i < |s.pending| && s.pending[i].id in s.events
    requires forall e <- s.pending[..n] :: e.id in s.events && !Pending(s.pending[n..], e.id)
    requires OnlyRenewed(s.(pending := s.pending[n..]), s', RepeatedIds(s.(pending := s.pending[n..]), s.pending[..n]), clock)
    ensures s.pending[i] in s'.pending && s'.events[s.pending[i].id] == s.events[s.pending[i].id]
  {
    var rest, e := s.pending[n..], s.pending[i];
    assert rest[i - n] == e;
    assert Pending(rest, e.id);
  }

  /** A due event runs exactly if everything before it is due too; in particular a cancelled one in front holds it up. */
  lemma RunsIffNothingInFront(s: State, now: int, i: nat)
    requires Inv(s) && i < |s.pending|
    ensures i < FrontRun(s, now, 0) <==> forall j :: 0 <= j <= i ==> Due(s, s.pending[j], now)
  {
  }

  // ---- whole runs --------------------------------------------------------------------------------------

  datatype Op =
    | Create(id: Id, event: Event)
    | Add(id: Id)
    | Del(id: Id)
    | Fire(now: int, clock: nat -> int)
    | Mark(id: Id, canceled: bool, repeated: bool)  // Cancel, Wake, CancelRepeated

  ghost predicate Enabled(s: State, op: Op) {
    match op
    case Create(id, _) => id !in s.events
    case Add(id) => id in s.events && !Pending(s.pending, id)
    case Del(id) => id in s.events
    case Fire(_, _) => Known(s)
    case Mark(id, _, _) => id in s.events
  }

  ghost function Step(s: State, op: Op): State
    requires Enabled(s, op)
  {
    match op
    case Create(id, e) => s.(events := s.events[id := e])
    case Add(id) => Added(s, id)
    case Del(id) => Deleted(s, id)
    case Fire(now, clock) => Fired(s, now, clock)
    case Mark(id, c, r) => s.(events := s.events[id := s.events[id].(canceled := c, repeated := r)])
  }

  /** The tasks an operation runs. */
  ghost function Tasks(s: State, op: Op): seq<Id>
    requires Enabled(s, op)
  {
    if op.Fire? then
      var n := FrontRun(s, op.now, 0);
      seq(n, i requires 0 <= i < n => s.pending[i].id)
    else []
  }

  lemma StepKeeps(s: State, op: Op)
    requires Inv(s) && Enabled(s, op)
    ensures Inv(Step(s, op))
  {
    match op
    case Create(id, e) =>
    case Add(id) => AddKeeps(s, id);
    case Del(id) => DelKeeps(s, id);
    case Fire(now, clock) => FiringIsExact(s, now, clock);
    case Mark(id, c, r) =>
  }

  ghost predicate Legal(s: State, ops: seq<Op>)
    decreases |ops|
  {
    if ops == [] then true else Enabled(s, ops[0]) && Legal(Step(s, ops[0]), ops[1..])
  }

  ghost function After(s: State, ops: seq<Op>): State
    requires Legal(s, ops)
    decreases |ops|
  {
    if ops == [] then s else After(Step(s, ops[0]), ops[1..])
  }

  lemma {:induction false} RunKeeps(s: State, ops: seq<Op>)
    requires Inv(s) && Legal(s, ops)
    ensures Inv(After(s, ops))
    decreases |ops|
  {
    hide Inv, Step, Enabled;
    if ops != [] {
      StepKeeps(s, ops[0]);
      RunKeeps(Step(s, ops[0]), ops[1..]);
    }
  }

  /** In every run from an empty timer: entries in deadline order, every key its event's deadline, no event pending twice. */
  lemma KeysAreDeadlines(events: map<Id, Event>, ops: seq<Op>, i: nat, j: nat)
    requires Legal(State([], events), ops)
    ensures var s := After(State([], events), ops);
            i <= j < |s.pending| ==>
              && s.pending[i].id in s.events && s.pending[i].key == s.events[s.pending[i].id].arrive
              && s.pending[j].id in s.events && s.pending[j].key == s.events[s.pending[j].id].arrive
              && s.pending[i].key <= s.pending[j].key && (i < j ==> s.pending[i].id != s.pending[j].id)
  {
    hide Legal, After;
    RunKeeps(State([], events), ops);
    var s := After(State([], events), ops);
    if i <= j < |s.pending| {
      assert s.pending[i] in s.pending && s.pending[j] in s.pending;
    }
  }

  lemma AddSecond(s: State, s': State)
    requires 1 in s.events && s.events[1].arrive == 20
    requires s.pending == [Entry(10, 0)] && s' == s.(pending := [Entry(10, 0), Entry(20, 1)])
    ensures Enabled(s, Add(1)) && Step(s, Add(1)) == s'
  {
    assert s.pending[1..] == [];
    assert LowerBound(s.pending, 21) == 1;
  }

  lemma FireFirst(s: State, s': State, clock: nat -> int)
    requires s.pending == [Entry(10, 0), Entry(20, 1)] && s' == s.(pending := [Entry(20, 1)])
    requires 0 in s.events && 1 in s.events && !s.events[0].canceled && !s.events[0].repeated
    ensures Enabled(s, Fire(15, clock)) && Step(s, Fire(15, clock)) == s'
  {
    assert Known(s);
    assert FrontRun(s, 15, 1) == 1 && FrontRun(s, 15, 0) == 1;
    assert s.pending[1..] == [Entry(20, 1)] && s.pending[..1] == [Entry(10, 0)];
    assert [Entry(10, 0)][1..] == [];
    assert Rescheduled(s', [], clock, 0) == s';
  }

  /** The harm in a run: two events are added, the first fires and is then deleted, which erases the second instead. */
  lemma DeleteCanEraseAnother(clock: nat -> int)
    ensures var first, second := Event(10, 5, false, false), Event(20, 5, false, false);
            var start := State([], map[0 := first, 1 := second]);
            var ops := [Add(0), Add(1), Fire(15, clock)];
            && Legal(start, ops)
            && After(start, ops).pending == [Entry(20, 1)] && After(start, ops).events == start.events
            && Deleted(After(start, ops), 0).pending == []
  {
    var s0 := State([], map[0 := Event(10, 5, false, false), 1 := Event(20, 5, false, false)]);
    var s1, s2, s3 := s0.(pending := [Entry(10, 0)]), s0.(pending := [Entry(10, 0), Entry(20, 1)]), s0.(pending := [Entry(20, 1)]);
    var ops := [Add(0), Add(1), Fire(15, clock)];
    assert ops[1..] == [Add(1), Fire(15, clock)] && ops[1..][1..] == [Fire(15, clock)];
    assert Step(s0, Add(0)) == s1;
    AddSecond(s1, s2);
    FireFirst(s2, s3, clock);
    hide Enabled, Step;
    assert Legal(s3, []) && After(s3, []) == s3;
    assert Legal(s2, [Fire(15, clock)]) && After(s2, [Fire(15, clock)]) == s3;
    assert Legal(s1, ops[1..]) && After(s1, ops[1..]) == s3;
    assert LowerBound(s3.pending, 10) == 0;
  }

  /** All tasks run in a run, in order. */
  ghost function AllTasks(s: State, ops: seq<Op>): seq<Id>
    requires Legal(s, ops)
    decreases |ops|
  {
    if ops == [] then [] else Tasks(s, ops[0]) + AllTasks(Step(s, ops[0]), ops[1..])
  }

  ghost predicate NotAdded(ops: seq<Op>, id: Id) {
    forall op <- ops :: op != Add(id)
  }

  /** A one-shot event that has run, or been deleted, never runs again unless it is added again. */
  lemma {:induction false} OneShotStaysDone(s: State, ops: seq<Op>, id: Id)
    requires Inv(s) && Legal(s, ops) && id in s.events
    requires !Pending(s.pending, id) && NotAdded(ops, id)
    ensures id !in AllTasks(s, ops)
    decreases |ops|
  {
    if ops != [] {
      assert ops[0] in ops && forall op <- ops[1..] :: op in ops;
      StepKeeps(s, ops[0]);
      StaysAway(s, ops[0], id);
      hide Inv, Step, Enabled, Tasks;
      OneShotStaysDone(Step(s, ops[0]), ops[1..], id);
    }
  }

  lemma StaysAway(s: State, op: Op, id: Id)
    requires Inv(s) && Enabled(s, op) && id in s.events && !Pending(s.pending, id)
    requires op != Add(id)
    ensures id in Step(s, op).events && !Pending(Step(s, op).pending, id)
    ensures id !in Tasks(s, op)
  {
    match op
    case Create(_, _) =>
    case Mark(_, _, _) =>
    case Add(other) => EmplacedKeeps(s.pending, Entry(s.events[other].arrive, other));
    case Del(other) =>
      var p, q := s.pending, Deleted(s, other).pending;
      assert forall i :: 0 <= i < |q| ==> q[i] in p;
    case Fire(now, clock) => NotFired(s, now, clock, id);
  }

  lemma NotFired(s: State, now: int, clock: nat -> int, id: Id)
    requires Inv(s) && id in s.events && !Pending(s.pending, id)
    ensures id in Fired(s, now, clock).events && !Pending(Fired(s, now, clock).pending, id)
  {
    var n := FrontRun(s, now, 0);
    var run, s1 := s.pending[..n], s.(pending := s.pending[n..]);
    SplitKeeps(s, n);
    RescheduledKeeps(s1, run, clock, 0);
    assert Fired(s, now, clock) == Rescheduled(s1, run, clock, 0);
    hide Inv, Fired, Rescheduled, FrontRun, Sorted, DistinctIds;
    assert forall e <- run :: e in s.pending && e.id != id;
    assert forall e <- s.pending[n..] :: e in s.pending && e.id != id;
    NotRenewed(s1, Rescheduled(s1, run, clock, 0), run, clock, id);
  }

  lemma NotRenewed(s: State, s': State, run: seq<Entry>, clock: nat -> int, id: Id)
    requires forall e <- run :: e.id in s.events && e.id != id
    requires id in s.events && forall e <- s.pending :: e.id != id
    requires OnlyRenewed(s, s', RepeatedIds(s, run), clock)
    ensures id in s'.events && !Pending(s'.pending, id)
  {
    hide Renewed;
    assert id !in RepeatedIds(s, run);
    assert forall e <- s'.pending :: e.id != id;
  }

  // ---- the class --------------------------------------------------------------------------------------

  class Timer {
    var pending: seq<Entry>
    var events: map<Id, Event>

    ghost function View(): State
      reads this
    {
      State(pending, events)
    }

    constructor (events: map<Id, Event>)
      ensures View() == State([], events) && Inv(View())
    {
      pending, this.events := [], events;
    }

    /** Insert by deadline. */
    method AddTimerEvent(event: Id)
      requires event in events
      modifies this
      ensures View() == Added(old(View()), event)
      ensures exists i :: EmplacedAt(old(pending), pending, i, event, old(events)[event].arrive)
    {
      var key := events[event].arrive;
      var i := LowerBound(pending, key + 1);
      pending := pending[..i] + [Entry(key, event)] + pending[i..];
      assert EmplacedAt(old(pending), pending, i, event, key);
    }

    /** Cancel, and erase where the search for the event stops. */
    method DelTimerEvent(event: Id)
      requires event in events
      modifies this
      ensures View() == Deleted(old(View()), event)
    {
      var key := events[event].arrive;
      events := events[event := events[event].(canceled := true)];
      var it := LowerBound(pending, key);
      ghost var begin := it;
      while it < |pending| && pending[it].key == key && pending[it].id != event
        invariant begin <= it <= |pending|
        invariant FindInKey(pending, begin, key, event) == FindInKey(pending, it, key, event)
      {
        it := it + 1;
      }
      if it != |pending| {
        pending := pending[..it] + pending[it + 1..];
      }
    }

    /** Take the due events off the front, put the repeated ones back, return the tasks in order. */
    method OnTimer(now: int, clock: nat -> int) returns (tasks: seq<Id>)
      requires Known(View())
      modifies this
      ensures View() == Fired(old(View()), now, clock)
      ensures tasks == Tasks(old(View()), Fire(now, clock))
      ensures var n := FrontRun(old(View()), now, 0);
              |tasks| == n && forall i :: 0 <= i < n ==> tasks[i] == old(pending)[i].id
    {
      ghost var s := View();
      var repeatedTasks: seq<Id>, it := [], 0;
      tasks := [];
      while it < |pending| && pending[it].key <= now && !events[pending[it].id].canceled
        invariant 0 <= it <= |pending| && View() == s
        invariant FrontRun(s, now, 0) == FrontRun(s, now, it)
        invariant tasks == seq(it, i requires 0 <= i < it => s.pending[i].id)
        invariant repeatedTasks == RepeatedOf(s, s.pending[..it])
      {
        assert s.pending[..it + 1] == s.pending[..it] + [s.pending[it]];
        RepeatedOfSnoc(s, s.pending[..it], s.pending[it]);
        if events[pending[it].id].repeated {
          repeatedTasks := repeatedTasks + [pending[it].id];
        }
        tasks := tasks + [pending[it].id];
        it := it + 1;
      }
      pending := pending[it..];
      RepeatedOfSame(s, View(), s.pending[..it]);
      Reschedule(repeatedTasks, clock, s.pending[..it]);
    }

    /** `Reset` and add again each repeated event of a run. */
    method Reschedule(repeatedTasks: seq<Id>, clock: nat -> int, ghost run: seq<Entry>)
      requires (forall e <- run :: e.id in events) && repeatedTasks == RepeatedOf(View(), run)
      modifies this
      ensures View() == Rescheduled(old(View()), run, clock, 0)
    {
      hide Rescheduled, RepeatedOf, Emplaced;
      var k := 0;
      ghost var rest := run;
      ghost var s := View();
      assert repeatedTasks[0..] == repeatedTasks;
      while k < |repeatedTasks|
        invariant 0 <= k <= |repeatedTasks|
        invariant (forall e <- rest :: e.id in events) && repeatedTasks[k..] == RepeatedOf(View(), rest)
        invariant Rescheduled(View(), rest, clock, k) == Rescheduled(s, run, clock, 0)
      {
        rest := SkipOneShots(View(), rest, clock, k);
        ghost var before := View();
        var id := repeatedTasks[k];
        HeadOfRepeated(before, rest);
        assert id == repeatedTasks[k..][0] && repeatedTasks[k..][1..] == repeatedTasks[k + 1..];
        RescheduleStep(before, rest, clock, k);
        events := events[id := Reset(events[id], clock(k))];
        AddTimerEvent(id);
        assert View() == Renew(before, id, clock(k));
        RepeatedOfSame(before, View(), rest[1..]);
        rest := rest[1..];
        k := k + 1;
      }
      NoneRepeated(View(), rest, clock, k);
    }
  }

  lemma HeadOfRepeated(s: State, run: seq<Entry>)
    requires run != [] && (forall e <- run :: e.id in s.events) && s.events[run[0].id].repeated
    ensures RepeatedOf(s, run) == [run[0].id] + RepeatedOf(s, run[1..])
    ensures RepeatedOf(s, run)[1..] == RepeatedOf(s, run[1..])
  {
  }

  /** The repeated events of a run, in order. */
  function RepeatedOf(s: State, run: seq<Entry>): seq<Id>
    requires forall e <- run :: e.id in s.events
  {
    if run == [] then []
    else (if s.events[run[0].id].repeated then [run[0].id] else []) + RepeatedOf(s, run[1..])
  }

  lemma {:induction false} RepeatedOfSame(s: State, s': State, run: seq<Entry>)
    requires forall e <- run :: e.id in s.events && e.id in s'.events
    requires forall e <- run :: s'.events[e.id].repeated == s.events[e.id].repeated
    ensures RepeatedOf(s', run) == RepeatedOf(s, run)
  {
    if run != [] {
      RepeatedOfSame(s, s', run[1..]);
    }
  }

  lemma {:induction false} RepeatedOfSnoc(s: State, run: seq<Entry>, e: Entry)
    requires e.id in s.events && forall f <- run :: f.id in s.events
    ensures RepeatedOf(s, run + [e]) == RepeatedOf(s, run) + if s.events[e.id].repeated then [e.id] else []
  {
    if run == [] {
      assert run + [e] == [e];
    } else {
      assert (run + [e])[1..] == run[1..] + [e];
      RepeatedOfSnoc(s, run[1..], e);
    }
  }

  lemma {:induction false} SkipOneShots(s: State, run: seq<Entry>, clock: nat -> int, k: nat) returns (rest: seq<Entry>)
    requires (forall e <- run :: e.id in s.events) && RepeatedOf(s, run) != []
    ensures (forall e <- rest :: e.id in s.events) && RepeatedOf(s, rest) == RepeatedOf(s, run)
    ensures rest != [] && s.events[rest[0].id].repeated
    ensures Rescheduled(s, rest, clock, k) == Rescheduled(s, run, clock, k)
  {
    if s.events[run[0].id].repeated {
      rest := run;
    } else {
      rest := SkipOneShots(s, run[1..], clock, k);
    }
  }

  lemma {:induction false} NoneRepeated(s: State, run: seq<Entry>, clock: nat -> int, k: nat)
    requires (forall e <- run :: e.id in s.events) && RepeatedOf(s, run) == []
    ensures Rescheduled(s, run, clock, k) == s
    decreases |run|
  {
    if run != [] {
      NoneRepeated(s, run[1..], clock, k);
    }
  }
}
