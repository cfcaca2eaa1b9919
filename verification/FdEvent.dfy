/**
 The code behind the steps of `ReactorProtocol`: registration through `FdEvent` and `Reactor`, the two
 halves of a hook, the handling of one epoll event and the end of a loop turn. Each method runs on a
 thread `t` and is proved to move the shared state as the protocol's step does.
 */
module FdEvents {
  import opened Common
  import opened ReactorProtocol

  lemma {:induction false} WithoutSkips(s: seq<Fd>, f: Fd, i: nat)
    requires i <= |s| && f !in s[..i]
    ensures Without(s, f) == s[..i] + Without(s[i..], f)
    decreases i
  {
    if i == 0 {
      assert s[..0] + Without(s[0..], f) == Without(s, f) by { assert s[0..] == s; }
    } else {
      assert s[0] in s[..i] && s[1..][..i - 1] == s[..i][1..] && s[1..][i - 1..] == s[i..];
      WithoutSkips(s[1..], f, i - 1);
      assert s[..i] == [s[0]] + s[1..][..i - 1];
    }
  }

  class SubReactors {
    var threads: seq<Thread>
    var queues: seq<seq<Fd>>
    var ev: seq<FdEvent>
    var at: seq<Point>
    var open: seq<bool>
    ghost var place: seq<Place>

    ghost function View(): State
      reads this
    {
      State(threads, queues, ev, at, open, place)
    }

    ghost predicate Valid()
      reads this
    {
      InRange(View())
    }

    /** `n` sub-reactors about to enter their loops, `m` fds, nothing open. */
    constructor (n: nat, m: nat)
      ensures Valid() && View() == Initial(n, m)
    {
      threads := seq(n, _ => Thread(Top, [], [], [], [], None, [], [], []));
      queues := seq(n, _ => []);
      ev := seq(m, _ => FdEvent(None, {}, false));
      at := seq(m, _ => Ended);
      open := seq(m, _ => false);
      place := seq(m, _ => Nowhere);
    }

    method AddEventInLoopThread(t: Tid, fd: Fd, ok: bool)
      requires Valid() && t < |threads|
      modifies `threads
      ensures threads == old(threads)[t := old(threads)[t].(fds := AddInLoop(old(threads)[t].fds, fd, ok))]
    {
      var th := threads[t];
      var isAdd := fd !in th.fds;
      if !ok {
        assert threads == threads[t := th.(fds := th.fds)];
        return;
      }
      if isAdd {
        threads := threads[t := th.(fds := th.fds + [fd])];
      }
      assert threads == threads[t := threads[t]];
    }

    /** Erase the fd where it is found; nothing happens if this loop does not have it. */
    method DelEventInLoopThread(t: Tid, fd: Fd)
      requires Valid() && t < |threads|
      modifies `threads
      ensures threads == old(threads)[t := old(threads)[t].(fds := Without(old(threads)[t].fds, fd))]
    {
      hide Without;
      var th := threads[t];
      var it := 0;
      while it < |th.fds| && th.fds[it] != fd
        invariant 0 <= it <= |th.fds| && fd !in th.fds[..it]
      {
        it := it + 1;
      }
      WithoutSkips(th.fds, fd, it);
      WithoutHead(th.fds[it..], fd);
      if it == |th.fds| {
        assert th.fds[..it] + [] == th.fds;
        assert threads == threads[t := th.(fds := th.fds)];
        return;
      }
      threads := threads[t := th.(fds := th.fds[..it] + th.fds[it + 1..])];
    }

    /** `AddEvent` of reactor `r`, called on thread `t`: directly, or through the list for other threads. */
    method AddEvent(r: Tid, t: Tid, fd: Fd, ok: bool)
      requires Valid() && t < |threads| && r < |threads|
      modifies `threads
      ensures r == t ==> threads == old(threads)[t := old(threads)[t].(fds := AddInLoop(old(threads)[t].fds, fd, ok))]
      ensures r != t ==>
                threads == old(threads)[r := old(threads)[r].(pendingAdd := AddInLoop(old(threads)[r].pendingAdd, fd, true))]
    {
      if r == t {
        AddEventInLoopThread(t, fd, ok);
        return;
      }
      if fd !in threads[r].pendingAdd {
        threads := threads[r := threads[r].(pendingAdd := threads[r].pendingAdd + [fd])];
      }
      assert threads == threads[r := threads[r].(pendingAdd := threads[r].pendingAdd)];
    }

    method DelEvent(r: Tid, t: Tid, fd: Fd)
      requires Valid() && t < |threads| && r < |threads|
      modifies `threads
      ensures r == t ==> threads == old(threads)[t := old(threads)[t].(fds := Without(old(threads)[t].fds, fd))]
      ensures r != t ==>
                threads == old(threads)[r := old(threads)[r].(pendingDel := old(threads)[r].pendingDel + [fd])]
    {
      if r == t {
        DelEventInLoopThread(t, fd);
        return;
      }
      threads := threads[r := threads[r].(pendingDel := threads[r].pendingDel + [fd])];
    }

    /** A reactor that an event refers to exists. */
    ghost predicate HasReactor(f: Fd)
      requires f < |ev|
      reads this
    {
      ev[f].reactor.Some? ==> ev[f].reactor.value < |threads|
    }

    method UpdateToReactor(t: Tid, f: Fd, ok: bool)
      requires Valid() && t < |threads| && f < |ev| && HasReactor(f)
      modifies `threads, `ev
      ensures View() == ReactorProtocol.UpdateToReactor(old(View()), t, f, ok)
    {
      if ev[f].reactor.None? {
        ev := ev[f := ev[f].(reactor := Some(t))];
      }
      assert ev == ev[f := ev[f]];
      AddEvent(ev[f].reactor.value, t, f, ok);
      assert old(threads)[t := old(threads)[t]] == old(threads);
    }

    method AddListenEvents(t: Tid, f: Fd, event: IOEvent, ok: bool)
      requires Valid() && t < |threads| && f < |ev| && HasReactor(f)
      modifies `threads, `ev
      ensures event in old(ev[f].listen) ==> View() == old(View())
      ensures event !in old(ev[f].listen) ==>
                var e := old(ev[f]);
                View() == ReactorProtocol.UpdateToReactor(
                            old(View()).(ev := old(ev)[f := e.(listen := e.listen + {event})]), t, f, ok)
    {
      if event in ev[f].listen {
        return;
      }
      ev := ev[f := ev[f].(listen := ev[f].listen + {event})];
      UpdateToReactor(t, f, ok);
    }

    method DelListenEvents(t: Tid, f: Fd, event: IOEvent, ok: bool)
      requires Valid() && t < |threads| && f < |ev| && HasReactor(f)
      modifies `threads, `ev
      ensures event !in old(ev[f].listen) ==> View() == old(View())
      ensures event in old(ev[f].listen) ==>
                var e := old(ev[f]);
                View() == ReactorProtocol.UpdateToReactor(
                            old(View()).(ev := old(ev)[f := e.(listen := e.listen - {event})]), t, f, ok)
    {
      if event in ev[f].listen {
        ev := ev[f := ev[f].(listen := ev[f].listen - {event})];
        UpdateToReactor(t, f, ok);
        return;
      }
    }

    /** A hook up to its Yield: find a reactor, then `toEpoll`. */
    method BeforeYield(t: Tid, f: Fd, dir: IOEvent, ok: bool)
      requires Valid() && t < |threads| && f < |ev| && HasReactor(f)
      modifies `threads, `ev, `at
      ensures View() == ArmStep(old(View()), t, f, dir, ok)
    {
      hide ReactorProtocol.UpdateToReactor;
      if ev[f].reactor.None? {
        ev := ev[f := ev[f].(reactor := Some(t))];
      }
      ev := ev[f := ev[f].(cor := true)];
      at := at[f := Armed(dir)];
      ghost var e := old(ev[f]).(reactor := Some(ReactorOf(old(ev[f]), t)), cor := true);
      assert ev == old(ev)[f := e];
      AddListenEvents(t, f, dir, ok);
    }

    /** A hook from its Yield on. */
    method AfterYield(t: Tid, f: Fd, dir: IOEvent, ok: bool)
      requires Valid() && t < |threads| && f < |ev| && HasReactor(f)
      modifies `threads, `ev, `at
      ensures View() == DisarmStep(old(View()), t, f, dir, ok)
    {
      at := at[f := Body];
      ghost var s1 := View();
      assert ev == ev[f := ev[f]];
      DelListenEvents(t, f, dir, ok);
      ev := ev[f := ev[f].(cor := false)];
    }

    method UnregisterFromReactor(t: Tid, f: Fd)
      requires Valid() && t < |threads| && f < |ev| && HasReactor(f)
      modifies `threads, `ev
      ensures var s1 := ReactorProtocol.DelEvent(old(View()), t, f);
              View() == s1.(ev := s1.ev[f := s1.ev[f].(listen := {})])
    {
      if ev[f].reactor.None? {
        ev := ev[f := ev[f].(reactor := Some(t))];
      }
      assert ev == ev[f := ev[f]];
      DelEvent(ev[f].reactor.value, t, f);
      ev := ev[f := ev[f].(listen := {})];
    }

    /** The body of the loop over the events of one `epoll_wait`, up to `Push`. */
    method HandleEvent(t: Tid, readable: bool)
      requires Valid() && t < |threads| && Enabled(View(), t, Handle(readable))
      modifies `threads, `ev, `place
      ensures View() == HandleStep(old(View()), t, readable)
    {
      ghost var s := View();
      var th := threads[t];
      var f := th.events[0];
      threads := threads[t := th.(events := th.events[1..])];
      if !readable {
        DelEventInLoopThread(t, f);
        return;
      }
      if ev[f].cor {
        DelEventInLoopThread(t, f);
        ev := ev[f := ev[f].(reactor := None)];
        threads := threads[t := threads[t].(mode := Pushing, hand := th.hand + [f])];
        place := place[f := InHand(t)];
        return;
      }
    }

    /** The end of a loop turn: carry out what other threads have asked for. */
    method ApplyDeferred(t: Tid, ok: Fd -> bool)
      requires Valid() && t < |threads| && threads[t].mode.ApplyPending? && threads[t].cur.None?
      modifies `threads
      ensures View() == ApplyStep(old(View()), t, ok)
    {
      hide AddAll, DelAll;
      var tmpAdd, tmpDel := threads[t].pendingAdd, threads[t].pendingDel;
      threads := threads[t := threads[t].(pendingAdd := [], pendingDel := [], mode := Top)];
      AddEach(t, tmpAdd, ok);
      DelEach(t, tmpDel);
    }

    method AddEach(t: Tid, tmpAdd: seq<Fd>, ok: Fd -> bool)
      requires Valid() && t < |threads|
      modifies `threads
      ensures Valid()
      ensures threads == old(threads)[t := old(threads)[t].(fds := AddAll(old(threads)[t].fds, tmpAdd, ok))]
    {
      hide AddAll;
      ghost var fds := threads[t].fds;
      var i := 0;
      AddAllFrom(fds, tmpAdd, ok, 0);
      while i < |tmpAdd|
        invariant 0 <= i <= |tmpAdd| && Valid() && t < |threads|
        invariant threads == old(threads)[t := old(threads)[t].(fds := threads[t].fds)]
        invariant AddAll(threads[t].fds, tmpAdd[i..], ok) == AddAll(fds, tmpAdd, ok)
      {
        AddAllFrom(threads[t].fds, tmpAdd, ok, i);
        AddEventInLoopThread(t, tmpAdd[i], ok(tmpAdd[i]));
        i := i + 1;
      }
      AddAllFrom(threads[t].fds, tmpAdd, ok, i);
    }

    method DelEach(t: Tid, tmpDel: seq<Fd>)
      requires Valid() && t < |threads|
      modifies `threads
      ensures Valid()
      ensures threads == old(threads)[t := old(threads)[t].(fds := DelAll(old(threads)[t].fds, tmpDel))]
    {
      hide DelAll, Without;
      ghost var fds := threads[t].fds;
      var i := 0;
      DelAllFrom(fds, tmpDel, 0);
      while i < |tmpDel|
        invariant 0 <= i <= |tmpDel| && Valid() && t < |threads|
        invariant threads == old(threads)[t := old(threads)[t].(fds := threads[t].fds)]
        invariant DelAll(threads[t].fds, tmpDel[i..]) == DelAll(fds, tmpDel)
      {
        DelAllFrom(threads[t].fds, tmpDel, i);
        DelEventInLoopThread(t, tmpDel[i]);
        i := i + 1;
      }
      DelAllFrom(threads[t].fds, tmpDel, i);
    }
  }

  lemma WithoutHead(s: seq<Fd>, f: Fd)
    requires s == [] || s[0] == f
    ensures Without(s, f) == if s == [] then [] else s[1..]
  {
  }

  /** One more of the additions. */
  lemma AddAllFrom(fds: seq<Fd>, add: seq<Fd>, ok: Fd -> bool, i: nat)
    requires i <= |add|
    ensures i == 0 ==> add[i..] == add
    ensures AddAll(fds, add[i..], ok)
         == if i == |add| then fds else AddAll(AddInLoop(fds, add[i], ok(add[i])), add[i + 1..], ok)
  {
    if i < |add| {
      assert add[i..][0] == add[i] && add[i..][1..] == add[i + 1..];
    }
  }

  /** One more of the removals. */
  lemma DelAllFrom(fds: seq<Fd>, del: seq<Fd>, i: nat)
    requires i <= |del|
    ensures i == 0 ==> del[i..] == del
    ensures DelAll(fds, del[i..]) == if i == |del| then fds else DelAll(Without(fds, del[i]), del[i + 1..])
  {
    if i < |del| {
      assert del[i..][0] == del[i] && del[i..][1..] == del[i + 1..];
    }
  }

  /**
   What the deferred changes come to: a descriptor is registered afterwards exactly if it was before or
   was successfully added, and no removal of it was deferred. So a removal asked for before an addition
   of the same descriptor, in the same turn, undoes the addition.
   */
  lemma DeferredExactly(fds: seq<Fd>, add: seq<Fd>, del: seq<Fd>, ok: Fd -> bool, f: Fd)
    requires Distinct(fds)
    ensures Distinct(DelAll(AddAll(fds, add, ok), del))
    ensures f in DelAll(AddAll(fds, add, ok), del) <==> (f in fds || (f in add && ok(f))) && f !in del
  {
    AddAllExactly(fds, add, ok, f);
    DelAllExactly(AddAll(fds, add, ok), del, f);
  }

  lemma {:induction false} AddAllExactly(fds: seq<Fd>, add: seq<Fd>, ok: Fd -> bool, f: Fd)
    requires Distinct(fds)
    ensures Distinct(AddAll(fds, add, ok))
    ensures f in AddAll(fds, add, ok) <==> f in fds || (f in add && ok(f))
    decreases |add|
  {
    if add != [] {
      assert f in add <==> f == add[0] || f in add[1..];
      AddAllExactly(AddInLoop(fds, add[0], ok(add[0])), add[1..], ok, f);
    }
  }

  lemma {:induction false} DelAllExactly(fds: seq<Fd>, del: seq<Fd>, f: Fd)
    requires Distinct(fds)
    ensures Distinct(DelAll(fds, del))
    ensures f in DelAll(fds, del) <==> f in fds && f !in del
    decreases |del|
  {
    if del != [] {
      assert f in del <==> f == del[0] || f in del[1..];
      WithoutRemoves(fds, del[0]);
      DelAllExactly(Without(fds, del[0]), del[1..], f);
    }
  }
}
