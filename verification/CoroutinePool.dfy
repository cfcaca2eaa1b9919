/**
 Stack blocks for coroutines: `Memory`, a first-fit allocator of equal blocks in one region, and
 `CoroutinePool`, which hands out its own coroutines first and blocks of further regions after that.
 */
module CoroutinePools {
  import opened Common

  type Address = int

  // ---- Memory on values ------------------------------------------------------------------------------

  datatype Mem = Mem(start: Address, blockSize: nat, blocks: seq<bool>, refCount: int) {
    function Size(): nat {
      |blocks| * blockSize
    }

    function Block(t: nat): Address {
      start + t * blockSize
    }

    predicate Has(a: Address) {
      start <= a <= start + Size() - 1
    }
  }

  function FirstFree(blocks: seq<bool>): (r: Option<nat>)
    ensures r.Some? ==> r.value < |blocks| && !blocks[r.value] && forall i :: 0 <= i < r.value ==> blocks[i]
    ensures r.None? ==> forall i :: 0 <= i < |blocks| ==> blocks[i]
  {
    if blocks == [] then None
    else if !blocks[0] then Some(0)
    else
      var r := FirstFree(blocks[1..]);
      if r.None? then None else Some(r.value + 1)
  }

  function Used(blocks: seq<bool>): nat {
    if blocks == [] then 0 else (if blocks[0] then 1 else 0) + Used(blocks[1..])
  }

  /** Block `t`, the first that was free, is taken and no other changes. */
  predicate FirstTaken(before: seq<bool>, after: seq<bool>, t: int) {
    && 0 <= t < |before| && !before[t] && (forall i :: 0 <= i < t ==> before[i])
    && after == before[t := true]
  }

  function Allotted(m: Mem): (r: (Mem, Option<Address>)) {
    match FirstFree(m.blocks)
    case None => (m, None)
    case Some(t) => (m.(blocks := m.blocks[t := true], refCount := m.refCount + 1), Some(m.Block(t)))
  }

  function Freed(m: Mem, block: Address): Mem
    requires m.blockSize > 0
  {
    if !m.Has(block) then m
    else
      var t := (block - m.start) / m.blockSize;
      if t < |m.blocks| then m.(blocks := m.blocks[t := false], refCount := m.refCount - 1) else m
  }

  lemma MulMonotone(a: nat, b: nat, n: nat)
    requires a <= b
    ensures a * n <= b * n
  {
  }

  lemma BlocksFit(t: nat, u: nat, n: nat)
    requires t < u
    ensures t * n + n <= u * n
  {
    MulMonotone(t + 1, u, n);
    assert (t + 1) * n == t * n + n;
  }

  lemma DivOfMul(t: nat, n: nat)
    requires n > 0
    ensures t * n / n == t
  {
    var q := t * n / n;
    assert q * n <= t * n < q * n + n;
    if q < t {
      BlocksFit(q, t, n);
    } else if t < q {
      BlocksFit(t, q, n);
    }
  }

  lemma BlockIsIn(m: Mem, t: nat)
    requires t < |m.blocks| && m.blockSize > 0
    ensures m.Has(m.Block(t)) && m.Block(t) + m.blockSize <= m.start + m.Size()
    ensures (m.Block(t) - m.start) / m.blockSize == t
  {
    BlocksFit(t, |m.blocks|, m.blockSize);
    DivOfMul(t, m.blockSize);
  }

  lemma {:induction false} UsedUpdate(blocks: seq<bool>, t: nat, b: bool)
    requires t < |blocks|
    ensures Used(blocks[t := b]) == Used(blocks) - (if blocks[t] then 1 else 0) + (if b then 1 else 0)
  {
    if t == 0 {
      assert blocks[0 := b][1..] == blocks[1..];
    } else {
      assert blocks[t := b][1..] == blocks[1..][t - 1 := b];
      UsedUpdate(blocks[1..], t - 1, b);
    }
  }

  /** Returning a block frees exactly that block; the reference count stays right exactly if it was in use. */
  lemma FreedExactly(m: Mem, t: nat)
    requires t < |m.blocks| && m.blockSize > 0 && m.refCount == Used(m.blocks)
    ensures Freed(m, m.Block(t)).blocks == m.blocks[t := false]
    ensures var m' := Freed(m, m.Block(t)); m'.refCount == Used(m'.blocks) <==> m.blocks[t]
  {
    BlockIsIn(m, t);
    UsedUpdate(m.blocks, t, false);
  }

  /** A block just allotted and returned leaves everything as it was. */
  lemma AllotThenFree(m: Mem)
    requires m.blockSize > 0 && Allotted(m).1.Some?
    ensures Freed(Allotted(m).0, Allotted(m).1.value) == m
  {
    var t := FirstFree(m.blocks).value;
    var m' := Allotted(m).0;
    BlockIsIn(m', t);
    assert m'.blocks[t := false] == m.blocks;
  }

  class Memory {
    const blockSize: nat
    const blockCount: nat
    const start: Address
    const end: Address
    var blocks: seq<bool>
    var refCount: int

    ghost function View(): Mem
      reads this
    {
      Mem(start, blockSize, blocks, refCount)
    }

    ghost predicate Valid()
      reads this
    {
      |blocks| == blockCount && blockSize > 0 && end == start + blockCount * blockSize - 1
    }

    /** `start` is what malloc returned. */
    constructor (blockSize: nat, blockCount: nat, start: Address)
      requires blockSize > 0
      ensures Valid() && View() == Mem(start, blockSize, seq(blockCount, _ => false), 0)
    {
      this.blockSize, this.blockCount, this.start := blockSize, blockCount, start;
      end := start + blockSize * blockCount - 1;
      blocks := seq(blockCount, _ => false);
      refCount := 0;
    }

    method GetBlock() returns (block: Option<Address>)
      requires Valid()
      modifies this
      ensures Valid()
      ensures View() == Allotted(old(View())).0 && block == Allotted(old(View())).1
      ensures block.None? <==> forall i :: 0 <= i < |old(blocks)| ==> old(blocks)[i]
      ensures block.None? ==> blocks == old(blocks) && refCount == old(refCount)
      ensures block.Some? ==>
                exists t :: FirstTaken(old(blocks), blocks, t)
                         && block.value == start + t * blockSize && refCount == old(refCount) + 1
    {
      var t := -1;
      var i := 0;
      while i < |blocks|
        invariant 0 <= i <= |blocks| && t == -1 && View() == old(View())
        invariant forall k :: 0 <= k < i ==> blocks[k]
      {
        if !blocks[i] {
          blocks := blocks[i := true];
          t := i;
          break;
        }
        i := i + 1;
      }
      if t == -1 {
        return None;
      }
      refCount := refCount + 1;
      assert FirstTaken(old(blocks), blocks, t);
      return Some(start + t * blockSize);
    }

    method BackBlock(block: Address)
      requires Valid()
      modifies this
      ensures Valid() && View() == Freed(old(View()), block)
    {
      if block > end || block < start {
        return;
      }
      var t := (block - start) / blockSize;
      QuotientFits(block - start, blockSize, blockCount);
      blocks := blocks[t := false];
      refCount := refCount - 1;
    }

    method HasBlock(block: Address) returns (has: bool)
      requires Valid()
      ensures has <==> View().Has(block)
    {
      has := block >= start && block <= end;
    }
  }

  lemma QuotientFits(x: int, n: nat, count: nat)
    requires n > 0 && 0 <= x <= count * n - 1
    ensures 0 <= x / n < count
  {
    if x / n >= count {
      assert x / n * n >= count * n by { MulMonotone(count, x / n, n); }
      assert false;
    }
  }

  // ---- the pool on values ----------------------------------------------------------------------------

  /** A coroutine as its user holds it: its index in the pool, -1 if it has none, and its stack. */
  datatype Handle = Handle(index: int, stack: Address)

  /**
   `inFunc` is each pooled coroutine's own flag, which its callback sets and clears; `live` is history:
   the coroutines handed out and not returned.
   */
  datatype Pool = Pool(stackSize: nat, stacks: seq<Address>, inFunc: seq<bool>, taken: seq<bool>,
                       mems: seq<Mem>, live: set<Handle>)

  function FirstUsable(inFunc: seq<bool>, taken: seq<bool>): (r: Option<nat>)
    requires |inFunc| == |taken|
    ensures r.Some? ==> r.value < |taken| && !inFunc[r.value] && !taken[r.value]
    ensures r.Some? ==> forall i :: 0 <= i < r.value ==> inFunc[i] || taken[i]
    ensures r.None? ==> forall i :: 0 <= i < |taken| ==> inFunc[i] || taken[i]
  {
    if taken == [] then None
    else if !inFunc[0] && !taken[0] then Some(0)
    else
      var r := FirstUsable(inFunc[1..], taken[1..]);
      if r.None? then None else Some(r.value + 1)
  }

  /** The first of the memories from `i` on that has a free block. */
  function FirstWithRoom(mems: seq<Mem>, i: nat): (r: Option<nat>)
    requires i <= |mems|
    ensures r.Some? ==> i <= r.value < |mems| && FirstFree(mems[r.value].blocks).Some?
    ensures forall k :: i <= k < (if r.Some? then r.value else |mems|) ==> FirstFree(mems[k].blocks).None?
    decreases |mems| - i
  {
    if i == |mems| then None
    else if FirstFree(mems[i].blocks).Some? then Some(i)
    else FirstWithRoom(mems, i + 1)
  }

  function NewMem(p: Pool, start: Address): Mem {
    Mem(start, p.stackSize, seq(|p.taken|, _ => false), 0)
  }

  /** `GetCoroutineInstanse`; `start` is what malloc returns if a new region is needed. */
  function Got(p: Pool, start: Address): (r: (Pool, Handle))
    requires |p.inFunc| == |p.taken| == |p.stacks| >= 1 && |p.mems| >= 1
  {
    match FirstUsable(p.inFunc, p.taken)
    case Some(i) =>
      var h := Handle(i, p.stacks[i]);
      (p.(taken := p.taken[i := true], live := p.live + {h}), h)
    case None =>
      match FirstWithRoom(p.mems, 1)
      case Some(k) =>
        var (m, block) := Allotted(p.mems[k]);
        var h := Handle(-1, block.value);
        (p.(mems := p.mems[k := m], live := p.live + {h}), h)
      case None =>
        var (m, block) := Allotted(NewMem(p, start));
        var h := Handle(-1, block.value);
        (p.(mems := p.mems + [m], live := p.live + {h}), h)
  }

  ghost predicate Shaped(p: Pool) {
    |p.inFunc| == |p.taken| == |p.stacks| >= 1 && |p.mems| >= 1
  }

  /** A get yields the first pooled coroutine that is neither taken nor in its callback, if there is one. */
  lemma GetPrefersPooled(p: Pool, start: Address, i: nat)
    requires Shaped(p) && i < |p.taken| && !p.inFunc[i] && !p.taken[i]
    requires forall j :: 0 <= j < i ==> p.inFunc[j] || p.taken[j]
    ensures var h := Handle(i, p.stacks[i]);
            Got(p, start) == (p.(taken := p.taken[i := true], live := p.live + {h}), h)
  {
  }

  /** With none, the first free block of the first further region that has one. */
  lemma GetThenTakesBlock(p: Pool, start: Address, k: nat, t: nat)
    requires Shaped(p) && forall j :: 0 <= j < |p.taken| ==> p.inFunc[j] || p.taken[j]
    requires 1 <= k < |p.mems| && t < |p.mems[k].blocks| && !p.mems[k].blocks[t]
    requires forall u :: 0 <= u < t ==> p.mems[k].blocks[u]
    requires forall j :: 1 <= j < k ==> forall u :: 0 <= u < |p.mems[j].blocks| ==> p.mems[j].blocks[u]
    ensures var m := p.mems[k];
            var h := Handle(-1, m.start + t * m.blockSize);
            Got(p, start) == (p.(mems := p.mems[k := m.(blocks := m.blocks[t := true], refCount := m.refCount + 1)],
                                 live := p.live + {h}), h)
  {
    assert FirstFree(p.mems[k].blocks) == Some(t);
    assert FirstWithRoom(p.mems, 1) == Some(k);
  }

  /** With none of these either, the first block of a region made for it. */
  lemma GetThenGrows(p: Pool, start: Address)
    requires Shaped(p) && forall j :: 0 <= j < |p.taken| ==> p.inFunc[j] || p.taken[j]
    requires forall j :: 1 <= j < |p.mems| ==> forall u :: 0 <= u < |p.mems[j].blocks| ==> p.mems[j].blocks[u]
    ensures var h := Handle(-1, start);
            Got(p, start) == (p.(mems := p.mems + [Mem(start, p.stackSize, [true] + seq(|p.taken| - 1, _ => false), 1)],
                                 live := p.live + {h}), h)
  {
    assert FirstFree(NewMem(p, start).blocks) == Some(0);
    assert NewMem(p, start).blocks[0 := true] == [true] + seq(|p.taken| - 1, _ => false);
  }

  /** `BackBlock` on every region from `i` on that has the block. */
  function FreedFrom(mems: seq<Mem>, i: nat, block: Address): seq<Mem>
    requires i <= |mems| && forall m <- mems :: m.blockSize > 0
    decreases |mems| - i
  {
    if i == |mems| then mems
    else FreedFrom(mems[i := if mems[i].Has(block) then Freed(mems[i], block) else mems[i]], i + 1, block)
  }

  function Returned(p: Pool, h: Handle): Pool
    requires forall m <- p.mems :: m.blockSize > 0
  {
    var p1 := p.(live := p.live - {h});
    if 0 <= h.index < |p.taken| then p1.(taken := p.taken[h.index := false])
    else if |p.mems| == 0 then p1
    else p1.(mems := FreedFrom(p.mems, 1, h.stack))
  }

  predicate RegionsApart(a: Mem, b: Mem) {
    a.start + a.Size() <= b.start || b.start + b.Size() <= a.start
  }

  predicate MemOk(p: Pool, m: Mem) {
    m.blockSize == p.stackSize && |m.blocks| == |p.taken| && m.refCount == Used(m.blocks)
  }

  /** A block outside the first region is in use exactly if its coroutine is live. */
  ghost predicate BlocksOk(p: Pool, k: nat)
    requires k < |p.mems|
  {
    forall t :: 0 <= t < |p.mems[k].blocks| ==> (p.mems[k].blocks[t] <==> Handle(-1, p.mems[k].Block(t)) in p.live)
  }

  /** Every live coroutine is a pooled one, or a block outside the first region. */
  ghost predicate LiveOk(p: Pool, h: Handle) {
    if h.index == -1 then exists k: nat, t: nat :: HasHandle(p, h, k, t)
    else 0 <= h.index < |p.taken| == |p.stacks| && h.stack == p.stacks[h.index]
  }

  ghost predicate HasHandle(p: Pool, h: Handle, k: nat, t: nat) {
    1 <= k < |p.mems| && t < |p.mems[k].blocks| && h.stack == p.mems[k].Block(t)
  }

  ghost predicate Inv(p: Pool) {
    && p.stackSize > 0
    && |p.inFunc| == |p.taken| == |p.stacks| >= 1 && |p.mems| >= 1
    && (forall k :: 0 <= k < |p.mems| ==> MemOk(p, p.mems[k]))
    && (forall i, k :: 0 <= i < k < |p.mems| ==> RegionsApart(p.mems[i], p.mems[k]))
    && (forall i :: 0 <= i < |p.stacks| ==> p.stacks[i] == p.mems[0].Block(i))
    && (forall i :: 0 <= i < |p.taken| ==> (p.taken[i] <==> Handle(i, p.stacks[i]) in p.live))
    && (forall k :: 1 <= k < |p.mems| ==> BlocksOk(p, k))
    && (forall h :: h in p.live ==> LiveOk(p, h))
  }

  /** Blocks of different regions, and different blocks of one region, do not overlap. */
  lemma BlocksApart(p: Pool, j: nat, t: nat, k: nat, u: nat)
    requires Inv(p) && j < |p.mems| && k < |p.mems| && (j != k || t != u)
    requires t < |p.mems[j].blocks| && u < |p.mems[k].blocks|
    ensures var a, b := p.mems[j].Block(t), p.mems[k].Block(u);
            a + p.stackSize <= b || b + p.stackSize <= a
  {
    assert MemOk(p, p.mems[j]) && MemOk(p, p.mems[k]);
    BlockIsIn(p.mems[j], t);
    BlockIsIn(p.mems[k], u);
    if j == k {
      if t < u { BlocksFit(t, u, p.stackSize); } else { BlocksFit(u, t, p.stackSize); }
    } else if j < k {
      assert RegionsApart(p.mems[j], p.mems[k]);
    } else {
      assert RegionsApart(p.mems[k], p.mems[j]);
    }
  }

  /** Live coroutines have pairwise disjoint stacks. */
  lemma LiveStacksDisjoint(p: Pool, g: Handle, h: Handle)
    requires Inv(p) && g in p.live && h in p.live && g != h
    ensures g.stack + p.stackSize <= h.stack || h.stack + p.stackSize <= g.stack
  {
    assert LiveOk(p, g) && LiveOk(p, h);
    var (j, t) := PlaceOf(p, g);
    var (k, u) := PlaceOf(p, h);
    BlocksApart(p, j, t, k, u);
  }

  /** The block a live coroutine's stack is. */
  ghost function PlaceOf(p: Pool, h: Handle): (r: (nat, nat))
    requires Inv(p) && h in p.live
    ensures r.0 < |p.mems| && r.1 < |p.mems[r.0].blocks| && h.stack == p.mems[r.0].Block(r.1)
    ensures h.index == -1 <==> r.0 >= 1
    ensures h.index != -1 ==> r.1 == h.index
  {
    assert LiveOk(p, h);
    if h.index == -1 then
      var k: nat, t: nat :| HasHandle(p, h, k, t);
      (k, t)
    else
      assert MemOk(p, p.mems[0]);
      (0, h.index)
  }

  // ---- the operations keep the invariant ---------------------------------------------------------------

  datatype Op =
    | Get(start: Address)       // GetCoroutineInstanse; where malloc would put a new region
    | Return(h: Handle)         // ReturnCoroutine, once for each coroutine handed out
    | Flag(i: nat, inFunc: bool) // a pooled coroutine enters or leaves its callback

  predicate Enabled(p: Pool, op: Op) {
    match op
    case Get(start) => forall m <- p.mems :: RegionsApart(m, NewMem(p, start))
    case Return(h) => h in p.live
    case Flag(i, _) => i < |p.inFunc|
  }

  function Step(p: Pool, op: Op): Pool
    requires |p.inFunc| == |p.taken| == |p.stacks| >= 1 && |p.mems| >= 1
    requires forall m <- p.mems :: m.blockSize > 0
    requires Enabled(p, op)
  {
    match op
    case Get(start) => Got(p, start).0
    case Return(h) => Returned(p, h)
    case Flag(i, b) => p.(inFunc := p.inFunc[i := b])
  }

  lemma InvShape(p: Pool)
    requires Inv(p)
    ensures |p.inFunc| == |p.taken| == |p.stacks| >= 1 && |p.mems| >= 1
    ensures forall m <- p.mems :: m.blockSize > 0
    ensures forall k :: 0 <= k < |p.mems| ==> MemOk(p, p.mems[k])
  {
    forall m | m in p.mems
      ensures m.blockSize > 0
    {
      var k :| 0 <= k < |p.mems| && p.mems[k] == m;
      assert MemOk(p, p.mems[k]);
    }
  }

  lemma GetPooledKeeps(p: Pool, start: Address)
    requires Inv(p) && FirstUsable(p.inFunc, p.taken).Some?
    ensures Inv(Got(p, start).0) && Got(p, start).1 !in p.live
  {
    var (p', h) := Got(p, start);
    forall k | 1 <= k < |p'.mems|
      ensures BlocksOk(p', k)
    {
      assert BlocksOk(p, k);
    }
    forall g | g in p'.live
      ensures LiveOk(p', g)
    {
      if g != h { LiveOkSameMems(p, p', g); }
    }
  }

  lemma LiveOkSameMems(p: Pool, p': Pool, h: Handle)
    requires LiveOk(p, h) && |p'.taken| == |p.taken| && p'.stacks == p.stacks
    requires |p'.mems| >= |p.mems|
    requires forall k :: 0 <= k < |p.mems| ==>
               p'.mems[k].start == p.mems[k].start && p'.mems[k].blockSize == p.mems[k].blockSize
               && |p'.mems[k].blocks| == |p.mems[k].blocks|
    ensures LiveOk(p', h)
  {
    if h.index == -1 {
      var k: nat, t: nat :| HasHandle(p, h, k, t);
      assert HasHandle(p', h, k, t);
    }
  }

  /** Marking block `t` of region `k` used, its coroutine becoming live. */
  lemma UseBlockKeeps(p: Pool, k: nat, t: nat)
    requires Inv(p) && 1 <= k < |p.mems| && t < |p.mems[k].blocks| && !p.mems[k].blocks[t]
    ensures var m := p.mems[k];
            var h := Handle(-1, m.Block(t));
            h !in p.live
            && Inv(p.(mems := p.mems[k := m.(blocks := m.blocks[t := true], refCount := m.refCount + 1)],
                      live := p.live + {h}))
  {
    var m := p.mems[k];
    var h := Handle(-1, m.Block(t));
    var m' := m.(blocks := m.blocks[t := true], refCount := m.refCount + 1);
    var p' := p.(mems := p.mems[k := m'], live := p.live + {h});
    assert BlocksOk(p, k) && MemOk(p, m);
    UsedUpdate(m.blocks, t, true);
    forall j | 0 <= j < |p'.mems|
      ensures MemOk(p', p'.mems[j])
    {
      assert MemOk(p, p.mems[j]);
    }
    forall i, j | 0 <= i < j < |p'.mems|
      ensures RegionsApart(p'.mems[i], p'.mems[j])
    {
      assert RegionsApart(p.mems[i], p.mems[j]);
    }
    forall j | 1 <= j < |p'.mems|
      ensures BlocksOk(p', j)
    {
      OtherBlocksUnmoved(p, p', j, k, t, h);
    }
    forall g | g in p'.live
      ensures LiveOk(p', g)
    {
      if g == h {
        assert HasHandle(p', h, k, t);
      } else {
        LiveOkSameMems(p, p', g);
      }
    }
  }

  /** When only block `t` of region `k` changes, and `live` only by its handle, the other blocks stay right. */
  lemma OtherBlocksUnmoved(p: Pool, p': Pool, j: nat, k: nat, t: nat, h: Handle)
    requires Inv(p) && 1 <= j < |p.mems| == |p'.mems| && 1 <= k < |p.mems| && t < |p.mems[k].blocks|
    requires h == Handle(-1, p.mems[k].Block(t)) && p'.live in {p.live + {h}, p.live - {h}}
    requires p'.stackSize == p.stackSize && |p'.taken| == |p.taken|
    requires p'.mems[j].start == p.mems[j].start && p'.mems[j].blockSize == p.mems[j].blockSize
    requires p'.mems[j].blocks == if j == k then p.mems[k].blocks[t := h in p'.live] else p.mems[j].blocks
    ensures BlocksOk(p', j)
  {
    assert BlocksOk(p, j);
    forall u | 0 <= u < |p'.mems[j].blocks|
      ensures p'.mems[j].blocks[u] <==> Handle(-1, p'.mems[j].Block(u)) in p'.live
    {
      assert p'.mems[j].Block(u) == p.mems[j].Block(u);
      if j != k || u != t {
        BlocksApart(p, j, u, k, t);
      }
    }
  }

  lemma GetRoomKeeps(p: Pool, start: Address)
    requires Inv(p) && FirstUsable(p.inFunc, p.taken).None? && FirstWithRoom(p.mems, 1).Some?
    ensures Inv(Got(p, start).0) && Got(p, start).1 !in p.live
  {
    var k := FirstWithRoom(p.mems, 1).value;
    UseBlockKeeps(p, k, FirstFree(p.mems[k].blocks).value);
  }

  lemma {:induction false} NoneUsed(n: nat)
    ensures Used(seq(n, _ => false)) == 0
  {
    if n > 0 {
      assert seq(n, _ => false)[1..] == seq(n - 1, _ => false);
      NoneUsed(n - 1);
    }
  }

  /** A fresh region, no block of it in use. */
  lemma NewMemKeeps(p: Pool, start: Address)
    requires Inv(p) && Enabled(p, Get(start))
    ensures Inv(p.(mems := p.mems + [NewMem(p, start)]))
  {
    var m := NewMem(p, start);
    var p' := p.(mems := p.mems + [m]);
    NoneUsed(|p.taken|);
    forall j | 0 <= j < |p'.mems|
      ensures MemOk(p', p'.mems[j])
    {
      if j < |p.mems| { assert MemOk(p, p.mems[j]); }
    }
    forall i, j | 0 <= i < j < |p'.mems|
      ensures RegionsApart(p'.mems[i], p'.mems[j])
    {
      if j < |p.mems| { assert RegionsApart(p.mems[i], p.mems[j]); } else { assert p.mems[i] in p.mems; }
    }
    forall j | 1 <= j < |p'.mems|
      ensures BlocksOk(p', j)
    {
      if j < |p.mems| {
        assert BlocksOk(p, j);
      } else {
        forall u | 0 <= u < |m.blocks|
          ensures Handle(-1, m.Block(u)) !in p.live
        {
          NewBlockIsNotLive(p, m, u);
        }
      }
    }
    forall h | h in p'.live
      ensures LiveOk(p', h)
    {
      LiveOkSameMems(p, p', h);
    }
  }

  lemma NewBlockIsNotLive(p: Pool, m: Mem, u: nat)
    requires Inv(p) && MemOk(p, m.(refCount := Used(m.blocks))) && u < |m.blocks|
    requires forall k <- p.mems :: RegionsApart(k, m)
    ensures Handle(-1, m.Block(u)) !in p.live
  {
    var h := Handle(-1, m.Block(u));
    if h in p.live {
      var (k, t) := PlaceOf(p, h);
      assert MemOk(p, p.mems[k]) && RegionsApart(p.mems[k], m);
      BlockIsIn(p.mems[k], t);
      BlockIsIn(m, u);
      assert false;
    }
  }

  lemma GetNewKeeps(p: Pool, start: Address)
    requires Inv(p) && Enabled(p, Get(start))
    requires FirstUsable(p.inFunc, p.taken).None? && FirstWithRoom(p.mems, 1).None?
    ensures Inv(Got(p, start).0) && Got(p, start).1 !in p.live
  {
    var m := NewMem(p, start);
    var p1 := p.(mems := p.mems + [m]);
    NewMemKeeps(p, start);
    var k := |p.mems|;
    assert FirstFree(m.blocks) == Some(0);
    UseBlockKeeps(p1, k, 0);
    assert p1.mems[k := Allotted(m).0] == p.mems + [Allotted(m).0];
  }

  /** Only one region has a block of region `k`. */
  lemma OnlyRegion(p: Pool, k: nat, t: nat, j: nat)
    requires Inv(p) && k < |p.mems| && j < |p.mems| && t < |p.mems[k].blocks|
    ensures p.mems[j].Has(p.mems[k].Block(t)) <==> j == k
  {
    assert MemOk(p, p.mems[k]);
    BlockIsIn(p.mems[k], t);
    if j < k {
      assert RegionsApart(p.mems[j], p.mems[k]);
    } else if k < j {
      assert RegionsApart(p.mems[k], p.mems[j]);
    }
  }

  lemma {:induction false} FreedFromOne(mems: seq<Mem>, i: nat, block: Address, k: nat)
    requires i <= |mems| && k < |mems| && forall m <- mems :: m.blockSize > 0
    requires forall j :: i <= j < |mems| ==> (mems[j].Has(block) <==> j == k)
    ensures FreedFrom(mems, i, block) == if i <= k then mems[k := Freed(mems[k], block)] else mems
    decreases |mems| - i
  {
    if i < |mems| {
      var next := mems[i := if mems[i].Has(block) then Freed(mems[i], block) else mems[i]];
      if i != k {
        assert next == mems;
      }
      FreedFromOne(next, i + 1, block, k);
    }
  }

  /** A return frees exactly the block handed out, in exactly one region. */
  lemma ReturnFreesOneBlock(p: Pool, h: Handle, k: nat, t: nat)
    requires Inv(p) && h in p.live && h.index == -1 && HasHandle(p, h, k, t)
    requires forall m <- p.mems :: m.blockSize > 0
    ensures var m := p.mems[k];
            Returned(p, h) == p.(live := p.live - {h},
                                 mems := p.mems[k := m.(blocks := m.blocks[t := false], refCount := m.refCount - 1)])
  {
    forall j | 0 <= j < |p.mems|
      ensures p.mems[j].Has(h.stack) <==> j == k
    {
      OnlyRegion(p, k, t, j);
    }
    FreedFromOne(p.mems, 1, h.stack, k);
    assert MemOk(p, p.mems[k]);
    BlockIsIn(p.mems[k], t);
  }

  lemma ReturnBlockKeeps(p: Pool, h: Handle, k: nat, t: nat)
    requires Inv(p) && h in p.live && h.index == -1 && HasHandle(p, h, k, t)
    requires forall m <- p.mems :: m.blockSize > 0
    ensures Inv(Returned(p, h))
  {
    ReturnFreesOneBlock(p, h, k, t);
    hide Returned;
    var m := p.mems[k];
    var p' := Returned(p, h);
    assert BlocksOk(p, k) && MemOk(p, m) && m.blocks[t];
    UsedUpdate(m.blocks, t, false);
    forall j | 0 <= j < |p'.mems|
      ensures MemOk(p', p'.mems[j])
    {
      assert MemOk(p, p.mems[j]);
    }
    forall i, j | 0 <= i < j < |p'.mems|
      ensures RegionsApart(p'.mems[i], p'.mems[j])
    {
      assert RegionsApart(p.mems[i], p.mems[j]);
    }
    forall j | 1 <= j < |p'.mems|
      ensures BlocksOk(p', j)
    {
      OtherBlocksUnmoved(p, p', j, k, t, h);
    }
    forall g | g in p'.live
      ensures LiveOk(p', g)
    {
      LiveOkSameMems(p, p', g);
    }
  }

  lemma ReturnKeeps(p: Pool, h: Handle)
    requires Inv(p) && h in p.live
    requires forall m <- p.mems :: m.blockSize > 0
    ensures Inv(Returned(p, h))
  {
    assert LiveOk(p, h);
    if h.index == -1 {
      var k: nat, t: nat :| HasHandle(p, h, k, t);
      ReturnBlockKeeps(p, h, k, t);
    } else {
      var p' := Returned(p, h);
      forall k | 1 <= k < |p'.mems|
        ensures BlocksOk(p', k)
      {
        assert BlocksOk(p, k);
      }
      forall g | g in p'.live
        ensures LiveOk(p', g)
      {
        LiveOkSameMems(p, p', g);
      }
    }
  }

  lemma StepKeeps(p: Pool, op: Op)
    requires Inv(p) && Enabled(p, op)
    ensures forall m <- p.mems :: m.blockSize > 0
    ensures Inv(Step(p, op))
  {
    InvShape(p);
    match op
    case Get(start) => GetKeeps(p, start);
    case Return(h) => ReturnKeeps(p, h);
    case Flag(i, b) =>
      var p' := Step(p, op);
      forall k | 1 <= k < |p'.mems|
        ensures BlocksOk(p', k)
      {
        assert BlocksOk(p, k);
      }
      forall g | g in p'.live
        ensures LiveOk(p', g)
      {
        LiveOkSameMems(p, p', g);
      }
  }

  /** Getting: never a coroutine already live, never a pooled one still in its callback. */
  lemma GetKeeps(p: Pool, start: Address)
    requires Inv(p) && Enabled(p, Get(start))
    ensures Inv(Got(p, start).0) && Got(p, start).1 !in p.live
    ensures var h := Got(p, start).1; h.index >= 0 ==> h.index < |p.inFunc| && !p.inFunc[h.index]
  {
    InvShape(p);
    hide Inv;
    if FirstUsable(p.inFunc, p.taken).Some? {
      GetPooledKeeps(p, start);
    } else if FirstWithRoom(p.mems, 1).Some? {
      GetRoomKeeps(p, start);
    } else {
      GetNewKeeps(p, start);
    }
  }

  // ---- whole runs --------------------------------------------------------------------------------------

  predicate Legal(p: Pool, ops: seq<Op>)
    decreases |ops|
  {
    if ops == [] then true
    else
      && |p.inFunc| == |p.taken| == |p.stacks| >= 1 && |p.mems| >= 1
      && (forall m <- p.mems :: m.blockSize > 0)
      && Enabled(p, ops[0])
      && Legal(Step(p, ops[0]), ops[1..])
  }

  function After(p: Pool, ops: seq<Op>): Pool
    requires Legal(p, ops)
    decreases |ops|
  {
    if ops == [] then p else After(Step(p, ops[0]), ops[1..])
  }

  lemma {:induction false} RunKeeps(p: Pool, ops: seq<Op>)
    requires Inv(p) && Legal(p, ops)
    ensures Inv(After(p, ops))
    decreases |ops|
  {
    hide Inv, Step, Enabled;
    if ops != [] {
      StepKeeps(p, ops[0]);
      RunKeeps(Step(p, ops[0]), ops[1..]);
    }
  }

  /** The constructor: all the blocks of one region become the pooled coroutines. */
  function Fresh(poolSize: nat, stackSize: nat, start: Address): Pool {
    var m := Mem(start, stackSize, seq(poolSize, _ => true), poolSize);
    Pool(stackSize, seq(poolSize, i requires 0 <= i < poolSize => m.Block(i)),
         seq(poolSize, _ => false), seq(poolSize, _ => false), [m], {})
  }

  lemma {:induction false} AllUsed(n: nat)
    ensures Used(seq(n, _ => true)) == n
  {
    if n > 0 {
      assert seq(n, _ => true)[1..] == seq(n - 1, _ => true);
      AllUsed(n - 1);
    }
  }

  lemma FreshInv(poolSize: nat, stackSize: nat, start: Address)
    requires poolSize >= 1 && stackSize > 0
    ensures Inv(Fresh(poolSize, stackSize, start))
  {
    AllUsed(poolSize);
  }

  /**
   Over all sequences of getting and single returning: live coroutines have disjoint stacks, every
   reference count is the number of used blocks, and a further get yields a coroutine that is neither
   live nor, if pooled, inside its callback.
   */
  lemma PoolIsSafe(poolSize: nat, stackSize: nat, base: Address, ops: seq<Op>, start: Address)
    requires poolSize >= 1 && stackSize > 0 && Legal(Fresh(poolSize, stackSize, base), ops)
    requires Enabled(After(Fresh(poolSize, stackSize, base), ops), Get(start))
    ensures var p := After(Fresh(poolSize, stackSize, base), ops);
            && |p.inFunc| == |p.taken| == |p.stacks| >= 1 && |p.mems| >= 1
            && (forall g, h :: g in p.live && h in p.live && g != h ==>
                  g.stack + p.stackSize <= h.stack || h.stack + p.stackSize <= g.stack)
            && (forall k :: 0 <= k < |p.mems| ==> p.mems[k].refCount == Used(p.mems[k].blocks))
            && var h := Got(p, start).1;
               && h !in p.live
               && (h.index >= 0 ==> h.index < |p.inFunc| && !p.inFunc[h.index])
  {
    hide Inv, Enabled, Legal, After, Got, Fresh;
    FreshInv(poolSize, stackSize, base);
    RunKeeps(Fresh(poolSize, stackSize, base), ops);
    var p := After(Fresh(poolSize, stackSize, base), ops);
    InvShape(p);
    GetKeeps(p, start);
    forall g, h | g in p.live && h in p.live && g != h
      ensures g.stack + p.stackSize <= h.stack || h.stack + p.stackSize <= g.stack
    {
      LiveStacksDisjoint(p, g, h);
    }
  }

  // ---- the class ----------------------------------------------------------------------------------------

  class CoroutinePool {
    const stackSize: nat
    const stacks: seq<Address>  // of the coroutines in free_cors_
    var inFunc: seq<bool>       // their own flags
    var taken: seq<bool>        // the second components of free_cors_
    var memoryPool: seq<Memory>
    ghost var live: set<Handle>

    ghost predicate Valid()
      reads `inFunc, `taken, `memoryPool, memoryPool
    {
      && stackSize > 0 && |stacks| == |inFunc| == |taken| >= 1 && |memoryPool| >= 1
      && (forall i, j :: 0 <= i < j < |memoryPool| ==> memoryPool[i] != memoryPool[j])
      && (forall i :: 0 <= i < |memoryPool| ==> RegionValid(memoryPool[i]))
    }

    ghost predicate RegionValid(m: Memory)
      reads `taken, m
    {
      m.Valid() && m.blockSize == stackSize && m.blockCount == |taken|
    }

    ghost function Mems(): (ms: seq<Mem>)
      reads `memoryPool, memoryPool
      ensures |ms| == |memoryPool| && forall i :: 0 <= i < |ms| ==> ms[i] == memoryPool[i].View()
    {
      var pool := memoryPool;
      seq(|pool|, i requires 0 <= i < |pool| reads pool => pool[i].View())
    }

    ghost function View(): Pool
      reads this, memoryPool
    {
      Pool(stackSize, stacks, inFunc, taken, Mems(), live)
    }

    /** The scan of the pooled coroutines. */
    method FindUsable() returns (r: Option<nat>)
      requires |inFunc| == |taken|
      ensures r == FirstUsable(inFunc, taken)
    {
      var i := 0;
      assert inFunc[0..] == inFunc && taken[0..] == taken;
      while i < |taken|
        invariant 0 <= i <= |taken|
        invariant FirstUsable(inFunc, taken)
               == match FirstUsable(inFunc[i..], taken[i..])
                  case None => None
                  case Some(k) => Some(k + i)
      {
        UsableFrom(inFunc, taken, i);
        if !inFunc[i] && !taken[i] {
          return Some(i);
        }
        i := i + 1;
      }
      return None;
    }

    /** The scan of the regions after the first for a free block, which it takes. */
    method TakeFreeBlock() returns (k: Option<nat>, block: Address)
      requires Valid()
      modifies memoryPool
      ensures Valid()
      ensures k == FirstWithRoom(old(Mems()), 1)
      ensures k.None? ==> Mems() == old(Mems())
      ensures k.Some? ==>
                && Mems() == old(Mems())[k.value := Allotted(old(Mems())[k.value]).0]
                && Allotted(old(Mems())[k.value]).1 == Some(block)
    {
      hide FirstFree, Used;
      ghost var before := Mems();
      var i := 1;
      block := 0;
      while i < |memoryPool|
        invariant 1 <= i <= |memoryPool| && Valid() && Mems() == before
        invariant FirstWithRoom(before, 1) == FirstWithRoom(before, i)
      {
        assert before[i] == memoryPool[i].View() && RegionValid(memoryPool[i]);
        var tmp := memoryPool[i].GetBlock();
        assert Valid() by { assert forall j :: 0 <= j < |memoryPool| ==> RegionValid(memoryPool[j]); }
        if tmp.Some? {
          assert Mems() == before[i := Allotted(before[i]).0];
          return Some(i), tmp.value;
        }
        assert Mems() == before;
        i := i + 1;
      }
      return None, 0;
    }

    /** The first usable pooled coroutine, or else a block of a further region, made if need be. */
    method GetCoroutineInstanse(start: Address) returns (h: Handle)
      requires Valid()
      modifies `taken, `memoryPool, `live, memoryPool
      ensures Valid() && h == Got(old(View()), start).1 && View() == Got(old(View()), start).0
    {
      hide FirstUsable, FirstWithRoom, Allotted, Used;
      ghost var before := View();
      var i := FindUsable();
      if i.Some? {
        taken := taken[i.value := true];
        h := Handle(i.value, stacks[i.value]);
        live := live + {h};
        return;
      }
      var k, block := TakeFreeBlock();
      if k.Some? {
        h := Handle(-1, block);
        live := live + {h};
        return;
      }
      h := GetFromNewRegion(start);
    }

    method GetFromNewRegion(start: Address) returns (h: Handle)
      requires Valid()
      modifies `memoryPool, `live
      ensures Valid()
      ensures var m := Allotted(NewMem(old(View()), start));
              && m.1 == Some(h.stack) && h.index == -1
              && View() == old(View()).(mems := old(Mems()) + [m.0], live := old(live) + {h})
    {
      ghost var before := View();
      var memory := new Memory(stackSize, |taken|, start);
      var tmp := memory.GetBlock();
      FirstBlockIsFree(before, start);
      memoryPool := memoryPool + [memory];
      h := Handle(-1, tmp.value);
      live := live + {h};
      assert Mems() == before.mems + [Allotted(NewMem(before, start)).0];
    }

    /** Give a coroutine back: clear its flag, or free its block. */
    method ReturnCoroutine(cor: Handle)
      requires Valid()
      modifies `taken, `live, memoryPool
      ensures Valid()
      ensures forall m <- old(Mems()) :: m.blockSize > 0
      ensures View() == Returned(old(View()), cor)
    {
      hide Freed;
      assert forall m <- Mems() :: m.blockSize > 0;
      live := live - {cor};
      var i := cor.index;
      if i >= 0 && i < |taken| {
        taken := taken[i := false];
      } else {
        BackBlockEverywhere(cor.stack);
      }
    }

    method BackBlockEverywhere(stack: Address)
      requires Valid()
      modifies memoryPool
      ensures Valid()
      ensures forall m <- old(Mems()) :: m.blockSize > 0
      ensures Mems() == FreedFrom(old(Mems()), 1, stack)
    {
      hide Freed;
      assert forall m <- Mems() :: m.blockSize > 0;
      ghost var before := Mems();
      var k := 1;
      while k < |memoryPool|
        invariant 1 <= k <= |memoryPool| && Valid()
        invariant forall m <- Mems() :: m.blockSize > 0
        invariant FreedFrom(before, 1, stack) == FreedFrom(Mems(), k, stack)
      {
        BackBlockIfThere(k, stack);
        k := k + 1;
      }
    }

    method BackBlockIfThere(k: nat, stack: Address)
      requires Valid() && 1 <= k < |memoryPool| && forall m <- Mems() :: m.blockSize > 0
      modifies memoryPool[k]
      ensures Valid()
      ensures var m := old(Mems())[k];
              Mems() == old(Mems())[k := if m.Has(stack) then Freed(m, stack) else m]
    {
      assert RegionValid(memoryPool[k]);
      var has := memoryPool[k].HasBlock(stack);
      if has {
        memoryPool[k].BackBlock(stack);
      }
      assert forall j :: 0 <= j < |memoryPool| ==> RegionValid(memoryPool[j]);
    }
  }

  lemma UsableFrom(inFunc: seq<bool>, taken: seq<bool>, i: nat)
    requires i < |inFunc| == |taken|
    ensures FirstUsable(inFunc[i..], taken[i..])
         == if !inFunc[i] && !taken[i] then Some(0)
            else match FirstUsable(inFunc[i + 1..], taken[i + 1..])
                 case None => None
                 case Some(k) => Some(k + 1)
  {
    assert inFunc[i..][1..] == inFunc[i + 1..] && taken[i..][1..] == taken[i + 1..];
  }

  lemma FirstBlockIsFree(p: Pool, start: Address)
    requires |p.taken| >= 1
    ensures FirstFree(NewMem(p, start).blocks) == Some(0)
  {
  }
}
