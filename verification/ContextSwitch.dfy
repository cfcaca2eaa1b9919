/**
 The context switch and the coroutine operations built on it.

 The machine has the registers that `coctx_swap` touches and a stack memory of 64-bit words. A
 coroutine's code is arbitrary: between switches the running context may set registers and write
 memory as it likes, the saved contexts excepted. What is proved is what the caller of `Resume` or
 `Yield` sees: the call returns to where it was made, with the stack pointer as after a normal return
 and the registers that section 3.2.1 of the System V AMD64 ABI makes the callee preserve as they were.
 */
module ContextSwitch {
  import opened Common

  type Word = int

  datatype Regs = Regs(
    rax: Word, rbx: Word, rcx: Word, rdx: Word, rsi: Word, rdi: Word, rbp: Word, rsp: Word,
    r8: Word, r9: Word, r12: Word, r13: Word, r14: Word, r15: Word, rip: Word)

  // indices into CoCtx::regs_
  const R15 := 0
  const R14 := 1
  const R13 := 2
  const R12 := 3
  const R9 := 4
  const R8 := 5
  const RBP := 6
  const RDI := 7
  const RSI := 8
  const RET := 9
  const RDX := 10
  const RCX := 11
  const RBX := 12
  const RSP := 13

  type Saved = s: seq<Word> | |s| == 14 witness seq(14, _ => 0)

  type Memory = Word -> Word

  function Store(mem: Memory, at: Word, w: Word): Memory {
    a => if a == at then w else mem(a)
  }

  /** What `coctx_swap` saves of the context that calls it. */
  function SavedBy(r: Regs, mem: Memory): Saved {
    [r.r15, r.r14, r.r13, r.r12, r.r9, r.r8, r.rbp, r.rdi, r.rsi, mem(r.rsp), r.rdx, r.rcx, r.rbx, r.rsp]
  }

  /** The registers after the final `ret`, from the context switched to. */
  function Restored(to: Saved): Regs {
    Regs(0, to[RBX], to[RCX], to[RDX], to[RSI], to[RDI], to[RBP], to[RSP] + 8,
         to[R8], to[R9], to[R12], to[R13], to[R14], to[R15], to[RET])
  }

  /** The stack word that the final `push` and `ret` go through. */
  function Pushed(mem: Memory, to: Saved): Memory {
    Store(mem, to[RSP], to[RET])
  }

  class Cpu {
    var regs: Regs
    var mem: Memory

    constructor (regs: Regs, mem: Memory)
      ensures this.regs == regs && this.mem == mem
    {
      this.regs := regs;
      this.mem := mem;
    }

    /** `coctx_swap(from, to)`: lines 5 to 21, then lines 23 to 38; rdi and rsi hold the two pointers. */
    method CoctxSwap(from: array<Word>, to: array<Word>)
      requires from.Length == 14 && to.Length == 14 && from != to
      modifies this, from
      ensures from[..] == SavedBy(old(regs), old(mem))
      ensures regs == Restored(old(to[..]))
      ensures mem == Pushed(old(mem), old(to[..]))
    {
      hide SavedBy, Restored;
      Save(from);
      assert to[..] == old(to[..]);
      Load(to);
    }

    /** The stores of the first half. */
    method Save(from: array<Word>)
      requires from.Length == 14
      modifies this`regs, from
      ensures from[..] == SavedBy(old(regs), mem) && regs == old(regs).(rax := 0)
    {
      regs := regs.(rax := regs.rsp);      // leaq (%rsp), %rax
      from[13] := regs.rax;                // movq %rax, 104(%rdi)
      from[12] := regs.rbx;
      from[11] := regs.rcx;
      from[10] := regs.rdx;
      regs := regs.(rax := mem(regs.rax)); // movq 0(%rax), %rax
      from[9] := regs.rax;
      from[8] := regs.rsi;
      from[7] := regs.rdi;
      assert from[7..] == SavedBy(old(regs), mem)[7..];
      from[6] := regs.rbp;
      from[5] := regs.r8;
      from[4] := regs.r9;
      from[3] := regs.r12;
      from[2] := regs.r13;
      from[1] := regs.r14;
      from[0] := regs.r15;
      regs := regs.(rax := 0);             // xorq %rax, %rax
      assert from[..7] == SavedBy(old(regs), mem)[..7];
      assert from[..] == from[..7] + from[7..];
    }

    /** The loads of the second half, with rax zero. */
    method Load(to: array<Word>)
      requires to.Length == 14 && regs.rax == 0
      modifies this
      ensures regs == Restored(to[..])
      ensures mem == Pushed(old(mem), to[..])
    {
      regs := regs.(rbp := to[6]);
      regs := regs.(rsp := to[13]);
      regs := regs.(r15 := to[0], r14 := to[1], r13 := to[2], r12 := to[3], r9 := to[4], r8 := to[5]);
      regs := regs.(rdi := to[7]);
      regs := regs.(rdx := to[10], rcx := to[11], rbx := to[12]);
      regs := regs.(rsp := regs.rsp + 8);  // leaq 8(%rsp), %rsp
      regs := regs.(rsp := regs.rsp - 8);  // pushq 72(%rsi)
      mem := Store(mem, regs.rsp, to[9]);
      regs := regs.(rsi := to[8]);
      regs := regs.(rip := mem(regs.rsp)); // ret
      regs := regs.(rsp := regs.rsp + 8);
    }
  }

  /** What a caller may rely on after the call it made with these registers and memory returns. */
  datatype Contract = Contract(rip: Word, rsp: Word, rbx: Word, rbp: Word, r12: Word, r13: Word, r14: Word, r15: Word)

  /** At the first instruction of the callee: the return address is on top of the stack. */
  function Promised(r: Regs, mem: Memory): Contract {
    Contract(mem(r.rsp), r.rsp + 8, r.rbx, r.rbp, r.r12, r.r13, r.r14, r.r15)
  }

  /** What the registers are at some instruction. */
  function Observed(r: Regs): Contract {
    Contract(r.rip, r.rsp, r.rbx, r.rbp, r.r12, r.r13, r.r14, r.r15)
  }

  /** Saving and restoring keeps the promise made at the call. */
  lemma SwapKeepsPromise(r: Regs, mem: Memory)
    ensures Observed(Restored(SavedBy(r, mem))) == Promised(r, mem)
  {
  }

  /** Register by register, the argument registers included: all come back but rax, which is zero, and the instruction and stack pointers, which are as after a return. */
  lemma SwapRestores(r: Regs, mem: Memory)
    ensures Restored(SavedBy(r, mem)) == r.(rax := 0, rip := mem(r.rsp), rsp := r.rsp + 8)
  {
  }

  /** A switch writes one word of memory: the return address of the context switched to, where its stack pointer is. */
  lemma SwitchWritesOneWord(mem: Memory, to: Saved, at: Word)
    ensures Pushed(mem, to)(at) == if at == to[13] then to[9] else mem(at)
  {
  }

  // ---- coroutines -------------------------------------------------------------------------------

  /** The highest 16-byte boundary in the stack block, or its end. */
  function StackTop(stackSp: Word, stackSize: Word): (top: Word)
    ensures top % 16 == 0 && stackSp + stackSize - 16 < top <= stackSp + stackSize
  {
    (stackSp + stackSize) - (stackSp + stackSize) % 16
  }

  /** The context that `SetCallBack` prepares: entering `CoFunction(self)` on an empty stack. */
  function FreshContext(top: Word, coFunction: Word, self: Word): Saved {
    [0, 0, 0, 0, 0, 0, top, self, 0, coFunction, 0, 0, 0, top]
  }

  /**
   The first switch enters the function with its argument, on the coroutine's own stack: below the stack
   pointer is the one word of the return address, at the highest 16-byte boundary of the block, where the
   frame pointer is too.
   */
  lemma FreshContextEnters(stackSp: Word, stackSize: Word, coFunction: Word, self: Word)
    ensures var r := Restored(FreshContext(StackTop(stackSp, stackSize), coFunction, self));
            && r.rip == coFunction && r.rdi == self
            && stackSp + stackSize - 16 < r.rsp - 8 <= stackSp + stackSize && (r.rsp - 8) % 16 == 0
            && r.rbp == r.rsp - 8
  {
  }

  class Coroutine {
    const coctx: array<Word>
    const stackSp: Word
    const stackSize: Word
    const self: Word        // the object's own address, passed to CoFunction
    var isInCoFunc: bool
    var canResume: bool

    constructor (stackSp: Word, stackSize: Word, self: Word)
      ensures this.stackSp == stackSp && this.stackSize == stackSize && this.self == self
      ensures fresh(coctx) && coctx.Length == 14 && !isInCoFunc && canResume
    {
      coctx := new Word[14](_ => 0);
      this.stackSp, this.stackSize, this.self := stackSp, stackSize, self;
      isInCoFunc, canResume := false, true;
    }

    /** Prepare a new run; refused for a main coroutine and inside the callback. */
    method SetCallBack(isMain: bool, coFunction: Word) returns (ok: bool)
      requires coctx.Length == 14
      modifies this, coctx
      ensures ok <==> !isMain && !old(isInCoFunc)
      ensures ok ==> coctx[..] == FreshContext(StackTop(stackSp, stackSize), coFunction, self) && canResume
      ensures ok ==>
                && stackSp + stackSize - 16 < coctx[13] <= stackSp + stackSize && coctx[13] % 16 == 0
                && coctx[6] == coctx[13] && coctx[9] == coFunction && coctx[7] == self
      ensures !ok ==> coctx[..] == old(coctx[..]) && canResume == old(canResume)
      ensures isInCoFunc == old(isInCoFunc)
    {
      if isMain {
        return false;
      }
      if isInCoFunc {
        return false;
      }
      var top := stackSp + stackSize;
      top := top - top % 16;
      forall i | 0 <= i < 14 {
        coctx[i] := 0;
      }
      coctx[RSP] := top;
      coctx[RBP] := top;
      coctx[RET] := coFunction;
      coctx[RDI] := self;
      canResume := true;
      return true;
    }
  }

  /** The thread-local state: the processor, the main coroutine and the current one. */
  class ThreadContext {
    const cpu: Cpu
    const main: Coroutine
    var current: Coroutine

    constructor (cpu: Cpu, main: Coroutine)
      ensures this.cpu == cpu && this.main == main && current == main
    {
      this.cpu, this.main, current := cpu, main, main;
    }

    /** Switch from the main coroutine to `co`; refused elsewhere, for null, and when it cannot be resumed. */
    method Resume(co: Coroutine?) returns (switched: bool)
      requires main.coctx.Length == 14
      requires co != null ==> co.coctx.Length == 14 && (co != main ==> co.coctx != main.coctx)
      modifies this`current, cpu, main.coctx
      ensures switched <==> old(current) == main && co != null && co.canResume && co != main
      ensures switched ==>
                && current == co
                && main.coctx[..] == SavedBy(old(cpu.regs), old(cpu.mem))
                && cpu.regs == Restored(old(co.coctx[..]))
                && cpu.mem == Pushed(old(cpu.mem), old(co.coctx[..]))
      ensures !switched ==> current == old(current) && cpu.regs == old(cpu.regs) && cpu.mem == old(cpu.mem)
      ensures !switched ==> main.coctx[..] == old(main.coctx[..])
    {
      if current != main {
        return false;
      }
      if co == null || !co.canResume {
        return false;
      }
      if current == co {
        return false;
      }
      current := co;
      cpu.CoctxSwap(main.coctx, co.coctx);
      return true;
    }

    /** Switch from the current coroutine back to the main one; refused on the main coroutine. */
    method Yield() returns (switched: bool)
      requires main.coctx.Length == 14 && current.coctx.Length == 14
      requires current != main ==> current.coctx != main.coctx
      modifies this`current, cpu, current.coctx
      ensures switched <==> old(current) != main
      ensures switched ==>
                && current == main
                && old(current).coctx[..] == SavedBy(old(cpu.regs), old(cpu.mem))
                && cpu.regs == Restored(old(main.coctx[..]))
                && cpu.mem == Pushed(old(cpu.mem), old(main.coctx[..]))
      ensures !switched ==> current == main && cpu.regs == old(cpu.regs) && cpu.mem == old(cpu.mem)
      ensures !switched ==> main.coctx[..] == old(main.coctx[..])
    {
      if current == main {
        return false;
      }
      var co := current;
      current := main;
      cpu.CoctxSwap(co.coctx, main.coctx);
      return true;
    }
  }

  // ---- whole runs -----------------------------------------------------------------------------------

  type Id = nat  // a coroutine
  type Tid = nat // a thread

  /** Where the code of a running coroutine is, seen from `CoFunction`. */
  datatype Pos = Entry | Inside | End

  datatype Life =
    | Unset                     // constructed, no callback yet
    | Ready                     // SetCallBack done, not entered
    | Running(t: Tid, pos: Pos)
    | Suspended                 // switched out inside its callback
    | Finished                  // switched out after its callback returned

  /** `promise` is history: what the coroutine's last call of `coctx_swap` may rely on when it returns. */
  datatype Co = Co(ctx: Saved, inFunc: bool, canResume: bool, life: Life, promise: Contract)

  datatype Event = Resumed(co: Id) | Yielded(co: Id)

  datatype Thread = Thread(regs: Regs, current: Option<Id>, main: Saved, promise: Contract, log: seq<Event>)

  datatype State = State(cos: seq<Co>, threads: seq<Thread>, mem: Memory)

  /** The constants of a program: where `CoFunction` is, and each coroutine's stack top and address. */
  datatype Program = Program(coFunction: Word, top: Id -> Word, self: Id -> Word)

  datatype Step =
    | Compute(regs: Regs, mem: Memory) // the running context's own code, whatever it does
    | Resume(co: Id)
    | Yield
    | Enter                            // SetIsInCoFunc(true)
    | Leave                            // SetIsInCoFunc(false)
    | SetCallBack(co: Id)

  /** What callers of `Resume` owe: the coroutine is prepared or suspended, not finished and not running. */
  predicate Enabled(s: State, t: Tid, step: Step) {
    t < |s.threads| &&
    match step
    case Compute(_, _) => true
    case Resume(co) => co < |s.cos| && s.cos[co].life in {Ready, Suspended}
    case Yield =>
      s.threads[t].current.None? ||
      (CurrentIn(s, t) && Current(s, t).life in {Running(t, Inside), Running(t, End)})
    case Enter => CurrentIn(s, t) && Current(s, t).life == Running(t, Entry)
    case Leave => CurrentIn(s, t) && Current(s, t).life == Running(t, Inside)
    case SetCallBack(co) => co < |s.cos|
  }

  predicate CurrentIn(s: State, t: Tid) {
    t < |s.threads| && s.threads[t].current.Some? && s.threads[t].current.value < |s.cos|
  }

  function Current(s: State, t: Tid): Co
    requires CurrentIn(s, t)
  {
    s.cos[s.threads[t].current.value]
  }

  function Apply(p: Program, s: State, t: Tid, step: Step): State
    requires Enabled(s, t, step)
  {
    var th := s.threads[t];
    match step
    case Compute(regs, mem) => s.(threads := s.threads[t := th.(regs := regs)], mem := mem)
    case Resume(co) =>
      var c := s.cos[co];
      if th.current.Some? || !c.canResume then s
      else
        State(s.cos[co := c.(life := Running(t, if c.life.Ready? then Entry else Inside))],
              s.threads[t := Thread(Restored(c.ctx), Some(co), SavedBy(th.regs, s.mem),
                                    Promised(th.regs, s.mem), th.log + [Resumed(co)])],
              Pushed(s.mem, c.ctx))
    case Yield =>
      if th.current.None? then s
      else
        var c := Current(s, t);
        var co := th.current.value;
        State(s.cos[co := c.(ctx := SavedBy(th.regs, s.mem), promise := Promised(th.regs, s.mem),
                             life := if c.inFunc then Suspended else Finished)],
              s.threads[t := th.(regs := Restored(th.main), current := None, log := th.log + [Yielded(co)])],
              Pushed(s.mem, th.main))
    case Enter =>
      s.(cos := s.cos[th.current.value := Current(s, t).(inFunc := true, life := Running(t, Inside))])
    case Leave =>
      s.(cos := s.cos[th.current.value := Current(s, t).(inFunc := false, life := Running(t, End))])
    case SetCallBack(co) =>
      var c := s.cos[co];
      if c.inFunc then s
      else
        s.(cos := s.cos[co := c.(ctx := FreshContext(p.top(co), p.coFunction, p.self(co)), canResume := true,
                                 life := if c.life.Running? then c.life else Ready)])
  }

  ghost predicate CoOk(p: Program, s: State, co: Id)
    requires co < |s.cos|
  {
    var c := s.cos[co];
    && c.canResume
    && match c.life
       case Unset => !c.inFunc
       case Ready => !c.inFunc && c.ctx == FreshContext(p.top(co), p.coFunction, p.self(co))
       case Running(t, pos) =>
         t < |s.threads| && s.threads[t].current == Some(co) && (c.inFunc <==> pos.Inside?)
       case Suspended => c.inFunc && Observed(Restored(c.ctx)) == c.promise
       case Finished => !c.inFunc
  }

  /** Resumes and yields alternate, each yield matching the resume before it; `open` is the one still open. */
  predicate Alternates(log: seq<Event>, open: Option<Id>) {
    if log == [] then open.None?
    else
      var last, before := log[|log| - 1], log[..|log| - 1];
      match last
      case Resumed(co) => open == Some(co) && Alternates(before, None)
      case Yielded(co) => open.None? && Alternates(before, Some(co))
  }

  ghost predicate ThreadOk(s: State, t: Tid)
    requires t < |s.threads|
  {
    var th := s.threads[t];
    && Alternates(th.log, th.current)
    && (th.current.Some? ==>
          && th.current.value < |s.cos|
          && s.cos[th.current.value].life.Running? && s.cos[th.current.value].life.t == t
          && Observed(Restored(th.main)) == th.promise)
  }

  ghost predicate Inv(p: Program, s: State) {
    && (forall co :: 0 <= co < |s.cos| ==> CoOk(p, s, co))
    && (forall t :: 0 <= t < |s.threads| ==> ThreadOk(s, t))
  }

  lemma LogGrows(log: seq<Event>, e: Event)
    ensures (log + [e])[..|log + [e]| - 1] == log && (log + [e])[|log + [e]| - 1] == e
  {
  }

  lemma ResumeKeeps(p: Program, s: State, t: Tid, co: Id)
    requires Inv(p, s) && Enabled(s, t, Resume(co))
    ensures Inv(p, Apply(p, s, t, Resume(co)))
  {
    hide Observed, Restored, SavedBy, Promised, Pushed, FreshContext;
    var s' := Apply(p, s, t, Resume(co));
    SwapKeepsPromise(s.threads[t].regs, s.mem);
    LogGrows(s.threads[t].log, Resumed(co));
    assert CoOk(p, s, co) && ThreadOk(s, t);
    forall c | 0 <= c < |s'.cos|
      ensures CoOk(p, s', c)
    {
      assert CoOk(p, s, c);
    }
    forall u | 0 <= u < |s'.threads|
      ensures ThreadOk(s', u)
    {
      assert ThreadOk(s, u);
    }
  }

  lemma YieldKeeps(p: Program, s: State, t: Tid)
    requires Inv(p, s) && Enabled(s, t, Yield)
    ensures Inv(p, Apply(p, s, t, Yield))
  {
    hide Observed, Restored, SavedBy, Promised, Pushed, FreshContext;
    var s' := Apply(p, s, t, Yield);
    SwapKeepsPromise(s.threads[t].regs, s.mem);
    assert ThreadOk(s, t);
    if s.threads[t].current.Some? {
      LogGrows(s.threads[t].log, Yielded(s.threads[t].current.value));
      assert CoOk(p, s, s.threads[t].current.value);
    }
    forall c | 0 <= c < |s'.cos|
      ensures CoOk(p, s', c)
    {
      assert CoOk(p, s, c);
    }
    forall u | 0 <= u < |s'.threads|
      ensures ThreadOk(s', u)
    {
      assert ThreadOk(s, u);
    }
  }

  lemma StepKeeps(p: Program, s: State, t: Tid, step: Step)
    requires Inv(p, s) && Enabled(s, t, step)
    ensures Inv(p, Apply(p, s, t, step))
    ensures |Apply(p, s, t, step).threads| == |s.threads| && |Apply(p, s, t, step).cos| == |s.cos|
  {
    match step
    case Resume(co) => ResumeKeeps(p, s, t, co);
    case Yield => YieldKeeps(p, s, t);
    case _ =>
      hide Observed, Restored, SavedBy, Promised, Pushed, FreshContext;
      var s' := Apply(p, s, t, step);
      assert ThreadOk(s, t);
      forall c | 0 <= c < |s'.cos|
        ensures CoOk(p, s', c)
      {
        assert CoOk(p, s, c);
      }
      forall u | 0 <= u < |s'.threads|
        ensures ThreadOk(s', u)
      {
        assert ThreadOk(s, u);
      }
  }

  type Run = seq<(Tid, Step)>

  predicate Legal(p: Program, s: State, run: Run)
    decreases |run|
  {
    run == [] || (Enabled(s, run[0].0, run[0].1) && Legal(p, Apply(p, s, run[0].0, run[0].1), run[1..]))
  }

  function After(p: Program, s: State, run: Run): State
    requires Legal(p, s, run)
    decreases |run|
  {
    if run == [] then s else After(p, Apply(p, s, run[0].0, run[0].1), run[1..])
  }

  lemma {:induction false} RunKeeps(p: Program, s: State, run: Run)
    requires Inv(p, s) && Legal(p, s, run)
    ensures Inv(p, After(p, s, run))
    decreases |run|
  {
    hide Inv, Apply;
    if run != [] {
      StepKeeps(p, s, run[0].0, run[0].1);
      RunKeeps(p, Apply(p, s, run[0].0, run[0].1), run[1..]);
    }
  }

  /** Every thread in its main coroutine, every coroutine without a callback. */
  ghost predicate Initial(s: State) {
    && (forall co :: 0 <= co < |s.cos| ==>
          s.cos[co].life == Unset && !s.cos[co].inFunc && s.cos[co].canResume)
    && (forall t :: 0 <= t < |s.threads| ==> s.threads[t].current.None? && s.threads[t].log == [])
  }

  lemma InitialInv(p: Program, s: State)
    requires Initial(s)
    ensures Inv(p, s)
  {
  }

  /**
   Resuming, in any run over any number of threads and coroutines: a suspended coroutine continues at
   its own saved return address, with its stack pointer as after a normal return and its callee-saved
   registers as it left them; a prepared one enters `CoFunction` with itself as the argument, on its own
   stack.
   */
  lemma ResumeContinues(p: Program, s0: State, run: Run, t: Tid, co: Id)
    requires Initial(s0) && Legal(p, s0, run)
    requires var s := After(p, s0, run); Enabled(s, t, Resume(co)) && s.threads[t].current.None?
    ensures var s := After(p, s0, run);
            var s' := Apply(p, s, t, Resume(co));
            && s'.threads[t].current == Some(co)
            && (s.cos[co].life.Suspended? ==> Observed(s'.threads[t].regs) == s.cos[co].promise)
            && (s.cos[co].life.Ready? ==>
                  && s'.threads[t].regs.rip == p.coFunction && s'.threads[t].regs.rdi == p.self(co)
                  && s'.threads[t].regs.rsp == p.top(co) + 8 && s'.threads[t].regs.rbp == p.top(co))
  {
    hide Legal, After, SavedBy, Promised, Pushed;
    InitialInv(p, s0);
    RunKeeps(p, s0, run);
    assert CoOk(p, After(p, s0, run), co);
  }

  /** Yielding: the main coroutine continues where it called `Resume`, in the same sense. */
  lemma YieldReturns(p: Program, s0: State, run: Run, t: Tid)
    requires Initial(s0) && Legal(p, s0, run)
    requires var s := After(p, s0, run); Enabled(s, t, Yield) && s.threads[t].current.Some?
    ensures var s := After(p, s0, run);
            var s' := Apply(p, s, t, Yield);
            s'.threads[t].current.None? && Observed(s'.threads[t].regs) == s.threads[t].promise
  {
    hide Legal, After, SavedBy, Promised, Pushed;
    InitialInv(p, s0);
    RunKeeps(p, s0, run);
    assert ThreadOk(After(p, s0, run), t);
  }

  /** On each thread main and coroutines strictly alternate, and no coroutine runs on two threads. */
  lemma StrictAlternation(p: Program, s0: State, run: Run, t: Tid, u: Tid)
    requires Initial(s0) && Legal(p, s0, run)
    ensures var s := After(p, s0, run);
            t < |s.threads| ==>
              && Alternates(s.threads[t].log, s.threads[t].current)
              && (u < |s.threads| && u != t && s.threads[t].current.Some? ==>
                    s.threads[u].current != s.threads[t].current)
  {
    hide Legal, After, Alternates;
    InitialInv(p, s0);
    RunKeeps(p, s0, run);
    var s := After(p, s0, run);
    if t < |s.threads| {
      assert ThreadOk(s, t);
      if u < |s.threads| {
        assert ThreadOk(s, u);
      }
    }
  }

  /** `SetCallBack` leaves a coroutine suspended inside its callback exactly as it is. */
  lemma SetCallBackSparesSuspended(p: Program, s0: State, run: Run, t: Tid, co: Id)
    requires Initial(s0) && Legal(p, s0, run)
    requires var s := After(p, s0, run); Enabled(s, t, SetCallBack(co)) && s.cos[co].life.Suspended?
    ensures var s := After(p, s0, run); Apply(p, s, t, SetCallBack(co)) == s
  {
    hide Legal, After;
    InitialInv(p, s0);
    RunKeeps(p, s0, run);
    assert CoOk(p, After(p, s0, run), co);
  }
}
