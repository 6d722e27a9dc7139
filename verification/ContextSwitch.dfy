/** What a timer interrupt does to an interrupted context, and why a preempted process comes back
    exactly as it was.  Addresses count 32-bit words. */
module ContextSwitch {
  import opened MemoryMap
  import opened Scheduler
  import opened SchedulerRuns
  import opened Options

  /** Stack words by address; a word never written is zero. */
  type Memory = map<int, int>

  function Load(m: Memory, a: int): int { if a in m then m[a] else 0 }

  /** The registers of the processor. */
  datatype Cpu = Cpu(edi: int, esi: int, ebp: int, ebx: int, edx: int, ecx: int, eax: int,
                     eip: int, cs: int, eflags: int, esp: int, ss: int)

  const KERNEL_SS: int := 0x10
  const FRAME_WORDS: int := 13

  /** The lower two bits of the code segment are the privilege ring. */
  predicate InKernel(cs: int) { cs % 4 == 0 }

  /** A context of kernel code has the kernel's stack segment, and a stack. */
  predicate Sound(c: Cpu) { InKernel(c.cs) ==> c.ss == KERNEL_SS && c.esp != 0 }

  /** The address just past the frame of an interrupt: the stack pointer of interrupted kernel
      code, or the top of the kernel stack for a user program. */
  function Above(c: Cpu, stackTop: int): int { if InKernel(c.cs) then c.esp else stackTop }

  /** The frame the handler sees. */
  function FrameOf(c: Cpu, stackTop: int): Registers {
    var ring0 := InKernel(c.cs);
    Registers(c.edi, c.esi, c.ebp, Above(c, stackTop) - 5, c.ebx, c.edx, c.ecx, c.eax, c.eip, c.cs, c.eflags,
              if ring0 then 0 else c.esp, if ring0 then 0 else c.ss)
  }

  /** The context the stub returns to, from the frame the handler leaves. */
  function Loaded(r: Registers, above: int): Cpu {
    var ring0 := InKernel(r.cs);
    Cpu(r.edi, r.esi, r.ebp, r.ebx, r.edx, r.ecx, r.eax, r.eip, r.cs, r.eflags,
        if ring0 then (if r.esp == 0 then above else r.esp) else r.esp, if ring0 then KERNEL_SS else r.ss)
  }

  datatype Kern = Kern(sched: Sched, cpu: Cpu, mem: Memory)

  /** The words an interrupt may write: its frame, the handler's argument and return address below
      it, and the three words below the stack pointer it returns to in kernel code. */
  predicate Scratch(a: int, above: int, c: Cpu) {
    above - FRAME_WORDS - 2 <= a < above || (InKernel(c.cs) && c.esp - 3 <= a < c.esp)
  }

  /** The thirteen words at address p. */
  function FrameAt(m: Memory, p: int): Registers {
    Registers(Load(m, p), Load(m, p + 1), Load(m, p + 2), Load(m, p + 3), Load(m, p + 4), Load(m, p + 5),
              Load(m, p + 6),
              Load(m, p + 7), Load(m, p + 8), Load(m, p + 9), Load(m, p + 10), Load(m, p + 11), Load(m, p + 12))
  }

  /** Memory differs only in the frame at p. */
  ghost predicate OnlyFrame(m: Memory, m': Memory, p: int) {
    forall x: int :: !(p <= x < p + FRAME_WORDS) ==> Load(m', x) == Load(m, x)
  }

  /** Copying a frame to address p. */
  function FramePut(m: Memory, p: int, r: Registers): Memory {
    m[p := r.edi][p + 1 := r.esi][p + 2 := r.ebp][p + 3 := r.ignoredEsp][p + 4 := r.ebx][p + 5 := r.edx][p + 6 := r.ecx]
    [p + 7 := r.eax][p + 8 := r.eip][p + 9 := r.cs][p + 10 := r.eflags][p + 11 := r.esp][p + 12 := r.ss]
  }

  lemma FrameReadsBack(m: Memory, p: int, r: Registers)
    ensures FrameAt(FramePut(m, p, r), p) == r && OnlyFrame(m, FramePut(m, p, r), p)
  {
  }

  /** What is sure to be among those words afterwards: the frame, or the part of it that kernel
      code is returned to with. */
  predicate LeftBehind(m: Memory, c: Cpu, r: Registers, above: int) {
    if InKernel(c.cs) then Load(m, c.esp - 3) == c.eip && Load(m, c.esp - 2) == c.cs && Load(m, c.esp - 1) == c.eflags
    else FrameAt(m, above - FRAME_WORDS) == r
  }

  /** One timer interrupt, from the interrupted context to the one returned to. */
  ghost predicate Interrupted(k: Kern, k': Kern) {
    var above := Above(k.cpu, k.sched.stackTop);
    var (s, r) := Tick(k.sched, FrameOf(k.cpu, k.sched.stackTop), above);
    && k'.sched == s && k'.cpu == Loaded(r, above) && LeftBehind(k'.mem, k'.cpu, r, above)
    && forall a: int :: !Scratch(a, above, k'.cpu) ==> Load(k'.mem, a) == Load(k.mem, a)
  }

  // ----- one interrupt

  /** The frame keeps everything there is to a context. */
  lemma FrameLoadsBack(c: Cpu, stackTop: int)
    requires Sound(c)
    ensures Loaded(FrameOf(c, stackTop), Above(c, stackTop)) == c
  {
  }

  /** A tick that does not switch is the identity on the context and on the stack above it. */
  lemma TickWithoutSwitch(k: Kern, k': Kern)
    requires Interrupted(k, k') && Sound(k.cpu) && k'.sched.current == k.sched.current
    requires k.sched.current >= 0 ==> k.sched.current >= |k.sched.list| || !Ready(k.sched.list[k.sched.current])
    ensures k'.cpu == k.cpu
    ensures forall a: int :: a >= Above(k.cpu, k.sched.stackTop) ==> Load(k'.mem, a) == Load(k.mem, a)
  {
    FrameLoadsBack(k.cpu, k.sched.stackTop);
    var above := Above(k.cpu, k.sched.stackTop);
    SameCurrentSameFrame(k.sched, FrameOf(k.cpu, k.sched.stackTop), above);
  }

  lemma SameCurrentSameFrame(s: Sched, regs: Registers, above: int)
    requires Tick(s, regs, above).0.current == s.current
    requires s.current >= 0 ==> s.current >= |s.list| || !Ready(s.list[s.current])
    ensures Tick(s, regs, above).1 == regs
  {
    hide FindToRun;
    var k := s.(table := KERNEL_TABLE);
    if 0 <= s.current < |s.list| && FindToRun(k) != s.current {
      RemarkingKeepsChoice(k, Preempted(s.list[s.current], regs, above));
    }
  }

  /** A context to come back to, with the kernel stack and the page table that go with it. */
  datatype Saved = Saved(cpu: Cpu, above: int, table: nat)

  /** The record of a process off the processor keeps its context. */
  ghost predicate Keeps(p: Process, x: Saved) {
    && p.regs.cs == x.cpu.cs && p.kernelStack == x.above && p.table == x.table
    && Sound(x.cpu) && (InKernel(x.cpu.cs) ==> x.above == x.cpu.esp)
    && Loaded(p.regs, x.above) == x.cpu
  }

  /** Loading it again gives the context back, on whatever stack the switch happens. */
  lemma KeptLoadsBack(p: Process, x: Saved, elsewhere: int)
    requires Keeps(p, x) && (p.state == WAITING || (p.state == CREATED && !InKernel(x.cpu.cs)))
    ensures Loaded(ResumedRegisters(p), elsewhere) == x.cpu
  {
  }

  // ----- from preemption or creation to the processor

  /** The process with this id is not running, and its record keeps a context: one it was taken off
      the processor in, or the one in user code it was created with. */
  ghost predicate Kept(s: Sched, id: nat, x: Saved) {
    && NO_PROCESS <= s.current < |s.list|
    && exists i: nat :: KeptAt(s, i, id, x)
  }

  ghost predicate KeptAt(s: Sched, i: nat, id: nat, x: Saved) {
    && i < |s.list| && i != s.current && s.list[i].id == id && Keeps(s.list[i], x)
    && (s.list[i].state == WAITING || s.list[i].state == BLOCKED || (s.list[i].state == CREATED && !InKernel(x.cpu.cs)))
  }

  ghost predicate IsCurrent(s: Sched, id: nat) {
    0 <= s.current < |s.list| && s.list[s.current].id == id
  }

  /** A tick that takes the processor away from the current process keeps its context. */
  lemma PreemptionKeeps(k: Kern, k': Kern, id: nat)
    requires Life(k.sched) && Interrupted(k, k') && Sound(k.cpu)
    requires IsCurrent(k.sched, id) && k'.sched.current != k.sched.current
    ensures Kept(k'.sched, id, Saved(k.cpu, Above(k.cpu, k.sched.stackTop), k.sched.list[k.sched.current].table))
  {
    hide DistinctIds, ParentsEarlier, OneChildEach, BlockedAreParents, FindToRun, FrameOf, Loaded, LeftBehind;
    var c, top := k.cpu, k.sched.stackTop;
    FrameLoadsBack(c, top);
    FrameCs(c, top);
    var i: nat := k.sched.current;
    assert KeptAt(k'.sched, i, id, Saved(c, Above(c, top), k.sched.list[i].table));
  }

  lemma FrameCs(c: Cpu, top: int)
    ensures FrameOf(c, top).cs == c.cs && (InKernel(c.cs) ==> Above(c, top) == c.esp)
  {
  }

  /** A tick either leaves a kept context kept or returns to it. */
  lemma TickKeepsOrReturns(s: Sched, regs: Registers, above': int, id: nat, x: Saved)
    requires Life(s) && Kept(s, id, x)
    ensures var (s', r) := Tick(s, regs, above');
      if IsCurrent(s', id) then Loaded(r, above') == x.cpu && s'.stackTop == x.above && s'.table == x.table
      else Kept(s', id, x)
  {
    hide DistinctIds, ParentsEarlier, OneChildEach, BlockedAreParents, FindToRun, Loaded, Keeps, ResumedRegisters,
      InKernel;
    var i: nat :| KeptAt(s, i, id, x);
    var (s', r) := Tick(s, regs, above');
    assert s'.current != i ==> KeptAt(s', i, id, x);
    if IsCurrent(s', id) {
      TickIds(s, regs, above');
      IdsApart(s, i, s'.current);
      KeptLoadsBack(s.list[i], x, above');
      KeepsStack(s.list[i], x);
    }
  }

  lemma KeepsStack(p: Process, x: Saved)
    requires Keeps(p, x)
    ensures p.kernelStack == x.above && p.table == x.table
  {
  }

  lemma IdsApart(s: Sched, i: nat, j: nat)
    requires Life(s) && i < |s.list| && j < |s.list| && s.list[i].id == s.list[j].id
    ensures i == j
  {
  }

  lemma TickIds(s: Sched, regs: Registers, above: int)
    ensures var s' := Tick(s, regs, above).0;
      |s'.list| == |s.list| && forall i: nat :: i < |s.list| ==> s'.list[i].id == s.list[i].id
  {
    hide FindToRun;
  }

  /** The context a program in user code is created with. */
  function FirstContext(p: Process): Saved { Saved(Loaded(p.regs, p.kernelStack), p.kernelStack, p.table) }

  lemma ExecKeepsContext(s: Sched, child: Process, id: nat, x: Saved)
    requires 0 <= s.current < |s.list|
    requires Kept(s, id, x) || (id == child.id && !InKernel(child.regs.cs) && x == FirstContext(child))
    ensures Kept(Exec(s, child), id, x)
  {
    if Kept(s, id, x) {
      hide Keeps;
      var i: nat :| KeptAt(s, i, id, x);
      assert KeptAt(Exec(s, child), i, id, x);
    } else {
      assert KeptAt(Exec(s, child), |s.list|, id, x);
    }
  }

  lemma StartKeepsContext(s: Sched, p: Process, id: nat, x: Saved)
    requires NO_PROCESS <= s.current < |s.list|
    requires Kept(s, id, x) || (id == p.id && !InKernel(p.regs.cs) && x == FirstContext(p))
    ensures Kept(Start(s, p), id, x)
  {
    if Kept(s, id, x) {
      hide Keeps;
      var i: nat :| KeptAt(s, i, id, x);
      assert KeptAt(Start(s, p), i, id, x);
    } else {
      assert KeptAt(Start(s, p), |s.list|, id, x);
    }
  }

  lemma ResumeKeeps(p: Process, parent: Option<nat>, x: Saved)
    requires Keeps(p, x)
    ensures Keeps(Resume(p, parent), x) && Resume(p, parent).id == p.id
    ensures p.state == WAITING || p.state == BLOCKED ==>
      Resume(p, parent).state == WAITING || Resume(p, parent).state == BLOCKED
    ensures p.state == CREATED ==> Resume(p, parent).state == CREATED
  {
  }

  lemma ExitKeepsContext(s: Sched, id: nat, x: Saved)
    requires Kept(s, id, x) && 0 <= s.current < |s.list|
    ensures Kept(Exit(s), id, x)
  {
    hide Keeps, Exit;
    var i: nat :| KeptAt(s, i, id, x);
    var j: nat := if i < s.current then i else i - 1;
    ExitAt(s, j);
    ExitCurrent(s);
    ResumeKeeps(s.list[i], s.list[s.current].parent, x);
    assert KeptAt(Exit(s), j, id, x);
  }

  lemma EventKeepsContext(s: Sched, e: Event, id: nat, x: Saved)
    requires Kept(s, id, x) && !e.TimerTick? && Possible(s, e)
    ensures Kept(Happen(s, e), id, x)
  {
    hide FreshId, Exec, Exit, Start, KeptAt;
    match e
    case Execute(child) => ExecKeepsContext(s, child, id, x);
    case StartProgram(program) => StartKeepsContext(s, program, id, x);
    case ExitProcess => ExitKeepsContext(s, id, x);
  }
}
