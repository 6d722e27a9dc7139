/** Where the kernel stacks lie.  Each process gets a stretch below the one before it; a process
    preempted in the kernel leaves what is on its stretch, and nobody gives a stretch back.  As long
    as kernel code keeps to the stretch of its own process, whatever is switched in between, a
    process comes back as it was. */
module StackLayout {
  import opened MemoryMap
  import opened Scheduler
  import opened SchedulerRuns
  import opened ContextSwitch

  // in words
  const FIRST_STACK: int := 0x13_FFFF
  const STACK_WORDS: int := 0x4000
  const HEAP_WORDS: int := 0x8_0000

  /** How many stretches there are above the kernel heap. */
  const STACKS: nat := 47

  /** The words below a stack pointer an interrupt may write. */
  const REACH_WORDS: int := FRAME_WORDS + 2

  /** The top of the stretch of the process created as number id. */
  function Home(id: nat): int { FIRST_STACK - STACK_WORDS * id }

  function Floor(id: nat): int { Home(id) - STACK_WORDS }

  lemma StretchesApart(i: nat, j: nat)
    requires i != j
    ensures Home(i) <= Floor(j) || Home(j) <= Floor(i)
  {
  }

  lemma StretchesAboveHeap(id: nat)
    ensures id < STACKS <==> Floor(id) >= HEAP_WORDS
  {
  }

  // ----- the layout

  /** The kernel stack of a process lies in its stretch, with room for an interrupt below it; one
      that has not run yet starts in user code. */
  predicate HasStack(p: Process) {
    && p.id < STACKS && Floor(p.id) + REACH_WORDS <= p.kernelStack <= Home(p.id)
    && (p.state == CREATED ==> !InKernel(p.regs.cs))
  }

  ghost predicate LaidOut(s: Sched) {
    forall i: nat :: i < |s.list| ==> HasStack(s.list[i])
  }

  /** An interrupt on a stack pointer writes nothing in that stretch. */
  predicate Clear(esp: int, id: nat) {
    esp <= Floor(id) || esp - REACH_WORDS >= Home(id)
  }

  ghost predicate Idle(s: Sched, c: Cpu) {
    InKernel(c.cs) && c.esp >= REACH_WORDS && forall i: nat :: i < |s.list| ==> Clear(c.esp, s.list[i].id)
  }

  /** Kernel code runs on the stretch of the current process, with room for an interrupt; without
      a current process it runs clear of everybody's. */
  ghost predicate InPlace(k: Kern) {
    && Sound(k.cpu)
    && if 0 <= k.sched.current < |k.sched.list| then
         var id := k.sched.list[k.sched.current].id;
         InKernel(k.cpu.cs) ==> Floor(id) + REACH_WORDS <= k.cpu.esp <= Home(id)
       else Idle(k.sched, k.cpu)
  }

  ghost predicate Good(k: Kern) {
    Life(k.sched) && LaidOut(k.sched) && InPlace(k)
  }

  lemma GoodParts(k: Kern)
    requires Good(k)
    ensures Life(k.sched) && LaidOut(k.sched) && InPlace(k) && OnlyCurrentRuns(k.sched) && Sound(k.cpu)
    ensures NO_PROCESS <= k.sched.current < |k.sched.list|
    ensures k.sched.current >= 0 ==>
      !Ready(k.sched.list[k.sched.current]) && k.sched.stackTop == k.sched.list[k.sched.current].kernelStack
  {
    hide DistinctIds, ParentsEarlier, OneChildEach, BlockedAreParents, LaidOut, Idle, Floor, Home, Sound;
  }

  // ----- one interrupt

  /** A tick that switches turns to a ready process and loads what its record keeps. */
  lemma SwitchedTo(s: Sched, regs: Registers, above: int)
    requires OnlyCurrentRuns(s) && Tick(s, regs, above).0.current != s.current
    ensures var (s', r) := Tick(s, regs, above);
      && 0 <= s'.current < |s.list| && Ready(s.list[s'.current]) && r == ResumedRegisters(s.list[s'.current])
      && s'.stackTop == s.list[s'.current].kernelStack
  {
    hide FindToRun, ResumedRegisters;
  }

  /** What a tick does to the records. */
  lemma TickRecords(s: Sched, regs: Registers, above: int, i: nat)
    requires OnlyCurrentRuns(s) && i < |s.list|
    ensures var s' := Tick(s, regs, above).0;
      && |s'.list| == |s.list| && s'.list[i].id == s.list[i].id
      && s'.list[i].kernelStack == (if i == s.current && s'.current != s.current then above else s.list[i].kernelStack)
      && (s'.list[i].state == CREATED ==> s.list[i].state == CREATED && s'.list[i].regs == s.list[i].regs)
  {
    hide FindToRun, ResumedRegisters;
    var k := s.(table := KERNEL_TABLE);
    if s.current >= 0 && FindToRun(k) != s.current {
      RemarkingKeepsChoice(k, Preempted(s.list[s.current], regs, above));
      ChoiceIsReady(k);
    }
  }

  lemma LoadedEsp(p: Process, above: int)
    requires Ready(p) && HasStack(p) && InKernel(Loaded(ResumedRegisters(p), above).cs)
    ensures Loaded(ResumedRegisters(p), above).esp == p.kernelStack
  {
    StretchesAboveHeap(p.id);
  }

  /** The stack an interrupt in kernel code is taken on, and the one it returns to. */
  lemma ReturnsWhere(k: Kern, k': Kern)
    requires Good(k) && Interrupted(k, k')
    ensures NO_PROCESS <= k'.sched.current < |k.sched.list| == |k'.sched.list|
    ensures k'.sched.current == k.sched.current ==> k'.cpu == k.cpu
    ensures k'.sched.current != k.sched.current ==>
      k'.sched.current >= 0 && k'.sched.stackTop == k.sched.list[k'.sched.current].kernelStack
      && (InKernel(k'.cpu.cs) ==> k'.cpu.esp == k.sched.list[k'.sched.current].kernelStack)
  {
    GoodParts(k);
    hide Good, Life, InPlace, OnlyCurrentRuns, Tick, FrameOf, Loaded, HasStack, ResumedRegisters, Ready, LeftBehind,
      Scratch;
    var regs, above := FrameOf(k.cpu, k.sched.stackTop), Above(k.cpu, k.sched.stackTop);
    TickIds(k.sched, regs, above);
    if k'.sched.current == k.sched.current {
      TickWithoutSwitch(k, k');
    } else {
      SwitchedTo(k.sched, regs, above);
      var p := k.sched.list[k'.sched.current];
      if InKernel(k'.cpu.cs) { LoadedEsp(p, above); }
    }
  }

  /** The address an interrupt is taken at lies in the current process's stretch. */
  lemma AboveInPlace(k: Kern)
    requires Good(k) && k.sched.current >= 0
    ensures k.sched.current < |k.sched.list|
    ensures var id := k.sched.list[k.sched.current].id;
      id < STACKS && Floor(id) + REACH_WORDS <= Above(k.cpu, k.sched.stackTop) <= Home(id)
  {
    GoodParts(k);
    hide Life, OnlyCurrentRuns;
    assert HasStack(k.sched.list[k.sched.current]);
  }

  /** An interrupt keeps the layout. */
  lemma InterruptKeepsGood(k: Kern, k': Kern)
    requires Good(k) && Interrupted(k, k')
    ensures Good(k')
  {
    GoodParts(k);
    hide Life, InPlace, OnlyCurrentRuns, Tick, FrameOf, Loaded, LeftBehind, Scratch, Floor, Home, Good, HasStack,
      LaidOut, Above;
    TickKeepsLife(k.sched, FrameOf(k.cpu, k.sched.stackTop), Above(k.cpu, k.sched.stackTop));
    InterruptKeepsLayout(k, k');
    InterruptStaysInPlace(k, k');
    GoodFrom(k');
  }

  lemma GoodFrom(k: Kern)
    requires Life(k.sched) && LaidOut(k.sched) && InPlace(k)
    ensures Good(k)
  {
  }

  lemma InterruptKeepsLayout(k: Kern, k': Kern)
    requires Good(k) && Interrupted(k, k')
    ensures LaidOut(k'.sched)
  {
    GoodParts(k);
    hide Life, InPlace, OnlyCurrentRuns, Tick, FrameOf, Loaded, LeftBehind, Scratch, Floor, Home, Good, Above;
    var regs, above := FrameOf(k.cpu, k.sched.stackTop), Above(k.cpu, k.sched.stackTop);
    TickIds(k.sched, regs, above);
    if k.sched.current >= 0 { AboveInPlace(k); }
    forall i: nat | i < |k'.sched.list|
      ensures HasStack(k'.sched.list[i])
    {
      TickRecords(k.sched, regs, above, i);
      assert HasStack(k.sched.list[i]);
    }
  }

  lemma InterruptStaysInPlace(k: Kern, k': Kern)
    requires Good(k) && Interrupted(k, k')
    ensures InPlace(k')
  {
    GoodParts(k);
    hide Life, OnlyCurrentRuns, Tick, FrameOf, Loaded, LeftBehind, Scratch, Floor, Home, Good, Above;
    TickIds(k.sched, FrameOf(k.cpu, k.sched.stackTop), Above(k.cpu, k.sched.stackTop));
    ReturnsWhere(k, k');
    if k'.sched.current != k.sched.current {
      assert HasStack(k.sched.list[k'.sched.current]);
      StretchesAboveHeap(k.sched.list[k'.sched.current].id);
      ReturnedSound(k, k');
    }
  }

  lemma ReturnedSound(k: Kern, k': Kern)
    requires Interrupted(k, k')
    ensures InKernel(k'.cpu.cs) ==> k'.cpu.ss == KERNEL_SS
  {
    hide Tick, LeftBehind, Scratch;
  }

  lemma IdsDiffer(s: Sched, i: nat, j: nat)
    requires Life(s) && i < |s.list| && j < |s.list| && i != j
    ensures s.list[i].id != s.list[j].id
  {
    LifeParts(s);
    hide Life;
  }

  /** An interrupt writes nothing on the stretch of a listed process from its kernel stack up: from
      the address the interrupt is taken at, if that process is the current one. */
  lemma ScratchElsewhere(k: Kern, k': Kern, i: nat, a: int)
    requires Good(k) && Interrupted(k, k') && i < |k.sched.list|
    requires var from := if i == k.sched.current then Above(k.cpu, k.sched.stackTop) else k.sched.list[i].kernelStack;
      from <= a < Home(k.sched.list[i].id)
    ensures Load(k'.mem, a) == Load(k.mem, a)
  {
    var above := Above(k.cpu, k.sched.stackTop);
    if Scratch(a, above, k'.cpu) {
      GoodParts(k);
      assert HasStack(k.sched.list[i]);
      hide Life, OnlyCurrentRuns, LaidOut, Tick, FrameOf, Loaded, LeftBehind, Floor, Home, Good;
      FrameMisses(k, i, a);
      ReturnsWhere(k, k');
      ReturnMisses(k, k', i, a);
    }
  }

  lemma FrameMisses(k: Kern, i: nat, a: int)
    requires Good(k) && i < |k.sched.list| && Floor(k.sched.list[i].id) <= a < Home(k.sched.list[i].id)
    requires i == k.sched.current ==> Above(k.cpu, k.sched.stackTop) <= a
    ensures !(Above(k.cpu, k.sched.stackTop) - REACH_WORDS <= a < Above(k.cpu, k.sched.stackTop))
  {
    GoodParts(k);
    if k.sched.current >= 0 {
      AboveInPlace(k);
      if i != k.sched.current {
        IdsDiffer(k.sched, i, k.sched.current);
        StretchesApart(k.sched.list[i].id, k.sched.list[k.sched.current].id);
      }
    } else {
      assert Clear(k.cpu.esp, k.sched.list[i].id);
    }
  }

  lemma ReturnMisses(k: Kern, k': Kern, i: nat, a: int)
    requires Good(k) && Interrupted(k, k') && i < |k.sched.list|
    requires var from := if i == k.sched.current then Above(k.cpu, k.sched.stackTop) else k.sched.list[i].kernelStack;
      from <= a < Home(k.sched.list[i].id)
    ensures !(InKernel(k'.cpu.cs) && k'.cpu.esp - 3 <= a < k'.cpu.esp)
  {
    GoodParts(k);
    ReturnsWhere(k, k');
    hide Life, OnlyCurrentRuns, Tick, FrameOf, Loaded, LeftBehind, Scratch, Good;
    assert HasStack(k.sched.list[i]);
    var j := k'.sched.current;
    if j == k.sched.current {
      if j >= 0 { AboveInPlace(k); }
      FrameMisses(k, i, a);
    } else if i != j {
      assert HasStack(k.sched.list[j]);
      IdsDiffer(k.sched, i, j);
      StretchesApart(k.sched.list[i].id, k.sched.list[j].id);
    }
  }

  // ----- what runs between interrupts

  predicate SameStack(m: Memory, m': Memory, lo: int, hi: int) {
    forall a: int :: lo <= a < hi ==> Load(m', a) == Load(m, a)
  }

  /** The code of the current process, its kernel code included, keeps off the other stretches. */
  ghost predicate LeavesOthers(k: Kern, k': Kern) {
    forall i: nat :: i < |k.sched.list| && i != k.sched.current ==>
      SameStack(k.mem, k'.mem, Floor(k.sched.list[i].id), Home(k.sched.list[i].id))
  }

  /** A process is created in user code, with the next free stretch, while there is one. */
  predicate AtHome(p: Process) {
    p.id < STACKS && p.kernelStack == Home(p.id) && !InKernel(p.regs.cs)
  }

  predicate Housed(e: Event) {
    match e
    case TimerTick(_, _) => true
    case Execute(child) => AtHome(child)
    case StartProgram(program) => AtHome(program)
    case ExitProcess => true
  }

  /** Nothing changes in the process list, or a program is executed or started or exits. */
  ghost predicate Acts(s: Sched, s': Sched) {
    s' == s || exists e: Event :: ActsBy(s, e, s')
  }

  ghost predicate ActsBy(s: Sched, e: Event, s': Sched) {
    !e.TimerTick? && Possible(s, e) && Housed(e) && s' == Happen(s, e)
  }

  ghost predicate Worked(k: Kern, k': Kern) {
    LeavesOthers(k, k') && InPlace(k') && Acts(k.sched, k'.sched)
  }

  ghost predicate Stepped(k: Kern, k': Kern) {
    Worked(k, k') || Interrupted(k, k')
  }

  ghost predicate Steps(ks: seq<Kern>) {
    |ks| > 0 && forall i: nat, j: nat :: j == i + 1 && j < |ks| ==> Stepped(ks[i], ks[j])
  }

  lemma ActionKeepsLayout(s: Sched, e: Event, s': Sched)
    requires Life(s) && LaidOut(s) && ActsBy(s, e, s')
    ensures Life(s') && LaidOut(s')
  {
    HappenKeepsLife(s, e);
    hide Life, FreshId, Exit;
    match e
    case Execute(child) => StretchesAboveHeap(child.id);
    case StartProgram(program) => StretchesAboveHeap(program.id);
    case ExitProcess =>
      forall i: nat | i < |s'.list|
        ensures HasStack(s'.list[i])
      {
        ExitAt(s, i);
        assert HasStack(s.list[Shifted(s.current, i)]);
      }
  }

  lemma WorkKeepsGood(k: Kern, k': Kern)
    requires Good(k) && Worked(k, k')
    ensures Good(k')
  {
    hide Life, LaidOut, InPlace, LeavesOthers, ActsBy;
    if k'.sched != k.sched {
      var e: Event :| ActsBy(k.sched, e, k'.sched);
      ActionKeepsLayout(k.sched, e, k'.sched);
    }
  }

  lemma StepKeepsGood(k: Kern, k': Kern)
    requires Good(k) && Stepped(k, k')
    ensures Good(k')
  {
    hide Good, Worked, Interrupted;
    if Worked(k, k') { WorkKeepsGood(k, k'); } else { InterruptKeepsGood(k, k'); }
  }

  /** Over every run, the life cycle and the layout of the stacks last. */
  lemma {:induction false} RunKeepsLayout(ks: seq<Kern>, i: nat)
    requires Steps(ks) && Good(ks[0]) && i < |ks|
    ensures Good(ks[i])
  {
    hide Good, Stepped;
    if i > 0 {
      var j: nat := i - 1;
      RunKeepsLayout(ks, j);
      assert Stepped(ks[j], ks[i]);
      StepKeepsGood(ks[j], ks[i]);
    }
  }

  // ----- a process off the processor

  /** A run during which process id stays off the processor. */
  ghost predicate Away(ks: seq<Kern>, id: nat) {
    Steps(ks) && forall i: nat :: i < |ks| ==> !IsCurrent(ks[i].sched, id)
  }

  ghost predicate Intact(k: Kern, id: nat, x: Saved, m: Memory) {
    Good(k) && Kept(k.sched, id, x) && SameStack(m, k.mem, x.above, Home(id))
  }

  lemma KeptStretch(k: Kern, id: nat, x: Saved) returns (i: nat)
    requires Good(k) && Kept(k.sched, id, x)
    ensures i < |k.sched.list| && i != k.sched.current
    ensures k.sched.list[i].id == id && k.sched.list[i].kernelStack == x.above
    ensures Floor(id) <= x.above <= Home(id)
  {
    hide Life, InPlace;
    i :| KeptAt(k.sched, i, id, x);
    KeepsStack(k.sched.list[i], x);
    assert HasStack(k.sched.list[i]);
  }

  lemma WorkKeepsIntact(k: Kern, k': Kern, id: nat, x: Saved, m: Memory)
    requires Intact(k, id, x, m) && Worked(k, k')
    ensures Intact(k', id, x, m)
  {
    WorkKeepsGood(k, k');
    hide Good, Kept, Happen, Possible, InPlace, Floor, Home;
    var i := KeptStretch(k, id, x);
    assert SameStack(k.mem, k'.mem, Floor(k.sched.list[i].id), Home(k.sched.list[i].id));
    if k'.sched != k.sched {
      var e: Event :| ActsBy(k.sched, e, k'.sched);
      EventKeepsContext(k.sched, e, id, x);
    }
  }

  /** A timer interrupt writes nothing on the kept stack, whoever is interrupted and whoever is
      turned to. */
  lemma InterruptLeavesStack(k: Kern, k': Kern, id: nat, x: Saved)
    requires Good(k) && Interrupted(k, k') && Kept(k.sched, id, x)
    ensures SameStack(k.mem, k'.mem, x.above, Home(id))
  {
    hide Good, Kept, Interrupted, Home, Floor;
    var i := KeptStretch(k, id, x);
    forall a: int | x.above <= a < Home(id)
      ensures Load(k'.mem, a) == Load(k.mem, a)
    {
      ScratchElsewhere(k, k', i, a);
    }
  }

  lemma InterruptKeepsIntact(k: Kern, k': Kern, id: nat, x: Saved, m: Memory)
    requires Intact(k, id, x, m) && Interrupted(k, k')
    ensures Good(k') && SameStack(m, k'.mem, x.above, Home(id))
    ensures if IsCurrent(k'.sched, id) then k'.cpu == x.cpu && k'.sched.stackTop == x.above && k'.sched.table == x.table
      else Kept(k'.sched, id, x)
  {
    InterruptKeepsGood(k, k');
    InterruptLeavesStack(k, k', id, x);
    GoodParts(k);
    hide Good, Life, InPlace, OnlyCurrentRuns, LaidOut, Kept, Tick, FrameOf, Loaded, Above, Scratch, IsCurrent,
      LeftBehind, Home;
    TickKeepsOrReturns(k.sched, FrameOf(k.cpu, k.sched.stackTop), Above(k.cpu, k.sched.stackTop), id, x);
  }

  lemma {:induction false} AwayKeepsIntact(ks: seq<Kern>, id: nat, x: Saved, m: Memory, i: nat)
    requires Away(ks, id) && Intact(ks[0], id, x, m) && i < |ks|
    ensures Intact(ks[i], id, x, m)
  {
    hide Intact, Stepped, IsCurrent;
    if i > 0 {
      var j: nat := i - 1;
      AwayKeepsIntact(ks, id, x, m, j);
      assert Stepped(ks[j], ks[i]) && !IsCurrent(ks[i].sched, id);
      StepKeepsIntact(ks[j], ks[i], id, x, m);
    }
  }

  lemma StepKeepsIntact(k: Kern, k': Kern, id: nat, x: Saved, m: Memory)
    requires Intact(k, id, x, m) && Stepped(k, k') && !IsCurrent(k'.sched, id)
    ensures Intact(k', id, x, m)
  {
    hide Good, Worked, Interrupted, IsCurrent, Kept, SameStack, Home;
    if Worked(k, k') {
      WorkKeepsIntact(k, k', id, x, m);
    } else {
      InterruptKeepsIntact(k, k', id, x, m);
    }
  }

  lemma LeftProcessor(k: Kern, k': Kern, id: nat)
    requires IsCurrent(k.sched, id) && Interrupted(k, k') && !IsCurrent(k'.sched, id)
    ensures k'.sched.current != k.sched.current
  {
    TickIds(k.sched, FrameOf(k.cpu, k.sched.stackTop), Above(k.cpu, k.sched.stackTop));
    hide Tick, FrameOf, Loaded, LeftBehind, Scratch;
  }

  /** What a process is taken off the processor with. */
  function ContextOf(k: Kern): Saved
    requires 0 <= k.sched.current < |k.sched.list|
  {
    Saved(k.cpu, Above(k.cpu, k.sched.stackTop), k.sched.list[k.sched.current].table)
  }

  lemma FirstIntact(k: Kern, k': Kern, id: nat)
    requires Good(k) && IsCurrent(k.sched, id) && Interrupted(k, k') && !IsCurrent(k'.sched, id)
    ensures Intact(k', id, ContextOf(k), k.mem)
  {
    GoodParts(k);
    LeftProcessor(k, k', id);
    hide Good, Life, Interrupted, InPlace, OnlyCurrentRuns, LaidOut, Above, Home, Kept;
    PreemptionKeeps(k, k', id);
    InterruptKeepsGood(k, k');
    forall a: int | Above(k.cpu, k.sched.stackTop) <= a < Home(id)
      ensures Load(k'.mem, a) == Load(k.mem, a)
    {
      ScratchElsewhere(k, k', k.sched.current, a);
    }
  }

  /** A process preempted in any ring comes back with the same registers, stack pointer and return
      frame, on its page table, and with the stack above that frame untouched, whatever runs,
      starts, exits and is switched in between. */
  lemma PreemptedComesBack(k: Kern, ks: seq<Kern>, k': Kern, id: nat)
    requires Good(k) && IsCurrent(k.sched, id)
    requires Away(ks, id) && Interrupted(k, ks[0]) && Interrupted(ks[|ks| - 1], k') && IsCurrent(k'.sched, id)
    ensures k'.cpu == k.cpu && SameStack(k.mem, k'.mem, Above(k.cpu, k.sched.stackTop), Home(id))
    ensures k'.sched.stackTop == Above(k.cpu, k.sched.stackTop) && k'.sched.table == k.sched.list[k.sched.current].table
    ensures Good(k')
  {
    hide *;
    AwayParts(ks, id, 0);
    CurrentInList(k, id);
    FirstIntact(k, ks[0], id);
    AwayKeepsIntact(ks, id, ContextOf(k), k.mem, |ks| - 1);
    InterruptKeepsIntact(ks[|ks| - 1], k', id, ContextOf(k), k.mem);
    ContextParts(k);
  }

  lemma AwayParts(ks: seq<Kern>, id: nat, i: nat)
    requires Away(ks, id)
    ensures |ks| > 0 && (i < |ks| ==> !IsCurrent(ks[i].sched, id))
  {
  }

  lemma CurrentInList(k: Kern, id: nat)
    requires IsCurrent(k.sched, id)
    ensures 0 <= k.sched.current < |k.sched.list|
  {
  }

  lemma ContextParts(k: Kern)
    requires 0 <= k.sched.current < |k.sched.list|
    ensures var x := ContextOf(k);
      x.cpu == k.cpu && x.above == Above(k.cpu, k.sched.stackTop) && x.table == k.sched.list[k.sched.current].table
  {
  }

  // ----- a process that has not run yet

  lemma CreatedIntact(k: Kern, k': Kern, e: Event, p: Process)
    requires Good(k) && LeavesOthers(k, k') && InPlace(k') && ActsBy(k.sched, e, k'.sched)
    requires e == Execute(p) || e == StartProgram(p)
    ensures Intact(k', p.id, FirstContext(p), k'.mem)
  {
    GoodParts(k);
    ActionKeepsLayout(k.sched, e, k'.sched);
    hide Life, LaidOut, InPlace, OnlyCurrentRuns, Exec, Start, FreshId, Kept, FirstContext;
    if e == Execute(p) { ExecKeepsContext(k.sched, p, p.id, FirstContext(p)); }
    else { StartKeepsContext(k.sched, p, p.id, FirstContext(p)); }
  }

  /** A program executed or started, whatever happens before its turn, begins in exactly the context
      it was created with, at the top of its own stretch and on its own page table. */
  lemma CreatedStarts(k: Kern, e: Event, p: Process, ks: seq<Kern>, k': Kern)
    requires Good(k) && (e == Execute(p) || e == StartProgram(p))
    requires Away(ks, p.id) && LeavesOthers(k, ks[0]) && InPlace(ks[0]) && ActsBy(k.sched, e, ks[0].sched)
    requires Interrupted(ks[|ks| - 1], k') && IsCurrent(k'.sched, p.id)
    ensures var r := p.regs;
      k'.cpu == Cpu(r.edi, r.esi, r.ebp, r.ebx, r.edx, r.ecx, r.eax, r.eip, r.cs, r.eflags, r.esp, r.ss)
    ensures k'.sched.stackTop == Home(p.id) && k'.sched.table == p.table
  {
    FirstContextIs(p, k.sched, e, ks[0].sched);
    hide *;
    AwayParts(ks, p.id, 0);
    CreatedIntact(k, ks[0], e, p);
    AwayKeepsIntact(ks, p.id, FirstContext(p), ks[0].mem, |ks| - 1);
    InterruptKeepsIntact(ks[|ks| - 1], k', p.id, FirstContext(p), ks[0].mem);
  }

  lemma FirstContextIs(p: Process, s: Sched, e: Event, s': Sched)
    requires ActsBy(s, e, s') && (e == Execute(p) || e == StartProgram(p))
    ensures var r := p.regs;
      FirstContext(p) == Saved(Cpu(r.edi, r.esi, r.ebp, r.ebx, r.edx, r.ecx, r.eax, r.eip, r.cs, r.eflags, r.esp, r.ss),
                               Home(p.id), p.table)
  {
  }

  // ----- how long the layout lasts

  /** A process interrupted in the kernel, some words down its stack, leaves those words behind when
      it comes back: the next interrupt of its user code starts a frame that much lower. */
  lemma KernelStackSinks(k: Kern, ks: seq<Kern>, k': Kern, id: nat, user: Cpu)
    requires Good(k) && IsCurrent(k.sched, id) && InKernel(k.cpu.cs) && !InKernel(user.cs)
    requires Away(ks, id) && Interrupted(k, ks[0]) && Interrupted(ks[|ks| - 1], k') && IsCurrent(k'.sched, id)
    ensures Above(user, k'.sched.stackTop) == Above(user, k.sched.stackTop) - (k.sched.stackTop - k.cpu.esp)
  {
    hide Good, IsCurrent, Interrupted, Away;
    PreemptedComesBack(k, ks, k', id);
  }

  /** Kernel code goes at most d words below where it was entered; without a current process it runs
      clear of everybody's stretch. */
  ghost predicate Shallow(k: Kern, d: nat) {
    && Sound(k.cpu)
    && if 0 <= k.sched.current < |k.sched.list| then
         InKernel(k.cpu.cs) ==>
           k.sched.stackTop - d <= k.cpu.esp <= Home(k.sched.list[k.sched.current].id)
       else Idle(k.sched, k.cpu)
  }

  ghost predicate ShallowStep(k: Kern, k': Kern, d: nat) {
    (LeavesOthers(k, k') && Shallow(k', d) && Acts(k.sched, k'.sched)) || Interrupted(k, k')
  }

  ghost predicate ShallowSteps(ks: seq<Kern>, d: nat) {
    |ks| > 0 && forall i: nat, j: nat :: j == i + 1 && j < |ks| ==> ShallowStep(ks[i], ks[j], d)
  }

  /** Process id is taken off the processor in the kernel. */
  ghost predicate Sunk(k: Kern, k': Kern, id: nat) {
    IsCurrent(k.sched, id) && InKernel(k.cpu.cs) && Interrupted(k, k') && k'.sched.current != k.sched.current
  }

  /** How many times that happens in the first n + 1 states of a run. */
  ghost function Sinkings(ks: seq<Kern>, id: nat, n: nat): nat
    requires n < |ks|
  {
    if n == 0 then 0 else Sinkings(ks, id, n - 1) + if Sunk(ks[n - 1], ks[n], id) then 1 else 0
  }

  /** What a process may have lost of its stretch. */
  function Lost(times: nat, d: nat): nat { times * d }

  lemma LostMore(times: nat, d: nat)
    ensures Lost(times + 1, d) == Lost(times, d) + d && Lost(0, d) == 0
  {
  }

  lemma {:induction false} SinkingsGrow(ks: seq<Kern>, id: nat, m: nat, n: nat)
    requires m <= n < |ks|
    ensures Sinkings(ks, id, m) <= Sinkings(ks, id, n)
  {
    if m < n { SinkingsGrow(ks, id, m, n - 1); }
  }

  lemma LostMonotone(a: nat, b: nat, d: nat)
    requires a <= b
    ensures Lost(a, d) <= Lost(b, d)
  {
  }

  /** Each process has lost no more than its preemptions account for. */
  ghost predicate Accounted(k: Kern, ks: seq<Kern>, n: nat, d: nat)
    requires n < |ks|
  {
    forall i: nat :: i < |k.sched.list| ==> RecordAccounted(k.sched.list[i], Sinkings(ks, k.sched.list[i].id, n), d)
  }

  predicate RecordAccounted(p: Process, times: nat, d: nat) {
    && p.id < STACKS && Home(p.id) - Lost(times, d) <= p.kernelStack <= Home(p.id)
    && (p.state == CREATED ==> !InKernel(p.regs.cs))
  }

  /** The stretches are long enough for what the run does: n times d words lost, d words in use and
      an interrupt below them. */
  ghost predicate LongEnough(ks: seq<Kern>, d: nat)
    requires |ks| > 0
  {
    forall id: nat :: EnoughFor(AllSinkings(ks, id), d)
  }

  ghost function AllSinkings(ks: seq<Kern>, id: nat): nat
    requires |ks| > 0
  {
    Sinkings(ks, id, |ks| - 1)
  }

  predicate EnoughFor(times: nat, d: nat) {
    Lost(times, d) + d + REACH_WORDS <= STACK_WORDS
  }

  lemma RoomLeft(ks: seq<Kern>, d: nat, id: nat, n: nat)
    requires n < |ks| && LongEnough(ks, d)
    ensures Lost(Sinkings(ks, id, n), d) + d + REACH_WORDS <= STACK_WORDS
  {
    SinkingsGrow(ks, id, n, |ks| - 1);
    assert EnoughFor(AllSinkings(ks, id), d);
    hide Sinkings, Lost;
    LostMonotone(Sinkings(ks, id, n), Sinkings(ks, id, |ks| - 1), d);
  }

  lemma AccountedIsGood(k: Kern, ks: seq<Kern>, n: nat, d: nat)
    requires n < |ks| && LongEnough(ks, d) && Life(k.sched) && Accounted(k, ks, n, d) && Shallow(k, d)
    ensures Good(k)
  {
    LifeParts(k.sched);
    hide Life, Sinkings, Lost, LongEnough;
    forall i: nat | i < |k.sched.list|
      ensures HasStack(k.sched.list[i])
      ensures i == k.sched.current && InKernel(k.cpu.cs) ==> Floor(k.sched.list[i].id) + REACH_WORDS <= k.cpu.esp
    {
      RoomLeft(ks, d, k.sched.list[i].id, n);
      assert RecordAccounted(k.sched.list[i], Sinkings(ks, k.sched.list[i].id, n), d);
    }
  }

  lemma AccountedLater(p: Process, times: nat, later: nat, d: nat)
    requires RecordAccounted(p, times, d) && times <= later
    ensures RecordAccounted(p, later, d)
  {
    LostMonotone(times, later, d);
  }

  lemma OneMoreSinking(ks: seq<Kern>, id: nat, n: nat)
    requires n + 1 < |ks|
    ensures Sinkings(ks, id, n + 1) == Sinkings(ks, id, n) + if Sunk(ks[n], ks[n + 1], id) then 1 else 0
  {
  }

  lemma SameAccount(p: Process, p': Process, times: nat, d: nat)
    requires RecordAccounted(p, times, d) && p'.id == p.id && p'.kernelStack == p.kernelStack
    requires p'.state == CREATED ==> p.state == CREATED && p'.regs == p.regs
    ensures RecordAccounted(p', times, d)
  {
  }

  lemma SunkAccount(p: Process, p': Process, times: nat, d: nat)
    requires RecordAccounted(p, times, d) && p'.id == p.id && p.kernelStack - d <= p'.kernelStack <= Home(p.id)
    requires p'.state == CREATED ==> p.state == CREATED && p'.regs == p.regs
    ensures RecordAccounted(p', times + 1, d)
  {
    LostMore(times, d);
  }

  /** What an interrupt does to a stack in the account: nothing, or a process interrupted at most d
      words down in the kernel is taken off the processor. */
  lemma InterruptSinks(k: Kern, k': Kern, d: nat, i: nat)
    requires Good(k) && Shallow(k, d) && Interrupted(k, k') && i < |k.sched.list| == |k'.sched.list|
    ensures var p, p' := k.sched.list[i], k'.sched.list[i];
      && p'.id == p.id && (p'.state == CREATED ==> p.state == CREATED && p'.regs == p.regs)
      && (p'.kernelStack == p.kernelStack || (Sunk(k, k', p.id) && p.kernelStack - d <= p'.kernelStack <= Home(p.id)))
  {
    GoodParts(k);
    hide Life, InPlace, OnlyCurrentRuns, Tick, FrameOf, Loaded, LeftBehind, Scratch, LaidOut, Good, Idle, Sound;
    TickRecords(k.sched, FrameOf(k.cpu, k.sched.stackTop), Above(k.cpu, k.sched.stackTop), i);
    if i == k.sched.current { AboveInPlace(k); }
  }

  lemma InterruptAccounted(ks: seq<Kern>, n: nat, d: nat, i: nat)
    requires n + 1 < |ks| && Good(ks[n]) && Accounted(ks[n], ks, n, d)
    requires Shallow(ks[n], d) && Interrupted(ks[n], ks[n + 1])
    requires i < |ks[n].sched.list| == |ks[n + 1].sched.list|
    ensures RecordAccounted(ks[n + 1].sched.list[i], Sinkings(ks, ks[n + 1].sched.list[i].id, n + 1), d)
  {
    hide Good, Shallow, Interrupted, Sinkings, RecordAccounted, Sunk;
    var k, k' := ks[n], ks[n + 1];
    var p, p' := k.sched.list[i], k'.sched.list[i];
    InterruptSinks(k, k', d, i);
    OneMoreSinking(ks, p.id, n);
    var times := Sinkings(ks, p.id, n);
    assert RecordAccounted(p, times, d);
    if p'.kernelStack == p.kernelStack {
      SameAccount(p, p', times, d);
      AccountedLater(p', times, Sinkings(ks, p.id, n + 1), d);
    } else {
      SunkAccount(p, p', times, d);
    }
  }

  lemma ActionAccounted(ks: seq<Kern>, n: nat, d: nat, i: nat)
    requires n + 1 < |ks| && Accounted(ks[n], ks, n, d) && Acts(ks[n].sched, ks[n + 1].sched)
    requires i < |ks[n + 1].sched.list|
    ensures RecordAccounted(ks[n + 1].sched.list[i], Sinkings(ks, ks[n + 1].sched.list[i].id, n + 1), d)
  {
    hide Sinkings, Lost, FreshId, Exit, RecordAccounted;
    var s, s' := ks[n].sched, ks[n + 1].sched;
    var p' := s'.list[i];
    var j: nat := OldPlace(s, s', i);
    if j < |s.list| {
      var p := s.list[j];
      SinkingsGrow(ks, p.id, n, n + 1);
      assert RecordAccounted(p, Sinkings(ks, p.id, n), d);
      AccountedLater(p, Sinkings(ks, p.id, n), Sinkings(ks, p.id, n + 1), d);
      SameAccount(p, p', Sinkings(ks, p.id, n + 1), d);
    } else {
      HomeAccounted(p', Sinkings(ks, p'.id, n + 1), d);
    }
  }

  lemma HomeAccounted(p: Process, times: nat, d: nat)
    requires AtHome(p)
    ensures RecordAccounted(p, times, d)
  {
    LostMonotone(0, times, d);
  }

  /** Where a record stood before an action, or past the list when it is new and at home. */
  lemma OldPlace(s: Sched, s': Sched, i: nat) returns (j: nat)
    requires Acts(s, s') && i < |s'.list|
    ensures j < |s.list| ==>
      && s'.list[i].id == s.list[j].id && s'.list[i].kernelStack == s.list[j].kernelStack
      && (s'.list[i].state == CREATED ==> s.list[j].state == CREATED && s'.list[i].regs == s.list[j].regs)
    ensures j >= |s.list| ==> AtHome(s'.list[i])
  {
    hide FreshId, Exit, Home;
    j := i;
    if s' != s {
      var e: Event :| ActsBy(s, e, s');
      if e == ExitProcess {
        ExitAt(s, i);
        j := Shifted(s.current, i);
      }
    }
  }

  lemma ShallowAfter(k: Kern, k': Kern, d: nat)
    requires Good(k) && Shallow(k, d) && Interrupted(k, k')
    ensures Shallow(k', d)
  {
    InterruptKeepsGood(k, k');
    GoodParts(k);
    GoodParts(k');
    hide Life, OnlyCurrentRuns, Tick, FrameOf, Loaded, LeftBehind, Scratch, LaidOut, Good, Interrupted, Sound;
    ReturnsWhere(k, k');
    if k'.sched.current == k.sched.current >= 0 { SameStackTop(k, k'); SameCurrentId(k, k'); }
  }

  lemma SameStackTop(k: Kern, k': Kern)
    requires OnlyCurrentRuns(k.sched) && OnlyCurrentRuns(k'.sched)
    requires Interrupted(k, k') && k'.sched.current == k.sched.current >= 0
    ensures k'.sched.stackTop == k.sched.stackTop
  {
    hide FrameOf, Loaded, LeftBehind, Scratch, Tick;
    TickRecords(k.sched, FrameOf(k.cpu, k.sched.stackTop), Above(k.cpu, k.sched.stackTop), k.sched.current);
  }

  lemma SameCurrentId(k: Kern, k': Kern)
    requires Interrupted(k, k') && 0 <= k'.sched.current == k.sched.current < |k.sched.list|
    ensures |k'.sched.list| == |k.sched.list| && k'.sched.list[k.sched.current].id == k.sched.list[k.sched.current].id
  {
    hide FrameOf, Loaded, LeftBehind, Scratch, Tick;
    TickIds(k.sched, FrameOf(k.cpu, k.sched.stackTop), Above(k.cpu, k.sched.stackTop));
  }

  lemma AccountedStep(ks: seq<Kern>, n: nat, d: nat)
    requires n + 1 < |ks| && Good(ks[n]) && Accounted(ks[n], ks, n, d)
    requires Shallow(ks[n], d) && ShallowStep(ks[n], ks[n + 1], d)
    ensures Life(ks[n + 1].sched) && Accounted(ks[n + 1], ks, n + 1, d) && Shallow(ks[n + 1], d)
  {
    var k, k' := ks[n], ks[n + 1];
    GoodParts(k);
    hide Life, Good, Shallow, Interrupted, Acts, RecordAccounted, Sinkings, LeavesOthers;
    if Interrupted(k, k') {
      InterruptKeepsGood(k, k');
      GoodParts(k');
      ShallowAfter(k, k', d);
      ReturnsWhere(k, k');
      forall i: nat | i < |k'.sched.list|
        ensures RecordAccounted(k'.sched.list[i], Sinkings(ks, k'.sched.list[i].id, n + 1), d)
      {
        InterruptAccounted(ks, n, d, i);
      }
    } else {
      ActionKeepsLife(k.sched, k'.sched);
      forall i: nat | i < |k'.sched.list|
        ensures RecordAccounted(k'.sched.list[i], Sinkings(ks, k'.sched.list[i].id, n + 1), d)
      {
        ActionAccounted(ks, n, d, i);
      }
    }
  }

  lemma ActionKeepsLife(s: Sched, s': Sched)
    requires Life(s) && Acts(s, s')
    ensures Life(s')
  {
    hide Life, Happen, Possible;
    if s' != s {
      var e: Event :| ActsBy(s, e, s');
      HappenKeepsLife(s, e);
    }
  }

  ghost predicate AllAtHome(s: Sched) {
    forall i: nat :: i < |s.list| ==> AtHome(s.list[i])
  }

  lemma HomeIsAccounted(ks: seq<Kern>, d: nat)
    requires |ks| > 0 && AllAtHome(ks[0].sched)
    ensures Accounted(ks[0], ks, 0, d)
  {
    forall i: nat | i < |ks[0].sched.list|
      ensures RecordAccounted(ks[0].sched.list[i], Sinkings(ks, ks[0].sched.list[i].id, 0), d)
    {
      HomeAccounted(ks[0].sched.list[i], 0, d);
    }
  }

  lemma {:induction false} AccountedAlways(ks: seq<Kern>, d: nat, n: nat)
    requires ShallowSteps(ks, d) && LongEnough(ks, d) && n < |ks|
    requires Life(ks[0].sched) && AllAtHome(ks[0].sched) && Shallow(ks[0], d)
    ensures Good(ks[n]) && Accounted(ks[n], ks, n, d) && Shallow(ks[n], d)
  {
    hide Life, Good, Accounted, Shallow, ShallowStep, LongEnough, AllAtHome;
    if n == 0 {
      HomeIsAccounted(ks, d);
    } else {
      var m: nat := n - 1;
      AccountedAlways(ks, d, m);
      assert ShallowStep(ks[m], ks[n], d);
      AccountedStep(ks, m, d);
    }
    AccountedIsGood(ks[n], ks, n, d);
  }

  /** The layout lasts as long as each process is taken off the processor in the kernel only so
      often: when kernel code goes at most d words below where it is entered, n times is not too
      often if n * d + d + 15 words fit into a stretch. */
  lemma LayoutLasts(ks: seq<Kern>, d: nat)
    requires ShallowSteps(ks, d) && LongEnough(ks, d)
    requires Life(ks[0].sched) && AllAtHome(ks[0].sched) && Shallow(ks[0], d)
    ensures Steps(ks) && forall n: nat :: n < |ks| ==> Good(ks[n])
  {
    hide Life, Shallow, LongEnough, AllAtHome, LeavesOthers, Acts, Interrupted, LaidOut, InPlace;
    forall n: nat | n < |ks|
      ensures Good(ks[n])
    {
      AccountedAlways(ks, d, n);
    }
    forall i: nat, j: nat | j == i + 1 && j < |ks|
      ensures Stepped(ks[i], ks[j])
    {
      assert ShallowStep(ks[i], ks[j], d) && Good(ks[j]);
    }
  }
}
