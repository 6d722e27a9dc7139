/** The scheduler over its process list and the interrupt stub over registers and stack words,
    statement by statement. */
module Kernel {
  import opened MemoryMap
  import opened Scheduler
  import opened SchedulerRuns
  import opened ContextSwitch
  import opened StackLayout
  import opened Options

  /** m' is m with v at address a. */
  ghost predicate Stored(m: Memory, m': Memory, a: int, v: int) {
    Load(m', a) == v && forall x: int :: x != a ==> Load(m', x) == Load(m, x)
  }

  /** The frame the handler will see, of an interrupt the processor has just taken. */
  function TakenFrame(c: Cpu, m: Memory, above: int): Registers {
    var cs := Load(m, c.esp + 1);
    Registers(c.edi, c.esi, c.ebp, above - 5, c.ebx, c.edx, c.ecx, c.eax, Load(m, c.esp), cs, Load(m, c.esp + 2),
              if InKernel(cs) then 0 else Load(m, c.esp + 3), if InKernel(cs) then 0 else Load(m, c.esp + 4))
  }

  /** The words a return to another kernel stack is moved to are not among those it is moved from,
      unless they are the same. */
  predicate Apart(esp: int, to: int) { to - 3 >= esp + 3 || to - 3 <= esp }

  /** Kernel code returned to on another stack has its frame's place clear of the present one. */
  predicate Returnable(r: Registers, above: int) {
    InKernel(r.cs) ==> r.esp != above && r.esp != above - 1
  }

  /** With the stacks laid out, it always does. */
  lemma GoodIsReturnable(k: Kern)
    requires Good(k)
    ensures var above := Above(k.cpu, k.sched.stackTop);
      Returnable(Tick(k.sched, FrameOf(k.cpu, k.sched.stackTop), above).1, above)
    ensures Sound(k.cpu) && k.sched.current >= NO_PROCESS
  {
    GoodParts(k);
    hide Life, InPlace, OnlyCurrentRuns, Tick, FrameOf, ResumedRegisters, LaidOut, Ready, Floor, Home, Good;
    var s, regs, above := k.sched, FrameOf(k.cpu, k.sched.stackTop), Above(k.cpu, k.sched.stackTop);
    var (s', r) := Tick(s, regs, above);
    if s'.current == s.current {
      SameCurrentSameFrame(s, regs, above);
      FrameIsReturnable(k);
    } else {
      SwitchedTo(s, regs, above);
      SwitchIsReturnable(k, s'.current);
    }
  }

  lemma FrameIsReturnable(k: Kern)
    requires Good(k)
    ensures Returnable(FrameOf(k.cpu, k.sched.stackTop), Above(k.cpu, k.sched.stackTop))
  {
    GoodParts(k);
    if k.sched.current >= 0 {
      AboveInPlace(k);
      StretchesAboveHeap(k.sched.list[k.sched.current].id);
    }
    hide Life, OnlyCurrentRuns, Floor, Home;
  }

  lemma SwitchIsReturnable(k: Kern, j: nat)
    requires Good(k) && j < |k.sched.list| && j != k.sched.current && Ready(k.sched.list[j])
    ensures Returnable(ResumedRegisters(k.sched.list[j]), Above(k.cpu, k.sched.stackTop))
  {
    GoodParts(k);
    assert HasStack(k.sched.list[j]);
    if k.sched.current >= 0 {
      AboveInPlace(k);
      IdsDiffer(k.sched, j, k.sched.current);
      StretchesApart(k.sched.list[j].id, k.sched.list[k.sched.current].id);
    } else {
      assert Clear(k.cpu.esp, k.sched.list[j].id);
    }
    hide Life, OnlyCurrentRuns, LaidOut;
  }

  class Kernel {
    var list: seq<Process>
    var current: int
    var stackTop: int
    var table: nat

    var edi: int
    var esi: int
    var ebp: int
    var ebx: int
    var edx: int
    var ecx: int
    var eax: int
    var eip: int
    var cs: int
    var eflags: int
    var esp: int
    var ss: int

    var mem: Memory
    var saveEax: int
    var saveEsp: int

    ghost function Scheduling(): Sched
      reads this
    {
      Sched(list, current, stackTop, table)
    }

    ghost function Processor(): Cpu
      reads this
    {
      Cpu(edi, esi, ebp, ebx, edx, ecx, eax, eip, cs, eflags, esp, ss)
    }

    ghost function State(): Kern
      reads this
    {
      Kern(Scheduling(), Processor(), mem)
    }

    method FindProcessToRun() returns (chosen: int)
      requires current >= NO_PROCESS
      ensures chosen == FindToRun(Scheduling())
    {
      var start := current + 1;
      if start >= |list| { start := 0; }
      var i := 0;
      while i < |list|
        invariant 0 <= i <= |list|
        invariant forall k :: start <= k < i ==> !Ready(list[k])
      {
        if i >= start && (list[i].state == CREATED || list[i].state == WAITING) {
          FirstReadyIs(list, start, i);
          return i;
        }
        i := i + 1;
      }
      assert FirstReady(list, start) == |list|;
      i := 0;
      while i < |list|
        invariant 0 <= i <= |list|
        invariant forall k :: 0 <= k < i ==> !Ready(list[k])
      {
        if list[i].state == CREATED || list[i].state == WAITING {
          FirstReadyIs(list, 0, i);
          return i;
        }
        i := i + 1;
      }
      assert FirstReady(list, 0) == |list|;
      return current;
    }

    /** Switches to process i, whose registers go to the frame at p. */
    method SwitchProcess(i: int, p: int)
      modifies this`list, this`current, this`stackTop, this`table, this`mem
      ensures (Scheduling(), FrameAt(mem, p)) == SwitchTo(old(Scheduling()), i, old(FrameAt(mem, p)))
      ensures OnlyFrame(old(mem), mem, p)
    {
      hide FramePut;
      if !(0 <= i < |list|) { return; }
      var process := list[i];
      if process.state == CREATED {
        FrameReadsBack(mem, p, process.regs);
        mem := FramePut(mem, p, process.regs);
        current := i;
        list := list[i := process.(state := RUNNING, quantum := QUANTUM)];
        stackTop := process.kernelStack;
        table := process.table;
        return;
      }
      if process.state == WAITING {
        current := i;
        list := list[i := process.(state := RUNNING, quantum := QUANTUM)];
        FrameReadsBack(mem, p, process.regs);
        mem := FramePut(mem, p, process.regs);
        if Load(mem, p + 9) % 4 == 0 {
          mem := mem[p + 11 := process.kernelStack];
        }
        stackTop := process.kernelStack;
        table := process.table;
      }
    }

    /** The timer handler; p is the address of the interrupted frame. */
    method PitInterruptHandler(p: int)
      requires current >= NO_PROCESS
      modifies this`list, this`current, this`stackTop, this`table, this`mem
      ensures (Scheduling(), FrameAt(mem, p)) == Tick(old(Scheduling()), old(FrameAt(mem, p)), p + FRAME_WORDS)
      ensures OnlyFrame(old(mem), mem, p)
    {
      table := KERNEL_TABLE;
      if |list| == 0 { return; }
      if current == NO_PROCESS {
        var first := FindProcessToRun();
        SwitchProcess(first, p);
        return;
      }
      if current >= |list| { return; }
      var process := list[current];
      var next := FindProcessToRun();
      if next != current {
        process := process.(quantum := process.quantum - 1);
        list := list[current := process];
        if process.quantum < 1 || process.state == BLOCKED {
          process := process.(regs := FrameAt(mem, p), kernelStack := p + FRAME_WORDS, quantum := 0);
          if process.state == RUNNING { process := process.(state := WAITING); }
          list := list[current := process];
          assert list == old(list)[current := Preempted(old(list)[current], old(FrameAt(mem, p)), p + FRAME_WORDS)];
          next := FindProcessToRun();
          SwitchProcess(next, p);
          return;
        }
      }
      table := process.table;
    }

    /** Starts a program on behalf of the current process, which waits for it. */
    method ExecuteFromProcess(child: Process)
      requires 0 <= current < |list|
      modifies this`list
      ensures Scheduling() == Exec(old(Scheduling()), child)
    {
      var process := list[current];
      list := list + [child.(state := CREATED, parent := None)];
      list := list[current := process.(state := BLOCKED)];
      var created := list[|list| - 1];
      list := list[|list| - 1 := created.(parent := Some(process.id))];
    }

    /** Takes the current process out of the list and lets its parent go on. */
    method ExitProcess()
      requires 0 <= current < |list|
      modifies this`list, this`current, this`table
      ensures Scheduling() == Exit(old(Scheduling()))
    {
      table := KERNEL_TABLE;
      var process := list[current];
      ghost var woken := ResumeAll(list, process.parent);
      var i := 0;
      while i < |list|
        invariant 0 <= i <= |list| == |woken| == |old(list)| && current == old(current) && table == KERNEL_TABLE
        invariant forall k :: 0 <= k < i ==> list[k] == woken[k]
        invariant forall k :: i <= k < |list| ==> list[k] == old(list)[k]
      {
        if process.parent == Some(list[i].id) && list[i].state == BLOCKED {
          list := list[i := list[i].(state := WAITING)];
        }
        i := i + 1;
      }
      assert list == woken;
      list := list[..current] + list[current + 1..];
      current := NO_PROCESS;
    }

    // ----- the interrupt stub

    method Push(v: int)
      modifies this`esp, this`mem
      ensures esp == old(esp) - 1 && Stored(old(mem), mem, esp, v)
    {
      esp := esp - 1;
      mem := mem[esp := v];
    }

    method Store(a: int, v: int)
      modifies this`mem
      ensures Stored(old(mem), mem, a, v)
    {
      mem := mem[a := v];
    }

    method Pop() returns (v: int)
      modifies this`esp
      ensures esp == old(esp) + 1 && v == Load(mem, old(esp))
    {
      v := Load(mem, esp);
      esp := esp + 1;
    }

    /** The processor takes the interrupt: user code gets the kernel stack, and its stack pointer
        and segment are pushed first. */
    method TakeInterrupt()
      modifies this`esp, this`mem, this`cs, this`ss
      ensures var c := old(Processor());
        var above := Above(c, stackTop);
        && cs == 8 && ss == KERNEL_SS
        && Load(mem, esp) == c.eip && Load(mem, esp + 1) == c.cs && Load(mem, esp + 2) == c.eflags
        && (InKernel(c.cs) ==> esp == above - 3)
        && (!InKernel(c.cs) ==> esp == above - 5 && Load(mem, esp + 3) == c.esp && Load(mem, esp + 4) == c.ss)
        && forall x: int :: !(above - 5 <= x < above) ==> Load(mem, x) == Load(old(mem), x)
    {
      var userEsp, userSs := esp, ss;
      if cs % 4 != 0 {
        esp := stackTop;
        Push(userSs);
        Push(userEsp);
      }
      Push(eflags);
      Push(cs);
      Push(eip);
      cs := 8;
      ss := KERNEL_SS;
    }

    method PushAll()
      modifies this`esp, this`mem
      ensures esp == old(esp) - 8
      ensures Load(mem, esp) == edi && Load(mem, esp + 1) == esi
      ensures Load(mem, esp + 2) == ebp && Load(mem, esp + 3) == old(esp)
      ensures Load(mem, esp + 4) == ebx && Load(mem, esp + 5) == edx
      ensures Load(mem, esp + 6) == ecx && Load(mem, esp + 7) == eax
      ensures forall x: int :: !(esp <= x < old(esp)) ==> Load(mem, x) == Load(old(mem), x)
    {
      mem := mem[esp - 1 := eax][esp - 2 := ecx][esp - 3 := edx][esp - 4 := ebx];
      mem := mem[esp - 5 := esp][esp - 6 := ebp][esp - 7 := esi][esp - 8 := edi];
      esp := esp - 8;
    }

    method PopAll()
      modifies this`esp, this`edi, this`esi, this`ebp, this`ebx, this`edx, this`ecx, this`eax
      ensures esp == old(esp) + 8
      ensures edi == Load(mem, old(esp)) && esi == Load(mem, old(esp) + 1) && ebp == Load(mem, old(esp) + 2)
      ensures ebx == Load(mem, old(esp) + 4) && edx == Load(mem, old(esp) + 5)
      ensures ecx == Load(mem, old(esp) + 6) && eax == Load(mem, old(esp) + 7)
    {
      edi, esi, ebp := Load(mem, esp), Load(mem, esp + 1), Load(mem, esp + 2);
      ebx, edx, ecx, eax := Load(mem, esp + 4), Load(mem, esp + 5), Load(mem, esp + 6), Load(mem, esp + 7);
      esp := esp + 8;
    }

    /** The return from the interrupt: a return to a user program also restores its stack. */
    method ReturnFromInterrupt()
      modifies this`esp, this`eip, this`cs, this`eflags, this`ss
      ensures eip == Load(mem, old(esp)) && cs == Load(mem, old(esp) + 1) && eflags == Load(mem, old(esp) + 2)
      ensures InKernel(cs) ==> esp == old(esp) + 3 && ss == old(ss)
      ensures !InKernel(cs) ==> esp == Load(mem, old(esp) + 3) && ss == Load(mem, old(esp) + 4)
    {
      eip := Pop();
      cs := Pop();
      eflags := Pop();
      if cs % 4 != 0 {
        var userEsp := Pop();
        var userSs := Pop();
        esp := userEsp;
        ss := userSs;
      }
    }

    /** A frame taken in the kernel is padded to the shape of one taken in a user program. */
    method PadFrame()
      modifies this`eax, this`saveEax, this`esp, this`mem
      ensures eax == old(eax)
      ensures var ring0 := InKernel(Load(old(mem), old(esp) + 1));
        && esp == (if ring0 then old(esp) - 2 else old(esp))
        && Load(mem, esp) == Load(old(mem), old(esp)) && Load(mem, esp + 1) == Load(old(mem), old(esp) + 1)
        && Load(mem, esp + 2) == Load(old(mem), old(esp) + 2)
        && (ring0 ==> Load(mem, esp + 3) == 0 && Load(mem, esp + 4) == 0)
        && (forall x: int :: !(ring0 && esp <= x < esp + 5) ==> Load(mem, x) == Load(old(mem), x))
    {
      saveEax := eax;
      eax := Load(mem, esp + 1);
      if eax % 4 == 0 {
        esp := esp - 2;
        eax := Load(mem, esp + 2);
        Store(esp, eax);
        eax := Load(mem, esp + 3);
        Store(esp + 1, eax);
        eax := Load(mem, esp + 4);
        Store(esp + 2, eax);
        Store(esp + 3, 0);
        Store(esp + 4, 0);
      }
      eax := saveEax;
    }

    /** On the way back to the kernel the padding goes, or the frame moves to the stack it belongs
        to. */
    method CleanFrame()
      modifies this`eax, this`ebx, this`saveEax, this`saveEsp, this`esp, this`mem
      ensures eax == old(eax) && ebx == old(ebx)
      ensures var k := Load(old(mem), old(esp) + 3);
        && esp == (if k == 0 then old(esp) + 2 else k - 3)
        && (k == 0 || Apart(old(esp), k) ==>
              && Load(mem, esp) == Load(old(mem), old(esp)) && Load(mem, esp + 1) == Load(old(mem), old(esp) + 1)
              && Load(mem, esp + 2) == Load(old(mem), old(esp) + 2))
        && forall x: int :: !(esp <= x < esp + 3) ==> Load(mem, x) == Load(old(mem), x)
    {
      saveEax := eax;
      if Load(mem, esp + 3) != 0 {
        saveEsp := ebx;
        ebx := Load(mem, esp + 3);
        eax := Load(mem, esp);
        Store(ebx - 3, eax);
        eax := Load(mem, esp + 1);
        Store(ebx - 2, eax);
        eax := Load(mem, esp + 2);
        Store(ebx - 1, eax);
        esp := ebx;
        esp := esp - 3;
        ebx := saveEsp;
        eax := saveEax;
      } else {
        eax := Load(mem, esp + 2);
        Store(esp + 4, eax);
        eax := Load(mem, esp + 1);
        Store(esp + 3, eax);
        eax := Load(mem, esp);
        Store(esp + 2, eax);
        esp := esp + 2;
        eax := saveEax;
      }
    }

    /** From a frame the processor has pushed to the one the handler sees. */
    method BuildFrame(ghost above: int)
      requires esp == (if InKernel(Load(mem, esp + 1)) then above - 3 else above - 5)
      modifies this`eax, this`saveEax, this`esp, this`mem
      ensures esp == above - FRAME_WORDS && FrameAt(mem, esp) == old(TakenFrame(Processor(), mem, above))
      ensures forall x: int :: !(above - FRAME_WORDS <= x < above) ==> Load(mem, x) == Load(old(mem), x)
    {
      PadFrame();
      PushAll();
    }

    /** The call of the handler with the address of the frame. */
    method CallHandler()
      requires current >= NO_PROCESS
      modifies this`list, this`current, this`stackTop, this`table, this`mem, this`esp
      ensures esp == old(esp)
      ensures (Scheduling(), FrameAt(mem, esp)) == Tick(old(Scheduling()), old(FrameAt(mem, esp)), esp + FRAME_WORDS)
      ensures forall x: int :: !(esp - 2 <= x < esp + FRAME_WORDS) ==> Load(mem, x) == Load(old(mem), x)
    {
      var p := esp;
      Push(p);
      Push(eip);
      PitInterruptHandler(p);
      esp := esp + 1;
      esp := esp + 1;
    }

    /** From the frame the handler left back to the code it belongs to. */
    method LeaveFrame(ghost above: int)
      requires esp == above - FRAME_WORDS && ss == KERNEL_SS
      modifies this
      ensures Scheduling() == old(Scheduling())
      ensures var r := old(FrameAt(mem, esp));
        Returnable(r, above) ==> Processor() == Loaded(r, above) && LeftBehind(mem, Processor(), r, above)
      ensures forall x: int :: !Scratch(x, above, Processor()) ==> Load(mem, x) == Load(old(mem), x)
    {
      eax := Load(mem, esp + 9);
      if eax % 4 != 0 {
        LeaveToUser(above);
      } else {
        LeaveToKernel(above);
      }
    }

    method LeaveToUser(ghost above: int)
      requires esp == above - FRAME_WORDS && !InKernel(Load(mem, esp + 9))
      modifies this`eax, this`esp, this`edi, this`esi, this`ebp, this`ebx, this`edx, this`ecx, this`eip, this`cs,
        this`eflags, this`ss
      ensures Processor() == Loaded(old(FrameAt(mem, esp)), above) && !InKernel(Processor().cs)
    {
      PopAll();
      ReturnFromInterrupt();
    }

    method LeaveToKernel(ghost above: int)
      requires esp == above - FRAME_WORDS && ss == KERNEL_SS && InKernel(Load(mem, esp + 9))
      modifies this`eax, this`esp, this`edi, this`esi, this`ebp, this`ebx, this`edx, this`ecx, this`eip, this`cs,
        this`eflags, this`ss,
        this`mem, this`saveEax, this`saveEsp
      ensures var r := old(FrameAt(mem, esp));
        Returnable(r, above) ==> Processor() == Loaded(r, above) && LeftBehind(mem, Processor(), r, above)
      ensures forall x: int :: !Scratch(x, above, Processor()) ==> Load(mem, x) == Load(old(mem), x)
    {
      PopAll();
      CleanFrame();
      ReturnFromInterrupt();
    }

    /** The stub around the handler. */
    method PitInterruptEntry(ghost above: int)
      requires current >= NO_PROCESS && ss == KERNEL_SS
      requires esp == (if InKernel(Load(mem, esp + 1)) then above - 3 else above - 5)
      modifies this
      ensures var r := Tick(old(Scheduling()), old(TakenFrame(Processor(), mem, above)), above);
        && Scheduling() == r.0
        && (Returnable(r.1, above) ==> Processor() == Loaded(r.1, above) && LeftBehind(mem, Processor(), r.1, above))
        && forall x: int :: !Scratch(x, above, Processor()) ==> Load(mem, x) == Load(old(mem), x)
    {
      hide Tick, TakenFrame, FrameAt, Loaded, Returnable, LeftBehind;
      BuildFrame(above);
      CallHandler();
      LeaveFrame(above);
    }

    /** A timer interrupt. */
    method TimerInterrupt()
      requires Good(State())
      modifies this
      ensures Interrupted(old(State()), State()) && Good(State())
    {
      hide Good, Tick, FrameAt, Loaded, LeftBehind, Returnable;
      ghost var k, above := State(), Above(Processor(), stackTop);
      GoodIsReturnable(k);
      TakeInterrupt();
      PitInterruptEntry(above);
      InterruptKeepsGood(k, State());
    }
  }
}
