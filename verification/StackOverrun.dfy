/** A run that is one preemption too long for the stretches.  Process 0 goes half a stretch down its
    kernel stack and is preempted there; when it comes back and goes as far down again, its stack
    pointer is at the top of process 1's stretch, and the next interrupt writes over what process
    1, preempted in the kernel in between, has on its stack. */
module StackOverrun {
  import opened MemoryMap
  import opened Scheduler
  import opened SchedulerRuns
  import opened ContextSwitch
  import opened StackLayout
  import opened Options

  const HALF: nat := 0x2000
  const DEPTH: int := 0x20

  /** Kernel code with this stack pointer. */
  function KernelCode(esp: int): Cpu { Cpu(0, 0, 0, 0, 0, 0, 0, 0, 8, 0, esp, KERNEL_SS) }

  const USER_REGISTERS := Registers(0, 0, 0, 0, 0, 0, 0, 0, 0, 0x1B, 0x200, 0, 0x23)

  function First(state: ProcessState, quantum: int): Process {
    Process(0, state, quantum, FrameOf(KernelCode(Home(0) - HALF), Home(0)), Home(0) - HALF, 1, None)
  }

  function Second(state: ProcessState, quantum: int): Process {
    Process(1, state, quantum, USER_REGISTERS, Home(1), 2, None)
  }

  /** Memory after a return to kernel code. */
  function Returned(m: Memory, c: Cpu): Memory { m[c.esp - 3 := c.eip][c.esp - 2 := c.cs][c.esp - 1 := c.eflags] }

  /** The run, state by state. */
  function At(n: nat): Kern
    requires n < 10
  {
    var a, b := KernelCode(Home(0) - HALF), KernelCode(Home(1) - DEPTH);
    if n == 0 then
      Kern(Sched([First(RUNNING, 1).(regs := USER_REGISTERS, kernelStack := Home(0)), Second(CREATED, 0)],
                 0, Home(0), 1),
           a, map[])
    else if n == 1 then
      Kern(Sched([First(WAITING, 0), Second(RUNNING, QUANTUM)], 1, Home(1), 2), Loaded(USER_REGISTERS, 0),
           FramePut(map[], Home(0) - HALF - FRAME_WORDS, USER_REGISTERS))
    else if n == 2 then At(1).(cpu := b)
    else if n <= 6 then
      At(n - 1).(sched := At(n - 1).sched.(list := [First(WAITING, 0), Second(RUNNING, QUANTUM + 2 - n)]),
                 mem := Returned(At(n - 1).mem, b))
    else if n == 7 then
      var second := Second(WAITING, 0).(regs := FrameOf(b, Home(1)), kernelStack := Home(1) - DEPTH);
      Kern(Sched([First(RUNNING, QUANTUM), second], 0, Home(0) - HALF, 1), a, Returned(At(6).mem, a))
    else if n == 8 then At(7).(cpu := KernelCode(Home(0) - 2 * HALF))
    else
      At(8).(sched := At(8).sched.(list := At(8).sched.list[0 := First(RUNNING, QUANTUM - 1)]),
             mem := Returned(At(8).mem, At(8).cpu))
  }

  lemma ChoosesOther(s: Sched)
    requires |s.list| == 2 && 0 <= s.current < 2 && !Ready(s.list[s.current]) && Ready(s.list[1 - s.current])
    ensures FindToRun(s) == 1 - s.current
  {
    if s.current == 1 {
      FirstReadyIs(s.list, 0, 0);
    } else {
      FirstReadyIs(s.list, 1, 1);
    }
  }

  lemma ReturnedKeeps(m: Memory, c: Cpu)
    ensures forall a: int :: !(c.esp - 3 <= a < c.esp) ==> Load(Returned(m, c), a) == Load(m, a)
    ensures Load(Returned(m, c), c.esp - 3) == c.eip && Load(Returned(m, c), c.esp - 2) == c.cs
    ensures Load(Returned(m, c), c.esp - 1) == c.eflags
  {
  }

  /** A tick that goes over to the other process. */
  lemma GoesOver(s: Sched, regs: Registers, above: int, p: Process, q: Process)
    requires |s.list| == 2 && 0 <= s.current < 2 && !Ready(s.list[s.current]) && Ready(s.list[1 - s.current])
    requires GivesUp(s.list[s.current]) && p == Preempted(s.list[s.current], regs, above)
    requires q == s.list[1 - s.current].(state := RUNNING, quantum := QUANTUM)
    ensures Tick(s, regs, above) ==
      (Sched(if s.current == 0 then [p, q] else [q, p], 1 - s.current, q.kernelStack, q.table),
       ResumedRegisters(s.list[1 - s.current]))
  {
    var k := s.(table := KERNEL_TABLE);
    ChoosesOther(k);
    RemarkingKeepsChoice(k, p);
    hide FindToRun, ResumedRegisters;
    var out := k.(list := k.list[s.current := p]);
    assert out.list[1 - s.current] == s.list[1 - s.current];
    assert out.list[1 - s.current := q] == if s.current == 0 then [p, q] else [q, p];
  }

  /** A tick that only counts. */
  lemma GoesOn(s: Sched, regs: Registers, above: int)
    requires |s.list| == 2 && 0 <= s.current < 2 && !Ready(s.list[s.current]) && Ready(s.list[1 - s.current])
    requires !GivesUp(s.list[s.current])
    ensures var p := s.list[s.current];
      Tick(s, regs, above) == (s.(list := s.list[s.current := p.(quantum := p.quantum - 1)], table := p.table), regs)
  {
    ChoosesOther(s.(table := KERNEL_TABLE));
    hide FindToRun;
  }

  lemma StartsSecond()
    ensures Interrupted(At(0), At(1))
  {
    var k, k' := At(0), At(1);
    var above := Home(0) - HALF;
    GoesOver(k.sched, FrameOf(k.cpu, k.sched.stackTop), above, First(WAITING, 0), Second(RUNNING, QUANTUM));
    hide Tick;
    FrameReadsBack(map[], above - FRAME_WORDS, USER_REGISTERS);
    hide FramePut, FrameAt;
  }

  lemma EntersKernel()
    ensures LeavesOthers(At(1), At(2)) && Shallow(At(2), HALF) && Acts(At(1).sched, At(2).sched)
  {
  }

  lemma CountsDown(n: nat)
    requires 2 <= n < 6
    ensures At(n).cpu == KernelCode(Home(1) - DEPTH) && At(n).sched.current == 1 && At(n).sched.stackTop == Home(1)
    ensures At(n).sched.list == [First(WAITING, 0), Second(RUNNING, QUANTUM + 2 - n)] && At(n).sched.table == 2
    ensures At(n + 1).cpu == At(n).cpu && At(n + 1).mem == Returned(At(n).mem, At(n).cpu)
    ensures At(n + 1).sched == At(n).sched.(list := [First(WAITING, 0), Second(RUNNING, QUANTUM + 1 - n)])
  {
    if n > 2 { CountsDown(n - 1); }
    hide First, Second, Returned, Home;
  }

  lemma Counts(n: nat)
    requires 2 <= n < 6
    ensures Interrupted(At(n), At(n + 1))
  {
    CountsDown(n);
    hide At;
    var k, k' := At(n), At(n + 1);
    var above := Home(1) - DEPTH;
    GoesOn(k.sched, FrameOf(k.cpu, k.sched.stackTop), above);
    hide Tick, Returned;
    ReturnedKeeps(k.mem, k.cpu);
    assert k.sched.list[1 := k.sched.list[1].(quantum := k.sched.list[1].quantum - 1)] == k'.sched.list;
  }

  /** Process 1's record once it has been taken off the processor. */
  function Sleeping(): Process {
    Second(WAITING, 0).(regs := FrameOf(KernelCode(Home(1) - DEPTH), Home(1)), kernelStack := Home(1) - DEPTH)
  }

  lemma Sixth()
    ensures At(6).sched == Sched([First(WAITING, 0), Second(RUNNING, 1)], 1, Home(1), 2)
    ensures At(6).cpu == KernelCode(Home(1) - DEPTH)
  {
    CountsDown(5);
    CountsDown(4);
    hide First, Second, Home;
  }

  lemma LastThree()
    ensures var a := KernelCode(Home(0) - HALF);
      && At(7) == Kern(Sched([First(RUNNING, QUANTUM), Sleeping()], 0, Home(0) - HALF, 1), a, Returned(At(6).mem, a))
      && At(8) == At(7).(cpu := KernelCode(Home(1)))
      && At(9) == At(8).(sched := Sched([First(RUNNING, QUANTUM - 1), Sleeping()], 0, Home(0) - HALF, 1),
                         mem := Returned(At(8).mem, KernelCode(Home(1))))
  {
    assert Home(0) - 2 * HALF == Home(1);
    hide First, Second, Home, FrameOf, Returned;
    assert [First(RUNNING, QUANTUM), Sleeping()][0 := First(RUNNING, QUANTUM - 1)]
        == [First(RUNNING, QUANTUM - 1), Sleeping()];
  }

  lemma GoesBack()
    ensures Interrupted(At(6), At(7))
  {
    hide At, Returned;
    Sixth();
    LastThree();
    var k, k', above := At(6), At(7), Home(1) - DEPTH;
    GoesOver(k.sched, FrameOf(k.cpu, Home(1)), above, Sleeping(), First(RUNNING, QUANTUM));
    ReturnedKeeps(k.mem, k'.cpu);
    ReturnsToFirst();
    BackAgain(k, k');
  }

  lemma ReturnsToFirst()
    ensures Loaded(ResumedRegisters(First(WAITING, 0)), Home(1) - DEPTH) == KernelCode(Home(0) - HALF)
  {
  }

  lemma BackAgain(k: Kern, k': Kern)
    requires InKernel(k.cpu.cs) && k'.cpu.cs == 8
    requires var (s, r) := Tick(k.sched, FrameOf(k.cpu, k.sched.stackTop), k.cpu.esp);
      k'.sched == s && k'.cpu == Loaded(r, k.cpu.esp)
    requires forall a: int :: !(k'.cpu.esp - 3 <= a < k'.cpu.esp) ==> Load(k'.mem, a) == Load(k.mem, a)
    requires Load(k'.mem, k'.cpu.esp - 3) == k'.cpu.eip && Load(k'.mem, k'.cpu.esp - 2) == k'.cpu.cs
    requires Load(k'.mem, k'.cpu.esp - 1) == k'.cpu.eflags
    ensures Interrupted(k, k')
  {
    hide Tick, FrameOf, Loaded;
  }

  lemma GoesDeeper()
    ensures LeavesOthers(At(7), At(8)) && Shallow(At(8), HALF) && Acts(At(7).sched, At(8).sched)
  {
    LastThree();
    hide At, Returned;
  }

  lemma Overwrites()
    ensures Interrupted(At(8), At(9)) && Load(At(9).mem, Home(1) - 2) == 8
  {
    LastThree();
    var k, k' := At(8), At(9);
    GoesOn(k.sched, FrameOf(k.cpu, k.sched.stackTop), Home(1));
    FrameLoadsBack(k.cpu, k.sched.stackTop);
    hide At, Returned, Tick, Loaded, FrameOf;
    ReturnedKeeps(k.mem, k.cpu);
    BackAgain(k, k');
  }

  lemma StepAt(n: nat)
    requires n < 9
    ensures ShallowStep(At(n), At(n + 1), HALF)
  {
    hide At, Interrupted, LeavesOthers, Shallow, Acts;
    if n == 0 { StartsSecond(); }
    else if n == 1 { EntersKernel(); }
    else if n < 6 { Counts(n); }
    else if n == 6 { GoesBack(); }
    else if n == 7 { GoesDeeper(); }
    else { Overwrites(); }
  }

  /** The word is clear while process 1 runs. */
  lemma ClearBefore(n: nat)
    requires n < 7
    ensures Load(At(n).mem, Home(1) - 2) == 0
  {
    if n == 1 {
      FrameReadsBack(map[], Home(0) - HALF - FRAME_WORDS, USER_REGISTERS);
    } else if n > 1 {
      ClearBefore(n - 1);
      if 2 < n {
        CountsDown(n - 1);
        ReturnedKeeps(At(n - 1).mem, At(n - 1).cpu);
      }
    }
  }

  lemma CurrentAt(n: nat)
    requires n < 10
    ensures At(n).sched.current == (if 1 <= n < 7 then 1 else 0) && |At(n).sched.list| == 2
    ensures At(n).sched.list[0].id == 0 && At(n).sched.list[1].id == 1
  {
    if 3 <= n < 7 { CountsDown(n - 1); }
  }

  function TheRun(): (ks: seq<Kern>)
    ensures |ks| == 10 && forall n: nat :: n < 10 ==> ks[n] == At(n)
  {
    seq(10, n requires 0 <= n < 10 => At(n))
  }

  lemma {:induction false} FewSinkings(id: nat, n: nat)
    requires n < 10
    ensures Sinkings(TheRun(), id, n) <= (if id == 0 && n >= 1 then 1 else 0) + if id == 1 && n >= 7 then 1 else 0
  {
    if n > 0 {
      FewSinkings(id, n - 1);
      CurrentAt(n - 1);
      CurrentAt(n);
      hide At, Interrupted;
    }
  }

  lemma StartsWell()
    ensures Life(At(0).sched) && AllAtHome(At(0).sched) && Shallow(At(0), HALF)
  {
    var s := At(0).sched;
    assert forall i: nat, j: nat :: !IsParent(s.list, i, j);
  }

  lemma SecondSleeps()
    ensures 0 <= At(6).sched.current < |At(6).sched.list| && ContextOf(At(6)).above == Home(1) - DEPTH
    ensures Kept(At(7).sched, 1, ContextOf(At(6))) && At(9).sched.current == 0
  {
    hide At;
    Sixth();
    LastThree();
    FrameLoadsBack(KernelCode(Home(1) - DEPTH), Home(1));
    assert KeptAt(At(7).sched, 1, 1, ContextOf(At(6)));
  }

  /** Every process at the top of its stretch to begin with, kernel code never more than half a
      stretch down, each process taken off the processor in the kernel once: the words come to 15
      too many, and process 1, asleep since state 7, has a word of its kernel stack changed. */
  lemma OneTooMany()
    ensures var ks := TheRun();
      && ShallowSteps(ks, HALF) && Life(ks[0].sched) && AllAtHome(ks[0].sched) && Shallow(ks[0], HALF)
      && (forall id: nat :: AllSinkings(ks, id) <= 1) && Lost(1, HALF) + HALF + REACH_WORDS == STACK_WORDS + REACH_WORDS
      && 0 <= ks[6].sched.current < |ks[6].sched.list| && Kept(ks[7].sched, 1, ContextOf(ks[6]))
      && ks[9].sched.current == 0
      && !SameStack(ks[6].mem, ks[9].mem, ContextOf(ks[6]).above, Home(1))
  {
    var ks := TheRun();
    StartsWell();
    SecondSleeps();
    ClearBefore(6);
    Overwrites();
    hide At, Life, AllAtHome, Shallow, ShallowStep, Kept, Interrupted;
    forall i: nat, j: nat | j == i + 1 && j < |ks|
      ensures ShallowStep(ks[i], ks[j], HALF)
    {
      StepAt(i);
    }
    forall id: nat
      ensures AllSinkings(ks, id) <= 1
    {
      FewSinkings(id, 9);
    }
    assert Load(ks[9].mem, Home(1) - 2) != Load(ks[6].mem, Home(1) - 2);
  }
}
