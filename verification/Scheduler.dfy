/** The process list and its scheduler: choosing the next process, the timer tick, starting a
    child and exiting. */
module Scheduler {
  import opened MemoryMap
  import opened Options

  datatype ProcessState = CREATED | WAITING | RUNNING | BLOCKED | EXITED

  /** The thirteen words of a register frame, in memory order. */
  datatype Registers = Registers(edi: int, esi: int, ebp: int, ignoredEsp: int, ebx: int, edx: int, ecx: int, eax: int,
                                 eip: int, cs: int, eflags: int, esp: int, ss: int)

  /** A process descriptor; id, the number of its creation, stands for its address, by which a child
      knows its parent. */
  datatype Process = Process(id: nat, state: ProcessState, quantum: int, regs: Registers, kernelStack: int, table: nat,
                             parent: Option<nat>)

  /** The process list, the index of the current process or -1, the kernel stack the next
      interrupt from a user program starts on, and the page table in use. */
  datatype Sched = Sched(list: seq<Process>, current: int, stackTop: int, table: nat)

  const QUANTUM: int := 5
  const NO_PROCESS: int := -1

  predicate Ready(p: Process) { p.state == CREATED || p.state == WAITING }

  function FirstReady(list: seq<Process>, i: nat): (r: nat)
    requires i <= |list|
    ensures i <= r <= |list| && (r < |list| ==> Ready(list[r]))
    ensures forall k :: i <= k < r ==> !Ready(list[k])
    decreases |list| - i
  {
    if i < |list| && !Ready(list[i]) then FirstReady(list, i + 1) else i
  }

  /** The first ready process after the current one, or else the first one at all, or else the
      current one. */
  function FindToRun(s: Sched): int {
    var start := if s.current + 1 >= |s.list| then 0 else s.current + 1;
    var i := if start < 0 then 0 else start;
    var r := FirstReady(s.list, i);
    if r < |s.list| then r
    else
      var r2 := FirstReady(s.list, 0);
      if r2 < |s.list| then r2 else s.current
  }

  function ResumedRegisters(p: Process): Registers {
    if p.state == WAITING && p.regs.cs % 4 == 0 then p.regs.(esp := p.kernelStack) else p.regs
  }

  /** Makes process i the current one, if it is ready. */
  function SwitchTo(s: Sched, i: int, regs: Registers): (Sched, Registers) {
    if !(0 <= i < |s.list|) || !Ready(s.list[i]) then (s, regs)
    else
      var p := s.list[i];
      (Sched(s.list[i := p.(state := RUNNING, quantum := QUANTUM)], i, p.kernelStack, p.table), ResumedRegisters(p))
  }

  /** The outgoing process: its frame and the stack above the frame are kept. */
  function Preempted(p: Process, regs: Registers, above: int): Process {
    p.(regs := regs, kernelStack := above, quantum := 0, state := if p.state == RUNNING then WAITING else p.state)
  }

  predicate GivesUp(p: Process) { p.quantum - 1 < 1 || p.state == BLOCKED }

  /** A timer tick: regs is the interrupted frame, above the address just past it. */
  function Tick(s: Sched, regs: Registers, above: int): (Sched, Registers) {
    var k := s.(table := KERNEL_TABLE);
    if |s.list| == 0 then (k, regs)
    else if s.current == NO_PROCESS then SwitchTo(k, FindToRun(k), regs)
    else if !(0 <= s.current < |s.list|) then (k, regs)
    else
      var p := s.list[s.current];
      if FindToRun(k) == s.current then (k.(table := p.table), regs)
      else if GivesUp(p) then
        var out := k.(list := k.list[s.current := Preempted(p, regs, above)]);
        SwitchTo(out, FindToRun(out), regs)
      else (k.(list := k.list[s.current := p.(quantum := p.quantum - 1)], table := p.table), regs)
  }

  /** The current process starts a program and waits for it to exit. */
  function Exec(s: Sched, child: Process): Sched
    requires 0 <= s.current < |s.list|
  {
    var p := s.list[s.current];
    s.(list := s.list[s.current := p.(state := BLOCKED)] + [child.(state := CREATED, parent := Some(p.id))])
  }

  /** A program started by the kernel itself. */
  function Start(s: Sched, p: Process): Sched {
    s.(list := s.list + [p.(state := CREATED, parent := None)])
  }

  function Resume(p: Process, id: Option<nat>): Process {
    if id == Some(p.id) && p.state == BLOCKED then p.(state := WAITING) else p
  }

  function ResumeAll(list: seq<Process>, id: Option<nat>): (r: seq<Process>)
    ensures |r| == |list| && forall i :: 0 <= i < |list| ==> r[i] == Resume(list[i], id)
  {
    seq(|list|, i requires 0 <= i < |list| => Resume(list[i], id))
  }

  /** The current process leaves the list and its parent goes on. */
  function Exit(s: Sched): Sched
    requires 0 <= s.current < |s.list|
  {
    var p := s.list[s.current];
    var list := ResumeAll(s.list, p.parent);
    s.(list := list[..s.current] + list[s.current + 1..], current := NO_PROCESS, table := KERNEL_TABLE)
  }

  // ----- choosing

  lemma FirstReadyIs(list: seq<Process>, i: nat, r: nat)
    requires i <= r < |list| && Ready(list[r]) && forall k :: i <= k < r ==> !Ready(list[k])
    ensures FirstReady(list, i) == r
  {
  }

  /** Turning process c not ready or ready does not change what is found before it. */
  lemma FirstReadyBefore(list: seq<Process>, list': seq<Process>, i: nat, c: nat)
    requires |list'| == |list| && i <= |list| && c < |list|
    requires forall k :: 0 <= k < |list| && k != c ==> list'[k] == list[k]
    ensures c < i ==> FirstReady(list', i) == FirstReady(list, i)
    ensures i <= c && FirstReady(list, i) < c ==> FirstReady(list', i) == FirstReady(list, i)
  {
    var r := FirstReady(list, i);
    if c < i || r < c {
      if r < |list| { FirstReadyIs(list', i, r); }
    }
  }

  /** Marking the outgoing process as waiting never changes the choice: whatever was chosen while
      it did not count is chosen still. */
  lemma RemarkingKeepsChoice(s: Sched, p: Process)
    requires 0 <= s.current < |s.list| && !Ready(s.list[s.current]) && FindToRun(s) != s.current
    ensures FindToRun(s.(list := s.list[s.current := p])) == FindToRun(s)
  {
    var list' := s.list[s.current := p];
    hide FirstReady;
    if s.current + 1 < |s.list| { FirstReadyBefore(s.list, list', s.current + 1, s.current); }
    FirstReadyBefore(s.list, list', 0, s.current);
    assert FirstReady(s.list, |s.list|) == |s.list| && FirstReady(list', |s.list|) == |s.list|;
    if FirstReady(s.list, s.current + 1) == |s.list| { NoneAfter(s.list, s.current); }
  }

  lemma NoneAfter(list: seq<Process>, c: nat)
    requires c < |list| && !Ready(list[c]) && FirstReady(list, c + 1) == |list|
    ensures FirstReady(list, 0) < |list| ==> FirstReady(list, 0) < c
  {
    var r := FirstReady(list, 0);
    if r < |list| { assert Ready(list[r]); }
  }

  /** How far process i is from the current one, going round the list. */
  function Distance(n: nat, from: int, to: nat): (d: nat)
    requires -1 <= from < n && to < n
    ensures d <= n
  {
    if to > from then to - from else n - (from - to)
  }

  /** The choice is the nearest ready process, going round the list. */
  lemma NearestIsChosen(s: Sched, i: nat)
    requires NO_PROCESS <= s.current < |s.list| && i < |s.list| && Ready(s.list[i])
    ensures 0 <= FindToRun(s) < |s.list| && Ready(s.list[FindToRun(s)])
    ensures Distance(|s.list|, s.current, FindToRun(s)) <= Distance(|s.list|, s.current, i)
  {
  }
}
