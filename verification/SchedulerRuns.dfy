/** What the scheduler keeps over whole runs: every ready process gets its turn within a bounded
    number of ticks, and blocking and resuming never leave the machine without a process to run. */
module SchedulerRuns {
  import opened MemoryMap
  import opened Scheduler
  import opened Options

  // ----- bounded waiting

  /** Some process is the current one and has at most a full quantum left. */
  predicate HasCurrent(s: Sched) {
    0 <= s.current < |s.list| && !Ready(s.list[s.current]) && s.list[s.current].quantum <= QUANTUM
  }

  predicate AtMostFull(s: Sched) { s.current == NO_PROCESS || HasCurrent(s) }

  datatype Interrupt = Interrupt(regs: Registers, above: int)

  function RunTicks(s: Sched, ticks: seq<Interrupt>): Sched
    decreases |ticks|
  {
    if ticks == [] then s else RunTicks(Tick(s, ticks[0].regs, ticks[0].above).0, ticks[1..])
  }

  /** The number of ticks until process i's turn, at most. */
  function TicksToWait(s: Sched, i: nat): nat
    requires AtMostFull(s) && i < |s.list| && i != s.current
  {
    var left := if s.current == NO_PROCESS || s.list[s.current].state == BLOCKED then 1 else s.list[s.current].quantum;
    QUANTUM * (Distance(|s.list|, s.current, i) - 1) + if left < 1 then 1 else left
  }

  /** Going round from a to c by way of b. */
  lemma DistanceSplits(n: nat, a: int, b: nat, c: nat)
    requires -1 <= a < n && b < n && c < n && b != c && Distance(n, a, b) <= Distance(n, a, c)
    ensures Distance(n, a, c) == Distance(n, a, b) + Distance(n, b, c) && Distance(n, a, b) > 0
  {
  }

  /** One tick makes process i the current one or brings its turn closer. */
  lemma TickApproaches(s: Sched, i: nat, tick: Interrupt)
    requires AtMostFull(s) && i < |s.list| && Ready(s.list[i])
    ensures var s' := Tick(s, tick.regs, tick.above).0;
      && HasCurrent(s') && AtMostFull(s') && |s'.list| == |s.list|
      && (s'.current == i || (s'.list[i] == s.list[i] && i != s'.current && TicksToWait(s', i) < TicksToWait(s, i)))
  {
    hide FindToRun, Distance;
    var k := s.(table := KERNEL_TABLE);
    var j := FindToRun(k);
    NearestIsChosen(k, i);
    assert j != s.current;
    if s.current == NO_PROCESS {
      if j != i { DistanceSplits(|s.list|, s.current, j, i); }
    } else if GivesUp(s.list[s.current]) {
      var p := Preempted(s.list[s.current], tick.regs, tick.above);
      RemarkingKeepsChoice(k, p);
      if j != i { DistanceSplits(|s.list|, s.current, j, i); }
    }
  }

  /** A ready process at distance d round the list from the current one, or from the place before
      the list when there is none, is current within 5 * d
      ticks, whatever the interrupted frames are. */
  lemma {:induction false} WaitingIsBounded(s: Sched, i: nat, ticks: seq<Interrupt>) returns (k: nat)
    requires AtMostFull(s) && i < |s.list| && Ready(s.list[i]) && |ticks| >= TicksToWait(s, i)
    ensures 1 <= k <= TicksToWait(s, i) && RunTicks(s, ticks[..k]).current == i
    decreases |ticks|
  {
    hide TicksToWait, AtMostFull, Tick, Ready;
    WaitIsPositive(s, i);
    TickApproaches(s, i, ticks[0]);
    var s' := Tick(s, ticks[0].regs, ticks[0].above).0;
    if s'.current == i {
      k := 1;
      assert ticks[..1][1..] == [];
    } else {
      var n := WaitingIsBounded(s', i, ticks[1..]);
      k := n + 1;
      assert ticks[..k][1..] == ticks[1..][..n];
    }
  }

  lemma WaitIsPositive(s: Sched, i: nat)
    requires AtMostFull(s) && i < |s.list| && Ready(s.list[i])
    ensures i != s.current && 1 <= TicksToWait(s, i) <= QUANTUM * Distance(|s.list|, s.current, i)
  {
  }

  lemma BoundedWaiting(s: Sched, i: nat, ticks: seq<Interrupt>)
    requires AtMostFull(s) && i < |s.list| && Ready(s.list[i])
    requires |ticks| == QUANTUM * Distance(|s.list|, s.current, i)
    ensures exists k: nat :: 1 <= k <= |ticks| && RunTicks(s, ticks[..k]).current == i
  {
    WaitIsPositive(s, i);
    var k := WaitingIsBounded(s, i, ticks);
  }

  // ----- a turn

  /** The turn of a process begins with a full quantum, and it is the choice of the scheduler's; one
      that has not run yet starts with the registers it was created with.  The process before it
      has nothing left of its own turn, and waits if it was running; the others stay as they are. */
  lemma TurnBegins(s: Sched, tick: Interrupt)
    requires NO_PROCESS <= s.current < |s.list| && (s.current >= 0 ==> !Ready(s.list[s.current]))
    ensures var (s', regs) := Tick(s, tick.regs, tick.above);
      s'.current != s.current ==>
        && s'.current == FindToRun(s) && 0 <= s'.current < |s'.list| == |s.list|
        && s'.list[s'.current].quantum == QUANTUM && s'.list[s'.current].state == RUNNING
        && (s.list[s'.current].state == CREATED ==> regs == s.list[s'.current].regs)
        && (s.current >= 0 ==>
              && s'.list[s.current].quantum == 0
              && s'.list[s.current].state == (if s.list[s.current].state == RUNNING then WAITING
                                              else s.list[s.current].state))
        && forall i :: 0 <= i < |s.list| && i != s.current && i != s'.current ==> s'.list[i] == s.list[i]
  {
    hide FirstReady;
    var k := s.(table := KERNEL_TABLE);
    if s.current >= 0 && FindToRun(k) != s.current {
      RemarkingKeepsChoice(k, Preempted(s.list[s.current], tick.regs, tick.above));
    }
  }

  predicate Running(s: Sched) {
    0 <= s.current < |s.list| && s.list[s.current].state == RUNNING
  }

  ghost predicate SomeReady(s: Sched) {
    exists i: nat :: i < |s.list| && Ready(s.list[i])
  }

  lemma ChoiceWhenReady(s: Sched)
    requires Running(s)
    ensures FindToRun(s) != s.current <==> SomeReady(s)
    ensures SomeReady(s) ==> 0 <= FindToRun(s) < |s.list| && Ready(s.list[FindToRun(s)])
  {
    if SomeReady(s) {
      var i: nat :| i < |s.list| && Ready(s.list[i]);
      NearestIsChosen(s, i);
    }
  }

  /** A tick in the midst of a turn: it takes one from the quantum if anybody waits for it, and
      ends the turn exactly when that was the last one. */
  lemma TickInTurn(s: Sched, tick: Interrupt)
    requires Running(s)
    ensures var s', q := Tick(s, tick.regs, tick.above).0, s.list[s.current].quantum;
      if SomeReady(s) && q <= 1 then s'.current == FindToRun(s) != s.current
      else
        && s'.current == s.current && Running(s') && |s'.list| == |s.list|
        && s'.list[s.current].quantum == (if SomeReady(s) then q - 1 else q)
        && forall i :: 0 <= i < |s.list| && i != s.current ==> s'.list[i] == s.list[i]
  {
    hide FindToRun;
    var k := s.(table := KERNEL_TABLE);
    ChoiceWhenReady(k);
    assert SomeReady(k) <==> SomeReady(s);
    SameChoice(s, k);
    if SomeReady(s) && s.list[s.current].quantum <= 1 {
      RemarkingKeepsChoice(k, Preempted(s.list[s.current], tick.regs, tick.above));
    }
  }

  lemma SameChoice(s: Sched, k: Sched)
    requires k == s.(table := k.table)
    ensures FindToRun(k) == FindToRun(s)
  {
  }

  /** What may happen while a process goes on running: ticks, and programs the kernel starts. */
  datatype Meanwhile = Ticked(tick: Interrupt) | Started(program: Process)

  function Meantime(s: Sched, events: seq<Meanwhile>): Sched
    decreases |events|
  {
    if events == [] then s
    else
      match events[0]
      case Ticked(tick) => Meantime(Tick(s, tick.regs, tick.above).0, events[1..])
      case Started(p) => Meantime(Start(s, p), events[1..])
  }

  function TicksAmong(events: seq<Meanwhile>): (n: nat)
    ensures n <= |events|
    decreases |events|
  {
    if events == [] then 0 else (if events[0].Ticked? then 1 else 0) + TicksAmong(events[1..])
  }

  lemma StillReady(s: Sched, s': Sched)
    requires |s.list| <= |s'.list| && Running(s)
    requires forall i :: 0 <= i < |s.list| && i != s.current ==> s'.list[i] == s.list[i]
    ensures SomeReady(s) ==> SomeReady(s')
  {
    if SomeReady(s) {
      var i: nat :| i < |s.list| && Ready(s.list[i]);
      assert Ready(s'.list[i]);
    }
  }

  /** A running process keeps the processor for as many ticks as it has quantum left, less one,
      whatever waits for it; with something waiting all along, every tick takes one away. */
  lemma {:induction false} TurnLasts(s: Sched, events: seq<Meanwhile>)
    requires Running(s) && TicksAmong(events) < s.list[s.current].quantum
    ensures var s', q := Meantime(s, events), s.list[s.current].quantum;
      && Running(s') && s'.current == s.current
      && s'.list[s.current].quantum >= q - TicksAmong(events)
      && (SomeReady(s) ==> SomeReady(s') && s'.list[s.current].quantum == q - TicksAmong(events))
    decreases |events|
  {
    hide Tick, SomeReady, FindToRun;
    if events != [] {
      match events[0]
      case Ticked(tick) =>
        TickInTurn(s, tick);
        var s1 := Tick(s, tick.regs, tick.above).0;
        StillReady(s, s1);
        TurnLasts(s1, events[1..]);
      case Started(p) =>
        StillReady(s, Start(s, p));
        TurnLasts(Start(s, p), events[1..]);
    }
  }

  /** A whole turn: from the tick that begins it on, a process stays for QUANTUM - 1 ticks more,
      and with something waiting, the next one hands the processor to the scheduler's choice. */
  lemma WholeTurn(s: Sched, first: Interrupt, events: seq<Meanwhile>, last: Interrupt)
    requires Life(s) && Tick(s, first.regs, first.above).0.current != s.current
    requires TicksAmong(events) == QUANTUM - 1
    ensures var s1 := Tick(s, first.regs, first.above).0;
      var s2 := Meantime(s1, events);
      && s2.current == s1.current
      && (SomeReady(s1) ==> Tick(s2, last.regs, last.above).0.current == FindToRun(s2) != s2.current)
  {
    LifeHasTurns(s);
    hide Life, Tick, SomeReady, FindToRun, Meantime, TicksAmong;
    TurnBegins(s, first);
    var s1 := Tick(s, first.regs, first.above).0;
    TurnLasts(s1, events);
    TickInTurn(Meantime(s1, events), last);
  }

  lemma LifeHasTurns(s: Sched)
    requires Life(s)
    ensures NO_PROCESS <= s.current < |s.list| && (s.current >= 0 ==> !Ready(s.list[s.current]))
  {
  }

  // ----- the life cycle

  ghost predicate IsParent(list: seq<Process>, i: nat, j: nat) {
    i < j < |list| && list[j].parent == Some(list[i].id)
  }

  ghost predicate DistinctIds(list: seq<Process>) {
    forall i: nat, j: nat :: i < j < |list| ==> list[i].id != list[j].id
  }

  /** A process with a parent stands after it in the list. */
  ghost predicate ParentsEarlier(list: seq<Process>) {
    forall j: nat :: j < |list| && list[j].parent.Some? ==> exists i: nat :: IsParent(list, i, j)
  }

  ghost predicate OneChildEach(list: seq<Process>) {
    forall j: nat, k: nat ::
      j < |list| && k < |list| && list[j].parent.Some? && list[j].parent == list[k].parent ==> j == k
  }

  /** A process waits for a child exactly while it has one. */
  ghost predicate BlockedAreParents(list: seq<Process>) {
    forall i: nat :: i < |list| ==> (list[i].state == BLOCKED <==> exists j: nat :: IsParent(list, i, j))
  }

  /** Only the current process runs, on its own kernel stack, or it has just started a child. */
  ghost predicate OnlyCurrentRuns(s: Sched) {
    && NO_PROCESS <= s.current < |s.list|
    && (forall i: nat :: i < |s.list| ==> s.list[i].state != EXITED && (s.list[i].state == RUNNING ==> i == s.current))
    && (s.current >= 0 ==> HasCurrent(s) && s.stackTop == s.list[s.current].kernelStack)
  }

  ghost predicate Life(s: Sched) {
    && DistinctIds(s.list) && ParentsEarlier(s.list) && OneChildEach(s.list)
    && BlockedAreParents(s.list) && OnlyCurrentRuns(s)
  }

  /** Only the states of processes that are not blocked have changed, to states that are not. */
  ghost predicate SameFamilies(list: seq<Process>, list': seq<Process>) {
    && |list'| == |list|
    && forall i: nat :: i < |list| ==>
         list'[i].id == list[i].id && list'[i].parent == list[i].parent
         && (list'[i].state == BLOCKED <==> list[i].state == BLOCKED)
  }

  lemma FamiliesKept(s: Sched, s': Sched)
    requires Life(s) && SameFamilies(s.list, s'.list) && OnlyCurrentRuns(s')
    ensures Life(s')
  {
    hide OnlyCurrentRuns;
    assert forall i: nat, j: nat :: IsParent(s'.list, i, j) <==> IsParent(s.list, i, j);
    forall j: nat | j < |s'.list| && s'.list[j].parent.Some?
      ensures exists i: nat :: IsParent(s'.list, i, j)
    {
      var i: nat :| IsParent(s.list, i, j);
      assert IsParent(s'.list, i, j);
    }
    forall i: nat | i < |s'.list|
      ensures s'.list[i].state == BLOCKED <==> exists j: nat :: IsParent(s'.list, i, j)
    {
      assert s.list[i].state == BLOCKED <==> exists j: nat :: IsParent(s.list, i, j);
    }
  }

  lemma TickFamilies(s: Sched, regs: Registers, above: int)
    requires OnlyCurrentRuns(s)
    ensures SameFamilies(s.list, Tick(s, regs, above).0.list) && OnlyCurrentRuns(Tick(s, regs, above).0)
  {
    hide FindToRun;
    var k := s.(table := KERNEL_TABLE);
    if s.current >= 0 && FindToRun(k) != s.current {
      RemarkingKeepsChoice(k, Preempted(s.list[s.current], regs, above));
      ChoiceIsReady(k);
    }
  }

  lemma TickKeepsLife(s: Sched, regs: Registers, above: int)
    requires Life(s)
    ensures Life(Tick(s, regs, above).0)
  {
    TickFamilies(s, regs, above);
    hide *;
    FamiliesKept(s, Tick(s, regs, above).0) by { LifeParts(s); }
  }

  lemma LifeParts(s: Sched)
    requires Life(s)
    ensures OnlyCurrentRuns(s) && DistinctIds(s.list) && ParentsEarlier(s.list)
    ensures OneChildEach(s.list) && BlockedAreParents(s.list)
  {
  }

  /** The last process of the list is not blocked. */
  lemma LastIsNotBlocked(s: Sched)
    requires Life(s) && |s.list| > 0
    ensures s.list[|s.list| - 1].state != BLOCKED
  {
    hide OnlyCurrentRuns, DistinctIds, ParentsEarlier, OneChildEach;
    var last := |s.list| - 1;
    assert forall j: nat :: !IsParent(s.list, last, j);
  }

  /** After a tick, with any process in the list at all, one is running, with the kernel stack and
      the page table that are its own. */
  lemma TickRunsSomeone(s: Sched, regs: Registers, above: int)
    requires Life(s) && |s.list| > 0
    ensures var s' := Tick(s, regs, above).0;
      && |s'.list| == |s.list| && 0 <= s'.current < |s'.list| && s'.list[s'.current].state == RUNNING
      && s'.table == s'.list[s'.current].table && s'.stackTop == s'.list[s'.current].kernelStack
  {
    LifeParts(s);
    LastIsNotBlocked(s);
    hide Life, DistinctIds, ParentsEarlier, OneChildEach, BlockedAreParents, Distance;
    var k := s.(table := KERNEL_TABLE);
    var last := |s.list| - 1;
    if s.current == NO_PROCESS || s.list[s.current].state == BLOCKED {
      assert Ready(s.list[last]);
      NearestIsChosen(k, last);
    }
    if s.current >= 0 && FindToRun(k) != s.current {
      RemarkingKeepsChoice(k, Preempted(s.list[s.current], regs, above));
      ChoiceIsReady(k);
    }
  }

  lemma ChoiceIsReady(s: Sched)
    requires FindToRun(s) != s.current
    ensures 0 <= FindToRun(s) < |s.list| && Ready(s.list[FindToRun(s)])
  {
  }

  // ----- starting and exiting

  ghost predicate FreshId(s: Sched, id: nat) {
    forall i: nat :: i < |s.list| ==> s.list[i].id != id
  }

  /** The new list's families: those of the old one, and the last process a child of the current
      one. */
  lemma ExecFamilies(s: Sched, child: Process, i: nat, j: nat)
    requires Life(s) && 0 <= s.current < |s.list| && FreshId(s, child.id)
    ensures IsParent(Exec(s, child).list, i, j) <==> IsParent(s.list, i, j) || (i == s.current && j == |s.list|)
  {
    hide BlockedAreParents, OneChildEach, ParentsEarlier, OnlyCurrentRuns;
  }

  /** Starting a child keeps the life cycle: the parent waits for it alone. */
  lemma ExecKeepsLife(s: Sched, child: Process)
    requires Life(s) && 0 <= s.current < |s.list| && s.list[s.current].state == RUNNING && FreshId(s, child.id)
    ensures Life(Exec(s, child))
    ensures var s', n := Exec(s, child), |s.list|;
      && |s'.list| == n + 1 && s'.current == s.current && s'.table == s.table && s'.stackTop == s.stackTop
      && s'.list[n].(state := child.state, parent := child.parent) == child && Ready(s'.list[n])
      && s'.list[n].parent == Some(s.list[s.current].id)
      && s'.list[s.current] == s.list[s.current].(state := BLOCKED)
      && forall i :: 0 <= i < n && i != s.current ==> s'.list[i] == s.list[i]
  {
    hide Life, ParentsEarlier, OneChildEach, BlockedAreParents, DistinctIds;
    LifeParts(s);
    var s' := Exec(s, child);
    assert OnlyCurrentRuns(s');
    hide OnlyCurrentRuns;
    ExecDistinct(s, child);
    ExecParents(s, child);
    ExecOneChild(s, child);
    ExecBlocked(s, child);
    LifeFrom(s');
  }

  lemma LifeFrom(s: Sched)
    requires DistinctIds(s.list) && ParentsEarlier(s.list) && OneChildEach(s.list)
    requires BlockedAreParents(s.list) && OnlyCurrentRuns(s)
    ensures Life(s)
  {
  }

  lemma ExecDistinct(s: Sched, child: Process)
    requires DistinctIds(s.list) && 0 <= s.current < |s.list| && FreshId(s, child.id)
    ensures DistinctIds(Exec(s, child).list)
  {
  }

  lemma ExecParents(s: Sched, child: Process)
    requires Life(s) && 0 <= s.current < |s.list| && FreshId(s, child.id)
    ensures ParentsEarlier(Exec(s, child).list)
  {
    hide Life, IsParent;
    LifeParts(s);
    var list' := Exec(s, child).list;
    forall j: nat | j < |list'| && list'[j].parent.Some?
      ensures exists i: nat :: IsParent(list', i, j)
    {
      if j == |s.list| {
        ExecFamilies(s, child, s.current, j);
      } else {
        var i: nat :| IsParent(s.list, i, j);
        ExecFamilies(s, child, i, j);
      }
    }
  }

  /** The running process has no child yet. */
  lemma RunningHasNoChild(s: Sched, k: nat)
    requires Life(s) && 0 <= s.current < |s.list| && s.list[s.current].state != BLOCKED
    ensures k < |s.list| ==> s.list[k].parent != Some(s.list[s.current].id)
  {
    hide OnlyCurrentRuns, OneChildEach;
    var c: nat := s.current;
    assert !IsParent(s.list, c, k);
  }

  lemma ExecOneChild(s: Sched, child: Process)
    requires Life(s) && 0 <= s.current < |s.list| && s.list[s.current].state == RUNNING && FreshId(s, child.id)
    ensures OneChildEach(Exec(s, child).list)
  {
    hide Life;
    LifeParts(s);
    hide OnlyCurrentRuns, BlockedAreParents, ParentsEarlier, DistinctIds;
    var list' := Exec(s, child).list;
    forall j: nat, k: nat | j < |list'| && k < |list'| && list'[j].parent.Some? && list'[j].parent == list'[k].parent
      ensures j == k
    {
      if j == |s.list| { RunningHasNoChild(s, k); }
      if k == |s.list| { RunningHasNoChild(s, j); }
    }
  }

  lemma ExecBlocked(s: Sched, child: Process)
    requires Life(s) && 0 <= s.current < |s.list| && s.list[s.current].state == RUNNING && FreshId(s, child.id)
    ensures BlockedAreParents(Exec(s, child).list)
  {
    hide Life, IsParent, OnlyCurrentRuns, ParentsEarlier, DistinctIds, OneChildEach;
    LifeParts(s);
    var list', n := Exec(s, child).list, |s.list|;
    forall i: nat | i < |list'|
      ensures list'[i].state == BLOCKED <==> exists j: nat :: IsParent(list', i, j)
    {
      forall j: nat
        ensures IsParent(list', i, j) <==> IsParent(s.list, i, j) || (i == s.current && j == n)
      {
        ExecFamilies(s, child, i, j);
      }
      if i == n {
        NoChildPastEnd(s.list, n);
      } else if i == s.current {
        assert IsParent(list', i, n);
      } else {
        assert s.list[i].state == BLOCKED <==> exists j: nat :: IsParent(s.list, i, j);
      }
    }
  }

  lemma NoChildPastEnd(list: seq<Process>, i: nat)
    requires i >= |list|
    ensures forall j: nat :: !IsParent(list, i, j)
  {
  }

  /** A program started by the kernel has no parent, and otherwise what it is created with. */
  lemma StartKeepsLife(s: Sched, p: Process)
    requires Life(s) && FreshId(s, p.id)
    ensures Life(Start(s, p))
    ensures var s', n := Start(s, p), |s.list|;
      && |s'.list| == n + 1 && s'.(list := s.list) == s
      && s'.list[n].(state := p.state, parent := p.parent) == p
      && s'.list[n].state == CREATED && s'.list[n].parent == None
      && forall i :: 0 <= i < n ==> s'.list[i] == s.list[i]
  {
    hide Life, IsParent;
    LifeParts(s);
    var s', n := Start(s, p), |s.list|;
    forall i: nat, j: nat
      ensures IsParent(s'.list, i, j) <==> IsParent(s.list, i, j)
    {
      StartFamilies(s, p, i, j);
    }
    NoChildPastEnd(s.list, n);
    forall j: nat | j < |s'.list| && s'.list[j].parent.Some?
      ensures exists i: nat :: IsParent(s'.list, i, j)
    {
      var i: nat :| IsParent(s.list, i, j);
      assert IsParent(s'.list, i, j);
    }
    forall i: nat | i < |s'.list|
      ensures s'.list[i].state == BLOCKED <==> exists j: nat :: IsParent(s'.list, i, j)
    {
      if i < n { assert s.list[i].state == BLOCKED <==> exists j: nat :: IsParent(s.list, i, j); }
    }
    LifeFrom(s');
  }

  lemma StartFamilies(s: Sched, p: Process, i: nat, j: nat)
    ensures IsParent(Start(s, p).list, i, j) <==> IsParent(s.list, i, j)
  {
  }

  // ----- exiting

  /** Where a process stands after the current one has left, and where it stood before. */
  function Shifted(c: nat, i: nat): nat { if i < c then i else i + 1 }

  lemma ExitAt(s: Sched, i: nat)
    requires 0 <= s.current < |s.list|
    ensures |Exit(s).list| == |s.list| - 1
    ensures i < |Exit(s).list| ==> Exit(s).list[i] == Resume(s.list[Shifted(s.current, i)], s.list[s.current].parent)
  {
  }

  lemma ExitFamilies(s: Sched, i: nat, j: nat)
    requires 0 <= s.current < |s.list|
    ensures IsParent(Exit(s).list, i, j) <==>
      i < |s.list| - 1 && j < |s.list| - 1 && IsParent(s.list, Shifted(s.current, i), Shifted(s.current, j))
  {
    ExitAt(s, i);
    ExitAt(s, j);
    hide Exit;
  }

  lemma ExitKeepsLife(s: Sched)
    requires Life(s) && 0 <= s.current < |s.list| && s.list[s.current].state == RUNNING
    ensures Life(Exit(s))
    ensures Exit(s).current == NO_PROCESS && Exit(s).table == KERNEL_TABLE
    ensures |Exit(s).list| == |s.list| - 1 && forall i: nat :: i < |Exit(s).list| ==>
      Exit(s).list[i] == Resume(s.list[Shifted(s.current, i)], s.list[s.current].parent)
  {
    hide *;
    ExitCurrent(s);
    LifeParts(s);
    ExitDistinct(s);
    ExitParents(s);
    ExitOneChild(s);
    ExitBlocked(s);
    ExitNobodyRuns(s);
    LifeFrom(Exit(s));
    ExitAll(s);
  }

  lemma ExitDistinct(s: Sched)
    requires 0 <= s.current < |s.list| && DistinctIds(s.list)
    ensures DistinctIds(Exit(s).list)
  {
    hide Exit;
    forall i: nat, j: nat | i < j < |Exit(s).list|
      ensures Exit(s).list[i].id != Exit(s).list[j].id
    {
      ExitAt(s, i);
      ExitAt(s, j);
    }
  }

  lemma ExitParents(s: Sched)
    requires Life(s) && 0 <= s.current < |s.list| && s.list[s.current].state == RUNNING
    ensures ParentsEarlier(Exit(s).list)
  {
    hide Exit, Life;
    LifeParts(s);
    hide OnlyCurrentRuns, DistinctIds, OneChildEach, BlockedAreParents;
    var c: nat := s.current;
    forall j: nat | j < |Exit(s).list| && Exit(s).list[j].parent.Some?
      ensures exists i: nat :: IsParent(Exit(s).list, i, j)
    {
      ExitAt(s, j);
      var k := Shifted(c, j);
      var i: nat :| IsParent(s.list, i, k);
      RunningHasNoChild(s, k);
      ExitFamilies(s, if i < c then i else i - 1, j);
    }
  }

  lemma ExitOneChild(s: Sched)
    requires 0 <= s.current < |s.list| && OneChildEach(s.list)
    ensures OneChildEach(Exit(s).list)
  {
    hide Exit;
    forall j: nat, k: nat | j < |Exit(s).list| && k < |Exit(s).list| && Exit(s).list[j].parent.Some?
        && Exit(s).list[j].parent == Exit(s).list[k].parent
      ensures j == k
    {
      ExitAt(s, j);
      ExitAt(s, k);
    }
  }

  lemma ExitNobodyRuns(s: Sched)
    requires 0 <= s.current < |s.list| && OnlyCurrentRuns(s)
    ensures OnlyCurrentRuns(Exit(s))
  {
    var s' := Exit(s);
    hide Exit;
    forall i: nat | i < |s'.list|
      ensures s'.list[i].state != EXITED && s'.list[i].state != RUNNING
    {
      ExitAt(s, i);
    }
    assert s'.current == NO_PROCESS by { ExitCurrent(s); }
  }

  lemma ExitAll(s: Sched)
    requires 0 <= s.current < |s.list|
    ensures |Exit(s).list| == |s.list| - 1 && forall i: nat :: i < |Exit(s).list| ==>
      Exit(s).list[i] == Resume(s.list[Shifted(s.current, i)], s.list[s.current].parent)
  {
    hide Exit, Resume;
    ExitAt(s, 0);
    forall i: nat | i < |Exit(s).list|
      ensures Exit(s).list[i] == Resume(s.list[Shifted(s.current, i)], s.list[s.current].parent)
    {
      ExitAt(s, i);
    }
  }

  lemma ExitCurrent(s: Sched)
    requires 0 <= s.current < |s.list|
    ensures Exit(s).current == NO_PROCESS && Exit(s).table == KERNEL_TABLE
  {
  }

  /** Of the remaining processes, the exited one's parent has lost its only child, and is the one
      that is woken; no other has lost one. */
  lemma ExitBlocked(s: Sched)
    requires Life(s) && 0 <= s.current < |s.list| && s.list[s.current].state == RUNNING
    ensures BlockedAreParents(Exit(s).list)
  {
    hide Exit, Life, IsParent, OnlyCurrentRuns, DistinctIds, OneChildEach, ParentsEarlier;
    LifeParts(s);
    var list', c: nat := Exit(s).list, s.current;
    forall i: nat | i < |list'|
      ensures list'[i].state == BLOCKED <==> exists j: nat :: IsParent(list', i, j)
    {
      ExitAt(s, i);
      var k := Shifted(c, i);
      assert s.list[k].state == BLOCKED <==> exists j: nat :: IsParent(s.list, k, j);
      ExitBlockedAt(s, i, k);
    }
  }

  lemma ExitBlockedAt(s: Sched, i: nat, k: nat)
    requires Life(s) && 0 <= s.current < |s.list| && s.list[s.current].state == RUNNING
    requires i < |s.list| - 1 && k == Shifted(s.current, i)
    ensures (exists j: nat :: IsParent(Exit(s).list, i, j)) <==>
      (exists j: nat :: IsParent(s.list, k, j)) && s.list[s.current].parent != Some(s.list[k].id)
  {
    hide Exit, Life, OnlyCurrentRuns, BlockedAreParents;
    LifeParts(s);
    var c: nat := s.current;
    forall j: nat
      ensures IsParent(Exit(s).list, i, j) <==> j < |s.list| - 1 && IsParent(s.list, k, Shifted(c, j))
    {
      ExitFamilies(s, i, j);
    }
    if exists j: nat :: IsParent(Exit(s).list, i, j) {
      var j: nat :| IsParent(Exit(s).list, i, j);
      assert IsParent(s.list, k, Shifted(c, j));
    }
    if (exists j: nat :: IsParent(s.list, k, j)) && s.list[c].parent != Some(s.list[k].id) {
      var j: nat :| IsParent(s.list, k, j);
      assert j != c;
      var j' := if j < c then j else j - 1;
      assert Shifted(c, j') == j;
      assert IsParent(Exit(s).list, i, j');
    }
  }

  // ----- whole runs

  datatype Event =
    | TimerTick(regs: Registers, above: int)
    | Execute(child: Process)
    | StartProgram(program: Process)
    | ExitProcess

  /** A program starts another or exits only while it runs, and descriptors are new ones. */
  ghost predicate Possible(s: Sched, e: Event) {
    match e
    case TimerTick(_, _) => true
    case Execute(child) => 0 <= s.current < |s.list| && s.list[s.current].state == RUNNING && FreshId(s, child.id)
    case StartProgram(program) => FreshId(s, program.id)
    case ExitProcess => 0 <= s.current < |s.list| && s.list[s.current].state == RUNNING
  }

  function Happen(s: Sched, e: Event): Sched {
    match e
    case TimerTick(regs, above) => Tick(s, regs, above).0
    case Execute(child) => if 0 <= s.current < |s.list| then Exec(s, child) else s
    case StartProgram(program) => Start(s, program)
    case ExitProcess => if 0 <= s.current < |s.list| then Exit(s) else s
  }

  function After(s: Sched, events: seq<Event>): Sched
    decreases |events|
  {
    if events == [] then s else After(Happen(s, events[0]), events[1..])
  }

  ghost predicate AllPossible(s: Sched, events: seq<Event>)
    decreases |events|
  {
    events != [] ==> Possible(s, events[0]) && AllPossible(Happen(s, events[0]), events[1..])
  }

  lemma HappenKeepsLife(s: Sched, e: Event)
    requires Life(s) && Possible(s, e)
    ensures Life(Happen(s, e))
  {
    hide Life, Tick, Exec, Start, Exit, FreshId;
    match e
    case TimerTick(regs, above) => TickKeepsLife(s, regs, above);
    case Execute(child) => ExecKeepsLife(s, child);
    case StartProgram(program) => StartKeepsLife(s, program);
    case ExitProcess => ExitKeepsLife(s);
  }

  lemma {:induction false} RunKeepsLife(s: Sched, events: seq<Event>)
    requires Life(s) && AllPossible(s, events)
    ensures Life(After(s, events))
    decreases |events|
  {
    hide Life, Happen, Possible;
    if events != [] {
      HappenKeepsLife(s, events[0]);
      RunKeepsLife(Happen(s, events[0]), events[1..]);
    }
  }

  lemma EmptyListLives(stackTop: int)
    ensures Life(Sched([], NO_PROCESS, stackTop, KERNEL_TABLE))
  {
  }

  /** From the empty list on, whatever programs are started, execute others and exit, the next
      tick finds a process to run as long as there is one. */
  lemma NeverIdle(stackTop: int, events: seq<Event>, regs: Registers, above: int)
    requires AllPossible(Sched([], NO_PROCESS, stackTop, KERNEL_TABLE), events)
    ensures var s := After(Sched([], NO_PROCESS, stackTop, KERNEL_TABLE), events);
      |s.list| > 0 ==>
        var s' := Tick(s, regs, above).0;
        |s'.list| == |s.list| && 0 <= s'.current < |s'.list| && s'.list[s'.current].state == RUNNING
        && s'.table == s'.list[s'.current].table && s'.stackTop == s'.list[s'.current].kernelStack
  {
    hide *;
    EmptyListLives(stackTop);
    var start := Sched([], NO_PROCESS, stackTop, KERNEL_TABLE);
    RunKeepsLife(start, events);
    if |After(start, events).list| > 0 { TickRunsSomeone(After(start, events), regs, above); }
  }

  /** A live child's parent is live, blocked, earlier in the list, and waits for nobody else. */
  lemma ParentWaits(s: Sched, j: nat) returns (i: nat)
    requires Life(s) && j < |s.list| && s.list[j].parent.Some?
    ensures IsParent(s.list, i, j) && s.list[i].state == BLOCKED
    ensures forall k: nat :: IsParent(s.list, i, k) ==> k == j
  {
    hide OnlyCurrentRuns, DistinctIds;
    i :| IsParent(s.list, i, j);
    assert s.list[i].state == BLOCKED;
  }

  /** When a child exits its parent is ready again and nothing else of the parent has changed. */
  lemma ExitWakesParent(s: Sched, i: nat)
    requires Life(s) && 0 <= s.current < |s.list|
    requires s.list[s.current].state == RUNNING && IsParent(s.list, i, s.current)
    ensures i < |Exit(s).list| && Exit(s).list[i] == s.list[i].(state := WAITING) && Ready(Exit(s).list[i])
  {
    var j := ParentWaits(s, s.current);
    hide OnlyCurrentRuns, OneChildEach, BlockedAreParents, ParentsEarlier, Exit;
    ExitAt(s, i);
  }
}
