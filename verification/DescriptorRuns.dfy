/** When a process's own descriptors survive its calls, what an exit releases, and runs of calls
    by many processes. */
module DescriptorRuns {
  import opened Descriptors
  import opened Options

  /** The cell's slot is used. */
  predicate LiveCell(f: Files, c: Cell) {
    c.used ==> 0 <= c.fd < |f.slots| && f.slots[c.fd].used
  }

  /** Every used descriptor of process p is on a used slot. */
  predicate Live(f: Files, p: nat)
    requires ValidLists(f) && p < |f.lists|
  {
    forall k :: 0 <= k < |f.lists[p]| ==> LiveCell(f, f.cells[f.lists[p][k]])
  }

  /** Process p has a used descriptor on the same slot as position v, in another cell. */
  predicate HasTwin(f: Files, p: nat, v: nat)
    requires ValidLists(f) && p < |f.lists| && v < |f.lists[p]|
  {
    exists k :: 0 <= k < |f.lists[p]| && TwinAt(f, p, v, k)
  }

  predicate TwinAt(f: Files, p: nat, v: nat, k: nat)
    requires ValidLists(f) && p < |f.lists| && v < |f.lists[p]| && k < |f.lists[p]|
  {
    f.lists[p][k] != f.lists[p][v] && f.cells[f.lists[p][k]].used
    && f.cells[f.lists[p][k]].fd == f.cells[f.lists[p][v]].fd
  }

  lemma FcloseAt(f: Files, p: nat, v: nat, k: nat)
    requires ValidLists(f) && p < |f.lists| && v < |f.lists[p]| && k < |f.lists[p]| && Live(f, p)
    ensures var g := Fclose(f, p, v);
      ValidLists(g) && g.lists == f.lists
      && (LiveCell(g, g.cells[g.lists[p][k]]) <==> HeldByOther(f, p, f.cells[f.lists[p][v]].fd) || !TwinAt(f, p, v, k))
  {
    hide HeldByOther;
    assert LiveCell(f, f.cells[f.lists[p][k]]);
  }

  /** Closing a descriptor leaves the process's others on used slots exactly when it has none other
      on the same slot, or another process has: the search for further users skips the process
      itself. */
  lemma FcloseExactly(f: Files, p: nat, v: nat)
    requires ValidLists(f) && p < |f.lists| && v < |f.lists[p]| && Live(f, p)
    ensures ValidLists(Fclose(f, p, v)) && p < |Fclose(f, p, v).lists|
    ensures Live(Fclose(f, p, v), p) <==> HeldByOther(f, p, f.cells[f.lists[p][v]].fd) || !HasTwin(f, p, v)
  {
    FcloseAt(f, p, v, v);
    var g := Fclose(f, p, v);
    hide Fclose, HeldByOther, TwinAt, LiveCell;
    forall k: nat | k < |f.lists[p]|
      ensures LiveCell(g, g.cells[g.lists[p][k]]) <==>
        HeldByOther(f, p, f.cells[f.lists[p][v]].fd) || !TwinAt(f, p, v, k)
    {
      FcloseAt(f, p, v, k);
    }
  }

  /** The run that shows it: open a file, duplicate the descriptor, close one of the two. */
  function OpenedTwice(): Files {
    Files([Slot(true, 7)], [Cell(true, 0, 0, true, false), Cell(true, 0, 0, true, false)], [[0, 0, 1]])
  }

  const NO_FILES := Files([], [], [[]])

  function OpenedOnce(): Files {
    Files([Slot(true, 7)], [Cell(true, 0, 0, true, false)], [[0, 0]])
  }

  lemma FirstOpen()
    ensures Fopen(NO_FILES, 0, Some(7), ReadOnly) == (OpenedOnce(), 0)
  {
    var g := Files([], [Cell(false, 0, 0, false, false)], [[0]]);
    var none: seq<nat> := [];
    var list: seq<nat> := [0];
    assert none + [0] == list && list + [0] == [0, 0];
    assert NO_FILES.lists[0 := list] == [list] && [list][0 := [0, 0]] == [[0, 0]];
    assert NO_FILES.cells + g.cells == g.cells && NO_FILES.slots + [Slot(true, 7)] == [Slot(true, 7)];
    assert TakeCell(NO_FILES, 0) == (g, 0);
    assert OpenSlot([], 7) == ([Slot(true, 7)], 0);
    var cell := Cell(true, 0, 0, true, false);
    assert g.cells[0 := cell] == [cell] && g.lists[0 := g.lists[0] + [0]] == [[0, 0]];
    assert Moded(g.cells[0].(used := true, fd := 0, offset := 0), ReadOnly) == cell;
  }

  lemma FirstDup()
    ensures Dup(OpenedOnce(), 0, 0) == (OpenedTwice(), 2)
  {
    var f := OpenedOnce();
    var c := Cell(false, 0, 0, false, false);
    assert FirstFreeCell(f, f.lists[0], 0) == FirstFreeCell(f, f.lists[0], 1) == FirstFreeCell(f, f.lists[0], 2) == 2;
    var list: seq<nat> := [0, 0];
    assert list + [1] == [0, 0, 1] && f.lists[0 := [0, 0, 1]] == [[0, 0, 1]];
    assert TakeCell(f, 0) == (Files(f.slots, f.cells + [c], [[0, 0, 1]]), 2);
    assert (f.cells + [c])[1 := (f.cells + [c])[0]] == OpenedTwice().cells;
  }

  lemma DuplicateDangles()
    ensures Fopen(NO_FILES, 0, Some(7), ReadOnly) == (OpenedOnce(), 0) && Dup(OpenedOnce(), 0, 0) == (OpenedTwice(), 2)
    ensures Live(OpenedTwice(), 0)
    ensures var g := Fclose(OpenedTwice(), 0, 0);
      ValidLists(g) && g.cells[g.lists[0][2]].used && g.cells[g.lists[0][2]].fd == 0 && !g.slots[0].used
  {
    FirstOpen();
    FirstDup();
    hide Fopen, Dup;
  }

  /** Copying a descriptor onto another position leaves the process's descriptors on used slots, and
      makes a copy, exactly when the closing before the copying did not close a slot it still uses
      and the two positions are different cells. */
  lemma Dup2Exactly(f: Files, p: nat, from: nat, onto: nat)
    requires ValidLists(f) && p < |f.lists| && from < |f.lists[p]| && onto < |f.lists[p]| && Live(f, p)
    requires f.cells[f.lists[p][from]].used
    ensures var g := Dup2(f, p, from, onto).0;
      && ValidLists(g) && g.lists == f.lists
      && (Live(g, p) && g.cells[g.lists[p][onto]] == f.cells[f.lists[p][from]] <==>
            f.lists[p][from] != f.lists[p][onto]
            && (HeldByOther(f, p, f.cells[f.lists[p][onto]].fd) || !HasTwin(f, p, onto)))
  {
    FcloseExactly(f, p, onto);
    FcloseCells(f, p, onto);
    var h := Fclose(f, p, onto);
    var g := Dup2(f, p, from, onto).0;
    hide Fclose, HeldByOther, HasTwin, LiveCell;
    var c, d := f.lists[p][from], f.lists[p][onto];
    if c != d {
      assert g.cells == h.cells[d := f.cells[c]] && g.slots == h.slots && g.lists == h.lists;
      CopyLive(h, p, from, onto);
    }
  }

  lemma FcloseCells(f: Files, p: nat, v: nat)
    requires ValidLists(f) && p < |f.lists| && v < |f.lists[p]|
    ensures var g := Fclose(f, p, v); var c := f.lists[p][v];
      ValidLists(g) && g.lists == f.lists && g.cells == f.cells[c := f.cells[c].(used := false)]
  {
  }

  /** Copying a descriptor over an unused one keeps what is live and what is not. */
  lemma CopyLive(f: Files, p: nat, from: nat, onto: nat)
    requires ValidLists(f) && p < |f.lists| && from < |f.lists[p]| && onto < |f.lists[p]|
    requires !f.cells[f.lists[p][onto]].used && f.lists[p][from] != f.lists[p][onto]
    ensures var g := f.(cells := f.cells[f.lists[p][onto] := f.cells[f.lists[p][from]]]);
      ValidLists(g) && (Live(g, p) <==> Live(f, p))
  {
    var g := f.(cells := f.cells[f.lists[p][onto] := f.cells[f.lists[p][from]]]);
    forall k: nat | k < |f.lists[p]| && f.lists[p][k] != f.lists[p][onto]
      ensures g.cells[f.lists[p][k]] == f.cells[f.lists[p][k]]
    {
    }
    assert LiveCell(f, f.cells[f.lists[p][onto]]);
    assert LiveCell(g, g.cells[g.lists[p][onto]]) <==> LiveCell(f, f.cells[f.lists[p][from]]);
    if Live(f, p) {
      forall k | 0 <= k < |g.lists[p]|
        ensures LiveCell(g, g.cells[g.lists[p][k]])
      {
        assert LiveCell(f, f.cells[f.lists[p][k]]) && LiveCell(f, f.cells[f.lists[p][from]]);
      }
    }
    if Live(g, p) {
      forall k | 0 <= k < |f.lists[p]|
        ensures LiveCell(f, f.cells[f.lists[p][k]])
      {
        assert LiveCell(g, g.cells[g.lists[p][k]]);
      }
    }
  }

  // ----- exiting

  /** From position v on, process p has a used descriptor on slot d. */
  predicate HoldsFrom(f: Files, p: nat, v: nat, d: int)
    requires ValidLists(f) && p < |f.lists|
  {
    exists k :: v <= k < |f.lists[p]| && f.cells[f.lists[p][k]].used && f.cells[f.lists[p][k]].fd == d
  }

  lemma HoldsFromNext(f: Files, p: nat, v: nat, d: int)
    requires ValidLists(f) && p < |f.lists| && v < |f.lists[p]|
    ensures HoldsFrom(f, p, v, d) <==>
      (f.cells[f.lists[p][v]].used && f.cells[f.lists[p][v]].fd == d) || HoldsFrom(f, p, v + 1, d)
  {
  }

  lemma FcloseSlots(f: Files, p: nat, v: nat, d: nat)
    requires FilesInv(f) && p < |f.lists| && v < |f.lists[p]| && d < |f.slots| && f.cells[f.lists[p][v]].used
    ensures var g := Fclose(f, p, v);
      && ValidLists(g) && g.lists == f.lists && |g.slots| == |f.slots| && g.slots[d].inode == f.slots[d].inode
      && (g.slots[d].used <==> f.slots[d].used && (HeldByOther(f, p, d) || f.cells[f.lists[p][v]].fd != d))
      && (f.cells[f.lists[p][v]].fd != d ==> (HoldsFrom(g, p, v + 1, d) <==> HoldsFrom(f, p, v + 1, d)))
  {
    var g := Fclose(f, p, v);
    var c := f.lists[p][v];
    assert g.cells == f.cells[c := f.cells[c].(used := false)];
    if f.cells[c].fd != d {
      forall k | v + 1 <= k < |f.lists[p]|
        ensures g.cells[f.lists[p][k]].used && g.cells[f.lists[p][k]].fd == d <==>
          f.cells[f.lists[p][k]].used && f.cells[f.lists[p][k]].fd == d
      {
      }
    }
  }

  lemma OthersHoldTheSame(f: Files, g: Files, p: nat, d: int)
    requires ValidLists(f) && ValidLists(g) && Apart(f, g, p)
    ensures HeldByOther(g, p, d) <==> HeldByOther(f, p, d)
  {
    hide Holds, FilesInv, HeldByOther, SameFor;
    OtherHolds(f, p, d);
    OtherHolds(g, p, d);
    forall q: nat | q != p
      ensures Holds(g, q, d) <==> Holds(f, q, d)
    {
      SameHolds(f, g, q, d);
    }
  }

  lemma {:induction false} CloseFromSlots(f: Files, p: nat, v: nat, d: nat)
    requires FilesInv(f) && p < |f.lists| && v <= |f.lists[p]| && d < |f.slots|
    ensures var g := CloseFrom(f, p, v);
      && |g.slots| == |f.slots| && g.slots[d].inode == f.slots[d].inode
      && (g.slots[d].used <==> f.slots[d].used && (HeldByOther(f, p, d) || !HoldsFrom(f, p, v, d)))
    decreases |f.lists[p]| - v
  {
    hide FilesInv, HeldByOther, HoldsFrom, Fclose, Apart;
    InvValid(f);
    if v == |f.lists[p]| {
      NothingFromEnd(f, p, d);
    } else {
      HoldsFromNext(f, p, v, d);
      if f.cells[f.lists[p][v]].used {
        var g := Fclose(f, p, v);
        FcloseIsolated(f, p, v);
        IsolatedInv(f, g, p);
        FcloseSlots(f, p, v, d);
        OthersHoldTheSame(f, g, p, d);
        CloseFromSlots(g, p, v + 1, d);
      } else {
        CloseFromSlots(f, p, v + 1, d);
      }
    }
  }

  lemma NothingFromEnd(f: Files, p: nat, d: int)
    requires ValidLists(f) && p < |f.lists|
    ensures !HoldsFrom(f, p, |f.lists[p]|, d)
  {
  }

  /** An exit closes exactly the slots that the process held and no other process holds. */
  lemma ExitReleasesExactly(f: Files, p: nat, d: nat)
    requires FilesInv(f) && p < |f.lists| && d < |f.slots|
    ensures var g := ExitFiles(f, p);
      && |g.slots| == |f.slots| && g.slots[d].inode == f.slots[d].inode
      && (g.slots[d].used <==> f.slots[d].used && (HeldByOther(f, p, d) || !Holds(f, p, d)))
  {
    hide FilesInv, HeldByOther, CloseFrom;
    InvValid(f);
    CloseFromSlots(f, p, 0, d);
    assert HoldsFrom(f, p, 0, d) <==> Holds(f, p, d);
  }

  // ----- loading a program

  /** Loading a program leaves every used slot used exactly when its file was not open before: it
      closes the slot whoever else has it. */
  lemma LoadExactly(f: Files, i: nat)
    requires OneSlotEach(f.slots)
    ensures (forall d: int :: SlotKept(f.slots, LoadProgram(f, i).slots, d)) <==>
      forall d: nat :: d < |f.slots| && f.slots[d].used ==> f.slots[d].inode != i
  {
    var e := FindSlot(f.slots, i, 0);
    var slots := LoadProgram(f, i).slots;
    if e < |f.slots| {
      assert !SlotKept(f.slots, slots, e);
    } else {
      forall d: int
        ensures SlotKept(f.slots, slots, d)
      {
      }
    }
  }

  // ----- starting a program

  /** A new process holds its parent's input and output slots and nothing else; nobody else's
      descriptors change, and from then on no close by another process closes those slots. */
  lemma NewProcessShares(f: Files, stdin: int, stdout: int)
    requires FilesInv(f)
    ensures FilesInv(NewProcess(f, stdin, stdout))
    ensures var g, n := NewProcess(f, stdin, stdout), |f.lists|;
      && g.slots == f.slots && |g.lists| == n + 1 && (forall q: nat :: q < n ==> SameFor(f, g, q))
      && (forall fd: int :: Holds(g, n, fd) <==> fd == stdin || fd == stdout)
    ensures Live(NewProcess(f, stdin, stdout), |f.lists|) <==>
      0 <= stdin < |f.slots| && f.slots[stdin].used && 0 <= stdout < |f.slots| && f.slots[stdout].used
  {
    var g, n, c := NewProcess(f, stdin, stdout), |f.lists|, |f.cells|;
    assert g.lists[n] == [c, c + 1] && g.cells[c].fd == stdin && g.cells[c + 1].fd == stdout;
    forall q: nat, r: nat, k: nat, l: nat | SameCell(g, q, r, k, l)
      ensures q == r
    {
      if q < n && r < n { assert SameCell(f, q, r, k, l); }
    }
    assert forall fd: int :: Holds(g, n, fd) <==> fd == stdin || fd == stdout by {
      forall fd: int | fd == stdin || fd == stdout
        ensures Holds(g, n, fd)
      {
        assert g.cells[g.lists[n][if fd == stdin then 0 else 1]].fd == fd;
      }
    }
    if Live(g, n) { assert LiveCell(g, g.cells[g.lists[n][0]]) && LiveCell(g, g.cells[g.lists[n][1]]); }
  }

  /** Position k of process q gets an offset. */
  function AtOffset(f: Files, q: nat, k: nat, offset: int): (g: Files)
    requires ValidLists(f) && q < |f.lists| && k < |f.lists[q]|
    ensures ValidLists(g) && g.lists == f.lists
  {
    var c := f.lists[q][k];
    f.(cells := f.cells[c := f.cells[c].(offset := offset)])
  }

  /** What executing a program does: its file is loaded, and a process starts with the input and
      output of the one that executes it, where that has got to in both, if it has both. */
  function Execute(f: Files, p: nat, i: Option<nat>): (g: Files)
    requires ValidLists(f) && p < |f.lists|
    ensures |g.lists| >= |f.lists|
  {
    if i.None? || |f.lists[p]| < 2 then f
    else
      var stdin, stdout, n := f.cells[f.lists[p][0]], f.cells[f.lists[p][1]], |f.lists|;
      var g := NewProcess(LoadProgram(f, i.value), stdin.fd, stdout.fd);
      AtOffset(AtOffset(g, n, 0, stdin.offset), n, 1, stdout.offset)
  }

  /** Setting offsets leaves everybody else alone. */
  lemma OffsetsApart(f: Files, n: nat, a: int, b: int)
    requires FilesInv(f) && ValidLists(f) && n < |f.lists| && |f.lists[n]| == 2
    ensures var g := AtOffset(AtOffset(f, n, 0, a), n, 1, b);
      Apart(f, g, n) && g.slots == f.slots
  {
    hide FilesInv, SameFor;
    var h := AtOffset(f, n, 0, a);
    PutCellApart(f, n, 0, f.cells[f.lists[n][0]].(offset := a));
    PutCellApart(h, n, 1, h.cells[h.lists[n][1]].(offset := b));
    ApartTrans(f, h, AtOffset(h, n, 1, b), n);
  }

  predicate NotOpen(slots: seq<Slot>, i: nat) {
    forall d: nat :: d < |slots| && slots[d].used ==> slots[d].inode != i
  }

  lemma LoadKeepsInv(f: Files, i: nat)
    requires FilesInv(f)
    ensures FilesInv(LoadProgram(f, i)) && LoadProgram(f, i).lists == f.lists && LoadProgram(f, i).cells == f.cells
  {
    hide FilesInv, Private, OneSlotEach, OpenSlot, CloseSlot;
    InvValid(f);
    var (slots, fd) := OpenSlot(f.slots, i);
    OpenSlotKeeps(f.slots, i);
    CloseSlotKeeps(slots, fd);
    SlotsApart(f, 0, CloseSlot(slots, fd));
  }

  /** Executing a program leaves every other process's descriptors as they are; their slots stay
      used exactly as far as LoadExactly says. */
  lemma ExecuteLeaves(f: Files, p: nat, i: Option<nat>, q: nat)
    requires FilesInv(f) && p < |f.lists| && q < |f.lists|
    ensures var g := Execute(f, p, i);
      && FilesInv(g) && SameFor(f, g, q) && q < |g.lists|
      && ((i.Some? ==> NotOpen(f.slots, i.value)) ==> forall fd: int :: SlotKept(f.slots, g.slots, fd))
  {
    if i.Some? && |f.lists[p]| >= 2 {
      hide FilesInv, LoadProgram, NewProcess, NotOpen, AtOffset, SameFor;
      InvValid(f);
      LoadKeepsInv(f, i.value);
      if NotOpen(f.slots, i.value) { LoadKeepsSlots(f, i.value); }
      var h := LoadProgram(f, i.value);
      InvValid(h);
      var stdin, stdout, n := f.cells[f.lists[p][0]], f.cells[f.lists[p][1]], |f.lists|;
      NewProcessShares(h, stdin.fd, stdout.fd);
      var g := NewProcess(h, stdin.fd, stdout.fd);
      InvValid(g);
      NewProcessHasTwo(h, stdin.fd, stdout.fd);
      OffsetsApart(g, n, stdin.offset, stdout.offset);
      assert SameFor(h, g, q);
      SameForTrans(f, h, g, q) by { SameCellsSame(f, h, q); }
      SameForTrans(f, g, AtOffset(AtOffset(g, n, 0, stdin.offset), n, 1, stdout.offset), q);
    }
  }

  lemma NewProcessHasTwo(f: Files, stdin: int, stdout: int)
    ensures var g, n := NewProcess(f, stdin, stdout), |f.lists|;
      |g.lists| == n + 1 && |g.lists[n]| == 2
  {
  }

  lemma SameCellsSame(f: Files, g: Files, q: nat)
    requires ValidLists(f) && g.lists == f.lists && g.cells == f.cells
    ensures SameFor(f, g, q)
  {
  }

  lemma LoadKeepsSlots(f: Files, i: nat)
    requires OneSlotEach(f.slots) && NotOpen(f.slots, i)
    ensures forall d: int :: SlotKept(f.slots, LoadProgram(f, i).slots, d)
  {
    LoadExactly(f, i);
  }

  // ----- runs of calls by many processes

  datatype FileCall =
    | CallFopen(i: Option<nat>, mode: Mode)
    | CallFclose(v: int)
    | CallDup(from: int)
    | CallDup2(from: int, onto: int)
    | CallExit
    | CallExecute(file: Option<nat>)

  function PerformFor(f: Files, p: nat, c: FileCall): Files
    requires ValidLists(f) && p < |f.lists|
  {
    match c
    case CallFopen(i, mode) => Fopen(f, p, i, mode).0
    case CallFclose(v) => Fclose(f, p, v)
    case CallDup(from) => Dup(f, p, from).0
    case CallDup2(from, onto) => Dup2(f, p, from, onto).0
    case CallExit => ExitFiles(f, p)
    case CallExecute(file) => Execute(f, p, file)
  }

  /** No call of one process but execute closes or retargets a slot on which another has a used
      descriptor, or touches that descriptor. */
  lemma CallIsIsolated(f: Files, p: nat, c: FileCall)
    requires FilesInv(f) && p < |f.lists| && !c.CallExecute?
    ensures Isolated(f, PerformFor(f, p, c), p)
  {
    hide FilesInv, Isolated;
    InvValid(f);
    match c
    case CallFopen(i, mode) => FopenIsolated(f, p, i, mode);
    case CallFclose(v) => FcloseIsolated(f, p, v);
    case CallDup(from) => DupIsolated(f, p, from);
    case CallDup2(from, onto) => Dup2Isolated(f, p, from, onto);
    case CallExit => ExitIsolated(f, p);
  }

  datatype ProcessCall = ProcessCall(p: nat, call: FileCall)

  lemma PerformKeepsInv(f: Files, p: nat, c: FileCall)
    requires FilesInv(f) && ValidLists(f) && p < |f.lists|
    ensures FilesInv(PerformFor(f, p, c)) && ValidLists(PerformFor(f, p, c))
  {
    hide FilesInv, Isolated, PerformFor;
    if c.CallExecute? {
      ExecuteLeaves(f, p, c.file, p);
      PerformExecute(f, p, c);
    } else {
      CallIsIsolated(f, p, c);
      IsolatedInv(f, PerformFor(f, p, c), p);
    }
    InvValid(PerformFor(f, p, c));
  }

  lemma PerformExecute(f: Files, p: nat, c: FileCall)
    requires ValidLists(f) && p < |f.lists| && c.CallExecute?
    ensures PerformFor(f, p, c) == Execute(f, p, c.file)
  {
  }

  function RunFor(f: Files, calls: seq<ProcessCall>): Files
    requires ValidLists(f) && FilesInv(f)
    decreases |calls|
  {
    if calls == [] || calls[0].p >= |f.lists| then f
    else
      PerformKeepsInv(f, calls[0].p, calls[0].call);
      RunFor(PerformFor(f, calls[0].p, calls[0].call), calls[1..])
  }

  /** No program is executed while its file is open. */
  ghost predicate NoneOpen(f: Files, calls: seq<ProcessCall>)
    requires ValidLists(f) && FilesInv(f)
    decreases |calls|
  {
    calls != [] && calls[0].p < |f.lists| ==>
      && (calls[0].call.CallExecute? && calls[0].call.file.Some? ==> NotOpen(f.slots, calls[0].call.file.value))
      && (PerformKeepsInv(f, calls[0].p, calls[0].call);
          NoneOpen(PerformFor(f, calls[0].p, calls[0].call), calls[1..]))
  }

  lemma CallLeaves(f: Files, p: nat, c: FileCall, q: nat)
    requires FilesInv(f) && ValidLists(f) && p < |f.lists| && q < |f.lists| && q != p
    requires c.CallExecute? && c.file.Some? ==> NotOpen(f.slots, c.file.value)
    ensures FilesInv(PerformFor(f, p, c)) && SameFor(f, PerformFor(f, p, c), q) && q < |PerformFor(f, p, c).lists|
    ensures forall fd: int :: Holds(f, q, fd) ==> SlotKept(f.slots, PerformFor(f, p, c).slots, fd)
  {
    hide FilesInv, Isolated, PerformFor, Execute, NotOpen, SameFor;
    if c.CallExecute? {
      ExecuteLeaves(f, p, c.file, q);
      PerformExecute(f, p, c);
    } else {
      CallIsIsolated(f, p, c);
      IsolatedInv(f, PerformFor(f, p, c), p);
      IsolatedFor(f, PerformFor(f, p, c), p, q);
    }
  }

  lemma IsolatedFor(f: Files, g: Files, p: nat, q: nat)
    requires ValidLists(f) && Isolated(f, g, p) && q != p
    ensures SameFor(f, g, q) && forall fd: int :: Holds(f, q, fd) ==> SlotKept(f.slots, g.slots, fd)
  {
    hide FilesInv, Holds, SameFor;
  }

  /** Whatever the others do, executing and starting programs included, a process that makes no
      calls keeps its descriptors as they are and every one of them on a used slot of the same
      inode, as long as no program is executed while its file is open. */
  lemma {:induction false} BystanderKeepsFiles(f: Files, calls: seq<ProcessCall>, q: nat)
    requires FilesInv(f) && ValidLists(f) && q < |f.lists| && Live(f, q) && NoneOpen(f, calls)
    requires forall i :: 0 <= i < |calls| ==> calls[i].p != q
    ensures var g := RunFor(f, calls);
      && FilesInv(g) && SameFor(f, g, q) && q < |g.lists| && Live(g, q)
      && forall fd: int :: Holds(f, q, fd) ==> SlotKept(f.slots, g.slots, fd)
    decreases |calls|
  {
    hide FilesInv, PerformFor, Live, SameFor, Holds, NotOpen;
    SameForSelf(f, q);
    if calls != [] && calls[0].p < |f.lists| {
      var p := calls[0].p;
      var g := PerformFor(f, p, calls[0].call);
      CallLeaves(f, p, calls[0].call, q);
      InvValid(g);
      BystanderStep(f, g, q);
      BystanderKeepsFiles(g, calls[1..], q);
      var h := RunFor(g, calls[1..]);
      InvValid(h);
      SameForTrans(f, g, h, q);
      forall fd: int | Holds(f, q, fd)
        ensures SlotKept(f.slots, h.slots, fd)
      {
        SameHeld(f, g, q, fd);
      }
    }
  }

  lemma SameHeld(f: Files, g: Files, q: nat, fd: int)
    requires ValidLists(f) && ValidLists(g) && q < |f.lists| && SameFor(f, g, q)
    ensures Holds(g, q, fd) <==> Holds(f, q, fd)
  {
  }

  /** And executing a program whose file a bystander has open closes the bystander's slot. */
  lemma ExecuteOpenFile(f: Files, p: nat, q: nat, fd: nat)
    requires FilesInv(f) && p < |f.lists| && |f.lists[p]| >= 2 && q != p
    requires Holds(f, q, fd) && fd < |f.slots| && f.slots[fd].used
    ensures var g := Execute(f, p, Some(f.slots[fd].inode));
      ValidLists(g) && Holds(g, q, fd) && fd < |g.slots| && !g.slots[fd].used
  {
    ExecuteLeaves(f, p, Some(f.slots[fd].inode), q);
    InvValid(f);
    hide FilesInv;
    var i := f.slots[fd].inode;
    assert FindSlot(f.slots, i, 0) == fd;
  }

  lemma SameForSelf(f: Files, q: nat)
    requires ValidLists(f)
    ensures SameFor(f, f, q)
  {
  }

  lemma SameForTrans(f: Files, g: Files, h: Files, q: nat)
    requires ValidLists(f) && ValidLists(g) && SameFor(f, g, q) && SameFor(g, h, q)
    ensures SameFor(f, h, q)
  {
  }

  lemma BystanderStep(f: Files, g: Files, q: nat)
    requires ValidLists(f) && ValidLists(g) && SameFor(f, g, q) && q < |f.lists| && q < |g.lists| && Live(f, q)
    requires forall fd: int :: Holds(f, q, fd) ==> SlotKept(f.slots, g.slots, fd)
    ensures Live(g, q)
  {
    forall k | 0 <= k < |g.lists[q]|
      ensures LiveCell(g, g.cells[g.lists[q][k]])
    {
      var c := f.cells[f.lists[q][k]];
      assert LiveCell(f, c);
      if c.used { assert Holds(f, q, c.fd); }
    }
  }
}
