/** The descriptors of processes over the kernel's table of open files: cells that list positions
    share, slots that processes share, and which of them every call leaves alone. */
module Descriptors {
  import opened FsState
  import opened Options

  /** A slot of the kernel's table: whether it is used, and the inode it is open on. */
  datatype Slot = Slot(used: bool, inode: nat)

  /** A descriptor of a process. */
  datatype Cell = Cell(used: bool, fd: int, offset: int, read: bool, write: bool)

  /** The kernel's table, every cell there is, and for each process the list of its cells: the
      same cell may stand at several positions of a list. */
  datatype Files = Files(slots: seq<Slot>, cells: seq<Cell>, lists: seq<seq<nat>>)

  datatype Mode = ReadOnly | WriteOnly | ReadWrite | OtherMode

  // ----- the kernel's table

  function FindSlot(slots: seq<Slot>, i: nat, d: nat): (r: nat)
    requires d <= |slots|
    ensures d <= r <= |slots| && (r < |slots| ==> slots[r].used && slots[r].inode == i)
    ensures forall e :: d <= e < r ==> !(slots[e].used && slots[e].inode == i)
    decreases |slots| - d
  {
    if d < |slots| && !(slots[d].used && slots[d].inode == i) then FindSlot(slots, i, d + 1) else d
  }

  function FirstFreeSlot(slots: seq<Slot>, d: nat): (r: nat)
    requires d <= |slots|
    ensures d <= r <= |slots| && (r < |slots| ==> !slots[r].used)
    ensures forall e :: d <= e < r ==> slots[e].used
    decreases |slots| - d
  {
    if d < |slots| && slots[d].used then FirstFreeSlot(slots, d + 1) else d
  }

  /** The slot open on an inode, or else the first unused one, or a new one. */
  function OpenSlot(slots: seq<Slot>, i: nat): (seq<Slot>, nat) {
    var d := FindSlot(slots, i, 0);
    if d < |slots| then (slots, d)
    else
      var e := FirstFreeSlot(slots, 0);
      (if e < |slots| then slots[e := Slot(true, i)] else slots + [Slot(true, i)], e)
  }

  function CloseSlot(slots: seq<Slot>, fd: int): (r: seq<Slot>)
    ensures |r| == |slots|
  {
    if 0 <= fd < |slots| then slots[fd := slots[fd].(used := false)] else slots
  }

  /** What this module sees of the file system's table of open files. */
  function SlotsOf(open: seq<Descriptor>): (r: seq<Slot>)
    ensures |r| == |open| && forall d :: 0 <= d < |open| ==> r[d] == Slot(open[d].used, open[d].inode)
  {
    seq(|open|, d requires 0 <= d < |open| => Slot(open[d].used, open[d].inode))
  }

  /** The slots are the file system's own table: opening and closing there are OpenSlot and
      CloseSlot here. */
  lemma SlotsAreTheTable(s: State, i: nat, d: int)
    requires i < |s.inodes|
    ensures SlotsOf(Attach(s, i).0.open) == OpenSlot(SlotsOf(s.open), i).0
    ensures Attach(s, i).1 == OpenSlot(SlotsOf(s.open), i).1
    ensures Close(s, d).Some? ==> SlotsOf(Close(s, d).value.open) == CloseSlot(SlotsOf(s.open), d)
  {
    var slots := SlotsOf(s.open);
    SameFind(s.open, i, 0);
    SameFree(s.open, 0);
  }

  lemma {:induction false} SameFind(open: seq<Descriptor>, i: nat, d: nat)
    requires d <= |open|
    ensures FindOpen(open, i, d) == FindSlot(SlotsOf(open), i, d)
    decreases |open| - d
  {
    if d < |open| && !(open[d].used && open[d].inode == i) { SameFind(open, i, d + 1); }
  }

  lemma {:induction false} SameFree(open: seq<Descriptor>, d: nat)
    requires d <= |open|
    ensures FirstUnused(open, d) == FirstFreeSlot(SlotsOf(open), d)
    decreases |open| - d
  {
    if d < |open| && open[d].used { SameFree(open, d + 1); }
  }

  // ----- calls by process p

  function FirstFreeCell(f: Files, list: seq<nat>, v: nat): (r: nat)
    requires v <= |list| && forall k :: 0 <= k < |list| ==> list[k] < |f.cells|
    ensures v <= r <= |list| && (r < |list| ==> !f.cells[list[r]].used)
    ensures forall k :: v <= k < r ==> f.cells[list[k]].used
    decreases |list| - v
  {
    if v < |list| && f.cells[list[v]].used then FirstFreeCell(f, list, v + 1) else v
  }

  predicate ValidLists(f: Files) {
    forall q, k :: 0 <= q < |f.lists| && 0 <= k < |f.lists[q]| ==> f.lists[q][k] < |f.cells|
  }

  /** A position for a new descriptor: the first whose cell is unused, or a new cell at the end. */
  function TakeCell(f: Files, p: nat): (r: (Files, nat))
    requires ValidLists(f) && p < |f.lists|
    ensures ValidLists(r.0) && |r.0.lists| == |f.lists| && r.1 < |r.0.lists[p]|
  {
    var list := f.lists[p];
    var v := FirstFreeCell(f, list, 0);
    if v < |list| then (f, v)
    else (f.(cells := f.cells + [Cell(false, 0, 0, false, false)], lists := f.lists[p := list + [|f.cells|]]), v)
  }

  function Moded(c: Cell, mode: Mode): Cell {
    match mode
    case ReadOnly => c.(read := true, write := false)
    case WriteOnly => c.(read := false, write := true)
    case ReadWrite => c.(read := true, write := true)
    case OtherMode => c
  }

  /** Opening a file whose path resolves to inode i, or to none.  The cell is added to the list
      once more than it should be. */
  function Fopen(f: Files, p: nat, i: Option<nat>, mode: Mode): (Files, int)
    requires ValidLists(f) && p < |f.lists|
  {
    match i
    case None => (f, -1)
    case Some(inode) =>
      var (slots, fd) := OpenSlot(f.slots, inode);
      var (g, v) := TakeCell(f, p);
      var c := g.lists[p][v];
      var cell := Moded(g.cells[c].(used := true, fd := fd, offset := 0), mode);
      (Files(slots, g.cells[c := cell], g.lists[p := g.lists[p] + [c]]), v as int)
  }

  /** Another process than p has a used descriptor on kernel slot fd. */
  predicate HeldByOther(f: Files, p: nat, fd: int)
    requires ValidLists(f)
  {
    exists q, k :: 0 <= q < |f.lists| && q != p && 0 <= k < |f.lists[q]|
      && f.cells[f.lists[q][k]].used && f.cells[f.lists[q][k]].fd == fd
  }

  function Fclose(f: Files, p: nat, v: int): Files
    requires ValidLists(f) && p < |f.lists|
  {
    if !(0 <= v < |f.lists[p]|) then f
    else
      var c := f.lists[p][v];
      var cells := f.cells[c := f.cells[c].(used := false)];
      if HeldByOther(f, p, f.cells[c].fd) then f.(cells := cells)
      else f.(cells := cells, slots := CloseSlot(f.slots, f.cells[c].fd))
  }

  /** The cell is taken before the old descriptor is looked up. */
  function Dup(f: Files, p: nat, from: int): (Files, int)
    requires ValidLists(f) && p < |f.lists|
  {
    if from == -1 then (f, -1)
    else
      var (g, v) := TakeCell(f, p);
      if !(0 <= from < |g.lists[p]|) then (g, -1)
      else (g.(cells := g.cells[g.lists[p][v] := g.cells[g.lists[p][from]]]), v as int)
  }

  function Dup2(f: Files, p: nat, from: int, onto: int): (Files, int)
    requires ValidLists(f) && p < |f.lists|
  {
    if from == -1 || onto == -1 then (f, -1)
    else
      var g := Fclose(f, p, onto);
      if !(0 <= from < |g.lists[p]|) || !(0 <= onto < |g.lists[p]|) then (g, -1)
      else (g.(cells := g.cells[g.lists[p][onto] := g.cells[g.lists[p][from]]]), onto)
  }

  /** An exiting process closes the descriptors from position v on that are still used. */
  function CloseFrom(f: Files, p: nat, v: nat): (g: Files)
    requires ValidLists(f) && p < |f.lists| && v <= |f.lists[p]|
    ensures ValidLists(g) && g.lists == f.lists
    decreases |f.lists[p]| - v
  {
    if v == |f.lists[p]| then f
    else CloseFrom(if f.cells[f.lists[p][v]].used then Fclose(f, p, v) else f, p, v + 1)
  }

  /** Loading a program opens its file and closes whatever slot that gave. */
  function LoadProgram(f: Files, i: nat): Files {
    var (slots, fd) := OpenSlot(f.slots, i);
    f.(slots := CloseSlot(slots, fd))
  }

  /** A new process holds its parent's input and output. */
  function NewProcess(f: Files, stdin: int, stdout: int): Files {
    var n := |f.cells|;
    f.(cells := f.cells + [Cell(true, stdin, 0, true, false), Cell(true, stdout, 0, false, true)],
          lists := f.lists + [[n, n + 1]])
  }

  /** What is left of a process's descriptors when it exits. */
  function ExitFiles(f: Files, p: nat): Files
    requires ValidLists(f) && p < |f.lists|
  {
    var g := CloseFrom(f, p, 0);
    g.(lists := g.lists[p := []])
  }

  // ----- what processes may rely on

  /** Process q has a used descriptor on slot fd. */
  predicate Holds(f: Files, q: nat, fd: int)
    requires ValidLists(f)
  {
    q < |f.lists| && exists k :: 0 <= k < |f.lists[q]| && f.cells[f.lists[q][k]].used && f.cells[f.lists[q][k]].fd == fd
  }

  ghost predicate SameCell(f: Files, q: nat, r: nat, k: nat, l: nat) {
    q < |f.lists| && r < |f.lists| && k < |f.lists[q]| && l < |f.lists[r]| && f.lists[q][k] == f.lists[r][l]
  }

  /** No cell is in the lists of two processes. */
  ghost predicate Private(f: Files) {
    forall q: nat, r: nat, k: nat, l: nat :: SameCell(f, q, r, k, l) ==> q == r
  }

  /** No two used slots are open on the same inode. */
  ghost predicate OneSlotEach(slots: seq<Slot>) {
    forall d: nat, e: nat :: d < e < |slots| && slots[d].used && slots[e].used ==> slots[d].inode != slots[e].inode
  }

  ghost predicate FilesInv(f: Files) {
    ValidLists(f) && Private(f) && OneSlotEach(f.slots)
  }

  /** A used slot is open on the same inode as before. */
  predicate SlotKept(slots: seq<Slot>, slots': seq<Slot>, fd: int) {
    0 <= fd < |slots| && slots[fd].used ==> fd < |slots'| && slots'[fd] == slots[fd]
  }

  /** Process q's list and the cells in it are as before. */
  ghost predicate SameFor(f: Files, f': Files, q: nat)
    requires ValidLists(f)
  {
    q < |f.lists| ==>
      && q < |f'.lists| && f'.lists[q] == f.lists[q]
      && forall k: nat :: k < |f.lists[q]| ==>
             f.lists[q][k] < |f'.cells| && f'.cells[f.lists[q][k]] == f.cells[f.lists[q][k]]
  }

  /** A call by p that leaves the other processes' descriptors alone and keeps the invariant. */
  ghost predicate Apart(f: Files, f': Files, p: nat)
    requires ValidLists(f)
  {
    FilesInv(f') && |f'.lists| == |f.lists| && forall q: nat :: q != p ==> SameFor(f, f', q)
  }

  /** And every slot that another process holds. */
  ghost predicate Isolated(f: Files, f': Files, p: nat)
    requires ValidLists(f)
  {
    Apart(f, f', p) && forall q: nat, fd: int :: q != p && Holds(f, q, fd) ==> SlotKept(f.slots, f'.slots, fd)
  }

  // ----- parts of calls

  lemma ApartTrans(f: Files, g: Files, h: Files, p: nat)
    requires ValidLists(f) && Apart(f, g, p) && Apart(g, h, p)
    ensures Apart(f, h, p)
  {
    hide FilesInv;
    assert ValidLists(g) by { InvValid(g); }
    forall q: nat | q != p
      ensures SameFor(f, h, q)
    {
      assert SameFor(f, g, q) && SameFor(g, h, q);
    }
  }

  lemma InvValid(f: Files)
    requires FilesInv(f)
    ensures ValidLists(f) && OneSlotEach(f.slots)
  {
  }

  lemma SameHolds(f: Files, f': Files, q: nat, fd: int)
    requires ValidLists(f) && ValidLists(f') && |f'.lists| == |f.lists| && SameFor(f, f', q)
    ensures Holds(f', q, fd) <==> Holds(f, q, fd)
  {
  }

  lemma TakeCellApart(f: Files, p: nat)
    requires FilesInv(f) && p < |f.lists|
    ensures var (g, v) := TakeCell(f, p);
      && Apart(f, g, p) && g.slots == f.slots && p < |g.lists| && v < |g.lists[p]|
  {
    var (g, v) := TakeCell(f, p);
    forall q: nat, r: nat, k: nat, l: nat | SameCell(g, q, r, k, l)
      ensures q == r
    {
      var n := |f.lists[p]|;
      if !(q == p && k == n && |g.lists[p]| > n) && !(r == p && l == n && |g.lists[p]| > n) {
        assert SameCell(f, q, r, k, l);
      }
    }
  }

  lemma PutCellApart(f: Files, p: nat, v: nat, cell: Cell)
    requires FilesInv(f) && p < |f.lists| && v < |f.lists[p]|
    ensures Apart(f, f.(cells := f.cells[f.lists[p][v] := cell]), p)
  {
    var g := f.(cells := f.cells[f.lists[p][v] := cell]);
    forall q: nat, r: nat, k: nat, l: nat | SameCell(g, q, r, k, l)
      ensures q == r
    {
      assert SameCell(f, q, r, k, l);
    }
    forall q: nat | q != p
      ensures SameFor(f, g, q)
    {
      if q < |f.lists| {
        forall k: nat | k < |f.lists[q]|
          ensures g.cells[f.lists[q][k]] == f.cells[f.lists[q][k]]
        {
          assert !SameCell(f, q, p, k, v);
        }
      }
    }
  }

  lemma AliasApart(f: Files, p: nat, v: nat)
    requires FilesInv(f) && p < |f.lists| && v < |f.lists[p]|
    ensures Apart(f, f.(lists := f.lists[p := f.lists[p] + [f.lists[p][v]]]), p)
  {
    var g := f.(lists := f.lists[p := f.lists[p] + [f.lists[p][v]]]);
    var n := |f.lists[p]|;
    forall q: nat, r: nat, k: nat, l: nat | SameCell(g, q, r, k, l)
      ensures q == r
    {
      var k' := if q == p && k == n then v else k;
      var l' := if r == p && l == n then v else l;
      assert SameCell(f, q, r, k', l');
    }
  }

  lemma SlotsApart(f: Files, p: nat, slots: seq<Slot>)
    requires FilesInv(f) && OneSlotEach(slots)
    ensures Apart(f, f.(slots := slots), p)
  {
    var g := f.(slots := slots);
    forall q: nat, r: nat, k: nat, l: nat | SameCell(g, q, r, k, l)
      ensures q == r
    {
      assert SameCell(f, q, r, k, l);
    }
  }

  /** Opening keeps every used slot, and never makes a second one for an inode. */
  lemma OpenSlotKeeps(slots: seq<Slot>, i: nat)
    requires OneSlotEach(slots)
    ensures var (slots', fd) := OpenSlot(slots, i);
      && OneSlotEach(slots') && fd < |slots'| && slots'[fd] == Slot(true, i)
      && forall d: int :: SlotKept(slots, slots', d)
  {
  }

  lemma CloseSlotKeeps(slots: seq<Slot>, fd: int)
    requires OneSlotEach(slots)
    ensures OneSlotEach(CloseSlot(slots, fd)) && forall d: int :: d != fd ==> SlotKept(slots, CloseSlot(slots, fd), d)
  {
  }

  // ----- every call leaves other processes alone

  lemma FopenIsolated(f: Files, p: nat, i: Option<nat>, mode: Mode)
    requires FilesInv(f) && p < |f.lists|
    ensures Isolated(f, Fopen(f, p, i, mode).0, p)
  {
    hide FilesInv, Private, OneSlotEach, OpenSlot, TakeCell, SameFor;
    InvValid(f);
    ApartSelf(f, p);
    if i.Some? {
      OpenSlotKeeps(f.slots, i.value);
      var slots := OpenSlot(f.slots, i.value).0;
      var (g, v) := TakeCell(f, p);
      TakeCellApart(f, p);
      var c := g.lists[p][v];
      var cell := Moded(g.cells[c].(used := true, fd := OpenSlot(f.slots, i.value).1, offset := 0), mode);
      var g1 := g.(cells := g.cells[c := cell]);
      PutCellApart(g, p, v, cell);
      var g2 := g1.(lists := g1.lists[p := g1.lists[p] + [c]]);
      AliasApart(g1, p, v);
      SlotsApart(g2, p, slots);
      ApartTrans(f, g, g1, p);
      ApartTrans(f, g1, g2, p);
      ApartTrans(f, g2, g2.(slots := slots), p);
    }
  }

  lemma ApartSelf(f: Files, p: nat)
    requires FilesInv(f)
    ensures Apart(f, f, p)
  {
  }

  lemma OtherHolds(f: Files, p: nat, fd: int)
    requires ValidLists(f)
    ensures HeldByOther(f, p, fd) <==> exists q: nat :: q != p && Holds(f, q, fd)
  {
    if HeldByOther(f, p, fd) {
      var q, k :| 0 <= q < |f.lists| && q != p && 0 <= k < |f.lists[q]|
        && f.cells[f.lists[q][k]].used && f.cells[f.lists[q][k]].fd == fd;
      assert Holds(f, q, fd);
    }
  }

  lemma FcloseIsolated(f: Files, p: nat, v: int)
    requires FilesInv(f) && p < |f.lists|
    ensures Isolated(f, Fclose(f, p, v), p) && Fclose(f, p, v).lists == f.lists
  {
    hide FilesInv, Private, OneSlotEach, CloseSlot, SameFor, HeldByOther, Holds;
    InvValid(f);
    ApartSelf(f, p);
    if 0 <= v < |f.lists[p]| {
      var c := f.lists[p][v];
      var fd := f.cells[c].fd;
      var g := f.(cells := f.cells[c := f.cells[c].(used := false)]);
      PutCellApart(f, p, v, f.cells[c].(used := false));
      OtherHolds(f, p, fd);
      CloseSlotKeeps(f.slots, fd);
      SlotsApart(g, p, CloseSlot(f.slots, fd));
      ApartTrans(f, g, g.(slots := CloseSlot(f.slots, fd)), p);
    }
  }

  lemma DupIsolated(f: Files, p: nat, from: int)
    requires FilesInv(f) && p < |f.lists|
    ensures Isolated(f, Dup(f, p, from).0, p)
  {
    hide FilesInv, Private, OneSlotEach, TakeCell, SameFor, Holds;
    InvValid(f);
    ApartSelf(f, p);
    if from != -1 {
      var (g, v) := TakeCell(f, p);
      TakeCellApart(f, p);
      InvValid(g);
      if 0 <= from < |g.lists[p]| {
        PutCellApart(g, p, v, g.cells[g.lists[p][from]]);
        ApartTrans(f, g, g.(cells := g.cells[g.lists[p][v] := g.cells[g.lists[p][from]]]), p);
      }
    }
  }

  lemma Dup2Isolated(f: Files, p: nat, from: int, onto: int)
    requires FilesInv(f) && p < |f.lists|
    ensures Isolated(f, Dup2(f, p, from, onto).0, p)
  {
    hide FilesInv, Private, OneSlotEach, Fclose, SameFor, Holds;
    InvValid(f);
    ApartSelf(f, p);
    if from != -1 && onto != -1 {
      var g := Fclose(f, p, onto);
      FcloseIsolated(f, p, onto);
      InvValid(g);
      if 0 <= from < |g.lists[p]| && 0 <= onto < |g.lists[p]| {
        PutCellApart(g, p, onto, g.cells[g.lists[p][from]]);
        ApartTrans(f, g, g.(cells := g.cells[g.lists[p][onto] := g.cells[g.lists[p][from]]]), p);
      }
    }
  }

  lemma IsolatedTrans(f: Files, g: Files, h: Files, p: nat)
    requires ValidLists(f) && Isolated(f, g, p) && ValidLists(g) && Isolated(g, h, p)
    ensures Isolated(f, h, p)
  {
    hide FilesInv, Holds, SameFor;
    ApartTrans(f, g, h, p);
    forall q: nat, fd: int | q != p && Holds(f, q, fd)
      ensures SlotKept(f.slots, h.slots, fd)
    {
      InvValid(g);
      SameHolds(f, g, q, fd);
    }
  }

  lemma {:induction false} CloseFromIsolated(f: Files, p: nat, v: nat)
    requires FilesInv(f) && p < |f.lists| && v <= |f.lists[p]|
    ensures Isolated(f, CloseFrom(f, p, v), p)
    decreases |f.lists[p]| - v
  {
    hide FilesInv, Fclose, Holds, SameFor, Isolated;
    InvValid(f);
    IsolatedSelf(f, p);
    if v < |f.lists[p]| {
      if f.cells[f.lists[p][v]].used {
        FcloseIsolated(f, p, v);
        var g := Fclose(f, p, v);
        IsolatedInv(f, g, p);
        InvValid(g);
        CloseFromIsolated(g, p, v + 1);
        IsolatedTrans(f, g, CloseFrom(g, p, v + 1), p);
      } else {
        CloseFromIsolated(f, p, v + 1);
      }
    }
  }

  lemma IsolatedSelf(f: Files, p: nat)
    requires FilesInv(f)
    ensures Isolated(f, f, p)
  {
    hide Holds;
  }

  lemma IsolatedInv(f: Files, g: Files, p: nat)
    requires ValidLists(f) && Isolated(f, g, p)
    ensures FilesInv(g) && |g.lists| == |f.lists|
  {
  }

  lemma ExitIsolated(f: Files, p: nat)
    requires FilesInv(f) && p < |f.lists|
    ensures Isolated(f, ExitFiles(f, p), p)
  {
    hide FilesInv, Holds, CloseFrom, SameFor;
    InvValid(f);
    CloseFromIsolated(f, p, 0);
    var g := CloseFrom(f, p, 0);
    ListGone(g, p);
    ApartTrans(f, g, ExitFiles(f, p), p);
  }

  lemma ListGone(f: Files, p: nat)
    requires FilesInv(f) && p < |f.lists|
    ensures Apart(f, f.(lists := f.lists[p := []]), p)
  {
    var g := f.(lists := f.lists[p := []]);
    forall q: nat, r: nat, k: nat, l: nat | SameCell(g, q, r, k, l)
      ensures q == r
    {
      assert SameCell(f, q, r, k, l);
    }
  }
}
