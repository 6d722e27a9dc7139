/** What each descriptor call gives the process that makes it: which position, what stands there,
    and that the process's other descriptors stay what they were. */
module DescriptorCalls {
  import opened Descriptors
  import opened DescriptorRuns
  import opened Options

  predicate UsedAt(f: Files, p: nat, k: nat)
    requires ValidLists(f) && p < |f.lists|
  {
    k < |f.lists[p]| && f.cells[f.lists[p][k]].used
  }

  /** Process p's positions stay, and so do its descriptors that are in use. */
  ghost predicate OwnKept(f: Files, g: Files, p: nat)
    requires ValidLists(f) && p < |f.lists|
  {
    && ValidLists(g) && p < |g.lists| && |f.lists[p]| <= |g.lists[p]|
    && forall k: nat :: k < |f.lists[p]| ==>
         && g.lists[p][k] == f.lists[p][k]
         && (f.cells[f.lists[p][k]].used ==> g.cells[f.lists[p][k]] == f.cells[f.lists[p][k]])
  }

  /** v is the first of p's positions that is not in use, or the one past its last. */
  predicate FirstUnusedAt(f: Files, p: nat, v: nat)
    requires ValidLists(f) && p < |f.lists|
  {
    v <= |f.lists[p]| && !UsedAt(f, p, v) && forall k: nat :: k < v ==> UsedAt(f, p, k)
  }

  ghost predicate RightsOf(mode: Mode, before: Cell, after: Cell) {
    match mode
    case ReadOnly => after.read && !after.write
    case WriteOnly => !after.read && after.write
    case ReadWrite => after.read && after.write
    case OtherMode => after.read == before.read && after.write == before.write
  }

  /** fopen gives the first position that is not in use, with a descriptor at the start of the
      file, with the rights of the mode, on a slot open on the file's inode; every descriptor the
      process had in use is as it was, and so is every slot.  Without such a file nothing happens. */
  lemma FopenGives(f: Files, p: nat, i: nat, mode: Mode)
    requires FilesInv(f) && ValidLists(f) && p < |f.lists|
    ensures Fopen(f, p, None, mode) == (f, -1)
    ensures var (g, v) := Fopen(f, p, Some(i), mode);
      && v >= 0 && FirstUnusedAt(f, p, v) && OwnKept(f, g, p) && v < |g.lists[p]|
      && (forall d: int :: SlotKept(f.slots, g.slots, d))
      && (Live(f, p) ==> Live(g, p))
      && var c := g.cells[g.lists[p][v]];
         && c.used && c.offset == 0 && 0 <= c.fd < |g.slots| && g.slots[c.fd] == Slot(true, i)
         && RightsOf(mode, if v < |f.lists[p]| then f.cells[f.lists[p][v]] else Cell(false, 0, 0, false, false), c)
  {
  }

  /** dup gives the first position that is not in use, with a copy of the descriptor, on the same
      slot; a position that there is not gives -1 and changes no descriptor in use. */
  lemma DupGives(f: Files, p: nat, from: int)
    requires FilesInv(f) && ValidLists(f) && p < |f.lists|
    ensures var (g, v) := Dup(f, p, from);
      && OwnKept(f, g, p) && g.slots == f.slots && (Live(f, p) ==> Live(g, p))
      && (0 <= from < |f.lists[p]| ==>
            && v >= 0 && FirstUnusedAt(f, p, v) && v < |g.lists[p]|
            && g.cells[g.lists[p][v]] == f.cells[f.lists[p][from]])
      && (from < 0 || from > |f.lists[p]| ==> v == -1)
      && g.lists == if from == -1 then f.lists else TakeCell(f, p).0.lists
  {
  }

  /** dup2 gives the position asked for exactly when both are there; without it, at most that
      position has been closed.  Descriptors in other cells stay as they are. */
  lemma Dup2Gives(f: Files, p: nat, from: int, onto: int)
    requires FilesInv(f) && ValidLists(f) && p < |f.lists|
    ensures var (g, v) := Dup2(f, p, from, onto);
      && ValidLists(g) && g.lists == f.lists && |g.cells| == |f.cells|
      && v == (if 0 <= from < |f.lists[p]| && 0 <= onto < |f.lists[p]| then onto else -1)
      && (v >= 0 && f.lists[p][from] != f.lists[p][onto] ==>
            g.cells[f.lists[p][onto]] == f.cells[f.lists[p][from]])
      && (v >= 0 && f.lists[p][from] == f.lists[p][onto] ==> !UsedAt(g, p, onto))
      && (from == -1 || onto < 0 || onto >= |f.lists[p]| ==> g == f)
      && (forall c :: 0 <= c < |f.cells| && (0 <= onto < |f.lists[p]| ==> c != f.lists[p][onto]) ==>
            g.cells[c] == f.cells[c])
  {
  }

  /** A process that has exited has no descriptors. */
  lemma ExitLeavesNone(f: Files, p: nat, fd: int)
    requires FilesInv(f) && ValidLists(f) && p < |f.lists|
    ensures ValidLists(ExitFiles(f, p)) && !Holds(ExitFiles(f, p), p, fd)
  {
  }

  /** A loaded program's file is not left open. */
  lemma LoadClosesFile(f: Files, i: nat)
    requires OneSlotEach(f.slots)
    ensures NotOpen(LoadProgram(f, i).slots, i)
  {
  }

  /** The process that executes a program hands on its first two descriptors, in this order: one
      to read from and one to write to, both where it has got to; without a file, or without the
      two, nothing happens. */
  lemma ExecuteShares(f: Files, p: nat, i: Option<nat>)
    requires FilesInv(f) && ValidLists(f) && p < |f.lists|
    ensures var g, n := Execute(f, p, i), |f.lists|;
      if i.None? || |f.lists[p]| < 2 then g == f
      else
        && ValidLists(g) && |g.lists| == n + 1 && |g.lists[n]| == 2
        && g.cells[g.lists[n][0]] == Cell(true, f.cells[f.lists[p][0]].fd, f.cells[f.lists[p][0]].offset, true, false)
        && g.cells[g.lists[n][1]] == Cell(true, f.cells[f.lists[p][1]].fd, f.cells[f.lists[p][1]].offset, false, true)
  {
  }
}
