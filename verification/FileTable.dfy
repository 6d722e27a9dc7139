/** The descriptor calls as the program runs them, searching the lists of cells and changing cells
    and slots in place; each is proved to do what the function of the same name in Descriptors
    says. */
module FileTable {
  import opened Descriptors
  import DescriptorRuns
  import opened Options

  class FileTable {
    var slots: seq<Slot>
    var cells: seq<Cell>
    var lists: seq<seq<nat>>

    ghost function State(): Files
      reads this
    {
      Files(slots, cells, lists)
    }

    constructor ()
      ensures State() == Files([], [], [])
    {
      slots, cells, lists := [], [], [];
    }

    method Open(inode: nat) returns (fd: nat)
      modifies this`slots
      ensures (slots, fd) == OpenSlot(old(slots), inode)
    {
      fd := 0;
      while fd < |slots|
        invariant fd <= |slots| && FindSlot(slots, inode, fd) == FindSlot(slots, inode, 0)
      {
        if slots[fd].inode == inode && slots[fd].used { return; }
        fd := fd + 1;
      }
      fd := 0;
      while fd < |slots| && slots[fd].used
        invariant fd <= |slots| && FirstFreeSlot(slots, fd) == FirstFreeSlot(slots, 0)
      {
        fd := fd + 1;
      }
      slots := if fd < |slots| then slots[fd := Slot(true, inode)] else slots + [Slot(true, inode)];
    }

    method TakeCell(p: nat) returns (v: nat)
      requires ValidLists(State()) && p < |lists|
      modifies this`cells, this`lists
      ensures (State(), v) == Descriptors.TakeCell(old(State()), p)
    {
      v := 0;
      while v < |lists[p]| && cells[lists[p][v]].used
        invariant v <= |lists[p]| && FirstFreeCell(State(), lists[p], v) == FirstFreeCell(State(), lists[p], 0)
        invariant cells == old(cells) && lists == old(lists)
      {
        v := v + 1;
      }
      if v == |lists[p]| {
        lists := lists[p := lists[p] + [|cells|]];
        cells := cells + [Cell(false, 0, 0, false, false)];
      }
    }

    method Fopen(p: nat, inode: Option<nat>, mode: Mode) returns (v: int)
      requires ValidLists(State()) && p < |lists|
      modifies this
      ensures (State(), v) == Descriptors.Fopen(old(State()), p, inode, mode)
    {
      match inode
      case None =>
        v := -1;
      case Some(i) =>
        var fd := Open(i);
        var at := TakeCell(p);
        var c := lists[p][at];
        var cell := cells[c].(used := true, fd := fd, offset := 0);
        if mode == ReadOnly {
          cell := cell.(read := true, write := false);
        } else if mode == WriteOnly {
          cell := cell.(read := false, write := true);
        } else if mode == ReadWrite {
          cell := cell.(read := true, write := true);
        }
        cells := cells[c := cell];
        lists := lists[p := lists[p] + [c]];
        v := at;
    }

    /** The search for another process with the descriptor. */
    method UsedElsewhere(p: nat, fd: int) returns (found: bool)
      requires ValidLists(State())
      ensures found <==> HeldByOther(State(), p, fd)
    {
      var q := 0;
      while q < |lists|
        invariant 0 <= q <= |lists|
        invariant forall r, k :: 0 <= r < q && r != p && 0 <= k < |lists[r]| ==>
          !(cells[lists[r][k]].used && cells[lists[r][k]].fd == fd)
      {
        if q != p {
          var k := 0;
          while k < |lists[q]|
            invariant 0 <= k <= |lists[q]|
            invariant forall l :: 0 <= l < k ==> !(cells[lists[q][l]].used && cells[lists[q][l]].fd == fd)
          {
            if cells[lists[q][k]].used && cells[lists[q][k]].fd == fd { return true; }
            k := k + 1;
          }
        }
        q := q + 1;
      }
      return false;
    }

    method Fclose(p: nat, v: int)
      requires ValidLists(State()) && p < |lists|
      modifies this`slots, this`cells
      ensures State() == Descriptors.Fclose(old(State()), p, v)
    {
      if !(0 <= v < |lists[p]|) { return; }
      var c := lists[p][v];
      var elsewhere := UsedElsewhere(p, cells[c].fd);
      if !elsewhere {
        var fd := cells[c].fd;
        if 0 <= fd < |slots| { slots := slots[fd := slots[fd].(used := false)]; }
      }
      cells := cells[c := cells[c].(used := false)];
    }

    method Dup(p: nat, from: int) returns (v: int)
      requires ValidLists(State()) && p < |lists|
      modifies this`cells, this`lists
      ensures (State(), v) == Descriptors.Dup(old(State()), p, from)
    {
      if from == -1 { return -1; }
      var at := TakeCell(p);
      if !(0 <= from < |lists[p]|) { return -1; }
      cells := cells[lists[p][at] := cells[lists[p][from]]];
      v := at;
    }

    method Dup2(p: nat, from: int, onto: int) returns (v: int)
      requires ValidLists(State()) && p < |lists|
      modifies this`slots, this`cells
      ensures (State(), v) == Descriptors.Dup2(old(State()), p, from, onto)
    {
      if from == -1 || onto == -1 { return -1; }
      Fclose(p, onto);
      if !(0 <= from < |lists[p]|) || !(0 <= onto < |lists[p]|) { return -1; }
      cells := cells[lists[p][onto] := cells[lists[p][from]]];
      v := onto;
    }

    /** An exiting process closes what it still uses. */
    method ExitFiles(p: nat)
      requires ValidLists(State()) && p < |lists|
      modifies this
      ensures State() == Descriptors.ExitFiles(old(State()), p)
    {
      var v := 0;
      while v < |lists[p]|
        invariant lists == old(lists) && 0 <= v <= |lists[p]| && ValidLists(State())
        invariant CloseFrom(State(), p, v) == CloseFrom(old(State()), p, 0)
      {
        if cells[lists[p][v]].used { Fclose(p, v); }
        v := v + 1;
      }
      lists := lists[p := []];
    }

    /** Loading a program: its file is opened, read, and closed without asking who else has it. */
    method LoadProgram(inode: nat)
      modifies this`slots
      ensures State() == Descriptors.LoadProgram(old(State()), inode)
    {
      var fd := Open(inode);
      slots := slots[fd := slots[fd].(used := false)];
    }

    /** A process starts with the given slots for its input and output. */
    method StartProcess(stdin: int, stdout: int)
      modifies this`cells, this`lists
      ensures State() == NewProcess(old(State()), stdin, stdout)
    {
      var n := |cells|;
      cells := cells + [Cell(true, stdin, 0, true, false)];
      cells := cells + [Cell(true, stdout, 0, false, true)];
      lists := lists + [[n, n + 1]];
    }

    /** Executing a program: the child takes over the first two descriptors and their offsets. */
    method Execute(p: nat, inode: Option<nat>)
      requires ValidLists(State()) && p < |lists|
      modifies this
      ensures State() == DescriptorRuns.Execute(old(State()), p, inode)
    {
      if inode == None || |lists[p]| < 2 { return; }
      var stdin, stdout, n := cells[lists[p][0]], cells[lists[p][1]], |lists|;
      LoadProgram(inode.value);
      StartProcess(stdin.fd, stdout.fd);
      var c := lists[n][0];
      cells := cells[c := cells[c].(offset := stdin.offset)];
      c := lists[n][1];
      cells := cells[c := cells[c].(offset := stdout.offset)];
    }
  }
}
