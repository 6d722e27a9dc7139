/** The directories as a tree: every bound inode has one path, and only one; and the state the
    image builder leaves is a sound one to start from. */
module FsPaths {
  import opened Blocks
  import opened FsState
  import opened FsInvariant
  import opened FsTree
  import opened FsOpen

  const ROOT: int := 0   // the user allowed everything

  lemma WalkChild(s: State, i: nat, name: string, j: nat, euid: int)
    requires GoodTree(s) && i < |s.inodes| && HasChild(s, i, name, j)
    ensures Walk(s, i, [name], euid) == Resolved(j)
  {
    ParentIsDirectory(s, i, name, j);
    ScanFinds(s, i, name, j);
    assert [name][1..] == [];
  }

  /** A longer path resolves to a child of what the shorter one resolves to. */
  lemma {:induction false} WalkExtend(s: State, i: nat, components: seq<string>, p: nat, name: string, j: nat)
    requires GoodTree(s) && i < |s.inodes| && Walk(s, i, components, ROOT) == Resolved(p) && HasChild(s, p, name, j)
    ensures Walk(s, i, components + [name], ROOT) == Resolved(j)
    decreases |components|
  {
    hide GoodTree, HasChild;
    if components == [] {
      WalkChild(s, i, name, j, ROOT);
    } else {
      var c := ScanFrom(s, IndexOf(s, i), components[0], 0).inode;
      WalkExtend(s, c, components[1..], p, name, j);
      assert (components + [name])[1..] == components[1..] + [name];
    }
  }

  /** Every bound inode can be reached from the root directory. */
  lemma {:induction false} EveryInodeReachable(s: State, j: nat) returns (path: seq<string>)
    requires Inv(s) && j < |s.inodes| && s.inodes[j].bound
    ensures Walk(s, 0, path, ROOT) == Resolved(j)
    decreases j
  {
    hide Inv;
    InvGoodTree(s);
    if j == 0 {
      path := [];
    } else {
      var i, m := ParentEntry(s, j);
      var prefix := EveryInodeReachable(s, i);
      WalkExtend(s, 0, prefix, i, NameOf(s, j), j);
      path := prefix + [NameOf(s, j)];
    }
  }

  lemma ParentEntry(s: State, j: nat) returns (i: nat, m: nat)
    requires Inv(s) && 0 < j < |s.inodes| && s.inodes[j].bound
    ensures Entry(s, i, m) == j && i < j && s.inodes[i].bound && HasChild(s, i, NameOf(s, j), j)
  {
    assert EnteredSomewhere(s, j);
    i, m :| Entry(s, i, m) == j;
  }

  lemma WalkStep(s: State, i: nat, components: seq<string>, euid: int, j: nat) returns (c: nat)
    requires GoodTree(s) && Allocated(s) && |s.inodes| == INODES && i < |s.inodes| && s.inodes[i].bound
    requires components != [] && Walk(s, i, components, euid) == Resolved(j)
    ensures ScanFrom(s, IndexOf(s, i), components[0], 0) == Match(c) && HasChild(s, i, components[0], c)
    ensures c < |s.inodes| && s.inodes[c].bound && Walk(s, c, components[1..], euid) == Resolved(j)
    ensures |components| > 1 ==> Permitted(s.inodes[c], euid, "x")
  {
    hide GoodTree, Allocated, HasChild, Permitted;
    GoodTreeParts(s);
    if s.inodes[i].kind != Directory { FileHasNoChild(s, i, components[0]); }
    c := ScanFrom(s, IndexOf(s, i), components[0], 0).inode;
    ScanFinds(s, i, components[0], c);
    ChildBound(s, i, components[0], c);
  }

  /** The last step of a path leads from the inode of the rest of it. */
  lemma {:induction false} WalkLast(s: State, i: nat, components: seq<string>, euid: int, j: nat) returns (p: nat)
    requires GoodTree(s) && Allocated(s) && |s.inodes| == INODES && i < |s.inodes| && s.inodes[i].bound
    requires components != [] && Walk(s, i, components, euid) == Resolved(j)
    ensures Walk(s, i, components[..|components| - 1], euid) == Resolved(p)
    ensures HasChild(s, p, components[|components| - 1], j)
    decreases |components|
  {
    hide GoodTree, Allocated, HasChild, Permitted, IndexOf;
    var c := WalkStep(s, i, components, euid, j);
    if |components| == 1 {
      p := i;
      assert components[..0] == [] && components[1..] == [];
    } else {
      hide Walk, ScanFrom;
      p := WalkLast(s, c, components[1..], euid, j);
      var front := components[..|components| - 1];
      assert components[1..][..|components| - 2] == front[1..];
      WalkCons(s, i, front, euid, c);
    }
  }

  lemma WalkCons(s: State, i: nat, components: seq<string>, euid: int, c: nat)
    requires i < |s.inodes| && components != [] && c < |s.inodes|
    requires ScanFrom(s, IndexOf(s, i), components[0], 0) == Match(c)
    requires |components| > 1 ==> Permitted(s.inodes[c], euid, "x")
    ensures Walk(s, i, components, euid) == Walk(s, c, components[1..], euid)
  {
  }

  lemma OneParent(s: State, p: nat, name: string, q: nat, other: string, j: nat)
    requires Inv(s) && HasChild(s, p, name, j) && HasChild(s, q, other, j)
    ensures p == q && name == other && p < j
  {
    var m: nat :| Entry(s, p, m) == j;
    var n: nat :| Entry(s, q, n) == j;
  }

  /** An inode is reached by one path only. */
  lemma {:induction false} OnePath(s: State, path: seq<string>, euid: int, other: seq<string>, fuid: int, j: nat)
    requires Inv(s) && 0 < |s.inodes|
    requires Walk(s, 0, path, euid) == Resolved(j) && Walk(s, 0, other, fuid) == Resolved(j)
    ensures path == other
    decreases |path|
  {
    hide Inv, HasChild, Walk, GoodTree, Allocated;
    InvGoodTree(s);
    RootBound(s);
    DirectoryBound(s, 0);
    if path == [] || other == [] {
      EmptyPath(s, path, euid, other, fuid, j);
    } else {
      var p := WalkLast(s, 0, path, euid, j);
      var q := WalkLast(s, 0, other, fuid, j);
      OneParent(s, p, path[|path| - 1], q, other[|other| - 1], j);
      OnePath(s, path[..|path| - 1], euid, other[..|other| - 1], fuid, p);
      assert path == path[..|path| - 1] + [path[|path| - 1]];
      assert other == other[..|other| - 1] + [other[|other| - 1]];
    }
  }

  lemma EmptyPath(s: State, path: seq<string>, euid: int, other: seq<string>, fuid: int, j: nat)
    requires Inv(s) && 0 < |s.inodes| && (path == [] || other == [])
    requires Walk(s, 0, path, euid) == Resolved(j) && Walk(s, 0, other, fuid) == Resolved(j)
    ensures path == other
  {
    hide Inv;
    InvGoodTree(s);
    RootBound(s);
    if path != [] {
      var p := WalkLast(s, 0, path, euid, j);
    }
    if other != [] {
      var q := WalkLast(s, 0, other, fuid, j);
    }
  }

  // ----- the image builder's starting point

  /** A zeroed disk with the root directory, as the image builder leaves it. */
  function Formatted(): State {
    var bits := seq(65536, k => 0 <= k < 4);
    var free := Inode(false, NewFile, 0, 0, 0, 0, 0);
    var root := Inode(true, Directory, 511, 0, 0, AddressOf(3), 0);
    var inodes := seq(186, i => if i == 0 then root else free);
    var names := seq(8192, i => if i == 0 then '/' else '\0');
    State(seq(65536, _ => ZeroBlock()), bits, inodes, names, Image(bits, inodes, names), [])
  }

  lemma FormattedEntries()
    ensures var s := Formatted(); forall i: nat, m: nat :: Entry(s, i, m) == 0
  {
    NumberOfAddress(3);
    ZeroWords();
  }

  lemma FormattedSlots()
    ensures var s := Formatted(); forall x: Slot :: SlotAddress(s, x) == if x == Own(0) then AddressOf(3) else 0
  {
  }

  lemma FormattedIsSound()
    ensures Inv(Formatted()) && Durable(Formatted())
  {
    var s := Formatted();
    FormattedEntries();
    FormattedSlots();
    NumberOfAddress(3);
    assert Shape(s) && Zeroed(s) && Tree(s) && Handles(s);
    assert SlotAddress(s, Own(0)) == AddressOf(3);
    forall k | METADATA_BLOCKS <= k < |s.bits| && s.bits[k]
      ensures HeldAt(s, k)
    {
      assert k == 3 && SlotAddress(s, Own(0)) == AddressOf(k);
    }
  }
}
