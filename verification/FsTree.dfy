/** Looking up and creating paths: lookups find exactly the entries of the tree, creation makes
    the path resolve, and what resolved before still does. */
module FsTree {
  import opened Blocks
  import opened Names
  import opened Bitmap
  import opened FsState
  import opened FsInvariant
  import opened Options

  ghost predicate IsDirectory(s: State, i: nat) {
    i < |s.inodes| && s.inodes[i].bound && s.inodes[i].kind == Directory
  }

  /** Directory i has an entry j of this name. */
  ghost predicate HasChild(s: State, i: nat, name: string, j: nat) {
    j != 0 && j < |s.inodes| && NameOf(s, j) == name && exists m: nat :: Entry(s, i, m) == j
  }

  ghost predicate HasNoChild(s: State, i: nat, name: string) {
    forall m: nat :: Entry(s, i, m) != 0 ==> Entry(s, i, m) < |s.inodes| && NameOf(s, Entry(s, i, m)) != name
  }

  /** The scan from slot m, when nothing before it matched. */
  lemma {:induction false} ScanFacts(s: State, i: nat, name: string, m: nat)
    requires IsDirectory(s, i) && EntriesBound(s) && EntriesFirst(s)
    requires m <= BLOCK_WORDS
    requires forall n: nat :: n < m ==> Entry(s, i, n) != 0 && NameOf(s, Entry(s, i, n)) != name
    ensures match ScanFrom(s, IndexOf(s, i), name, m)
            case Free(at) => HasNoChild(s, i, name) && at == FirstZero(IndexOf(s, i), 0) < BLOCK_WORDS
            case Match(j) => HasChild(s, i, name, j)
            case OffEnd => HasNoChild(s, i, name)
    decreases BLOCK_WORDS - m
  {
    if m < BLOCK_WORDS {
      assert Entry(s, i, m) == IndexOf(s, i)[m];
      if Entry(s, i, m) == 0 {
        ScanStops(s, i, name, m);
      } else if NameOf(s, Entry(s, i, m)) != name {
        ScanFacts(s, i, name, m + 1);
      }
    }
  }

  lemma ScanStops(s: State, i: nat, name: string, m: nat)
    requires IsDirectory(s, i) && EntriesBound(s) && EntriesFirst(s) && m < BLOCK_WORDS && Entry(s, i, m) == 0
    requires forall n: nat :: n < m ==> Entry(s, i, n) != 0 && NameOf(s, Entry(s, i, n)) != name
    ensures HasNoChild(s, i, name) && m == FirstZero(IndexOf(s, i), 0)
  {
    var z := FirstZero(IndexOf(s, i), 0);
    assert z < BLOCK_WORDS ==> Entry(s, i, z) == 0;
    forall n: nat | n < m
      ensures IndexOf(s, i)[n] != 0
    {
      assert Entry(s, i, n) != 0;
    }
    forall n: nat | Entry(s, i, n) != 0
      ensures Entry(s, i, n) < |s.inodes| && NameOf(s, Entry(s, i, n)) != name
    {
      assert n < m;
    }
  }

  /** A lookup finds an entry exactly when the directory has it. */
  lemma ScanFinds(s: State, i: nat, name: string, j: nat)
    requires IsDirectory(s, i) && EntriesBound(s) && EntriesFirst(s) && SiblingsDiffer(s)
    ensures ScanFrom(s, IndexOf(s, i), name, 0) == Match(j) <==> HasChild(s, i, name, j)
  {
    ScanFacts(s, i, name, 0);
    if HasChild(s, i, name, j) {
      var m: nat :| Entry(s, i, m) == j;
      match ScanFrom(s, IndexOf(s, i), name, 0) {
        case Match(j') =>
          var n: nat :| Entry(s, i, n) == j';
        case Free(_) =>
        case OffEnd =>
      }
    }
  }

  // ----- what a growing file system keeps

  /** Entries, names and access rights of what was there stay. */
  ghost predicate Extends(s: State, s': State) {
    && |s'.inodes| == |s.inodes|
    && (forall i: nat, m: nat :: Entry(s, i, m) != 0 ==> Entry(s', i, m) == Entry(s, i, m))
    && (forall i :: 0 <= i < |s.inodes| && s.inodes[i].bound ==>
          && s'.inodes[i].bound && s'.inodes[i].access == s.inodes[i].access
          && s'.inodes[i].creatorUid == s.inodes[i].creatorUid
          && (NameOf(s, i) != "" ==> NameOf(s', i) == NameOf(s, i)))
  }

  lemma ExtendsTrans(s: State, t: State, u: State)
    requires Extends(s, t) && Extends(t, u)
    ensures Extends(s, u)
  {
    forall i: nat, m: nat | Entry(s, i, m) != 0
      ensures Entry(u, i, m) == Entry(s, i, m)
    {
      assert Entry(t, i, m) == Entry(s, i, m);
    }
  }

  ghost predicate GoodTree(s: State) {
    EntriesBound(s) && EntriesFirst(s) && SiblingsDiffer(s)
  }

  lemma ChildStays(s: State, s': State, i: nat, name: string, j: nat)
    requires Extends(s, s') && EntriesBound(s) && HasChild(s, i, name, j)
    ensures HasChild(s', i, name, j)
  {
    var m: nat :| Entry(s, i, m) == j;
    assert Entry(s', i, m) == j;
  }

  /** A walk over a non-directory with a component left stops there or leaves the tables. */
  lemma FileHasNoChild(s: State, i: nat, name: string)
    requires Allocated(s) && i < |s.inodes| <= INODES && s.inodes[i].bound && s.inodes[i].kind != Directory
    ensures var r := ScanFrom(s, IndexOf(s, i), name, 0); r == OffEnd || (r == Free(0) && IndexOf(s, i)[0] == 0)
  {
    if IndexOf(s, i)[0] != 0 {
      assert SlotAddress(s, Data(i, 0)) == IndexOf(s, i)[0];
    }
  }

  /** Every path that resolved before resolves to the same inode after. */
  lemma {:induction false} WalkStays(s: State, s': State, i: nat, components: seq<string>, euid: int, j: nat)
    requires Extends(s, s') && GoodTree(s) && GoodTree(s') && Allocated(s)
    requires i < |s.inodes| <= INODES && s.inodes[i].bound && Walk(s, i, components, euid) == Resolved(j)
    ensures Walk(s', i, components, euid) == Resolved(j) && j < |s.inodes| && s.inodes[j].bound
    decreases |components|
  {
    if components != [] {
      var name := components[0];
      if s.inodes[i].kind != Directory {
        FileHasNoChild(s, i, name);
      }
      var c := ScanFrom(s, IndexOf(s, i), name, 0).inode;
      ScanFinds(s, i, name, c);
      ChildStays(s, s', i, name, c);
      var m: nat :| Entry(s, i, m) == c;
      assert Entry(s', i, m) == c;
      ScanFinds(s', i, name, c);
      WalkStays(s, s', c, components[1..], euid, j);
    }
  }

  // ----- creation

  lemma GrownExtends(s: State, s': State, parent: nat, at: nat, j: nat, k: nat)
    requires Grown(s, s', parent, at, j, k) && KeepsNames(s, s') && Entry(s, parent, at) == 0
    ensures Extends(s, s') && Entry(s', parent, at) == j
  {
    hide Entry, NameOf;
    GrownEntry(s, s', parent, at, j, k, parent, at);
    forall i: nat, m: nat | Entry(s, i, m) != 0
      ensures Entry(s', i, m) == Entry(s, i, m)
    {
      GrownEntry(s, s', parent, at, j, k, i, m);
    }
  }

  lemma NewInode(s: State, parent: nat, name: string, euid: int, s': State, j: nat)
    requires parent < |s.inodes| <= INODES && CreateOne(s, parent, name, euid) == Some((s', j))
    ensures j < |s'.inodes| == |s.inodes| && !s.inodes[j].bound && s'.open == s.open
    ensures s'.inodes[j].(addressBlock := 0, nameAddress := 0) == Inode(true, Directory, NEW_FILE_ACCESS, euid, 0, 0, 0)
  {
  }

  lemma RootBound(s: State)
    requires Inv(s)
    ensures |s.inodes| == INODES && IsDirectory(s, 0)
  {
  }

  lemma CreateOneExtends(s: State, parent: nat, name: string, euid: int, s': State, j: nat)
    requires Inv(s) && IsDirectory(s, parent) && IsName(name)
    requires FirstZero(IndexOf(s, parent), 0) < BLOCK_WORDS && HasNoChild(s, parent, name)
    requires parent < |s.inodes| <= INODES && CreateOne(s, parent, name, euid) == Some((s', j))
    ensures Inv(s') && Extends(s, s') && s'.open == s.open
    ensures 0 < j && IsDirectory(s', j) && HasChild(s', parent, name, j)
    ensures s'.inodes[j].access == NEW_FILE_ACCESS && s'.inodes[j].creatorUid == euid && s'.inodes[j].size == 0
    ensures forall m :: 0 <= m < BLOCK_WORDS ==> IndexOf(s', j)[m] == 0
  {
    hide Inv, IndexOf, Entry, CreateOne, KeepsNames, Extends;
    var at, k := FirstZero(IndexOf(s, parent), 0), FirstClear(s.bits, 0);
    CreateOneKeepsInv(s, parent, name, euid, s', j);
    FirstFreeEntry(s, parent);
    RootBound(s);
    NewInode(s, parent, name, euid, s', j);
    GrownExtends(s, s', parent, at, j, k);
  }

  lemma EmptyDirectory(s: State, j: nat, name: string)
    requires IsDirectory(s, j) && forall m :: 0 <= m < BLOCK_WORDS ==> IndexOf(s, j)[m] == 0
    ensures HasNoChild(s, j, name) && FirstZero(IndexOf(s, j), 0) == 0
  {
  }

  lemma AlikeExtends(s: State, s': State)
    requires Alike(s, s')
    requires forall i :: 0 <= i < |s.inodes| ==>
      s'.inodes[i].access == s.inodes[i].access && s'.inodes[i].creatorUid == s.inodes[i].creatorUid
    ensures Extends(s, s')
  {
    forall i: nat, m: nat | Entry(s, i, m) != 0
      ensures Entry(s', i, m) == Entry(s, i, m)
    {
      AlikeEntry(s, s', i, m);
    }
  }

  lemma FinishAlike(s: State, j: nat)
    requires 0 < j && IsDirectory(s, j) && forall m :: 0 <= m < BLOCK_WORDS ==> IndexOf(s, j)[m] == 0
    ensures Alike(s, Finish(s, j)) && IndexOf(Finish(s, j), j) == IndexOf(s, j)
  {
    assert KindMayChange(s, Finish(s, j), j);
  }

  lemma FinishExtends(s: State, j: nat)
    requires Inv(s) && 0 < j && IsDirectory(s, j)
    requires forall m :: 0 <= m < BLOCK_WORDS ==> IndexOf(s, j)[m] == 0
    ensures var s' := Finish(s, j);
      Inv(s') && Extends(s, s') && s'.open == s.open && IndexOf(s', j) == IndexOf(s, j)
      && s'.inodes[j] == s.inodes[j].(kind := NewFile)
  {
    hide Inv, IndexOf, Extends, Alike;
    FinishKeepsInv(s, j);
    FinishAlike(s, j);
    AlikeExtends(s, Finish(s, j));
  }

  lemma OwnerMayEnter(inode: Inode, euid: int)
    requires inode.access == NEW_FILE_ACCESS && inode.creatorUid == euid
    ensures Permitted(inode, euid, "x")
  {
  }

  lemma InvGoodTree(s: State)
    requires Inv(s)
    ensures GoodTree(s) && Allocated(s) && |s.inodes| == INODES
  {
  }

  /** Stepping into a child, the creator being allowed to. */
  lemma WalkInto(s: State, i: nat, components: seq<string>, euid: int, c: nat, j: nat)
    requires Inv(s) && IsDirectory(s, i) && components != [] && HasChild(s, i, components[0], c)
    requires |components| > 1 ==> Permitted(s.inodes[c], euid, "x")
    requires c < |s.inodes| && Walk(s, c, components[1..], euid) == Resolved(j)
    ensures Walk(s, i, components, euid) == Resolved(j)
  {
    hide Inv, Permitted, HasChild;
    InvGoodTree(s);
    ScanFinds(s, i, components[0], c);
  }

  /** The state after creating a path below a directory, and that the path now resolves to a
      new file without data. */
  ghost predicate Created(s: State, parent: nat, components: seq<string>, euid: int, s': State, j: nat) {
    && Inv(s') && Extends(s, s') && s'.open == s.open
    && parent < |s'.inodes| && j < |s'.inodes| && s'.inodes[j].bound
    && s'.inodes[j].kind == NewFile && s'.inodes[j].size == 0
    && s'.inodes[j].access == NEW_FILE_ACCESS && s'.inodes[j].creatorUid == euid
    && Walk(s', parent, components, euid) == Resolved(j)
    && (forall m :: 0 <= m < BLOCK_WORDS ==> IndexOf(s', j)[m] == 0)
  }

  lemma {:induction false} CreateMakesPath(s: State, parent: nat, components: seq<string>, euid: int, s': State, j: nat)
    requires Inv(s) && IsDirectory(s, parent) && parent < |s.inodes| <= INODES
    requires components != [] && forall i :: 0 <= i < |components| ==> IsName(components[i])
    requires FirstZero(IndexOf(s, parent), 0) < BLOCK_WORDS && HasNoChild(s, parent, components[0])
    requires Create(s, parent, components, euid) == Some((s', j))
    ensures Created(s, parent, components, euid, s', j)
    decreases |components|
  {
    hide Inv, HasNoChild, HasChild, Extends, CreateOne, Finish;
    var (s1, c) := CreateOne(s, parent, components[0], euid).value;
    CreateOneExtends(s, parent, components[0], euid, s1, c);
    ExtendsBound(s, s1, parent);
    if |components| == 1 {
      FinishExtends(s1, c);
      LastStep(s1, s', parent, components, euid, c);
      ExtendsTrans(s, s1, s');
    } else {
      EmptyDirectory(s1, c, components[1]);
      InvGoodTree(s1);
      CreateMakesPath(s1, c, components[1..], euid, s', j);
      MiddleStep(s1, s', parent, components, euid, c, j);
      ExtendsTrans(s, s1, s');
    }
  }

  lemma ExtendsBound(s: State, s': State, i: nat)
    requires Extends(s, s') && i < |s.inodes| && s.inodes[i].bound
    ensures i < |s'.inodes| == |s.inodes| && s'.inodes[i].bound
    ensures s'.inodes[i].access == s.inodes[i].access && s'.inodes[i].creatorUid == s.inodes[i].creatorUid
  {
  }

  lemma ParentIsDirectory(s: State, i: nat, name: string, j: nat)
    requires HasChild(s, i, name, j)
    ensures IsDirectory(s, i)
  {
    var m: nat :| Entry(s, i, m) == j;
  }

  lemma LastStep(s: State, s': State, parent: nat, components: seq<string>, euid: int, c: nat)
    requires Inv(s) && Inv(s') && Extends(s, s') && |components| == 1 && HasChild(s, parent, components[0], c)
    ensures parent < |s'.inodes| && Walk(s', parent, components, euid) == Resolved(c)
  {
    hide Inv, HasChild, Extends;
    InvGoodTree(s);
    ChildStays(s, s', parent, components[0], c);
    ParentIsDirectory(s', parent, components[0], c);
    HasChildBound(s', parent, components[0], c);
    WalkInto(s', parent, components, euid, c, c);
  }

  lemma HasChildBound(s: State, i: nat, name: string, j: nat)
    requires HasChild(s, i, name, j)
    ensures j < |s.inodes|
  {
  }

  lemma MiddleStep(s: State, s': State, parent: nat, components: seq<string>, euid: int, c: nat, j: nat)
    requires Inv(s) && Inv(s') && Extends(s, s') && |components| > 1 && HasChild(s, parent, components[0], c)
    requires IsDirectory(s, c) && s.inodes[c].access == NEW_FILE_ACCESS && s.inodes[c].creatorUid == euid
    requires c < |s'.inodes| && Walk(s', c, components[1..], euid) == Resolved(j)
    ensures parent < |s'.inodes| && Walk(s', parent, components, euid) == Resolved(j)
  {
    hide Inv, HasChild, Extends, Permitted;
    InvGoodTree(s);
    ChildStays(s, s', parent, components[0], c);
    ParentIsDirectory(s', parent, components[0], c);
    ExtendsBound(s, s', c);
    OwnerMayEnter(s'.inodes[c], euid);
    WalkInto(s', parent, components, euid, c, j);
  }
}
