/** When open gives a descriptor, which one, and what is on it. */
module FsOpenExactly {
  import opened Tokens
  import opened FsState
  import opened FsInvariant
  import opened FsTree
  import opened FsOpen
  import opened FsPaths
  import opened FsLookup
  import opened Options

  // ----- permissions

  /** The access word as three octal digits: the owner's, the group's, which nothing reads, and
      everybody else's.  4 is for reading, 2 for writing, 1 for entering. */
  lemma PermissionBits(inode: Inode, owner: nat, group: nat, others: nat, euid: int, mode: string)
    requires owner < 8 && group < 8 && others < 8 && inode.access == 64 * owner + 8 * group + others
    ensures var digit := if euid == inode.creatorUid then owner else others;
      Permitted(inode, euid, mode) <==>
      || euid == ROOT
      || (mode == "r" && digit in {4, 5, 6, 7})
      || (mode == "w" && digit in {2, 3, 6, 7})
      || (mode == "x" && digit in {1, 3, 5, 7})
      || (mode == "r+" && digit in {6, 7})
  {
    assert inode.access / 64 == owner && inode.access % 8 == others;
  }

  predicate KnownMode(mode: string) {
    mode == "r" || mode == "w" || mode == "r+" || mode == "x"
  }

  /** Who made a file may do everything with it, and nobody else anything. */
  lemma OnlyTheCreator(inode: Inode, euid: int, mode: string)
    requires inode.access == NEW_FILE_ACCESS
    ensures Permitted(inode, euid, mode) <==> euid == ROOT || (euid == inode.creatorUid && KnownMode(mode))
  {
    PermissionBits(inode, 7, 0, 0, euid, mode);
  }

  // ----- the descriptor

  ghost predicate HasDescriptor(open: seq<Descriptor>, j: nat) {
    exists d: nat :: d < |open| && open[d].used && open[d].inode == j
  }

  /** Descriptor r is on file j: the one that was, or the first unused one, at the start of the
      file and without anything cached; every other descriptor is as it was. */
  ghost predicate Holds(open: seq<Descriptor>, s': State, r: int, j: nat) {
    && 0 <= r < |s'.open| && s'.open[r].used && s'.open[r].inode == j < |s'.inodes|
    && |open| <= |s'.open|
    && (forall e :: 0 <= e < |s'.open| && e != r ==> e < |open| && s'.open[e] == open[e])
    && if HasDescriptor(open, j) then s'.open == open
       else
         && s'.open[r] == Descriptor(true, j, IndexOf(s', j), map[], 0)
         && (r < |open| ==> !open[r].used)
         && forall e :: 0 <= e < r && e < |open| ==> open[e].used
  }

  lemma AttachHolds(s: State, i: nat)
    requires i < |s.inodes|
    ensures var (s', d) := Attach(s, i); Holds(s.open, s', d, i) && s' == s.(open := s'.open)
  {
    assert FindOpen(s.open, i, 0) < |s.open| ==> HasDescriptor(s.open, i);
  }

  /** The mark of a file as new goes; nothing else of its inode, nor of any other, changes. */
  function NoLongerNew(inode: Inode): Inode {
    if inode.kind == NewFile then inode.(kind := RegularFile) else inode
  }

  lemma OpensFound(s: State, path: string, mode: string, euid: int, s1: State, j: nat)
    requires path != "" && 0 < |s.inodes| <= INODES && GetInode(s, path, true, euid) == Some((s1, j as int))
    requires j < |s1.inodes|
    ensures Open(s, path, mode, euid).Some?
    ensures var (s', r) := Open(s, path, mode, euid).value;
      && s' == s1.(inodes := s1.inodes[j := NoLongerNew(s1.inodes[j])], open := s'.open)
      && if Permitted(s1.inodes[j], euid, mode) && s1.inodes[j].kind != Directory then Holds(s1.open, s', r, j)
         else r == -1 && s'.open == s1.open
  {
    hide GetInode, Permitted, Attach, Holds;
    SamePermission(s1.inodes[j], NoLongerNew(s1.inodes[j]), euid, mode);
    var s2 := Settled(s1, j);
    assert s2 == s1.(inodes := s1.inodes[j := NoLongerNew(s1.inodes[j])]);
    AttachHolds(s2, j);
  }

  /** Opening what is there: a descriptor on it exactly when it is a file and the mode permitted,
      -1 otherwise. */
  lemma OpensExactly(s: State, path: string, mode: string, euid: int, j: nat)
    requires Inv(s) && CString(path) && 0 < |s.inodes| <= INODES && LeadsTo(s, PathComponents(path), euid, j)
    ensures j < |s.inodes| && Open(s, path, mode, euid).Some?
    ensures var (s', r) := Open(s, path, mode, euid).value;
      && s' == s.(inodes := s.inodes[j := NoLongerNew(s.inodes[j])], open := s'.open)
      && if Permitted(s.inodes[j], euid, mode) && s.inodes[j].kind != Directory then Holds(s.open, s', r, j)
         else r == -1 && s'.open == s.open
  {
    hide Inv, LeadsTo, PathComponents, CString, Open, Holds, GetInode, Permitted;
    CStringNonEmpty(path);
    LeadsBound(s, PathComponents(path), euid, j);
    FoundEitherWay(s, path, true, euid, j);
    OpensFound(s, path, mode, euid, s, j);
  }

  lemma LeadsBound(s: State, components: seq<string>, euid: int, j: nat)
    requires Inv(s) && LeadsTo(s, components, euid, j)
    ensures j < |s.inodes|
  {
    RootBound(s);
  }

  /** An inode that is not bound has no descriptor. */
  lemma UnboundNotOpen(s: State, j: nat)
    requires Inv(s) && j < |s.inodes| && !s.inodes[j].bound
    ensures !HasDescriptor(s.open, j)
  {
  }

  lemma SettledAdds(s: State, s1: State, s': State, euid: int, j: nat, count: nat)
    requires AddsInodes(s, s1, euid, j, NewFile, count)
    requires s' == s1.(inodes := s1.inodes[j := NoLongerNew(s1.inodes[j])], open := s'.open)
    ensures AddsInodes(s, s', euid, j, RegularFile, count)
  {
    assert s1.inodes[j].kind == NewFile;
    assert UnboundSet(s'.inodes) == UnboundSet(s1.inodes);
  }

  /** File j is new, and open, at its start, if there is such a mode. */
  ghost predicate MadeAndOpened(s: State, s': State, r: int, j: nat, count: nat, mode: string, euid: int) {
    && AddsInodes(s, s', euid, j, RegularFile, count) && !HasDescriptor(s.open, j)
    && if euid == ROOT || KnownMode(mode) then Holds(s.open, s', r, j) else r == -1 && s'.open == s.open
  }

  /** Opening what is not there: the missing components are created exactly when the user may
      write to what lacks them and there is room, and the file made is open for any mode there is. */
  lemma OpensNewExactly(s: State, path: string, mode: string, euid: int, k: nat, p: nat)
    requires Inv(s) && CString(path) && 0 < |s.inodes| <= INODES && LacksAt(s, PathComponents(path), euid, k, p)
    ensures p < |s.inodes|
    ensures var r, missing := Open(s, path, mode, euid), PathComponents(path)[k..];
      && (r.Some? <==> Permitted(s.inodes[p], euid, "w") && RoomForAll(s, missing))
      && (r.Some? ==>
            exists j: nat :: MadeAndOpened(s, r.value.0, r.value.1, j, |missing|, mode, euid))
  {
    hide Inv, PathComponents, CString, Open, Holds, GetInode, Permitted, AddsInodes, RoomForAll,
      EntersAt, HasNoChild, Unwritten, HasDescriptor;
    CStringNonEmpty(path);
    CreatesExactly(s, path, euid, k, p);
    var g := GetInode(s, path, true, euid);
    if g.None? || g.value.1 < 0 {
      NothingOpened(s, path, mode, euid);
    } else {
      var (s1, j) := g.value;
      NewOne(s, s1, euid, j, |PathComponents(path)[k..]|);
      OnlyTheCreator(s1.inodes[j], euid, mode);
      OpensFound(s, path, mode, euid, s1, j);
      var (s', r) := Open(s, path, mode, euid).value;
      SettledAdds(s, s1, s', euid, j, |PathComponents(path)[k..]|);
      UnboundNotOpen(s, j);
      assert MadeAndOpened(s, s', r, j, |PathComponents(path)[k..]|, mode, euid);
    }
  }

  lemma NewOne(s: State, s1: State, euid: int, j: nat, count: nat)
    requires AddsInodes(s, s1, euid, j, NewFile, count)
    ensures j < |s.inodes| == |s1.inodes| && !s.inodes[j].bound && s1.inodes[j].kind == NewFile
    ensures s1.inodes[j].access == NEW_FILE_ACCESS && s1.inodes[j].creatorUid == euid
  {
  }

  /** A lookup that fails or is refused leaves open outside the tables. */
  lemma NothingOpened(s: State, path: string, mode: string, euid: int)
    requires path != "" && 0 < |s.inodes| <= INODES
    requires GetInode(s, path, true, euid).None? || GetInode(s, path, true, euid).value.1 < 0
    ensures Open(s, path, mode, euid).None?
  {
  }

  /** A component that may not be entered, or is looked for in data, leaves open outside the tables. */
  lemma StoppedNotOpened(s: State, path: string, mode: string, euid: int)
    requires Inv(s) && CString(path) && 0 < |s.inodes| <= INODES
    requires Barred(s, PathComponents(path), euid) || IntoData(s, PathComponents(path), euid)
    ensures Open(s, path, mode, euid).None?
  {
    hide Inv, Barred, IntoData, Walk, PathComponents, CString, Permitted, Create, Open;
    CStringNonEmpty(path);
    if Barred(s, PathComponents(path), euid) {
      BarredWalk(s, PathComponents(path), euid);
    } else {
      IntoDataWalk(s, PathComponents(path), euid);
    }
    NothingOpened(s, path, mode, euid);
  }
}
