/** open: when it keeps the file system sound, what it makes the path resolve to, and what it
    leaves alone. */
module FsOpen {
  import opened Blocks
  import opened Names
  import opened Tokens
  import opened Bitmap
  import opened FsState
  import opened FsInvariant
  import opened FsTree
  import opened FsData
  import opened FsContent
  import opened Options

  predicate CString(s: string) {
    s != "" && '\0' !in s
  }

  ghost predicate AllNames(components: seq<string>) {
    forall i :: 0 <= i < |components| ==> IsName(components[i])
  }

  lemma {:induction false} DrainNames(s: string, separators: string)
    requires '\0' !in s
    ensures AllNames(Drain(s, separators))
    decreases |s|
  {
    if s != "" {
      DrainNames(AfterToken(s, separators), separators);
    }
  }

  lemma PathNames(path: string)
    requires CString(path)
    ensures AllNames(PathComponents(path))
  {
    if path != "/" {
      var p := if path[0] == '/' then path[1..] else path;
      DrainNames(if p[|p| - 1] == '/' then p[..|p| - 1] else p, "/");
    }
  }

  // ----- walking

  /** Where a walk ends: at a bound inode, or at one that lacks the next component. */
  ghost predicate WalkEnd(s: State, w: Walked) {
    match w
    case Resolved(j) => j < |s.inodes| && s.inodes[j].bound
    case Missing(p, rest) =>
      && p < |s.inodes| && s.inodes[p].bound && rest != [] && AllNames(rest)
      && (if s.inodes[p].kind == Directory
          then FirstZero(IndexOf(s, p), 0) < BLOCK_WORDS && HasNoChild(s, p, rest[0])
          else IndexOf(s, p)[0] == 0)
    case _ => true
  }

  lemma {:induction false} WalkEnds(s: State, i: nat, components: seq<string>, euid: int)
    requires GoodTree(s) && Allocated(s) && |s.inodes| == INODES
    requires i < |s.inodes| && s.inodes[i].bound && AllNames(components)
    ensures WalkEnd(s, Walk(s, i, components, euid))
    decreases |components|
  {
    hide Allocated, HasNoChild, HasChild, Permitted;
    if components != [] {
      if s.inodes[i].kind != Directory {
        FileHasNoChild(s, i, components[0]);
      } else {
        ScanFacts(s, i, components[0], 0);
        match ScanFrom(s, IndexOf(s, i), components[0], 0) {
          case Match(c) =>
            ChildBound(s, i, components[0], c);
            WalkEnds(s, c, components[1..], euid);
          case Free(_) =>
          case OffEnd =>
        }
      }
    }
  }

  lemma ChildBound(s: State, i: nat, name: string, j: nat)
    requires HasChild(s, i, name, j) && EntriesBound(s)
    ensures j < |s.inodes| && s.inodes[j].bound && i < j
  {
    var m: nat :| Entry(s, i, m) == j;
  }

  /** Once the missing part of a path exists, the whole path resolves. */
  lemma {:induction false} WalkCompletes(s: State, s': State, i: nat, components: seq<string>, euid: int,
                                         p: nat, rest: seq<string>, j: nat)
    requires GoodTree(s) && GoodTree(s') && Allocated(s) && |s.inodes| == INODES && Extends(s, s')
    requires i < |s.inodes| && s.inodes[i].bound && Walk(s, i, components, euid) == Missing(p, rest)
    requires p < |s'.inodes| && Walk(s', p, rest, euid) == Resolved(j)
    ensures i < |s'.inodes| && Walk(s', i, components, euid) == Resolved(j)
    decreases |components|
  {
    hide Allocated, HasChild, HasNoChild, Permitted, GoodTree;
    if s.inodes[i].kind != Directory {
      FileHasNoChild(s, i, components[0]);
    } else {
      var name := components[0];
      match ScanFrom(s, IndexOf(s, i), name, 0) {
        case Match(c) =>
          GoodTreeParts(s);
          GoodTreeParts(s');
          ScanFinds(s, i, name, c);
          ChildBound(s, i, name, c);
          ExtendsBound(s, s', c);
          ChildStays(s, s', i, name, c);
          ParentIsDirectory(s', i, name, c);
          ScanFinds(s', i, name, c);
          WalkCompletes(s, s', c, components[1..], euid, p, rest, j);
          SamePermission(s.inodes[c], s'.inodes[c], euid, "x");
        case Free(_) =>
        case OffEnd =>
      }
    }
  }

  lemma GoodTreeParts(s: State)
    requires GoodTree(s)
    ensures EntriesBound(s) && EntriesFirst(s) && SiblingsDiffer(s)
  {
  }

  lemma SamePermission(a: Inode, b: Inode, euid: int, mode: string)
    requires a.access == b.access && a.creatorUid == b.creatorUid
    ensures Permitted(a, euid, mode) == Permitted(b, euid, mode)
  {
  }

  // ----- get_inode_index_of

  /** The walk stops at something that is no directory and the caller may write to: the
      missing components would be created inside a file. */
  predicate MissesInFile(s: State, path: string, euid: int)
    requires path != "" && 0 < |s.inodes|
  {
    match Walk(s, 0, PathComponents(path), euid)
    case Missing(p, _) =>
      p < |s.inodes| && s.inodes[p].kind != Directory && Permitted(s.inodes[p], euid, "w")
    case _ => false
  }

  /** What a successful lookup or creation guarantees. */
  ghost predicate Reached(s: State, path: string, euid: int, s': State, r: int)
    requires path != "" && 0 < |s.inodes|
  {
    && Inv(s') && Extends(s, s') && s'.open == s.open
    && (r >= 0 ==>
          && r < |s'.inodes| && s'.inodes[r].bound
          && Walk(s', 0, PathComponents(path), euid) == Resolved(r)
          && (Walk(s, 0, PathComponents(path), euid).Resolved? ==> s' == s)
          && (Walk(s, 0, PathComponents(path), euid).Missing? ==> NewAndEmpty(s', r)))
  }

  ghost predicate NewAndEmpty(s: State, j: nat) {
    && j < |s.inodes| && s.inodes[j].kind == NewFile && s.inodes[j].size == 0
    && forall m :: 0 <= m < BLOCK_WORDS ==> IndexOf(s, j)[m] == 0
  }

  lemma ExtendsSelf(s: State)
    ensures Extends(s, s)
  {
  }

  lemma CreatedReaches(s: State, path: string, euid: int, p: nat, rest: seq<string>, s': State, j: nat)
    requires Inv(s) && path != "" && 0 < |s.inodes| <= INODES && IsDirectory(s, p) && p < |s.inodes|
    requires Walk(s, 0, PathComponents(path), euid) == Missing(p, rest) && rest != [] && AllNames(rest)
    requires FirstZero(IndexOf(s, p), 0) < BLOCK_WORDS && HasNoChild(s, p, rest[0])
    requires Create(s, p, rest, euid) == Some((s', j))
    ensures Reached(s, path, euid, s', j)
  {
    hide Inv, Extends, Permitted, PathComponents, Create, GoodTree, Allocated, HasNoChild, IndexOf, Walk, IsDirectory;
    CreateMakesPath(s, p, rest, euid, s', j);
    InvGoodTree(s);
    InvGoodTree(s');
    RootBound(s);
    DirectoryBound(s, 0);
    WalkCompletes(s, s', 0, PathComponents(path), euid, p, rest, j);
  }

  lemma DirectoryBound(s: State, i: nat)
    requires IsDirectory(s, i)
    ensures i < |s.inodes| && s.inodes[i].bound
  {
  }

  lemma GetInodeReaches(s: State, path: string, create: bool, euid: int, s': State, r: int)
    requires Inv(s) && CString(path) && 0 < |s.inodes| <= INODES && !MissesInFile(s, path, euid)
    requires GetInode(s, path, create, euid) == Some((s', r))
    ensures Reached(s, path, euid, s', r)
  {
    hide Inv, Extends, Permitted, PathComponents, CString, Create, GoodTree, Allocated, HasNoChild, IndexOf, Walk;
    CStringNonEmpty(path);
    var components := PathComponents(path);
    PathNames(path);
    InvGoodTree(s);
    RootBound(s);
    WalkEnds(s, 0, components, euid);
    ExtendsSelf(s);
    match Walk(s, 0, components, euid) {
      case Missing(p, rest) =>
        if create && Permitted(s.inodes[p], euid, "w") {
          CreatedReaches(s, path, euid, p, rest, s', r as nat);
        }
      case Resolved(j) =>
      case Denied =>
      case Broken =>
    }
  }

  lemma CStringNonEmpty(s: string)
    requires CString(s)
    ensures s != ""
  {
  }

  // ----- open

  /** What open guarantees: the invariant, everything that was there, and a descriptor on the
      inode the path resolves to. */
  ghost predicate Opened(s: State, path: string, euid: int, s': State, r: int)
    requires path != "" && 0 < |s.inodes|
  {
    && Inv(s') && Extends(s, s')
    && (forall d :: 0 <= d < |s.open| && s.open[d].used ==> d < |s'.open| && s'.open[d] == s.open[d])
    && (r >= 0 ==>
          && IsOpen(s', r) && s'.open[r].inode < |s'.inodes| && 0 < |s'.inodes|
          && Walk(s', 0, PathComponents(path), euid) == Resolved(s'.open[r].inode)
          && (Walk(s, 0, PathComponents(path), euid).Missing? ==> Content(s', s'.open[r].inode) == []))
  }

  lemma SettledExtends(s: State, j: nat)
    requires Inv(s) && j < |s.inodes|
    ensures Inv(Settled(s, j)) && Extends(s, Settled(s, j)) && Settled(s, j).open == s.open
    ensures |Settled(s, j).inodes| == |s.inodes|
    ensures Settled(s, j).inodes[j].(kind := NewFile) == s.inodes[j].(kind := NewFile)
  {
    SettledKeepsInv(s, j);
    hide Inv;
    if s.inodes[j].kind == NewFile {
      ShapeRoot(s);
      assert KindMayChange(s, Settled(s, j), j);
      AlikeExtends(s, Settled(s, j));
    } else {
      ExtendsSelf(s);
    }
  }

  lemma ShapeRoot(s: State)
    requires Inv(s)
    ensures |s.inodes| == INODES && s.inodes[0].kind == Directory
  {
  }

  lemma AttachExtends(s: State, i: nat)
    requires i < |s.inodes|
    ensures var (s', d) := Attach(s, i); Extends(s, s') && s' == s.(open := s'.open)
    ensures var (s', d) := Attach(s, i);
      forall e :: 0 <= e < |s.open| && s.open[e].used ==> e < |s'.open| && s'.open[e] == s.open[e]
  {
    var (s', d) := Attach(s, i);
    forall p: nat, m: nat | Entry(s, p, m) != 0
      ensures Entry(s', p, m) == Entry(s, p, m)
    {
    }
  }

  /** Opening a path whose existing part consists of directories keeps the file system sound,
      extends it, and gives a descriptor on what the path then resolves to. */
  lemma OpenReaches(s: State, path: string, mode: string, euid: int, s': State, r: int)
    requires Inv(s) && CString(path) && 0 < |s.inodes| <= INODES && !MissesInFile(s, path, euid)
    requires Open(s, path, mode, euid) == Some((s', r))
    ensures Opened(s, path, euid, s', r)
  {
    hide Inv, Extends, Permitted, PathComponents, CString, GetInode, MissesInFile, Settled, Attach, IndexOf, Walk,
      Content;
    CStringNonEmpty(path);
    var (s1, i) := GetInode(s, path, true, euid).value;
    GetInodeReaches(s, path, true, euid, s1, i);
    var s2 := Settled(s1, i);
    SettledExtends(s1, i);
    ExtendsTrans(s, s1, s2);
    if r >= 0 {
      AttachReaches(s, path, euid, s1, i, s2, s', r);
    } else {
      AttachIndex(s2, i);
      assert s' == s2;
    }
  }

  lemma AttachIndex(s: State, i: nat)
    requires i < |s.inodes|
    ensures Attach(s, i).1 as int >= 0
  {
  }

  lemma AttachReaches(s: State, path: string, euid: int, s1: State, i: nat, s2: State, s': State, r: int)
    requires path != "" && 0 < |s.inodes| <= INODES && Reached(s, path, euid, s1, i) && i < |s1.inodes|
    requires s2 == Settled(s1, i) && s2.inodes[i].kind == RegularFile && r >= 0 && Attach(s2, i) == (s', r as nat)
    ensures Opened(s, path, euid, s', r)
  {
    hide Inv, Extends, PathComponents, Settled, Attach, IndexOf, Walk, FlatOf;
    var components := PathComponents(path);
    SettledExtends(s1, i);
    AttachKeepsInv(s2, i);
    AttachExtends(s2, i);
    ExtendsTrans(s, s1, s2);
    ExtendsTrans(s, s2, s');
    ExtendsTrans(s1, s2, s');
    InvGoodTree(s1);
    InvGoodTree(s');
    RootBound(s1);
    WalkStays(s1, s', 0, components, euid, i);
  }

  // ----- open leaves the contents of files alone

  lemma InvCanCreate(s: State, i: nat)
    requires Inv(s) && i < |s.inodes| && s.inodes[i].bound
    ensures CanCreate(s, i) && Allocated(s) && SingleOwner(s) && |s.disk| == BLOCKS && |s.inodes| == INODES
  {
  }

  lemma CreateOneContent(s: State, parent: nat, name: string, euid: int, s': State, c: nat, j: nat)
    requires Inv(s) && IsDirectory(s, parent) && IsName(name) && parent < |s.inodes| <= INODES
    requires FirstZero(IndexOf(s, parent), 0) < BLOCK_WORDS && HasNoChild(s, parent, name)
    requires CreateOne(s, parent, name, euid) == Some((s', c)) && IsFile(s, j)
    ensures |s'.inodes| == |s.inodes| && IsFile(s', j) && s'.inodes[j].size == s.inodes[j].size
    ensures FlatOf(s', j) == FlatOf(s, j)
  {
    hide Inv, KeepsNames, NameOf, CreateOne, CanCreate, PlaceFor, StringAt, Allocated;
    var at, k := FirstZero(IndexOf(s, parent), 0), FirstClear(s.bits, 0);
    CreateOneKeepsInv(s, parent, name, euid, s', c);
    InvCanCreate(s, parent);
    CreateTables(s, parent, name, euid, s', c);
    OwnBlock(s, parent);
    forall n | 0 <= n < BLOCK_WORDS && IndexOf(s, j)[n] != 0
      ensures DiskBlock(s', IndexOf(s, j)[n]) == DiskBlock(s, IndexOf(s, j)[n])
    {
      DataBlockApart(s, j, n, parent);
    }
    SameFlat(s, s', j);
  }

  lemma {:induction false} CreateContent(s: State, parent: nat, components: seq<string>, euid: int,
                                         s': State, i: nat, j: nat)
    requires Inv(s) && IsDirectory(s, parent) && parent < |s.inodes| <= INODES
    requires components != [] && AllNames(components)
    requires FirstZero(IndexOf(s, parent), 0) < BLOCK_WORDS && HasNoChild(s, parent, components[0])
    requires Create(s, parent, components, euid) == Some((s', i)) && IsFile(s, j)
    ensures |s'.inodes| == |s.inodes| && IsFile(s', j) && s'.inodes[j].size == s.inodes[j].size
    ensures FlatOf(s', j) == FlatOf(s, j)
    decreases |components|
  {
    hide Inv, HasNoChild, HasChild, Extends, CreateOne, IndexOf, FlatOf;
    var (s1, c) := CreateOne(s, parent, components[0], euid).value;
    CreateOneExtends(s, parent, components[0], euid, s1, c);
    CreateOneContent(s, parent, components[0], euid, s1, c, j);
    if |components| == 1 {
      SameDiskFlat(s1, s', j);
    } else {
      EmptyDirectory(s1, c, components[1]);
      CreateContent(s1, c, components[1..], euid, s', i, j);
    }
  }

  lemma GetInodeContent(s: State, path: string, euid: int, s': State, r: int, j: nat)
    requires Inv(s) && CString(path) && 0 < |s.inodes| <= INODES && !MissesInFile(s, path, euid)
    requires GetInode(s, path, true, euid) == Some((s', r)) && IsFile(s, j)
    ensures |s'.inodes| == |s.inodes| && IsFile(s', j) && s'.inodes[j].size == s.inodes[j].size
    ensures FlatOf(s', j) == FlatOf(s, j)
  {
    hide Inv, Extends, Permitted, PathComponents, CString, Create, GoodTree, Allocated, HasNoChild, IndexOf, Walk,
      FlatOf;
    CStringNonEmpty(path);
    var components := PathComponents(path);
    PathNames(path);
    InvGoodTree(s);
    RootBound(s);
    WalkEnds(s, 0, components, euid);
    match Walk(s, 0, components, euid) {
      case Missing(p, rest) =>
        if Permitted(s.inodes[p], euid, "w") {
          CreateContent(s, p, rest, euid, s', r as nat, j);
        }
      case Resolved(j) =>
      case Denied =>
      case Broken =>
    }
  }

  /** Opening, with or without creating, changes no byte of any existing file. */
  lemma OpenKeepsContent(s: State, path: string, mode: string, euid: int, s': State, r: int, j: nat)
    requires Inv(s) && CString(path) && 0 < |s.inodes| <= INODES && !MissesInFile(s, path, euid)
    requires Open(s, path, mode, euid) == Some((s', r)) && IsFile(s, j)
    ensures |s'.inodes| == |s.inodes| && IsFile(s', j) && Content(s', j) == Content(s, j)
  {
    hide Inv, Permitted, PathComponents, CString, GetInode, MissesInFile, FlatOf, Attach;
    CStringNonEmpty(path);
    var (s1, i) := GetInode(s, path, true, euid).value;
    GetInodeContent(s, path, euid, s1, i, j);
    SameDiskFlat(s1, Settled(s1, i), j);
    AttachExtends(Settled(s1, i), i);
    SameDiskFlat(Settled(s1, i), Attach(Settled(s1, i), i).0, j);
  }
}
