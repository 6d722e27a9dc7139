/** Whole runs of file-system calls: the invariant, the durability of the metadata, the paths
    and the contents of files in every state reached. */
module FsRuns {
  import opened Blocks
  import opened Tokens
  import opened Bitmap
  import opened FsState
  import opened FsInvariant
  import opened FsTree
  import opened FsContent
  import opened FsReadWrite
  import opened FsOpen
  import opened Options

  // ----- creating inside a file breaks the invariant

  lemma CreateOneElsewhere(s: State, parent: nat, name: string, euid: int, s': State, c: nat, b: nat, i: nat)
    requires parent < |s.inodes| <= INODES && CreateOne(s, parent, name, euid) == Some((s', c))
    requires |s.disk| == |s.bits| == BLOCKS && b < BLOCKS && s.bits[b] && i < |s.inodes| && s.inodes[i].bound
    requires BlockNumber(s.inodes[parent].addressBlock) != b
    ensures |s'.disk| == |s'.bits| == BLOCKS && |s'.inodes| == |s.inodes| && c < |s'.inodes|
    ensures s'.disk[b] == s.disk[b] && s'.bits[b] && s'.inodes[i] == s.inodes[i]
    ensures BlockNumber(s'.inodes[c].addressBlock) != b
  {
    NumberOfAddress(FirstClear(s.bits, 0));
  }

  lemma {:induction false} CreateElsewhere(s: State, parent: nat, components: seq<string>, euid: int,
                                           s': State, c: nat, b: nat, i: nat)
    requires parent < |s.inodes| <= INODES && components != [] && Create(s, parent, components, euid) == Some((s', c))
    requires |s.disk| == |s.bits| == BLOCKS && b < BLOCKS && s.bits[b] && i < |s.inodes| && s.inodes[i].bound
    requires BlockNumber(s.inodes[parent].addressBlock) != b
    ensures |s'.disk| == BLOCKS && |s'.inodes| == |s.inodes| && c < |s'.inodes|
    ensures s'.disk[b] == s.disk[b] && s'.inodes[i].(kind := NewFile) == s.inodes[i].(kind := NewFile)
    ensures s'.inodes[i].kind == s.inodes[i].kind || s'.inodes[i].kind == NewFile
    decreases |components|
  {
    hide CreateOne;
    var (s1, j) := CreateOne(s, parent, components[0], euid).value;
    CreateOneElsewhere(s, parent, components[0], euid, s1, j, b, i);
    if |components| > 1 {
      CreateElsewhere(s1, j, components[1..], euid, s', c, b, i);
    }
  }

  lemma StrayEntry(s: State, i: nat, index: Words)
    requires i < |s.inodes| && s.inodes[i].bound && s.inodes[i].kind != Directory
    requires IndexOf(s, i) == index && 0 < index[0] < INODES
    ensures !Allocated(s)
  {
    assert SlotAddress(s, Data(i, 0)) == index[0];
  }

  lemma SameIndex(s: State, s': State, i: nat, b: nat)
    requires i < |s.inodes| && i < |s'.inodes| && s'.inodes[i].addressBlock == s.inodes[i].addressBlock
    requires b == BlockNumber(s.inodes[i].addressBlock) && b < |s.disk| == |s'.disk| && s'.disk[b] == s.disk[b]
    ensures IndexOf(s', i) == IndexOf(s, i)
  {
  }

  lemma CreateInFile(s: State, p: nat, components: seq<string>, euid: int, s': State, c: nat)
    requires Inv(s) && p < |s.inodes| <= INODES && s.inodes[p].bound && s.inodes[p].kind != Directory
    requires IndexOf(s, p)[0] == 0 && components != [] && Create(s, p, components, euid) == Some((s', c))
    ensures |s'.inodes| == |s.inodes| && s'.inodes[p].bound && s'.inodes[p].kind != Directory
    ensures 0 < IndexOf(s', p)[0] < INODES
  {
    InvCanCreate(s, p);
    hide Inv, Allocated, Shape, IndexOf;
    var (s1, j) := CreateOne(s, p, components[0], euid).value;
    CreateTables(s, p, components[0], euid, s1, j);
    hide CreateOne, CanCreate;
    var b := BlockNumber(s.inodes[p].addressBlock);
    FirstZeroHere(IndexOf(s, p));
    OwnBlock(s, p);
    IndexWritten(s1, b, IndexOf(s, p)[0 := j], p);
    if |components| > 1 {
      NumberOfAddress(FirstClear(s.bits, 0));
      CreateElsewhere(s1, j, components[1..], euid, s', c, b, p);
      SameIndex(s1, s', p, b);
    } else {
      SameIndex(s1, s', p, b);
    }
  }

  lemma FirstZeroHere(index: Words)
    requires index[0] == 0
    ensures FirstZero(index, 0) == 0
  {
  }

  lemma OpenInFile(s: State, path: string, mode: string, euid: int, s': State, r: int)
    requires Inv(s) && CString(path) && 0 < |s.inodes| <= INODES && MissesInFile(s, path, euid)
    requires Open(s, path, mode, euid) == Some((s', r))
    ensures !Inv(s')
  {
    hide Inv, Permitted, PathComponents, CString, Create, GoodTree, HasNoChild, IndexOf, Walk, Attach, Allocated;
    CStringNonEmpty(path);
    PathNames(path);
    InvGoodTree(s);
    RootBound(s);
    WalkEnds(s, 0, PathComponents(path), euid);
    var p, rest := Walk(s, 0, PathComponents(path), euid).parent, Walk(s, 0, PathComponents(path), euid).rest;
    var (s1, c) := Create(s, p, rest, euid).value;
    CreateInFile(s, p, rest, euid, s1, c);
    var s2 := Settled(s1, c);
    SameIndexSameDisk(s1, s2, p);
    AttachExtends(s2, c);
    AttachIndex(s2, c);
    SameIndexSameDisk(s2, s', p);
    StrayEntry(s', p, IndexOf(s', p));
    InvMeansAllocated(s');
  }

  lemma SameIndexSameDisk(s: State, s': State, i: nat)
    requires i < |s.inodes| && i < |s'.inodes| && s'.disk == s.disk
    requires s'.inodes[i].addressBlock == s.inodes[i].addressBlock
    ensures IndexOf(s', i) == IndexOf(s, i)
  {
  }

  lemma InvMeansAllocated(s: State)
    ensures Inv(s) ==> Allocated(s)
  {
  }

  /** Exactly when the existing part of the path does not end in something that is no
      directory does open keep the file system sound. */
  lemma OpenSoundExactly(s: State, path: string, mode: string, euid: int, s': State, r: int)
    requires Inv(s) && CString(path) && 0 < |s.inodes| <= INODES
    requires Open(s, path, mode, euid) == Some((s', r))
    ensures Inv(s') <==> !MissesInFile(s, path, euid)
  {
    hide Inv, Open, MissesInFile;
    if MissesInFile(s, path, euid) {
      OpenInFile(s, path, mode, euid, s', r);
    } else {
      OpenReaches(s, path, mode, euid, s', r);
    }
  }

  // ----- a refused open

  const HEADER_BYTES: int := 12
  const INODE_BYTES: int := 44
  const KIND_AT: int := 4

  /** Where the kind of the inode at index -2 is when the inode table directly follows the bitmap
      on the heap: a word near the end of the bitmap. */
  const STRAY_BIT: nat := 8 * (BLOCK_BYTES + HEADER_BYTES - 2 * INODE_BYTES + KIND_AT)

  ghost predicate StrayWordUsed(s: State)
    requires |s.bits| == BLOCKS
  {
    exists k :: STRAY_BIT <= k < STRAY_BIT + 32 && s.bits[k]
  }

  /** A zero there is read as a new file's kind and made a regular file's, which is 1. */
  ghost function RefusedOpen(s: State): State
    requires |s.bits| == BLOCKS
  {
    if StrayWordUsed(s) then s else s.(bits := s.bits[STRAY_BIT := true])
  }

  /** With the two tables next to each other, a refused open keeps the file system sound, and its
      metadata as on the disk, exactly when one of those 32 blocks is allocated already; if not,
      a block is lost in memory. */
  lemma RefusedOpenExactly(s: State)
    requires Inv(s) && Durable(s)
    ensures |s.bits| == BLOCKS && STRAY_BIT == 64960
    ensures Inv(RefusedOpen(s)) <==> StrayWordUsed(s)
    ensures Durable(RefusedOpen(s)) <==> StrayWordUsed(s)
  {
    if !StrayWordUsed(s) {
      assert !s.bits[STRAY_BIT];
      StrayBitLost(s, RefusedOpen(s), STRAY_BIT);
    }
  }

  lemma StrayBitLost(s: State, s': State, k: nat)
    requires Allocated(s) && METADATA_BLOCKS <= k < |s.bits| && !s.bits[k] && s' == s.(bits := s.bits[k := true])
    ensures !NoneLost(s')
  {
    NumberOfAddress(k);
    forall x: Slot
      ensures SlotAddress(s', x) != AddressOf(k)
    {
      assert SlotAddress(s', x) == SlotAddress(s, x);
    }
    assert !HeldAt(s', k);
  }

  // ----- metadata on the disk

  lemma {:induction false} CreateDurable(s: State, parent: nat, components: seq<string>, euid: int, s': State, j: nat)
    requires parent < |s.inodes| <= INODES && components != [] && Create(s, parent, components, euid) == Some((s', j))
    requires s.image.bits == s.bits && s.image.names == s.names
    ensures s'.image == Image(s'.bits, s'.inodes, s'.names)
    decreases |components|
  {
    if |components| > 1 {
      var (s1, c) := CreateOne(s, parent, components[0], euid).value;
      CreateDurable(s1, c, components[1..], euid, s', j);
    }
  }

  lemma OpenDurable(s: State, path: string, mode: string, euid: int, s': State, r: int)
    requires Durable(s) && path != "" && 0 < |s.inodes| <= INODES && Open(s, path, mode, euid) == Some((s', r))
    ensures Durable(s')
  {
    hide Walk, PathComponents, Permitted, Create, Attach;
    var (s1, i) := GetInode(s, path, true, euid).value;
    match Walk(s, 0, PathComponents(path), euid) {
      case Missing(p, rest) =>
        if p < |s.inodes| && rest != [] && Permitted(s.inodes[p], euid, "w") {
          CreateDurable(s, p, rest, euid, s1, i as nat);
        }
      case _ =>
    }
    AttachExtends(Settled(s1, i), i);
  }

  lemma WriteDurable(s: State, d: int, buff: seq<Byte>, s': State, n: int)
    requires Inv(s) && Durable(s) && |s.bits| <= BLOCKS && Write(s, d, buff) == Some((s', n))
    ensures Durable(s')
  {
    hide Inv, WriteRounds, Rounds, SameTables, CoherentDescriptor;
    if 0 <= d < |s.open| {
      OpenIsFile(s, d);
      var s1, source, at, eof, s2 := WriteParts(s, d, buff, s', n);
      WriteRoundsTables(s1, d, 0, Rounds(at, |buff|), |source|, at, source, 0, eof, s2);
      TablesLength(s1, s2);
    }
  }

  lemma RebootAlike(s: State)
    requires Inv(s) && Durable(s)
    ensures Alike(s, Reboot(s))
  {
    forall i | 0 <= i < |s.inodes| && s.image.inodes[i] != s.inodes[i]
      ensures KindMayChange(s, Reboot(s), i)
    {
    }
  }

  /** Switching off between two calls loses nothing: the state read back is sound, every path
      resolves as before and every file has its contents. */
  lemma RebootKeeps(s: State)
    requires Inv(s) && Durable(s)
    ensures Inv(Reboot(s)) && Durable(Reboot(s)) && Extends(s, Reboot(s)) && Reboot(s).open == []
    ensures forall j :: IsFile(s, j) ==> IsFile(Reboot(s), j) && Content(Reboot(s), j) == Content(s, j)
  {
    var s' := Reboot(s);
    RebootAlike(s);
    hide Alike, FlatOf;
    AlikeKeepsTables(s, s');
    assert Handles(s');
    AlikeExtends(s, s');
    forall j | IsFile(s, j)
      ensures IsFile(s', j) && Content(s', j) == Content(s, j)
    {
      SameDiskFlat(s, s', j);
    }
  }

  // ----- runs

  /** The one thing asked of a caller: paths are C strings that do not go through a file. */
  ghost predicate SoundCall(s: State, c: Call) {
    c.OpenCall? ==> CString(c.path) && |s.inodes| == INODES && !MissesInFile(s, c.path, c.euid)
  }

  ghost predicate SoundRun(s: State, calls: seq<Call>)
    decreases |calls|
  {
    calls == [] || (SoundCall(s, calls[0]) &&
      (Perform(s, calls[0]).Some? ==> SoundRun(Perform(s, calls[0]).value, calls[1..])))
  }

  lemma OpenTableExtends(s: State, s': State)
    requires s' == s.(open := s'.open)
    ensures Extends(s, s') && (Durable(s) ==> Durable(s'))
    ensures forall j :: IsFile(s, j) ==> IsFile(s', j) && Content(s', j) == Content(s, j)
  {
    forall p: nat, m: nat | Entry(s, p, m) != 0
      ensures Entry(s', p, m) == Entry(s, p, m)
    {
    }
    forall j | IsFile(s, j)
      ensures IsFile(s', j) && Content(s', j) == Content(s, j)
    {
      OpenOnlyFlat(s, s', j);
    }
  }

  lemma WriteExtends(s: State, d: int, buff: seq<Byte>, s': State, n: int)
    requires Inv(s) && |s.bits| <= BLOCKS && Write(s, d, buff) == Some((s', n))
    ensures Extends(s, s')
  {
    hide Inv, Write, Entry, IsFile, Content;
    ShapeSize(s);
    forall j: nat, m: nat
      ensures Entry(s', j, m) == Entry(s, j, m)
    {
      WriteKeepsEntries(s, d, buff, s', n, j, m);
    }
    WriteKeepsOthers(s, d, buff, s', n, 0);
    forall j: nat | j < |s.inodes|
      ensures s'.inodes[j].(size := 0) == s.inodes[j].(size := 0)
    {
      WriteKeepsOthers(s, d, buff, s', n, j);
    }
  }

  lemma ShapeSize(s: State)
    requires Inv(s)
    ensures |s.inodes| == INODES && |s.bits| == BLOCKS
  {
  }

  /** Every call keeps the invariant, keeps the metadata durable and keeps what was there. */
  lemma CallKeeps(s: State, c: Call, s': State)
    requires Inv(s) && Durable(s) && SoundCall(s, c) && Perform(s, c) == Some(s')
    ensures Inv(s') && Durable(s') && Extends(s, s')
  {
    hide Inv, Durable, Extends, Open, Write, Read, Seek, Close, MissesInFile, CString;
    ShapeSize(s);
    match c {
      case OpenCall(path, mode, euid) =>
        var r := Open(s, path, mode, euid).value.1;
        OpenReaches(s, path, mode, euid, s', r);
        OpenedParts(s, path, euid, s', r);
        OpenDurable(s, path, mode, euid, s', r);
      case WriteCall(fd, data) =>
        var n := Write(s, fd, data).value.1;
        WriteKeepsInv(s, fd, data, s', n);
        WriteDurable(s, fd, data, s', n);
        WriteExtends(s, fd, data, s', n);
      case ReadCall(fd, buff, count) =>
        var (s1, b, n) := Read(s, fd, buff, count).value;
        ReadKeepsInv(s, fd, buff, count, s', b, n);
        OpenTableExtends(s, s');
      case SeekCall(fd, offset) =>
        SeekKeepsInv(s, fd, offset, s');
        OpenTableExtends(s, s');
      case CloseCall(fd) =>
        CloseKeepsInv(s, fd, s');
        OpenTableExtends(s, s');
    }
  }

  lemma OpenedParts(s: State, path: string, euid: int, s': State, r: int)
    requires path != "" && 0 < |s.inodes| && Opened(s, path, euid, s', r)
    ensures Inv(s') && Extends(s, s')
  {
  }

  /** In every state a run reaches, each allocated block has one owner, free blocks are zero,
      the directories form a tree, caches agree with the disk, no file has two descriptors,
      and everything that existed before the run is still there. */
  lemma {:induction false} RunKeeps(s: State, calls: seq<Call>, s': State)
    requires Inv(s) && Durable(s) && SoundRun(s, calls) && Run(s, calls) == Some(s')
    ensures Inv(s') && Durable(s') && Extends(s, s')
    decreases |calls|
  {
    hide Inv, Durable, Extends, SoundCall, Perform;
    if calls == [] {
      ExtendsSelf(s);
    } else {
      var s1 := Perform(s, calls[0]).value;
      CallKeeps(s, calls[0], s1);
      RunKeeps(s1, calls[1..], s');
      ExtendsTrans(s, s1, s');
    }
  }

  /** Every path that resolved before a run resolves to the same inode after it, and after a
      reboot. */
  lemma RunKeepsPaths(s: State, calls: seq<Call>, s': State, components: seq<string>, euid: int, j: nat)
    requires Inv(s) && Durable(s) && SoundRun(s, calls) && Run(s, calls) == Some(s') && 0 < |s.inodes|
    requires Walk(s, 0, components, euid) == Resolved(j)
    ensures |s'.inodes| == |Reboot(s').inodes| == INODES
    ensures Walk(s', 0, components, euid) == Walk(Reboot(s'), 0, components, euid) == Resolved(j)
  {
    hide Inv, Durable, Extends, Walk, Run, SoundRun, Reboot, GoodTree, Allocated;
    RunKeeps(s, calls, s');
    RebootKeeps(s');
    InvGoodTree(s);
    InvGoodTree(s');
    InvGoodTree(Reboot(s'));
    RootBound(s);
    RootBound(s');
    DirectoryBound(s, 0);
    DirectoryBound(s', 0);
    WalkStays(s, s', 0, components, euid, j);
    WalkStays(s', Reboot(s'), 0, components, euid, j);
  }

  /** No call of the run writes to file j. */
  ghost predicate NeverWritten(s: State, calls: seq<Call>, j: nat)
    decreases |calls|
  {
    calls == [] || (
      && (calls[0].WriteCall? && 0 <= calls[0].fd < |s.open| ==> s.open[calls[0].fd].inode != j)
      && (Perform(s, calls[0]).Some? ==> NeverWritten(Perform(s, calls[0]).value, calls[1..], j)))
  }

  lemma CallKeepsContent(s: State, c: Call, s': State, j: nat)
    requires Inv(s) && SoundCall(s, c) && Perform(s, c) == Some(s') && IsFile(s, j)
    requires c.WriteCall? && 0 <= c.fd < |s.open| ==> s.open[c.fd].inode != j
    ensures IsFile(s', j) && Content(s', j) == Content(s, j)
  {
    hide Inv, Extends, Open, Write, Read, Seek, Close, MissesInFile, CString, Content, FlatOf;
    ShapeSize(s);
    match c {
      case OpenCall(path, mode, euid) =>
        OpenKeepsContent(s, path, mode, euid, s', Open(s, path, mode, euid).value.1, j);
      case WriteCall(fd, data) =>
        WriteKeepsOthers(s, fd, data, s', Write(s, fd, data).value.1, j);
      case ReadCall(fd, buff, count) =>
        var (s1, b, n) := Read(s, fd, buff, count).value;
        ReadKeepsInv(s, fd, buff, count, s', b, n);
        OpenTableExtends(s, s');
      case SeekCall(fd, offset) =>
        SeekKeepsInv(s, fd, offset, s');
        OpenTableExtends(s, s');
      case CloseCall(fd) =>
        CloseKeepsInv(s, fd, s');
        OpenTableExtends(s, s');
    }
  }

  /** Over a whole run a file keeps its contents unless some call writes to that very file. */
  lemma {:induction false} RunKeepsContent(s: State, calls: seq<Call>, s': State, j: nat)
    requires Inv(s) && Durable(s) && SoundRun(s, calls) && Run(s, calls) == Some(s')
    requires IsFile(s, j) && NeverWritten(s, calls, j)
    ensures IsFile(s', j) && Content(s', j) == Content(s, j)
    decreases |calls|
  {
    hide Inv, Durable, Extends, SoundCall, Perform, Content, IsFile;
    if calls != [] {
      var s1 := Perform(s, calls[0]).value;
      CallKeeps(s, calls[0], s1);
      CallKeepsContent(s, calls[0], s1, j);
      RunKeepsContent(s1, calls[1..], s', j);
    }
  }
}
