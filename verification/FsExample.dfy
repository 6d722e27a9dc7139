/** A run on a new file system that breaks it: a file is created, and then a path that goes on
    behind the file. */
module FsExample {
  import opened Blocks
  import opened Names
  import opened Tokens
  import opened Bitmap
  import opened FsState
  import opened FsInvariant
  import opened FsOpen
  import opened FsRuns
  import opened FsPaths
  import opened Options

  // ----- when creation goes through

  /** An inode, a block and a place for the name are left. */
  predicate RoomFor(s: State, name: string) {
    && FirstUnbound(s.inodes, 0) < |s.inodes| && FirstClear(s.bits, 0) < |s.bits|
    && !PlaceFor(s.names, name, 0).NoSpace?
  }

  /** A path of which only the last component is missing is created exactly when there is room. */
  lemma LastMissing(s: State, path: string, euid: int, p: nat, name: string)
    requires path != "" && 0 < |s.inodes| <= INODES && Walk(s, 0, PathComponents(path), euid) == Missing(p, [name])
    requires p < |s.inodes| && Permitted(s.inodes[p], euid, "w")
    ensures CreateOne(s, p, name, euid).Some? <==> RoomFor(s, name)
    ensures RoomFor(s, name) ==>
      var (s1, j) := CreateOne(s, p, name, euid).value;
      j < |s1.inodes| && GetInode(s, path, true, euid) == Some((Finish(s1, j), j))
  {
    hide Walk, PathComponents, Permitted, PlaceFor, Finish;
    assert [name][0] == name && |[name]| == 1;
  }

  lemma OpenedNew(s: State, path: string, mode: string, euid: int)
    requires path != "" && 0 < |s.inodes| <= INODES && GetInode(s, path, true, euid).Some?
    requires 0 <= GetInode(s, path, true, euid).value.1 < |GetInode(s, path, true, euid).value.0.inodes|
    ensures Open(s, path, mode, euid).Some?
    ensures var (s1, i) := GetInode(s, path, true, euid).value;
      s1.inodes[i].kind == NewFile && Permitted(s1.inodes[i].(kind := RegularFile), euid, mode) ==>
        && Open(s, path, mode, euid) == Some((Attach(Settled(s1, i), i).0, Attach(Settled(s1, i), i).1 as int))
  {
    hide GetInode, Permitted, Attach;
  }

  // ----- the first file

  const FIRST: string := "a"
  const BEHIND: string := "a/b"

  lemma Components()
    ensures PathComponents(FIRST) == ["a"] && PathComponents(BEHIND) == ["a", "b"] && CString(FIRST) && CString(BEHIND)
  {
    PathRoundTrip(["a"]);
    PathRoundTrip(["a", "b"]);
    assert Join(["a"], '/') == "a";
    assert ["a", "b"][1..] == ["b"] && Join(["b"], '/') == "b";
    assert Join(["a", "b"], '/') == "a" + "/" + "b" == "a/b";
  }

  lemma FirstMissing()
    ensures Walk(Formatted(), 0, ["a"], 0) == Missing(0, ["a"])
  {
    var s := Formatted();
    NumberOfAddress(3);
    ZeroWords();
    assert IndexOf(s, 0)[0] == 0;
    assert ScanFrom(s, IndexOf(s, 0), "a", 0) == Free(0);
  }

  lemma RoomForFirst()
    ensures var s := Formatted();
      RoomFor(s, "a") && FirstUnbound(s.inodes, 0) == 1 && FirstClear(s.bits, 0) == 4
      && PlaceFor(s.names, "a", 0) == Append(2)
  {
    var s := Formatted();
    assert s.inodes[0].bound && !s.inodes[1].bound;
    assert s.bits[0] && s.bits[1] && s.bits[2] && s.bits[3] && !s.bits[4];
    hide Formatted;
    SlashThenNothing(s.names);
  }

  lemma SlashThenNothing(names: seq<char>)
    requires |names| == 8192 && names[0] == '/' && forall i :: 1 <= i < |names| ==> names[i] == '\0'
    ensures PlaceFor(names, "a", 0) == Append(2)
  {
    assert StringAt(names, 0)[0] == '/';
    assert StringAt(names, 1) == "";
    assert EndsAt(names, 1) && !EndsAt(names, 0);
    assert PlaceFor(names, "a", 0) == PlaceFor(names, "a", 1);
  }

  /** The tables with the file in them. */
  ghost predicate WithFirst(s0: State, s: State) {
    && |s0.bits| == BLOCKS && |s0.inodes| == INODES && !PlaceFor(s0.names, "a", 0).NoSpace?
    && s.bits == s0.bits[4 := true] && s.names == Interned(s0.names, "a")
    && s.inodes == s0.inodes[1 := Inode(true, RegularFile, NEW_FILE_ACCESS, 0, 0, AddressOf(4), 2)]
    && Walk(s, 0, ["a"], 0) == Resolved(1) && IndexOf(s, 1)[0] == 0
  }

  lemma FirstOpened() returns (s: State)
    ensures FIRST != "" && 0 < |Formatted().inodes| <= INODES && Open(Formatted(), FIRST, "w", 0) == Some((s, 0))
    ensures Inv(s) && Durable(s) && WithFirst(Formatted(), s)
  {
    var s0 := Formatted();
    FormattedIsSound();
    FirstMissing();
    Components();
    RoomForFirst();
    FirstFits();
    hide *;
    s := FirstOpenedFrom(s0);
  }

  lemma FirstFits()
    ensures |Formatted().inodes| == INODES && |Formatted().bits| == BLOCKS && Formatted().inodes[0].bound
    ensures Formatted().open == [] && Formatted().inodes[0].kind == Directory
  {
  }

  lemma FirstOpenedFrom(s0: State) returns (s: State)
    requires Inv(s0) && Durable(s0) && |s0.inodes| == INODES && |s0.bits| == BLOCKS && s0.open == []
    requires s0.inodes[0].bound && s0.inodes[0].kind == Directory
    requires PathComponents(FIRST) == ["a"] && CString(FIRST) && Walk(s0, 0, ["a"], 0) == Missing(0, ["a"])
    requires RoomFor(s0, "a") && FirstUnbound(s0.inodes, 0) == 1 && FirstClear(s0.bits, 0) == 4
    requires PlaceFor(s0.names, "a", 0) == Append(2)
    ensures Open(s0, FIRST, "w", 0) == Some((s, 0)) && Inv(s) && Durable(s) && WithFirst(s0, s)
  {
    hide Inv, Durable, Walk, PathComponents, PlaceFor, CreateOne, Open, GetInode, IndexOf, Interned, RoomFor, CString,
      CanCreate;
    LastMissing(s0, FIRST, 0, 0, "a");
    var (s1, j) := CreateOne(s0, 0, "a", 0).value;
    InvCanCreate(s0, 0);
    CreateTables(s0, 0, "a", 0, s1, j);
    CreatedWhere(s0, 0, "a", 0, s1, j);
    OpenedNew(s0, FIRST, "w", 0);
    var s2 := Finish(s1, j);
    s := Attach(Settled(s2, j), j).0;
    FirstAttached(Settled(s2, j), j);
    NotThroughFile(s0, FIRST, 0);
    OpenReaches(s0, FIRST, "w", 0, s, 0);
    OpenDurable(s0, FIRST, "w", 0, s, 0);
    GetInodeReaches(s0, FIRST, true, 0, s2, j);
    SameIndexSameDisk(s2, s, j);
  }

  lemma CreatedWhere(s: State, p: nat, name: string, euid: int, s1: State, j: nat)
    requires p < |s.inodes| <= INODES && CreateOne(s, p, name, euid) == Some((s1, j))
    ensures j == FirstUnbound(s.inodes, 0)
  {
    hide PlaceFor, Added;
  }

  lemma FirstAttached(s: State, i: nat)
    requires i < |s.inodes| && s.open == []
    ensures Attach(s, i).1 == 0 && Attach(s, i).0 == s.(open := [Descriptor(true, i, IndexOf(s, i), map[], 0)])
  {
    hide IndexOf;
  }

  lemma NotThroughFile(s: State, path: string, euid: int)
    requires path != "" && 0 < |s.inodes| && s.inodes[0].kind == Directory
    requires Walk(s, 0, PathComponents(path), euid).Missing? && Walk(s, 0, PathComponents(path), euid).parent == 0
    ensures !MissesInFile(s, path, euid)
  {
    hide Walk, PathComponents, Permitted;
  }

  // ----- the path behind it

  lemma BehindMissing(s: State)
    requires 1 < |s.inodes| && Walk(s, 0, ["a"], 0) == Resolved(1) && IndexOf(s, 1)[0] == 0
    ensures Walk(s, 0, ["a", "b"], 0) == Missing(1, ["b"])
  {
    hide ScanFrom, IndexOf;
    assert ["a"][1..] == [] && ["a", "b"][1..] == ["b"];
    assert ScanFrom(s, IndexOf(s, 0), "a", 0) == Match(1) by { WalkOne(s); }
    assert ScanFrom(s, IndexOf(s, 1), "b", 0) == Free(0) by { ScanEmpty(s, IndexOf(s, 1), "b"); }
    assert Permitted(s.inodes[1], 0, "x");
    assert Walk(s, 1, ["b"], 0) == Missing(1, ["b"]);
  }

  lemma WalkOne(s: State)
    requires 1 < |s.inodes| && Walk(s, 0, ["a"], 0) == Resolved(1)
    ensures ScanFrom(s, IndexOf(s, 0), "a", 0) == Match(1)
  {
    hide ScanFrom, IndexOf;
    assert ["a"][1..] == [];
    var r := ScanFrom(s, IndexOf(s, 0), "a", 0);
    if r.Match? { assert Walk(s, r.inode, [], 0) == Resolved(r.inode); }
  }

  lemma ScanEmpty(s: State, index: Words, name: string)
    requires index[0] == 0
    ensures ScanFrom(s, index, name, 0) == Free(0)
  {
  }

  lemma RoomForSecond(s: State)
    requires WithFirst(Formatted(), s)
    ensures RoomFor(s, "b")
  {
    hide Walk, IndexOf;
    assert s.inodes[0].bound && s.inodes[1].bound && !s.inodes[2].bound;
    assert !s.bits[5];
    RoomForFirst();
    NameWritten(Formatted().names);
    hide Formatted, Interned;
    NoneNamedB(s.names);
  }

  lemma NameWritten(names: seq<char>)
    requires |names| == 8192 && names[0] == '/' && PlaceFor(names, "a", 0) == Append(2)
    requires forall i :: 1 <= i < |names| ==> names[i] == '\0'
    ensures var t := Interned(names, "a");
      |t| == 8192 && t[0] == '/' && t[1] == '\0' && t[2] == 'a' && forall i :: 3 <= i < |t| ==> t[i] == '\0'
  {
  }

  lemma NoneNamedB(names: seq<char>)
    requires |names| == 8192 && names[0] == '/' && names[1] == '\0' && names[2] == 'a'
    requires forall i :: 3 <= i < |names| ==> names[i] == '\0'
    ensures PlaceFor(names, "b", 0) == Append(4)
  {
    assert StringAt(names, 0)[0] == '/' && StringAt(names, 2)[0] == 'a';
    assert StringAt(names, 1) == "" && StringAt(names, 3) == "";
    assert !EndsAt(names, 0) && !EndsAt(names, 1) && !EndsAt(names, 2) && EndsAt(names, 3);
    hide StringAt, EndsAt;
    assert PlaceFor(names, "b", 0) == PlaceFor(names, "b", 1);
    assert PlaceFor(names, "b", 1) == PlaceFor(names, "b", 2);
    assert PlaceFor(names, "b", 2) == PlaceFor(names, "b", 3);
    assert PlaceFor(names, "b", 3) == Append(4);
  }

  lemma BehindOpened(s: State) returns (s': State, r: int)
    requires Inv(s) && 1 < |s.inodes| <= INODES && s.inodes[1].bound && s.inodes[1].kind == RegularFile
    requires PathComponents(BEHIND) == ["a", "b"] && CString(BEHIND)
    requires Walk(s, 0, ["a", "b"], 0) == Missing(1, ["b"]) && RoomFor(s, "b")
    ensures MissesInFile(s, BEHIND, 0) && Open(s, BEHIND, "w", 0) == Some((s', r)) && !Inv(s')
  {
    hide Inv, Walk, PathComponents, PlaceFor, CreateOne, Open, GetInode, IndexOf, RoomFor, CString;
    LastMissing(s, BEHIND, 0, 1, "b");
    var (s1, j) := CreateOne(s, 1, "b", 0).value;
    assert |Finish(s1, j).inodes| == |s1.inodes|;
    OpenedNew(s, BEHIND, "w", 0);
    s', r := Open(s, BEHIND, "w", 0).value.0, Open(s, BEHIND, "w", 0).value.1;
    OpenInFile(s, BEHIND, "w", 0, s', r);
  }

  lemma TwoOpens(s0: State, s1: State, s2: State, r1: int, r2: int)
    requires |s0.inodes| == |s1.inodes| == INODES && |s0.bits| == |s1.bits| == BLOCKS
    requires Open(s0, FIRST, "w", 0) == Some((s1, r1)) && Open(s1, BEHIND, "w", 0) == Some((s2, r2))
    ensures Run(s0, [OpenCall(FIRST, "w", 0), OpenCall(BEHIND, "w", 0)]) == Some(s2)
  {
    hide Open;
    var c, d := OpenCall(FIRST, "w", 0), OpenCall(BEHIND, "w", 0);
    assert [c, d][1..] == [d] && [d][1..] == [];
    assert Run(s1, [d]) == Run(s2, []) == Some(s2);
  }

  /** On a new file system, as root: open("a") makes a file, and open("a/b") goes through and
      enters b's inode into the data of that file. */
  lemma CreatingBehindAFileBreaks() returns (s1: State, s2: State)
    ensures Inv(Formatted()) && Open(Formatted(), FIRST, "w", 0) == Some((s1, 0)) && Inv(s1)
    ensures Run(Formatted(), [OpenCall(FIRST, "w", 0), OpenCall(BEHIND, "w", 0)]) == Some(s2)
    ensures 0 < |s1.inodes| && MissesInFile(s1, BEHIND, 0) && !Inv(s2)
  {
    FormattedIsSound();
    Components();
    FirstFits();
    hide *;
    s1 := FirstOpened();
    FileHere(s1);
    BehindMissing(s1);
    RoomForSecond(s1);
    var r: int;
    s2, r := BehindOpened(s1);
    TwoOpens(Formatted(), s1, s2, 0, r);
  }

  lemma FileHere(s: State)
    requires WithFirst(Formatted(), s)
    ensures |s.inodes| == INODES == 186 && |s.bits| == BLOCKS && s.inodes[1].bound && s.inodes[1].kind == RegularFile
    ensures Walk(s, 0, ["a"], 0) == Resolved(1) && IndexOf(s, 1)[0] == 0
  {
    hide Walk, IndexOf, Formatted;
  }
}
