/** What a path leads to: every outcome of a lookup, told by the entries of the directories and
    the permissions to enter them, and when and what a creating lookup creates. */
module FsLookup {
  import opened Blocks
  import opened Names
  import opened Tokens
  import opened FsState
  import opened FsInvariant
  import opened FsTree
  import opened FsOpen
  import opened FsSuccess
  import opened FsPaths
  import opened Options

  // ----- where components lead

  ghost predicate MayEnter(s: State, i: nat, name: string, euid: int, c: nat) {
    HasChild(s, i, name, c) && Permitted(s.inodes[c], euid, "x")
  }

  /** From directory to directory, every one of them open to the user, the names lead to p. */
  ghost predicate Enters(s: State, i: nat, names: seq<string>, euid: int, p: nat)
    decreases |names|
  {
    if names == [] then i == p
    else exists c: nat :: MayEnter(s, i, names[0], euid, c) && Enters(s, c, names[1..], euid, p)
  }

  ghost predicate EntersAt(s: State, components: seq<string>, euid: int, k: nat, p: nat) {
    k <= |components| && Enters(s, 0, components[..k], euid, p)
  }

  /** Component k is the last one, and it is j. */
  ghost predicate LeadsAt(s: State, components: seq<string>, euid: int, k: nat, p: nat, j: nat) {
    k + 1 == |components| && EntersAt(s, components, euid, k, p) && HasChild(s, p, components[k], j)
  }

  /** The path is there, and all but its last component can be entered. */
  ghost predicate LeadsTo(s: State, components: seq<string>, euid: int, j: nat) {
    if components == [] then j == 0 else exists k: nat, p: nat :: LeadsAt(s, components, euid, k, p, j)
  }

  /** Something without entries or data. */
  ghost predicate Unwritten(s: State, p: nat) {
    IsDirectory(s, p) || (p < |s.inodes| && IndexOf(s, p)[0] == 0)
  }

  /** Component k is the first that is missing, and it is missing in p. */
  ghost predicate LacksAt(s: State, components: seq<string>, euid: int, k: nat, p: nat) {
    k < |components| && EntersAt(s, components, euid, k, p) && HasNoChild(s, p, components[k]) && Unwritten(s, p)
  }

  ghost predicate Lacks(s: State, components: seq<string>, euid: int) {
    exists k: nat, p: nat :: LacksAt(s, components, euid, k, p)
  }

  /** Component k is there and not the last, and the user may not enter it. */
  ghost predicate BarredAt(s: State, components: seq<string>, euid: int, k: nat, p: nat, c: nat) {
    && k + 1 < |components| && EntersAt(s, components, euid, k, p)
    && HasChild(s, p, components[k], c) && !Permitted(s.inodes[c], euid, "x")
  }

  ghost predicate Barred(s: State, components: seq<string>, euid: int) {
    exists k: nat, p: nat, c: nat :: BarredAt(s, components, euid, k, p, c)
  }

  /** Component k is looked for in a file that has data, whose block addresses are taken for entries. */
  ghost predicate IntoDataAt(s: State, components: seq<string>, euid: int, k: nat, p: nat) {
    k < |components| && EntersAt(s, components, euid, k, p) && !Unwritten(s, p)
  }

  ghost predicate IntoData(s: State, components: seq<string>, euid: int) {
    exists k: nat, p: nat :: IntoDataAt(s, components, euid, k, p)
  }

  // ----- a directory is never full

  lemma {:induction false} Below(n: nat, below: set<int>)
    requires forall x :: x in below ==> 0 <= x < n
    ensures |below| <= n
    decreases n
  {
    if n > 0 {
      Below(n - 1, below - {n - 1});
    } else {
      assert forall x: int :: x !in below;
      assert |below| == |set x: int | x in below && x < 0| == 0;
    }
  }

  lemma {:induction false} Entries(s: State, i: nat, m: nat) returns (entries: set<int>)
    requires EnteredOnce(s) && EntriesBound(s) && forall n: nat :: n < m ==> Entry(s, i, n) != 0
    ensures |entries| == m && forall x :: x in entries <==> exists n: nat :: n < m && Entry(s, i, n) == x
    ensures forall x :: x in entries ==> 0 <= x < |s.inodes|
    decreases m
  {
    if m == 0 {
      entries := {};
    } else {
      var before := Entries(s, i, m - 1);
      entries := before + {Entry(s, i, m - 1)};
    }
  }

  /** There are far fewer inodes than a directory has slots. */
  lemma NeverFull(s: State, i: nat)
    requires Inv(s) && IsDirectory(s, i)
    ensures FirstZero(IndexOf(s, i), 0) < BLOCK_WORDS
  {
    hide Inv, Entry, EnteredOnce, EntriesBound, IndexOf;
    if FirstZero(IndexOf(s, i), 0) == BLOCK_WORDS {
      FullEntries(s, i);
      var entries := Entries(s, i, BLOCK_WORDS);
      Below(|s.inodes|, entries);
      FarFewer(s);
    }
  }

  lemma FullEntries(s: State, i: nat)
    requires Inv(s) && IsDirectory(s, i) && FirstZero(IndexOf(s, i), 0) == BLOCK_WORDS
    ensures EnteredOnce(s) && EntriesBound(s) && forall n: nat :: n < BLOCK_WORDS ==> Entry(s, i, n) != 0
  {
    hide IndexOf, EnteredOnce, EntriesBound;
  }

  lemma FarFewer(s: State)
    requires Inv(s)
    ensures |s.inodes| < BLOCK_WORDS
  {
  }

  lemma ScanEnds(s: State, i: nat, name: string)
    requires Inv(s) && IsDirectory(s, i)
    ensures !ScanFrom(s, IndexOf(s, i), name, 0).OffEnd?
  {
    hide Inv;
    NeverFull(s, i);
    InvGoodTree(s);
    NotOffEnd(s, i, name, 0);
  }

  lemma {:induction false} NotOffEnd(s: State, i: nat, name: string, m: nat)
    requires IsDirectory(s, i) && EntriesBound(s) && m <= FirstZero(IndexOf(s, i), 0) < BLOCK_WORDS
    ensures !ScanFrom(s, IndexOf(s, i), name, m).OffEnd?
    decreases BLOCK_WORDS - m
  {
    assert Entry(s, i, m) == IndexOf(s, i)[m];
    if IndexOf(s, i)[m] != 0 && NameOf(s, IndexOf(s, i)[m]) != name {
      NotOffEnd(s, i, name, m + 1);
    }
  }

  // ----- the walk

  lemma {:induction false} EntersWalk(s: State, i: nat, names: seq<string>, euid: int, p: nat, rest: seq<string>)
    requires GoodTree(s) && Enters(s, i, names, euid, p) && i < |s.inodes| && s.inodes[i].bound && rest != []
    ensures p < |s.inodes| && s.inodes[p].bound && Walk(s, i, names + rest, euid) == Walk(s, p, rest, euid)
    decreases |names|
  {
    hide GoodTree, Walk, ScanFrom, HasChild, Permitted;
    if names == [] {
      assert names + rest == rest;
    } else {
      var c: nat :| MayEnter(s, i, names[0], euid, c) && Enters(s, c, names[1..], euid, p);
      GoodTreeParts(s);
      ParentIsDirectory(s, i, names[0], c);
      ChildBound(s, i, names[0], c);
      ScanFinds(s, i, names[0], c);
      WalkCons(s, i, names + rest, euid, c);
      assert (names + rest)[1..] == names[1..] + rest;
      EntersWalk(s, c, names[1..], euid, p, rest);
    }
  }

  /** The walk goes no further than the first of the components. */
  ghost predicate Stops(s: State, p: nat, rest: seq<string>, euid: int)
    requires p < |s.inodes| && rest != []
  {
    match ScanFrom(s, IndexOf(s, p), rest[0], 0)
    case Match(c) => |rest| == 1 || !Permitted(s.inodes[c], euid, "x")
    case _ => true
  }

  lemma {:induction false} WalkStops(s: State, i: nat, components: seq<string>, euid: int) returns (k: nat, p: nat)
    requires GoodTree(s) && Allocated(s) && |s.inodes| == INODES
    requires i < |s.inodes| && s.inodes[i].bound && components != []
    ensures k < |components| && Enters(s, i, components[..k], euid, p)
    ensures p < |s.inodes| && s.inodes[p].bound && Stops(s, p, components[k..], euid)
    decreases |components|
  {
    hide GoodTree, Allocated, HasChild, IndexOf, Permitted;
    if Stops(s, i, components, euid) {
      k, p := 0, i;
      assert components[..0] == [] && components[0..] == components;
    } else {
      GoodTreeParts(s);
      if s.inodes[i].kind != Directory { FileHasNoChild(s, i, components[0]); }
      var c := ScanFrom(s, IndexOf(s, i), components[0], 0).inode;
      ScanFinds(s, i, components[0], c);
      ChildBound(s, i, components[0], c);
      k, p := WalkStops(s, c, components[1..], euid);
      k := k + 1;
      assert components[1..][..k - 1] == components[..k][1..] && components[1..][k - 1..] == components[k..];
      assert MayEnter(s, i, components[0], euid, c);
    }
  }

  /** What the walk does at the component it stops at, for a directory that has it. */
  lemma StepFound(s: State, p: nat, rest: seq<string>, euid: int, c: nat)
    requires Inv(s) && p < |s.inodes| && rest != [] && HasChild(s, p, rest[0], c)
    ensures |rest| == 1 ==> Walk(s, p, rest, euid) == Resolved(c)
    ensures |rest| > 1 && !Permitted(s.inodes[c], euid, "x") ==> Walk(s, p, rest, euid) == Denied
  {
    InvGoodTree(s);
    ParentIsDirectory(s, p, rest[0], c);
    hide Inv, Permitted, IndexOf;
    ScanFinds(s, p, rest[0], c);
    if |rest| == 1 { assert rest[1..] == []; }
  }

  lemma NotBoth(s: State, p: nat, name: string, r: Scan)
    requires HasNoChild(s, p, name)
    ensures r.Match? ==> !HasChild(s, p, name, r.inode)
  {
  }

  lemma StepMissing(s: State, p: nat, rest: seq<string>, euid: int)
    requires Inv(s) && p < |s.inodes| && rest != [] && HasNoChild(s, p, rest[0]) && Unwritten(s, p)
    ensures Walk(s, p, rest, euid) == Missing(p, rest)
  {
    InvGoodTree(s);
    if IsDirectory(s, p) {
      ScanEnds(s, p, rest[0]);
      ScanFacts(s, p, rest[0], 0);
      hide Inv;
      NotBoth(s, p, rest[0], ScanFrom(s, IndexOf(s, p), rest[0], 0));
    }
  }

  lemma StepIntoData(s: State, p: nat, rest: seq<string>, euid: int)
    requires Inv(s) && p < |s.inodes| && s.inodes[p].bound && rest != [] && !Unwritten(s, p)
    ensures Walk(s, p, rest, euid) == Broken
  {
    InvGoodTree(s);
    FileHasNoChild(s, p, rest[0]);
  }

  /** Where the walk stops, one of the four things is the case. */
  lemma StopsWhere(s: State, p: nat, rest: seq<string>, euid: int)
    requires Inv(s) && p < |s.inodes| && s.inodes[p].bound && rest != [] && Stops(s, p, rest, euid)
    ensures match Walk(s, p, rest, euid)
            case Resolved(j) => |rest| == 1 && HasChild(s, p, rest[0], j)
            case Missing(q, r) => q == p && r == rest && HasNoChild(s, p, rest[0]) && Unwritten(s, p)
            case Denied =>
              |rest| > 1 && exists c: nat :: HasChild(s, p, rest[0], c) && !Permitted(s.inodes[c], euid, "x")
            case Broken => !Unwritten(s, p)
  {
    InvGoodTree(s);
    if IsDirectory(s, p) {
      ScanEnds(s, p, rest[0]);
      ScanFacts(s, p, rest[0], 0);
    } else {
      FileHasNoChild(s, p, rest[0]);
    }
    hide Inv, Permitted, IndexOf, HasChild, HasNoChild;
    if |rest| == 1 { assert rest[1..] == []; }
  }

  /** The walk from the root, once it has entered the first k components. */
  lemma WalkFrom(s: State, components: seq<string>, euid: int, k: nat, p: nat)
    requires Inv(s) && 0 < |s.inodes| && k < |components| && EntersAt(s, components, euid, k, p)
    ensures p < |s.inodes| && s.inodes[p].bound
    ensures Walk(s, 0, components, euid) == Walk(s, p, components[k..], euid)
  {
    InvGoodTree(s);
    RootBound(s);
    hide Inv, GoodTree, Allocated, Walk;
    EntersWalk(s, 0, components[..k], euid, p, components[k..]);
    assert components[..k] + components[k..] == components;
  }

  lemma LeadsWalk(s: State, components: seq<string>, euid: int, j: nat)
    requires Inv(s) && 0 < |s.inodes| && LeadsTo(s, components, euid, j)
    ensures Walk(s, 0, components, euid) == Resolved(j)
  {
    hide Inv, HasChild, EntersAt;
    if components != [] {
      var k: nat, p: nat :| LeadsAt(s, components, euid, k, p, j);
      WalkFrom(s, components, euid, k, p);
      StepFound(s, p, components[k..], euid, j);
    }
  }

  lemma LacksWalk(s: State, components: seq<string>, euid: int, k: nat, p: nat)
    requires Inv(s) && 0 < |s.inodes| && LacksAt(s, components, euid, k, p)
    ensures p < |s.inodes| && s.inodes[p].bound && Walk(s, 0, components, euid) == Missing(p, components[k..])
  {
    hide Inv, HasNoChild, EntersAt, Unwritten;
    WalkFrom(s, components, euid, k, p);
    StepMissing(s, p, components[k..], euid);
  }

  lemma BarredWalk(s: State, components: seq<string>, euid: int)
    requires Inv(s) && 0 < |s.inodes| && Barred(s, components, euid)
    ensures Walk(s, 0, components, euid) == Denied
  {
    hide Inv, HasChild, EntersAt, Permitted;
    var k: nat, p: nat, c: nat :| BarredAt(s, components, euid, k, p, c);
    WalkFrom(s, components, euid, k, p);
    StepFound(s, p, components[k..], euid, c);
  }

  lemma IntoDataWalk(s: State, components: seq<string>, euid: int)
    requires Inv(s) && 0 < |s.inodes| && IntoData(s, components, euid)
    ensures Walk(s, 0, components, euid) == Broken
  {
    hide Inv, EntersAt, Unwritten;
    var k: nat, p: nat :| IntoDataAt(s, components, euid, k, p);
    WalkFrom(s, components, euid, k, p);
    StepIntoData(s, p, components[k..], euid);
  }

  ghost predicate LacksFrom(s: State, components: seq<string>, euid: int, k: nat, p: nat, rest: seq<string>) {
    LacksAt(s, components, euid, k, p) && rest == components[k..]
  }

  /** How the walk comes to its outcome. */
  lemma WalkTells(s: State, components: seq<string>, euid: int)
    requires Inv(s) && 0 < |s.inodes|
    ensures var w := Walk(s, 0, components, euid);
      && (w.Resolved? ==> LeadsTo(s, components, euid, w.inode))
      && (w.Missing? ==> exists k: nat :: LacksFrom(s, components, euid, k, w.parent, w.rest))
      && (w.Denied? ==> Barred(s, components, euid))
      && (w.Broken? ==> IntoData(s, components, euid))
  {
    InvGoodTree(s);
    RootBound(s);
    DirectoryBound(s, 0);
    hide Inv, GoodTree, Allocated, HasChild, HasNoChild, Unwritten, Permitted, Stops, Enters;
    if components != [] {
      var k, p := WalkStops(s, 0, components, euid);
      hide Walk;
      WalkFrom(s, components, euid, k, p);
      StopsWhere(s, p, components[k..], euid);
      match Walk(s, 0, components, euid) {
        case Resolved(j) => assert LeadsAt(s, components, euid, k, p, j);
        case Missing(_, _) => assert LacksFrom(s, components, euid, k, p, components[k..]);
        case Denied =>
          var c: nat :| HasChild(s, p, components[k], c) && !Permitted(s.inodes[c], euid, "x");
          assert BarredAt(s, components, euid, k, p, c);
        case Broken => assert IntoDataAt(s, components, euid, k, p);
      }
    }
  }

  /** The four outcomes of a lookup: the inode exactly when the path leads to it, -1 exactly when
      a component is missing, -2 exactly when one may not be entered, and an access outside the
      tables exactly when one is looked for in a file with data. */
  lemma LookupExactly(s: State, path: string, euid: int)
    requires Inv(s) && CString(path) && 0 < |s.inodes| <= INODES
    ensures var found, components := GetInode(s, path, false, euid), PathComponents(path);
      && (forall j: nat :: found == Some((s, j as int)) <==> LeadsTo(s, components, euid, j))
      && (found == Some((s, NOT_FOUND)) <==> Lacks(s, components, euid))
      && (found == Some((s, REFUSED)) <==> Barred(s, components, euid))
      && (found == None <==> IntoData(s, components, euid))
  {
    hide Inv, LeadsTo, LacksAt, Barred, IntoData, Walk, PathComponents, CString;
    CStringNonEmpty(path);
    var components := PathComponents(path);
    WalkTells(s, components, euid);
    forall j: nat | LeadsTo(s, components, euid, j)
      ensures Walk(s, 0, components, euid) == Resolved(j)
    {
      LeadsWalk(s, components, euid, j);
    }
    if Lacks(s, components, euid) {
      var l: nat, p: nat :| LacksAt(s, components, euid, l, p);
      LacksWalk(s, components, euid, l, p);
    }
    if Barred(s, components, euid) { BarredWalk(s, components, euid); }
    if IntoData(s, components, euid) { IntoDataWalk(s, components, euid); }
  }

  /** A path that is there is found whether or not the lookup may create. */
  lemma FoundEitherWay(s: State, path: string, create: bool, euid: int, j: nat)
    requires Inv(s) && CString(path) && 0 < |s.inodes| <= INODES && LeadsTo(s, PathComponents(path), euid, j)
    ensures GetInode(s, path, create, euid) == Some((s, j as int))
  {
    hide Inv, LeadsTo, Walk, PathComponents, CString;
    CStringNonEmpty(path);
    LeadsWalk(s, PathComponents(path), euid, j);
  }

  // ----- what is missing is created

  ghost function UnboundSet(inodes: seq<Inode>): set<nat> {
    set j: nat | j < |inodes| && !inodes[j].bound
  }

  /** The name table has a place for each of the names, one after the other. */
  predicate NamesFit(table: seq<char>, names: seq<string>)
    decreases |names|
  {
    names == [] || (!PlaceFor(table, names[0], 0).NoSpace? && NamesFit(Interned(table, names[0]), names[1..]))
  }

  /** There are inodes, blocks and places for the names. */
  ghost predicate RoomForAll(s: State, names: seq<string>) {
    |names| <= |UnboundSet(s.inodes)| && |names| <= |ClearSet(s.bits)| && NamesFit(s.names, names)
  }

  lemma UnboundSetFacts(inodes: seq<Inode>, inode: Inode)
    requires inode.bound
    ensures var j := FirstUnbound(inodes, 0);
      (j == |inodes| <==> UnboundSet(inodes) == {})
      && (j < |inodes| ==> |UnboundSet(inodes[j := inode])| == |UnboundSet(inodes)| - 1)
  {
    var j := FirstUnbound(inodes, 0);
    if j < |inodes| {
      assert j in UnboundSet(inodes);
      assert UnboundSet(inodes[j := inode]) == UnboundSet(inodes) - {j};
    }
  }

  /** One inode more, bound, and nothing else of the inode table. */
  ghost predicate OneMore(s: State, s': State, euid: int, j: nat, kind: FileType) {
    && |s'.inodes| == |s.inodes| && j < |s.inodes| && !s.inodes[j].bound && s'.open == s.open
    && s'.inodes == s.inodes[j := s'.inodes[j]]
    && s'.inodes[j].(addressBlock := 0, nameAddress := 0) == Inode(true, kind, NEW_FILE_ACCESS, euid, 0, 0, 0)
  }

  lemma CreateOneExactly(s: State, parent: nat, name: string, euid: int)
    requires parent < |s.inodes| <= INODES
    ensures var r := CreateOne(s, parent, name, euid);
      (r.Some? <==>
        UnboundSet(s.inodes) != {} && ClearSet(s.bits) != {} && !PlaceFor(s.names, name, 0).NoSpace?)
      && (r.Some? ==>
            var (s', j) := r.value;
            && OneMore(s, s', euid, j, Directory) && s'.names == Interned(s.names, name)
            && |UnboundSet(s'.inodes)| == |UnboundSet(s.inodes)| - 1
            && |ClearSet(s'.bits)| == |ClearSet(s.bits)| - 1)
  {
    hide PlaceFor, Interned, IndexOf, ClearSet, UnboundSet;
    ClearSetFacts(s.bits);
    var r := CreateOne(s, parent, name, euid);
    var inode := if r.Some? then r.value.0.inodes[r.value.1] else Inode(true, Directory, 0, 0, 0, 0, 0);
    UnboundSetFacts(s.inodes, inode);
  }

  lemma NoneMissing(names: seq<string>, inodes: seq<Inode>, bits: seq<bool>)
    requires names != []
    ensures UnboundSet(inodes) == {} ==> |names| > |UnboundSet(inodes)|
    ensures ClearSet(bits) == {} ==> |names| > |ClearSet(bits)|
    ensures UnboundSet(inodes) != {} ==> |UnboundSet(inodes)| >= 1
    ensures ClearSet(bits) != {} ==> |ClearSet(bits)| >= 1
  {
    hide ClearSet, UnboundSet;
  }

  /** Creating the missing components goes through exactly when there is room for all of them. */
  lemma {:induction false} CreateExactly(s: State, parent: nat, components: seq<string>, euid: int)
    requires parent < |s.inodes| <= INODES && components != []
    ensures Create(s, parent, components, euid).Some? <==> RoomForAll(s, components)
    decreases |components|
  {
    hide CreateOne, PlaceFor, Interned, ClearSet, UnboundSet, Finish;
    CreateOneExactly(s, parent, components[0], euid);
    NoneMissing(components, s.inodes, s.bits);
    match CreateOne(s, parent, components[0], euid)
    case None =>
    case Some((s1, j)) =>
      if |components| > 1 {
        CreateExactly(s1, j, components[1..], euid);
      } else {
        assert NamesFit(s1.names, components[1..]);
      }
  }

  /** What creation adds to the inode table: every new inode belongs to its creator with all
      rights, the last one as a file and the others as directories; the old ones stay as they are. */
  ghost predicate AddsInodes(s: State, s': State, euid: int, j: nat, kind: FileType, count: nat) {
    && |s'.inodes| == |s.inodes|
    && j < |s.inodes| && !s.inodes[j].bound && s'.inodes[j].bound
    && (forall i :: 0 <= i < |s.inodes| && s.inodes[i].bound ==> s'.inodes[i] == s.inodes[i])
    && (forall i :: 0 <= i < |s.inodes| && !s.inodes[i].bound && s'.inodes[i].bound ==>
          s'.inodes[i].(addressBlock := 0, nameAddress := 0)
          == Inode(true, if i == j then kind else Directory, NEW_FILE_ACCESS, euid, 0, 0, 0))
    && |UnboundSet(s'.inodes)| == |UnboundSet(s.inodes)| - count
    && |ClearSet(s'.bits)| == |ClearSet(s.bits)| - count
  }

  lemma FinishAdds(s: State, s1: State, euid: int, j: nat)
    requires OneMore(s, s1, euid, j, Directory)
    requires |UnboundSet(s1.inodes)| == |UnboundSet(s.inodes)| - 1 && |ClearSet(s1.bits)| == |ClearSet(s.bits)| - 1
    ensures j < |s1.inodes| && AddsInodes(s, Finish(s1, j), euid, j, NewFile, 1) && Finish(s1, j).open == s.open
  {
    assert UnboundSet(Finish(s1, j).inodes) == UnboundSet(s1.inodes);
  }

  lemma MoreAdds(s: State, s1: State, s': State, euid: int, c: nat, j: nat, count: nat)
    requires OneMore(s, s1, euid, c, Directory) && AddsInodes(s1, s', euid, j, NewFile, count)
    requires |UnboundSet(s1.inodes)| == |UnboundSet(s.inodes)| - 1 && |ClearSet(s1.bits)| == |ClearSet(s.bits)| - 1
    ensures AddsInodes(s, s', euid, j, NewFile, count + 1)
  {
    hide ClearSet, UnboundSet;
  }

  lemma {:induction false} CreateAdds(s: State, parent: nat, components: seq<string>, euid: int, s': State, j: nat)
    requires parent < |s.inodes| <= INODES && components != []
    requires Create(s, parent, components, euid) == Some((s', j))
    ensures AddsInodes(s, s', euid, j, NewFile, |components|) && s'.open == s.open
    decreases |components|
  {
    hide CreateOne, ClearSet, UnboundSet, Finish, AddsInodes, PlaceFor, Interned;
    CreateOneExactly(s, parent, components[0], euid);
    var (s1, c) := CreateOne(s, parent, components[0], euid).value;
    if |components| == 1 {
      FinishAdds(s, s1, euid, c);
    } else {
      CreateAdds(s1, c, components[1..], euid, s', j);
      MoreAdds(s, s1, s', euid, c, j, |components| - 1);
    }
  }

  /** A lookup that may create, where a component is missing: refused exactly when the user may
      not write to what lacks it, and otherwise it goes through exactly when there is room. */
  lemma CreatesExactly(s: State, path: string, euid: int, k: nat, p: nat)
    requires Inv(s) && CString(path) && 0 < |s.inodes| <= INODES && LacksAt(s, PathComponents(path), euid, k, p)
    ensures p < |s.inodes|
    ensures var r, missing := GetInode(s, path, true, euid), PathComponents(path)[k..];
      if Permitted(s.inodes[p], euid, "w")
      then (r.Some? <==> RoomForAll(s, missing))
           && (r.Some? ==> r.value.1 >= 0 && AddsInodes(s, r.value.0, euid, r.value.1, NewFile, |missing|)
                           && r.value.0.open == s.open)
      else r == Some((s, REFUSED))
  {
    hide Inv, Walk, PathComponents, CString, Permitted, AddsInodes, RoomForAll, EntersAt, HasNoChild, Unwritten;
    CStringNonEmpty(path);
    LacksWalk(s, PathComponents(path), euid, k, p);
    var missing := PathComponents(path)[k..];
    CreateExactly(s, p, missing, euid);
    var r := Create(s, p, missing, euid);
    if r.Some? { CreateAdds(s, p, missing, euid, r.value.0, r.value.1); }
  }

  /** A lookup that may create is refused exactly when a component may not be entered, or one is
      missing in something the user may not write to. */
  lemma RefusedExactly(s: State, path: string, euid: int)
    requires Inv(s) && CString(path) && 0 < |s.inodes| <= INODES
    ensures GetInode(s, path, true, euid) == Some((s, REFUSED)) <==>
      || Barred(s, PathComponents(path), euid)
      || exists k: nat, p: nat :: LacksAt(s, PathComponents(path), euid, k, p)
           && p < |s.inodes| && !Permitted(s.inodes[p], euid, "w")
  {
    hide Inv, LeadsTo, Barred, IntoData, Walk, PathComponents, CString, Permitted, Create, EntersAt, HasNoChild,
      Unwritten;
    CStringNonEmpty(path);
    var components := PathComponents(path);
    WalkTells(s, components, euid);
    forall k: nat, p: nat | LacksAt(s, components, euid, k, p)
      ensures p < |s.inodes| && Walk(s, 0, components, euid) == Missing(p, components[k..])
    {
      LacksWalk(s, components, euid, k, p);
    }
    if Barred(s, components, euid) { BarredWalk(s, components, euid); }
  }

  /** What a creating lookup has returned, every later lookup of the path returns again. */
  lemma FoundAgain(s: State, path: string, euid: int, s': State, j: int, create: bool)
    requires Inv(s) && CString(path) && 0 < |s.inodes| <= INODES && !MissesInFile(s, path, euid)
    requires GetInode(s, path, true, euid) == Some((s', j)) && j >= 0
    ensures 0 < |s'.inodes| <= INODES && GetInode(s', path, create, euid) == Some((s', j))
    ensures LeadsTo(s', PathComponents(path), euid, j)
  {
    hide Inv, Extends, Walk, PathComponents, CString, MissesInFile, Create, NewAndEmpty, LeadsTo;
    CStringNonEmpty(path);
    GetInodeReaches(s, path, true, euid, s', j);
    RootBound(s');
    WalkTells(s', PathComponents(path), euid);
  }
}
