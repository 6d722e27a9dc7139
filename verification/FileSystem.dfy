/** The file system as the kernel runs it: tables updated in place, scanning loops, and the
    tokenizer's cursor.  Every method is the function of FsState of the same name. */
module FileSystem {
  import opened Blocks
  import opened Names
  import opened Tokens
  import opened Bitmap
  import opened FsState
  import opened FsOpen
  import opened Options

  class FileSystem {
    var disk: array<Block>
    var bitmap: array<Octet>
    var inodes: array<Inode>
    var names: array<char>
    var image: Image
    var open: seq<Descriptor>

    ghost predicate Valid()
      reads this, disk, bitmap, inodes, names
    {
      && disk.Length == BLOCKS && 8 * bitmap.Length == BLOCKS && inodes.Length == INODES
      && bitmap as object != disk
      && WellFormed(names[..])
      && forall i :: 0 <= i < inodes.Length ==> inodes[i].nameAddress < BLOCK_BYTES
    }

    /** The state the tables stand for. */
    ghost function Value(): State
      reads this, disk, bitmap, inodes, names
    {
      State(disk[..], Bits(bitmap[..]), inodes[..], names[..], image, open)
    }

    // ----- scanning loops

    method ScanDirectory(index: Words, name: string) returns (r: Scan)
      requires Valid() && '\0' !in name
      ensures r == ScanFrom(Value(), index, name, 0)
    {
      var m := 0;
      while m < BLOCK_WORDS
        invariant 0 <= m <= BLOCK_WORDS
        invariant ScanFrom(Value(), index, name, 0) == ScanFrom(Value(), index, name, m)
      {
        if index[m] == 0 {
          return Free(m);
        }
        if index[m] >= inodes.Length {
          return OffEnd;
        }
        var same := SameString(names, inodes[index[m]].nameAddress, name);
        if same {
          return Match(index[m]);
        }
        m := m + 1;
      }
      return OffEnd;
    }

    method FirstUnboundInode() returns (r: nat)
      ensures r == FirstUnbound(inodes[..], 0)
    {
      r := 0;
      while r < inodes.Length && inodes[r].bound
        invariant 0 <= r <= inodes.Length && FirstUnbound(inodes[..], 0) == FirstUnbound(inodes[..], r)
      {
        r := r + 1;
      }
    }

    method FirstZeroWord(index: Words) returns (r: nat)
      ensures r == FirstZero(index, 0)
    {
      r := 0;
      while r < BLOCK_WORDS && index[r] != 0
        invariant 0 <= r <= BLOCK_WORDS && FirstZero(index, 0) == FirstZero(index, r)
      {
        r := r + 1;
      }
    }

    method FindOpenDescriptor(i: nat) returns (d: nat)
      ensures d == FindOpen(open, i, 0)
    {
      d := 0;
      while d < |open| && !(open[d].inode == i && open[d].used)
        invariant 0 <= d <= |open| && FindOpen(open, i, 0) == FindOpen(open, i, d)
      {
        d := d + 1;
      }
    }

    method FirstUnusedDescriptor() returns (d: nat)
      ensures d == FirstUnused(open, 0)
    {
      d := 0;
      while d < |open| && open[d].used
        invariant 0 <= d <= |open| && FirstUnused(open, 0) == FirstUnused(open, d)
      {
        d := d + 1;
      }
    }

    method ReadBlock(address: int) returns (b: Block)
      ensures b == DiskBlock(Value(), address)
    {
      b := if 0 <= BlockNumber(address) < disk.Length then disk[BlockNumber(address)] else ZeroBlock();
    }

    method WriteBlock(address: int, b: Block)
      requires Valid()
      modifies disk
      ensures Valid()
      ensures Value() == old(Value()).(disk := var k := BlockNumber(address);
        if 0 <= k < |old(Value()).disk| then old(Value()).disk[k := b] else old(Value()).disk)
    {
      if 0 <= BlockNumber(address) < disk.Length {
        disk[BlockNumber(address)] := b;
      }
    }

    // ----- creation

    /** The name's offset in the table, which is written out when it grew. */
    method TakeName(name: string) returns (p: Place)
      requires Valid() && IsName(name)
      modifies this`image, names
      ensures Valid() && p == PlaceFor(old(names[..]), name, 0)
      ensures p.NoSpace? ==> Value() == old(Value())
      ensures !p.NoSpace? ==> Value() == old(Value()).(names := Interned(old(names[..]), name),
        image := old(image).(names := if p.Found? then old(image.names) else Interned(old(names[..]), name)))
    {
      InternKeeps(names[..], name);
      p := Intern(names, name);
      if p.Append? {
        image := image.(names := names[..]);
      }
    }

    /** The first free block, now taken, with the bitmap written out. */
    method TakeBlock() returns (address: int)
      requires Valid()
      modifies this`image, bitmap
      ensures Valid()
      ensures var bits := old(Value()).bits; var k := FirstClear(bits, 0);
        if k == |bits| then address == -1 && Value() == old(Value())
        else address == AddressOf(k)
             && Value() == old(Value()).(bits := bits[k := true], image := old(image).(bits := bits[k := true]))
    {
      address := GetFreeBlock(bitmap);
      if address != -1 {
        image := image.(bits := Bits(bitmap[..]));
      }
    }

    /** Inode j goes into the first empty slot of a directory's index, if there is one, and the
        index to the directory's block. */
    method EnterInode(parent: nat, index: Words, j: nat)
      requires Valid() && parent < inodes.Length && j < inodes.Length
      modifies disk
      ensures Valid()
      ensures var s := old(Value()); var m := FirstZero(index, 0);
        var b := BlockNumber(s.inodes[parent].addressBlock);
        Value() == s.(disk := if 0 <= b < |s.disk|
                              then s.disk[b := BytesOf(if m < BLOCK_WORDS then index[m := j] else index)] else s.disk)
    {
      var m := FirstZeroWord(index);
      WriteBlock(inodes[parent].addressBlock, BytesOf(if m < BLOCK_WORDS then index[m := j] else index));
    }

    method SetInode(j: nat, inode: Inode)
      requires Valid() && j < inodes.Length && inode.nameAddress < BLOCK_BYTES
      modifies inodes
      ensures Valid() && Value() == old(Value()).(inodes := old(Value()).inodes[j := inode])
    {
      inodes[j] := inode;
    }

    /** One missing component: inode, name, block, entry. */
    method CreateOneComponent(parent: nat, name: string, euid: int) returns (r: Option<nat>)
      requires Valid() && parent < inodes.Length && IsName(name)
      modifies this`image, disk, bitmap, inodes, names
      ensures Valid()
      ensures match CreateOne(old(Value()), parent, name, euid)
              case None => r == None
              case Some((s1, j)) => r == Some(j) && j < inodes.Length && Value() == s1
    {
      ghost var s := Value();
      hide IndexOf, PlaceFor, Interned, BytesOf, WordsOf, BlockNumber;
      var index := DirectoryIndex(parent);
      var j := FirstUnboundInode();
      if j == inodes.Length {
        return None;
      }
      var place := TakeName(name);
      if place.NoSpace? {
        return None;
      }
      ghost var s1 := Value();
      var address := TakeBlock();
      if address == -1 {
        return None;
      }
      ghost var s2 := Value();
      SetInode(j, Inode(true, Directory, NEW_FILE_ACCESS, euid, 0, address, place.at));
      ghost var s3 := Value();
      EnterInode(parent, index, j);
      r := Some(j);
      AddedInStages(s, s1, s2, s3, Value(), parent, j, name, euid);
    }

    method DirectoryIndex(i: nat) returns (index: Words)
      requires Valid() && i < inodes.Length
      ensures index == IndexOf(Value(), i)
    {
      var content := ReadBlock(inodes[i].addressBlock);
      index := WordsOf(content);
    }

    /** The last component made becomes a new file and the inode table is written out. */
    method FinishFile(j: nat)
      requires Valid() && j < inodes.Length
      modifies this`image, inodes
      ensures Valid() && Value() == Finish(old(Value()), j)
    {
      inodes[j] := inodes[j].(kind := NewFile);
      image := image.(inodes := inodes[..]);
    }

    /** get_inode_index_of: the first loop walks what exists, the second creates the rest. */
    method GetInodeIndexOf(path: string, create: bool, euid: int) returns (r: Option<int>)
      requires Valid() && CString(path)
      modifies this`image, disk, bitmap, inodes, names
      ensures Valid()
      ensures match GetInode(old(Value()), path, create, euid)
              case None => r == None
              case Some((s1, i)) => r == Some(i) && Value() == s1
    {
      hide Create, IndexOf, Drain, AllNames, Permitted;
      if path == "/" {
        assert Walk(Value(), 0, [], euid) == Resolved(0);
        return Some(0);
      }
      hide GetInode, Walk, WellFormed;
      var p := if path[0] == '/' then path[1..] else path;
      var t := new Tokenizer(if p[|p| - 1] == '/' then p[..|p| - 1] else p);
      var more, current := t.Token("/");
      PathNames(path);
      r := WalkAndCreate(t, more, current, create, euid, path);
    }

    method CreateRest(t: Tokenizer, parent: nat, name: string, moreToCome: bool, second: string, euid: int)
      returns (r: Option<int>)
      requires Valid() && t.Valid() && t.buffer != names && parent < inodes.Length
      requires AllNames([name] + Pending(moreToCome, second, t.Rest(), "/"))
      modifies this`image, disk, bitmap, inodes, names, t`cursor, t.buffer
      ensures Valid()
      ensures match Create(old(Value()), parent, [name] + Pending(moreToCome, second, old(t.Rest()), "/"), euid)
              case None => r == None
              case Some((s1, j)) => r == Some(j as int) && Value() == s1
    {
      hide CreateOne, Finish, Drain;
      var i: nat, current, nextMore, next := parent, name, moreToCome, second;
      while true
        invariant Valid() && t.Valid() && t.buffer == old(t.buffer) && i < inodes.Length
        invariant AllNames([current] + Pending(nextMore, next, t.Rest(), "/"))
        invariant Create(old(Value()), parent, [name] + Pending(moreToCome, second, old(t.Rest()), "/"), euid)
          == Create(Value(), i, [current] + Pending(nextMore, next, t.Rest(), "/"), euid)
        decreases nextMore, |t.Rest()|
      {
        ghost var rest := Pending(nextMore, next, t.Rest(), "/");
        NamesSplit(current, rest);
        var c := CreateOneComponent(i, current, euid);
        if c == None {
          return None;
        }
        assert ([current] + rest)[1..] == rest;
        i := c.value;
        if !nextMore {
          FinishFile(i);
          return Some(i);
        }
        current := next;
        nextMore, next := t.Token("/");
      }
    }

    method WalkAndCreate(t: Tokenizer, firstMore: bool, first: string, create: bool, euid: int, ghost path: string)
      returns (r: Option<int>)
      requires Valid() && t.Valid() && t.buffer != names && CString(path)
      requires Pending(firstMore, first, t.Rest(), "/") == PathComponents(path) && AllNames(PathComponents(path))
      modifies this`image, disk, bitmap, inodes, names, t`cursor, t.buffer
      ensures Valid()
      ensures match GetInode(old(Value()), path, create, euid)
              case None => r == None
              case Some((s1, i)) => r == Some(i) && Value() == s1
    {
      hide IndexOf, Permitted, Create, CreateOne, Finish, PathComponents, Drain;
      ghost var s := Value();
      ghost var components := PathComponents(path);
      var i, more, current := 0, firstMore, first;
      var nextMore, next, missing := false, "", false;
      while more && !missing
        invariant Valid() && t.Valid() && t.buffer == old(t.buffer) && Value() == s && i < inodes.Length
        invariant !missing ==> Walk(s, 0, components, euid) == Walk(s, i, Pending(more, current, t.Rest(), "/"), euid)
        invariant missing ==> more
        invariant missing ==>
          Walk(s, 0, components, euid) == Missing(i, [current] + Pending(nextMore, next, t.Rest(), "/"))
        invariant !missing ==> AllNames(Pending(more, current, t.Rest(), "/"))
        invariant missing ==> AllNames([current] + Pending(nextMore, next, t.Rest(), "/"))
        decreases !missing, if more then |t.Rest()| + 1 else 0
      {
        nextMore, next := t.Token("/");
        NamesSplit(current, Pending(nextMore, next, t.Rest(), "/"));
        var index := DirectoryIndex(i);
        var scan := ScanDirectory(index, current);
        match scan {
          case OffEnd => return None;
          case Free(_) => missing := true;
          case Match(j) =>
            if nextMore && !Permitted(inodes[j], euid, "x") {
              return Some(REFUSED);
            }
            i, more, current := j, nextMore, next;
        }
      }
      if !missing {
        return Some(i);
      }
      if !create {
        return Some(NOT_FOUND);
      }
      if !Permitted(inodes[i], euid, "w") {
        return Some(REFUSED);
      }
      r := CreateRest(t, i, current, nextMore, next, euid);
    }
  
    // ----- the open-file table

    /** open, which creates what is missing of the path. */
    method OpenFile(path: string, mode: string, euid: int) returns (r: Option<int>)
      requires Valid() && CString(path)
      modifies this`image, this`open, disk, bitmap, inodes, names
      ensures Valid()
      ensures match Open(old(Value()), path, mode, euid)
              case None => r == None
              case Some((s1, d)) => r == Some(d) && Value() == s1
    {
      hide GetInode, Permitted, IndexOf;
      r := GetInodeIndexOf(path, true, euid);
      if r == None || r.value < 0 || r.value >= inodes.Length {
        return None;
      }
      var i := r.value;
      if inodes[i].kind == NewFile {
        SetInode(i, inodes[i].(kind := RegularFile));
      }
      if !Permitted(inodes[i], euid, mode) || inodes[i].kind != RegularFile {
        return Some(-1);
      }
      var d := AttachDescriptor(i);
      r := Some(d);
    }

    method AttachDescriptor(i: nat) returns (d: nat)
      requires Valid() && i < inodes.Length
      modifies this`open
      ensures Valid() && Attach(old(Value()), i) == (Value(), d)
    {
      hide IndexOf;
      d := FindOpenDescriptor(i);
      if d < |open| {
        return;
      }
      d := FirstUnusedDescriptor();
      var address := DirectoryIndex(i);
      var file := Descriptor(true, i, address, map[], 0);
      open := if d < |open| then open[d := file] else open + [file];
    }

    method CloseFile(d: int) returns (ok: bool)
      requires Valid()
      modifies this`open
      ensures Valid() && ok == Close(old(Value()), d).Some?
      ensures ok ==> Value() == Close(old(Value()), d).value
    {
      if d < 0 || d >= |open| {
        return true;
      }
      ok := open[d].used;
      if ok {
        open := open[d := open[d].(used := false)];
      }
    }

    method SeekFile(d: int, offset: nat) returns (ok: bool)
      requires Valid()
      modifies this`open
      ensures Valid() && ok == Seek(old(Value()), d, offset).Some?
      ensures ok ==> Value() == Seek(old(Value()), d, offset).value
    {
      if d < 0 || d >= |open| {
        return true;
      }
      ok := open[d].used;
      if ok {
        open := open[d := open[d].(offset := offset)];
      }
    }

    // ----- data blocks

    method LoadBlock(d: nat, m: nat)
      requires Valid() && d < |open| && m < BLOCK_WORDS
      modifies this`open
      ensures Valid() && Value() == Load(old(Value()), d, m)
    {
      var data := ReadBlock(open[d].address[m]);
      open := open[d := open[d].(cache := open[d].cache[m := data])];
    }

    /** Block m of the file in the cache, allocated first when it has no address. */
    method EnsureDataBlock(d: nat, m: nat) returns (ok: bool)
      requires Valid() && d < |open| && open[d].inode < inodes.Length
      modifies this`image, this`open, disk, bitmap
      ensures Valid() && ok == EnsureBlock(old(Value()), d, m).Some?
      ensures ok ==> Value() == EnsureBlock(old(Value()), d, m).value
    {
      hide BlockNumber, BytesOf;
      if m in open[d].cache {
        return true;
      }
      if m >= BLOCK_WORDS {
        return false;
      }
      if open[d].address[m] == 0 {
        var address := TakeBlock();
        if address == -1 {
          return false;
        }
        open := open[d := open[d].(address := open[d].address[m := address])];
        WriteBlock(inodes[open[d].inode].addressBlock, BytesOf(open[d].address));
      }
      LoadBlock(d, m);
      return true;
    }

    method StoreBytes(d: nat, m: nat, at: nat, bytes: seq<Byte>)
      requires Valid() && d < |open| && m in open[d].cache && m < BLOCK_WORDS && at + |bytes| <= BLOCK_BYTES
      modifies this`open, disk
      ensures Valid() && Value() == Store(old(Value()), d, m, at, bytes)
    {
      hide BlockNumber;
      var data: Block := Splice(open[d].cache[m], at, bytes);
      WriteBlock(open[d].address[m], data);
      open := open[d := open[d].(cache := open[d].cache[m := data])];
    }
  
    method SetSize(i: nat, size: nat)
      requires Valid() && i < inodes.Length
      modifies this`image, inodes
      ensures Valid() && Value() == Resized(old(Value()), i, size)
    {
      inodes[i] := inodes[i].(size := size);
      image := image.(inodes := inodes[..]);
    }

    method WriteRoundsLoop(d: nat, totalRounds: nat, total: nat, start: nat, source: seq<Byte>, eof: bool)
      returns (ok: bool)
      requires Valid() && d < |open| && open[d].inode < inodes.Length
      modifies this`image, this`open, disk, bitmap
      ensures Valid()
      ensures match WriteRounds(old(Value()), d, 0, totalRounds, total, start, source, 0, eof)
              case None => !ok
              case Some(s1) => ok && Value() == s1
    {
      hide EnsureBlock, Store, Piece;
      var m: nat, rounds: nat, count: nat, at: nat, from: nat := 0, totalRounds, total, start, 0;
      while rounds > 0
        invariant Valid() && d < |open| && open[d].inode < inodes.Length
        invariant WriteRounds(old(Value()), d, 0, totalRounds, total, start, source, 0, eof)
          == WriteRounds(Value(), d, m, rounds, count, at, source, from, eof)
      {
        var found := EnsureDataBlock(d, m);
        if !found {
          return false;
        }
        var piece := Piece(source, from, count, eof);
        if piece == None || m >= BLOCK_WORDS || at + |piece.value| > BLOCK_BYTES {
          return false;
        }
        StoreFrame(Value(), d, m, at, piece.value);
        StoreBytes(d, m, at, piece.value);
        m, rounds, count, at, from := m + 1, rounds - 1, count - |piece.value|, 0, from + BLOCK_BYTES;
      }
      return true;
    }

    /** write to a file. */
    method WriteFile(d: int, buff: seq<Byte>) returns (r: Option<int>)
      requires Valid()
      modifies this`image, this`open, disk, bitmap, inodes
      ensures Valid()
      ensures match Write(old(Value()), d, buff)
              case None => r == None
              case Some((s1, n)) => r == Some(n) && Value() == s1
    {
      hide WriteRounds;
      if d < 0 || d >= |open| {
        return Some(0);
      }
      if !open[d].used || open[d].inode >= inodes.Length {
        return None;
      }
      var offset, i := open[d].offset, open[d].inode;
      var rounds := Rounds(offset % BLOCK_BYTES, |buff|);
      var source, eof := buff, false;
      if offset + |buff| >= inodes[i].size {
        source := buff + [0];
        SetSize(i, offset + |buff| + 1);
        eof := true;
      }
      var ok := WriteRoundsLoop(d, rounds, |source|, offset % BLOCK_BYTES, source, eof);
      if !ok || d >= |open| {
        return None;
      }
      open := open[d := open[d].(offset := open[d].offset + |buff|)];
      return Some(|buff|);
    }

    /** memcpy into the caller's buffer. */
    method CopyOut(buff: array<Byte>, from: nat, bytes: seq<Byte>)
      requires from + |bytes| <= buff.Length
      modifies buff
      ensures buff[..] == Splice(old(buff[..]), from, bytes)
    {
      ghost var before := buff[..];
      var k := 0;
      while k < |bytes|
        invariant 0 <= k <= |bytes|
        invariant forall j :: 0 <= j < buff.Length ==>
          buff[j] == if from <= j < from + k then bytes[j - from] else before[j]
      {
        buff[from + k] := bytes[k];
        k := k + 1;
      }
      assert buff[..] == Splice(before, from, bytes);
    }

    method FetchDataBlock(d: nat, m: nat) returns (ok: bool)
      requires Valid() && d < |open|
      modifies this`open
      ensures Valid() && ok == FetchBlock(old(Value()), d, m).Some?
      ensures ok ==> Value() == FetchBlock(old(Value()), d, m).value
    {
      if m in open[d].cache {
        return true;
      }
      if m >= BLOCK_WORDS || open[d].address[m] == 0 {
        return false;
      }
      LoadBlock(d, m);
      return true;
    }

    method ReadRoundsLoop(d: nat, totalRounds: nat, total: nat, start: nat, buff: array<Byte>) returns (ok: bool)
      requires Valid() && d < |open|
      modifies this`open, buff
      ensures Valid()
      ensures match ReadRounds(old(Value()), d, 0, totalRounds, total, start, old(buff[..]), 0)
              case None => !ok
              case Some((s1, b)) => ok && Value() == s1 && buff[..] == b
    {
      hide Splice, ChunkLength, FetchBlock;
      var m: nat, rounds: nat, count: nat, at: nat, from: nat := 0, totalRounds, total, start, 0;
      while rounds > 0
        invariant Valid() && d < |open|
        invariant ReadRounds(old(Value()), d, 0, totalRounds, total, start, old(buff[..]), 0)
          == ReadRounds(Value(), d, m, rounds, count, at, buff[..], from)
      {
        var found := FetchDataBlock(d, m);
        if !found {
          return false;
        }
        var n := ChunkLength(count);
        if at + n > BLOCK_BYTES || (n > 0 && from + n > buff.Length) {
          return false;
        }
        if n > 0 {
          CopyOut(buff, from, open[d].cache[m][at..at + n]);
        }
        m, rounds, count, at, from := m + 1, rounds - 1, count - n, 0, from + BLOCK_BYTES;
      }
      return true;
    }

    /** read from a file. */
    method ReadFile(d: int, buff: array<Byte>, count: nat) returns (r: Option<int>)
      requires Valid()
      modifies this`open, buff
      ensures Valid()
      ensures match Read(old(Value()), d, old(buff[..]), count)
              case None => r == None
              case Some((s1, b, n)) => r == Some(n) && Value() == s1 && buff[..] == b
    {
      hide ReadRounds;
      if d < 0 || d >= |open| {
        return Some(0);
      }
      if !open[d].used || open[d].inode >= inodes.Length {
        return None;
      }
      var offset := open[d].offset;
      var n := Clamped(offset, count, inodes[open[d].inode].size);
      if n < 0 {
        return None;
      }
      var at := offset % BLOCK_BYTES;
      var ok := ReadRoundsLoop(d, Rounds(at, n), n, at, buff);
      if !ok || d >= |open| {
        return None;
      }
      open := open[d := open[d].(offset := open[d].offset + n)];
      return Some(n);
    }
  }

  lemma StoreFrame(s: State, d: nat, m: nat, at: nat, bytes: seq<Byte>)
    requires d < |s.open| && m in s.open[d].cache && m < BLOCK_WORDS && at + |bytes| <= BLOCK_BYTES
    ensures var t := Store(s, d, m, at, bytes);
      |t.open| == |s.open| && t.open[d].inode == s.open[d].inode && t.inodes == s.inodes
  {
  }

  lemma AddedInStages(s: State, s1: State, s2: State, s3: State, s4: State, parent: nat, j: nat,
                       name: string, euid: int)
    requires parent < |s.inodes| && j < |s.inodes| && j < 0x1_0000_0000
    requires var p := PlaceFor(s.names, name, 0); !p.NoSpace? && s1 == s.(names := Interned(s.names, name),
      image := s.image.(names := if p.Found? then s.image.names else Interned(s.names, name)))
    requires FirstClear(s1.bits, 0) < |s1.bits|
    requires var bits := s1.bits[FirstClear(s1.bits, 0) := true];
      s2 == s1.(bits := bits, image := s1.image.(bits := bits))
    requires s3 == s2.(inodes := s2.inodes[j := Inode(true, Directory, NEW_FILE_ACCESS, euid, 0,
      AddressOf(FirstClear(s.bits, 0)), PlaceFor(s.names, name, 0).at)])
    requires var index := IndexOf(s, parent); var m := FirstZero(index, 0);
      var b := BlockNumber(s3.inodes[parent].addressBlock);
      s4 == s3.(disk := if 0 <= b < |s3.disk|
                        then s3.disk[b := BytesOf(if m < BLOCK_WORDS then index[m := j] else index)] else s3.disk)
    ensures s4 == Added(s, parent, j, FirstClear(s.bits, 0), name, euid)
  {
    hide IndexOf, PlaceFor, Interned, BytesOf, BlockNumber;
  }

  lemma NamesSplit(name: string, rest: seq<string>)
    ensures AllNames([name] + rest) ==> IsName(name) && AllNames(rest)
  {
    if AllNames([name] + rest) {
      assert ([name] + rest)[0] == name;
      assert forall i :: 0 <= i < |rest| ==> rest[i] == ([name] + rest)[i + 1];
    }
  }

  lemma InternKeeps(names: seq<char>, name: string)
    requires WellFormed(names) && IsName(name)
    ensures !PlaceFor(names, name, 0).NoSpace? ==> WellFormed(Interned(names, name))
  {
    if !PlaceFor(names, name, 0).NoSpace? {
      InternKeepsNames(names, name);
    }
  }
}
