/** The contents of files: what write and read do to the byte sequence a file holds, and that
    they leave every other file and the directory tree alone. */
module FsContent {
  import opened Blocks
  import opened Bitmap
  import opened FsState
  import opened FsInvariant
  import opened FsData
  import opened Transfer
  import opened Options

  function FlatByte(s: State, i: nat, p: nat): Byte
    requires i < |s.inodes| && p < FILE_BYTES
  {
    var a := IndexOf(s, i)[p / BLOCK_BYTES];
    if a == 0 then 0 else DiskBlock(s, a)[p % BLOCK_BYTES]
  }

  /** All the bytes a file can hold, a block without an address counting as zero. */
  function FlatOf(s: State, i: nat): Flat
    requires i < |s.inodes|
  {
    seq(16777216, p requires 0 <= p < 16777216 => FlatByte(s, i, p))
  }

  /** The content of a file: its size counts the end marker. */
  function Content(s: State, i: nat): seq<Byte>
    requires i < |s.inodes|
  {
    var size := s.inodes[i].size;
    if size == 0 then [] else if size <= FILE_BYTES then FlatOf(s, i)[..size - 1] else FlatOf(s, i)
  }

  ghost predicate IsFile(s: State, i: nat) {
    i < |s.inodes| && s.inodes[i].bound && s.inodes[i].kind != Directory
  }

  lemma SameFlat(s: State, s': State, i: nat)
    requires i < |s.inodes| && i < |s'.inodes| && IndexOf(s', i) == IndexOf(s, i)
    requires forall m :: 0 <= m < BLOCK_WORDS && IndexOf(s, i)[m] != 0 ==>
      DiskBlock(s', IndexOf(s, i)[m]) == DiskBlock(s, IndexOf(s, i)[m])
    ensures FlatOf(s', i) == FlatOf(s, i)
  {
    forall p: nat | p < FILE_BYTES
      ensures FlatByte(s', i, p) == FlatByte(s, i, p)
    {
    }
  }

  // ----- allocating a block changes no byte

  lemma SameDiskFlat(s: State, s': State, j: nat)
    requires s'.disk == s.disk && j < |s.inodes| && j < |s'.inodes|
    requires s'.inodes[j].addressBlock == s.inodes[j].addressBlock
    ensures FlatOf(s', j) == FlatOf(s, j)
  {
    SameFlat(s, s', j);
  }

  lemma LinkedFlat(s: State, s': State, i: nat, m: nat, k: nat, j: nat)
    requires Linked(s, s', i, m, k) && |s.disk| == |s'.disk| == BLOCKS && Allocated(s) && SingleOwner(s)
    requires IndexOf(s, i)[m] == 0 && METADATA_BLOCKS <= k && s.disk[k] == ZeroBlock()
    requires var b := BlockNumber(s.inodes[i].addressBlock);
      b < |s.disk| && b != k && forall n :: 0 <= n < |s.disk| && n != b ==> s'.disk[n] == s.disk[n]
    requires IsFile(s, j)
    ensures FlatOf(s', j) == FlatOf(s, j)
  {
    NumberOfAddress(k);
    forall n | 0 <= n < BLOCK_WORDS && IndexOf(s, j)[n] != 0
      ensures DiskBlock(s', IndexOf(s, j)[n]) == DiskBlock(s, IndexOf(s, j)[n])
    {
      DataBlockApart(s, j, n, i);
    }
    if j != i {
      SameFlat(s, s', j);
    } else {
      forall p: nat | p < FILE_BYTES
        ensures FlatByte(s', i, p) == FlatByte(s, i, p)
      {
      }
    }
  }

  // ----- writing a block

  lemma WrittenFlatElsewhere(s: State, s': State, i: nat, m: nat, data: Block, j: nat)
    requires BlockWritten(s, s', i, m, data) && |s.disk| == BLOCKS && Allocated(s) && SingleOwner(s)
    requires IsFile(s, j) && j != i
    ensures FlatOf(s', j) == FlatOf(s, j)
  {
    WrittenIndex(s, s', i, m, data, j);
    forall n | 0 <= n < BLOCK_WORDS && IndexOf(s, j)[n] != 0
      ensures DiskBlock(s', IndexOf(s, j)[n]) == DiskBlock(s, IndexOf(s, j)[n])
    {
      DataBlocksDiffer(s, i, m, j, n);
    }
    SameFlat(s, s', j);
  }

  lemma WrittenByte(s: State, s': State, i: nat, m: nat, data: Block, p: nat)
    requires BlockWritten(s, s', i, m, data) && |s.disk| == BLOCKS && Allocated(s) && SingleOwner(s)
    requires IndexOf(s', i) == IndexOf(s, i) && p < FILE_BYTES
    ensures FlatByte(s', i, p) == if p / BLOCK_BYTES == m then data[p % BLOCK_BYTES] else FlatByte(s, i, p)
  {
    var n := p / BLOCK_BYTES;
    if n != m && IndexOf(s, i)[n] != 0 {
      DataBlocksDiffer(s, i, m, i, n);
    }
  }

  lemma InBlock(p: nat, m: nat)
    ensures p / BLOCK_BYTES == m <==> BLOCK_BYTES * m <= p < BLOCK_BYTES * m + BLOCK_BYTES
    ensures p / BLOCK_BYTES == m ==> p % BLOCK_BYTES == p - BLOCK_BYTES * m
  {
  }

  lemma SplicedByte(file: Flat, m: nat, at: nat, bytes: seq<Byte>, block: Block, p: nat)
    requires at + |bytes| <= BLOCK_BYTES && m < BLOCK_WORDS && p < FILE_BYTES
    requires p / BLOCK_BYTES == m ==> file[p] == block[p % BLOCK_BYTES]
    ensures Splice(file, BLOCK_BYTES * m + at, bytes)[p]
         == if p / BLOCK_BYTES == m then Splice(block, at, bytes)[p % BLOCK_BYTES] else file[p]
  {
    InBlock(p, m);
  }

  lemma WrittenFlat(s: State, s': State, i: nat, m: nat, at: nat, bytes: seq<Byte>, data: Block)
    requires BlockWritten(s, s', i, m, data) && |s.disk| == BLOCKS && Allocated(s) && SingleOwner(s)
    requires at + |bytes| <= BLOCK_BYTES && data == Splice(DiskBlock(s, IndexOf(s, i)[m]), at, bytes)
    ensures FlatOf(s', i) == Splice(FlatOf(s, i), BLOCK_BYTES * m + at, bytes)
  {
    WrittenIndex(s, s', i, m, data, i);
    var block := DiskBlock(s, IndexOf(s, i)[m]);
    forall p: nat | p < FILE_BYTES
      ensures FlatOf(s', i)[p] == Splice(FlatOf(s, i), BLOCK_BYTES * m + at, bytes)[p]
    {
      WrittenByte(s, s', i, m, data, p);
      assert FlatOf(s, i)[p] == FlatByte(s, i, p) && FlatOf(s', i)[p] == FlatByte(s', i, p);
      assert p / BLOCK_BYTES == m ==> FlatByte(s, i, p) == block[p % BLOCK_BYTES];
      hide *;
      SplicedByte(FlatOf(s, i), m, at, bytes, block, p);
    }
  }

  // ----- rounds

  /** Tables and descriptors stay as they are, but for caches, addresses and the bitmap, which
      agrees with its image if it did. */
  ghost predicate SameTables(s: State, s': State) {
    && s'.inodes == s.inodes && s'.names == s.names && |s'.open| == |s.open| && |s'.bits| == |s.bits|
    && s'.image.inodes == s.image.inodes && s'.image.names == s.image.names
    && (s.image.bits == s.bits ==> s'.image.bits == s'.bits)
    && forall d :: 0 <= d < |s.open| ==>
         s'.open[d].used == s.open[d].used
         && s'.open[d].inode == s.open[d].inode && s'.open[d].offset == s.open[d].offset
  }

  lemma EnsureBlockTables(s: State, d: nat, m: nat, s': State)
    requires d < |s.open| && s.open[d].inode < |s.inodes| && |s.bits| <= BLOCKS && EnsureBlock(s, d, m) == Some(s')
    ensures SameTables(s, s')
  {
  }

  lemma StoreKeepsTables(s: State, d: nat, m: nat, at: nat, bytes: seq<Byte>)
    requires d < |s.open| && m in s.open[d].cache && m < BLOCK_WORDS && at + |bytes| <= BLOCK_BYTES
    ensures SameTables(s, Store(s, d, m, at, bytes))
  {
  }

  lemma LoadSame(s: State, d: nat, m: nat, j: nat, n: nat)
    requires d < |s.open| && m < BLOCK_WORDS
    ensures Entry(Load(s, d, m), j, n) == Entry(s, j, n)
    ensures j < |s.inodes| ==> FlatOf(Load(s, d, m), j) == FlatOf(s, j)
  {
    if j < |s.inodes| { SameFlat(s, Load(s, d, m), j); }
  }

  lemma AssignSame(s: State, d: nat, m: nat, k: nat, j: nat, n: nat)
    requires CanAssign(s, d, m, k)
    ensures Entry(Assign(s, d, m, k), j, n) == Entry(s, j, n)
    ensures IsFile(s, j) ==> FlatOf(Assign(s, d, m, k), j) == FlatOf(s, j)
  {
    var s', i := Assign(s, d, m, k), s.open[d].inode;
    AssignTables(s, d, m, k);
    AssignLinks(s, s', i, m, k);
    LinkedEntry(s, s', i, m, k, j, n);
    if IsFile(s, j) { LinkedFlat(s, s', i, m, k, j); }
  }

  /** Getting a block into the cache changes no entry and no file. */
  lemma EnsureBlockSame(s: State, d: nat, m: nat, s': State, j: nat, n: nat)
    requires Inv(s) && IsOpen(s, d) && s.open[d].inode < |s.inodes| && EnsureBlock(s, d, m) == Some(s')
    ensures Entry(s', j, n) == Entry(s, j, n)
    ensures IsFile(s, j) ==> |s'.inodes| == |s.inodes| && FlatOf(s', j) == FlatOf(s, j)
  {
    if m !in s.open[d].cache {
      if s.open[d].address[m] != 0 {
        LoadSame(s, d, m, j, n);
      } else {
        var k := FirstClear(s.bits, 0);
        FreeBlockFacts(s);
        AssignSame(s, d, m, k, j, n);
        LoadSame(Assign(s, d, m, k), d, m, j, n);
      }
    }
  }

  lemma StoreSame(s: State, d: nat, m: nat, at: nat, bytes: seq<Byte>, j: nat, n: nat)
    requires Inv(s) && IsOpen(s, d) && m in s.open[d].cache && m < BLOCK_WORDS && at + |bytes| <= BLOCK_BYTES
    ensures Entry(Store(s, d, m, at, bytes), j, n) == Entry(s, j, n)
    ensures IsFile(s, j) && j != s.open[d].inode ==> FlatOf(Store(s, d, m, at, bytes), j) == FlatOf(s, j)
  {
    var s', i := Store(s, d, m, at, bytes), s.open[d].inode;
    var data: Block := Splice(s.open[d].cache[m], at, bytes);
    StoreTables(s, d, m, at, bytes);
    if j < |s.inodes| && s.inodes[j].bound { WrittenIndex(s, s', i, m, data, j); }
    if IsFile(s, j) && j != i { WrittenFlatElsewhere(s, s', i, m, data, j); }
  }

  lemma StoreFlat(s: State, d: nat, m: nat, at: nat, bytes: seq<Byte>)
    requires Inv(s) && IsOpen(s, d) && m in s.open[d].cache && m < BLOCK_WORDS && at + |bytes| <= BLOCK_BYTES
    ensures s.open[d].inode < |s.inodes|
    ensures FlatOf(Store(s, d, m, at, bytes), s.open[d].inode)
         == Splice(FlatOf(s, s.open[d].inode), BLOCK_BYTES * m + at, bytes)
  {
    StoreTables(s, d, m, at, bytes);
    WrittenFlat(s, Store(s, d, m, at, bytes), s.open[d].inode, m, at, bytes, Splice(s.open[d].cache[m], at, bytes));
  }

  /** One round of write: the state after it, and that it keeps what it should. */
  lemma OneWriteRound(s: State, d: nat, m: nat, rounds: nat, count: nat, at: nat,
                      source: seq<Byte>, from: nat, eof: bool) returns (s1: State, bytes: seq<Byte>, s2: State)
    requires Inv(s) && IsOpen(s, d) && s.open[d].inode < |s.inodes| && rounds > 0
    requires WriteRounds(s, d, m, rounds, count, at, source, from, eof).Some?
    ensures Piece(source, from, count, eof) == Some(bytes) && |bytes| <= count
    ensures m < BLOCK_WORDS && at + |bytes| <= BLOCK_BYTES
    ensures |s.bits| <= BLOCKS && EnsureBlock(s, d, m) == Some(s1) && Inv(s1) && IsOpen(s1, d)
    ensures m in s1.open[d].cache && s1.inodes == s.inodes && s1.open[d].inode == s.open[d].inode
    ensures s2 == Store(s1, d, m, at, bytes)
    ensures Inv(s2) && IsOpen(s2, d) && s2.open[d].inode == s.open[d].inode && s2.inodes == s.inodes
    ensures WriteRounds(s, d, m, rounds, count, at, source, from, eof)
         == WriteRounds(s2, d, m + 1, rounds - 1, count - |bytes|, 0, source, from + BLOCK_BYTES, eof)
  {
    s1 := EnsureBlock(s, d, m).value;
    bytes := Piece(source, from, count, eof).value;
    s2 := Store(s1, d, m, at, bytes);
    EnsureBlockKeepsInv(s, d, m);
    StoreKeepsInv(s1, d, m, at, bytes);
  }

  lemma {:induction false} WriteRoundsKeepInv(s: State, d: nat, m: nat, rounds: nat, count: nat, at: nat,
                                              source: seq<Byte>, from: nat, eof: bool, s': State)
    requires Inv(s) && IsOpen(s, d) && s.open[d].inode < |s.inodes|
    requires WriteRounds(s, d, m, rounds, count, at, source, from, eof) == Some(s')
    ensures Inv(s') && IsOpen(s', d)
    decreases rounds
  {
    hide Inv, EnsureBlock, Store, Piece;
    if rounds > 0 {
      var s1, bytes, s2 := OneWriteRound(s, d, m, rounds, count, at, source, from, eof);
      WriteRoundsKeepInv(s2, d, m + 1, rounds - 1, count - |bytes|, 0, source, from + BLOCK_BYTES, eof, s');
    }
  }

  lemma {:induction false} WriteRoundsTables(s: State, d: nat, m: nat, rounds: nat, count: nat, at: nat,
                                             source: seq<Byte>, from: nat, eof: bool, s': State)
    requires d < |s.open| && s.open[d].inode < |s.inodes| && |s.bits| <= BLOCKS
    requires WriteRounds(s, d, m, rounds, count, at, source, from, eof) == Some(s')
    ensures SameTables(s, s')
    decreases rounds
  {
    hide EnsureBlock, Store, Piece;
    if rounds > 0 {
      var s1, bytes := EnsureBlock(s, d, m).value, Piece(source, from, count, eof).value;
      var s2 := Store(s1, d, m, at, bytes);
      EnsureBlockTables(s, d, m, s1);
      StoreKeepsTables(s1, d, m, at, bytes);
      WriteRoundsTables(s2, d, m + 1, rounds - 1, count - |bytes|, 0, source, from + BLOCK_BYTES, eof, s');
    }
  }

  /** Writing to one file changes no directory entry and no byte of any other file. */
  lemma {:induction false} WriteRoundsElsewhere(s: State, d: nat, m: nat, rounds: nat, count: nat, at: nat,
                                                source: seq<Byte>, from: nat, eof: bool, s': State, j: nat, n: nat)
    requires Inv(s) && IsOpen(s, d) && s.open[d].inode < |s.inodes|
    requires WriteRounds(s, d, m, rounds, count, at, source, from, eof) == Some(s')
    ensures s'.inodes == s.inodes && Entry(s', j, n) == Entry(s, j, n)
    ensures IsFile(s, j) && j != s.open[d].inode ==> FlatOf(s', j) == FlatOf(s, j)
    decreases rounds
  {
    hide Inv, EnsureBlock, Store, Piece, Entry, FlatOf;
    if rounds > 0 {
      var s1, bytes, s2 := OneWriteRound(s, d, m, rounds, count, at, source, from, eof);
      EnsureBlockSame(s, d, m, s1, j, n);
      StoreSame(s1, d, m, at, bytes, j, n);
      WriteRoundsElsewhere(s2, d, m + 1, rounds - 1, count - |bytes|, 0, source, from + BLOCK_BYTES, eof, s', j, n);
    }
  }

  /** On the file itself the rounds act as the flat transfer does. */
  lemma {:induction false} WriteRoundsFlat(s: State, d: nat, m: nat, rounds: nat, count: nat, at: nat,
                                           source: seq<Byte>, from: nat, eof: bool, s': State)
    requires Inv(s) && IsOpen(s, d) && s.open[d].inode < |s.inodes|
    requires WriteRounds(s, d, m, rounds, count, at, source, from, eof) == Some(s')
    ensures s'.inodes == s.inodes
    ensures WriteFlat(FlatOf(s, s.open[d].inode), m, rounds, count, at, source, from, eof)
         == Some(FlatOf(s', s.open[d].inode))
    decreases rounds
  {
    hide Inv, EnsureBlock, Store, FlatOf, Splice;
    if rounds > 0 {
      var i := s.open[d].inode;
      var s1, bytes, s2 := OneWriteRound(s, d, m, rounds, count, at, source, from, eof);
      OpenIsFile(s, d);
      EnsureBlockSame(s, d, m, s1, i, 0);
      StoreFlat(s1, d, m, at, bytes);
      WriteRoundsFlat(s2, d, m + 1, rounds - 1, count - |bytes|, 0, source, from + BLOCK_BYTES, eof, s');
    }
  }

  lemma OpenIsFile(s: State, d: nat)
    requires Inv(s) && IsOpen(s, d)
    ensures IsFile(s, s.open[d].inode) && CoherentDescriptor(s, s.open[d])
  {
    assert CoherentDescriptor(s, s.open[d]);
  }
}
