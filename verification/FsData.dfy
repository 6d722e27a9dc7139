/** Reading and writing data blocks: every round of read and write keeps the invariant. */
module FsData {
  import opened Blocks
  import opened Bitmap
  import opened FsState
  import opened FsInvariant

  ghost predicate IsOpen(s: State, d: nat) {
    d < |s.open| && s.open[d].used
  }

  // ----- a data block is allocated

  /** Word m of the address block of file i becomes the address of block k. */
  ghost predicate Linked(s: State, s': State, i: nat, m: nat, k: nat) {
    && |s'.inodes| == |s.inodes| && s'.inodes == s.inodes
    && i < |s.inodes| && m < BLOCK_WORDS && k < BLOCKS
    && s.inodes[i].bound && s.inodes[i].kind == RegularFile
    && IndexOf(s', i) == IndexOf(s, i)[m := AddressOf(k)]
    && forall j :: 0 <= j < |s.inodes| && j != i && s.inodes[j].bound ==> IndexOf(s', j) == IndexOf(s, j)
  }

  lemma LinkedSlot(s: State, s': State, i: nat, m: nat, k: nat, x: Slot)
    requires Linked(s, s', i, m, k)
    ensures SlotAddress(s', x) == if x == Data(i, m) then AddressOf(k) else SlotAddress(s, x)
  {
    match x
    case Own(j) =>
    case Data(j, n) =>
      if j < |s.inodes| && j != i && s.inodes[j].bound {
        assert IndexOf(s', j) == IndexOf(s, j);
      }
  }

  lemma LinkedEntry(s: State, s': State, i: nat, m: nat, k: nat, j: nat, n: nat)
    requires Linked(s, s', i, m, k)
    ensures Entry(s', j, n) == Entry(s, j, n)
  {
    if j < |s.inodes| && j != i && s.inodes[j].bound {
      assert IndexOf(s', j) == IndexOf(s, j);
    }
  }

  ghost predicate CanAssign(s: State, d: nat, m: nat, k: nat) {
    && Inv(s) && IsOpen(s, d) && m < BLOCK_WORDS && s.open[d].address[m] == 0
    && METADATA_BLOCKS <= k < BLOCKS && !s.bits[k]
  }

  lemma AssignTables(s: State, d: nat, m: nat, k: nat)
    requires CanAssign(s, d, m, k)
    ensures CoherentDescriptor(s, s.open[d]) && |s.disk| == |s.bits| == BLOCKS
    ensures var f := s.open[d]; var b := BlockNumber(s.inodes[f.inode].addressBlock); var s' := Assign(s, d, m, k);
            (&& METADATA_BLOCKS <= b < BLOCKS && s.bits[b] && b != k
             && s'.disk == s.disk[b := BytesOf(IndexOf(s, f.inode)[m := AddressOf(k)])]
             && s'.bits == s.bits[k := true] && s'.inodes == s.inodes && s'.names == s.names
             && s'.open == s.open[d := f.(address := IndexOf(s, f.inode)[m := AddressOf(k)])])
  {
    assert CoherentDescriptor(s, s.open[d]);
    OwnBlock(s, s.open[d].inode);
  }

  lemma AssignLinks(s: State, s': State, i: nat, m: nat, k: nat)
    requires |s.disk| == BLOCKS && Allocated(s) && SingleOwner(s)
    requires i < |s.inodes| && s.inodes[i].bound && s.inodes[i].kind == RegularFile
    requires m < BLOCK_WORDS && k < BLOCKS && s'.inodes == s.inodes
    requires var b := BlockNumber(s.inodes[i].addressBlock);
      METADATA_BLOCKS <= b < BLOCKS && s'.disk == s.disk[b := BytesOf(IndexOf(s, i)[m := AddressOf(k)])]
    ensures Linked(s, s', i, m, k)
  {
    var b := BlockNumber(s.inodes[i].addressBlock);
    IndexWritten(s', b, IndexOf(s, i)[m := AddressOf(k)], i);
    forall j | 0 <= j < |s.inodes| && j != i && s.inodes[j].bound
      ensures IndexOf(s', j) == IndexOf(s, j)
    {
      OwnBlock(s, j);
      OwnBlock(s, i);
      DifferentBlocks(s, Own(j), Own(i));
      IndexUnchanged(s, s', b, BytesOf(IndexOf(s, i)[m := AddressOf(k)]), j);
    }
  }

  lemma LinkedKeepsBlocks(s: State, s': State, i: nat, m: nat, k: nat)
    requires Linked(s, s', i, m, k) && IndexOf(s, i)[m] == 0
    requires METADATA_BLOCKS <= k < BLOCKS == |s.bits| && !s.bits[k] && s'.bits == s.bits[k := true]
    requires Allocated(s) && SingleOwner(s) && NoneLost(s)
    ensures Allocated(s') && SingleOwner(s') && NoneLost(s')
  {
    forall y: Slot
      ensures SlotAddress(s', y) == if y == Data(i, m) then AddressOf(k) else SlotAddress(s, y)
    {
      LinkedSlot(s, s', i, m, k, y);
    }
    assert SlotAddress(s, Data(i, m)) == 0;
    TakeKeepsAllocated(s, s', Data(i, m), k);
    TakeKeepsSingle(s, s', Data(i, m), k);
    TakeKeepsNoneLost(s, s', Data(i, m), k);
  }

  lemma LinkedKeepsTree(s: State, s': State, i: nat, m: nat, k: nat)
    requires Linked(s, s', i, m, k) && s'.names == s.names && Tree(s)
    ensures Tree(s')
  {
    forall j: nat, n: nat
      ensures Entry(s', j, n) == Entry(s, j, n)
    {
      LinkedEntry(s, s', i, m, k, j, n);
    }
    SameEntriesKeep(s, s');
  }

  /** The block of a cached data word is the same after a write to the address block of i. */
  lemma LinkedKeepsDescriptor(s: State, s': State, i: nat, m: nat, k: nat, f: Descriptor)
    requires Linked(s, s', i, m, k) && |s.disk| == BLOCKS && Allocated(s) && SingleOwner(s)
    requires var b := BlockNumber(s.inodes[i].addressBlock);
      b < |s.disk| == |s'.disk| && forall n :: 0 <= n < |s.disk| && n != b ==> s'.disk[n] == s.disk[n]
    requires CoherentDescriptor(s, f) && IndexOf(s, i)[m] == 0
    ensures CoherentDescriptor(s', if f.inode == i then f.(address := f.address[m := AddressOf(k)]) else f)
  {
    OwnBlock(s, i);
    forall n | n in f.cache
      ensures f.cache[n] == DiskBlock(s', f.address[n])
    {
      DataBlockApart(s, f.inode, n, i);
    }
  }

  lemma AssignKeepsHandles(s: State, d: nat, m: nat, k: nat)
    requires CanAssign(s, d, m, k)
    requires Linked(s, Assign(s, d, m, k), s.open[d].inode, m, k)
    ensures Handles(Assign(s, d, m, k))
  {
    AssignTables(s, d, m, k);
    var i, s' := s.open[d].inode, Assign(s, d, m, k);
    forall e | 0 <= e < |s'.open| && s'.open[e].used
      ensures CoherentDescriptor(s', s'.open[e])
    {
      LinkedKeepsDescriptor(s, s', i, m, k, s.open[e]);
    }
  }

  lemma AssignKeepsInv(s: State, d: nat, m: nat, k: nat)
    requires CanAssign(s, d, m, k)
    ensures Inv(Assign(s, d, m, k)) && IsOpen(Assign(s, d, m, k), d)
    ensures Linked(s, Assign(s, d, m, k), s.open[d].inode, m, k)
  {
    var s' := Assign(s, d, m, k);
    AssignTables(s, d, m, k);
    AssignLinks(s, s', s.open[d].inode, m, k);
    LinkedKeepsBlocks(s, s', s.open[d].inode, m, k);
    LinkedKeepsTree(s, s', s.open[d].inode, m, k);
    AssignKeepsHandles(s, d, m, k);
  }

  // ----- a data block is read into the cache

  lemma LoadKeepsInv(s: State, d: nat, m: nat)
    requires Inv(s) && IsOpen(s, d) && m < BLOCK_WORDS && s.open[d].address[m] != 0
    ensures Inv(Load(s, d, m)) && IsOpen(Load(s, d, m), d)
  {
    var f := s.open[d];
    assert CoherentDescriptor(s, f);
    DescriptorUpdateKeepsInv(s, d, f.(cache := f.cache[m := DiskBlock(s, f.address[m])]));
  }

  lemma FreeBlockFacts(s: State)
    requires Shape(s) && FirstClear(s.bits, 0) < |s.bits|
    ensures var k := FirstClear(s.bits, 0); METADATA_BLOCKS <= k < BLOCKS && !s.bits[k]
  {
  }

  lemma EnsureBlockKeepsInv(s: State, d: nat, m: nat)
    requires Inv(s) && IsOpen(s, d) && s.open[d].inode < |s.inodes|
    requires EnsureBlock(s, d, m).Some?
    ensures var s' := EnsureBlock(s, d, m).value; Inv(s') && IsOpen(s', d)
  {
    if m !in s.open[d].cache {
      if s.open[d].address[m] != 0 {
        LoadKeepsInv(s, d, m);
      } else {
        var k := FirstClear(s.bits, 0);
        FreeBlockFacts(s);
        AssignKeepsInv(s, d, m, k);
        LoadKeepsInv(Assign(s, d, m, k), d, m);
      }
    }
  }

  // ----- a data block is written

  /** Only the disk block at address a, a data block, changes. */
  ghost predicate BlockWritten(s: State, s': State, i: nat, m: nat, data: Block) {
    && i < |s.inodes| && m < BLOCK_WORDS && s.inodes[i].bound && s.inodes[i].kind == RegularFile
    && IndexOf(s, i)[m] != 0 && s'.inodes == s.inodes && s'.bits == s.bits && s'.names == s.names
    && 0 <= BlockNumber(IndexOf(s, i)[m]) < |s.disk|
    && s'.disk == s.disk[BlockNumber(IndexOf(s, i)[m]) := data]
  }

  lemma WrittenIndex(s: State, s': State, i: nat, m: nat, data: Block, j: nat)
    requires BlockWritten(s, s', i, m, data) && |s.disk| == BLOCKS && Allocated(s) && SingleOwner(s)
    requires j < |s.inodes| && s.inodes[j].bound
    ensures IndexOf(s', j) == IndexOf(s, j)
  {
    OwnBlock(s, j);
    DataBlockApart(s, i, m, j);
    IndexUnchanged(s, s', BlockNumber(IndexOf(s, i)[m]), data, j);
  }

  lemma WrittenKeepsTables(s: State, s': State, i: nat, m: nat, data: Block)
    requires BlockWritten(s, s', i, m, data) && |s.disk| == BLOCKS
    requires Allocated(s) && SingleOwner(s) && NoneLost(s) && Tree(s)
    ensures Allocated(s') && SingleOwner(s') && NoneLost(s') && Tree(s')
  {
    forall y: Slot
      ensures SlotAddress(s', y) == SlotAddress(s, y)
    {
      match y
      case Own(j) =>
      case Data(j, n) =>
        if j < |s.inodes| && s.inodes[j].bound { WrittenIndex(s, s', i, m, data, j); }
    }
    SameSlotsKeep(s, s');
    forall j: nat, n: nat
      ensures Entry(s', j, n) == Entry(s, j, n)
    {
      if j < |s.inodes| && s.inodes[j].bound { WrittenIndex(s, s', i, m, data, j); }
    }
    SameEntriesKeep(s, s');
  }

  lemma DataBlocksDiffer(s: State, i: nat, m: nat, j: nat, n: nat)
    requires Allocated(s) && SingleOwner(s) && (i != j || m != n)
    requires i < |s.inodes| && s.inodes[i].bound && s.inodes[i].kind != Directory
    requires j < |s.inodes| && s.inodes[j].bound && s.inodes[j].kind != Directory
    requires m < BLOCK_WORDS && n < BLOCK_WORDS && IndexOf(s, i)[m] != 0 && IndexOf(s, j)[n] != 0
    ensures BlockNumber(IndexOf(s, i)[m]) != BlockNumber(IndexOf(s, j)[n])
  {
    assert SlotAddress(s, Data(i, m)) == IndexOf(s, i)[m] && SlotAddress(s, Data(j, n)) == IndexOf(s, j)[n];
    DifferentBlocks(s, Data(i, m), Data(j, n));
  }

  lemma WrittenKeepsDescriptor(s: State, s': State, i: nat, m: nat, data: Block, f: Descriptor)
    requires BlockWritten(s, s', i, m, data) && |s.disk| == BLOCKS && Allocated(s) && SingleOwner(s)
    requires CoherentDescriptor(s, f)
    ensures CoherentDescriptor(s', if f.inode == i then f.(cache := f.cache[m := data]) else f)
  {
    WrittenIndex(s, s', i, m, data, f.inode);
    forall n | n in f.cache && (f.inode != i || n != m)
      ensures f.cache[n] == DiskBlock(s', f.address[n])
    {
      DataBlocksDiffer(s, f.inode, n, i, m);
    }
  }

  lemma StoreTables(s: State, d: nat, m: nat, at: nat, bytes: seq<Byte>)
    requires Inv(s) && IsOpen(s, d) && m in s.open[d].cache && at + |bytes| <= BLOCK_BYTES
    ensures CoherentDescriptor(s, s.open[d]) && m < BLOCK_WORDS && |s.disk| == BLOCKS
    ensures var data: Block := Splice(s.open[d].cache[m], at, bytes);
            (&& BlockWritten(s, Store(s, d, m, at, bytes), s.open[d].inode, m, data)
             && s.bits[BlockNumber(IndexOf(s, s.open[d].inode)[m])]
             && Store(s, d, m, at, bytes).open == s.open[d := s.open[d].(cache := s.open[d].cache[m := data])])
  {
    var f := s.open[d];
    assert CoherentDescriptor(s, f);
    assert SlotAddress(s, Data(f.inode, m)) == f.address[m] != 0;
  }

  lemma StoreKeepsInv(s: State, d: nat, m: nat, at: nat, bytes: seq<Byte>)
    requires Inv(s) && IsOpen(s, d) && m in s.open[d].cache && m < BLOCK_WORDS && at + |bytes| <= BLOCK_BYTES
    ensures Inv(Store(s, d, m, at, bytes)) && IsOpen(Store(s, d, m, at, bytes), d)
  {
    StoreTables(s, d, m, at, bytes);
    var i, s' := s.open[d].inode, Store(s, d, m, at, bytes);
    var data: Block := Splice(s.open[d].cache[m], at, bytes);
    WrittenKeepsTables(s, s', i, m, data);
    StoreKeepsHandles(s, s', d, m, data);
  }

  lemma StoreKeepsHandles(s: State, s': State, d: nat, m: nat, data: Block)
    requires IsOpen(s, d) && Handles(s) && |s.disk| == BLOCKS && Allocated(s) && SingleOwner(s)
    requires BlockWritten(s, s', s.open[d].inode, m, data)
    requires s'.open == s.open[d := s.open[d].(cache := s.open[d].cache[m := data])]
    ensures Handles(s')
  {
    forall e | 0 <= e < |s'.open| && s'.open[e].used
      ensures CoherentDescriptor(s', s'.open[e])
    {
      assert CoherentDescriptor(s, s.open[e]);
      WrittenKeepsDescriptor(s, s', s.open[d].inode, m, data, s.open[e]);
    }
  }
}
