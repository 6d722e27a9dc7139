/** What every file-system call keeps: each allocated block has one owner, free blocks are
    zero, the directories form a tree, caches agree with the disk, and the metadata on the
    disk agrees with the tables in memory. */
module FsInvariant {
  import opened Blocks
  import opened Names
  import opened Bitmap
  import opened FsState
  import opened Options

  /** The places that hold a block address: the inode's own address block, and word m of the
      address block of a file. */
  datatype Slot = Own(i: nat) | Data(i: nat, m: nat)

  function SlotAddress(s: State, x: Slot): int {
    match x
    case Own(i) => if i < |s.inodes| && s.inodes[i].bound then s.inodes[i].addressBlock else 0
    case Data(i, m) =>
      if i < |s.inodes| && m < BLOCK_WORDS && s.inodes[i].bound && s.inodes[i].kind != Directory
      then IndexOf(s, i)[m] else 0
  }

  /** Slot m of directory i, 0 when empty. */
  function Entry(s: State, i: nat, m: nat): int {
    if i < |s.inodes| && m < BLOCK_WORDS && s.inodes[i].bound && s.inodes[i].kind == Directory
    then IndexOf(s, i)[m] else 0
  }

  ghost predicate Shape(s: State) {
    && |s.disk| == |s.bits| == BLOCKS && |s.inodes| == INODES
    && WellFormed(s.names)
    && (forall k :: 0 <= k < METADATA_BLOCKS ==> s.bits[k])
    && s.inodes[0].bound && s.inodes[0].kind == Directory
    && (forall i, j :: 0 <= i < j < INODES && s.inodes[j].bound ==> s.inodes[i].bound)
  }

  /** A block that is not allocated has never been written. */
  ghost predicate Zeroed(s: State) {
    |s.disk| == |s.bits| && forall k :: 0 <= k < |s.bits| && !s.bits[k] ==> s.disk[k] == ZeroBlock()
  }

  /** Every address held is that of an allocated block. */
  ghost predicate Allocated(s: State) {
    && |s.bits| == BLOCKS
    && (forall i :: 0 <= i < |s.inodes| && s.inodes[i].bound ==> SlotAddress(s, Own(i)) != 0)
    && (forall x: Slot :: SlotAddress(s, x) != 0 ==>
          ValidAddress(SlotAddress(s, x)) && s.bits[BlockNumber(SlotAddress(s, x))])
  }

  /** No block is held in two places. */
  ghost predicate SingleOwner(s: State) {
    forall x: Slot, y: Slot :: SlotAddress(s, x) != 0 && SlotAddress(s, x) == SlotAddress(s, y) ==> x == y
  }

  ghost predicate HeldAt(s: State, k: nat) {
    exists x: Slot :: SlotAddress(s, x) == AddressOf(k)
  }

  /** No allocated block is lost. */
  ghost predicate NoneLost(s: State) {
    forall k :: METADATA_BLOCKS <= k < |s.bits| && s.bits[k] ==> HeldAt(s, k)
  }

  /** An entry is a bound, named inode with a larger index than its directory's. */
  ghost predicate EntriesBound(s: State) {
    forall i: nat, m: nat :: Entry(s, i, m) != 0 ==>
      i < Entry(s, i, m) < |s.inodes| && s.inodes[Entry(s, i, m)].bound && NameOf(s, Entry(s, i, m)) != ""
  }

  /** The entries of a directory fill a prefix of it. */
  ghost predicate EntriesFirst(s: State) {
    forall i: nat, m: nat, n: nat :: m <= n && Entry(s, i, m) == 0 ==> Entry(s, i, n) == 0
  }

  ghost predicate EnteredOnce(s: State) {
    forall i: nat, m: nat, i': nat, m': nat ::
      Entry(s, i, m) != 0 && Entry(s, i, m) == Entry(s, i', m') ==> i == i' && m == m'
  }

  /** The names in one directory are distinct. */
  ghost predicate SiblingsDiffer(s: State) {
    EntriesBound(s) && forall i: nat, m: nat, n: nat ::
      (Entry(s, i, m) != 0 && Entry(s, i, n) != 0 && NameOf(s, Entry(s, i, m)) == NameOf(s, Entry(s, i, n)))
      ==> m == n
  }

  ghost predicate EnteredSomewhere(s: State, j: nat) {
    exists i: nat, m: nat :: Entry(s, i, m) == j
  }

  ghost predicate AllEntered(s: State) {
    forall j :: 0 < j < |s.inodes| && s.inodes[j].bound ==> EnteredSomewhere(s, j)
  }

  /** Every bound inode but the root sits in exactly one directory slot. */
  ghost predicate Tree(s: State) {
    EntriesBound(s) && EntriesFirst(s) && EnteredOnce(s) && SiblingsDiffer(s) && AllEntered(s)
  }

  ghost predicate CoherentDescriptor(s: State, f: Descriptor) {
    && f.inode < |s.inodes| && s.inodes[f.inode].bound && s.inodes[f.inode].kind == RegularFile
    && f.address == IndexOf(s, f.inode)
    && forall m :: m in f.cache ==>
         m < BLOCK_WORDS && f.address[m] != 0 && f.cache[m] == DiskBlock(s, f.address[m])
  }

  /** Open descriptors agree with the disk and no file has two of them. */
  ghost predicate Handles(s: State) {
    && (forall d :: 0 <= d < |s.open| && s.open[d].used ==> CoherentDescriptor(s, s.open[d]))
    && (forall d, e ::
          (0 <= d < |s.open| && 0 <= e < |s.open| && s.open[d].used && s.open[e].used
           && s.open[d].inode == s.open[e].inode) ==> d == e)
  }

  /** The metadata blocks on the disk; only the mark of a file as no longer new may be missing. */
  ghost predicate Durable(s: State) {
    && s.image.bits == s.bits && s.image.names == s.names && |s.image.inodes| == |s.inodes|
    && forall i :: 0 <= i < |s.inodes| ==>
         s.image.inodes[i] == s.inodes[i]
         || (s.inodes[i].kind == RegularFile && s.image.inodes[i] == s.inodes[i].(kind := NewFile))
  }

  ghost predicate Inv(s: State) {
    Shape(s) && Zeroed(s) && Allocated(s) && SingleOwner(s) && NoneLost(s) && Tree(s) && Handles(s)
  }

  // ----- addresses

  lemma SameNumberSameAddress(a: int, b: int)
    requires ValidAddress(a) && ValidAddress(b) && BlockNumber(a) == BlockNumber(b)
    ensures a == b
  {
  }

  lemma NumberOfAddress(k: nat)
    ensures BlockNumber(AddressOf(k)) == k
    ensures METADATA_BLOCKS <= k < BLOCKS ==> ValidAddress(AddressOf(k))
  {
  }

  /** Two different slots that hold addresses hold different blocks. */
  lemma DifferentBlocks(s: State, x: Slot, y: Slot)
    requires Allocated(s) && SingleOwner(s) && x != y && SlotAddress(s, x) != 0 && SlotAddress(s, y) != 0
    ensures BlockNumber(SlotAddress(s, x)) != BlockNumber(SlotAddress(s, y))
  {
    if BlockNumber(SlotAddress(s, x)) == BlockNumber(SlotAddress(s, y)) {
      SameNumberSameAddress(SlotAddress(s, x), SlotAddress(s, y));
    }
  }

  // ----- one component created

  /** How the tables grow when directory j, on block k, is entered in slot `at` of a directory. */
  ghost predicate Grown(s: State, s': State, parent: nat, at: nat, j: nat, k: nat) {
    && |s.inodes| == |s'.inodes| == INODES
    && parent < j < INODES && at < BLOCK_WORDS
    && s.inodes[parent].bound && s.inodes[parent].kind == Directory && !s.inodes[j].bound
    && s'.inodes[j].bound && s'.inodes[j].kind == Directory && s'.inodes[j].addressBlock == AddressOf(k)
    && (forall i :: 0 <= i < INODES && i != j ==> s'.inodes[i] == s.inodes[i])
    && (forall i :: 0 <= i < INODES && i != parent && s.inodes[i].bound ==> IndexOf(s', i) == IndexOf(s, i))
    && IndexOf(s', parent) == IndexOf(s, parent)[at := j]
    && (forall m :: 0 <= m < BLOCK_WORDS ==> IndexOf(s', j)[m] == 0)
  }

  lemma GrownSlot(s: State, s': State, parent: nat, at: nat, j: nat, k: nat, x: Slot)
    requires Grown(s, s', parent, at, j, k)
    ensures SlotAddress(s', x) == if x == Own(j) then AddressOf(k) else SlotAddress(s, x)
  {
    match x
    case Own(i) =>
    case Data(i, m) =>
      if i < INODES && s.inodes[i].bound && s.inodes[i].kind != Directory {
        assert IndexOf(s', i) == IndexOf(s, i);
      }
  }

  lemma GrownEntry(s: State, s': State, parent: nat, at: nat, j: nat, k: nat, i: nat, m: nat)
    requires Grown(s, s', parent, at, j, k)
    ensures Entry(s', i, m) == if i == parent && m == at then j else Entry(s, i, m)
  {
    if i < INODES && s.inodes[i].bound && i != parent {
      assert IndexOf(s', i) == IndexOf(s, i);
    }
  }

  /** Slot x takes block k; every other slot keeps its address. */
  ghost predicate SlotTakes(s: State, s': State, x: Slot, k: nat) {
    forall y: Slot :: SlotAddress(s', y) == if y == x then AddressOf(k) else SlotAddress(s, y)
  }

  ghost predicate SameSlots(s: State, s': State) {
    forall y: Slot :: SlotAddress(s', y) == SlotAddress(s, y)
  }

  lemma TakeKeepsAllocated(s: State, s': State, x: Slot, k: nat)
    requires SlotTakes(s, s', x, k) && METADATA_BLOCKS <= k < BLOCKS
    requires Allocated(s) && s'.bits == s.bits[k := true]
    requires forall i :: 0 <= i < |s'.inodes| && s'.inodes[i].bound ==>
      Own(i) == x || (i < |s.inodes| && s.inodes[i].bound)
    ensures Allocated(s')
  {
    NumberOfAddress(k);
    forall y: Slot | SlotAddress(s', y) != 0
      ensures ValidAddress(SlotAddress(s', y)) && s'.bits[BlockNumber(SlotAddress(s', y))]
    {
      if y != x { assert SlotAddress(s, y) == SlotAddress(s', y); }
    }
    forall i | 0 <= i < |s'.inodes| && s'.inodes[i].bound
      ensures SlotAddress(s', Own(i)) != 0
    {
      if Own(i) != x { assert SlotAddress(s, Own(i)) != 0; }
    }
  }

  lemma TakeKeepsSingle(s: State, s': State, x: Slot, k: nat)
    requires SlotTakes(s, s', x, k) && METADATA_BLOCKS <= k < |s.bits| && !s.bits[k]
    requires Allocated(s) && SingleOwner(s)
    ensures SingleOwner(s')
  {
    NumberOfAddress(k);
    forall y: Slot, z: Slot | SlotAddress(s', y) != 0 && SlotAddress(s', y) == SlotAddress(s', z)
      ensures y == z
    {
      assert y != x ==> SlotAddress(s, y) == SlotAddress(s', y) && SlotAddress(s, y) != AddressOf(k);
      assert z != x ==> SlotAddress(s, z) == SlotAddress(s', z) && SlotAddress(s, z) != AddressOf(k);
    }
  }

  lemma TakeKeepsNoneLost(s: State, s': State, x: Slot, k: nat)
    requires SlotTakes(s, s', x, k) && k < |s.bits| && SlotAddress(s, x) == 0
    requires NoneLost(s) && s'.bits == s.bits[k := true]
    ensures NoneLost(s')
  {
    assert SlotAddress(s', x) == AddressOf(k);
    forall k' | METADATA_BLOCKS <= k' < |s'.bits| && s'.bits[k']
      ensures HeldAt(s', k')
    {
      if k' != k {
        assert HeldAt(s, k');
        var y: Slot :| SlotAddress(s, y) == AddressOf(k');
        assert SlotAddress(s', y) == AddressOf(k');
      }
    }
  }

  /** Slot `at` of directory i gets inode j; every other slot keeps its entry. */
  ghost predicate EntryTakes(s: State, s': State, i: nat, at: nat, j: nat) {
    forall p: nat, m: nat :: Entry(s', p, m) == if p == i && m == at then j else Entry(s, p, m)
  }

  ghost predicate SameEntries(s: State, s': State) {
    forall p: nat, m: nat :: Entry(s', p, m) == Entry(s, p, m)
  }

  /** Bound inodes stay bound and named inodes keep their names. */
  ghost predicate KeepsNames(s: State, s': State) {
    && |s'.inodes| == |s.inodes|
    && forall i :: 0 <= i < |s.inodes| && s.inodes[i].bound ==>
         s'.inodes[i].bound && (NameOf(s, i) != "" ==> NameOf(s', i) == NameOf(s, i))
  }

  lemma TakeKeepsEntriesBound(s: State, s': State, i: nat, at: nat, j: nat)
    requires EntryTakes(s, s', i, at, j) && KeepsNames(s, s') && EntriesBound(s)
    requires i < j < |s'.inodes| && s'.inodes[j].bound && NameOf(s', j) != ""
    ensures EntriesBound(s')
  {
    forall p: nat, m: nat | Entry(s', p, m) != 0
      ensures p < Entry(s', p, m) < |s'.inodes| && s'.inodes[Entry(s', p, m)].bound && NameOf(s', Entry(s', p, m)) != ""
    {
      if !(p == i && m == at) { assert Entry(s, p, m) == Entry(s', p, m); }
    }
  }

  lemma TakeKeepsEntriesFirst(s: State, s': State, i: nat, at: nat, j: nat)
    requires EntryTakes(s, s', i, at, j) && EntriesFirst(s) && j != 0
    requires Entry(s, i, at) == 0 && forall m: nat :: m < at ==> Entry(s, i, m) != 0
    ensures EntriesFirst(s')
  {
    forall p: nat, m: nat, n: nat | m <= n && Entry(s', p, m) == 0
      ensures Entry(s', p, n) == 0
    {
      assert Entry(s, p, m) == 0 && Entry(s, p, n) == 0;
    }
  }

  lemma TakeKeepsEnteredOnce(s: State, s': State, i: nat, at: nat, j: nat)
    requires EntryTakes(s, s', i, at, j) && EntriesBound(s) && EnteredOnce(s)
    requires j < |s.inodes| && !s.inodes[j].bound
    ensures EnteredOnce(s')
  {
    forall p: nat, m: nat, p': nat, m': nat | Entry(s', p, m) != 0 && Entry(s', p, m) == Entry(s', p', m')
      ensures p == p' && m == m'
    {
      assert !(p == i && m == at) ==> Entry(s, p, m) == Entry(s', p, m) && Entry(s, p, m) != j;
      assert !(p' == i && m' == at) ==> Entry(s, p', m') == Entry(s', p', m') && Entry(s, p', m') != j;
    }
  }

  lemma TakeKeepsSiblings(s: State, s': State, i: nat, at: nat, j: nat)
    requires EntryTakes(s, s', i, at, j) && KeepsNames(s, s') && SiblingsDiffer(s) && EntriesBound(s')
    requires j < |s.inodes|
    requires forall m: nat :: Entry(s, i, m) != 0 ==> NameOf(s, Entry(s, i, m)) != NameOf(s', j)
    ensures SiblingsDiffer(s')
  {
    forall p: nat, m: nat, n: nat |
      Entry(s', p, m) != 0 && Entry(s', p, n) != 0 && NameOf(s', Entry(s', p, m)) == NameOf(s', Entry(s', p, n))
      ensures m == n
    {
      assert !(p == i && m == at) ==>
        Entry(s, p, m) == Entry(s', p, m) && NameOf(s, Entry(s, p, m)) == NameOf(s', Entry(s', p, m));
      assert !(p == i && n == at) ==>
        Entry(s, p, n) == Entry(s', p, n) && NameOf(s, Entry(s, p, n)) == NameOf(s', Entry(s', p, n));
    }
  }

  lemma TakeKeepsAllEntered(s: State, s': State, i: nat, at: nat, j: nat)
    requires EntryTakes(s, s', i, at, j) && AllEntered(s) && Entry(s, i, at) == 0
    requires |s'.inodes| == |s.inodes|
    requires forall n :: 0 <= n < |s'.inodes| && s'.inodes[n].bound ==> n == j || s.inodes[n].bound
    ensures AllEntered(s')
  {
    assert Entry(s', i, at) == j;
    forall n | 0 < n < |s'.inodes| && s'.inodes[n].bound
      ensures EnteredSomewhere(s', n)
    {
      if n != j {
        assert EnteredSomewhere(s, n);
        var p: nat, m: nat :| Entry(s, p, m) == n;
        assert Entry(s', p, m) == n;
      }
    }
  }

  /** When no slot and no entry changes and names and bound inodes stay, so do ownership and tree. */
  lemma SameSlotsKeep(s: State, s': State)
    requires SameSlots(s, s') && s'.bits == s.bits
    requires Allocated(s) && SingleOwner(s) && NoneLost(s)
    requires forall i :: 0 <= i < |s'.inodes| && s'.inodes[i].bound ==> i < |s.inodes| && s.inodes[i].bound
    ensures Allocated(s') && SingleOwner(s') && NoneLost(s')
  {
    forall k | METADATA_BLOCKS <= k < |s'.bits| && s'.bits[k]
      ensures HeldAt(s', k)
    {
      assert HeldAt(s, k);
      var y: Slot :| SlotAddress(s, y) == AddressOf(k);
      assert SlotAddress(s', y) == AddressOf(k);
    }
    forall i | 0 <= i < |s'.inodes| && s'.inodes[i].bound
      ensures SlotAddress(s', Own(i)) != 0
    {
      assert SlotAddress(s, Own(i)) != 0;
    }
    forall y: Slot | SlotAddress(s', y) != 0
      ensures ValidAddress(SlotAddress(s', y)) && s'.bits[BlockNumber(SlotAddress(s', y))]
    {
      assert SlotAddress(s, y) == SlotAddress(s', y);
    }
    forall y: Slot, z: Slot | SlotAddress(s', y) != 0 && SlotAddress(s', y) == SlotAddress(s', z)
      ensures y == z
    {
      assert SlotAddress(s, y) == SlotAddress(s', y) && SlotAddress(s, z) == SlotAddress(s', z);
    }
  }

  lemma SameEntriesKeep(s: State, s': State)
    requires SameEntries(s, s') && KeepsNames(s, s') && Tree(s)
    requires forall n :: 0 <= n < |s'.inodes| && s'.inodes[n].bound ==> s.inodes[n].bound
    ensures Tree(s')
  {
    forall p: nat, m: nat
      ensures Entry(s', p, m) == Entry(s, p, m)
      ensures Entry(s', p, m) != 0 ==> NameOf(s', Entry(s', p, m)) == NameOf(s, Entry(s, p, m))
    {
    }
    forall n | 0 < n < |s'.inodes| && s'.inodes[n].bound
      ensures EnteredSomewhere(s', n)
    {
      assert EnteredSomewhere(s, n);
      var p: nat, m: nat :| Entry(s, p, m) == n;
      assert Entry(s', p, m) == n;
    }
  }

  // ----- creating one component

  lemma IndexUnchanged(s: State, s': State, b: nat, block: Block, i: nat)
    requires b < |s.disk| && s'.disk == s.disk[b := block]
    requires i < |s.inodes| && i < |s'.inodes| && s'.inodes[i].addressBlock == s.inodes[i].addressBlock
    requires BlockNumber(s.inodes[i].addressBlock) != b
    ensures IndexOf(s', i) == IndexOf(s, i)
  {
  }

  lemma IndexWritten(s: State, b: nat, index: Words, i: nat)
    requires b < |s.disk| && s.disk[b] == BytesOf(index)
    requires i < |s.inodes| && BlockNumber(s.inodes[i].addressBlock) == b
    ensures IndexOf(s, i) == index
  {
    WordsRoundTrip(index);
  }

  lemma IndexZero(s: State, k: nat, i: nat)
    requires k < |s.disk| && s.disk[k] == ZeroBlock()
    requires i < |s.inodes| && s.inodes[i].addressBlock == AddressOf(k)
    ensures forall m :: 0 <= m < BLOCK_WORDS ==> IndexOf(s, i)[m] == 0
  {
    NumberOfAddress(k);
    ZeroWords();
  }

  lemma OwnBlock(s: State, i: nat)
    requires Allocated(s) && |s.disk| == BLOCKS && i < |s.inodes| && s.inodes[i].bound
    ensures SlotAddress(s, Own(i)) == s.inodes[i].addressBlock != 0
    ensures METADATA_BLOCKS <= BlockNumber(s.inodes[i].addressBlock) < |s.disk|
    ensures s.bits[BlockNumber(s.inodes[i].addressBlock)]
  {
    assert SlotAddress(s, Own(i)) != 0;
  }

  ghost predicate CanCreate(s: State, parent: nat) {
    && Shape(s) && Zeroed(s) && Allocated(s) && SingleOwner(s)
    && parent < INODES && s.inodes[parent].bound
  }

  lemma CreateTables(s: State, parent: nat, name: string, euid: int, s': State, j: nat)
    requires CanCreate(s, parent) && CreateOne(s, parent, name, euid) == Some((s', j))
    ensures var k := FirstClear(s.bits, 0); var b := BlockNumber(s.inodes[parent].addressBlock);
            var m := FirstZero(IndexOf(s, parent), 0); var index := IndexOf(s, parent);
            (&& METADATA_BLOCKS <= k < BLOCKS && !s.bits[k] && s'.bits == s.bits[k := true]
             && s.disk[k] == ZeroBlock()
             && METADATA_BLOCKS <= b < BLOCKS && b != k
             && s'.disk == s.disk[b := BytesOf(if m < BLOCK_WORDS then index[m := j] else index)]
             && parent < j < INODES && !s.inodes[j].bound
             && !PlaceFor(s.names, name, 0).NoSpace?
             && s'.inodes == s.inodes[j := Inode(true, Directory, NEW_FILE_ACCESS, euid, 0, AddressOf(k),
                                                 PlaceFor(s.names, name, 0).at)])
    ensures s'.open == s.open && s'.names == Interned(s.names, name)
  {
    OwnBlock(s, parent);
  }

  lemma EntryMakesGrown(s: State, s': State, parent: nat, at: nat, j: nat, k: nat, inode: Inode)
    requires |s.disk| == BLOCKS && |s.inodes| == INODES && Allocated(s) && SingleOwner(s)
    requires parent < j < INODES && s.inodes[parent].bound && s.inodes[parent].kind == Directory && !s.inodes[j].bound
    requires at < BLOCK_WORDS && METADATA_BLOCKS <= k < BLOCKS && !s.bits[k] && s.disk[k] == ZeroBlock()
    requires inode.bound && inode.kind == Directory && inode.addressBlock == AddressOf(k)
    requires s'.inodes == s.inodes[j := inode]
    requires var b := BlockNumber(s.inodes[parent].addressBlock);
      METADATA_BLOCKS <= b < BLOCKS && s'.disk == s.disk[b := BytesOf(IndexOf(s, parent)[at := j])]
    ensures Grown(s, s', parent, at, j, k)
  {
    var b := BlockNumber(s.inodes[parent].addressBlock);
    OwnBlock(s, parent);
    NumberOfAddress(k);
    IndexWritten(s', b, IndexOf(s, parent)[at := j], parent);
    IndexZero(s', k, j);
    forall i | 0 <= i < INODES && i != parent && s.inodes[i].bound
      ensures IndexOf(s', i) == IndexOf(s, i)
    {
      OwnBlock(s, i);
      DifferentBlocks(s, Own(i), Own(parent));
      IndexUnchanged(s, s', b, BytesOf(IndexOf(s, parent)[at := j]), i);
    }
  }

  lemma CreateKeepsShape(s: State, parent: nat, name: string, euid: int, s': State, j: nat)
    requires CanCreate(s, parent) && CreateOne(s, parent, name, euid) == Some((s', j)) && IsName(name)
    ensures Shape(s') && Zeroed(s') && KeepsNames(s, s') && NameOf(s', j) == name
  {
    CreateTables(s, parent, name, euid, s', j);
    InternKeepsNames(s.names, name);
  }

  /** Data block m of a file is not the address block of any inode. */
  lemma DataBlockApart(s: State, i: nat, m: nat, j: nat)
    requires Allocated(s) && SingleOwner(s) && |s.disk| == BLOCKS
    requires i < |s.inodes| && s.inodes[i].bound && s.inodes[i].kind != Directory
    requires m < BLOCK_WORDS && IndexOf(s, i)[m] != 0
    requires j < |s.inodes| && s.inodes[j].bound
    ensures 0 <= BlockNumber(IndexOf(s, i)[m]) < |s.disk|
    ensures BlockNumber(IndexOf(s, i)[m]) != BlockNumber(s.inodes[j].addressBlock)
  {
    OwnBlock(s, j);
    assert SlotAddress(s, Data(i, m)) == IndexOf(s, i)[m];
    DifferentBlocks(s, Data(i, m), Own(j));
  }

  lemma GrownKeepsHandles(s: State, s': State, parent: nat, at: nat, j: nat, k: nat)
    requires Grown(s, s', parent, at, j, k) && s'.open == s.open && |s.disk| == BLOCKS
    requires Handles(s) && Allocated(s) && SingleOwner(s)
    requires var b := BlockNumber(s.inodes[parent].addressBlock);
      b < |s.disk| == |s'.disk| && forall n :: 0 <= n < |s.disk| && n != b ==> s'.disk[n] == s.disk[n]
    ensures Handles(s')
  {
    forall d | 0 <= d < |s'.open| && s'.open[d].used
      ensures CoherentDescriptor(s', s'.open[d])
    {
      var f := s.open[d];
      assert CoherentDescriptor(s, f);
      OwnBlock(s, parent);
      forall m | m in f.cache
        ensures f.cache[m] == DiskBlock(s', f.address[m])
      {
        DataBlockApart(s, f.inode, m, parent);
      }
    }
  }

  lemma GrownKeepsTree(s: State, s': State, parent: nat, at: nat, j: nat, k: nat)
    requires Grown(s, s', parent, at, j, k) && KeepsNames(s, s') && NameOf(s', j) != "" && Tree(s)
    requires Entry(s, parent, at) == 0 && forall m: nat :: m < at ==> Entry(s, parent, m) != 0
    requires forall m: nat :: Entry(s, parent, m) != 0 ==> NameOf(s, Entry(s, parent, m)) != NameOf(s', j)
    ensures Tree(s')
  {
    forall i: nat, m: nat
      ensures Entry(s', i, m) == if i == parent && m == at then j else Entry(s, i, m)
    {
      GrownEntry(s, s', parent, at, j, k, i, m);
    }
    TakeKeepsEntriesBound(s, s', parent, at, j);
    TakeKeepsEntriesFirst(s, s', parent, at, j);
    TakeKeepsEnteredOnce(s, s', parent, at, j);
    TakeKeepsSiblings(s, s', parent, at, j);
    TakeKeepsAllEntered(s, s', parent, at, j);
  }

  lemma GrownKeepsBlocks(s: State, s': State, parent: nat, at: nat, j: nat, k: nat)
    requires Grown(s, s', parent, at, j, k)
    requires METADATA_BLOCKS <= k < BLOCKS == |s.bits| && !s.bits[k] && s'.bits == s.bits[k := true]
    requires Allocated(s) && SingleOwner(s) && NoneLost(s)
    ensures Allocated(s') && SingleOwner(s') && NoneLost(s')
  {
    forall y: Slot
      ensures SlotAddress(s', y) == if y == Own(j) then AddressOf(k) else SlotAddress(s, y)
    {
      GrownSlot(s, s', parent, at, j, k, y);
    }
    assert SlotAddress(s, Own(j)) == 0;
    TakeKeepsAllocated(s, s', Own(j), k);
    TakeKeepsSingle(s, s', Own(j), k);
    TakeKeepsNoneLost(s, s', Own(j), k);
  }

  lemma FirstFreeEntry(s: State, i: nat)
    requires i < |s.inodes| && s.inodes[i].bound && s.inodes[i].kind == Directory
    requires FirstZero(IndexOf(s, i), 0) < BLOCK_WORDS
    ensures Entry(s, i, FirstZero(IndexOf(s, i), 0)) == 0
    ensures forall m: nat :: m < FirstZero(IndexOf(s, i), 0) ==> Entry(s, i, m) != 0
  {
  }

  /** Creating one component in a directory that has no such name keeps everything. */
  lemma CreateOneKeepsInv(s: State, parent: nat, name: string, euid: int, s': State, j: nat)
    requires Inv(s) && parent < INODES && s.inodes[parent].bound && s.inodes[parent].kind == Directory
    requires FirstZero(IndexOf(s, parent), 0) < BLOCK_WORDS && IsName(name)
    requires CreateOne(s, parent, name, euid) == Some((s', j))
    requires forall m: nat :: Entry(s, parent, m) != 0 ==> NameOf(s, Entry(s, parent, m)) != name
    ensures Inv(s') && Grown(s, s', parent, FirstZero(IndexOf(s, parent), 0), j, FirstClear(s.bits, 0))
    ensures KeepsNames(s, s') && NameOf(s', j) == name
  {
    var at, k := FirstZero(IndexOf(s, parent), 0), FirstClear(s.bits, 0);
    CreateTables(s, parent, name, euid, s', j);
    CreateKeepsShape(s, parent, name, euid, s', j);
    EntryMakesGrown(s, s', parent, at, j, k, s'.inodes[j]);
    FirstFreeEntry(s, parent);
    GrownKeepsTree(s, s', parent, at, j, k);
    GrownKeepsBlocks(s, s', parent, at, j, k);
    GrownKeepsHandles(s, s', parent, at, j, k);
  }

  // ----- changes that touch no block

  /** Inode changes that leave ownership and tree alone: sizes, and the kind of something that
      is an empty directory, or no directory, before and no directory after. */
  ghost predicate Alike(s: State, s': State) {
    && s'.disk == s.disk && s'.bits == s.bits && s'.names == s.names && |s'.inodes| == |s.inodes|
    && forall i :: 0 <= i < |s.inodes| ==>
         && s'.inodes[i].bound == s.inodes[i].bound
         && s'.inodes[i].addressBlock == s.inodes[i].addressBlock
         && s'.inodes[i].nameAddress == s.inodes[i].nameAddress
         && (s'.inodes[i].kind == s.inodes[i].kind || KindMayChange(s, s', i))
  }

  ghost predicate KindMayChange(s: State, s': State, i: nat)
    requires i < |s.inodes| && i < |s'.inodes|
  {
    && i != 0 && s'.inodes[i].kind != Directory
    && (s.inodes[i].kind == Directory ==> forall m :: 0 <= m < BLOCK_WORDS ==> IndexOf(s, i)[m] == 0)
  }

  lemma AlikeSlot(s: State, s': State, x: Slot)
    requires Alike(s, s')
    ensures SlotAddress(s', x) == SlotAddress(s, x)
  {
    match x
    case Own(i) =>
    case Data(i, m) =>
      if i < |s.inodes| {
        assert IndexOf(s', i) == IndexOf(s, i);
      }
  }

  lemma AlikeEntry(s: State, s': State, i: nat, m: nat)
    requires Alike(s, s')
    ensures Entry(s', i, m) == Entry(s, i, m)
  {
    if i < |s.inodes| {
      assert IndexOf(s', i) == IndexOf(s, i);
    }
  }

  lemma AlikeKeepsTables(s: State, s': State)
    requires Alike(s, s') && Shape(s) && Zeroed(s) && Allocated(s) && SingleOwner(s) && NoneLost(s) && Tree(s)
    ensures Shape(s') && Zeroed(s') && Allocated(s') && SingleOwner(s') && NoneLost(s') && Tree(s')
  {
    assert Shape(s') && Zeroed(s');
    forall y: Slot
      ensures SlotAddress(s', y) == SlotAddress(s, y)
    {
      AlikeSlot(s, s', y);
    }
    SameSlotsKeep(s, s');
    forall i: nat, m: nat
      ensures Entry(s', i, m) == Entry(s, i, m)
    {
      AlikeEntry(s, s', i, m);
    }
    SameEntriesKeep(s, s');
  }

  lemma AlikeKeepsHandles(s: State, s': State)
    requires Alike(s, s') && s'.open == s.open && Handles(s)
    requires forall i :: 0 <= i < |s.inodes| && s.inodes[i].kind == RegularFile ==> s'.inodes[i].kind == RegularFile
    ensures Handles(s')
  {
    forall d | 0 <= d < |s'.open| && s'.open[d].used
      ensures CoherentDescriptor(s', s'.open[d])
    {
      assert CoherentDescriptor(s, s.open[d]);
    }
  }

  lemma FinishKeepsInv(s: State, j: nat)
    requires Inv(s) && 0 < j < |s.inodes| && s.inodes[j].kind == Directory
    requires forall m :: 0 <= m < BLOCK_WORDS ==> IndexOf(s, j)[m] == 0
    ensures Inv(Finish(s, j))
  {
    var s' := Finish(s, j);
    assert KindMayChange(s, s', j);
    AlikeKeepsTables(s, s');
    AlikeKeepsHandles(s, s');
  }

  lemma SettledKeepsInv(s: State, j: nat)
    requires Inv(s) && j < |s.inodes|
    ensures Inv(Settled(s, j))
  {
    var s' := Settled(s, j);
    assert s' != s ==> KindMayChange(s, s', j);
    AlikeKeepsTables(s, s');
    AlikeKeepsHandles(s, s');
  }

  lemma ResizedKeepsInv(s: State, j: nat, size: nat)
    requires Inv(s) && j < |s.inodes|
    ensures Inv(Resized(s, j, size))
  {
    AlikeKeepsTables(s, Resized(s, j, size));
    AlikeKeepsHandles(s, Resized(s, j, size));
  }

  /** Only the open-file table changes. */
  lemma OpenTableOnly(s: State, s': State)
    requires Inv(s) && s' == s.(open := s'.open) && Handles(s')
    ensures Inv(s')
  {
    AlikeKeepsTables(s, s');
  }

  lemma CoherentElsewhere(s: State, s': State, f: Descriptor)
    requires CoherentDescriptor(s, f) && s' == s.(open := s'.open)
    ensures CoherentDescriptor(s', f)
  {
  }

  /** Replacing or adding one descriptor keeps the table coherent and its inodes distinct. */
  lemma OneDescriptorChanges(s: State, s': State, d: nat, f: Descriptor)
    requires Handles(s) && s' == s.(open := s'.open)
    requires d < |s'.open| && |s.open| <= |s'.open| <= |s.open| + 1 && (d < |s.open| ==> |s'.open| == |s.open|)
    requires s'.open[d] == f && forall e :: 0 <= e < |s'.open| && e != d ==> e < |s.open| && s'.open[e] == s.open[e]
    requires f.used ==> CoherentDescriptor(s, f)
    requires f.used ==> forall e :: 0 <= e < |s.open| && e != d ==> !(s.open[e].used && s.open[e].inode == f.inode)
    ensures Handles(s')
  {
    forall e | 0 <= e < |s'.open| && s'.open[e].used
      ensures CoherentDescriptor(s', s'.open[e])
    {
      assert e != d ==> CoherentDescriptor(s, s.open[e]);
      CoherentElsewhere(s, s', s'.open[e]);
    }
  }

  lemma DescriptorUpdateKeepsInv(s: State, d: nat, f: Descriptor)
    requires Inv(s) && d < |s.open|
    requires f.used ==> s.open[d].used && f.inode == s.open[d].inode && CoherentDescriptor(s, f)
    ensures Inv(s.(open := s.open[d := f]))
  {
    OneDescriptorChanges(s, s.(open := s.open[d := f]), d, f);
    OpenTableOnly(s, s.(open := s.open[d := f]));
  }

  lemma FreshDescriptorKeepsInv(s: State, e: nat, i: nat)
    requires Inv(s) && i < |s.inodes| && s.inodes[i].bound && s.inodes[i].kind == RegularFile
    requires e <= |s.open| && (e < |s.open| ==> !s.open[e].used)
    requires forall d :: 0 <= d < |s.open| ==> !(s.open[d].used && s.open[d].inode == i)
    ensures var f := Descriptor(true, i, IndexOf(s, i), map[], 0);
      Inv(s.(open := if e < |s.open| then s.open[e := f] else s.open + [f]))
  {
    var f := Descriptor(true, i, IndexOf(s, i), map[], 0);
    var s' := s.(open := if e < |s.open| then s.open[e := f] else s.open + [f]);
    OneDescriptorChanges(s, s', e, f);
    OpenTableOnly(s, s');
  }

  /** Opening never makes a second descriptor for a file. */
  lemma AttachKeepsInv(s: State, i: nat)
    requires Inv(s) && i < |s.inodes| && s.inodes[i].bound && s.inodes[i].kind == RegularFile
    ensures var (s', d) := Attach(s, i);
      Inv(s') && d < |s'.open| && s'.open[d].used && s'.open[d].inode == i
  {
    if FindOpen(s.open, i, 0) == |s.open| {
      FreshDescriptorKeepsInv(s, FirstUnused(s.open, 0), i);
    }
  }
}
