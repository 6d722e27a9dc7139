/** Processes made at any time after boot, written through the kernel's own page table, which maps
    the first 32 MB to themselves. */
module ProcessRuns {
  import opened Blocks
  import opened MemoryMap
  import opened PageTables
  import opened PageInvariant
  import opened PageRuns
  import opened MemoryRuns
  import opened VirtualWrite
  import opened ProcessImage
  import opened Options

  const REACH: nat := 0x200_0000
  const REACHED_PAGES: nat := 0x2000

  ghost predicate FreeBelow(m: Map, size: nat) {
    forall x: int :: FreeAt(m, x) ==> x < size
  }

  // ----- what the kernel's table keeps

  /** What the kernel's table maps stays mapped there. */
  ghost predicate KernelStays(s: MemState, s': MemState) {
    && Shape(s) && Shape(s') && 0 < |s.tables| && 0 < |s'.tables|
    && forall p: nat :: p < PAGES && Get(s, KERNEL_TABLE, p).mapped ==>
           Get(s', KERNEL_TABLE, p) == Get(s, KERNEL_TABLE, p)
  }

  lemma KernelBound(s: MemState)
    requires MemInv(s)
    ensures Shape(s) && 0 < |s.tables| && s.tables[KERNEL_TABLE].bound
  {
    InvShape(s);
  }

  lemma GrowsKernel(s: MemState, s': MemState, t: nat)
    requires Grows(s, s', t)
    ensures KernelStays(s, s')
  {
    InvShape(s);
    InvShape(s');
    hide MapInv, Unshared, Backed, Distinct, Reached, Shape, Get, Feeds;
  }

  lemma EmptiedKernel(s: MemState, s': MemState, t: nat)
    requires MemInv(s) && Shape(s') && Shape(s) && Emptied(s, s', t) && t != KERNEL_TABLE
    ensures KernelStays(s, s')
  {
    KernelBound(s);
    hide MemInv, Shape, Get;
  }

  lemma CreatedKernel(s: MemState)
    requires MemInv(s)
    ensures KernelStays(s, CreateTable(s).0)
  {
    KernelBound(s);
    CreateKeepsInv(s);
    InvShape(CreateTable(s).0);
    hide MemInv, Shape, Get, CreateTable, MapInv, OwnedBy, Unshared;
  }

  lemma PerformKernel(s: MemState, c: Call)
    requires MemInv(s) && Guard(s, c) && Perform(s, c).Some?
    ensures KernelStays(s, Perform(s, c).value)
  {
    InvShape(s);
    hide MemInv, Shape, KernelStays, Grows, Emptied, CreateTable, Allocate, Identity, FreeTable;
    match c
    case CallCreate => CreatedKernel(s);
    case CallAllocate(t, base, limit) =>
      AllocateKeeps(s, t, base, limit);
      GrowsKernel(s, Allocate(s, t, base, limit), t);
    case CallIdentity(t, base, limit) =>
      IdentityKeeps(s, t, base, limit);
      GrowsKernel(s, Identity(s, t, base, limit), t);
    case CallFree(t) =>
      FreeKeepsInv(s, t);
      InvShape(FreeTable(s, t).value);
      EmptiedKernel(s, FreeTable(s, t).value, t);
  }

  lemma KernelStaysTrans(s: MemState, s1: MemState, s2: MemState)
    requires KernelStays(s, s1) && KernelStays(s1, s2)
    ensures KernelStays(s, s2)
  {
    hide Shape, Get;
  }

  lemma KernelStaysSelf(s: MemState)
    requires MemInv(s)
    ensures KernelStays(s, s)
  {
    KernelBound(s);
  }

  lemma {:induction false} RunKernel(s: MemState, calls: seq<Call>)
    requires MemInv(s) && Permitted(s, calls) && Run(s, calls).Some?
    ensures KernelStays(s, Run(s, calls).value)
    decreases |calls|
  {
    if calls == [] {
      KernelStaysSelf(s);
    } else {
      assert Guard(s, calls[0]);
      hide *;
      PerformKeeps(s, calls[0]);
      RunFirst(s, calls);
      PerformKernel(s, calls[0]);
      RunKernel(Perform(s, calls[0]).value, calls[1..]);
      KernelStaysTrans(s, Perform(s, calls[0]).value, Run(s, calls).value);
    }
  }

  lemma SelfMappedAlways(s: MemState, s': MemState)
    requires KernelStays(s, s') && REACHED_PAGES <= PAGES && SelfMapped(s, KERNEL_TABLE, 0, REACHED_PAGES)
    ensures SelfMapped(s', KERNEL_TABLE, 0, REACHED_PAGES)
  {
    hide Shape, Get;
  }

  // ----- where a new table's memory comes from

  lemma FedFromFree(m: Map, m': Map, t: nat, size: nat)
    requires Feeds(m, m', t) && FreeBelow(m, size) && OwnBelow(m, t, size)
    ensures FreeBelow(m', size) && OwnBelow(m', t, size)
  {
    hide OwnedBy, FreeAt;
  }

  lemma GrowsMap(s: MemState, s': MemState, t: nat)
    requires Grows(s, s', t)
    ensures Feeds(s.map_, s'.map_, t)
  {
  }

  /** With all free memory below an address, so is what the new process gets. */
  lemma ImageBelow(s: MemState, length: nat, argv: seq<Arg>, size: nat)
    requires MemInv(s) && Shape(s) && FreeBelow(s.map_, size)
    requires length <= 0x3F_F000 && ArgSize(argv) <= 0xFFF && FitsUserArea(length, argv)
    ensures OwnBelow(ImageState(s, length, argv).1.map_, ImageState(s, length, argv).2, size)
  {
    hide *;
    var (s0, t) := CreateTable(s);
    CreateKeepsInv(s);
    NothingOwned(s0.map_, t, size);
    var k := KernelMapped(s0, t);
    KernelMappedRight(s0, t);
    GrowsInv(s0, k, t);
    GrowsBound(s0, k, t);
    GrowsMap(s0, k, t);
    FedFromFree(s0.map_, k.map_, t, size);
    CodeRange(length);
    StackRange(argv);
    ImageStateIs(s, length, argv);
    AllocateIs(k, t, CODE_BASE, length);
    var s1 := AllocatePages(k, t, 0x600, PageCount(CODE_BASE, length));
    AllocatePagesGrows(k, t, 0x600, PageCount(CODE_BASE, length));
    GrowsInv(k, s1, t);
    GrowsBound(k, s1, t);
    GrowsMap(k, s1, t);
    FedFromFree(k.map_, s1.map_, t, size);
    AllocateIs(s1, t, StackPointer(argv), ArgSize(argv));
    var s2 := AllocatePages(s1, t, STACK_PAGE, 1);
    AllocatePagesGrows(s1, t, STACK_PAGE, 1);
    GrowsMap(s1, s2, t);
    FedFromFree(s1.map_, s2.map_, t, size);
  }

  lemma NothingOwned(m: Map, t: nat, size: nat)
    requires forall x: int :: !OwnedBy(m, t, x)
    ensures OwnBelow(m, t, size)
  {
  }

  // ----- from boot on

  /** The usable memory above the kernel ends where the kernel's mapping does, or before. */
  ghost predicate SmallMachine(rs: seq<Region>) {
    UsualList(rs) && forall r :: r in rs && High(r) ==> r.base + r.limit <= REACH
  }

  lemma InitialFreeBelow(rs: seq<Region>)
    requires UsualMachine(rs) && forall r :: r in rs && High(r) ==> r.base + r.limit <= REACH
    ensures forall x: int :: Usable(InitialMap(rs), x) ==> x < REACH
  {
    InitialMapIsSound(rs);
    var m := InitialMap(rs);
    hide MapInv, High, Top, IsFree, OwnedBy, BlockOf;
    forall x: int | Usable(m, x)
      ensures x < REACH
    {
      assert FreeAt(m, x);
      var k: nat :| k < |m| && IsFree(m[k]) && m[k].base <= x < Top(m[k]);
      RegionBlockTop(rs, k);
    }
  }

  lemma RegionBlockTop(rs: seq<Region>, k: nat)
    requires UsualMachine(rs) && k < |rs| && IsFree(InitialMap(rs)[k])
    ensures High(rs[k]) && rs[k] in rs && Top(InitialMap(rs)[k]) == rs[k].base + rs[k].limit
  {
    RegionBlock(rs[k]);
  }

  lemma BootMap(rs: seq<Region>)
    requires UsualMachine(rs)
    ensures Boot(rs).map_ == InitialMap(rs)
  {
    FirstTableIsSound(rs);
    var s := FirstTable(rs);
    InvShape(s);
    assert InRange(0, MAPPED_AT_BOOT) && |s.tables| == 1 && s.tables[0].bound;
    assert Boot(rs) == Identity(s, KERNEL_TABLE, 0, MAPPED_AT_BOOT);
    hide MemInv, Boot, Identity;
    IdentityKeeps(s, KERNEL_TABLE, 0, MAPPED_AT_BOOT);
  }

  lemma ConservesBelow(m: Map, m': Map, size: nat)
    requires Conserves(m, m', false) && forall x: int :: Usable(m, x) ==> x < size
    ensures FreeBelow(m', size)
  {
    hide OwnedBy, FreeAt, Usable;
    forall x: int | FreeAt(m', x)
      ensures x < size
    {
      assert Usable(m', x) by { FreeIsUsable(m', x); }
    }
  }

  lemma FreeIsUsable(m: Map, x: int)
    requires FreeAt(m, x)
    ensures Usable(m, x)
  {
  }

  lemma SmallStaysSmall(rs: seq<Region>, calls: seq<Call>)
    requires SmallMachine(rs) && Permitted(BootFrom(rs), calls)
    ensures Run(BootFrom(rs), calls).Some? && MemInv(Run(BootFrom(rs), calls).value)
    ensures FreeBelow(Run(BootFrom(rs), calls).value.map_, REACH)
  {
    hide *;
    SmallInOrder(rs);
    BootFromIs(rs);
    BootIsSound(InOrder(rs));
    RunKeeps(BootFrom(rs), calls);
    BootMap(InOrder(rs));
    InitialFreeBelow(InOrder(rs));
    ConservesBelow(BootFrom(rs).map_, Run(BootFrom(rs), calls).value.map_, REACH);
  }

  lemma SmallInOrder(rs: seq<Region>)
    requires SmallMachine(rs)
    ensures UsualMachine(InOrder(rs)) && forall r :: r in InOrder(rs) && High(r) ==> r.base + r.limit <= REACH
  {
    SortedIsUsual(rs);
    RegionOrder();
    Sort.BubblePermutes(rs, RegionAfter);
    SameMembers(rs, InOrder(rs));
  }

  /** On a machine with at most 32 MB, after any permitted run from boot on: the kernel still sees
      the first 32 MB at their own addresses, and a process created while memory is left sees its
      program and its arguments. */
  lemma ProcessFromBootOn(rs: seq<Region>, calls: seq<Call>, ram: Ram, code: seq<Byte>, argv: seq<Arg>)
    requires SmallMachine(rs) && Permitted(BootFrom(rs), calls) && |ram| == REACH
    requires |code| <= 0x3F_F000 && ArgSize(argv) <= 0xFFF && AllStrings(argv) && FitsUserArea(|code|, argv)
    ensures Run(BootFrom(rs), calls).Some? && MemInv(Run(BootFrom(rs), calls).value)
    ensures Shape(Run(BootFrom(rs), calls).value)
    ensures var s := Run(BootFrom(rs), calls).value;
      && 0 < |s.tables| && REACHED_PAGES <= PAGES && SelfMapped(s, KERNEL_TABLE, 0, REACHED_PAGES)
      && (!NoneFree(ImageState(s, |code|, argv).1.map_) ==>
            && CreateImage(s, ram, code, argv).Some? && ArgSize(argv) <= STACK_TOP
            && var image, esp := CreateImage(s, ram, code, argv).value, StackPointer(argv);
            && Reads(image.ram, image.s, image.table, CODE_BASE, code)
            && Reads(image.ram, image.s, image.table, esp, ArgBlock(argv, esp))
            && ReadArgs(ArgBlock(argv, esp), esp) == Some(argv))
  {
    ReachIs();
    hide *;
    SmallInOrder(rs);
    BootFromIs(rs);
    BootIsSound(InOrder(rs));
    SmallStaysSmall(rs, calls);
    var s := Run(BootFrom(rs), calls).value;
    InvShape(s);
    KernelBound(s);
    RunKernel(BootFrom(rs), calls);
    SelfMappedAlways(BootFrom(rs), s);
    ImageBelow(s, |code|, argv, REACH);
    if !NoneFree(ImageState(s, |code|, argv).1.map_) { NewProcessSees(s, ram, code, argv); }
  }

  lemma ReachIs()
    ensures REACHED_PAGES == 8192 <= PAGES && REACH == REACHED_PAGES * PAGE_SIZE == MAPPED_AT_BOOT + 1
  {
  }
}
