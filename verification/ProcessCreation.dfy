/** Making the memory of a new process, on the page tables and the memory words themselves. */
module ProcessCreation {
  import opened MemoryMap
  import opened PageTables
  import opened PageInvariant
  import opened PageRuns
  import opened MemoryRuns
  import opened VirtualWrite
  import opened ProcessImage
  import M = Memory
  import opened Options

  lemma StringsSnoc(argv: seq<Arg>, i: nat)
    requires i < |argv|
    ensures Strings(argv[..i + 1]) == Strings(argv[..i]) + (argv[i] + [0])
    ensures Strings(argv) == Strings(argv[..i]) + Strings(argv[i..])
    decreases i
  {
    if i == 0 {
      assert argv[..1] == [argv[0]] && argv[..1][1..] == [] && argv[0..] == argv;
    } else {
      StringsSnoc(argv[1..], i - 1);
      assert argv[..i + 1][1..] == argv[1..][..i] && argv[..i][1..] == argv[1..][..i - 1]
        && argv[1..][i - 1..] == argv[i..];
    }
  }

  lemma StringsAll(argv: seq<Arg>)
    ensures argv[..|argv|] == argv && Strings(argv[..0]) == []
  {
  }

  /** A range within the stack page is covered once that page is mapped. */
  lemma StackCovered(s: MemState, t: nat, at: nat, n: nat)
    requires Shape(s) && t < |s.tables| && UserAt(s, t, STACK_PAGE) && STACK_BASE <= at && at + n <= STACK_TOP
    ensures InRange(at, n) && Covered(s, t, at, n)
  {
    assert at % PAGE_SIZE + n <= PAGE_SIZE && FirstPage(at) == STACK_PAGE && PageCount(at, n) == 1;
    hide Get, Shape;
  }

  lemma CodeCovered(s: MemState, t: nat, length: nat)
    requires Shape(s) && t < |s.tables| && length <= 0x3F_F000 && AllUser(s, t, 0x600, PageCount(CODE_BASE, length))
    ensures InRange(CODE_BASE, length) && Covered(s, t, CODE_BASE, length)
  {
    hide Get, Shape, PageCount, FirstPage, InRange;
    CodeRange(length);
    RangeFits(CODE_BASE, length);
    forall q: nat | 0x600 <= q < 0x600 + PageCount(CODE_BASE, length)
      ensures Get(s, t, q).mapped
    {
      assert UserAt(s, t, q);
    }
  }

  /** One write to the stack page. */
  method WriteStack(memory: M.Memory, t: nat, ram: array<Blocks.Byte>, source: seq<Blocks.Byte>, at: nat)
    requires MemInv(memory.State()) && Shape(memory.State()) && t < |memory.tables|
    requires UserAt(memory.State(), t, STACK_PAGE) && StackInRam(memory.State(), t, ram.Length)
    requires STACK_BASE <= at && at + |source| <= STACK_TOP
    modifies ram
    ensures InRange(at, |source|) && WriteVirtual(old(ram[..]), memory.State(), t, at, source) == Some(ram[..])
  {
    hide MemInv, Shape, UserAt, WriteVirtual, Covered, StackInRam, Get;
    StackCovered(memory.State(), t, at, |source|);
    StackWrite(ram[..], memory.State(), t, at, source);
    var ok := memory.WriteVirtualMemory(t, ram, source, at);
  }

  /** The size of the argument block. */
  method SizeOfArgs(argv: seq<Arg>) returns (size: nat)
    ensures size == ArgSize(argv)
  {
    size := 0;
    var i := 0;
    while i < |argv|
      invariant 0 <= i <= |argv| && size == |Strings(argv[..i])|
    {
      StringsSnoc(argv, i);
      size := size + |argv[i]| + 1;
      i := i + 1;
    }
    StringsAll(argv);
    size := size + (|argv| + 2) * 4;
  }

  lemma WriteArgsOne(ram: Ram, r: Ram, s: MemState, t: nat, argv: seq<Arg>, i: nat, at: nat)
    requires Shape(s) && t < |s.tables| && i < |argv| && at + |Strings(argv[i..])| < 0x8000_0000
    requires at + |argv[i]| + 1 < 0x8000_0000 && WriteVirtual(ram, s, t, at, argv[i] + [0]) == Some(r)
    ensures at + |argv[i]| + 1 + |Strings(argv[i + 1..])| < 0x8000_0000
    ensures WriteArgs(ram, s, t, argv[i..], at) == WriteArgs(r, s, t, argv[i + 1..], at + |argv[i]| + 1)
    ensures Pointers(argv[i..], at) == WordBytes(at) + Pointers(argv[i + 1..], at + |argv[i]| + 1)
    ensures |Strings(argv[i..])| == |argv[i]| + 1 + |Strings(argv[i + 1..])|
  {
    hide Shape, WriteVirtual, WordBytes;
    assert argv[i..][0] == argv[i] && argv[i..][1..] == argv[i + 1..];
  }

  lemma StringsFrom(argv: seq<Arg>, i: nat)
    requires i < |argv|
    ensures |argv[i]| + 1 <= |Strings(argv[i..])|
  {
    assert argv[i..][0] == argv[i];
  }

  lemma WriteArgsNone(ram: Ram, s: MemState, t: nat, argv: seq<Arg>, at: nat)
    requires Shape(s) && t < |s.tables| && at < 0x8000_0000
    ensures argv[|argv|..] == [] && Strings(argv[|argv|..]) == [] && argv[0..] == argv
    ensures WriteArgs(ram, s, t, argv[|argv|..], at) == Some(ram) && Pointers(argv[|argv|..], at) == []
  {
  }

  /** The arguments, one after the other, and the list of their addresses. */
  method WriteArguments(memory: M.Memory, t: nat, ram: array<Blocks.Byte>, argv: seq<Arg>, first: nat)
      returns (pointers: seq<Blocks.Byte>)
    requires MemInv(memory.State()) && Shape(memory.State()) && t < |memory.tables|
    requires UserAt(memory.State(), t, STACK_PAGE) && StackInRam(memory.State(), t, ram.Length)
    requires STACK_BASE <= first && first + |Strings(argv)| <= STACK_TOP
    modifies ram
    ensures WriteArgs(old(ram[..]), memory.State(), t, argv, first) == Some(ram[..])
    ensures pointers == Pointers(argv, first)
  {
    hide MemInv, Shape, UserAt, WriteVirtual, StackInRam, WriteArgs, Pointers, Strings, WordBytes;
    pointers := [];
    var at := first;
    var i := 0;
    WriteArgsNone(ram[..], memory.State(), t, argv, at);
    while i < |argv|
      invariant 0 <= i <= |argv| && first <= at && at + |Strings(argv[i..])| == first + |Strings(argv)| <= STACK_TOP
      invariant WriteArgs(ram[..], memory.State(), t, argv[i..], at)
        == WriteArgs(old(ram[..]), memory.State(), t, argv, first)
      invariant pointers + Pointers(argv[i..], at) == Pointers(argv, first)
    {
      StringsFrom(argv, i);
      ghost var before := ram[..];
      WriteStack(memory, t, ram, argv[i] + [0], at);
      WriteArgsOne(before, ram[..], memory.State(), t, argv, i, at);
      assert pointers + (WordBytes(at) + Pointers(argv[i + 1..], at + |argv[i]| + 1))
          == (pointers + WordBytes(at)) + Pointers(argv[i + 1..], at + |argv[i]| + 1);
      pointers := pointers + WordBytes(at);
      at := at + |argv[i]| + 1;
      i := i + 1;
    }
    WriteArgsNone(ram[..], memory.State(), t, argv, at);
  }

  /** The argument block. */
  method WriteArgumentBlock(memory: M.Memory, t: nat, ram: array<Blocks.Byte>, argv: seq<Arg>, size: nat)
    requires MemInv(memory.State()) && Shape(memory.State()) && t < |memory.tables|
    requires UserAt(memory.State(), t, STACK_PAGE) && StackInRam(memory.State(), t, ram.Length)
    requires size == ArgSize(argv) <= 0xFFF
    modifies ram
    ensures WriteBlock(old(ram[..]), memory.State(), t, argv) == Some(ram[..])
  {
    hide MemInv, Shape, UserAt, WriteVirtual, StackInRam, WriteArgs, Pointers, Strings, WordBytes, WriteBlock, ArgBlock;
    BlockShape(argv);
    ghost var r0 := ram[..];
    var esp := STACK_TOP - size;
    WriteStack(memory, t, ram, WordBytes(|argv|), esp);
    ghost var r1 := ram[..];
    var pointers := WriteArguments(memory, t, ram, argv, esp + (|argv| + 2) * 4);
    ghost var r2 := ram[..];
    WriteStack(memory, t, ram, pointers, esp + 8);
    BlockSteps(r0, memory.State(), t, argv, r1, r2, ram[..]);
    WriteStack(memory, t, ram, WordBytes(esp + 8), esp + 4);
  }

  /** The kernel's part of a new table. */
  method MapKernel(memory: M.Memory, t: nat)
    requires MemInv(memory.State()) && t < |memory.tables| && memory.tables[t].bound
    modifies memory
    ensures Shape(old(memory.State())) && MemInv(memory.State())
    ensures memory.State() == KernelMapped(old(memory.State()), t)
    ensures |memory.tables| == old(|memory.tables|) && memory.tables[t].bound
  {
    hide MemInv, Shape, Grows, Identity, KernelMapped, Unshared, UnboundEmpty, MapInv;
    KernelPages();
    InvShape(memory.State());
    KernelMappedTwice(memory.State(), t);
    ghost var s0 := memory.State();
    IdentityKeeps(s0, t, KERNEL_BASE, KERNEL_LIMIT);
    GrowsBound(s0, Identity(s0, t, KERNEL_BASE, KERNEL_LIMIT), t);
    memory.IdentityMap(t, KERNEL_BASE, KERNEL_LIMIT);
    ghost var s1 := memory.State();
    InvShape(s1);
    IdentityKeeps(s1, t, 0, 0xF_FFFF);
    GrowsBound(s1, Identity(s1, t, 0, 0xF_FFFF), t);
    memory.IdentityMap(t, 0, 0xF_FFFF);
  }

  /** Gives a table memory for a range. */
  method GiveMemory(memory: M.Memory, t: nat, base: nat, limit: nat)
    requires MemInv(memory.State()) && Guard(memory.State(), CallAllocate(t, base, limit))
    modifies memory
    ensures MemInv(memory.State()) && Shape(old(memory.State()))
    ensures memory.State() == Allocate(old(memory.State()), t, base, limit)
    ensures |memory.tables| == old(|memory.tables|) && memory.tables[t].bound
  {
    hide MemInv, Shape, Grows, Allocate, Unshared, UnboundEmpty, MapInv;
    InvShape(memory.State());
    AllocateKeeps(memory.State(), t, base, limit);
    GrowsBound(memory.State(), Allocate(memory.State(), t, base, limit), t);
    memory.AllocateMemory(t, base, limit);
  }

  /** The program, at its place. */
  method WriteProgram(memory: M.Memory, t: nat, ram: array<Blocks.Byte>, code: seq<Blocks.Byte>)
    requires MemInv(memory.State()) && Shape(memory.State()) && t < |memory.tables|
    requires OwnBelow(memory.State().map_, t, ram.Length)
    requires |code| <= 0x3F_F000 && AllUser(memory.State(), t, 0x600, PageCount(CODE_BASE, |code|))
    modifies ram
    ensures InRange(CODE_BASE, |code|)
    ensures WriteVirtual(old(ram[..]), memory.State(), t, CODE_BASE, code) == Some(ram[..])
  {
    hide MemInv, Shape, AllUser, Covered, WriteVirtual, Reads, OwnBelow, InRange, FirstPage, PageCount,
      StartsOrFitsPage;
    CodeRange(|code|);
    CodeCovered(memory.State(), t, |code|);
    CodeReads(ram[..], memory.State(), t, CODE_BASE, code);
    var ok := memory.WriteVirtualMemory(t, ram, code, CODE_BASE);
  }

  /** The memory of a new process: its page table, its program and its arguments. */
  method CreateProcess(memory: M.Memory, ram: array<Blocks.Byte>, code: seq<Blocks.Byte>, argv: seq<Arg>)
      returns (t: nat, esp: nat)
    requires MemInv(memory.State()) && |code| <= 0x3F_F000 && ArgSize(argv) <= 0xFFF && FitsUserArea(|code|, argv)
    requires var (_, s2, t) := ImageState(memory.State(), |code|, argv);
      !NoneFree(s2.map_) && OwnBelow(s2.map_, t, ram.Length)
    modifies memory, ram
    ensures Shape(old(memory.State()))
    ensures CreateImage(old(memory.State()), old(ram[..]), code, argv) == Some(Image(memory.State(), ram[..], t))
    ensures ArgSize(argv) <= STACK_TOP && esp == StackPointer(argv)
  {
    hide MemInv, Shape, NoneFree, ImageState, CreateImage, CreateTable, KernelMapped, Allocate, WriteVirtual,
      WriteBlock,
      ArgSize, StackPointer, AllUser, UserAt, SelfMapped, PageCount, FirstPage, InRange, StackInRam,
      Grows, FitsUserArea, Get, OwnBelow;
    ghost var s, r0 := memory.State(), ram[..];
    InvShape(s);
    CodeRange(|code|);
    StackRange(argv);
    ImageStateRight(s, |code|, argv);
    ImageStateIs(s, |code|, argv);
    CreateImageIs(s, r0, code, argv);
    CreateKeepsInv(s);
    ghost var (s1, s2, t0) := ImageState(s, |code|, argv);
    OwnBelowBefore(s1, s2, t0, ram.Length);
    t := memory.CreatePageTable();
    MapKernel(memory, t);
    GiveMemory(memory, t, CODE_BASE, |code|);
    assert memory.State() == s1;
    WriteProgram(memory, t, ram, code);
    var size := SizeOfArgs(argv);
    esp := STACK_TOP - size;
    StackPointerIs(argv);
    GiveMemory(memory, t, esp, size);
    assert memory.State() == s2;
    StackIsInRam(s2, t, ram.Length);
    WriteArgumentBlock(memory, t, ram, argv, size);
  }

  lemma StackPointerIs(argv: seq<Arg>)
    requires ArgSize(argv) <= STACK_TOP
    ensures StackPointer(argv) == STACK_TOP - ArgSize(argv)
  {
  }
}
