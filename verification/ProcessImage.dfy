/** The memory a new process starts with: its program at a fixed address, and on its stack page
    the block from which its entry code reads the argument count and the arguments. */
module ProcessImage {
  import opened Blocks
  import opened MemoryMap
  import opened PageTables
  import opened PageInvariant
  import opened PageRuns
  import opened VirtualWrite
  import opened Options

  const KERNEL_BASE: nat := 0x10_0000
  const KERNEL_LIMIT: nat := 0x4F_FFFF
  const CODE_BASE: nat := 0x60_0000
  const STACK_TOP: nat := 0x9F_FFFF
  const STACK_PAGE: nat := 0x9FF
  const STACK_BASE: nat := 0x9F_F000

  /** A string without its terminator. */
  type Arg = seq<Byte>

  predicate NoZeros(a: Arg) {
    forall i :: 0 <= i < |a| ==> a[i] != 0
  }

  predicate AllStrings(argv: seq<Arg>) {
    forall i :: 0 <= i < |argv| ==> NoZeros(argv[i])
  }

  // ----- the argument block

  /** The arguments with their terminators, one after the other. */
  function Strings(argv: seq<Arg>): seq<Byte> {
    if argv == [] then [] else argv[0] + [0] + Strings(argv[1..])
  }

  function ArgSize(argv: seq<Arg>): nat { |Strings(argv)| + (|argv| + 2) * 4 }

  function WordBytes(w: Word): (b: seq<Byte>)
    ensures |b| == 4
  {
    [ByteOf(w, 0), ByteOf(w, 1), ByteOf(w, 2), ByteOf(w, 3)]
  }

  /** The addresses of the arguments, the first one being at address first. */
  function Pointers(argv: seq<Arg>, first: nat): (p: seq<Byte>)
    requires first + |Strings(argv)| < 0x1_0000_0000
    ensures |p| == 4 * |argv|
  {
    if argv == [] then []
    else
      assert |Strings(argv)| == |argv[0]| + 1 + |Strings(argv[1..])|;
      WordBytes(first) + Pointers(argv[1..], first + |argv[0]| + 1)
  }

  /** The block at the initial stack pointer. */
  function ArgBlock(argv: seq<Arg>, esp: nat): (b: seq<Byte>)
    requires esp + ArgSize(argv) < 0x1_0000_0000
    ensures |b| == ArgSize(argv)
  {
    WordBytes(|argv|) + WordBytes(esp + 8) + Pointers(argv, esp + 8 + 4 * |argv|) + Strings(argv)
  }

  // ----- reading it back

  function WordFrom(b: seq<Byte>, k: nat): Word
    requires k + 4 <= |b|
  {
    b[k] as int + 0x100 * b[k + 1] as int + 0x1_0000 * b[k + 2] as int + 0x100_0000 * b[k + 3] as int
  }

  /** The characters from k up to a zero byte. */
  function StringFrom(b: seq<Byte>, k: nat): seq<Byte>
    requires k <= |b|
    decreases |b| - k
  {
    if k == |b| || b[k] == 0 then [] else [b[k]] + StringFrom(b, k + 1)
  }

  /** The n arguments whose addresses stand at k, in a block that starts at address esp. */
  function ArgsFrom(b: seq<Byte>, esp: nat, k: nat, n: nat): Option<seq<seq<Byte>>>
    decreases n
  {
    if n == 0 then Some([])
    else if k + 4 > |b| || WordFrom(b, k) < esp || WordFrom(b, k) - esp > |b| then None
    else match ArgsFrom(b, esp, k + 4, n - 1)
      case None => None
      case Some(rest) => Some([StringFrom(b, WordFrom(b, k) - esp)] + rest)
  }

  /** What the program's entry code makes of the block: a count, the address of the list of
      addresses, and the arguments. */
  function ReadArgs(b: seq<Byte>, esp: nat): Option<seq<seq<Byte>>> {
    if |b| < 8 || WordFrom(b, 4) < esp then None
    else ArgsFrom(b, esp, WordFrom(b, 4) - esp, WordFrom(b, 0))
  }

  /** The bytes p stand at k. */
  predicate Holds(b: seq<Byte>, k: nat, p: seq<Byte>) {
    k + |p| <= |b| && forall i :: 0 <= i < |p| ==> p[i] == b[k + i]
  }

  lemma HoldsParts(b: seq<Byte>, k: nat, p: seq<Byte>, q: seq<Byte>)
    ensures Holds(b, k, p + q) <==> Holds(b, k, p) && Holds(b, k + |p|, q)
  {
    var pq := p + q;
    if Holds(b, k, pq) {
      forall i: nat | i < |p| ensures p[i] == b[k + i] { assert pq[i] == p[i]; }
      forall i: nat | i < |q| ensures q[i] == b[k + |p| + i] { assert pq[|p| + i] == q[i]; }
    }
    if Holds(b, k, p) && Holds(b, k + |p|, q) {
      forall i: nat | i < |pq|
        ensures pq[i] == b[k + i]
      {
        if i < |p| { assert pq[i] == p[i]; } else { assert pq[i] == q[i - |p|] == b[k + |p| + (i - |p|)]; }
      }
    }
  }

  lemma WordReadsBack(b: seq<Byte>, k: nat, w: Word)
    requires Holds(b, k, WordBytes(w))
    ensures k + 4 <= |b| && WordFrom(b, k) == w
  {
    var p := WordBytes(w);
    assert p[0] == b[k] && p[1] == b[k + 1] && p[2] == b[k + 2] && p[3] == b[k + 3];
    WordRoundTrip(w);
  }

  lemma {:induction false} StringReadsBack(b: seq<Byte>, k: nat, a: Arg)
    requires NoZeros(a) && Holds(b, k, a + [0])
    ensures k < |b| && StringFrom(b, k) == a
    decreases |a|
  {
    assert (a + [0])[0] == b[k + 0];
    if a != [] {
      assert a[0] != 0 && NoZeros(a[1..]);
      assert a + [0] == [a[0]] + (a[1..] + [0]);
      HoldsParts(b, k, [a[0]], a[1..] + [0]);
      StringReadsBack(b, k + 1, a[1..]);
      assert a == [a[0]] + a[1..];
    }
  }

  lemma ListSplits(argv: seq<Arg>, first: nat)
    requires argv != [] && first + |Strings(argv)| < 0x1_0000_0000
    ensures var a, rest := argv[0], argv[1..];
      && Strings(argv) == (a + [0]) + Strings(rest) && |Strings(argv)| == |a| + 1 + |Strings(rest)|
      && Pointers(argv, first) == WordBytes(first) + Pointers(rest, first + |a| + 1)
      && argv == [a] + rest
  {
    hide WordBytes;
  }

  lemma ArgsFromMore(b: seq<Byte>, esp: nat, k: nat, n: nat, p: nat, rest: seq<seq<Byte>>)
    requires n > 0 && k + 4 <= |b| && WordFrom(b, k) == esp + p
    requires p <= |b| && ArgsFrom(b, esp, k + 4, n - 1) == Some(rest)
    ensures ArgsFrom(b, esp, k, n) == Some([StringFrom(b, p)] + rest)
  {
    hide StringFrom, WordFrom;
  }

  /** The addresses at k and the strings at j read back as the arguments. */
  lemma {:induction false} ArgsReadBack(b: seq<Byte>, esp: nat, argv: seq<Arg>, k: nat, j: nat)
    requires AllStrings(argv) && esp + |b| < 0x1_0000_0000 && j + |Strings(argv)| <= |b|
    requires Holds(b, k, Pointers(argv, esp + j)) && Holds(b, j, Strings(argv))
    ensures ArgsFrom(b, esp, k, |argv|) == Some(argv)
    decreases |argv|
  {
    if argv != [] {
      var a, rest := argv[0], argv[1..];
      ListSplits(argv, esp + j);
      assert NoZeros(a) && AllStrings(rest);
      hide AllStrings, NoZeros, Pointers, Strings, StringFrom, WordFrom, Holds, ArgsFrom, WordBytes;
      HoldsParts(b, k, WordBytes(esp + j), Pointers(rest, esp + j + |a| + 1));
      HoldsParts(b, j, a + [0], Strings(rest));
      WordReadsBack(b, k, esp + j);
      StringReadsBack(b, j, a);
      ArgsReadBack(b, esp, rest, k + 4, j + |a| + 1);
      ArgsFromMore(b, esp, k, |argv|, j, rest);
    }
  }

  /** The block decodes to the arguments it was made from. */
  lemma BlockReadsBack(argv: seq<Arg>, esp: nat)
    requires AllStrings(argv) && esp + ArgSize(argv) < 0x1_0000_0000
    ensures ReadArgs(ArgBlock(argv, esp), esp) == Some(argv)
  {
    hide ArgsFrom, Pointers, Strings, WordFrom, ArgBlock, Holds, WordBytes, AllStrings, ArgSize;
    BlockParts(argv, esp);
    var b, n := ArgBlock(argv, esp), |argv|;
    WordReadsBack(b, 0, n);
    WordReadsBack(b, 4, esp + 8);
    ArgsReadBack(b, esp, argv, 8, 8 + 4 * n);
  }

  lemma BlockParts(argv: seq<Arg>, esp: nat)
    requires esp + ArgSize(argv) < 0x1_0000_0000
    ensures var b, n := ArgBlock(argv, esp), |argv|;
      && |b| == |Strings(argv)| + (n + 2) * 4
      && Holds(b, 0, WordBytes(n)) && Holds(b, 4, WordBytes(esp + 8))
      && Holds(b, 8, Pointers(argv, esp + 8 + 4 * n)) && Holds(b, 8 + 4 * n, Strings(argv))
  {
    var b, n := ArgBlock(argv, esp), |argv|;
    var w0, w1, p, q := WordBytes(n), WordBytes(esp + 8), Pointers(argv, esp + 8 + 4 * n), Strings(argv);
    assert b == ((w0 + w1) + p) + q;
    assert Holds(b, 0, ((w0 + w1) + p) + q);
    hide Pointers, Strings, ArgBlock, Holds, WordBytes;
    HoldsParts(b, 0, (w0 + w1) + p, q);
    HoldsParts(b, 0, w0 + w1, p);
    HoldsParts(b, 0, w0, w1);
  }

  // ----- creating the process

  /** The arguments are copied one after the other. */
  function WriteArgs(ram: Ram, s: MemState, t: nat, argv: seq<Arg>, at: nat): Option<Ram>
    requires Shape(s) && t < |s.tables| && at + |Strings(argv)| < 0x8000_0000
    decreases |argv|
  {
    if argv == [] then Some(ram)
    else
      assert |Strings(argv)| == |argv[0]| + 1 + |Strings(argv[1..])|;
      match WriteVirtual(ram, s, t, at, argv[0] + [0])
      case None => None
      case Some(r) => WriteArgs(r, s, t, argv[1..], at + |argv[0]| + 1)
  }

  function StackPointer(argv: seq<Arg>): nat
    requires ArgSize(argv) <= STACK_TOP
  {
    STACK_TOP - ArgSize(argv)
  }

  /** The argument block is written in five steps. */
  function WriteBlock(ram: Ram, s: MemState, t: nat, argv: seq<Arg>): Option<Ram>
    requires Shape(s) && t < |s.tables| && ArgSize(argv) <= STACK_TOP
  {
    var esp := StackPointer(argv);
    var first := esp + 4 * (|argv| + 2);
    match WriteVirtual(ram, s, t, esp, WordBytes(|argv|))
    case None => None
    case Some(r1) =>
      match WriteArgs(r1, s, t, argv, first)
      case None => None
      case Some(r2) =>
        match WriteVirtual(r2, s, t, esp + 8, Pointers(argv, first))
        case None => None
        case Some(r3) => WriteVirtual(r3, s, t, esp + 4, WordBytes(esp + 8))
  }

  function KernelMapped(s: MemState, t: nat): (s': MemState)
    requires Shape(s) && t < |s.tables|
    ensures Shape(s') && |s'.tables| == |s.tables|
  {
    Identity(Identity(s, t, KERNEL_BASE, KERNEL_LIMIT), t, 0, 0xF_FFFF)
  }

  predicate FitsUserArea(length: nat, argv: seq<Arg>) {
    CODE_BASE + length <= 0x8000_0000 && ArgSize(argv) <= STACK_TOP
  }

  datatype Image = Image(s: MemState, ram: Ram, table: nat)

  function CreateImage(s: MemState, ram: Ram, code: seq<Byte>, argv: seq<Arg>): Option<Image>
    requires Shape(s)
    requires FitsUserArea(|code|, argv)
  {
    var (s1, t) := CreateTable(s);
    var s2 := Allocate(KernelMapped(s1, t), t, CODE_BASE, |code|);
    match WriteVirtual(ram, s2, t, CODE_BASE, code)
    case None => None
    case Some(r1) =>
      var s3 := Allocate(s2, t, StackPointer(argv), ArgSize(argv));
      match WriteBlock(r1, s3, t, argv)
      case None => None
      case Some(r2) => Some(Image(s3, r2, t))
  }

  // ----- writes within one page

  /** Memory with the bytes put at an address. */
  function Put(ram: Ram, at: nat, bytes: seq<Byte>): (r: Ram)
    requires at + |bytes| <= |ram|
    ensures |r| == |ram|
  {
    Splice(ram, at, bytes)
  }

  lemma OnePageCount(base: nat, limit: nat)
    requires base % PAGE_SIZE + limit <= PAGE_SIZE
    ensures PageCount(base, limit) == 1 && OffsetAt(base, 0) == base % PAGE_SIZE && LengthAt(limit, 0) == limit
  {
  }

  /** A write that stays within a page is one splice of its frame. */
  lemma OnePageWrite(ram: Ram, s: MemState, t: nat, base: nat, source: seq<Byte>)
    requires Shape(s) && t < |s.tables| && InRange(base, |source|) && base % PAGE_SIZE + |source| <= PAGE_SIZE
    requires FirstPage(base) < PAGES && Get(s, t, FirstPage(base)).frame * PAGE_SIZE + PAGE_SIZE <= |ram|
    ensures WriteVirtual(ram, s, t, base, source)
      == Some(Put(ram, Get(s, t, FirstPage(base)).frame * PAGE_SIZE + base % PAGE_SIZE, source))
  {
    OnePageCount(base, |source|);
    var frames := FramesOf(s, t, base, |source|);
    assert frames[0] == Get(s, t, FirstPage(base) + 0).frame;
    hide Get, Shape, FramesOf, PageCount, OffsetAt, LengthAt, FirstPage;
    WriteFromMore(ram, frames, base, source, 0);
    assert source[PAGE_SIZE * 0..PAGE_SIZE * 0 + |source|] == source;
  }

  /** The stack page's frame lies in a memory of this size. */
  predicate StackInRam(s: MemState, t: nat, size: nat)
    requires Shape(s) && t < |s.tables|
  {
    Get(s, t, STACK_PAGE).frame * PAGE_SIZE + PAGE_SIZE <= size
  }

  function StackPlace(s: MemState, t: nat, at: nat): nat
    requires Shape(s) && t < |s.tables| && STACK_BASE <= at
  {
    Get(s, t, STACK_PAGE).frame * PAGE_SIZE + (at - STACK_BASE)
  }

  lemma StackPlaces(s: MemState, t: nat, at: nat, k: nat)
    requires Shape(s) && t < |s.tables| && STACK_BASE <= at
    ensures StackPlace(s, t, at + k) == StackPlace(s, t, at) + k
  {
  }

  /** Within the stack page, a write at an address is a splice this far into its frame. */
  lemma StackWrite(ram: Ram, s: MemState, t: nat, at: nat, source: seq<Byte>)
    requires Shape(s) && t < |s.tables| && STACK_BASE <= at && at + |source| <= STACK_TOP
    requires StackInRam(s, t, |ram|)
    ensures StackPlace(s, t, at) + |source| <= |ram|
    ensures WriteVirtual(ram, s, t, at, source) == Some(Put(ram, StackPlace(s, t, at), source))
  {
    assert at % PAGE_SIZE == at - STACK_BASE && FirstPage(at) == STACK_PAGE;
    hide Get, Shape, WriteVirtual;
    OnePageWrite(ram, s, t, at, source);
  }

  lemma PutTwice(ram: Ram, at: nat, a: seq<Byte>, b: seq<Byte>)
    requires at + |a| + |b| <= |ram|
    ensures Put(Put(ram, at, a), at + |a|, b) == Put(ram, at, a + b)
  {
    SpliceTwice(ram, at, a, b);
  }

  lemma {:induction false} ArgsWritten(ram: Ram, s: MemState, t: nat, argv: seq<Arg>, at: nat)
    requires Shape(s) && t < |s.tables| && STACK_BASE <= at && at + |Strings(argv)| <= STACK_TOP
    requires StackInRam(s, t, |ram|)
    ensures StackPlace(s, t, at) + |Strings(argv)| <= |ram|
    ensures WriteArgs(ram, s, t, argv, at) == Some(Put(ram, StackPlace(s, t, at), Strings(argv)))
    decreases |argv|
  {
    hide *;
    StackFits(ram, s, t, at, |Strings(argv)|);
    ArgsUnfold(ram, s, t, argv, at);
    if argv != [] {
      var a, rest := argv[0] + [0], argv[1..];
      StackWrite(ram, s, t, at, a);
      StackPlaces(s, t, at, |a|);
      var r := Put(ram, StackPlace(s, t, at), a);
      ArgsWritten(r, s, t, rest, at + |a|);
      PutTwice(ram, StackPlace(s, t, at), a, Strings(rest));
    }
  }

  lemma ArgsUnfold(ram: Ram, s: MemState, t: nat, argv: seq<Arg>, at: nat)
    requires Shape(s) && t < |s.tables| && at + |Strings(argv)| < 0x8000_0000
    ensures argv == [] ==> Strings(argv) == [] && WriteArgs(ram, s, t, argv, at) == Some(ram)
    ensures argv != [] ==>
      var a, rest := argv[0] + [0], argv[1..];
      && Strings(argv) == a + Strings(rest)
      && WriteArgs(ram, s, t, argv, at) ==
         match WriteVirtual(ram, s, t, at, a)
         case None => None
         case Some(r) => WriteArgs(r, s, t, rest, at + |a|)
    ensures forall x: nat :: x <= |ram| ==> Put(ram, x, []) == ram
  {
    hide Shape, WriteVirtual;
  }

  /** Four pieces spliced in, in the order the kernel writes them. */
  lemma FourSplices(ram: Ram, at: nat, a: seq<Byte>, b: seq<Byte>, c: seq<Byte>, d: seq<Byte>)
    requires at + |a| + |b| + |c| + |d| <= |ram|
    ensures var r1 := Put(ram, at, a);
      var r2 := Put(r1, at + |a| + |b| + |c|, d);
      var r3 := Put(r2, at + |a| + |b|, c);
      Put(r3, at + |a|, b) == Put(ram, at, a + b + c + d)
  {
    hide Splice;
  }

  lemma StackFits(ram: Ram, s: MemState, t: nat, esp: nat, n: nat)
    requires Shape(s) && t < |s.tables| && StackInRam(s, t, |ram|)
    requires STACK_BASE <= esp && esp + n <= STACK_TOP
    ensures StackPlace(s, t, esp) + n <= |ram| && STACK_TOP < 0x8000_0000
  {
  }

  /** The two writes from the ends of the block. */
  lemma OuterWrites(ram: Ram, s: MemState, t: nat, esp: nat, w: seq<Byte>, n: nat, argv: seq<Arg>)
    requires Shape(s) && t < |s.tables| && StackInRam(s, t, |ram|)
    requires |w| == 4 && STACK_BASE <= esp && esp + 8 + n + |Strings(argv)| == STACK_TOP
    ensures StackPlace(s, t, esp) + 8 + n + |Strings(argv)| <= |ram|
    ensures var at := StackPlace(s, t, esp);
      && WriteVirtual(ram, s, t, esp, w) == Some(Put(ram, at, w))
      && WriteArgs(Put(ram, at, w), s, t, argv, esp + 8 + n) == Some(Put(Put(ram, at, w), at + 8 + n, Strings(argv)))
  {
    hide *;
    StackFits(ram, s, t, esp, 8 + n + |Strings(argv)|);
    StackPlaces(s, t, esp, 8 + n);
    StackWrite(ram, s, t, esp, w);
    ArgsWritten(Put(ram, StackPlace(s, t, esp), w), s, t, argv, esp + 8 + n);
  }

  /** The two writes between them. */
  lemma InnerWrites(ram: Ram, s: MemState, t: nat, esp: nat, w: seq<Byte>, p: seq<Byte>)
    requires Shape(s) && t < |s.tables| && StackInRam(s, t, |ram|)
    requires |w| == 4 && STACK_BASE <= esp && esp + 8 + |p| <= STACK_TOP
    ensures StackPlace(s, t, esp) + 8 + |p| <= |ram|
    ensures var at := StackPlace(s, t, esp);
      && WriteVirtual(ram, s, t, esp + 8, p) == Some(Put(ram, at + 8, p))
      && WriteVirtual(Put(ram, at + 8, p), s, t, esp + 4, w) == Some(Put(Put(ram, at + 8, p), at + 4, w))
  {
    hide *;
    StackFits(ram, s, t, esp, 8 + |p|);
    StackPlaces(s, t, esp, 8);
    StackPlaces(s, t, esp, 4);
    StackWrite(ram, s, t, esp + 8, p);
    StackWrite(Put(ram, StackPlace(s, t, esp) + 8, p), s, t, esp + 4, w);
  }

  lemma BlockSteps(ram: Ram, s: MemState, t: nat, argv: seq<Arg>, r1: Ram, r2: Ram, r3: Ram)
    requires Shape(s) && t < |s.tables| && ArgSize(argv) <= 0xFFF
    requires WriteVirtual(ram, s, t, StackPointer(argv), WordBytes(|argv|)) == Some(r1)
    requires WriteArgs(r1, s, t, argv, StackPointer(argv) + 4 * (|argv| + 2)) == Some(r2)
    requires WriteVirtual(r2, s, t, StackPointer(argv) + 8, Pointers(argv, StackPointer(argv) + 4 * (|argv| + 2)))
      == Some(r3)
    ensures WriteBlock(ram, s, t, argv)
      == WriteVirtual(r3, s, t, StackPointer(argv) + 4, WordBytes(StackPointer(argv) + 8))
  {
    hide WriteVirtual, WriteArgs, Shape, WordBytes, Pointers, Strings;
  }

  /** Written in that order, the block ends up in one piece. */
  lemma BlockWritten(ram: Ram, s: MemState, t: nat, argv: seq<Arg>)
    requires Shape(s) && t < |s.tables| && ArgSize(argv) <= 0xFFF
    requires StackInRam(s, t, |ram|)
    ensures var esp := StackPointer(argv);
      && StackPlace(s, t, esp) + ArgSize(argv) <= |ram|
      && WriteBlock(ram, s, t, argv) == Some(Put(ram, StackPlace(s, t, esp), ArgBlock(argv, esp)))
  {
    hide *;
    BlockShape(argv);
    var esp, n := StackPointer(argv), |argv|;
    var first := esp + 4 * (n + 2);
    var w0, w1, p, q := WordBytes(n), WordBytes(esp + 8), Pointers(argv, first), Strings(argv);
    var at := StackPlace(s, t, esp);
    OuterWrites(ram, s, t, esp, w0, |p|, argv);
    var r2 := Put(Put(ram, at, w0), at + 8 + |p|, q);
    InnerWrites(r2, s, t, esp, w1, p);
    BlockSteps(ram, s, t, argv, Put(ram, at, w0), r2, Put(r2, at + 8, p));
    FourSplices(ram, at, w0, w1, p, q);
  }

  lemma BlockShape(argv: seq<Arg>)
    requires ArgSize(argv) <= 0xFFF
    ensures ArgSize(argv) <= STACK_TOP
    ensures var esp, n := StackPointer(argv), |argv|;
      var first := esp + 4 * (n + 2);
      && STACK_BASE <= esp && first + |Strings(argv)| == STACK_TOP < 0x8000_0000
      && ArgSize(argv) == |Strings(argv)| + (n + 2) * 4
      && |Pointers(argv, first)| == 4 * n && first == esp + 8 + 4 * n
      && ArgBlock(argv, esp) == WordBytes(n) + WordBytes(esp + 8) + Pointers(argv, first) + Strings(argv)
  {
    hide Strings, Pointers, WordBytes;
  }

  // ----- what the new table maps

  /** Pages outside the range translate as before. */
  lemma {:induction false} IdentityElsewhere(s: MemState, t: nat, p: nat, n: nat, frame: nat, q: nat)
    requires MemInv(s) && Shape(s) && t < |s.tables| && s.tables[t].bound
    requires p + n <= PAGES && q < PAGES && !(p <= q < p + n)
    ensures Get(IdentityPages(s, t, p, n, frame), t, q) == Get(s, t, q)
    decreases n
  {
    hide *;
    if n == 0 {
      IdentityNone(s, t, p, frame);
    } else {
      IdentityMore(s, t, p, n, frame);
      var (s1, next) := IdentityPage(s, t, p, frame);
      IdentityStepGrows(s, t, p, frame);
      GrowsBound(s, s1, t);
      GrowsInv(s, s1, t);
      IdentityElsewhere(s1, t, p + 1, n - 1, next, q);
    }
  }

  lemma KernelPages()
    ensures FirstPage(KERNEL_BASE) == 0x100 && PageCount(KERNEL_BASE, KERNEL_LIMIT) == 0x500
    ensures FirstPage(0) == 0 && PageCount(0, 0xF_FFFF) == 0x100
    ensures InRange(KERNEL_BASE, KERNEL_LIMIT) && InRange(0, 0xF_FFFF)
    ensures 0x600 <= PAGES
  {
  }

  lemma IdentityIs(s: MemState, t: nat, base: nat, limit: nat)
    requires Shape(s) && t < |s.tables| && InRange(base, limit)
    ensures FirstPage(base) + PageCount(base, limit) <= PAGES
    ensures Identity(s, t, base, limit) == IdentityPages(s, t, FirstPage(base), PageCount(base, limit), FirstPage(base))
  {
    RangeFits(base, limit);
  }

  lemma NothingMapped(s: MemState, t: nat, p: nat, n: nat)
    requires Shape(s) && t < |s.tables| && p + n <= PAGES
    requires forall q: nat :: p <= q < p + n ==> !Get(s, t, q).mapped
    ensures OnlyTailMapped(s, t, p, n)
  {
  }

  lemma SelfMappedJoin(s: MemState, t: nat, p: nat, n: nat, k: nat)
    requires Shape(s) && t < |s.tables| && p + n + k <= PAGES
    requires SelfMapped(s, t, p, n) && SelfMapped(s, t, p + n, k)
    ensures SelfMapped(s, t, p, n + k)
  {
    hide Get, Shape;
  }

  lemma SelfMappedStays(s: MemState, s': MemState, t: nat, p: nat, n: nat)
    requires Shape(s) && Shape(s') && t < |s.tables| && t < |s'.tables| && p + n <= PAGES && SelfMapped(s, t, p, n)
    requires forall q: nat :: p <= q < p + n ==> Get(s', t, q) == Get(s, t, q)
    ensures SelfMapped(s', t, p, n)
  {
    hide Get, Shape;
  }

  /** One range of an unmapped stretch is mapped to itself and nothing else changes. */
  lemma FreshIdentity(s: MemState, t: nat, p: nat, n: nat)
    requires MemInv(s) && Shape(s) && t < |s.tables| && s.tables[t].bound && p + n <= PAGES
    requires forall q: nat :: p <= q < p + n ==> !Get(s, t, q).mapped
    ensures var s' := IdentityPages(s, t, p, n, p);
      && Grows(s, s', t) && SelfMapped(s', t, p, n) && s'.map_ == s.map_
      && forall q: nat :: q < PAGES && !(p <= q < p + n) ==> Get(s', t, q) == Get(s, t, q)
  {
    hide *;
    NothingMapped(s, t, p, n);
    IdentityExactlyFrom(s, t, p, n, p);
    IdentityGrows(s, t, p, n, p);
    forall q: nat | q < PAGES && !(p <= q < p + n)
      ensures Get(IdentityPages(s, t, p, n, p), t, q) == Get(s, t, q)
    {
      IdentityElsewhere(s, t, p, n, p, q);
    }
  }

  lemma KernelMappedIs(s: MemState, t: nat)
    requires Shape(s) && t < |s.tables|
    ensures 0x600 <= PAGES
    ensures KernelMapped(s, t) == IdentityPages(IdentityPages(s, t, 0x100, 0x500, 0x100), t, 0, 0x100, 0)
  {
    hide *;
    KernelPages();
    var s1 := Identity(s, t, KERNEL_BASE, KERNEL_LIMIT);
    IdentityIs(s, t, KERNEL_BASE, KERNEL_LIMIT);
    IdentityIs(s1, t, 0, 0xF_FFFF);
    KernelMappedTwice(s, t);
  }

  lemma KernelMappedTwice(s: MemState, t: nat)
    requires Shape(s) && t < |s.tables| && InRange(KERNEL_BASE, KERNEL_LIMIT) && InRange(0, 0xF_FFFF)
    ensures KernelMapped(s, t) == Identity(Identity(s, t, KERNEL_BASE, KERNEL_LIMIT), t, 0, 0xF_FFFF)
  {
  }

  /** A fresh table with the kernel mapped maps the lower 6 MB to themselves and nothing else. */
  lemma KernelMappedRight(s: MemState, t: nat)
    requires MemInv(s) && Shape(s) && t < |s.tables| && s.tables[t].bound
    requires forall q: nat :: q < PAGES ==> !Get(s, t, q).mapped
    ensures var s' := KernelMapped(s, t);
      && 0x600 <= PAGES && Grows(s, s', t) && SelfMapped(s', t, 0, 0x600)
      && forall q: nat :: 0x600 <= q < PAGES ==> !Get(s', t, q).mapped
  {
    hide *;
    KernelMappedIs(s, t);
    var s1 := IdentityPages(s, t, 0x100, 0x500, 0x100);
    var s2 := IdentityPages(s1, t, 0, 0x100, 0);
    FreshIdentity(s, t, 0x100, 0x500);
    GrowsBound(s, s1, t);
    GrowsInv(s, s1, t);
    FreshIdentity(s1, t, 0, 0x100);
    GrowsBound(s1, s2, t);
    GrowsTrans(s, s1, s2, t);
    SelfMappedStays(s1, s2, t, 0x100, 0x500);
    SelfMappedJoin(s2, t, 0, 0x100, 0x500);
  }

  /** A page that allocation maps is mapped as a user page. */
  lemma AllocatedPageIsUser(s: MemState, t: nat, p: nat, q: nat)
    requires MemInv(s) && Shape(s) && t < |s.tables| && s.tables[t].bound && t != KERNEL_TABLE && p < PAGES && q < PAGES
    requires !Get(s, t, q).mapped && Get(AllocatePage(s, t, p), t, q).mapped
    ensures Get(AllocatePage(s, t, p), t, q).user
  {
    hide *;
    AllocatePageIs(s, t, p);
    var s1 := EnsureTable(s, t, p / ENTRIES);
    EnsureKeepsInv(s, t, p / ENTRIES);
    SameTranslationBound(s, s1, t);
    SameTranslationEntries(s, s1, t);
    FillCases(s1, t, p);
    InvShape(s1);
    if !Get(s1, t, p).mapped && Carve(s1.map_, t).Some? {
      var (m, a) := Carve(s1.map_, t).value;
      NewMap(s1, m);
      MapDoesNotTranslate(s1, m, t, q);
      GetPut(s1.(map_ := m), t, p, Entry(true, a / PAGE_SIZE, true), t, q);
    }
  }

  lemma MapDoesNotTranslate(s: MemState, m: Map, t: nat, q: nat)
    requires Shape(s) && Shape(s.(map_ := m)) && t < |s.tables| && q < PAGES
    ensures Get(s.(map_ := m), t, q) == Get(s, t, q)
  {
  }

  lemma {:induction false} AllocatedIsUser(s: MemState, t: nat, p: nat, n: nat, q: nat)
    requires MemInv(s) && Shape(s) && t < |s.tables| && s.tables[t].bound
    requires t != KERNEL_TABLE && p + n <= PAGES && q < PAGES
    requires !Get(s, t, q).mapped && Get(AllocatePages(s, t, p, n), t, q).mapped
    ensures Get(AllocatePages(s, t, p, n), t, q).user
    decreases n
  {
    hide *;
    if n == 0 {
      AllocatePagesNone(s, t, p);
    } else {
      AllocatePagesMore(s, t, p, n);
      var s1 := AllocatePage(s, t, p);
      AllocatePageGrows(s, t, p);
      GrowsBound(s, s1, t);
      GrowsInv(s, s1, t);
      if Get(s1, t, q).mapped {
        AllocatedPageIsUser(s, t, p, q);
        AllocatePagesGrows(s1, t, p + 1, n - 1);
        GrowsStays(s1, AllocatePages(s1, t, p + 1, n - 1), t, q);
      } else {
        AllocatedIsUser(s1, t, p + 1, n - 1, q);
      }
    }
  }

  // ----- what reads back through the table

  predicate AllUser(s: MemState, t: nat, p: nat, n: nat)
    requires Shape(s)
  {
    forall q: nat :: p <= q < p + n ==> UserAt(s, t, q)
  }

  /** The address in memory a virtual address translates to. */
  function Translate(s: MemState, t: nat, a: nat): nat
    requires Shape(s) && t < |s.tables| && a / PAGE_SIZE < PAGES
  {
    Get(s, t, a / PAGE_SIZE).frame * PAGE_SIZE + a % PAGE_SIZE
  }

  /** The process sees byte b at virtual address a. */
  predicate Sees(ram: Ram, s: MemState, t: nat, a: nat, b: Byte)
    requires Shape(s)
  {
    UserAt(s, t, a / PAGE_SIZE) && Translate(s, t, a) < |ram| && ram[Translate(s, t, a)] == b
  }

  /** The process sees these bytes from virtual address base on. */
  predicate Reads(ram: Ram, s: MemState, t: nat, base: nat, bytes: seq<Byte>)
    requires Shape(s)
  {
    forall k: nat :: k < |bytes| ==> Sees(ram, s, t, base + k, bytes[k])
  }

  /** The table's own memory lies below this address. */
  ghost predicate OwnBelow(m: Map, t: nat, size: nat) {
    forall x: int :: OwnedBy(m, t, x) ==> x < size
  }

  lemma PageInside(base: nat, limit: nat, frame: nat)
    requires base % PAGE_SIZE == 0 && limit % PAGE_SIZE == 0 && base <= frame * PAGE_SIZE < base + limit
    ensures frame * PAGE_SIZE + PAGE_SIZE - 1 < base + limit
  {
  }

  /** A page belongs to a table as a whole. */
  lemma WholePageOwned(m: Map, t: nat, frame: nat)
    requires MapInv(m) && OwnedBy(m, t, frame * PAGE_SIZE)
    ensures OwnedBy(m, t, frame * PAGE_SIZE + PAGE_SIZE - 1)
  {
    var k: nat :| k < |m| && IsUser(m[k]) && m[k].table == t && m[k].base <= frame * PAGE_SIZE < Top(m[k]);
    GoodAt(m, k);
    hide MapInv;
    PageInside(m[k].base, m[k].limit, frame);
  }

  lemma UserFrame(s: MemState, t: nat, p: nat, size: nat)
    requires MemInv(s) && UserAt(s, t, p) && OwnBelow(s.map_, t, size)
    ensures Shape(s) && t < |s.tables| && p < PAGES && Get(s, t, p).frame * PAGE_SIZE + PAGE_SIZE <= size
  {
    hide MemInv, MapInv, Get, Shape, OwnedBy, UserAt;
    BackedAt(s, t, p);
    InvShape(s);
    UserIsEntry(s, t, p);
    WholePageOwned(s.map_, t, Get(s, t, p).frame);
  }

  lemma UserIsEntry(s: MemState, t: nat, p: nat)
    requires Shape(s) && UserAt(s, t, p)
    ensures t < |s.tables| && p < PAGES && Get(s, t, p).mapped && Get(s, t, p).user
  {
  }

  lemma UserTranslates(s: MemState, t: nat, ram: Ram, base: nat, limit: nat)
    requires MemInv(s) && Shape(s) && t < |s.tables| && InRange(base, limit) && OwnBelow(s.map_, t, |ram|)
    requires AllUser(s, t, FirstPage(base), PageCount(base, limit))
    ensures Translates(ram, FramesOf(s, t, base, limit), base, limit)
  {
    hide MemInv, Get, Shape, UserAt, FirstPage, PageCount, InRange, OwnBelow;
    var frames, p := FramesOf(s, t, base, limit), FirstPage(base);
    forall i: nat | i < |frames|
      ensures frames[i] * PAGE_SIZE + PAGE_SIZE <= |ram|
    {
      assert UserAt(s, t, p + i);
      UserFrame(s, t, p + i, |ram|);
    }
    forall i: nat, j: nat | i < j < |frames|
      ensures frames[i] != frames[j]
    {
      assert UserAt(s, t, p + i) && UserAt(s, t, p + j);
      if frames[i] == frames[j] { DistinctAt(s, t, p + i, p + j); }
    }
  }

  lemma PlaceIsTranslate(s: MemState, t: nat, base: nat, limit: nat, k: nat)
    requires Shape(s) && t < |s.tables| && InRange(base, limit) && k < limit
    ensures k < PAGE_SIZE * |FramesOf(s, t, base, limit)| - base % PAGE_SIZE && (base + k) / PAGE_SIZE < PAGES
    ensures FirstPage(base) <= (base + k) / PAGE_SIZE < FirstPage(base) + PageCount(base, limit)
    ensures Place(FramesOf(s, t, base, limit), base, k) == Translate(s, t, base + k)
  {
    hide Get, Shape, FramesOf;
    RangeHasBytes(base, limit);
  }

  lemma CodeReads(ram: Ram, s: MemState, t: nat, base: nat, code: seq<Byte>)
    requires MemInv(s) && Shape(s) && t < |s.tables| && InRange(base, |code|) && OwnBelow(s.map_, t, |ram|)
    requires AllUser(s, t, FirstPage(base), PageCount(base, |code|))
    requires StartsOrFitsPage(base, |code|)
    ensures WriteVirtual(ram, s, t, base, code).Some? && |WriteVirtual(ram, s, t, base, code).value| == |ram|
    ensures Reads(WriteVirtual(ram, s, t, base, code).value, s, t, base, code)
  {
    hide *;
    var frames := FramesOf(s, t, base, |code|);
    UserTranslates(s, t, ram, base, |code|);
    WriteIsRight(ram, frames, base, code);
    WriteVirtualIs(ram, s, t, base, code);
    var r := WriteVirtual(ram, s, t, base, code).value;
    WrittenSize(ram, r, frames, base, code);
    forall k: nat | k < |code|
      ensures Sees(r, s, t, base + k, code[k])
    {
      WrittenSees(ram, r, s, t, base, code, k);
    }
    ReadsFrom(r, s, t, base, code);
  }

  lemma ReadsFrom(ram: Ram, s: MemState, t: nat, base: nat, bytes: seq<Byte>)
    requires Shape(s) && forall k: nat :: k < |bytes| ==> Sees(ram, s, t, base + k, bytes[k])
    ensures Reads(ram, s, t, base, bytes)
  {
    hide Sees, Shape;
  }

  lemma WriteVirtualIs(ram: Ram, s: MemState, t: nat, base: nat, code: seq<Byte>)
    requires Shape(s) && t < |s.tables| && InRange(base, |code|)
    ensures WriteVirtual(ram, s, t, base, code) == WriteFrom(ram, FramesOf(s, t, base, |code|), base, code, 0)
  {
  }

  lemma WrittenSize(ram: Ram, r: Ram, frames: seq<nat>, base: nat, code: seq<Byte>)
    requires Written(ram, r, frames, base, code, |code|)
    ensures |r| == |ram|
  {
  }

  lemma WrittenSees(ram: Ram, r: Ram, s: MemState, t: nat, base: nat, code: seq<Byte>, k: nat)
    requires Shape(s) && t < |s.tables| && InRange(base, |code|) && k < |code|
    requires AllUser(s, t, FirstPage(base), PageCount(base, |code|))
    requires Written(ram, r, FramesOf(s, t, base, |code|), base, code, |code|)
    ensures Sees(r, s, t, base + k, code[k])
  {
    hide Get, Shape, UserAt, FramesOf, Place, Translate, InRange, FirstPage, PageCount, Outside;
    PlaceIsTranslate(s, t, base, |code|, k);
  }

  lemma StackTranslate(s: MemState, t: nat, a: nat)
    requires Shape(s) && t < |s.tables| && STACK_BASE <= a < STACK_TOP
    ensures a / PAGE_SIZE == STACK_PAGE < PAGES && Translate(s, t, a) == StackPlace(s, t, a)
  {
    hide Get, Shape;
  }

  /** What was put on the stack page reads back there. */
  lemma StackReads(ram: Ram, s: MemState, t: nat, at: nat, bytes: seq<Byte>)
    requires Shape(s) && t < |s.tables| && STACK_BASE <= at && at + |bytes| <= STACK_TOP && UserAt(s, t, STACK_PAGE)
    requires StackPlace(s, t, at) + |bytes| <= |ram|
    ensures Reads(Put(ram, StackPlace(s, t, at), bytes), s, t, at, bytes)
  {
    hide Get, Shape, UserAt, Translate, StackPlace, Splice;
    forall k: nat | k < |bytes|
      ensures Sees(Put(ram, StackPlace(s, t, at), bytes), s, t, at + k, bytes[k])
    {
      StackTranslate(s, t, at + k);
      StackPlaces(s, t, at, k);
    }
  }

  /** And changes nothing the process sees on other pages. */
  lemma ElsewhereSees(ram: Ram, s: MemState, t: nat, at: nat, bytes: seq<Byte>, a: nat, b: Byte)
    requires MemInv(s) && Shape(s) && t < |s.tables| && STACK_BASE <= at && at + |bytes| <= STACK_TOP
    requires UserAt(s, t, STACK_PAGE) && a / PAGE_SIZE != STACK_PAGE && Sees(ram, s, t, a, b)
    requires StackPlace(s, t, at) + |bytes| <= |ram|
    ensures Sees(Put(ram, StackPlace(s, t, at), bytes), s, t, a, b)
  {
    hide Get, Shape, UserAt, MemInv, Splice;
    InvShape(s);
    UserIsEntry(s, t, STACK_PAGE);
    UserIsEntry(s, t, a / PAGE_SIZE);
    var x, place := Translate(s, t, a), StackPlace(s, t, at);
    if place <= x < place + |bytes| {
      var f, g := Get(s, t, STACK_PAGE).frame, Get(s, t, a / PAGE_SIZE).frame;
      if f == g { DistinctAt(s, t, STACK_PAGE, a / PAGE_SIZE); }
      DifferentPages(f, g, at - STACK_BASE + (x - place), a % PAGE_SIZE);
    }
  }

  lemma CodePage(length: nat, k: nat)
    requires length <= 0x3F_F000 && k < length
    ensures (CODE_BASE + k) / PAGE_SIZE != STACK_PAGE
  {
  }

  lemma CodeStaysSeen(ram: Ram, s: MemState, t: nat, code: seq<Byte>, at: nat, bytes: seq<Byte>)
    requires MemInv(s) && Shape(s) && t < |s.tables| && STACK_BASE <= at && at + |bytes| <= STACK_TOP
    requires UserAt(s, t, STACK_PAGE) && |code| <= 0x3F_F000 && StackPlace(s, t, at) + |bytes| <= |ram|
    requires Reads(ram, s, t, CODE_BASE, code)
    ensures Reads(Put(ram, StackPlace(s, t, at), bytes), s, t, CODE_BASE, code)
  {
    hide MemInv, Shape, UserAt, StackPlace, Put, Sees;
    forall k: nat | k < |code|
      ensures Sees(Put(ram, StackPlace(s, t, at), bytes), s, t, CODE_BASE + k, code[k])
    {
      CodePage(|code|, k);
      ElsewhereSees(ram, s, t, at, bytes, CODE_BASE + k, code[k]);
    }
  }

  /** Growing the table changes nothing the process sees. */
  lemma GrowsSees(ram: Ram, s: MemState, s': MemState, t: nat, base: nat, bytes: seq<Byte>)
    requires Grows(s, s', t) && t < |s.tables| && Reads(ram, s, t, base, bytes)
    ensures Shape(s') && Reads(ram, s', t, base, bytes)
  {
    hide Grows, Shape, Get;
    GrowsBound(s, s', t);
    forall k: nat | k < |bytes|
      ensures Sees(ram, s', t, base + k, bytes[k])
    {
      assert Sees(ram, s, t, base + k, bytes[k]);
      GrowsStays(s, s', t, (base + k) / PAGE_SIZE);
    }
  }

  // ----- the new process

  /** The page tables of the new process: the kernel, the program, the argument block. */
  function ImageState(s: MemState, length: nat, argv: seq<Arg>): (r: (MemState, MemState, nat))
    requires Shape(s)
    requires FitsUserArea(length, argv)
    ensures Shape(r.0) && Shape(r.1) && r.2 < |r.0.tables| == |r.1.tables|
  {
    var (s1, t) := CreateTable(s);
    var s2 := Allocate(KernelMapped(s1, t), t, CODE_BASE, length);
    (s2, Allocate(s2, t, StackPointer(argv), ArgSize(argv)), t)
  }

  lemma AllocateIs(s: MemState, t: nat, base: nat, limit: nat)
    requires Shape(s) && t < |s.tables| && InRange(base, limit)
    ensures FirstPage(base) + PageCount(base, limit) <= PAGES
    ensures Allocate(s, t, base, limit) == AllocatePages(s, t, FirstPage(base), PageCount(base, limit))
  {
    RangeFits(base, limit);
  }

  /** Allocating unmapped pages makes them the table's, as long as memory is left. */
  lemma AllocatedAll(s: MemState, t: nat, p: nat, n: nat)
    requires MemInv(s) && Shape(s) && t < |s.tables| && s.tables[t].bound && t != KERNEL_TABLE && p + n <= PAGES
    requires forall q: nat :: p <= q < p + n ==> !Get(s, t, q).mapped
    requires !NoneFree(AllocatePages(s, t, p, n).map_)
    ensures Grows(s, AllocatePages(s, t, p, n), t) && AllUser(AllocatePages(s, t, p, n), t, p, n)
  {
    hide MemInv, Grows, Get, Shape, NoneFree, AllocatePages;
    AllocatePagesGrows(s, t, p, n);
    var s' := AllocatePages(s, t, p, n);
    GrowsBound(s, s', t);
    forall q: nat | p <= q < p + n
      ensures UserAt(s', t, q)
    {
      AllocatedIsUser(s, t, p, n, q);
    }
  }

  /** A page outside an allocated range stays as it was. */
  lemma {:induction false} AllocatedElsewhere(s: MemState, t: nat, p: nat, n: nat, q: nat)
    requires MemInv(s) && Shape(s) && t < |s.tables| && s.tables[t].bound && t != KERNEL_TABLE && p + n <= PAGES
    requires q < PAGES && !(p <= q < p + n)
    ensures Get(AllocatePages(s, t, p, n), t, q) == Get(s, t, q)
    decreases n
  {
    hide *;
    if n == 0 {
      AllocatePagesNone(s, t, p);
    } else {
      AllocatePagesMore(s, t, p, n);
      var s1 := AllocatePage(s, t, p);
      AllocatePageGrows(s, t, p);
      GrowsBound(s, s1, t);
      GrowsInv(s, s1, t);
      AllocatedPageElsewhere(s, t, p, q);
      AllocatedElsewhere(s1, t, p + 1, n - 1, q);
    }
  }

  lemma AllocatedPageElsewhere(s: MemState, t: nat, p: nat, q: nat)
    requires MemInv(s) && Shape(s) && t < |s.tables| && s.tables[t].bound
    requires t != KERNEL_TABLE && p < PAGES && q < PAGES && p != q
    ensures Get(AllocatePage(s, t, p), t, q) == Get(s, t, q)
  {
    hide *;
    AllocatePageIs(s, t, p);
    var s1 := EnsureTable(s, t, p / ENTRIES);
    EnsureKeepsInv(s, t, p / ENTRIES);
    SameTranslationBound(s, s1, t);
    SameTranslationEntries(s, s1, t);
    FillCases(s1, t, p);
    InvShape(s1);
    if !Get(s1, t, p).mapped && Carve(s1.map_, t).Some? {
      var (m, a) := Carve(s1.map_, t).value;
      NewMap(s1, m);
      MapDoesNotTranslate(s1, m, t, q);
      GetPut(s1.(map_ := m), t, p, Entry(true, a / PAGE_SIZE, true), t, q);
    }
  }

  lemma CodeRange(length: nat)
    requires length <= 0x3F_F000
    ensures InRange(CODE_BASE, length) && StartsOrFitsPage(CODE_BASE, length)
    ensures FirstPage(CODE_BASE) == 0x600 && 0x600 + PageCount(CODE_BASE, length) <= STACK_PAGE < PAGES
  {
  }

  lemma StackRange(argv: seq<Arg>)
    requires ArgSize(argv) <= 0xFFF
    ensures ArgSize(argv) <= STACK_TOP && InRange(StackPointer(argv), ArgSize(argv))
    ensures FirstPage(StackPointer(argv)) == STACK_PAGE && PageCount(StackPointer(argv), ArgSize(argv)) == 1
    ensures STACK_BASE <= StackPointer(argv) && StackPointer(argv) + ArgSize(argv) == STACK_TOP
  {
    assert ArgSize(argv) >= 8;
    hide Strings;
  }

  /** The tables of the new process, while memory is left: the program's pages and the stack page
      are its own, and the kernel's are mapped to themselves. */
  lemma ImageStateRight(s: MemState, length: nat, argv: seq<Arg>)
    requires MemInv(s) && Shape(s)
    requires length <= 0x3F_F000 && ArgSize(argv) <= 0xFFF && FitsUserArea(length, argv)
    requires !NoneFree(ImageState(s, length, argv).1.map_)
    ensures 0x600 <= PAGES
    ensures var (s1, s2, t) := ImageState(s, length, argv);
      && MemInv(s1) && Grows(s1, s2, t) && SelfMapped(s2, t, 0, 0x600) && UserAt(s2, t, STACK_PAGE)
      && AllUser(s1, t, 0x600, PageCount(CODE_BASE, length))
  {
    hide *;
    var (s0, t) := CreateTable(s);
    CreateKeepsInv(s);
    var k := KernelMapped(s0, t);
    KernelMappedRight(s0, t);
    GrowsInv(s0, k, t);
    GrowsBound(s0, k, t);
    CodeRange(length);
    StackRange(argv);
    var n := PageCount(CODE_BASE, length);
    ImageStateIs(s, length, argv);
    AllocateIs(k, t, CODE_BASE, length);
    var s1 := AllocatePages(k, t, 0x600, n);
    AllocatePagesGrows(k, t, 0x600, n);
    GrowsInv(k, s1, t);
    GrowsBound(k, s1, t);
    AllocateIs(s1, t, StackPointer(argv), ArgSize(argv));
    var s2 := AllocatePages(s1, t, STACK_PAGE, 1);
    AllocatePagesGrows(s1, t, STACK_PAGE, 1);
    GrowsBound(s1, s2, t);
    GrowsStays(s1, s2, t, STACK_PAGE);
    AllocatedAll(k, t, 0x600, n);
    AllocatedElsewhere(k, t, 0x600, n, STACK_PAGE);
    AllocatedAll(s1, t, STACK_PAGE, 1);
    AllUserAt(s2, t, STACK_PAGE, 1, STACK_PAGE);
    GrowsTrans(k, s1, s2, t);
    SelfMappedGrows(k, s2, t, 0, 0x600);
  }

  lemma ImageStateIs(s: MemState, length: nat, argv: seq<Arg>)
    requires Shape(s)
    requires FitsUserArea(length, argv) && ArgSize(argv) <= STACK_TOP
    requires InRange(CODE_BASE, length) && InRange(StackPointer(argv), ArgSize(argv))
    ensures var (s1, t) := CreateTable(s);
      var s2 := Allocate(KernelMapped(s1, t), t, CODE_BASE, length);
      ImageState(s, length, argv) == (s2, Allocate(s2, t, StackPointer(argv), ArgSize(argv)), t)
  {
    hide Shape, CreateTable, Allocate, KernelMapped;
  }

  lemma AllUserAt(s: MemState, t: nat, p: nat, n: nat, q: nat)
    requires Shape(s) && AllUser(s, t, p, n) && p <= q < p + n
    ensures UserAt(s, t, q)
  {
  }

  lemma SelfMappedGrows(s: MemState, s': MemState, t: nat, p: nat, n: nat)
    requires Grows(s, s', t) && Shape(s) && t < |s.tables| && p + n <= PAGES && SelfMapped(s, t, p, n)
    ensures Shape(s') && t < |s'.tables| && SelfMapped(s', t, p, n)
  {
    hide Grows, Shape, Get;
    GrowsBound(s, s', t);
    forall q: nat | p <= q < p + n
      ensures Get(s', t, q).mapped && Get(s', t, q).frame == q
    {
      GrowsStays(s, s', t, q);
    }
  }

  lemma CreateImageIs(s: MemState, ram: Ram, code: seq<Byte>, argv: seq<Arg>)
    requires Shape(s)
    requires FitsUserArea(|code|, argv) && InRange(CODE_BASE, |code|) && ArgSize(argv) <= STACK_TOP
    ensures var (s1, s2, t) := ImageState(s, |code|, argv);
      CreateImage(s, ram, code, argv) ==
      match WriteVirtual(ram, s1, t, CODE_BASE, code)
      case None => None
      case Some(r1) =>
        match WriteBlock(r1, s2, t, argv)
        case None => None
        case Some(r2) => Some(Image(s2, r2, t))
  {
    hide Shape, CreateTable, Allocate, KernelMapped, WriteVirtual, WriteBlock;
  }

  lemma OwnBelowBefore(s: MemState, s': MemState, t: nat, size: nat)
    requires Grows(s, s', t) && OwnBelow(s'.map_, t, size)
    ensures OwnBelow(s.map_, t, size)
  {
    hide OwnedBy, FreeAt;
  }

  /** A new process, given memory enough that the kernel can reach, sees its program at 6 MB, the
      kernel below it, and at its stack pointer a block that decodes to exactly its arguments,
      packed up to the top of its stack page. */
  lemma NewProcessSees(s: MemState, ram: Ram, code: seq<Byte>, argv: seq<Arg>)
    requires MemInv(s) && |code| <= 0x3F_F000 && ArgSize(argv) <= 0xFFF
    requires AllStrings(argv) && FitsUserArea(|code|, argv)
    requires var (_, s2, t) := ImageState(s, |code|, argv); !NoneFree(s2.map_) && OwnBelow(s2.map_, t, |ram|)
    ensures CreateImage(s, ram, code, argv).Some? && ArgSize(argv) <= STACK_TOP && 0x600 <= PAGES
    ensures var image := CreateImage(s, ram, code, argv).value;
      var esp := StackPointer(argv);
      && MemInv(image.s) && image.table < |image.s.tables|
      && Reads(image.ram, image.s, image.table, CODE_BASE, code)
      && Reads(image.ram, image.s, image.table, esp, ArgBlock(argv, esp))
      && ReadArgs(ArgBlock(argv, esp), esp) == Some(argv)
      && SelfMapped(image.s, image.table, 0, 0x600)
  {
    hide *;
    InvShape(s);
    CodeRange(|code|);
    StackRange(argv);
    ImageStateRight(s, |code|, argv);
    CreateImageIs(s, ram, code, argv);
    var (s1, s2, t) := ImageState(s, |code|, argv);
    var esp := StackPointer(argv);
    GrowsInv(s1, s2, t);
    OwnBelowBefore(s1, s2, t, |ram|);
    CodeReads(ram, s1, t, CODE_BASE, code);
    var r1 := WriteVirtual(ram, s1, t, CODE_BASE, code).value;
    GrowsSees(r1, s1, s2, t, CODE_BASE, code);
    StackIsInRam(s2, t, |r1|);
    BlockWritten(r1, s2, t, argv);
    BlockFits(argv);
    CodeStaysSeen(r1, s2, t, code, esp, ArgBlock(argv, esp));
    StackReads(r1, s2, t, esp, ArgBlock(argv, esp));
    BlockReadsBack(argv, esp);
  }

  lemma BlockFits(argv: seq<Arg>)
    requires ArgSize(argv) <= 0xFFF
    ensures ArgSize(argv) <= STACK_TOP && StackPointer(argv) + ArgSize(argv) < 0x1_0000_0000
  {
    hide Strings;
  }

  lemma StackIsInRam(s: MemState, t: nat, size: nat)
    requires MemInv(s) && Shape(s) && t < |s.tables| && UserAt(s, t, STACK_PAGE) && OwnBelow(s.map_, t, size)
    ensures StackInRam(s, t, size)
  {
    hide MemInv, Get, Shape, UserAt, OwnBelow;
    UserFrame(s, t, STACK_PAGE, size);
  }

  // ----- memory the kernel cannot reach

  /** A write that ends has found each of its pages in memory. */
  lemma {:induction false} WrittenInside(ram: Ram, frames: seq<nat>, base: nat, source: seq<Byte>, i: nat, j: nat)
    requires i <= j < |frames| && WriteFrom(ram, frames, base, source, i).Some?
    ensures frames[j] * PAGE_SIZE + OffsetAt(base, j) + LengthAt(|source|, j) <= |ram|
    decreases j - i
  {
    WriteFromMore(ram, frames, base, source, i);
    hide WriteFrom, OffsetAt, LengthAt, Splice;
    if i < j {
      var at := frames[i] * PAGE_SIZE + OffsetAt(base, i);
      var r := Splice(ram, at, source[PAGE_SIZE * i..PAGE_SIZE * i + LengthAt(|source|, i)]);
      assert |r| == |ram|;
      WrittenInside(r, frames, base, source, i + 1, j);
    }
  }

  lemma PageLength(base: nat, limit: nat, i: nat)
    requires base % PAGE_SIZE == 0 && 0 < limit && i < PageCount(base, limit)
    ensures LengthAt(limit, i) > 0
  {
  }

  /** The pages of a written range that get any bytes lie in memory. */
  lemma RangeInside(ram: Ram, s: MemState, t: nat, base: nat, source: seq<Byte>, q: nat)
    requires Shape(s) && t < |s.tables| && InRange(base, |source|)
    requires |ram| % PAGE_SIZE == 0 && WriteVirtual(ram, s, t, base, source).Some?
    requires FirstPage(base) <= q < FirstPage(base) + PageCount(base, |source|) <= PAGES
    requires LengthAt(|source|, q - FirstPage(base)) > 0
    ensures Get(s, t, q).frame * PAGE_SIZE + PAGE_SIZE <= |ram|
  {
    var frames, i := FramesOf(s, t, base, |source|), q - FirstPage(base);
    assert frames[i] == Get(s, t, q).frame;
    WriteVirtualIs(ram, s, t, base, source);
    WrittenInside(ram, frames, base, source, 0, i);
    hide Get, WriteVirtual, WriteFrom, FramesOf, LengthAt, OffsetAt, PageCount;
    WholePages(Get(s, t, q).frame, |ram|, OffsetAt(base, i) + LengthAt(|source|, i));
  }

  lemma WholePages(frame: nat, size: nat, n: nat)
    requires size % PAGE_SIZE == 0 && 0 < n && frame * PAGE_SIZE + n <= size
    ensures frame * PAGE_SIZE + PAGE_SIZE <= size
  {
  }

  lemma FirstWrite(ram: Ram, s: MemState, t: nat, argv: seq<Arg>)
    requires Shape(s) && t < |s.tables| && ArgSize(argv) <= 0xFFF && WriteBlock(ram, s, t, argv).Some?
    ensures InRange(StackPointer(argv), 4) && WriteVirtual(ram, s, t, StackPointer(argv), WordBytes(|argv|)).Some?
    ensures STACK_BASE <= StackPointer(argv) <= STACK_TOP - 8 && |WordBytes(|argv|)| == 4
  {
    BlockShape(argv);
    hide Shape, WriteVirtual, WriteArgs, Pointers, Strings;
  }

  lemma StackInside(ram: Ram, s: MemState, t: nat, argv: seq<Arg>)
    requires Shape(s) && t < |s.tables| && ArgSize(argv) <= 0xFFF && WriteBlock(ram, s, t, argv).Some?
    requires |ram| % PAGE_SIZE == 0
    ensures STACK_PAGE < PAGES && Get(s, t, STACK_PAGE).frame * PAGE_SIZE + PAGE_SIZE <= |ram|
  {
    FirstWrite(ram, s, t, argv);
    var esp := StackPointer(argv);
    assert FirstPage(esp) == STACK_PAGE && PageCount(esp, 4) == 1 && LengthAt(4, 0) == 4;
    hide Get, Shape, WriteVirtual, WriteBlock, FirstPage, PageCount, LengthAt, StackPointer, ArgSize;
    RangeInside(ram, s, t, esp, WordBytes(|argv|), STACK_PAGE);
  }

  /** The tables of the new process have no user pages besides the program's and the stack's. */
  lemma ImagePages(s: MemState, length: nat, argv: seq<Arg>, q: nat)
    requires MemInv(s) && Shape(s)
    requires length <= 0x3F_F000 && ArgSize(argv) <= 0xFFF && FitsUserArea(length, argv)
    requires !NoneFree(ImageState(s, length, argv).1.map_)
    ensures var (s1, s2, t) := ImageState(s, length, argv);
      UserAt(s2, t, q) ==>
        && q < PAGES && (q == STACK_PAGE || 0x600 <= q < 0x600 + PageCount(CODE_BASE, length))
        && (q != STACK_PAGE ==> Get(s2, t, q) == Get(s1, t, q))
  {
    hide *;
    ImageStateRight(s, length, argv);
    var (s1, s2, t) := ImageState(s, length, argv);
    if UserAt(s2, t, q) {
      GrowsInv(s1, s2, t);
      UserIsEntry(s2, t, q);
      if q < 0x600 {
        KernelNotUser(s2, t, q);
      } else if q != STACK_PAGE {
        ImageElsewhere(s, length, argv, q);
        InvShape(s1);
      }
    }
  }

  lemma KernelNotUser(s: MemState, t: nat, q: nat)
    requires MemInv(s) && Shape(s) && t < |s.tables| && q < 0x600 <= PAGES && SelfMapped(s, t, 0, 0x600)
    ensures !UserAt(s, t, q)
  {
    if UserAt(s, t, q) {
      BackedAt(s, t, q);
      BackedHigh(s.map_, t, q);
    }
  }

  lemma BackedHigh(m: Map, t: nat, frame: nat)
    requires MapInv(m) && OwnedBy(m, t, frame * PAGE_SIZE)
    ensures frame >= 0x600
  {
    var k: nat :| k < |m| && IsUser(m[k]) && m[k].table == t && m[k].base <= frame * PAGE_SIZE < Top(m[k]);
    GoodAt(m, k);
  }

  lemma ImageElsewhere(s: MemState, length: nat, argv: seq<Arg>, q: nat)
    requires MemInv(s) && Shape(s) && 0x600 <= q < PAGES && q != STACK_PAGE
    requires length <= 0x3F_F000 && ArgSize(argv) <= 0xFFF && FitsUserArea(length, argv)
    ensures var (s1, s2, t) := ImageState(s, length, argv);
      && Get(s2, t, q) == Get(s1, t, q)
      && (!(0x600 <= q < 0x600 + PageCount(CODE_BASE, length)) ==> !Get(s1, t, q).mapped)
  {
    hide *;
    var (s0, t) := CreateTable(s);
    CreateKeepsInv(s);
    var k := KernelMapped(s0, t);
    KernelMappedRight(s0, t);
    GrowsInv(s0, k, t);
    GrowsBound(s0, k, t);
    CodeRange(length);
    StackRange(argv);
    var n := PageCount(CODE_BASE, length);
    ImageStateIs(s, length, argv);
    AllocateIs(k, t, CODE_BASE, length);
    var s1 := AllocatePages(k, t, 0x600, n);
    AllocatePagesGrows(k, t, 0x600, n);
    GrowsInv(k, s1, t);
    GrowsBound(k, s1, t);
    AllocateIs(s1, t, StackPointer(argv), ArgSize(argv));
    AllocatedElsewhere(s1, t, STACK_PAGE, 1, q);
    if !(0x600 <= q < 0x600 + n) { AllocatedElsewhere(k, t, 0x600, n, q); }
  }

  lemma CodeInside(ram: Ram, s: MemState, t: nat, code: seq<Byte>, q: nat)
    requires Shape(s) && t < |s.tables| && code != [] && |code| <= 0x3F_F000 && InRange(CODE_BASE, |code|)
    requires |ram| % PAGE_SIZE == 0 && WriteVirtual(ram, s, t, CODE_BASE, code).Some?
    requires 0x600 <= q < 0x600 + PageCount(CODE_BASE, |code|)
    ensures q < PAGES && Get(s, t, q).frame * PAGE_SIZE + PAGE_SIZE <= |ram|
  {
    CodeRange(|code|);
    PageLength(CODE_BASE, |code|, q - 0x600);
    hide *;
    RangeInside(ram, s, t, CODE_BASE, code, q);
  }

  /** The image is made exactly when the memory the process is given lies where the kernel reaches:
      a copy to a page above that does not go through. */
  lemma NewProcessFits(s: MemState, ram: Ram, code: seq<Byte>, argv: seq<Arg>)
    requires MemInv(s) && Shape(s) && 0 < |code| <= 0x3F_F000 && ArgSize(argv) <= 0xFFF && AllStrings(argv)
    requires FitsUserArea(|code|, argv) && |ram| % PAGE_SIZE == 0
    requires !NoneFree(ImageState(s, |code|, argv).1.map_)
    ensures CreateImage(s, ram, code, argv).Some? <==>
      OwnBelow(ImageState(s, |code|, argv).1.map_, ImageState(s, |code|, argv).2, |ram|)
  {
    hide *;
    var (s1, s2, t) := ImageState(s, |code|, argv);
    if OwnBelow(s2.map_, t, |ram|) {
      NewProcessSees(s, ram, code, argv);
    } else if CreateImage(s, ram, code, argv).Some? {
      ImageInside(s, ram, code, argv);
    }
  }

  lemma ImageInside(s: MemState, ram: Ram, code: seq<Byte>, argv: seq<Arg>)
    requires MemInv(s) && Shape(s) && 0 < |code| <= 0x3F_F000 && ArgSize(argv) <= 0xFFF
    requires FitsUserArea(|code|, argv) && |ram| % PAGE_SIZE == 0
    requires !NoneFree(ImageState(s, |code|, argv).1.map_) && CreateImage(s, ram, code, argv).Some?
    ensures OwnBelow(ImageState(s, |code|, argv).1.map_, ImageState(s, |code|, argv).2, |ram|)
  {
    hide *;
    CodeRange(|code|);
    StackRange(argv);
    ImageStateRight(s, |code|, argv);
    CreateImageIs(s, ram, code, argv);
    var (s1, s2, t) := ImageState(s, |code|, argv);
    GrowsInv(s1, s2, t);
    CodeReadsSize(ram, s1, t, CODE_BASE, code);
    var r1 := WriteVirtual(ram, s1, t, CODE_BASE, code).value;
    StackInside(r1, s2, t, argv);
    forall x: int | OwnedBy(s2.map_, t, x)
      ensures x < |ram|
    {
      var q := ReachedAt(s2, t, x);
      MappedInPage(s2, t, q, x);
      ImagePages(s, |code|, argv, q);
      if q != STACK_PAGE { CodeInside(ram, s1, t, code, q); }
    }
    AllBelow(s2.map_, t, |ram|);
  }

  lemma MappedInPage(s: MemState, t: nat, q: nat, x: int)
    requires Shape(s) && MappedTo(s, t, q, x)
    ensures UserAt(s, t, q) && t < |s.tables| && q < PAGES
    ensures Get(s, t, q).frame * PAGE_SIZE <= x < Get(s, t, q).frame * PAGE_SIZE + PAGE_SIZE
  {
  }

  lemma AllBelow(m: Map, t: nat, size: nat)
    requires forall x: int :: OwnedBy(m, t, x) ==> x < size
    ensures OwnBelow(m, t, size)
  {
  }

  lemma CodeReadsSize(ram: Ram, s: MemState, t: nat, base: nat, code: seq<Byte>)
    requires Shape(s) && t < |s.tables| && InRange(base, |code|) && WriteVirtual(ram, s, t, base, code).Some?
    ensures |WriteVirtual(ram, s, t, base, code).value| == |ram|
  {
    WriteVirtualIs(ram, s, t, base, code);
    WriteKeepsSize(ram, FramesOf(s, t, base, |code|), base, code, 0);
  }

  lemma {:induction false} WriteKeepsSize(ram: Ram, frames: seq<nat>, base: nat, source: seq<Byte>, i: nat)
    requires i <= |frames| && WriteFrom(ram, frames, base, source, i).Some?
    ensures |WriteFrom(ram, frames, base, source, i).value| == |ram|
    decreases |frames| - i
  {
    if i < |frames| {
      WriteFromMore(ram, frames, base, source, i);
      hide WriteFrom, OffsetAt, LengthAt, Splice;
      var at := frames[i] * PAGE_SIZE + OffsetAt(base, i);
      var r := Splice(ram, at, source[PAGE_SIZE * i..PAGE_SIZE * i + LengthAt(|source|, i)]);
      assert |r| == |ram|;
      WriteKeepsSize(r, frames, base, source, i + 1);
    }
  }
}
