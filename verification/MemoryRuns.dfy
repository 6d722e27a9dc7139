/** Whole runs of calls on the memory, from the map the firmware reports on. */
module MemoryRuns {
  import opened MemoryMap
  import opened MapFreeing
  import opened PageTables
  import opened PageInvariant
  import opened PageRuns
  import Sort
  import opened Options

  datatype Call =
    | CallCreate
    | CallAllocate(t: nat, base: nat, limit: nat)
    | CallIdentity(t: nat, base: nat, limit: nat)
    | CallFree(t: nat)

  /** What a caller must see to: a table it was given, addresses in the lower half of the address
      space, and a free whose merges are sound. */
  ghost predicate Guard(s: MemState, c: Call) {
    match c
    case CallCreate => true
    case CallAllocate(t, base, limit) =>
      t != KERNEL_TABLE && t < |s.tables| && s.tables[t].bound && InRange(base, limit)
    case CallIdentity(t, base, limit) => t < |s.tables| && s.tables[t].bound && InRange(base, limit)
    case CallFree(t) => t != KERNEL_TABLE && t < |s.tables| && s.tables[t].bound && Sound(s.map_, t)
  }

  function Perform(s: MemState, c: Call): Option<MemState> {
    if !Shape(s) then None
    else match c
      case CallCreate => Some(CreateTable(s).0)
      case CallAllocate(t, base, limit) =>
        if t < |s.tables| && InRange(base, limit) then Some(Allocate(s, t, base, limit)) else None
      case CallIdentity(t, base, limit) =>
        if t < |s.tables| && InRange(base, limit) then Some(Identity(s, t, base, limit)) else None
      case CallFree(t) =>
        if t < |s.tables| then FreeTable(s, t) else None
  }

  function Run(s: MemState, calls: seq<Call>): Option<MemState>
    decreases |calls|
  {
    if calls == [] then Some(s)
    else match Perform(s, calls[0])
      case None => None
      case Some(s1) => Run(s1, calls[1..])
  }

  ghost predicate Permitted(s: MemState, calls: seq<Call>)
    decreases |calls|
  {
    calls != [] ==>
      Guard(s, calls[0]) && (Perform(s, calls[0]).Some? ==> Permitted(Perform(s, calls[0]).value, calls[1..]))
  }

  /** Every free of the run merges only into free memory. */
  ghost predicate AllClean(s: MemState, calls: seq<Call>)
    decreases |calls|
  {
    calls != [] ==>
      && (calls[0].CallFree? ==> Clean(s.map_, calls[0].t))
      && (Perform(s, calls[0]).Some? ==> AllClean(Perform(s, calls[0]).value, calls[1..]))
  }

  /** The address is memory that can be handed out, or has been. */
  ghost predicate Usable(m: Map, x: int) {
    FreeAt(m, x) || exists t: nat :: OwnedBy(m, t, x)
  }

  /** No usable memory appears; with all it does not disappear either. */
  ghost predicate Conserves(m: Map, m': Map, all: bool) {
    forall x: int :: (Usable(m', x) ==> Usable(m, x)) && (all && Usable(m, x) ==> Usable(m', x))
  }

  lemma ConservesTrans(m: Map, n: Map, o: Map, all: bool)
    requires Conserves(m, n, all) && Conserves(n, o, all)
    ensures Conserves(m, o, all)
  {
    hide Usable;
  }

  lemma FeedsConserves(m: Map, m': Map, t: nat)
    requires Feeds(m, m', t)
    ensures Conserves(m, m', true)
  {
    hide OwnedBy, FreeAt;
    forall x: int
      ensures Usable(m', x) <==> Usable(m, x)
    {
      assert forall u: nat :: u != t ==> (OwnedBy(m', u, x) <==> OwnedBy(m, u, x));
    }
  }

  lemma GivesConserves(m: Map, m': Map, t: nat, all: bool)
    requires GivesBack(m, m', t, all)
    ensures Conserves(m, m', all)
  {
    hide OwnedBy, FreeAt;
    forall x: int
      ensures Usable(m', x) ==> Usable(m, x)
      ensures all && Usable(m, x) ==> Usable(m', x)
    {
      assert forall u: nat :: u != t ==> (OwnedBy(m', u, x) <==> OwnedBy(m, u, x));
    }
  }

  lemma FreeConserves(s: MemState, t: nat)
    requires MemInv(s) && t < |s.tables| && t != KERNEL_TABLE && Sound(s.map_, t)
    ensures FreeTable(s, t).Some? && Conserves(s.map_, FreeTable(s, t).value.map_, Clean(s.map_, t))
  {
    InvShape(s);
    FreeKeepsInv(s, t);
    hide MemInv, MapInv, Clean, Sound, FreeTable, Conserves;
    var s' := FreeTable(s, t).value;
    FreedTables(s, t, s');
    if Clean(s.map_, t) {
      FreeExactly(s.map_, t);
      DoneGivesBack(s.map_, FreeBlocks(s.map_, t), t, true);
      GivesConserves(s.map_, s'.map_, t, true);
    } else {
      GivesConserves(s.map_, s'.map_, t, false);
    }
  }

  lemma AllocateKeeps(s: MemState, t: nat, base: nat, limit: nat)
    requires MemInv(s) && Guard(s, CallAllocate(t, base, limit))
    ensures Grows(s, Allocate(s, t, base, limit), t) && Conserves(s.map_, Allocate(s, t, base, limit).map_, true)
  {
    InvShape(s);
    RangeFits(base, limit);
    hide MemInv, Grows, Feeds, Conserves, FirstPage, PageCount;
    AllocatePagesGrows(s, t, FirstPage(base), PageCount(base, limit));
    GrowsFeeds(s, Allocate(s, t, base, limit), t);
    FeedsConserves(s.map_, Allocate(s, t, base, limit).map_, t);
  }

  lemma GrowsFeeds(s: MemState, s': MemState, t: nat)
    requires Grows(s, s', t)
    ensures Feeds(s.map_, s'.map_, t) && MemInv(s')
  {
  }

  lemma IdentityKeeps(s: MemState, t: nat, base: nat, limit: nat)
    requires MemInv(s) && Guard(s, CallIdentity(t, base, limit))
    ensures Grows(s, Identity(s, t, base, limit), t) && Identity(s, t, base, limit).map_ == s.map_
  {
    InvShape(s);
    RangeFits(base, limit);
    hide MemInv, Grows, FirstPage, PageCount;
    IdentityGrows(s, t, FirstPage(base), PageCount(base, limit), FirstPage(base));
  }

  lemma SameConserves(m: Map, all: bool)
    ensures Conserves(m, m, all)
  {
  }

  lemma CreateCase(s: MemState, c: Call)
    requires MemInv(s) && c.CallCreate?
    ensures Perform(s, c).Some? && MemInv(Perform(s, c).value) && Conserves(s.map_, Perform(s, c).value.map_, true)
  {
    InvShape(s);
    hide MemInv, Conserves, CreateTable, Shape;
    CreateKeepsInv(s);
    SameConserves(s.map_, true);
  }

  lemma AllocateCase(s: MemState, c: Call)
    requires MemInv(s) && c.CallAllocate? && Guard(s, c)
    ensures Perform(s, c).Some? && MemInv(Perform(s, c).value) && Conserves(s.map_, Perform(s, c).value.map_, true)
  {
    InvShape(s);
    hide MemInv, Conserves, Grows, Allocate, Shape;
    AllocateKeeps(s, c.t, c.base, c.limit);
    GrowsFeeds(s, Allocate(s, c.t, c.base, c.limit), c.t);
  }

  lemma IdentityCase(s: MemState, c: Call)
    requires MemInv(s) && c.CallIdentity? && Guard(s, c)
    ensures Perform(s, c).Some? && MemInv(Perform(s, c).value) && Conserves(s.map_, Perform(s, c).value.map_, true)
  {
    InvShape(s);
    hide MemInv, Conserves, Grows, Identity, Shape;
    IdentityKeeps(s, c.t, c.base, c.limit);
    GrowsFeeds(s, Identity(s, c.t, c.base, c.limit), c.t);
    SameConserves(s.map_, true);
  }

  lemma FreeCase(s: MemState, c: Call)
    requires MemInv(s) && c.CallFree? && Guard(s, c)
    ensures Perform(s, c).Some? && MemInv(Perform(s, c).value)
    ensures Conserves(s.map_, Perform(s, c).value.map_, Clean(s.map_, c.t))
  {
    InvShape(s);
    hide MemInv, Conserves, Clean, Sound, FreeTable, Shape, Emptied;
    FreeKeepsInv(s, c.t);
    FreeConserves(s, c.t);
  }

  /** One permitted call. */
  lemma PerformKeeps(s: MemState, c: Call)
    requires MemInv(s) && Guard(s, c)
    ensures Perform(s, c).Some? && MemInv(Perform(s, c).value)
    ensures Conserves(s.map_, Perform(s, c).value.map_, c.CallFree? ==> Clean(s.map_, c.t))
  {
    hide *;
    match c
    case CallCreate => CreateCase(s, c);
    case CallAllocate(_, _, _) => AllocateCase(s, c);
    case CallIdentity(_, _, _) => IdentityCase(s, c);
    case CallFree(_) => FreeCase(s, c);
  }

  lemma ConservesLess(m: Map, m': Map, all: bool)
    requires Conserves(m, m', all)
    ensures Conserves(m, m', false)
  {
    hide Usable;
  }

  lemma RunFirst(s: MemState, calls: seq<Call>)
    requires calls != [] && Perform(s, calls[0]).Some?
    ensures Run(s, calls) == Run(Perform(s, calls[0]).value, calls[1..])
    ensures Permitted(s, calls) ==> Permitted(Perform(s, calls[0]).value, calls[1..])
    ensures AllClean(s, calls) ==>
      AllClean(Perform(s, calls[0]).value, calls[1..]) && (calls[0].CallFree? ==> Clean(s.map_, calls[0].t))
  {
  }

  /** Every permitted run goes through, keeps the invariant, and makes no usable memory; if its
      frees are clean it loses none either. */
  lemma {:induction false} RunKeeps(s: MemState, calls: seq<Call>)
    requires MemInv(s) && Permitted(s, calls)
    ensures Run(s, calls).Some? && MemInv(Run(s, calls).value)
    ensures Conserves(s.map_, Run(s, calls).value.map_, false)
    ensures AllClean(s, calls) ==> Conserves(s.map_, Run(s, calls).value.map_, true)
    decreases |calls|
  {
    if calls == [] {
      SameConserves(s.map_, true);
    } else {
      assert Guard(s, calls[0]);
      hide *;
      PerformKeeps(s, calls[0]);
      RunFirst(s, calls);
      var s1 := Perform(s, calls[0]).value;
      RunKeeps(s1, calls[1..]);
      ConservesLess(s.map_, s1.map_, calls[0].CallFree? ==> Clean(s.map_, calls[0].t));
      ConservesTrans(s.map_, s1.map_, Run(s1, calls[1..]).value.map_, false);
      if AllClean(s, calls) { ConservesTrans(s.map_, s1.map_, Run(s1, calls[1..]).value.map_, true); }
    }
  }

  /** Two user entries never translate to the same page, whichever tables they are in, and the
      page lies in memory bound to exactly the entry's table. */
  lemma NeverOwnedTwice(s: MemState, t: nat, p: nat, u: nat, q: nat)
    requires MemInv(s) && UserAt(s, t, p) && UserAt(s, u, q)
    ensures t < |s.tables| && u < |s.tables| && p < PAGES && q < PAGES
    ensures Get(s, t, p).frame == Get(s, u, q).frame ==> t == u && p == q
    ensures forall v: nat :: OwnedBy(s.map_, v, Get(s, t, p).frame * PAGE_SIZE) <==> v == t
    ensures !FreeAt(s.map_, Get(s, t, p).frame * PAGE_SIZE)
  {
    InvShape(s);
    hide MemInv, MapInv, OwnedBy, FreeAt, UserAt, Get, Shape;
    BackedAt(s, t, p);
    BackedAt(s, u, q);
    var x := Get(s, t, p).frame * PAGE_SIZE;
    forall v: nat
      ensures OwnedBy(s.map_, v, x) <==> v == t
      ensures !FreeAt(s.map_, x)
    {
      OwnersApart(s.map_, t, v, x);
    }
    if Get(s, t, p).frame == Get(s, u, q).frame {
      DistinctAt(s, t, p, q);
    }
  }

  /** After any permitted run no page is owned twice. */
  lemma IsolatedAlways(s: MemState, calls: seq<Call>, t: nat, p: nat, u: nat, q: nat)
    requires MemInv(s) && Permitted(s, calls)
    ensures Run(s, calls).Some? && Shape(Run(s, calls).value)
    ensures var s' := Run(s, calls).value;
      UserAt(s', t, p) && UserAt(s', u, q) && (t != u || p != q) ==>
        t < |s'.tables| && u < |s'.tables| && p < PAGES && q < PAGES && Get(s', t, p).frame != Get(s', u, q).frame
  {
    hide *;
    RunKeeps(s, calls);
    var s' := Run(s, calls).value;
    InvShape(s');
    if UserAt(s', t, p) && UserAt(s', u, q) { NeverOwnedTwice(s', t, p, u, q); }
  }

  // ----- the map the firmware reports

  /** A stretch of memory as the firmware reports it. */
  datatype Region = Region(base: nat, limit: int, usable: bool)

  predicate High(r: Region) {
    r.usable && Signed(r.base) >= 0x10_0000
  }

  /** The stretch above the kernel is entered from the end of the kernel on, one byte short. */
  function BlockOf(r: Region): Block {
    if High(r) then
      if Signed(r.base) < USER_BASE then Block(false, false, USER_BASE, r.base + r.limit - USER_BASE - 1, KERNEL_TABLE)
      else Block(false, false, r.base, r.limit, KERNEL_TABLE)
    else Block(true, true, r.base, r.limit, KERNEL_TABLE)
  }

  function InitialMap(rs: seq<Region>): (m: Map)
    ensures |m| == |rs| && forall i :: 0 <= i < |rs| ==> m[i] == BlockOf(rs[i])
  {
    seq(|rs|, i requires 0 <= i < |rs| => BlockOf(rs[i]))
  }

  /** Sorted stretches that do not overlap; the usable ones above the first megabyte are whole
      pages, end above the kernel and below 2 GB, and touch when they follow one another, the
      one with the kernel in it being the last of such. */
  ghost predicate UsualMachine(rs: seq<Region>) {
    && (forall i :: 0 <= i < |rs| ==> rs[i].limit > 0)
    && (forall i :: 0 <= i < |rs| && High(rs[i]) ==>
          rs[i].base % PAGE_SIZE == 0 && rs[i].limit % PAGE_SIZE == 0
          && USER_BASE < rs[i].base + rs[i].limit < 0x8000_0000)
    && (forall i, j :: 0 <= i < j < |rs| ==> rs[i].base + rs[i].limit <= rs[j].base)
    && (forall i, j :: 0 <= i && j == i + 1 && j < |rs| && High(rs[i]) && High(rs[j]) ==>
          USER_BASE <= rs[i].base && rs[i].base + rs[i].limit == rs[j].base)
  }

  /** The order the firmware's list is sorted into. */
  predicate RegionAfter(a: Region, b: Region) { a.base > b.base }

  predicate RegionsApart(a: Region, b: Region) {
    a.base + a.limit <= b.base || b.base + b.limit <= a.base
  }

  predicate AllApart(rs: seq<Region>) {
    forall i, j :: 0 <= i < j < |rs| ==> RegionsApart(rs[i], rs[j]) && rs[i].limit > 0 && rs[j].limit > 0
  }

  lemma SwapKeepsApart(rs: seq<Region>, i: nat)
    requires i + 1 < |rs| && AllApart(rs)
    ensures AllApart(Sort.Swapped(rs, i))
  {
    var t := Sort.Swapped(rs, i);
    forall j, k | 0 <= j < k < |t|
      ensures RegionsApart(t[j], t[k]) && t[j].limit > 0 && t[k].limit > 0
    {
      var a := if j == i then i + 1 else if j == i + 1 then i else j;
      var b := if k == i then i + 1 else if k == i + 1 then i else k;
      assert t[j] == rs[a] && t[k] == rs[b];
    }
  }

  lemma RegionOrder()
    ensures Sort.StrictWeak(RegionAfter)
  {
  }

  function InOrder(rs: seq<Region>): seq<Region> {
    RegionOrder();
    Sort.Bubble(rs, RegionAfter)
  }

  /** Sorting stretches that do not overlap puts each before the start of the next, as the initial
      map needs them. */
  lemma SortedRegionsInOrder(rs: seq<Region>)
    requires AllApart(rs)
    ensures var t := InOrder(rs);
      |t| == |rs| && forall i, j :: 0 <= i < j < |t| ==> t[i].base + t[i].limit <= t[j].base
  {
    hide Sort.StrictWeak, Sort.Bubble, Sort.Swapped;
    RegionOrder();
    var t := Sort.Bubble(rs, RegionAfter);
    Sort.BubbleSorts(rs, RegionAfter);
    forall s: seq<Region>, i: nat | i + 1 < |s| && RegionAfter(s[i], s[i + 1]) && AllApart(s)
      ensures AllApart(Sort.Swapped(s, i))
    {
      SwapKeepsApart(s, i);
    }
    Sort.BubbleKeeps(rs, RegionAfter, AllApart);
  }

  lemma RegionBlock(r: Region)
    requires r.limit > 0
    requires High(r) ==>
      r.base % PAGE_SIZE == 0 && r.limit % PAGE_SIZE == 0 && USER_BASE < r.base + r.limit < 0x8000_0000
    ensures var b := BlockOf(r);
      && GoodBlock(b) && Top(b) == r.base + r.limit && b.base >= r.base && b.pinned == !High(r) && !IsUser(b)
      && (b.base != r.base ==> High(r) && r.base < USER_BASE)
  {
    var b := BlockOf(r);
    if High(r) { PageMath(b.limit); }
  }

  /** On a usual machine the initial map is sound. */
  lemma InitialMapIsSound(rs: seq<Region>)
    requires UsualMachine(rs)
    ensures MapInv(InitialMap(rs)) && forall t: nat, x: int :: !OwnedBy(InitialMap(rs), t, x)
  {
    var m := InitialMap(rs);
    hide GoodBlock, Top, High, IsUser;
    forall i: nat | i < |rs|
      ensures GoodBlock(m[i]) && Top(m[i]) == rs[i].base + rs[i].limit && m[i].base >= rs[i].base
      ensures !IsUser(m[i]) && m[i].pinned == !High(rs[i])
      ensures (m[i].base != rs[i].base ==> High(rs[i]) && rs[i].base < USER_BASE)
    {
      RegionBlock(rs[i]);
    }
    hide BlockOf;
    forall i: nat, j: nat | j == i + 1 && j < |m| && !m[i].pinned && !m[j].pinned
      ensures m[i].base + m[i].limit == m[j].base
    {
      NeighbourBlocks(rs, i);
    }
  }

  lemma NeighbourBlocks(rs: seq<Region>, i: nat)
    requires UsualMachine(rs) && i + 1 < |rs| && High(rs[i]) && High(rs[i + 1])
    ensures BlockOf(rs[i]).base + BlockOf(rs[i]).limit == BlockOf(rs[i + 1]).base
  {
  }

  /** Address x is memory the firmware reports as usable, above the first megabyte and the kernel. */
  ghost predicate UsableAt(rs: seq<Region>, x: int) {
    exists i: nat :: i < |rs| && UsableIn(rs[i], x)
  }

  predicate UsableIn(r: Region, x: int) {
    r.usable && 0x10_0000 <= r.base < 0x8000_0000 && r.base <= x < r.base + r.limit && USER_BASE <= x
  }

  ghost predicate PinnedAt(m: Map, x: int) {
    exists k: nat :: k < |m| && IsPinned(m[k]) && m[k].base <= x < Top(m[k])
  }

  predicate ReservedIn(r: Region, x: int) {
    !(r.usable && 0x10_0000 <= r.base < 0x8000_0000) && r.base <= x < r.base + r.limit
  }

  ghost predicate ReservedAt(rs: seq<Region>, x: int) {
    exists i: nat :: i < |rs| && ReservedIn(rs[i], x)
  }

  lemma BlockFree(r: Region, x: int)
    requires r.limit > 0 && (High(r) ==> WholePages(r))
    ensures var b := BlockOf(r);
      && (IsFree(b) && b.base <= x < Top(b) <==> UsableIn(r, x))
      && (IsPinned(b) && b.base <= x < Top(b) <==> ReservedIn(r, x))
  {
    hide Top;
    RegionBlock(r);
  }

  /** At first, exactly the usable memory above the kernel is free, and exactly the reserved memory
      pinned. */
  lemma FreeAtFirst(rs: seq<Region>, x: int)
    requires UsualMachine(rs)
    ensures FreeAt(InitialMap(rs), x) <==> UsableAt(rs, x)
    ensures PinnedAt(InitialMap(rs), x) <==> ReservedAt(rs, x)
  {
    var m := InitialMap(rs);
    forall i: nat | i < |rs|
      ensures m[i] == BlockOf(rs[i])
      ensures IsFree(m[i]) && m[i].base <= x < Top(m[i]) <==> UsableIn(rs[i], x)
      ensures IsPinned(m[i]) && m[i].base <= x < Top(m[i]) <==> ReservedIn(rs[i], x)
    {
      BlockFree(rs[i], x);
    }
    hide *;
    FreeParts(m, rs, x);
  }

  lemma FreeParts(m: Map, rs: seq<Region>, x: int)
    requires |m| == |rs|
    requires forall i: nat :: i < |rs| ==> (IsFree(m[i]) && m[i].base <= x < Top(m[i]) <==> UsableIn(rs[i], x))
    requires forall i: nat :: i < |rs| ==> (IsPinned(m[i]) && m[i].base <= x < Top(m[i]) <==> ReservedIn(rs[i], x))
    ensures FreeAt(m, x) <==> UsableAt(rs, x)
    ensures PinnedAt(m, x) <==> ReservedAt(rs, x)
  {
    hide Top, IsFree, IsPinned, UsableIn, ReservedIn;
    if i: nat :| i < |rs| && UsableIn(rs[i], x) { assert FreeAt(m, x); }
    if i: nat :| i < |rs| && ReservedIn(rs[i], x) { assert PinnedAt(m, x); }
  }

  /** The memory when paging is switched on: one table, the kernel's, with the first 32 MB mapped
      to themselves. */
  function FirstTable(rs: seq<Region>): MemState {
    MemState(InitialMap(rs), [Table(true, seq(ENTRIES, _ => NO_TABLE))], [])
  }

  const MAPPED_AT_BOOT: nat := 32 * 1024 * 1024 - 1

  function Boot(rs: seq<Region>): MemState
  {
    assert ShapedDirectory(seq(ENTRIES, _ => NO_TABLE), 0);
    Identity(FirstTable(rs), KERNEL_TABLE, 0, MAPPED_AT_BOOT)
  }

  lemma FirstTableMapsNothing(rs: seq<Region>)
    ensures var s := FirstTable(rs);
      Shape(s) && Unshared(s) && forall t: nat, p: nat :: t < |s.tables| && p < PAGES ==> !Get(s, t, p).mapped
  {
    assert ShapedDirectory(seq(ENTRIES, _ => NO_TABLE), 0);
    assert forall p: nat :: p < PAGES ==> p / ENTRIES < ENTRIES;
  }

  lemma FirstTableIsSound(rs: seq<Region>)
    requires UsualMachine(rs)
    ensures MemInv(FirstTable(rs)) && OnlyTailMapped(FirstTable(rs), KERNEL_TABLE, 0, 8192)
  {
    var s := FirstTable(rs);
    InitialMapIsSound(rs);
    FirstTableMapsNothing(rs);
    hide MapInv, Get, OwnedBy, Shape, Unshared, InitialMap;
    forall t: nat, p: nat
      ensures !UserAt(s, t, p)
    {
    }
    assert UnboundEmpty(s) && OnlyTailMapped(s, KERNEL_TABLE, 0, 8192);
    hide UserAt;
    assert Backed(s) && Distinct(s) && Reached(s);
    InvFromParts(s);
  }

  /** After boot the invariant holds and the kernel sees the first 32 MB at their own addresses;
      with it, everything runs keep holds from boot on. */
  lemma BootIsSound(rs: seq<Region>)
    requires UsualMachine(rs)
    ensures MemInv(Boot(rs)) && SelfMapped(Boot(rs), KERNEL_TABLE, 0, 8192)
    ensures |Boot(rs).tables| == 1 && Boot(rs).map_ == InitialMap(rs)
  {
    var s := FirstTable(rs);
    FirstTableIsSound(rs);
    InvShape(s);
    assert PageCount(0, MAPPED_AT_BOOT) == 8192 && FirstPage(0) == 0;
    assert InRange(0, MAPPED_AT_BOOT) && |s.tables| == 1 && s.tables[0].bound;
    assert Boot(rs) == Identity(s, KERNEL_TABLE, 0, MAPPED_AT_BOOT);
    hide MemInv, Boot, FirstTable, Grows, SelfMapped, OnlyTailMapped, Identity, FirstPage, PageCount;
    IdentityExactly(s, KERNEL_TABLE, 0, MAPPED_AT_BOOT);
    IdentityKeeps(s, KERNEL_TABLE, 0, MAPPED_AT_BOOT);
    GrowsInv(s, Identity(s, KERNEL_TABLE, 0, MAPPED_AT_BOOT), KERNEL_TABLE);
  }

  // ----- from the firmware's list on

  /** What the list must be like, in whatever order it comes: stretches that do not overlap; the
      usable ones above the first megabyte are whole pages and end above the kernel and below
      2 GB, and two of them with nothing between them touch, the lower one lying above the
      kernel. */
  ghost predicate UsualList(rs: seq<Region>) {
    && AllApart(rs)
    && (forall r :: r in rs ==> r.limit > 0 && (High(r) ==> WholePages(r)))
    && (forall a, b :: a in rs && b in rs && High(a) && High(b) && NextTo(rs, a, b) ==>
          USER_BASE <= a.base && a.base + a.limit == b.base)
  }

  predicate WholePages(r: Region) {
    r.base % PAGE_SIZE == 0 && r.limit % PAGE_SIZE == 0 && USER_BASE < r.base + r.limit < 0x8000_0000
  }

  /** b is the next stretch above a. */
  ghost predicate NextTo(rs: seq<Region>, a: Region, b: Region) {
    a.base < b.base && forall c :: c in rs ==> !(a.base < c.base < b.base)
  }

  lemma SameMembers(rs: seq<Region>, ts: seq<Region>)
    requires multiset(ts) == multiset(rs)
    ensures forall r :: r in ts <==> r in rs
  {
    forall r
      ensures r in ts <==> r in rs
    {
      assert r in ts <==> r in multiset(ts);
      assert r in rs <==> r in multiset(rs);
    }
  }

  lemma InOrderBases(ts: seq<Region>)
    requires forall i, j :: 0 <= i < j < |ts| ==> ts[i].base + ts[i].limit <= ts[j].base
    requires forall r :: r in ts ==> r.limit > 0
    ensures forall i, j :: 0 <= i < j < |ts| ==> ts[i].base < ts[j].base
  {
  }

  /** The sorted list is that of a usual machine. */
  lemma SortedIsUsual(rs: seq<Region>)
    requires UsualList(rs)
    ensures UsualMachine(InOrder(rs))
  {
    RegionOrder();
    hide Sort.StrictWeak, Sort.Bubble, AllApart, RegionAfter;
    var ts := Sort.Bubble(rs, RegionAfter);
    Sort.BubblePermutes(rs, RegionAfter);
    SameMembers(rs, ts);
    SortedRegionsInOrder(rs);
    forall i: nat | i < |ts|
      ensures ts[i].limit > 0 && (High(ts[i]) ==> WholePages(ts[i]))
    {
      assert ts[i] in rs;
    }
    InOrderBases(ts);
    forall i: nat, j: nat | j == i + 1 && j < |ts| && High(ts[i]) && High(ts[j])
      ensures USER_BASE <= ts[i].base && ts[i].base + ts[i].limit == ts[j].base
    {
      assert ts[i] in rs && ts[j] in rs;
      NothingBetween(rs, ts, i);
    }
  }

  lemma NothingBetween(rs: seq<Region>, ts: seq<Region>, i: nat)
    requires i + 1 < |ts| && (forall r :: r in ts <==> r in rs)
    requires forall j, k :: 0 <= j < k < |ts| ==> ts[j].base < ts[k].base
    ensures NextTo(rs, ts[i], ts[i + 1])
  {
    forall c | c in rs
      ensures !(ts[i].base < c.base < ts[i + 1].base)
    {
      assert c in ts;
      var k: nat :| k < |ts| && ts[k] == c;
    }
  }

  function BootFrom(rs: seq<Region>): MemState { Boot(InOrder(rs)) }

  /** From boot on, whatever order the firmware lists the memory in and whatever tables are created,
      given memory and freed, the invariant holds, no page is owned twice, and no memory becomes
      usable that was not at boot. */
  lemma FromBootOn(rs: seq<Region>, calls: seq<Call>, t: nat, p: nat, u: nat, q: nat)
    requires UsualList(rs) && Permitted(BootFrom(rs), calls)
    ensures Run(BootFrom(rs), calls).Some? && MemInv(Run(BootFrom(rs), calls).value)
    ensures Conserves(BootFrom(rs).map_, Run(BootFrom(rs), calls).value.map_, AllClean(BootFrom(rs), calls))
    ensures var s := Run(BootFrom(rs), calls).value;
      UserAt(s, t, p) && UserAt(s, u, q) && (t != u || p != q) ==>
        t < |s.tables| && u < |s.tables| && p < PAGES && q < PAGES && Get(s, t, p).frame != Get(s, u, q).frame
  {
    hide *;
    SortedIsUsual(rs);
    BootIsSound(InOrder(rs));
    BootFromIs(rs);
    RunKeeps(BootFrom(rs), calls);
    IsolatedAlways(BootFrom(rs), calls, t, p, u, q);
  }

  lemma BootFromIs(rs: seq<Region>)
    ensures BootFrom(rs) == Boot(InOrder(rs))
  {
  }
}
