/** The memory manager as the program runs it: loops over the map of physical memory and over
    directories and pages, changing them in place.  Every method is proved to do what the
    function of the same name in PageTables says. */
module Memory {
  import opened MemoryMap
  import opened MapFreeing
  import opened PageTables
  import opened PageInvariant
  import opened PageRuns
  import opened MemoryRuns
  import opened VirtualWrite
  import opened Options

  const DIRECTORY_SIZE: nat := 0x40_0000

  /** Division as the machine does it, towards zero. */
  function TruncDiv(a: int, b: nat): int
    requires b > 0
  {
    if a < 0 then -(-a / b) else a / b
  }

  /** The number of directory entries a range of pages goes through. */
  function DirectoryCount(p: nat, n: nat): nat
    requires n > 0
  {
    (p + n - 1) / ENTRIES - p / ENTRIES + 1
  }

  /** The arithmetic the page loops start from counts exactly the pages and the directory entries
      of the range. */
  lemma CountsAreRight(base: nat, limit: nat)
    requires InRange(base, limit)
    ensures TruncDiv(limit + base % PAGE_SIZE - 1, PAGE_SIZE) + 1 == PageCount(base, limit)
    ensures TruncDiv(limit + base % DIRECTORY_SIZE - 1, DIRECTORY_SIZE) + 1
            == DirectoryCount(FirstPage(base), PageCount(base, limit))
    ensures base / DIRECTORY_SIZE == FirstDirectory(FirstPage(base))
  {
    var l := if limit == 0 then 1 else limit;
    TruncIsCount(base, l, PAGE_SIZE);
    TruncIsCount(base, l, DIRECTORY_SIZE);
    TruncOfZero(base, PAGE_SIZE);
    TruncOfZero(base, DIRECTORY_SIZE);
    DivDiv(base);
    DivDiv(base + l - 1);
  }

  lemma TruncIsCount(base: nat, l: nat, unit: nat)
    requires l > 0 && (unit == PAGE_SIZE || unit == DIRECTORY_SIZE)
    ensures TruncDiv(l + base % unit - 1, unit) == (base + l - 1) / unit - base / unit
  {
  }

  lemma TruncOfZero(base: nat, unit: nat)
    requires unit == PAGE_SIZE || unit == DIRECTORY_SIZE
    ensures TruncDiv(0 + base % unit - 1, unit) == 0
  {
  }

  lemma DivDiv(a: nat)
    ensures a / DIRECTORY_SIZE == a / PAGE_SIZE / ENTRIES
  {
  }

  // ----- taking an entry's directory step out of the fold

  lemma EnsureTwice(s: MemState, t: nat, d: nat)
    requires Shape(s) && t < |s.tables| && d < ENTRIES
    ensures EnsureTable(EnsureTable(s, t, d), t, d) == EnsureTable(s, t, d)
  {
  }

  lemma EnsureFirst(s: MemState, t: nat, p: nat, n: nat)
    requires Shape(s) && t < |s.tables| && 0 < n && p + n <= PAGES
    ensures AllocatePages(EnsureTable(s, t, p / ENTRIES), t, p, n) == AllocatePages(s, t, p, n)
  {
    assert p / ENTRIES < ENTRIES == 1024;
    hide *;
    var s1 := EnsureTable(s, t, p / ENTRIES);
    EnsureTwice(s, t, p / ENTRIES);
    AllocatePagesMore(s, t, p, n);
    AllocatePagesMore(s1, t, p, n);
    AllocatePageIs(s, t, p);
    AllocatePageIs(s1, t, p);
  }

  lemma FillFirst(s: MemState, t: nat, p: nat, n: nat)
    requires Shape(s) && t < |s.tables| && 0 < n && p + n <= PAGES && s.tables[t].dirs[p / ENTRIES] != NO_TABLE
    ensures AllocatePages(FillPage(s, t, p), t, p + 1, n - 1) == AllocatePages(s, t, p, n)
  {
    hide *;
    AllocatePagesMore(s, t, p, n);
    AllocatePageIs(s, t, p);
  }

  /** One page of an identity range whose second-level table is there. */
  function MapPage(s: MemState, t: nat, p: nat, frame: nat): ((MemState, nat))
    requires Shape(s) && t < |s.tables| && p < PAGES && s.tables[t].dirs[p / ENTRIES] != NO_TABLE
    ensures Shape(MapPage(s, t, p, frame).0) && MapPage(s, t, p, frame).0.tables == s.tables
  {
    if Get(s, t, p).mapped then (s, frame) else (PutEntry(s, t, p, Entry(true, frame, false)), frame + 1)
  }

  lemma IdentityPageIs(s: MemState, t: nat, p: nat, frame: nat)
    requires Shape(s) && t < |s.tables| && p < PAGES
    ensures IdentityPage(s, t, p, frame) == MapPage(EnsureTable(s, t, p / ENTRIES), t, p, frame)
    ensures s.tables[t].dirs[p / ENTRIES] != NO_TABLE ==> EnsureTable(s, t, p / ENTRIES) == s
  {
  }

  lemma EnsureFirstIdentity(s: MemState, t: nat, p: nat, n: nat, frame: nat)
    requires Shape(s) && t < |s.tables| && 0 < n && p + n <= PAGES
    ensures IdentityPages(EnsureTable(s, t, p / ENTRIES), t, p, n, frame) == IdentityPages(s, t, p, n, frame)
  {
    assert p / ENTRIES < ENTRIES == 1024;
    hide *;
    var s1 := EnsureTable(s, t, p / ENTRIES);
    EnsureTwice(s, t, p / ENTRIES);
    IdentityMore(s, t, p, n, frame);
    IdentityMore(s1, t, p, n, frame);
    IdentityPageIs(s, t, p, frame);
    IdentityPageIs(s1, t, p, frame);
  }

  lemma MapFirst(s: MemState, t: nat, p: nat, n: nat, frame: nat)
    requires Shape(s) && t < |s.tables| && 0 < n && p + n <= PAGES && s.tables[t].dirs[p / ENTRIES] != NO_TABLE
    ensures var (s1, next) := MapPage(s, t, p, frame);
      IdentityPages(s1, t, p + 1, n - 1, next) == IdentityPages(s, t, p, n, frame)
  {
    hide *;
    IdentityMore(s, t, p, n, frame);
    IdentityPageIs(s, t, p, frame);
  }

  lemma SameTranslationMap(s: MemState, s': MemState)
    requires Shape(s) && Shape(s') && SameTranslation(s, s')
    ensures s'.map_ == s.map_
  {
  }

  lemma MapPageKeepsInv(s: MemState, t: nat, p: nat, frame: nat)
    requires MemInv(s) && t < |s.tables| && s.tables[t].bound && p < PAGES && s.tables[t].dirs[p / ENTRIES] != NO_TABLE
    ensures MemInv(MapPage(s, t, p, frame).0)
  {
    InvShape(s);
    hide MemInv, Grows, Get, Shape, Unshared, UnboundEmpty, PutEntry;
    if !Get(s, t, p).mapped {
      PutKernelGrows(s, t, p, frame);
      GrowsInv(s, PutEntry(s, t, p, Entry(true, frame, false)), t);
    }
  }

  lemma ClearedMore(s: MemState, t: nat, i: nat)
    requires Shape(s) && t < |s.tables| && i < ENTRIES
    ensures |s.tables[t].dirs| == ENTRIES
    ensures var d := s.tables[t].dirs[i];
      && (d != NO_TABLE ==> 0 <= d < |s.store| && |s.store[d]| == ENTRIES)
      && var s1 := if d == NO_TABLE then s else s.(store := s.store[d := EmptyTable()]);
         Shape(s1) && Cleared(s, t, i) == Cleared(s1, t, i + 1)
  {
  }

  lemma ClearedAll(s: MemState, t: nat)
    requires Shape(s) && t < |s.tables|
    ensures Cleared(s, t, ENTRIES) == s
  {
  }

  lemma WriteFromEnd(ram: Ram, frames: seq<nat>, base: nat, source: seq<Blocks.Byte>)
    ensures WriteFrom(ram, frames, base, source, |frames|) == Some(ram)
  {
  }

  lemma CoveredDirectory(s: MemState, t: nat, base: nat, limit: nat, q: nat, dir: nat)
    requires Shape(s) && t < |s.tables| && InRange(base, limit) && Covered(s, t, base, limit)
    requires FirstPage(base) <= q < FirstPage(base) + PageCount(base, limit) && InDirectory(q, dir)
    ensures dir < ENTRIES && s.tables[t].dirs[dir] != NO_TABLE
  {
    RangeFits(base, limit);
    assert Get(s, t, q).mapped;
  }

  /** The base address is forgotten after the first directory entry. */
  predicate BaseLeft(base: nat, dir: nat, b: nat) {
    b == if dir == FirstDirectory(FirstPage(base)) then base else 0
  }

  lemma BaseForgotten(base: nat, i: nat)
    ensures BaseLeft(base, FirstDirectory(FirstPage(base)) + i, if i == 0 then base else 0)
  {
  }

  /** The address an entry of a second-level table and the base give. */
  function EntryAddress(entries: seq<Entry>, slot: nat, b: nat): nat
    requires slot < |entries|
  {
    entries[slot].frame * PAGE_SIZE + b % PAGE_SIZE
  }

  /** The address the i-th copy goes to. */
  ghost function CopyTo(frames: seq<nat>, base: nat, i: nat): nat
    requires i < |frames|
  {
    frames[i] * PAGE_SIZE + OffsetAt(base, i)
  }

  /** Where the loop over one second-level table copies to at its j-th entry. */
  lemma EntryPlace(s: MemState, t: nat, base: nat, limit: nat, dir: nat, b: nat, first: nat, j: nat, room: int)
    requires Shape(s) && t < |s.tables| && InRange(base, limit) && dir < ENTRIES && s.tables[t].dirs[dir] != NO_TABLE
    requires first + j < PageCount(base, limit) && AtPage(FirstPage(base) + first, dir, b, room) && j < room
    requires BaseLeft(base, dir, b)
    ensures var slot := SlotOf(b) + j;
      && dir < |s.tables[t].dirs| && 0 <= s.tables[t].dirs[dir] < |s.store| && slot < |s.store[s.tables[t].dirs[dir]]|
      && EntryAddress(s.store[s.tables[t].dirs[dir]], slot, b) == CopyTo(FramesOf(s, t, base, limit), base, first + j)
  {
    var q0 := FirstPage(base) + first;
    RangeFits(base, limit);
    WithinDirectory(q0, j);
    assert FramesOf(s, t, base, limit)[first + j] == Get(s, t, q0 + j).frame;
  }

  /** Before the last page no bytes are copied from past the end. */
  lemma LengthWithin(limit: nat, i: nat)
    ensures PAGE_SIZE * i + LengthAt(limit, i) <= limit
  {
  }

  /** The copy to the i-th page, with its length spelled out. */
  lemma CopyCase(ram: seq<Blocks.Byte>, frames: seq<nat>, base: nat, source: seq<Blocks.Byte>, i: nat, at: nat)
    requires i < |frames| && at == CopyTo(frames, base, i)
    ensures var rest := |source| - PAGE_SIZE * i;
      var n := if rest >= PAGE_SIZE then PAGE_SIZE else rest;
      && PAGE_SIZE * i + n <= |source|
      && WriteFrom(ram, frames, base, source, i) ==
         if n < 0 || at + n > |ram| then None
         else WriteFrom(Blocks.Splice(ram, at, source[PAGE_SIZE * i..PAGE_SIZE * i + n]), frames, base, source, i + 1)
  {
    WriteFromMore(ram, frames, base, source, i);
    LengthWithin(|source|, i);
  }

  // ----- carving, case by case

  lemma CarveNothing(m: Map, t: nat)
    requires FirstFree(m, 0) == |m|
    ensures Carve(m, t).None?
  {
  }

  lemma CarveEndCase(m: Map, t: nat, i: nat)
    requires MapInv(m) && t != KERNEL_TABLE && i == FirstFree(m, 0) && i + 1 < |m| && m[i + 1].table == t
    ensures m[i + 1].base >= PAGE_SIZE
    ensures Carve(m, t) == Some((CleanUp(m[i := Cut(m[i])][i + 1 := Lowered(m[i + 1])], i), m[i + 1].base - PAGE_SIZE))
  {
    assert m[i + 1].base >= PAGE_SIZE by { EndMidFits(m, i); }
    hide *;
    CarveEndIs(m, t, i);
  }

  lemma CarveEndIs(m: Map, t: nat, i: nat)
    requires i == FirstFree(m, 0) && i + 1 < |m| && m[i + 1].table == t && m[i + 1].base >= PAGE_SIZE
    ensures Carve(m, t) == Some((CleanUp(m[i := Cut(m[i])][i + 1 := Lowered(m[i + 1])], i), m[i + 1].base - PAGE_SIZE))
  {
    hide CleanUp, FirstFree;
  }

  lemma CarveStartCase(m: Map, t: nat, i: nat)
    requires i == FirstFree(m, 0) && 0 < i < |m| && !(i + 1 < |m| && m[i + 1].table == t) && m[i - 1].table == t
    ensures Carve(m, t) == Some((CleanUp(m[i - 1 := Extended(m[i - 1])][i := Shrunk(m[i])], i), m[i].base))
  {
    hide CleanUp, FirstFree;
  }

  lemma CarveNewCase(m: Map, t: nat, i: nat)
    requires i == FirstFree(m, 0) && i < |m| && !(i + 1 < |m| && m[i + 1].table == t) && !(i > 0 && m[i - 1].table == t)
    ensures var m1 := m[..i] + [Block(true, false, m[i].base, PAGE_SIZE, t), Shrunk(m[i])] + m[i + 1..];
      Carve(m, t) == Some((CleanUp(m1, i + 1), m[i].base))
  {
    hide CleanUp, FirstFree;
  }

  lemma InsertThenShrink(m: Map, i: nat, b: Block)
    requires i < |m|
    ensures var m1 := m[..i] + [b] + m[i..];
      |m1| == |m| + 1 && m1[i + 1] == m[i] && m1[i + 1 := Shrunk(m[i])] == m[..i] + [b, Shrunk(m[i])] + m[i + 1..]
  {
  }

  // ----- the cursor of the page loops

  /** The loops stand at page q of the range p..p+n: directory entry dir, entry slot of it, and the
      number of entries left in it. */
  predicate AtPage(q: nat, dir: nat, base: nat, room: int) {
    InDirectory(q, dir) && SlotOf(base) == q % ENTRIES && room == ENTRIES - q % ENTRIES
  }

  function FirstDirectory(p: nat): nat { p / ENTRIES }

  function SlotOf(base: nat): (slot: nat)
    ensures slot < ENTRIES
  {
    base / PAGE_SIZE % ENTRIES
  }

  predicate InDirectory(q: nat, dir: nat) {
    dir == q / ENTRIES
  }

  lemma WithinDirectory(q: nat, j: nat)
    requires q % ENTRIES + j < ENTRIES
    ensures (q + j) / ENTRIES == q / ENTRIES && (q + j) % ENTRIES == q % ENTRIES + j
  {
  }

  lemma CursorRoom(q: nat, dir: nat, base: nat, room: int)
    requires AtPage(q, dir, base, room)
    ensures 0 < room <= ENTRIES && room == ENTRIES - SlotOf(base)
  {
  }

  /** After a directory entry either the range is done, or its next page is the first one of the
      next directory entry. */
  lemma NextDirectory(p: nat, n: nat, q: nat, i: nat, dir: nat, base: nat, room: int)
    requires n > 0 && p <= q < p + n <= PAGES && AtPage(q, dir, base, room) && dir == FirstDirectory(p) + i
    ensures var q' := q + if p + n - q < room then p + n - q else room;
      && dir < ENTRIES && InDirectory(q, dir) && room > 0
      && q < q' <= p + n && (q' == p + n <==> i + 1 == DirectoryCount(p, n))
      && (q' < p + n ==> AtPage(q', dir + 1, 0, ENTRIES) && i + 1 < DirectoryCount(p, n))
  {
    var d := q / ENTRIES;
    assert q == d * ENTRIES + q % ENTRIES;
    assert q + room == (d + 1) * ENTRIES;
  }

  lemma FirstCursor(base: nat)
    ensures AtPage(FirstPage(base), FirstDirectory(FirstPage(base)), base, ENTRIES - SlotOf(base))
  {
  }

  class Memory {
    var map_: Map
    var tables: seq<Table>
    var store: seq<seq<Entry>>

    ghost function State(): MemState
      reads this
    {
      MemState(map_, tables, store)
    }

    constructor (rs: seq<Region>)
      ensures State() == FirstTable(rs)
    {
      var m: Map := [];
      var i := 0;
      while i < |rs|
        invariant 0 <= i <= |rs| && m == InitialMap(rs)[..i]
      {
        var r := rs[i];
        var b: Block;
        if r.usable && Signed(r.base) >= 0x10_0000 {
          if Signed(r.base) >= 0x10_0000 && Signed(r.base) < 0x60_0000 {
            b := Block(false, false, USER_BASE, r.base + r.limit - USER_BASE - 1, KERNEL_TABLE);
          } else {
            b := Block(false, false, r.base, r.limit, KERNEL_TABLE);
          }
        } else {
          b := Block(true, true, r.base, r.limit, KERNEL_TABLE);
        }
        assert b == BlockOf(r) == InitialMap(rs)[i];
        m := m + [b];
        i := i + 1;
      }
      map_ := m;
      tables := [Table(true, seq(ENTRIES, _ => NO_TABLE))];
      store := [];
    }

    method CreatePageTable() returns (t: nat)
      modifies this
      ensures State() == CreateTable(old(State())).0 && t == CreateTable(old(State())).1
    {
      t := 0;
      while t < |tables|
        invariant t <= |tables| && FirstUnbound(tables, t) == FirstUnbound(tables, 0) && State() == old(State())
      {
        if !tables[t].bound {
          tables := tables[t := tables[t].(bound := true)];
          return;
        }
        t := t + 1;
      }
      var dirs: Directory := [];
      var i := 0;
      while i < ENTRIES
        invariant i <= ENTRIES && dirs == seq(i, _ => NO_TABLE) && State() == old(State())
      {
        dirs := dirs + [NO_TABLE];
        i := i + 1;
      }
      tables := tables + [Table(true, dirs)];
    }

    method EnsureSecondLevel(t: nat, d: nat)
      requires Shape(State()) && t < |tables| && d < ENTRIES
      modifies this`tables, this`store
      ensures State() == EnsureTable(old(State()), t, d)
    {
      if tables[t].dirs[d] == NO_TABLE {
        var entries: seq<Entry> := [];
        var i := 0;
        while i < ENTRIES
          invariant i <= ENTRIES && entries == seq(i, _ => EMPTY) && State() == old(State())
        {
          entries := entries + [EMPTY];
          i := i + 1;
        }
        tables := tables[t := tables[t].(dirs := tables[t].dirs[d := |store|])];
        store := store + [entries];
      }
    }

    method FindFree() returns (i: nat)
      ensures i == FirstFree(map_, 0)
    {
      i := 0;
      while i < |map_| && (map_[i].bound || Signed(map_[i].base) <= 0x10_0000)
        invariant i <= |map_| && FirstFree(map_, i) == FirstFree(map_, 0)
      {
        i := i + 1;
      }
    }

    /** A block left without bytes goes away. */
    method CleanUpBlock(i: nat)
      requires i < |map_|
      modifies this`map_
      ensures map_ == CleanUp(old(map_), i)
    {
      if map_[i].limit <= 0 {
        map_ := map_[..i] + map_[i + 1..];
      }
    }

    /** Takes a page out of the map for table t. */
    method TakePage(t: nat) returns (found: bool, address: nat)
      requires MapInv(map_) && t != KERNEL_TABLE
      modifies this`map_
      ensures found <==> Carve(old(map_), t).Some?
      ensures found ==> Carve(old(map_), t) == Some((map_, address))
      ensures !found ==> map_ == old(map_)
    {
      hide MapInv, FirstFree, Carve, CleanUp;
      var i := FindFree();
      found := i < |map_|;
      address := 0;
      if !found {
        CarveNothing(map_, t);
        return;
      }
      if i != |map_| - 1 && map_[i + 1].table == t {
        CarveEndCase(map_, t, i);
        map_ := map_[i := map_[i].(limit := map_[i].limit - PAGE_SIZE)];
        map_ := map_[i + 1 := map_[i + 1].(base := map_[i + 1].base - PAGE_SIZE,
                                               limit := map_[i + 1].limit + PAGE_SIZE)];
        address := map_[i + 1].base;
      } else if i != 0 && map_[i - 1].table == t {
        CarveStartCase(map_, t, i);
        address := map_[i].base;
        map_ := map_[i - 1 := map_[i - 1].(limit := map_[i - 1].limit + PAGE_SIZE)];
        map_ := map_[i := map_[i].(base := map_[i].base + PAGE_SIZE, limit := map_[i].limit - PAGE_SIZE)];
      } else {
        address := map_[i].base;
        var new_ := Block(true, false, address, PAGE_SIZE, t);
        CarveNewCase(map_, t, i);
        InsertThenShrink(map_, i, new_);
        map_ := map_[..i] + [new_] + map_[i..];
        i := i + 1;
        map_ := map_[i := map_[i].(base := map_[i].base + PAGE_SIZE, limit := map_[i].limit - PAGE_SIZE)];
      }
      CleanUpBlock(i);
    }

    method FillEntry(t: nat, d: nat, slot: nat)
      requires MemInv(State()) && t != KERNEL_TABLE && t < |tables| && tables[t].bound
      requires d < ENTRIES && slot < ENTRIES && tables[t].dirs[d] != NO_TABLE
      modifies this`map_, this`store
      ensures State() == FillPage(old(State()), t, d * ENTRIES + slot) && tables == old(tables) && MemInv(State())
    {
      hide MemInv, Carve, Grows, NoneFree, Unshared, UnboundEmpty;
      ghost var p := d * ENTRIES + slot;
      assert p / ENTRIES == d && p % ENTRIES == slot;
      InvShape(State());
      assert MemInv(FillPage(State(), t, p)) by {
        FillGrows(State(), t, p);
        GrowsInv(State(), FillPage(State(), t, p), t);
      }
      var k := tables[t].dirs[d];
      if !store[k][slot].mapped {
        assert !Get(State(), t, p).mapped;
        hide Shape, MapInv;
        var found, address := TakePage(t);
        if found {
          store := store[k := store[k][slot := Entry(true, address / PAGE_SIZE, true)]];
        }
      }
    }

    /** Gives table t memory for a range of addresses. */
    method AllocateMemory(t: nat, base: nat, limit: nat)
      requires MemInv(State()) && Guard(State(), CallAllocate(t, base, limit))
      modifies this
      ensures MemInv(State()) && State() == Allocate(old(State()), t, base, limit)
    {
      ghost var s0, p, n := State(), FirstPage(base), PageCount(base, limit);
      CountsAreRight(base, limit);
      RangeFits(base, limit);
      FirstCursor(base);
      var pages := TruncDiv(limit + base % PAGE_SIZE - 1, PAGE_SIZE) + 1;
      var directories := TruncDiv(limit + base % DIRECTORY_SIZE - 1, DIRECTORY_SIZE) + 1;
      var room := ENTRIES - SlotOf(base);
      var b := base;
      var dir := base / DIRECTORY_SIZE;
      ghost var q := p;
      var i := 0;
      assert Allocate(s0, t, base, limit) == AllocatePages(s0, t, p, n) && Shape(s0) by { InvShape(s0); }
      hide MemInv, AllocatePages, Allocate, TruncDiv, DirectoryCount, AtPage, FirstPage, PageCount, Shape,
        FirstDirectory, SlotOf;
      while i < directories
        invariant 0 <= i <= directories == DirectoryCount(p, n) && dir == FirstDirectory(p) + i
        invariant MemInv(State()) && Shape(State()) && t < |tables| && tables[t].bound
        invariant p <= q <= p + n <= PAGES
        invariant i < directories ==> pages == p + n - q > 0 && AtPage(q, dir, b, room)
        invariant i == directories ==> q == p + n && -1 <= pages <= 0
        invariant AllocatePages(State(), t, q, p + n - q) == AllocatePages(s0, t, p, n)
      {
        i := i + 1;
        pages, q := FillDirectory(t, dir, b, room, pages, p, n, q, i - 1);
        room := ENTRIES;
        b := 0;
        dir := dir + 1;
      }
      assert AllocatePages(State(), t, q, 0) == State() by { AllocatePagesNone(State(), t, q); }
    }

    /** One round of the loop over directory entries: the pages of the range that are in it. */
    method FillDirectory(t: nat, dir: nat, b: nat, room: int, count: int,
                         ghost p: nat, ghost n: nat, ghost q0: nat, ghost i: nat)
        returns (pages: int, ghost q: nat)
      requires MemInv(State()) && t != KERNEL_TABLE && t < |tables| && tables[t].bound
      requires n > 0 && p <= q0 < p + n <= PAGES && count == p + n - q0
      requires AtPage(q0, dir, b, room) && dir == FirstDirectory(p) + i
      modifies this
      ensures MemInv(State()) && Shape(State()) && |tables| == old(|tables|) && tables[t].bound
      ensures q0 < q <= p + n && (q == p + n <==> i + 1 == DirectoryCount(p, n))
      ensures q < p + n ==> pages == p + n - q && AtPage(q, dir + 1, 0, ENTRIES)
      ensures q == p + n ==> -1 <= pages <= 0
      ensures Shape(old(State()))
      ensures AllocatePages(State(), t, q, p + n - q) == AllocatePages(old(State()), t, q0, p + n - q0)
    {
      hide MemInv, AllocatePages, DirectoryCount, Shape, AtPage, InDirectory;
      NextDirectory(p, n, q0, i, dir, b, room);
      StartDirectory(t, dir, q0, p + n - q0);
      pages, q := FillEntries(t, dir, b, room, count, p + n - q0, q0);
    }

    /** The second-level table is made where it is missing, which the rest of the loop does not
        notice. */
    method StartDirectory(t: nat, dir: nat, ghost q: nat, ghost n: nat)
      requires MemInv(State()) && t < |tables| && tables[t].bound
      requires n > 0 && q + n <= PAGES && dir < ENTRIES && InDirectory(q, dir)
      modifies this
      ensures MemInv(State()) && Shape(State()) && |tables| == old(|tables|) && tables[t].bound
      ensures tables[t].dirs[dir] != NO_TABLE && map_ == old(map_) && State() == EnsureTable(old(State()), t, dir)
      ensures Shape(old(State())) && AllocatePages(State(), t, q, n) == AllocatePages(old(State()), t, q, n)
      ensures forall f: nat :: IdentityPages(State(), t, q, n, f) == IdentityPages(old(State()), t, q, n, f)
    {
      hide MemInv, AllocatePages, IdentityPages, Shape, EnsureTable, SameTranslation, Unshared, UnboundEmpty, MapInv;
      InvShape(State());
      EnsureFirst(State(), t, q, n);
      forall f: nat
        ensures IdentityPages(EnsureTable(State(), t, dir), t, q, n, f) == IdentityPages(State(), t, q, n, f)
      {
        EnsureFirstIdentity(State(), t, q, n, f);
      }
      EnsureKeepsInv(State(), t, dir);
      SameTranslationBound(State(), EnsureTable(State(), t, dir), t);
      SameTranslationMap(State(), EnsureTable(State(), t, dir));
      EnsureSecondLevel(t, dir);
    }

    /** The loop over the entries of one second-level table. */
    method FillEntries(t: nat, dir: nat, b: nat, room: int, count: int, ghost n: nat, ghost q0: nat)
        returns (pages: int, ghost q: nat)
      requires MemInv(State()) && t != KERNEL_TABLE && t < |tables| && tables[t].bound
      requires n > 0 && q0 + n <= PAGES && count == n && AtPage(q0, dir, b, room)
      requires dir < ENTRIES && Shape(State()) && tables[t].dirs[dir] != NO_TABLE
      modifies this
      ensures MemInv(State()) && Shape(State()) && tables == old(tables)
      ensures q == q0 + if n < room then n else room
      ensures pages == if n < room then -1 else n - room
      ensures AllocatePages(State(), t, q, q0 + n - q) == AllocatePages(old(State()), t, q0, n)
    {
      pages := count;
      q := q0;
      hide MemInv, AllocatePages, Shape, FillPage, Get, Unshared, UnboundEmpty, MapInv;
      var slot := SlotOf(b);
      var j := 0;
      while j < room && pages != 0
        invariant 0 <= j <= room && j <= n && q == q0 + j && pages == n - j && slot == q0 % ENTRIES + j
        invariant MemInv(State()) && Shape(State()) && tables == old(tables)
        invariant AllocatePages(State(), t, q, n - j) == AllocatePages(old(State()), t, q0, n)
      {
        WithinDirectory(q0, j);
        assert dir * ENTRIES + slot == q;
        FillFirst(State(), t, q, n - j);
        FillEntry(t, dir, slot);
        assert Shape(State()) by { InvShape(State()); }
        j, pages, slot, q := j + 1, pages - 1, slot + 1, q + 1;
      }
      if j < room { pages := pages - 1; }
    }

    // ----- identity mapping

    method MapEntry(t: nat, d: nat, slot: nat, frame: nat) returns (next: nat)
      requires MemInv(State()) && t < |tables| && tables[t].bound
      requires d < ENTRIES && slot < ENTRIES && tables[t].dirs[d] != NO_TABLE
      modifies this`store
      ensures (State(), next) == MapPage(old(State()), t, d * ENTRIES + slot, frame) && MemInv(State())
    {
      hide MemInv, Grows, Unshared, UnboundEmpty;
      ghost var p := d * ENTRIES + slot;
      assert p / ENTRIES == d && p % ENTRIES == slot;
      InvShape(State());
      MapPageKeepsInv(State(), t, p, frame);
      var k := tables[t].dirs[d];
      next := frame;
      if !store[k][slot].mapped {
        assert !Get(State(), t, p).mapped;
        store := store[k := store[k][slot := Entry(true, frame, false)]];
        next := next + 1;
      }
    }

    /** Maps a range of addresses of table t to itself. */
    method IdentityMap(t: nat, base: nat, limit: nat)
      requires MemInv(State()) && Guard(State(), CallIdentity(t, base, limit))
      modifies this
      ensures MemInv(State()) && State() == Identity(old(State()), t, base, limit)
    {
      ghost var s0, p, n := State(), FirstPage(base), PageCount(base, limit);
      CountsAreRight(base, limit);
      RangeFits(base, limit);
      FirstCursor(base);
      var pages := TruncDiv(limit + base % PAGE_SIZE - 1, PAGE_SIZE) + 1;
      var directories := TruncDiv(limit + base % DIRECTORY_SIZE - 1, DIRECTORY_SIZE) + 1;
      var room := ENTRIES - SlotOf(base);
      var frame: nat := base / PAGE_SIZE;
      var b := base;
      var dir := base / DIRECTORY_SIZE;
      ghost var q := p;
      var i := 0;
      assert Identity(s0, t, base, limit) == IdentityPages(s0, t, p, n, p) && frame == p && Shape(s0) by {
        InvShape(s0); }
      hide MemInv, IdentityPages, Identity, TruncDiv, DirectoryCount, AtPage, FirstPage, PageCount, Shape,
        FirstDirectory, SlotOf;
      while i < directories
        invariant 0 <= i <= directories == DirectoryCount(p, n) && dir == FirstDirectory(p) + i
        invariant MemInv(State()) && Shape(State()) && t < |tables| && tables[t].bound
        invariant p <= q <= p + n <= PAGES
        invariant i < directories ==> pages == p + n - q > 0 && AtPage(q, dir, b, room)
        invariant i == directories ==> q == p + n && -1 <= pages <= 0
        invariant IdentityPages(State(), t, q, p + n - q, frame) == IdentityPages(s0, t, p, n, p)
      {
        i := i + 1;
        pages, frame, q := MapDirectory(t, dir, b, room, pages, frame, p, n, q, i - 1);
        room := ENTRIES;
        b := 0;
        dir := dir + 1;
      }
      assert IdentityPages(State(), t, q, 0, frame) == State() by { IdentityNone(State(), t, q, frame); }
    }

    method MapDirectory(t: nat, dir: nat, b: nat, room: int, count: int, frame: nat,
                        ghost p: nat, ghost n: nat, ghost q0: nat, ghost i: nat)
        returns (pages: int, next: nat, ghost q: nat)
      requires MemInv(State()) && t < |tables| && tables[t].bound
      requires n > 0 && p <= q0 < p + n <= PAGES && count == p + n - q0
      requires AtPage(q0, dir, b, room) && dir == FirstDirectory(p) + i
      modifies this
      ensures MemInv(State()) && Shape(State()) && |tables| == old(|tables|) && tables[t].bound
      ensures q0 < q <= p + n && (q == p + n <==> i + 1 == DirectoryCount(p, n))
      ensures q < p + n ==> pages == p + n - q && AtPage(q, dir + 1, 0, ENTRIES)
      ensures q == p + n ==> -1 <= pages <= 0
      ensures Shape(old(State()))
      ensures IdentityPages(State(), t, q, p + n - q, next) == IdentityPages(old(State()), t, q0, p + n - q0, frame)
    {
      hide MemInv, IdentityPages, DirectoryCount, Shape, AtPage, InDirectory;
      NextDirectory(p, n, q0, i, dir, b, room);
      StartDirectory(t, dir, q0, p + n - q0);
      pages, next, q := MapEntries(t, dir, b, room, count, frame, p + n - q0, q0);
    }

    method MapEntries(t: nat, dir: nat, b: nat, room: int, count: int, frame: nat, ghost n: nat, ghost q0: nat)
        returns (pages: int, next: nat, ghost q: nat)
      requires MemInv(State()) && t < |tables| && tables[t].bound
      requires n > 0 && q0 + n <= PAGES && count == n && AtPage(q0, dir, b, room)
      requires dir < ENTRIES && Shape(State()) && tables[t].dirs[dir] != NO_TABLE
      modifies this
      ensures MemInv(State()) && Shape(State()) && tables == old(tables)
      ensures q == q0 + if n < room then n else room
      ensures pages == if n < room then -1 else n - room
      ensures IdentityPages(State(), t, q, q0 + n - q, next) == IdentityPages(old(State()), t, q0, n, frame)
    {
      pages := count;
      next := frame;
      q := q0;
      hide MemInv, IdentityPages, Shape, MapPage, Get, Unshared, UnboundEmpty, MapInv;
      var slot := SlotOf(b);
      var j := 0;
      while j < room && pages != 0
        invariant 0 <= j <= room && j <= n && q == q0 + j && pages == n - j && slot == q0 % ENTRIES + j
        invariant MemInv(State()) && Shape(State()) && tables == old(tables)
        invariant IdentityPages(State(), t, q, n - j, next) == IdentityPages(old(State()), t, q0, n, frame)
      {
        WithinDirectory(q0, j);
        assert dir * ENTRIES + slot == q;
        MapFirst(State(), t, q, n - j, next);
        next := MapEntry(t, dir, slot, next);
        assert Shape(State()) by { InvShape(State()); }
        j, pages, slot, q := j + 1, pages - 1, slot + 1, q + 1;
      }
      if j < room { pages := pages - 1; }
    }

    // ----- freeing

    method ClearEntries(d: nat)
      requires d < |store| && |store[d]| == ENTRIES
      modifies this`store
      ensures store == old(store)[d := EmptyTable()]
    {
      var j := 0;
      while j < ENTRIES
        invariant j <= ENTRIES && |store| == |old(store)| && |store[d]| == ENTRIES
        invariant forall k :: 0 <= k < j ==> store[d][k] == EMPTY
        invariant store == old(store)[d := store[d]]
      {
        store := store[d := store[d][j := EMPTY]];
        j := j + 1;
      }
      assert store[d] == EmptyTable();
    }

    /** Empties the second-level tables of t. */
    method ClearTables(t: nat)
      requires Shape(State()) && t < |tables|
      modifies this`store
      ensures State() == Cleared(old(State()), t, 0)
    {
      hide EmptyTable, Shape, Cleared;
      var i := 0;
      while i < ENTRIES
        invariant i <= ENTRIES && Shape(State()) && tables == old(tables)
        invariant Cleared(State(), t, i) == Cleared(old(State()), t, 0)
      {
        ClearedMore(State(), t, i);
        var d := tables[t].dirs[i];
        if d != NO_TABLE {
          ClearEntries(d);
        }
        i := i + 1;
      }
      ClearedAll(State(), t);
    }

    /** Gives t's blocks of the map back; the pass stops where it would look through a null node. */
    method FreeMapBlocks(t: nat) returns (ok: bool)
      modifies this`map_
      ensures ok <==> FreeBlocks(old(map_), t).Freed?
      ensures ok ==> FreeBlocks(old(map_), t) == Freed(map_)
    {
      var i := 0;
      var prev := NoPrev;
      while i < |map_|
        invariant FreePass(map_, i, prev, t) == FreeBlocks(old(map_), t)
        decreases |map_| - i
      {
        if map_[i].table == t && Signed(map_[i].base) > 0x10_0000 {
          if prev.Garbage? || (prev.At? && prev.k >= |map_|) {
            return false;
          } else if prev.At? && map_[prev.k].table == KERNEL_TABLE {
            map_ := map_[prev.k := map_[prev.k].(limit := map_[prev.k].limit + map_[i].limit)];
            map_ := map_[..i] + map_[i + 1..];
            prev := if prev.k > i then At(prev.k - 1) else prev;
          } else if i + 1 < |map_| && map_[i + 1].table == KERNEL_TABLE {
            var joined := map_[i + 1].(limit := map_[i + 1].limit + map_[i].limit, base := map_[i].base);
            map_ := map_[i + 1 := joined];
            map_ := map_[..i] + map_[i + 1..];
            if i + 1 >= |map_| { return false; }
            i := i + 1;
            prev := if i + 1 < |map_| then At(i + 1) else Garbage;
          } else {
            map_ := map_[i := map_[i].(bound := false, table := KERNEL_TABLE)];
            prev := At(i);
            i := i + 1;
          }
        } else {
          prev := At(i);
          i := i + 1;
        }
      }
      ok := true;
    }

    method FreePageTable(t: nat) returns (ok: bool)
      requires Shape(State()) && t < |tables|
      modifies this
      ensures ok <==> FreeTable(old(State()), t).Some?
      ensures ok ==> FreeTable(old(State()), t) == Some(State())
    {
      ClearTables(t);
      ok := FreeMapBlocks(t);
      if ok { tables := tables[t := tables[t].(bound := false)]; }
    }

    // ----- writing through a page table

    /** Writes a buffer at a virtual address of table t; a copy that would not end stops it. */
    method WriteVirtualMemory(t: nat, ram: array<Blocks.Byte>, source: seq<Blocks.Byte>, base: nat) returns (ok: bool)
      requires Shape(State()) && t < |tables| && InRange(base, |source|)
      requires Covered(State(), t, base, |source|)
      modifies ram
      ensures ok <==> WriteVirtual(old(ram[..]), State(), t, base, source).Some?
      ensures ok ==> WriteVirtual(old(ram[..]), State(), t, base, source) == Some(ram[..])
    {
      var limit: int := |source|;
      CountsAreRight(base, limit);
      RangeFits(base, limit);
      FirstCursor(base);
      var pages := TruncDiv(limit + base % PAGE_SIZE - 1, PAGE_SIZE) + 1;
      var directories := TruncDiv(limit + base % DIRECTORY_SIZE - 1, DIRECTORY_SIZE) + 1;
      ok := WriteDirectories(t, ram, source, base, pages, directories);
    }

    /** The loop over directory entries. */
    method WriteDirectories(t: nat, ram: array<Blocks.Byte>, source: seq<Blocks.Byte>, base: nat,
                                  count: int, directories: int)
        returns (ok: bool)
      requires Shape(State()) && t < |tables| && InRange(base, |source|) && Covered(State(), t, base, |source|)
      requires count == PageCount(base, |source|) && FirstPage(base) + PageCount(base, |source|) <= PAGES
      requires directories == DirectoryCount(FirstPage(base), PageCount(base, |source|))
      modifies ram
      ensures var frames := FramesOf(State(), t, base, |source|);
        if ok then WriteFrom(old(ram[..]), frames, base, source, 0) == Some(ram[..])
        else WriteFrom(old(ram[..]), frames, base, source, 0).None?
    {
      hide WriteFrom, DirectoryCount, AtPage, FirstPage, PageCount, Shape, OffsetAt, FramesOf, Covered, FirstDirectory,
        SlotOf, InRange, BaseLeft, InDirectory;
      ghost var p, n, frames := FirstPage(base), PageCount(base, |source|), FramesOf(State(), t, base, |source|);
      FirstCursor(base);
      CountsAreRight(base, |source|);
      var pages := count;
      var room := ENTRIES - SlotOf(base);
      var b := base;
      var dir := base / DIRECTORY_SIZE;
      var done: nat := 0;
      var i := 0;
      while i < directories
        invariant 0 <= i <= directories && dir == FirstDirectory(p) + i && b == (if i == 0 then base else 0)
        invariant done <= n && (i == directories ==> done == n)
        invariant i < directories ==> pages == n - done > 0 && AtPage(p + done, dir, b, room)
        invariant WriteFrom(ram[..], frames, base, source, done) == WriteFrom(old(ram[..]), frames, base, source, 0)
      {
        NextDirectory(p, n, p + done, i, dir, b, room);
        BaseForgotten(base, i);
        CoveredDirectory(State(), t, base, |source|, p + done, dir);
        done, ok := WriteEntries(t, ram, source, base, dir, b, room, pages, done, p + done);
        if !ok { return; }
        pages := if pages < room then -1 else pages - room;
        room := ENTRIES;
        b := 0;
        dir := dir + 1;
        i := i + 1;
      }
      ok := true;
      WriteFromEnd(ram[..], frames, base, source);
    }

    /** The pages of the range that are in one directory entry. */
    method WriteEntries(t: nat, ram: array<Blocks.Byte>, source: seq<Blocks.Byte>, ghost base: nat,
                        dir: nat, b: nat, room: int, count: int, first: nat, ghost q0: nat)
        returns (done: nat, ok: bool)
      requires Shape(State()) && t < |tables| && InRange(base, |source|) && count > 0 && q0 + count <= PAGES
      requires q0 == FirstPage(base) + first && q0 + count == FirstPage(base) + PageCount(base, |source|)
      requires AtPage(q0, dir, b, room) && BaseLeft(base, dir, b)
      requires dir < ENTRIES && tables[t].dirs[dir] != NO_TABLE
      modifies ram
      ensures var frames := FramesOf(State(), t, base, |source|);
        && (ok ==> done == first + if count < room then count else room)
        && (ok ==> WriteFrom(ram[..], frames, base, source, done) ==
                       WriteFrom(old(ram[..]), frames, base, source, first))
        && (!ok ==> WriteFrom(old(ram[..]), frames, base, source, first).None?)
    {
      hide WriteFrom, Shape, PageCount, FirstPage, AtPage, FramesOf, OffsetAt, LengthAt, SlotOf, BaseLeft, EntryAddress,
        CopyTo, InRange, FirstDirectory;
      ghost var frames := FramesOf(State(), t, base, |source|);
      CursorRoom(q0, dir, b, room);
      var pages := count;
      done := first;
      ok := true;
      var start := SlotOf(b);
      var slot := start;
      var j := 0;
      while j < room && pages != 0
        invariant 0 <= j <= room && j <= count && done == first + j && pages == count - j && slot == start + j
        invariant WriteFrom(ram[..], frames, base, source, done) == WriteFrom(old(ram[..]), frames, base, source, first)
      {
        EntryPlace(State(), t, base, |source|, dir, b, first, j, room);
        var at := EntryAddress(store[tables[t].dirs[dir]], slot, b);
        ok := WriteEntry(ram, source, at, done, base, frames);
        if !ok { return; }
        j, pages, slot, done := j + 1, pages - 1, slot + 1, done + 1;
      }
    }

    /** The copy to one page. */
    method WriteEntry(ram: array<Blocks.Byte>, source: seq<Blocks.Byte>, at: nat, i: nat,
                          ghost base: nat, ghost frames: seq<nat>)
        returns (ok: bool)
      requires i < |frames| && at == CopyTo(frames, base, i)
      modifies ram
      ensures ok ==> WriteFrom(ram[..], frames, base, source, i + 1) == WriteFrom(old(ram[..]), frames, base, source, i)
      ensures !ok ==> WriteFrom(old(ram[..]), frames, base, source, i).None?
    {
      hide WriteFrom, OffsetAt, Blocks.Splice, CopyTo, LengthAt;
      CopyCase(ram[..], frames, base, source, i, at);
      var length := |source| - PAGE_SIZE * i;
      if length >= PAGE_SIZE { length := PAGE_SIZE; }
      ok := 0 <= length && at + length <= ram.Length;
      if ok { CopyBytes(ram, at, source[PAGE_SIZE * i..PAGE_SIZE * i + length]); }
    }

    method CopyBytes(ram: array<Blocks.Byte>, at: nat, bytes: seq<Blocks.Byte>)
      requires at + |bytes| <= ram.Length
      modifies ram
      ensures ram[..] == Blocks.Splice(old(ram[..]), at, bytes)
    {
      var k := 0;
      while k < |bytes|
        invariant k <= |bytes|
        invariant ram[..] == Blocks.Splice(old(ram[..]), at, bytes[..k])
      {
        ram[at + k] := bytes[k];
        k := k + 1;
      }
      assert bytes[..k] == bytes;
    }
  }

  /** The memory at boot, from the firmware's list, which is sorted in place. */
  method InitMemory(regions: array<Region>) returns (memory: Memory)
    requires UsualList(regions[..])
    modifies regions
    ensures fresh(memory) && memory.State() == BootFrom(old(regions[..])) && MemInv(memory.State())
    ensures multiset(regions[..]) == multiset(old(regions[..]))
  {
    hide *;
    ghost var rs := regions[..];
    RegionOrder();
    Sort.BubbleSort(regions, RegionAfter);
    Sort.BubblePermutes(rs, RegionAfter);
    SortedIsUsual(rs);
    SortedOnce(rs);
    FirstTableIsSound(regions[..]);
    memory := new Memory(regions[..]);
    FirstCall(regions[..]);
    memory.IdentityMap(KERNEL_TABLE, 0, MAPPED_AT_BOOT);
  }

  lemma SortedOnce(rs: seq<Region>)
    ensures Sort.StrictWeak(RegionAfter) && InOrder(rs) == Sort.Bubble(rs, RegionAfter)
  {
  }

  lemma FirstCall(rs: seq<Region>)
    ensures Guard(FirstTable(rs), CallIdentity(KERNEL_TABLE, 0, MAPPED_AT_BOOT))
    ensures Shape(FirstTable(rs)) && KERNEL_TABLE < |FirstTable(rs).tables| && InRange(0, MAPPED_AT_BOOT)
    ensures forall us: seq<Region> :: InOrder(us) == rs ==>
      BootFrom(us) == Identity(FirstTable(rs), KERNEL_TABLE, 0, MAPPED_AT_BOOT)
  {
    FirstTableMapsNothing(rs);
  }
}
