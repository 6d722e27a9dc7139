/** Small machines on which the pass over the map goes wrong, from the first carving on. */
module MapExamples {
  import opened MemoryMap
  import opened MapFreeing
  import opened Options

  // ----- carving and passing, case by case

  /** The first free block is at i. */
  ghost predicate FirstFreeAt(m: Map, i: nat) {
    i < |m| && !m[i].bound && Signed(m[i].base) > 0x10_0000 && forall k :: 0 <= k < i ==> m[k].bound
  }

  lemma {:induction false} FirstFreeIs(m: Map, i: nat, j: nat)
    requires FirstFreeAt(m, i) && j <= i
    ensures FirstFree(m, j) == i
    decreases i - j
  {
    if j < i { FirstFreeIs(m, i, j + 1); }
  }

  /** A page from the start of the first free block, as a new block. */
  lemma CarveNew(m: Map, i: nat, t: nat)
    requires FirstFreeAt(m, i) && m[i].limit > PAGE_SIZE
    requires (i + 1 < |m| ==> m[i + 1].table != t) && (i > 0 ==> m[i - 1].table != t)
    ensures Carve(m, t) ==
      Some((m[..i] + [Block(true, false, m[i].base, PAGE_SIZE, t), Shrunk(m[i])] + m[i + 1..], m[i].base))
  {
    FirstFreeIs(m, i, 0);
  }

  /** The last page of the first free block, as a new block. */
  lemma CarveWhole(m: Map, i: nat, t: nat)
    requires FirstFreeAt(m, i) && m[i].limit <= PAGE_SIZE
    requires (i + 1 < |m| ==> m[i + 1].table != t) && (i > 0 ==> m[i - 1].table != t)
    ensures Carve(m, t) == Some((m[..i] + [Block(true, false, m[i].base, PAGE_SIZE, t)] + m[i + 1..], m[i].base))
  {
    FirstFreeIs(m, i, 0);
    var c := Block(true, false, m[i].base, PAGE_SIZE, t);
    assert CleanUp(m[..i] + [c, Shrunk(m[i])] + m[i + 1..], i + 1) == m[..i] + [c] + m[i + 1..];
  }

  /** A page from the start of the first free block into the block before it. */
  lemma CarveBehind(m: Map, i: nat, t: nat)
    requires FirstFreeAt(m, i) && i > 0 && m[i - 1].table == t && (i + 1 < |m| ==> m[i + 1].table != t)
    ensures Carve(m, t) == Some((m[..i - 1] + [Extended(m[i - 1])]
      + (if m[i].limit <= PAGE_SIZE then [] else [Shrunk(m[i])]) + m[i + 1..], m[i].base))
  {
    FirstFreeIs(m, i, 0);
    UpdateBothIsReplaced(m, i - 1, Shrunk(m[i]), Extended(m[i - 1]));
    var e, rest := Extended(m[i - 1]), if m[i].limit <= PAGE_SIZE then [] else [Shrunk(m[i])];
    assert (if Shrunk(m[i]).limit <= 0 then [e] else [e, Shrunk(m[i])]) == [e] + rest;
    assert m[..i - 1] + ([e] + rest) + m[i + 1..] == m[..i - 1] + [e] + rest + m[i + 1..];
  }

  /** Blocks that are not t's are passed over. */
  lemma {:induction false} PassTo(m: Map, i: nat, j: nat, t: nat)
    requires 0 < i <= j <= |m| && forall k :: i <= k < j ==> m[k].table != t
    ensures FreePass(m, i, At(i - 1), t) == FreePass(m, j, At(j - 1), t)
    decreases j - i
  {
    if i < j {
      PassOver(m, i, At(i - 1), t);
      hide FreePass;
      PassTo(m, i + 1, j, t);
    }
  }

  lemma StartPass(m: Map, j: nat, t: nat)
    requires 0 < j <= |m| && forall k :: 0 <= k < j ==> m[k].table != t
    ensures FreeBlocks(m, t) == FreePass(m, j, At(j - 1), t)
  {
    PassOver(m, 0, NoPrev, t);
    PassTo(m, 1, j, t);
  }

  /** A table with one block, between blocks that are not the kernel's: it is retagged. */
  lemma FreeOne(m: Map, j: nat, t: nat)
    requires t != KERNEL_TABLE && 0 < j < |m| && ToFree(m[j], t)
    requires (forall k :: 0 <= k < |m| && k != j ==> m[k].table != t)
    requires !Tagged(m[j - 1]) && j + 1 < |m| && !Tagged(m[j + 1])
    ensures FreeBlocks(m, t) == Freed(m[j := Retag(m[j])])
    ensures Sound(m, t)
  {
    var m' := m[j := Retag(m[j])];
    StartPass(m, j, t);
    RetagRound(m, j, At(j - 1), t);
    PassTo(m', j + 1, |m'|, t);
    PassEnds(m', |m'|, At(|m'| - 1), t);
    hide FreePass;
    forall k: nat | k < |m|
      ensures SoundAt(m, k, t)
    {
      if k != j { NotMine(m, k, t); } else { NotBroken(m, k, t); }
    }
  }

  // ----- a page lost


  /** Reserved memory, two free pages, reserved memory. */
  function SmallMap(): Map {
    [Block(true, true, 0xF_0000, 0x1_0000, 0), Block(false, false, 0x60_0000, 0x2000, 0),
     Block(true, true, 0x60_2000, 0x1000, 0)]
  }

  lemma SmallMapIsSound()
    ensures MapInv(SmallMap())
  {
  }

  function SmallMapCarved(): Map {
    [SmallMap()[0], Block(true, false, 0x60_0000, 0x1000, 1), Block(false, false, 0x60_1000, 0x1000, 0), SmallMap()[2]]
  }

  function SmallMapFreed(): Map {
    [Block(true, true, 0xF_0000, 0x1_1000, 0), Block(false, false, 0x60_1000, 0x1000, 0), SmallMap()[2]]
  }

  lemma SmallRun()
    ensures Carve(SmallMap(), 1) == Some((SmallMapCarved(), 0x60_0000))
    ensures FreeBlocks(SmallMapCarved(), 1) == Freed(SmallMapFreed())
  {
    var m := SmallMap();
    assert FirstFree(m, 0) == 1;
    assert m[..1] + [Block(true, false, 0x60_0000, 0x1000, 1), Shrunk(m[1])] + m[2..] == SmallMapCarved();
    var n, o := SmallMapCarved(), SmallMapFreed();
    assert FreeBlocks(n, 1) == FreePass(n, 1, At(0), 1);
    assert o == Removed(n[0 := Lengthened(n[0], n[1])], 1);
    assert FreePass(n, 1, At(0), 1) == FreePass(o, 1, At(0), 1) == FreePass(o, 2, At(1), 1) == FreePass(o, 3, At(2), 1);
  }

  /** The first page table to be given a page gets the one next to the reserved memory, and
      freeing the table adds that page to the reserved block: it is never free again. */
  lemma FirstTableLosesItsPage()
    ensures MapInv(SmallMap()) && Carve(SmallMap(), 1) == Some((SmallMapCarved(), 0x60_0000))
    ensures OwnedBy(SmallMapCarved(), 1, 0x60_0000)
    ensures FreeBlocks(SmallMapCarved(), 1) == Freed(SmallMapFreed()) && !FreeAt(SmallMapFreed(), 0x60_0000)
  {
    SmallRun();
    SmallMapIsSound();
    hide Carve, FreeBlocks, MapInv;
    assert SmallMapCarved()[1].base <= 0x60_0000 < Top(SmallMapCarved()[1]);
  }

  // ----- reserved memory handed out

  /** The map after tables 2, 1, 3 and 1 again were given a page each and table 3 was freed. */
  function FragmentedMap(): Map {
    [Block(true, true, 0xF_0000, 0x1_0000, 0), Block(true, false, 0x60_0000, 0x1000, 2),
     Block(true, false, 0x60_1000, 0x1000, 1), Block(false, false, 0x60_2000, 0x1000, 0),
     Block(true, false, 0x60_3000, 0x1000, 1), Block(false, false, 0x60_4000, 0x1000, 0),
     Block(true, true, 0x60_5000, 0x1000, 0)]
  }

  /** Reserved memory around five free pages. */
  function FivePages(): Map {
    [Block(true, true, 0xF_0000, 0x1_0000, 0), Block(false, false, 0x60_0000, 0x5000, 0),
     Block(true, true, 0x60_5000, 0x1000, 0)]
  }

  /** It after tables 2, 1, 3 and 1 again have been given a page each. */
  function FivePagesCarved(n: nat): Map
    requires n <= 4
  {
    FivePages()[..1] + [User(2, 0x600), User(1, 0x601), User(3, 0x602), User(1, 0x603)][..n]
    + [Block(false, false, 0x60_0000 + n * PAGE_SIZE, 0x5000 - n * PAGE_SIZE, 0)] + FivePages()[2..]
  }

  function User(t: nat, page: nat): Block { Block(true, false, page * PAGE_SIZE, PAGE_SIZE, t) }

  lemma FivePagesStep(n: nat)
    requires n < 4
    ensures Carve(FivePagesCarved(n), [2, 1, 3, 1][n]) == Some((FivePagesCarved(n + 1), 0x60_0000 + n * PAGE_SIZE))
  {
    var m, t := FivePagesCarved(n), [2, 1, 3, 1][n];
    CarveNew(m, n + 1, t);
    var users := [User(2, 0x600), User(1, 0x601), User(3, 0x602), User(1, 0x603)];
    var first, rest, last := FivePages()[..1] + users[..n], m[n + 1], FivePages()[2..];
    Parts(first, rest, last);
    var c := Block(true, false, rest.base, PAGE_SIZE, t);
    assert c == User(t, 0x600 + n) == users[n];
    assert users[..n + 1] == users[..n] + [c];
    assert first + [c, Shrunk(rest)] == FivePages()[..1] + users[..n + 1] + [Shrunk(rest)];
  }

  lemma Parts(first: Map, b: Block, last: Map)
    ensures var m := first + [b] + last;
      m[..|first|] == first && m[|first|] == b && m[|first| + 1..] == last
  {
  }

  lemma FivePagesStart()
    ensures FivePagesCarved(0) == FivePages() && MapInv(FivePages())
  {
  }

  /** The map with a hole in it comes from carving: tables 2, 1, 3 and 1 again are given a page
      each, and table 3 is freed. */
  lemma FragmentedIsReached()
    ensures FivePagesCarved(0) == FivePages() && MapInv(FivePages())
    ensures forall n: nat :: n < 4 ==>
      Carve(FivePagesCarved(n), [2, 1, 3, 1][n]) == Some((FivePagesCarved(n + 1), 0x60_0000 + n * PAGE_SIZE))
    ensures Sound(FivePagesCarved(4), 3) && FreeBlocks(FivePagesCarved(4), 3) == Freed(FragmentedMap())
  {
    FivePagesStart();
    hide FivePagesCarved, FivePages, MapInv, Carve, FreeBlocks, Sound, FragmentedMap;
    forall n: nat | n < 4
      ensures Carve(FivePagesCarved(n), [2, 1, 3, 1][n]) == Some((FivePagesCarved(n + 1), 0x60_0000 + n * PAGE_SIZE))
    {
      FivePagesStep(n);
    }
    FivePagesFreed();
  }

  lemma FivePagesFreed()
    ensures Sound(FivePagesCarved(4), 3) && FreeBlocks(FivePagesCarved(4), 3) == Freed(FragmentedMap())
  {
    var m := FivePagesCarved(4);
    assert m == [FivePages()[0], User(2, 0x600), User(1, 0x601), User(3, 0x602), User(1, 0x603),
                 Block(false, false, 0x60_4000, 0x1000, 0), FivePages()[2]];
    FreeOne(m, 3, 3);
    hide FreeBlocks, Sound;
    assert m[3 := Retag(m[3])] == FragmentedMap();
  }

  lemma {:induction false} AdjacentSorted(m: Map, i: nat, j: nat)
    requires i < j < |m| && forall k: nat :: k < |m| ==> GoodBlock(m[k])
    requires forall k: nat, n: nat :: n == k + 1 && n < |m| ==> Top(m[k]) <= m[n].base
    ensures Top(m[i]) <= m[j].base
    decreases j - i
  {
    if i + 1 < j {
      hide GoodBlock, Top;
      AdjacentSorted(m, i, j - 1);
      TopAbove(m[j - 1]);
    }
  }

  lemma FragmentedBlocks()
    ensures forall k: nat :: k < |FragmentedMap()| ==> GoodBlock(FragmentedMap()[k])
  {
  }

  lemma FragmentedTouches()
    ensures Touching(FragmentedMap())
    ensures var m := FragmentedMap();
      forall k: nat, n: nat :: n == k + 1 && n < |m| ==> Top(m[k]) <= m[n].base
  {
  }

  lemma FragmentedIsSound()
    ensures MapInv(FragmentedMap())
  {
    var m := FragmentedMap();
    FragmentedBlocks();
    FragmentedTouches();
    hide GoodBlock, Top, FragmentedMap, Touching;
    forall i: nat, j: nat | i < j < |m|
      ensures Top(m[i]) <= m[j].base
    {
      AdjacentSorted(m, i, j);
    }
  }

  function OverreachingMap(): Map {
    var m := FragmentedMap();
    [m[0], m[1], Block(false, false, 0x60_1000, 0x2000, 0), Block(false, false, 0x60_4000, 0x2000, 0), m[6]]
  }

  lemma FragmentedRun()
    ensures FreeBlocks(FragmentedMap(), 1) == Freed(OverreachingMap())
  {
    var m, o := FragmentedMap(), OverreachingMap();
    assert FreeBlocks(m, 1) == FreePass(m, 1, At(0), 1) == FreePass(m, 2, At(1), 1);
    JoinThenGrow(m, 2, At(1), 1);
    assert o == m[..2] + [Joined(m[2], m[3]), Lengthened(m[5], m[4])] + m[6..];
    assert FreePass(o, 3, At(3), 1) == FreePass(o, 4, At(3), 1) == FreePass(o, 5, At(4), 1) == Freed(o);
  }

  /** Freeing table 1 then makes the last free block reach into the reserved memory after it:
      a page of that memory can be handed out. */
  lemma FreeReachesIntoReservedMemory()
    ensures MapInv(FragmentedMap()) && !Sound(FragmentedMap(), 1)
    ensures FreeBlocks(FragmentedMap(), 1) == Freed(OverreachingMap())
    ensures var m := OverreachingMap();
      FreeAt(m, 0x60_5000) && !Sorted(m) && IsPinned(m[4]) && m[4].base <= 0x60_5000 < Top(m[4])
  {
    var m, o := FragmentedMap(), OverreachingMap();
    FragmentedRun();
    FragmentedIsSound();
    hide FreeBlocks, MapInv;
    assert MergesUp(m, 2, 1) && !SoundAt(m, 2, 1);
    assert o[3] == Block(false, false, 0x60_4000, 0x2000, 0) && o[4] == Block(true, true, 0x60_5000, 0x1000, 0);
    assert Top(o[3]) == 0x60_6000 && Top(o[4]) == 0x60_6000;
    assert o[3].base <= 0x60_5000 < Top(o[3]) && IsFree(o[3]);
    assert !(Top(o[3]) <= o[4].base);
  }

  // ----- a hole handed out

  /** Two stretches of free memory with a hole between them that nobody reported. */
  function HoleMap(): Map {
    [Block(true, true, 0xF_0000, 0x1_0000, 0), Block(false, false, 0x60_0000, 0x2000, 0),
     Block(false, false, 0x70_0000, 0x2000, 0)]
  }

  /** Tables 3, 1 and 2 have been given a page each. */
  function HoleMapCarved(): Map {
    [HoleMap()[0], User(3, 0x600), User(1, 0x601), User(2, 0x700), Block(false, false, 0x70_1000, 0x1000, 0)]
  }

  function HoleMapFreed(): Map { HoleMapCarved()[2 := Block(false, false, 0x60_1000, 0x1000, 0)] }

  /** The map after n of the three calls. */
  function HoleMapAfter(n: nat): Map
    requires n <= 3
  {
    if n == 0 then HoleMap()
    else if n == 1 then
      [HoleMap()[0], User(3, 0x600), Block(false, false, 0x60_1000, 0x1000, 0), HoleMap()[2]]
    else if n == 2 then [HoleMap()[0], User(3, 0x600), User(1, 0x601), HoleMap()[2]]
    else HoleMapCarved()
  }

  const HOLE_TURNS: seq<nat> := [3, 1, 2]
  const HOLE_PAGES: seq<nat> := [0x60_0000, 0x60_1000, 0x70_0000]

  /** Free neighbours have to touch: once tables 3, 1 and 2 have a page each and table 1 is freed,
      the next page for table 2 is one of the hole. */
  lemma HoleIsHandedOut()
    ensures !Touching(HoleMap()) && Sorted(HoleMap()) && forall k: nat :: k < |HoleMap()| ==> GoodBlock(HoleMap()[k])
    ensures forall n: nat :: n < 3 ==>
      Carve(HoleMapAfter(n), HOLE_TURNS[n]) == Some((HoleMapAfter(n + 1), HOLE_PAGES[n]))
    ensures Sound(HoleMapAfter(3), 1) && FreeBlocks(HoleMapAfter(3), 1) == Freed(HoleMapFreed())
    ensures Carve(HoleMapFreed(), 2).Some? && Carve(HoleMapFreed(), 2).value.1 == 0x6F_F000
    ensures !FreeAt(HoleMapFreed(), 0x6F_F000) && !FreeAt(HoleMap(), 0x6F_F000)
  {
    HoleMapBlocks();
    hide Touching, Sorted, GoodBlock, FreeAt;
    HoleCarves(0);
    HoleCarves(1);
    HoleCarves(2);
    HoleFreed();
    HoleNotFree();
  }

  lemma HoleMapBlocks()
    ensures !Touching(HoleMap()) && Sorted(HoleMap()) && forall k: nat :: k < |HoleMap()| ==> GoodBlock(HoleMap()[k])
  {
    var m := HoleMap();
    assert !m[1].pinned && !m[2].pinned && m[1].base + m[1].limit != m[2].base;
  }

  lemma HoleCarves(n: nat)
    requires n < 3
    ensures Carve(HoleMapAfter(n), HOLE_TURNS[n]) == Some((HoleMapAfter(n + 1), HOLE_PAGES[n]))
  {
    var m, t, i := HoleMapAfter(n), HOLE_TURNS[n], n + 1;
    if n == 1 { CarveWhole(m, i, t); } else { CarveNew(m, i, t); }
    hide Carve;
    var c := Block(true, false, m[i].base, PAGE_SIZE, t);
    assert m[..i] + (if n == 1 then [c] else [c, Shrunk(m[i])]) + m[i + 1..] == HoleMapAfter(n + 1);
  }

  lemma HoleFreed()
    ensures Sound(HoleMapAfter(3), 1) && FreeBlocks(HoleMapAfter(3), 1) == Freed(HoleMapFreed())
  {
    var m := HoleMapCarved();
    FreeOne(m, 2, 1);
    assert Retag(m[2]) == HoleMapFreed()[2];
  }

  lemma HoleNotFree()
    ensures Carve(HoleMapFreed(), 2).Some? && Carve(HoleMapFreed(), 2).value.1 == 0x6F_F000
    ensures !FreeAt(HoleMapFreed(), 0x6F_F000) && !FreeAt(HoleMap(), 0x6F_F000)
  {
    FirstFreeIs(HoleMapFreed(), 2, 0);
  }
}
