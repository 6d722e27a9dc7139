/** The map of physical memory: a sorted list of intervals, free, pinned or bound to one page
    table, from which pages are carved and into which freed intervals are merged. */
module MemoryMap {
  import opened Options

  const PAGE_SIZE: int := 0x1000
  const KERNEL_TABLE: nat := 0
  const USER_BASE: int := 0x60_0000

  datatype Block = Block(bound: bool, pinned: bool, base: nat, limit: int, table: nat)

  type Map = seq<Block>

  /** A 32-bit address read as a signed integer. */
  function Signed(a: nat): int {
    if a < 0x8000_0000 then a else a - 0x1_0000_0000
  }

  // ----- kinds of blocks and what the map keeps

  predicate IsFree(b: Block) { !b.bound && !b.pinned && b.table == KERNEL_TABLE }
  predicate IsPinned(b: Block) { b.bound && b.pinned && b.table == KERNEL_TABLE }
  predicate IsUser(b: Block) { b.bound && !b.pinned && b.table != KERNEL_TABLE }

  /** The end of a block, rounded up to whole pages for a free one: the limit of the block
      above the kernel is one byte short of the memory there. */
  function Top(b: Block): int {
    if IsFree(b) then b.base + (b.limit + PAGE_SIZE - 1) / PAGE_SIZE * PAGE_SIZE else b.base + b.limit
  }

  ghost predicate GoodBlock(b: Block) {
    && (IsFree(b) || IsPinned(b) || IsUser(b)) && b.limit > 0
    && (!IsPinned(b) ==> b.base % PAGE_SIZE == 0 && USER_BASE <= b.base && Top(b) < 0x8000_0000)
    && (IsFree(b) ==> b.limit % PAGE_SIZE == 0 || b.limit % PAGE_SIZE == PAGE_SIZE - 1)
    && (IsUser(b) ==> b.limit % PAGE_SIZE == 0)
  }

  ghost predicate Sorted(m: Map) {
    forall i, j :: 0 <= i < j < |m| ==> Top(m[i]) <= m[j].base
  }

  /** Two neighbours that are not pinned touch. */
  ghost predicate Touching(m: Map) {
    forall i, j :: 0 <= i && j == i + 1 && j < |m| && !m[i].pinned && !m[j].pinned ==>
      m[i].base + m[i].limit == m[j].base
  }

  ghost predicate MapInv(m: Map) {
    (forall i :: 0 <= i < |m| ==> GoodBlock(m[i])) && Sorted(m) && Touching(m)
  }

  /** The page at address x lies in a block bound to a page table. */
  ghost predicate OwnedBy(m: Map, t: nat, x: int) {
    exists k :: 0 <= k < |m| && IsUser(m[k]) && m[k].table == t && m[k].base <= x < Top(m[k])
  }

  ghost predicate FreeAt(m: Map, x: int) {
    exists k :: 0 <= k < |m| && IsFree(m[k]) && m[k].base <= x < Top(m[k])
  }

  // ----- carving one page

  /** The first unbound block above the first megabyte. */
  function FirstFree(m: Map, i: nat): (r: nat)
    requires i <= |m|
    ensures i <= r <= |m|
    ensures r < |m| ==> !m[r].bound && Signed(m[r].base) > 0x10_0000
    ensures forall k :: i <= k < r ==> m[k].bound || Signed(m[k].base) <= 0x10_0000
    decreases |m| - i
  {
    if i < |m| && (m[i].bound || Signed(m[i].base) <= 0x10_0000) then FirstFree(m, i + 1) else i
  }

  function Shrunk(b: Block): Block {
    b.(base := b.base + PAGE_SIZE, limit := b.limit - PAGE_SIZE)
  }

  function Removed(m: Map, i: nat): Map
    requires i < |m|
  {
    m[..i] + m[i + 1..]
  }

  /** A block left without bytes goes away. */
  function CleanUp(m: Map, i: nat): Map
    requires i < |m|
  {
    if m[i].limit <= 0 then Removed(m, i) else m
  }

  /** One page for page table t: taken from the end of the first free block when the block
      after it is t's, from its start when the block before it is, or else as a new block. */
  function Carve(m: Map, t: nat): Option<(Map, nat)> {
    var i := FirstFree(m, 0);
    if i == |m| then None
    else
      var b := m[i];
      if i + 1 < |m| && m[i + 1].table == t then
        if m[i + 1].base < PAGE_SIZE then None
        else
          var next := m[i + 1].(base := m[i + 1].base - PAGE_SIZE, limit := m[i + 1].limit + PAGE_SIZE);
          Some((CleanUp(m[i := b.(limit := b.limit - PAGE_SIZE)][i + 1 := next], i), next.base))
      else if i > 0 && m[i - 1].table == t then
        var prev := m[i - 1].(limit := m[i - 1].limit + PAGE_SIZE);
        Some((CleanUp(m[i - 1 := prev][i := Shrunk(b)], i), b.base))
      else
        var new_ := Block(true, false, b.base, PAGE_SIZE, t);
        Some((CleanUp(m[..i] + [new_, Shrunk(b)] + m[i + 1..], i + 1), b.base))
  }

  lemma PageMath(limit: int)
    requires limit > 0 && (limit % PAGE_SIZE == 0 || limit % PAGE_SIZE == PAGE_SIZE - 1)
    ensures var pages := (limit + PAGE_SIZE - 1) / PAGE_SIZE;
      && pages >= 1 && (limit - PAGE_SIZE <= 0 <==> pages == 1)
      && (limit - PAGE_SIZE + PAGE_SIZE - 1) / PAGE_SIZE == pages - 1
      && (limit - PAGE_SIZE) % PAGE_SIZE == limit % PAGE_SIZE
      && (limit % PAGE_SIZE == 0 ==> pages * PAGE_SIZE == limit)
      && (limit % PAGE_SIZE != 0 ==> pages * PAGE_SIZE == limit + 1)
  {
  }

  // ----- replacing a stretch of the map

  /** m with the blocks lo..hi replaced. */
  function Replaced(m: Map, lo: nat, hi: nat, mid: Map): Map
    requires lo <= hi <= |m|
  {
    m[..lo] + mid + m[hi..]
  }

  ghost predicate Neighbours(a: Block, b: Block) {
    !a.pinned && !b.pinned ==> a.base + a.limit == b.base
  }

  /** What a replacement must satisfy to fit where the stretch was. */
  ghost predicate FitsIn(m: Map, lo: nat, hi: nat, mid: Map)
    requires lo < hi <= |m|
  {
    && mid != [] && MapInv(mid)
    && m[lo].base <= mid[0].base
    && (lo > 0 ==> Neighbours(m[lo - 1], mid[0]))
    && (hi < |m| ==> Top(mid[|mid| - 1]) <= m[hi].base && Neighbours(mid[|mid| - 1], m[hi]))
  }

  lemma TopAbove(b: Block)
    requires GoodBlock(b)
    ensures b.base < Top(b) && b.base + b.limit <= Top(b) <= b.base + b.limit + 1
    ensures !IsFree(b) ==> Top(b) == b.base + b.limit
  {
    if IsFree(b) { PageMath(b.limit); }
  }

  lemma InSorted(m: Map, i: nat, j: nat)
    requires MapInv(m) && i <= j < |m|
    ensures m[i].base <= m[j].base && Top(m[i]) <= Top(m[j])
  {
    TopAbove(m[i]);
    TopAbove(m[j]);
  }

  lemma ReplacedAt(m: Map, lo: nat, hi: nat, mid: Map, i: nat)
    requires lo <= hi <= |m| && i < |Replaced(m, lo, hi, mid)|
    ensures Replaced(m, lo, hi, mid)[i] ==
      if i < lo then m[i] else if i < lo + |mid| then mid[i - lo] else m[i - lo - |mid| + hi]
  {
  }

  lemma SortedPair(m: Map, i: nat, j: nat)
    requires MapInv(m) && i < j < |m|
    ensures Top(m[i]) <= m[j].base
  {
  }

  lemma ReplacePair(m: Map, lo: nat, hi: nat, mid: Map, i: nat, j: nat)
    requires MapInv(m) && lo < hi <= |m| && FitsIn(m, lo, hi, mid)
    requires i < j < |Replaced(m, lo, hi, mid)|
    ensures Top(Replaced(m, lo, hi, mid)[i]) <= Replaced(m, lo, hi, mid)[j].base
  {
    hide MapInv, Replaced, Top, Neighbours;
    var n := |mid|;
    assert |Replaced(m, lo, hi, mid)| == |m| - (hi - lo) + n by { ReplacedLength(m, lo, hi, mid); }
    ReplacedAt(m, lo, hi, mid, i);
    ReplacedAt(m, lo, hi, mid, j);
    if j < lo {
      SortedPair(m, i, j);
    } else if i < lo && j < lo + n {
      SortedPair(m, i, lo);
      InSorted(mid, 0, j - lo);
    } else if i < lo {
      SortedPair(m, i, j - lo - n + hi);
    } else if j < lo + n {
      SortedPair(mid, i - lo, j - lo);
    } else if i < lo + n {
      InSorted(mid, i - lo, n - 1);
      InSorted(m, hi, j - lo - n + hi);
    } else {
      SortedPair(m, i - lo - n + hi, j - lo - n + hi);
    }
  }

  lemma ReplacedLength(m: Map, lo: nat, hi: nat, mid: Map)
    requires lo <= hi <= |m|
    ensures |Replaced(m, lo, hi, mid)| == |m| - (hi - lo) + |mid|
  {
  }

  lemma TouchingPair(m: Map, i: nat)
    requires MapInv(m) && i + 1 < |m|
    ensures Neighbours(m[i], m[i + 1])
  {
  }

  lemma ReplaceNeighbours(m: Map, lo: nat, hi: nat, mid: Map, i: nat)
    requires MapInv(m) && lo < hi <= |m| && FitsIn(m, lo, hi, mid) && i + 1 < |Replaced(m, lo, hi, mid)|
    ensures Neighbours(Replaced(m, lo, hi, mid)[i], Replaced(m, lo, hi, mid)[i + 1])
  {
    hide MapInv, Replaced, Top, Neighbours;
    var n := |mid|;
    ReplacedLength(m, lo, hi, mid);
    ReplacedAt(m, lo, hi, mid, i);
    ReplacedAt(m, lo, hi, mid, i + 1);
    if i + 1 < lo {
      TouchingPair(m, i);
    } else if lo <= i && i + 1 < lo + n {
      TouchingPair(mid, i - lo);
    } else if lo + n <= i {
      TouchingPair(m, i - lo - n + hi);
    }
  }

  lemma GoodAt(m: Map, i: nat)
    requires MapInv(m) && i < |m|
    ensures GoodBlock(m[i])
  {
  }

  lemma ReplaceKeepsInv(m: Map, lo: nat, hi: nat, mid: Map)
    requires MapInv(m) && lo < hi <= |m| && FitsIn(m, lo, hi, mid)
    ensures MapInv(Replaced(m, lo, hi, mid))
  {
    var m' := Replaced(m, lo, hi, mid);
    hide Replaced, Top, GoodBlock;
    forall i: nat | i < |m'|
      ensures GoodBlock(m'[i])
    {
      ReplacedLength(m, lo, hi, mid);
      ReplacedAt(m, lo, hi, mid, i);
      if i < lo {
        GoodAt(m, i);
      } else if i < lo + |mid| {
        GoodAt(mid, i - lo);
      } else {
        GoodAt(m, i - lo - |mid| + hi);
      }
    }
    forall i: nat, j: nat | i < j < |m'|
      ensures Top(m'[i]) <= m'[j].base
    {
      ReplacePair(m, lo, hi, mid, i, j);
    }
    forall i: nat, j: nat | j == i + 1 && j < |m'|
      ensures Neighbours(m'[i], m'[j])
    {
      ReplaceNeighbours(m, lo, hi, mid, i);
    }
  }

  /** Ownership and freedom of a concatenation. */
  lemma Cover(a: Map, b: Map, t: nat, x: int)
    ensures OwnedBy(a + b, t, x) <==> OwnedBy(a, t, x) || OwnedBy(b, t, x)
    ensures FreeAt(a + b, x) <==> FreeAt(a, x) || FreeAt(b, x)
  {
    var c := a + b;
    assert forall k :: 0 <= k < |a| ==> c[k] == a[k];
    assert forall k :: 0 <= k < |b| ==> c[k + |a|] == b[k];
    assert OwnedBy(c, t, x) ==> OwnedBy(a, t, x) || OwnedBy(b, t, x) by {
      if OwnedBy(c, t, x) {
        var k :| 0 <= k < |c| && IsUser(c[k]) && c[k].table == t && c[k].base <= x < Top(c[k]);
        if k >= |a| { assert c[k] == b[k - |a|]; }
      }
    }
    assert FreeAt(c, x) ==> FreeAt(a, x) || FreeAt(b, x) by {
      if FreeAt(c, x) {
        var k :| 0 <= k < |c| && IsFree(c[k]) && c[k].base <= x < Top(c[k]);
        if k >= |a| { assert c[k] == b[k - |a|]; }
      }
    }
  }

  lemma ReplaceCover(m: Map, lo: nat, hi: nat, mid: Map, t: nat, x: int)
    requires lo <= hi <= |m|
    ensures var rest := m[..lo] + m[hi..];
      && (OwnedBy(m, t, x) <==> OwnedBy(rest, t, x) || OwnedBy(m[lo..hi], t, x))
      && (FreeAt(m, x) <==> FreeAt(rest, x) || FreeAt(m[lo..hi], x))
      && (OwnedBy(Replaced(m, lo, hi, mid), t, x) <==> OwnedBy(rest, t, x) || OwnedBy(mid, t, x))
      && (FreeAt(Replaced(m, lo, hi, mid), x) <==> FreeAt(rest, x) || FreeAt(mid, x))
  {
    hide OwnedBy, FreeAt;
    assert m == m[..lo] + m[lo..hi] + m[hi..];
    Cover(m[..lo], m[hi..], t, x);
    Cover(m[..lo] + m[lo..hi], m[hi..], t, x);
    Cover(m[..lo], m[lo..hi], t, x);
    Cover(m[..lo] + mid, m[hi..], t, x);
    Cover(m[..lo], mid, t, x);
  }

  lemma CoverOne(b: Block, t: nat, x: int)
    ensures OwnedBy([b], t, x) <==> IsUser(b) && b.table == t && b.base <= x < Top(b)
    ensures FreeAt([b], x) <==> IsFree(b) && b.base <= x < Top(b)
  {
    assert [b][0] == b;
  }

  lemma CoverTwo(a: Block, b: Block, t: nat, x: int)
    ensures OwnedBy([a, b], t, x) <==> OwnedBy([a], t, x) || OwnedBy([b], t, x)
    ensures FreeAt([a, b], x) <==> FreeAt([a], x) || FreeAt([b], x)
  {
    assert [a, b] == [a] + [b];
    Cover([a], [b], t, x);
  }

  // ----- what carving does

  predicate InPage(a: int, x: int) {
    a <= x < a + PAGE_SIZE
  }

  /** The page at a goes from the free memory to page table t; nothing else changes hands. */
  ghost predicate Takes(m: Map, m': Map, t: nat, a: int) {
    && (forall u: nat, x: int :: OwnedBy(m', u, x) <==> OwnedBy(m, u, x) || (u == t && InPage(a, x)))
    && (forall x: int :: FreeAt(m', x) <==> FreeAt(m, x) && !InPage(a, x))
    && (forall x: int :: InPage(a, x) ==> FreeAt(m, x))
  }

  /** The blocks a replacement puts in take the page for t. */
  ghost predicate MidTakes(was: Map, mid: Map, t: nat, a: int) {
    && (forall u: nat, x: int :: OwnedBy(mid, u, x) <==> OwnedBy(was, u, x) || (u == t && InPage(a, x)))
    && (forall x: int :: FreeAt(mid, x) <==> FreeAt(was, x) && !InPage(a, x))
    && (forall x: int :: InPage(a, x) ==> FreeAt(was, x))
  }

  lemma RestApart(m: Map, lo: nat, hi: nat, x: int)
    requires MapInv(m) && lo <= hi <= |m| && FreeAt(m[lo..hi], x)
    ensures !FreeAt(m[..lo] + m[hi..], x)
  {
    var k :| 0 <= k < hi - lo && IsFree(m[lo..hi][k]) && m[lo..hi][k].base <= x < Top(m[lo..hi][k]);
    var rest := m[..lo] + m[hi..];
    assert m[lo..hi][k] == m[lo + k];
    forall n | 0 <= n < |rest|
      ensures !(rest[n].base <= x < Top(rest[n]))
    {
      assert rest[n] == if n < lo then m[n] else m[n - lo + hi];
      if n < lo { SortedPair(m, n, lo + k); } else { SortedPair(m, lo + k, n - lo + hi); }
    }
  }

  lemma ReplaceTakes(m: Map, lo: nat, hi: nat, mid: Map, t: nat, a: int)
    requires MapInv(m) && lo <= hi <= |m| && MidTakes(m[lo..hi], mid, t, a)
    ensures Takes(m, Replaced(m, lo, hi, mid), t, a)
  {
    hide MapInv, OwnedBy, FreeAt, InPage, Replaced;
    var m' := Replaced(m, lo, hi, mid);
    forall u: nat, x: int
      ensures OwnedBy(m', u, x) <==> OwnedBy(m, u, x) || (u == t && InPage(a, x))
    {
      ReplaceCover(m, lo, hi, mid, u, x);
    }
    forall x: int
      ensures FreeAt(m', x) <==> FreeAt(m, x) && !InPage(a, x)
      ensures InPage(a, x) ==> FreeAt(m, x)
    {
      ReplaceCover(m, lo, hi, mid, t, x);
      if FreeAt(m[lo..hi], x) { RestApart(m, lo, hi, x); }
    }
  }

  lemma FreeBlock(m: Map, i: nat)
    requires MapInv(m) && i < |m| && !m[i].bound
    ensures IsFree(m[i]) && GoodBlock(m[i])
  {
    GoodAt(m, i);
  }

  lemma UserBlock(m: Map, i: nat, t: nat)
    requires MapInv(m) && i < |m| && m[i].table == t != KERNEL_TABLE
    ensures IsUser(m[i]) && GoodBlock(m[i])
  {
    GoodAt(m, i);
  }

  lemma TopOfFree(b: Block)
    requires GoodBlock(b) && IsFree(b)
    ensures b.limit > 0 && Top(b) >= b.base + PAGE_SIZE
    ensures (b.limit <= PAGE_SIZE <==> Top(b) == b.base + PAGE_SIZE)
    ensures Top(Shrunk(b)) == Top(b) && Top(b) % PAGE_SIZE == 0
    ensures b.limit > PAGE_SIZE ==> GoodBlock(Shrunk(b)) && IsFree(Shrunk(b))
    ensures b.limit % PAGE_SIZE == 0 ==>
      Top(b) == b.base + b.limit && Top(b.(limit := b.limit - PAGE_SIZE)) == Top(b) - PAGE_SIZE
    ensures b.limit % PAGE_SIZE == 0 && b.limit > PAGE_SIZE ==> GoodBlock(b.(limit := b.limit - PAGE_SIZE))
  {
    PageMath(b.limit);
  }

  /** Taking the first page of a free block as a new block. */
  function NewMid(b: Block, t: nat): Map {
    var n := Block(true, false, b.base, PAGE_SIZE, t);
    if b.limit <= PAGE_SIZE then [n] else [n, Shrunk(b)]
  }

  lemma NewMidTakes(b: Block, t: nat)
    requires GoodBlock(b) && IsFree(b) && t != KERNEL_TABLE
    ensures MidTakes([b], NewMid(b, t), t, b.base)
  {
    var n := Block(true, false, b.base, PAGE_SIZE, t);
    TopOfFree(b);
    hide GoodBlock, OwnedBy, FreeAt;
    assert IsUser(n) && Top(n) == b.base + PAGE_SIZE;
    forall u: nat, x: int
      ensures OwnedBy(NewMid(b, t), u, x) <==> OwnedBy([b], u, x) || (u == t && InPage(b.base, x))
    {
      CoverOne(b, u, x);
      CoverOne(n, u, x);
      CoverOne(Shrunk(b), u, x);
      CoverTwo(n, Shrunk(b), u, x);
    }
    forall x: int
      ensures FreeAt(NewMid(b, t), x) <==> FreeAt([b], x) && !InPage(b.base, x)
      ensures InPage(b.base, x) ==> FreeAt([b], x)
    {
      CoverOne(b, t, x);
      CoverOne(n, t, x);
      CoverOne(Shrunk(b), t, x);
      CoverTwo(n, Shrunk(b), t, x);
    }
  }

  lemma PairInv(a: Block, b: Block)
    requires GoodBlock(a) && GoodBlock(b) && Top(a) <= b.base && Neighbours(a, b)
    ensures MapInv([a, b])
  {
  }

  lemma OneInv(a: Block)
    requires GoodBlock(a)
    ensures MapInv([a])
  {
  }

  lemma NewMidFits(m: Map, i: nat, t: nat)
    requires MapInv(m) && i < |m| && !m[i].bound && t != KERNEL_TABLE
    ensures FitsIn(m, i, i + 1, NewMid(m[i], t))
  {
    var b := m[i];
    var n := Block(true, false, b.base, PAGE_SIZE, t);
    FreeBlock(m, i);
    TopOfFree(b);
    if i > 0 { TouchingPair(m, i - 1); }
    if i + 1 < |m| {
      TouchingPair(m, i);
      if !m[i + 1].pinned { LastPageBeforePinned(m, i); }
    }
    hide MapInv;
    assert GoodBlock(n) && Top(n) == b.base + PAGE_SIZE;
    OneInv(n);
    if b.limit > PAGE_SIZE { PairInv(n, Shrunk(b)); }
  }

  /** A block one byte short of whole pages is not followed by an unpinned one. */
  lemma LastPageBeforePinned(m: Map, i: nat)
    requires MapInv(m) && i + 1 < |m| && !m[i].bound && !m[i + 1].pinned
    ensures m[i].limit % PAGE_SIZE == 0 && Top(m[i]) == m[i + 1].base
  {
  }

  /** Taking the last page of a free block into the block after it. */
  function Lowered(b: Block): Block {
    b.(base := if b.base < PAGE_SIZE then 0 else b.base - PAGE_SIZE, limit := b.limit + PAGE_SIZE)
  }

  function Cut(b: Block): Block {
    b.(limit := b.limit - PAGE_SIZE)
  }

  function EndMid(b: Block, next: Block): Map {
    if b.limit <= PAGE_SIZE then [Lowered(next)] else [Cut(b), Lowered(next)]
  }

  lemma EndFacts(b: Block, next: Block)
    requires GoodBlock(b) && IsFree(b) && GoodBlock(next) && IsUser(next) && b.base + b.limit == next.base
    ensures b.limit % PAGE_SIZE == 0 && Top(b) == next.base && b.limit >= PAGE_SIZE
    ensures GoodBlock(Lowered(next)) && IsUser(Lowered(next)) && Lowered(next).base == next.base - PAGE_SIZE
    ensures Top(Lowered(next)) == Top(next)
    ensures b.limit > PAGE_SIZE ==> GoodBlock(Cut(b)) && IsFree(Cut(b)) && Top(Cut(b)) == next.base - PAGE_SIZE
    ensures b.limit <= PAGE_SIZE ==> b.base == next.base - PAGE_SIZE
  {
    TopOfFree(b);
  }

  lemma EndMidTakes(b: Block, next: Block)
    requires GoodBlock(b) && IsFree(b) && GoodBlock(next) && IsUser(next) && b.base + b.limit == next.base
    ensures MidTakes([b, next], EndMid(b, next), next.table, next.base - PAGE_SIZE)
  {
    EndFacts(b, next);
    TopAbove(next);
    var c, n, t, a := Cut(b), Lowered(next), next.table, next.base - PAGE_SIZE;
    hide GoodBlock, OwnedBy, FreeAt, Top;
    forall u: nat, x: int
      ensures OwnedBy(EndMid(b, next), u, x) <==> OwnedBy([b, next], u, x) || (u == t && InPage(a, x))
    {
      CoverOne(b, u, x);
      CoverOne(next, u, x);
      CoverOne(n, u, x);
      CoverOne(c, u, x);
      CoverTwo(b, next, u, x);
      CoverTwo(c, n, u, x);
    }
    forall x: int
      ensures FreeAt(EndMid(b, next), x) <==> FreeAt([b, next], x) && !InPage(a, x)
      ensures InPage(a, x) ==> FreeAt([b, next], x)
    {
      CoverOne(b, t, x);
      CoverOne(next, t, x);
      CoverOne(n, t, x);
      CoverOne(c, t, x);
      CoverTwo(b, next, t, x);
      CoverTwo(c, n, t, x);
    }
  }

  lemma EndMidInv(b: Block, next: Block)
    requires GoodBlock(b) && IsFree(b) && GoodBlock(next) && IsUser(next) && b.base + b.limit == next.base
    ensures MapInv(EndMid(b, next))
  {
    EndFacts(b, next);
    hide MapInv, GoodBlock, Top;
    OneInv(Lowered(next));
    if b.limit > PAGE_SIZE { PairInv(Cut(b), Lowered(next)); }
  }

  lemma EndMidFits(m: Map, i: nat)
    requires MapInv(m) && i + 1 < |m| && !m[i].bound && m[i + 1].table != KERNEL_TABLE
    ensures FitsIn(m, i, i + 2, EndMid(m[i], m[i + 1])) && m[i].base + m[i].limit == m[i + 1].base
    ensures m[i + 1].base >= PAGE_SIZE
  {
    var b, next := m[i], m[i + 1];
    FreeBlock(m, i);
    UserBlock(m, i + 1, next.table);
    assert next.base >= PAGE_SIZE;
    hide MapInv, GoodBlock, Top;
    TouchingPair(m, i);
    assert b.base + b.limit == next.base;
    EndFacts(b, next);
    EndMidInv(b, next);
    if i > 0 { TouchingPair(m, i - 1); }
    if i + 2 < |m| { TouchingPair(m, i + 1); }
  }

  /** Taking the first page of a free block into the block before it. */
  function Extended(b: Block): Block {
    b.(limit := b.limit + PAGE_SIZE)
  }

  function StartMid(prev: Block, b: Block): Map {
    if b.limit <= PAGE_SIZE then [Extended(prev)] else [Extended(prev), Shrunk(b)]
  }

  lemma StartFacts(prev: Block, b: Block)
    requires GoodBlock(b) && IsFree(b) && GoodBlock(prev) && IsUser(prev) && prev.base + prev.limit == b.base
    ensures GoodBlock(Extended(prev)) && IsUser(Extended(prev))
    ensures Top(prev) == b.base && Top(Extended(prev)) == b.base + PAGE_SIZE <= Top(b)
    ensures b.limit <= PAGE_SIZE ==> Top(b) == b.base + PAGE_SIZE
    ensures b.limit > PAGE_SIZE ==> GoodBlock(Shrunk(b)) && IsFree(Shrunk(b)) && Top(Shrunk(b)) == Top(b)
  {
    TopOfFree(b);
  }

  lemma StartMidTakes(prev: Block, b: Block)
    requires GoodBlock(b) && IsFree(b) && GoodBlock(prev) && IsUser(prev) && prev.base + prev.limit == b.base
    ensures MidTakes([prev, b], StartMid(prev, b), prev.table, b.base)
  {
    StartFacts(prev, b);
    TopAbove(prev);
    var e, c, t, a := Extended(prev), Shrunk(b), prev.table, b.base;
    hide GoodBlock, OwnedBy, FreeAt, Top;
    forall u: nat, x: int
      ensures OwnedBy(StartMid(prev, b), u, x) <==> OwnedBy([prev, b], u, x) || (u == t && InPage(a, x))
    {
      CoverOne(prev, u, x);
      CoverOne(b, u, x);
      CoverOne(e, u, x);
      CoverOne(c, u, x);
      CoverTwo(prev, b, u, x);
      CoverTwo(e, c, u, x);
    }
    forall x: int
      ensures FreeAt(StartMid(prev, b), x) <==> FreeAt([prev, b], x) && !InPage(a, x)
      ensures InPage(a, x) ==> FreeAt([prev, b], x)
    {
      CoverOne(prev, t, x);
      CoverOne(b, t, x);
      CoverOne(e, t, x);
      CoverOne(c, t, x);
      CoverTwo(prev, b, t, x);
      CoverTwo(e, c, t, x);
    }
  }

  lemma StartMidInv(prev: Block, b: Block)
    requires GoodBlock(b) && IsFree(b) && GoodBlock(prev) && IsUser(prev) && prev.base + prev.limit == b.base
    ensures MapInv(StartMid(prev, b))
  {
    StartFacts(prev, b);
    hide MapInv, GoodBlock, Top;
    OneInv(Extended(prev));
    if b.limit > PAGE_SIZE { PairInv(Extended(prev), Shrunk(b)); }
  }

  /** What is left of a free block after its first page is taken still meets the next one. */
  lemma RestMeetsNext(m: Map, i: nat)
    requires MapInv(m) && i + 1 < |m| && !m[i].bound
    ensures Neighbours(Shrunk(m[i]), m[i + 1])
    ensures m[i].limit <= PAGE_SIZE ==> m[i + 1].pinned || m[i].base + PAGE_SIZE == m[i + 1].base
  {
    FreeBlock(m, i);
    TouchingPair(m, i);
    if !m[i + 1].pinned { LastPageBeforePinned(m, i); }
  }

  lemma StartMidFits(m: Map, i: nat)
    requires MapInv(m) && 0 < i < |m| && !m[i].bound && m[i - 1].table != KERNEL_TABLE
    ensures FitsIn(m, i - 1, i + 1, StartMid(m[i - 1], m[i])) && m[i - 1].base + m[i - 1].limit == m[i].base
  {
    var prev, b := m[i - 1], m[i];
    FreeBlock(m, i);
    UserBlock(m, i - 1, prev.table);
    hide MapInv, GoodBlock, Top;
    TouchingPair(m, i - 1);
    assert prev.base + prev.limit == b.base;
    StartFacts(prev, b);
    StartMidInv(prev, b);
    if i > 1 { TouchingPair(m, i - 2); }
    if i + 1 < |m| { RestMeetsNext(m, i); }
  }

  /** A carved page was free, is t's now, and the map keeps its form. */
  lemma CarveTakes(m: Map, t: nat, m': Map, a: int)
    requires MapInv(m) && t != KERNEL_TABLE && Carve(m, t) == Some((m', a))
    ensures MapInv(m') && Takes(m, m', t, a) && a % PAGE_SIZE == 0 && USER_BASE <= a < 0x8000_0000
  {
    var i := FirstFree(m, 0);
    FreeBlock(m, i);
    hide MapInv, GoodBlock, FitsIn, MidTakes, Takes, FirstFree;
    if i + 1 < |m| && m[i + 1].table == t {
      CarveFromEnd(m, i, m', a);
    } else if i > 0 && m[i - 1].table == t {
      CarveFromStart(m, i, m', a);
    } else {
      CarveNewBlock(m, i, t, m', a);
    }
  }

  /** Updating two neighbours and cleaning one of them up is a replacement. */
  lemma UpdateIsReplaced(m: Map, i: nat, x: Block, y: Block)
    requires i + 1 < |m|
    ensures CleanUp(m[i := x][i + 1 := y], i) == Replaced(m, i, i + 2, if x.limit <= 0 then [y] else [x, y])
    ensures m[i..i + 2] == [m[i], m[i + 1]]
  {
  }

  lemma UpdateBothIsReplaced(m: Map, i: nat, x: Block, y: Block)
    requires i + 1 < |m|
    ensures CleanUp(m[i := y][i + 1 := x], i + 1) == Replaced(m, i, i + 2, if x.limit <= 0 then [y] else [y, x])
    ensures m[i..i + 2] == [m[i], m[i + 1]]
  {
  }

  lemma EndMidIs(b: Block, next: Block)
    ensures EndMid(b, next) == if Cut(b).limit <= 0 then [Lowered(next)] else [Cut(b), Lowered(next)]
  {
  }

  lemma StartMidIs(prev: Block, b: Block)
    ensures StartMid(prev, b) == if Shrunk(b).limit <= 0 then [Extended(prev)] else [Extended(prev), Shrunk(b)]
  {
  }

  lemma CarveFromEnd(m: Map, i: nat, m': Map, a: int)
    requires MapInv(m) && i + 1 < |m| && !m[i].bound && m[i + 1].table != KERNEL_TABLE
    requires m[i + 1].base >= PAGE_SIZE ==> m' == CleanUp(m[i := Cut(m[i])][i + 1 := Lowered(m[i + 1])], i)
    requires a == m[i + 1].base - PAGE_SIZE
    ensures MapInv(m') && Takes(m, m', m[i + 1].table, a) && a % PAGE_SIZE == 0 && USER_BASE <= a < 0x8000_0000
  {
    FreeBlock(m, i);
    UserBlock(m, i + 1, m[i + 1].table);
    EndMidFits(m, i);
    EndFacts(m[i], m[i + 1]);
    EndMidTakes(m[i], m[i + 1]);
    TopAbove(m[i + 1]);
    var mid := EndMid(m[i], m[i + 1]);
    assert USER_BASE <= a < 0x8000_0000 && a % PAGE_SIZE == 0;
    hide *;
    UpdateIsReplaced(m, i, Cut(m[i]), Lowered(m[i + 1]));
    assert mid == if Cut(m[i]).limit <= 0 then [Lowered(m[i + 1])] else [Cut(m[i]), Lowered(m[i + 1])] by {
      EndMidIs(m[i], m[i + 1]);
    }
    ReplaceKeepsInv(m, i, i + 2, mid);
    ReplaceTakes(m, i, i + 2, mid, m[i + 1].table, a);
  }

  lemma CarveFromStart(m: Map, i: nat, m': Map, a: int)
    requires MapInv(m) && 0 < i < |m| && !m[i].bound && m[i - 1].table != KERNEL_TABLE
    requires m' == CleanUp(m[i - 1 := Extended(m[i - 1])][i := Shrunk(m[i])], i) && a == m[i].base
    ensures MapInv(m') && Takes(m, m', m[i - 1].table, a) && a % PAGE_SIZE == 0 && USER_BASE <= a < 0x8000_0000
  {
    FreeBlock(m, i);
    UserBlock(m, i - 1, m[i - 1].table);
    StartMidFits(m, i);
    StartMidTakes(m[i - 1], m[i]);
    TopAbove(m[i]);
    var mid := StartMid(m[i - 1], m[i]);
    assert USER_BASE <= a < 0x8000_0000 && a % PAGE_SIZE == 0;
    hide *;
    UpdateBothIsReplaced(m, i - 1, Shrunk(m[i]), Extended(m[i - 1]));
    assert mid == if Shrunk(m[i]).limit <= 0 then [Extended(m[i - 1])] else [Extended(m[i - 1]), Shrunk(m[i])] by {
      StartMidIs(m[i - 1], m[i]);
    }
    ReplaceKeepsInv(m, i - 1, i + 1, mid);
    ReplaceTakes(m, i - 1, i + 1, mid, m[i - 1].table, a);
  }

  lemma NewBlockIsReplaced(m: Map, i: nat, t: nat)
    requires i < |m|
    ensures CleanUp(m[..i] + [Block(true, false, m[i].base, PAGE_SIZE, t), Shrunk(m[i])] + m[i + 1..], i + 1)
      == Replaced(m, i, i + 1, NewMid(m[i], t))
    ensures m[i..i + 1] == [m[i]]
  {
  }

  lemma CarveNewBlock(m: Map, i: nat, t: nat, m': Map, a: int)
    requires MapInv(m) && i < |m| && !m[i].bound && t != KERNEL_TABLE && a == m[i].base
    requires m' == CleanUp(m[..i] + [Block(true, false, m[i].base, PAGE_SIZE, t), Shrunk(m[i])] + m[i + 1..], i + 1)
    ensures MapInv(m') && Takes(m, m', t, a) && a % PAGE_SIZE == 0 && USER_BASE <= a < 0x8000_0000
  {
    hide MapInv, FitsIn, MidTakes, Takes, Replaced, CleanUp, NewMid;
    FreeBlock(m, i);
    NewMidFits(m, i, t);
    NewMidTakes(m[i], t);
    TopAbove(m[i]);
    var mid := NewMid(m[i], t);
    NewBlockIsReplaced(m, i, t);
    ReplaceKeepsInv(m, i, i + 1, mid);
    ReplaceTakes(m, i, i + 1, mid, t, a);
  }

  /** A page is carved exactly when some memory is free. */
  lemma CarveSucceeds(m: Map, t: nat)
    requires MapInv(m) && t != KERNEL_TABLE
    ensures Carve(m, t).Some? <==> exists x: int :: FreeAt(m, x)
  {
    var i := FirstFree(m, 0);
    if i < |m| {
      FreeBlock(m, i);
      TopOfFree(m[i]);
      assert FreeAt(m, m[i].base);
      if i + 1 < |m| && m[i + 1].table == t { EndMidFits(m, i); }
    } else {
      forall x: int
        ensures !FreeAt(m, x)
      {
        forall k: nat | k < |m|
          ensures !IsFree(m[k])
        {
          GoodAt(m, k);
          if IsFree(m[k]) { TopAbove(m[k]); }
        }
      }
    }
  }

  /** Nothing below address x is free. */
  ghost predicate LowestFree(m: Map, x: int) {
    FreeAt(m, x) && forall y: int :: FreeAt(m, y) ==> x <= y
  }

  /** The free stretch from x on ends at y, where a block of t's begins. */
  ghost predicate RunsUpTo(m: Map, x: int, y: int, t: nat) {
    OwnedBy(m, t, y) && x < y && forall z: int :: x <= z < y ==> FreeAt(m, z)
  }

  lemma NoneFreeBefore(m: Map, k: nat)
    requires MapInv(m) && k < |m|
    ensures IsFree(m[k]) ==> k >= FirstFree(m, 0)
  {
    GoodAt(m, k);
    if IsFree(m[k]) { TopAbove(m[k]); }
  }

  /** The first free block holds the lowest free address, and whatever is below it is not free. */
  lemma FirstFreeIsLowest(m: Map)
    requires MapInv(m) && FirstFree(m, 0) < |m|
    ensures LowestFree(m, m[FirstFree(m, 0)].base)
  {
    var i := FirstFree(m, 0);
    FreeBlock(m, i);
    assert FreeAt(m, m[i].base);
    forall y: int | FreeAt(m, y)
      ensures m[i].base <= y
    {
      var k :| 0 <= k < |m| && IsFree(m[k]) && m[k].base <= y < Top(m[k]);
      NoneFreeBefore(m, k);
      InSorted(m, i, k);
    }
  }

  /** The free block at x is followed by a block of t's. */
  ghost predicate FreeNextTo(m: Map, x: int, t: nat) {
    exists i: nat, j: nat :: j == i + 1 && j < |m| && IsFree(m[i]) && m[i].base == x && IsUser(m[j]) && m[j].table == t
  }

  /** The block after a free one, when it is t's, begins where the free one ends. */
  lemma FreeUpTo(m: Map, i: nat, t: nat)
    requires MapInv(m) && i + 1 < |m| && !m[i].bound && m[i + 1].table == t != KERNEL_TABLE
    ensures RunsUpTo(m, m[i].base, m[i + 1].base, t) && FreeNextTo(m, m[i].base, t)
  {
    FreeBlock(m, i);
    UserBlock(m, i + 1, t);
    TouchingPair(m, i);
    TopAbove(m[i]);
    TopAbove(m[i + 1]);
    hide MapInv;
    assert OwnedBy(m, t, m[i + 1].base);
  }

  /** The page carved from the first free block, at i. */
  lemma CarvedAt(m: Map, t: nat, m': Map, a: int)
    requires Carve(m, t) == Some((m', a))
    ensures var i := FirstFree(m, 0);
      i < |m| && a == if i + 1 < |m| && m[i + 1].table == t then m[i + 1].base - PAGE_SIZE else m[i].base
  {
  }

  /** Which page is carved: the lowest free one, unless its block is followed by a block of the same
      table; then the one next below that block. */
  lemma CarveWhere(m: Map, t: nat, m': Map, a: int, x: int)
    requires MapInv(m) && t != KERNEL_TABLE && Carve(m, t) == Some((m', a)) && LowestFree(m, x)
    ensures if FreeNextTo(m, x, t) then RunsUpTo(m, x, a + PAGE_SIZE, t) else a == x
  {
    hide MapInv, Carve, RunsUpTo;
    CarvedAt(m, t, m', a);
    FirstFreeIsLowest(m);
    var i := FirstFree(m, 0);
    FreeBlock(m, i);
    if i + 1 < |m| && m[i + 1].table == t {
      FreeUpTo(m, i, t);
    } else if FreeNextTo(m, x, t) {
      var k: nat, l: nat :| l == k + 1 && l < |m| && IsFree(m[k]) && m[k].base == x && IsUser(m[l]) && m[l].table == t;
      FreeOnce(m, i, k, x);
    }
  }

  lemma FreeOnce(m: Map, i: nat, k: nat, x: int)
    requires MapInv(m) && i < |m| && k < |m| && IsFree(m[i]) && IsFree(m[k]) && m[i].base == m[k].base == x
    ensures i == k
  {
    TopAbove(m[i]);
    TopAbove(m[k]);
    if i < k { SortedPair(m, i, k); }
    if k < i { SortedPair(m, k, i); }
  }

  /** No page is both free and owned, or owned by two page tables. */
  lemma OwnersApart(m: Map, t: nat, u: nat, x: int)
    requires MapInv(m) && OwnedBy(m, t, x)
    ensures !FreeAt(m, x) && (OwnedBy(m, u, x) ==> u == t)
  {
    var k :| 0 <= k < |m| && IsUser(m[k]) && m[k].table == t && m[k].base <= x < Top(m[k]);
    forall n: nat | n < |m| && n != k
      ensures !(m[n].base <= x < Top(m[n]))
    {
      if n < k { SortedPair(m, n, k); } else { SortedPair(m, k, n); }
    }
  }
}
