/** Writing a buffer at a virtual address, page by page through the page tables, and what of it
    reads back.  The offset of the first page is used for every page of the same directory
    entry, so the write is right for a range that starts a page or stays within one. */
module VirtualWrite {
  import opened Blocks
  import opened MemoryMap
  import opened PageTables
  import opened PageInvariant
  import opened Options

  type Ram = seq<Byte>

  /** The page offset the write to the i-th page of the range uses: the directory loop forgets it
      after the first directory entry. */
  function OffsetAt(base: nat, i: nat): (o: nat)
    ensures o < PAGE_SIZE
  {
    if (FirstPage(base) + i) / ENTRIES == FirstPage(base) / ENTRIES then base % PAGE_SIZE else 0
  }

  /** The number of bytes copied to the i-th page, negative when the bytes ran out before. */
  function LengthAt(limit: nat, i: nat): int {
    if limit - PAGE_SIZE * i >= PAGE_SIZE then PAGE_SIZE else limit - PAGE_SIZE * i
  }

  /** Copies to the pages from the i-th on.  A copy of a negative number of bytes does not end,
      and none goes past the memory: None. */
  function WriteFrom(ram: Ram, frames: seq<nat>, base: nat, source: seq<Byte>, i: nat): Option<Ram>
    requires i <= |frames|
    decreases |frames| - i
  {
    if i == |frames| then Some(ram)
    else
      var n := LengthAt(|source|, i);
      var at := frames[i] * PAGE_SIZE + OffsetAt(base, i);
      if n < 0 || at + n > |ram| || PAGE_SIZE * i + n > |source| then None
      else WriteFrom(Splice(ram, at, source[PAGE_SIZE * i..PAGE_SIZE * i + n]), frames, base, source, i + 1)
  }

  /** The pages of the range are different and in memory. */
  ghost predicate Translates(ram: Ram, frames: seq<nat>, base: nat, limit: nat) {
    && |frames| == PageCount(base, limit)
    && (forall i: nat :: i < |frames| ==> frames[i] * PAGE_SIZE + PAGE_SIZE <= |ram|)
    && forall i: nat, j: nat :: i < j < |frames| ==> frames[i] != frames[j]
  }

  /** Where the k-th byte of the range is in memory. */
  function Place(frames: seq<nat>, base: nat, k: nat): nat
    requires k < PAGE_SIZE * |frames| - base % PAGE_SIZE
  {
    frames[(base + k) / PAGE_SIZE - base / PAGE_SIZE] * PAGE_SIZE + (base + k) % PAGE_SIZE
  }

  lemma RangeHasBytes(base: nat, limit: nat)
    ensures limit <= PAGE_SIZE * PageCount(base, limit) - base % PAGE_SIZE
  {
  }

  ghost predicate AtPlaces(ram: Ram, frames: seq<nat>, base: nat, source: seq<Byte>, n: nat) {
    forall k: nat :: k < n ==>
      && k < |source| && k < PAGE_SIZE * |frames| - base % PAGE_SIZE && Place(frames, base, k) < |ram|
      && ram[Place(frames, base, k)] == source[k]
  }

  /** The byte at x is none of the first n of the range. */
  ghost predicate Outside(frames: seq<nat>, base: nat, n: nat, x: nat) {
    forall k: nat :: k < n && k < PAGE_SIZE * |frames| - base % PAGE_SIZE ==> Place(frames, base, k) != x
  }

  /** The first n bytes are where they belong, and nothing else has changed. */
  ghost predicate Written(ram: Ram, ram': Ram, frames: seq<nat>, base: nat, source: seq<Byte>, n: nat) {
    && |ram'| == |ram| && AtPlaces(ram', frames, base, source, n)
    && forall x: nat :: x < |ram| && Outside(frames, base, n, x) ==> ram'[x] == ram[x]
  }

  predicate StartsOrFitsPage(base: nat, limit: nat) {
    base % PAGE_SIZE == 0 || base % PAGE_SIZE + limit <= PAGE_SIZE
  }

  // ----- a range that starts a page or stays in one

  lemma PlaceInPage(frames: seq<nat>, base: nat, limit: nat, i: nat, j: nat)
    requires StartsOrFitsPage(base, limit) && |frames| == PageCount(base, limit) && i < |frames|
    requires LengthAt(limit, i) >= 0 && j < LengthAt(limit, i)
    ensures PAGE_SIZE * i + j < limit <= PAGE_SIZE * |frames| - base % PAGE_SIZE
    ensures Place(frames, base, PAGE_SIZE * i + j) == frames[i] * PAGE_SIZE + OffsetAt(base, i) + j
  {
    RangeHasBytes(base, limit);
  }

  lemma LengthIsRight(base: nat, limit: nat, i: nat)
    requires StartsOrFitsPage(base, limit) && i < PageCount(base, limit)
    ensures 0 <= LengthAt(limit, i) && OffsetAt(base, i) + LengthAt(limit, i) <= PAGE_SIZE
    ensures PAGE_SIZE * i + LengthAt(limit, i) == if i + 1 == PageCount(base, limit) then limit else PAGE_SIZE * (i + 1)
  {
  }

  lemma PlacesApart(frames: seq<nat>, base: nat, limit: nat, k: nat, l: nat)
    requires |frames| == PageCount(base, limit) && forall i: nat, j: nat :: i < j < |frames| ==> frames[i] != frames[j]
    requires k < l < PAGE_SIZE * |frames| - base % PAGE_SIZE
    ensures Place(frames, base, k) != Place(frames, base, l)
  {
    var i, j := (base + k) / PAGE_SIZE - base / PAGE_SIZE, (base + l) / PAGE_SIZE - base / PAGE_SIZE;
    if i != j { DifferentPages(frames[i], frames[j], (base + k) % PAGE_SIZE, (base + l) % PAGE_SIZE); }
  }

  lemma DifferentPages(f: nat, g: nat, a: nat, b: nat)
    requires f != g && a < PAGE_SIZE && b < PAGE_SIZE
    ensures f * PAGE_SIZE + a != g * PAGE_SIZE + b
  {
  }

  /** Bytes start..start+n of the range lie in a row at address at. */
  ghost predicate InARow(frames: seq<nat>, base: nat, start: nat, n: nat, at: nat) {
    && start + n <= PAGE_SIZE * |frames| - base % PAGE_SIZE
    && forall k: nat :: start <= k < start + n ==> Place(frames, base, k) == at + (k - start)
  }

  lemma PageInARow(frames: seq<nat>, base: nat, limit: nat, i: nat)
    requires StartsOrFitsPage(base, limit) && |frames| == PageCount(base, limit)
    requires i < |frames| && LengthAt(limit, i) >= 0
    ensures InARow(frames, base, PAGE_SIZE * i, LengthAt(limit, i), frames[i] * PAGE_SIZE + OffsetAt(base, i))
  {
    var n, start := LengthAt(limit, i), PAGE_SIZE * i;
    RangeHasBytes(base, limit);
    LengthIsRight(base, limit, i);
    assert start + n <= limit;
    hide Place, LengthAt, OffsetAt, StartsOrFitsPage, PageCount;
    forall k: nat | start <= k < start + n
      ensures Place(frames, base, k) == frames[i] * PAGE_SIZE + OffsetAt(base, i) + (k - start)
    {
      PlaceInPage(frames, base, limit, i, k - start);
      assert start + (k - start) == k;
    }
  }

  lemma PieceAtPlaces(ram: Ram, frames: seq<nat>, base: nat, source: seq<Byte>, start: nat, n: nat, at: nat)
    requires Translates(ram, frames, base, |source|) && start + n <= |source| && at + n <= |ram|
    requires AtPlaces(ram, frames, base, source, start) && InARow(frames, base, start, n, at)
    ensures AtPlaces(Splice(ram, at, source[start..start + n]), frames, base, source, start + n)
  {
    var piece := source[start..start + n];
    var ram' := Splice(ram, at, piece);
    forall k: nat | k < start + n
      ensures k < PAGE_SIZE * |frames| - base % PAGE_SIZE && Place(frames, base, k) < |ram'|
      ensures ram'[Place(frames, base, k)] == source[k]
    {
      hide Place, Splice, PageCount;
      var x := Place(frames, base, k);
      if k < start {
        if at <= x < at + n {
          var l := start + (x - at);
          assert Place(frames, base, l) == x;
          PlacesApart(frames, base, |source|, k, l);
        }
      } else {
        assert piece[k - start] == source[k];
      }
    }
  }

  lemma PieceElsewhere(ram0: Ram, ram: Ram, frames: seq<nat>, base: nat, source: seq<Byte>, start: nat, n: nat, at: nat)
    requires |ram0| == |ram| && start + n <= |source| && at + n <= |ram| && InARow(frames, base, start, n, at)
    requires forall x: nat :: x < |ram0| && Outside(frames, base, start, x) ==> ram[x] == ram0[x]
    ensures forall x: nat :: x < |ram0| && Outside(frames, base, start + n, x) ==>
      Splice(ram, at, source[start..start + n])[x] == ram0[x]
  {
    hide Place, Splice;
    forall x: nat | x < |ram0| && Outside(frames, base, start + n, x)
      ensures Splice(ram, at, source[start..start + n])[x] == ram0[x]
    {
      assert Outside(frames, base, start, x);
      if at <= x < at + n {
        var k := start + (x - at);
        assert Place(frames, base, k) == x;
      }
    }
  }

  lemma PieceWritten(ram0: Ram, ram: Ram, frames: seq<nat>, base: nat, source: seq<Byte>, start: nat, n: nat, at: nat)
    requires Translates(ram, frames, base, |source|) && start + n <= |source| && at + n <= |ram|
    requires Written(ram0, ram, frames, base, source, start) && InARow(frames, base, start, n, at)
    ensures Written(ram0, Splice(ram, at, source[start..start + n]), frames, base, source, start + n)
  {
    hide Place, Splice, Translates, AtPlaces, InARow, Outside;
    PieceAtPlaces(ram, frames, base, source, start, n, at);
    PieceElsewhere(ram0, ram, frames, base, source, start, n, at);
  }

  lemma WriteStep(ram0: Ram, ram: Ram, frames: seq<nat>, base: nat, source: seq<Byte>, i: nat)
    requires StartsOrFitsPage(base, |source|) && Translates(ram, frames, base, |source|) && i < |frames|
    requires Written(ram0, ram, frames, base, source, PAGE_SIZE * i)
    ensures var n := LengthAt(|source|, i);
      var at := frames[i] * PAGE_SIZE + OffsetAt(base, i);
      && 0 <= n && at + n <= |ram| && PAGE_SIZE * i + n <= |source|
      && (i + 1 == |frames| ==> PAGE_SIZE * i + n == |source|)
      && (i + 1 < |frames| ==> PAGE_SIZE * i + n == PAGE_SIZE * (i + 1))
      && Written(ram0, Splice(ram, at, source[PAGE_SIZE * i..PAGE_SIZE * i + n]), frames, base, source,
                   PAGE_SIZE * i + n)
  {
    StepBounds(ram, frames, base, |source|, i);
    PageInARow(frames, base, |source|, i);
    var n := LengthAt(|source|, i);
    var at := frames[i] * PAGE_SIZE + OffsetAt(base, i);
    hide *;
    PieceWritten(ram0, ram, frames, base, source, PAGE_SIZE * i, n, at);
  }

  lemma StepBounds(ram: Ram, frames: seq<nat>, base: nat, limit: nat, i: nat)
    requires StartsOrFitsPage(base, limit) && Translates(ram, frames, base, limit) && i < |frames|
    ensures var n := LengthAt(limit, i);
      && 0 <= n && frames[i] * PAGE_SIZE + OffsetAt(base, i) + n <= |ram| && PAGE_SIZE * i + n <= limit
      && (i + 1 == |frames| ==> PAGE_SIZE * i + n == limit)
      && (i + 1 < |frames| ==> PAGE_SIZE * i + n == PAGE_SIZE * (i + 1))
  {
    LengthIsRight(base, limit, i);
    assert frames[i] * PAGE_SIZE + PAGE_SIZE <= |ram|;
    hide LengthAt, OffsetAt, PageCount, StartsOrFitsPage;
  }

  lemma {:induction false} WriteRest(ram0: Ram, ram: Ram, frames: seq<nat>, base: nat, source: seq<Byte>, i: nat)
    requires StartsOrFitsPage(base, |source|) && Translates(ram, frames, base, |source|) && i < |frames|
    requires Written(ram0, ram, frames, base, source, PAGE_SIZE * i)
    ensures WriteFrom(ram, frames, base, source, i).Some?
    ensures Written(ram0, WriteFrom(ram, frames, base, source, i).value, frames, base, source, |source|)
    decreases |frames| - i
  {
    hide LengthAt, OffsetAt, Written, StartsOrFitsPage, PageCount, Splice;
    WriteStep(ram0, ram, frames, base, source, i);
    var n := LengthAt(|source|, i);
    var ram' := Splice(ram, frames[i] * PAGE_SIZE + OffsetAt(base, i), source[PAGE_SIZE * i..PAGE_SIZE * i + n]);
    SameSize(ram, ram', frames, base, |source|);
    if i + 1 < |frames| {
      WriteRest(ram0, ram', frames, base, source, i + 1);
    }
  }

  lemma SameSize(ram: Ram, ram': Ram, frames: seq<nat>, base: nat, limit: nat)
    requires Translates(ram, frames, base, limit) && |ram'| == |ram|
    ensures Translates(ram', frames, base, limit)
  {
  }

  /** A write of that kind puts every byte where it belongs and changes nothing else. */
  lemma WriteIsRight(ram: Ram, frames: seq<nat>, base: nat, source: seq<Byte>)
    requires StartsOrFitsPage(base, |source|) && Translates(ram, frames, base, |source|)
    ensures WriteFrom(ram, frames, base, source, 0).Some?
    ensures Written(ram, WriteFrom(ram, frames, base, source, 0).value, frames, base, source, |source|)
  {
    assert Written(ram, ram, frames, base, source, 0) by {
      forall x: nat | x < |ram|
        ensures Outside(frames, base, 0, x)
      {
      }
    }
    hide Written, WriteFrom;
    WriteRest(ram, ram, frames, base, source, 0);
  }

  // ----- any other range

  /** Pages two frames apart. */
  function SpreadFrames(n: nat): seq<nat> { seq(n, i requires 0 <= i < n => 2 * i + 1) }

  function Zeros(n: nat): Ram { seq(n, _ => 0) }

  function MarkAt(limit: nat, k: nat): seq<Byte> { seq(limit, i => if i == k then 1 else 0) }

  lemma WriteFromMore(ram: Ram, frames: seq<nat>, base: nat, source: seq<Byte>, i: nat)
    requires i < |frames|
    ensures var n := LengthAt(|source|, i);
      var at := frames[i] * PAGE_SIZE + OffsetAt(base, i);
      WriteFrom(ram, frames, base, source, i) ==
      if n < 0 || at + n > |ram| || PAGE_SIZE * i + n > |source| then None
      else WriteFrom(Splice(ram, at, source[PAGE_SIZE * i..PAGE_SIZE * i + n]), frames, base, source, i + 1)
  {
  }

  /** The copy to the i-th page puts nothing but zero at x. */
  ghost predicate LeavesZero(frames: seq<nat>, base: nat, source: seq<Byte>, i: nat, x: nat)
    requires i < |frames|
  {
    var n := LengthAt(|source|, i);
    var at := frames[i] * PAGE_SIZE + OffsetAt(base, i);
    at <= x < at + n && PAGE_SIZE * i + n <= |source| ==> source[PAGE_SIZE * i + (x - at)] == 0
  }

  lemma {:induction false} ZeroStays(ram: Ram, frames: seq<nat>, base: nat, source: seq<Byte>, i: nat, x: nat)
    requires i <= |frames| && x < |ram| && ram[x] == 0
    requires forall j: nat :: i <= j < |frames| ==> LeavesZero(frames, base, source, j, x)
    ensures var r := WriteFrom(ram, frames, base, source, i);
      r.Some? ==> |r.value| == |ram| && r.value[x] == 0
    decreases |frames| - i
  {
    if i < |frames| {
      WriteFromMore(ram, frames, base, source, i);
      var n := LengthAt(|source|, i);
      var at := frames[i] * PAGE_SIZE + OffsetAt(base, i);
      assert LeavesZero(frames, base, source, i, x);
      hide WriteFrom, LengthAt, OffsetAt, Splice;
      if 0 <= n && at + n <= |ram| && PAGE_SIZE * i + n <= |source| {
        ZeroStays(Splice(ram, at, source[PAGE_SIZE * i..PAGE_SIZE * i + n]), frames, base, source, i + 1, x);
      }
    }
  }

  /** Of a mark for the start of the second page, no copy puts anything there. */
  lemma MarkMissed(base: nat, limit: nat, i: nat)
    requires !StartsOrFitsPage(base, limit) && i < PageCount(base, limit)
    ensures LeavesZero(SpreadFrames(PageCount(base, limit)),
                      base, MarkAt(limit, PAGE_SIZE - base % PAGE_SIZE), i, 3 * PAGE_SIZE)
  {
  }

  /** The byte that belongs at the start of the second page is not written there. */
  lemma SecondPageMissed(ram: Ram, base: nat, limit: nat)
    requires !StartsOrFitsPage(base, limit)
    requires |ram| > 3 * PAGE_SIZE && ram[3 * PAGE_SIZE] == 0
    ensures var source := MarkAt(limit, PAGE_SIZE - base % PAGE_SIZE);
      var r := WriteFrom(ram, SpreadFrames(PageCount(base, limit)), base, source, 0);
      r.Some? ==> |r.value| == |ram| && r.value[3 * PAGE_SIZE] == 0
  {
    var n := PageCount(base, limit);
    var source, frames := MarkAt(limit, PAGE_SIZE - base % PAGE_SIZE), SpreadFrames(n);
    assert |frames| == n;
    hide LeavesZero, WriteFrom, MarkAt, SpreadFrames, PageCount, StartsOrFitsPage;
    forall j: nat | j < n
      ensures LeavesZero(frames, base, source, j, 3 * PAGE_SIZE)
    {
      MarkMissed(base, limit, j);
    }
    ZeroStays(ram, frames, base, source, 0, 3 * PAGE_SIZE);
  }

  lemma SpreadTranslates(base: nat, limit: nat)
    ensures var n := PageCount(base, limit);
      Translates(Zeros((2 * n + 2) * PAGE_SIZE), SpreadFrames(n), base, limit)
  {
  }

  /** Writing is right for all page tables and contents exactly for the ranges that start a page
      or stay within one. */
  lemma WriteExactly(base: nat, limit: nat)
    ensures StartsOrFitsPage(base, limit) <==>
      forall ram: Ram, frames: seq<nat>, source: seq<Byte> ::
        Translates(ram, frames, base, limit) && |source| == limit ==>
          && WriteFrom(ram, frames, base, source, 0).Some?
          && Written(ram, WriteFrom(ram, frames, base, source, 0).value, frames, base, source, limit)
  {
    if StartsOrFitsPage(base, limit) {
      hide Written, Translates, WriteFrom, StartsOrFitsPage;
      forall ram: Ram, frames: seq<nat>, source: seq<Byte> | Translates(ram, frames, base, limit) && |source| == limit
        ensures WriteFrom(ram, frames, base, source, 0).Some?
        ensures Written(ram, WriteFrom(ram, frames, base, source, 0).value, frames, base, source, limit)
      {
        WriteIsRight(ram, frames, base, source);
      }
    } else {
      var n := PageCount(base, limit);
      var ram, frames := Zeros((2 * n + 2) * PAGE_SIZE), SpreadFrames(n);
      var k := PAGE_SIZE - base % PAGE_SIZE;
      var source := MarkAt(limit, k);
      SpreadTranslates(base, limit);
      SecondPageMissed(ram, base, limit);
      assert k < limit && source[k] == 1;
      assert Place(frames, base, k) == 3 * PAGE_SIZE by {
        assert (base + k) % PAGE_SIZE == 0 && (base + k) / PAGE_SIZE - base / PAGE_SIZE == 1;
      }
      hide WriteFrom, Translates, Place;
      var r := WriteFrom(ram, frames, base, source, 0);
      assert r.Some? ==> !AtPlaces(r.value, frames, base, source, limit);
    }
  }

  // ----- through a page table

  function FramesFrom(s: MemState, t: nat, p: nat, n: nat): (f: seq<nat>)
    requires Shape(s) && t < |s.tables| && p + n <= PAGES
    ensures |f| == n && forall i :: 0 <= i < n ==> f[i] == Get(s, t, p + i).frame
  {
    if n == 0 then [] else FramesFrom(s, t, p, n - 1) + [Get(s, t, p + n - 1).frame]
  }

  /** The frames of a range's pages. */
  function FramesOf(s: MemState, t: nat, base: nat, limit: nat): (f: seq<nat>)
    requires Shape(s) && t < |s.tables| && InRange(base, limit)
    ensures |f| == PageCount(base, limit)
    ensures forall i :: 0 <= i < |f| ==> FirstPage(base) + i < PAGES && f[i] == Get(s, t, FirstPage(base) + i).frame
  {
    RangeFits(base, limit);
    FramesFrom(s, t, FirstPage(base), PageCount(base, limit))
  }

  /** Every page of the range is mapped. */
  ghost predicate Covered(s: MemState, t: nat, base: nat, limit: nat)
    requires Shape(s) && t < |s.tables| && InRange(base, limit)
  {
    RangeFits(base, limit);
    RangeMapped(s, t, FirstPage(base), PageCount(base, limit))
  }

  function WriteVirtual(ram: Ram, s: MemState, t: nat, base: nat, source: seq<Byte>): Option<Ram>
    requires Shape(s) && t < |s.tables| && InRange(base, |source|)
  {
    WriteFrom(ram, FramesOf(s, t, base, |source|), base, source, 0)
  }
}
