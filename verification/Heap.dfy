/** The kernel heap: a chain of headers from a fixed address, searched first-fit.  The search for a
    block of unknown size assigns instead of comparing, so a reused block is recorded with the
    size of the latest request. */
module Heap {

  const HEAP: nat := 0x20_0000
  const HEADER: nat := 12
  const ADDRESSES: nat := 0x1_0000_0000
  const UNKNOWN: nat := 0xFFFF_FFFF

  /** A header and the payload behind it, in address order; each header points to the next. */
  datatype Block = Block(at: nat, free: bool, size: nat)

  type Chain = seq<Block>

  predicate Fits(b: Block, size: nat) { b.free && b.size >= size }

  function FirstFit(h: Chain, i: nat, size: nat): (r: nat)
    requires i <= |h|
    ensures i <= r <= |h| && (r < |h| ==> Fits(h[r], size))
    ensures forall k :: i <= k < r ==> !Fits(h[k], size)
    decreases |h| - i
  {
    if i < |h| && !Fits(h[i], size) then FirstFit(h, i + 1, size) else i
  }

  function NewHeap(): Chain { [Block(HEAP, true, UNKNOWN)] }

  /** The chain after taking block i for size bytes; the last block gets a new last block behind
      it, at an address that wraps. */
  function Taken(h: Chain, i: nat, size: nat): Chain
    requires i < |h|
  {
    var h' := h[i := h[i].(free := false, size := size)];
    if i == |h| - 1 then h' + [Block((h[i].at + HEADER + size) % ADDRESSES, true, UNKNOWN)] else h'
  }

  /** The address of the payload, or the header's length when the chain has no block for it. */
  function Malloc(h: Chain, size: nat): (Chain, nat) {
    var i := FirstFit(h, 0, size);
    if i == |h| then (h, HEADER) else (Taken(h, i, size), h[i].at + HEADER)
  }

  function HeaderAt(h: Chain, a: int, i: nat): (r: nat)
    requires i <= |h|
    ensures i <= r <= |h| && (r < |h| ==> h[r].at == a)
    ensures forall k :: i <= k < r ==> h[k].at != a
    decreases |h| - i
  {
    if i < |h| && h[i].at != a then HeaderAt(h, a, i + 1) else i
  }

  function Free(h: Chain, p: nat): Chain {
    var i := HeaderAt(h, p - HEADER, 0);
    if i == |h| then h else h[i := h[i].(free := true)]
  }

  // ----- what every call keeps

  /** Headers stand in order, each payload ends at or before the next header, and the last block is
      free and of unknown size. */
  ghost predicate HeapInv(h: Chain) {
    && |h| > 0 && h[0].at == HEAP
    && (forall i: nat :: i < |h| ==> h[i].at < ADDRESSES)
    && (forall i: nat, j: nat :: i < j < |h| ==> h[i].at + HEADER + h[i].size <= h[j].at)
    && h[|h| - 1].free && h[|h| - 1].size == UNKNOWN
  }

  /** Address x belongs to the payload of block i. */
  predicate InPayload(h: Chain, i: nat, x: int)
    requires i < |h|
  {
    h[i].at + HEADER <= x < h[i].at + HEADER + h[i].size
  }

  predicate Room(h: Chain, size: nat) {
    FirstFit(h, 0, size) == |h| - 1 && |h| > 0 ==> h[|h| - 1].at + HEADER + size < ADDRESSES
  }

  /** There is always a block, and it is in use after the call with the size asked for. */
  lemma MallocSucceeds(h: Chain, size: nat)
    requires HeapInv(h) && size <= UNKNOWN
    ensures var i := FirstFit(h, 0, size);
      && i < |h| && Malloc(h, size) == (Taken(h, i, size), h[i].at + HEADER)
      && !Taken(h, i, size)[i].free && Taken(h, i, size)[i] == Block(h[i].at, false, size)
  {
    assert Fits(h[|h| - 1], size);
  }

  /** The chain stays sound exactly when the block, if it is the last one, ends below the end of
      the address space. */
  lemma MallocExactly(h: Chain, size: nat)
    requires HeapInv(h) && size <= UNKNOWN
    ensures HeapInv(Malloc(h, size).0) <==> Room(h, size)
  {
    MallocSucceeds(h, size);
    var i := FirstFit(h, 0, size);
    if i == |h| - 1 {
      TakenLast(h, size);
    } else {
      TakenInside(h, i, size);
    }
  }

  lemma TakenInside(h: Chain, i: nat, size: nat)
    requires HeapInv(h) && i < |h| - 1 && size <= h[i].size
    ensures HeapInv(Taken(h, i, size))
  {
  }

  lemma TakenLast(h: Chain, size: nat)
    requires HeapInv(h)
    ensures HeapInv(Taken(h, |h| - 1, size)) <==> h[|h| - 1].at + HEADER + size < ADDRESSES
  {
    var h' := Taken(h, |h| - 1, size);
    var n := |h|;
    assert h'[n - 1] == h[n - 1].(free := false, size := size);
    if h[n - 1].at + HEADER + size >= ADDRESSES {
      assert h'[n].at < h[n - 1].at + HEADER + size by { WrapsBelow(h[n - 1].at + HEADER + size); }
    }
  }

  lemma WrapsBelow(a: nat)
    requires a >= ADDRESSES
    ensures a % ADDRESSES < a
  {
  }

  lemma FreeKeepsInv(h: Chain, p: nat)
    requires HeapInv(h)
    ensures HeapInv(Free(h, p)) && |Free(h, p)| == |h|
    ensures forall i: nat :: i < |h| ==> Free(h, p)[i].at == h[i].at && Free(h, p)[i].size == h[i].size
  {
  }

  /** Payloads never overlap. */
  lemma PayloadsApart(h: Chain, i: nat, j: nat, x: int)
    requires HeapInv(h) && i < |h| && j < |h| && i != j
    ensures InPayload(h, i, x) ==> !InPayload(h, j, x)
  {
    if i < j {
      assert h[i].at + HEADER + h[i].size <= h[j].at;
    } else {
      assert h[j].at + HEADER + h[j].size <= h[i].at;
    }
  }

  /** A call leaves blocks in use alone: where they are, how long they are, that they are in use. */
  lemma MallocKeepsLive(h: Chain, size: nat, j: nat)
    requires HeapInv(h) && size <= UNKNOWN && j < |h| && !h[j].free
    ensures j < |Malloc(h, size).0| && Malloc(h, size).0[j] == h[j]
    ensures Malloc(h, size).1 != h[j].at + HEADER
  {
    MallocSucceeds(h, size);
    var i := FirstFit(h, 0, size);
    if i < j { assert h[i].at + HEADER + h[i].size <= h[j].at; }
    if j < i { assert h[j].at + HEADER + h[j].size <= h[i].at; }
  }

  lemma FreeKeepsLive(h: Chain, p: nat, j: nat)
    requires HeapInv(h) && j < |h| && !h[j].free && p != h[j].at + HEADER
    ensures |Free(h, p)| == |h| && Free(h, p)[j] == h[j]
  {
  }

  // ----- whole runs

  datatype HeapCall = CallMalloc(size: nat) | CallFree(p: nat)

  function Perform(h: Chain, c: HeapCall): Chain {
    match c
    case CallMalloc(size) => Malloc(h, size).0
    case CallFree(p) => Free(h, p)
  }

  function Run(h: Chain, calls: seq<HeapCall>): Chain
    decreases |calls|
  {
    if calls == [] then h else Run(Perform(h, calls[0]), calls[1..])
  }

  ghost predicate RoomAlways(h: Chain, calls: seq<HeapCall>)
    decreases |calls|
  {
    calls != [] ==>
      && (calls[0].CallMalloc? ==> calls[0].size <= UNKNOWN && Room(h, calls[0].size))
      && RoomAlways(Perform(h, calls[0]), calls[1..])
  }

  /** Blocks keep their places, and what is recorded of a block's size never grows, except once
      for the last block: the bytes a smaller request leaves unused are lost. */
  ghost predicate OnlyShrinks(h: Chain, h': Chain) {
    && |h| <= |h'|
    && forall i: nat :: i < |h| ==> h'[i].at == h[i].at && h'[i].size <= h[i].size
  }

  lemma PerformKeeps(h: Chain, c: HeapCall)
    requires HeapInv(h) && (c.CallMalloc? ==> c.size <= UNKNOWN && Room(h, c.size))
    ensures HeapInv(Perform(h, c)) && OnlyShrinks(h, Perform(h, c))
  {
    match c
    case CallMalloc(size) =>
      MallocExactly(h, size);
      MallocSucceeds(h, size);
    case CallFree(p) =>
      FreeKeepsInv(h, p);
  }

  /** The address is in use in some block. */
  ghost predicate InUse(h: Chain, j: nat) {
    j < |h| && !h[j].free
  }

  /** Over every run that stays below the end of the address space, the chain stays sound, and a
      block whose address is never freed keeps its place and its size, apart from every other. */
  lemma {:induction false} RunKeeps(h: Chain, calls: seq<HeapCall>, j: nat)
    requires HeapInv(h) && RoomAlways(h, calls)
    ensures HeapInv(Run(h, calls)) && OnlyShrinks(h, Run(h, calls))
    ensures InUse(h, j) && (forall k :: 0 <= k < |calls| ==> calls[k] != CallFree(h[j].at + HEADER)) ==>
      InUse(Run(h, calls), j) && Run(h, calls)[j] == h[j]
    decreases |calls|
  {
    hide HeapInv, Room;
    if calls != [] {
      var g := Perform(h, calls[0]);
      PerformKeeps(h, calls[0]);
      if InUse(h, j) && calls[0] != CallFree(h[j].at + HEADER) { PerformKeepsLive(h, calls[0], j); }
      hide Perform;
      RunKeeps(g, calls[1..], j);
    }
  }

  lemma PerformKeepsLive(h: Chain, c: HeapCall, j: nat)
    requires HeapInv(h) && InUse(h, j) && c != CallFree(h[j].at + HEADER) && (c.CallMalloc? ==> c.size <= UNKNOWN)
    ensures InUse(Perform(h, c), j) && Perform(h, c)[j] == h[j]
  {
    hide HeapInv, Malloc, Free;
    match c
    case CallMalloc(size) => MallocKeepsLive(h, size, j);
    case CallFree(p) => FreeKeepsLive(h, p, j);
  }

  // ----- what is freed can be had again

  lemma HeaderFound(h: Chain, j: nat)
    requires HeapInv(h) && j < |h|
    ensures HeaderAt(h, h[j].at, 0) == j
  {
    assert forall i: nat :: i < j ==> h[i].at < h[j].at;
  }

  lemma NoneBefore(h: Chain, size: nat, j: nat)
    requires j < |h| && Fits(h[j], size) && forall k :: 0 <= k < j ==> !Fits(h[k], size)
    ensures FirstFit(h, 0, size) == j
  {
  }

  /** Freeing the payload of a block makes that block free and nothing else. */
  lemma FreeExactly(h: Chain, j: nat)
    requires HeapInv(h) && j < |h|
    ensures Free(h, h[j].at + HEADER) == h[j := h[j].(free := true)]
  {
    HeaderFound(h, j);
  }

  /** What was freed is given out again: a request no larger gets a block at or before it, and that
      very block when none before it is free and large enough. */
  lemma FreedIsReused(h: Chain, j: nat, size: nat)
    requires HeapInv(h) && InUse(h, j) && size <= h[j].size && size <= UNKNOWN
    ensures var g := Free(h, h[j].at + HEADER);
      var (g', p) := Malloc(g, size);
      && HeapInv(g') && |g'| == |h| && p <= h[j].at + HEADER
      && (p == h[j].at + HEADER <==> forall k: nat :: k < j ==> !Fits(h[k], size))
      && (p == h[j].at + HEADER ==> g' == h[j := Block(h[j].at, false, size)])
  {
    hide Free;
    FreeExactly(h, j);
    FreeKeepsInv(h, h[j].at + HEADER);
    var g := Free(h, h[j].at + HEADER);
    var i := FirstFit(g, 0, size);
    assert Fits(g[j], size) && i <= j < |h| - 1;
    if i < j { assert g[i].at + HEADER + g[i].size <= g[j].at && Fits(h[i], size); }
    MallocExactly(g, size);
    if i == j { assert forall k: nat :: k < j ==> !Fits(h[k], size) by { NoneFits(g, h, size, j); } }
  }

  lemma NoneFits(g: Chain, h: Chain, size: nat, j: nat)
    requires |g| == |h| && j <= |g| && forall k: nat :: k < j ==> g[k] == h[k]
    requires FirstFit(g, 0, size) >= j
    ensures forall k: nat :: k < j ==> !Fits(h[k], size)
  {
    forall k: nat | k < j
      ensures !Fits(h[k], size)
    {
      assert !Fits(g[k], size);
    }
  }

  // ----- from the first call on

  lemma NewHeapIsSound()
    ensures HeapInv(NewHeap())
  {
  }

  /** What a run asks for at most, headers included. */
  function Asked(calls: seq<HeapCall>): nat
    decreases |calls|
  {
    if calls == [] then 0
    else (if calls[0].CallMalloc? then HEADER + calls[0].size else 0) + Asked(calls[1..])
  }

  lemma LastMoves(h: Chain, c: HeapCall)
    requires HeapInv(h) && (c.CallMalloc? ==> c.size <= UNKNOWN && Room(h, c.size))
    ensures var g := Perform(h, c);
      |g| > 0 && g[|g| - 1].at <= h[|h| - 1].at + if c.CallMalloc? then HEADER + c.size else 0
  {
    if c.CallMalloc? {
      MallocSucceeds(h, c.size);
    } else {
      FreeKeepsInv(h, c.p);
    }
  }

  /** A run that asks for less than there is above the last header never wraps. */
  lemma {:induction false} RoomForAll(h: Chain, calls: seq<HeapCall>)
    requires HeapInv(h) && h[|h| - 1].at + Asked(calls) < ADDRESSES
    ensures RoomAlways(h, calls)
    decreases |calls|
  {
    if calls != [] {
      hide HeapInv;
      assert |h| > 0 by { NotEmpty(h); }
      PerformKeeps(h, calls[0]);
      LastMoves(h, calls[0]);
      hide Perform;
      RoomForAll(Perform(h, calls[0]), calls[1..]);
    }
  }

  lemma NotEmpty(h: Chain)
    requires HeapInv(h)
    ensures |h| > 0
  {
  }

  lemma {:induction false} RunSplits(h: Chain, a: seq<HeapCall>, b: seq<HeapCall>)
    ensures Run(h, a + b) == Run(Run(h, a), b)
    ensures (RoomAlways(h, a + b) ==> RoomAlways(h, a) && RoomAlways(Run(h, a), b))
    decreases |a|
  {
    if a == [] {
      assert a + b == b;
    } else {
      assert (a + b)[0] == a[0] && (a + b)[1..] == a[1..] + b;
      hide Perform, Room;
      RunSplits(Perform(h, a[0]), a[1..], b);
    }
  }

  /** A run that ends with a call to malloc. */
  lemma PointerTaken(h: Chain, a: seq<HeapCall>, size: nat)
    requires HeapInv(h) && RoomAlways(h, a + [CallMalloc(size)])
    ensures var g, o := Run(h, a), Run(h, a + [CallMalloc(size)]);
      var j := FirstFit(g, 0, size);
      HeapInv(o) && InUse(o, j) && o[j].at + HEADER == Malloc(g, size).1 && o[j].size == size
  {
    hide *;
    RunSplits(h, a, [CallMalloc(size)]);
    RunKeeps(h, a, 0);
    RunOne(Run(h, a), size);
  }

  lemma BlockLives(h: Chain, r: seq<HeapCall>, b: seq<HeapCall>, j: nat)
    requires HeapInv(h) && RoomAlways(h, r + b) && InUse(Run(h, r), j)
    requires forall k :: 0 <= k < |b| ==> b[k] != CallFree(Run(h, r)[j].at + HEADER)
    ensures RoomAlways(h, r)
    ensures HeapInv(Run(h, r + b)) && InUse(Run(h, r + b), j) && Run(h, r + b)[j] == Run(h, r)[j]
  {
    hide HeapInv, RoomAlways, Run;
    RunSplits(h, r, b);
    RunKeeps(h, r, 0);
    RunKeeps(Run(h, r), b, j);
  }

  lemma RoomBefore(h: Chain, r: seq<HeapCall>, b: seq<HeapCall>)
    requires RoomAlways(h, r + b)
    ensures RoomAlways(h, r)
  {
    hide *;
    RunSplits(h, r, b);
  }

  /** From the new heap on: a pointer malloc returned stays the payload of a block in use with the
      size asked for until it is freed, as long as all requests together stay below the end of
      the address space. */
  lemma PointerLives(a: seq<HeapCall>, size: nat, b: seq<HeapCall>)
    requires HEAP + Asked(a + [CallMalloc(size)] + b) < ADDRESSES
    requires forall k :: 0 <= k < |b| ==> b[k] != CallFree(Malloc(Run(NewHeap(), a), size).1)
    ensures var h := Run(NewHeap(), a + [CallMalloc(size)] + b);
      && HeapInv(h)
      && exists j: nat :: InUse(h, j) && h[j].at + HEADER == Malloc(Run(NewHeap(), a), size).1 && h[j].size == size
  {
    NewHeapIsSound();
    RoomForAll(NewHeap(), a + [CallMalloc(size)] + b);
    hide *;
    RoomBefore(NewHeap(), a + [CallMalloc(size)], b);
    PointerTaken(NewHeap(), a, size);
    BlockLives(NewHeap(), a + [CallMalloc(size)], b, FirstFit(Run(NewHeap(), a), 0, size));
  }

  lemma RunOne(g: Chain, size: nat)
    requires HeapInv(g) && RoomAlways(g, [CallMalloc(size)])
    ensures var h, j := Run(g, [CallMalloc(size)]), FirstFit(g, 0, size);
      HeapInv(h) && InUse(h, j) && h[j].at + HEADER == Malloc(g, size).1 && h[j].size == size
  {
    assert [CallMalloc(size)][0] == CallMalloc(size) && [CallMalloc(size)][1..] == [];
    MallocSucceeds(g, size);
    MallocExactly(g, size);
    var h := Malloc(g, size).0;
    assert Run(g, [CallMalloc(size)]) == Run(h, []) == h;
  }

  // ----- page tables inside payloads

  const PAGE: nat := 0x1000

  /** A page directory starts at the first page boundary of its 8 KiB. */
  function DirectoryStart(p: nat): nat { if p / PAGE * PAGE < p then p / PAGE * PAGE + PAGE else p / PAGE * PAGE }

  /** A second-level table starts at the first page boundary past its start. */
  function TableStart(p: nat): nat { p / PAGE * PAGE + PAGE }

  lemma TablesAreInside(p: nat)
    ensures p <= DirectoryStart(p) && DirectoryStart(p) + PAGE <= p + 2 * PAGE && DirectoryStart(p) % PAGE == 0
    ensures p <= TableStart(p) && TableStart(p) + PAGE <= p + 2 * PAGE && TableStart(p) % PAGE == 0
  {
  }

  /** Two tables made in different payloads of 8 KiB have no byte in common. */
  lemma TablesApart(h: Chain, i: nat, j: nat, x: int)
    requires HeapInv(h) && i < |h| && j < |h| && i != j && h[i].size >= 2 * PAGE && h[j].size >= 2 * PAGE
    ensures var p, q := h[i].at + HEADER, h[j].at + HEADER;
      && (DirectoryStart(p) <= x < DirectoryStart(p) + PAGE ==> !(DirectoryStart(q) <= x < DirectoryStart(q) + PAGE))
      && (DirectoryStart(p) <= x < DirectoryStart(p) + PAGE ==> !(TableStart(q) <= x < TableStart(q) + PAGE))
      && (TableStart(p) <= x < TableStart(p) + PAGE ==> !(TableStart(q) <= x < TableStart(q) + PAGE))
  {
    hide HeapInv, DirectoryStart, TableStart;
    TablesAreInside(h[i].at + HEADER);
    TablesAreInside(h[j].at + HEADER);
    PayloadsApart(h, i, j, x);
  }
}
