/** The heap as it lies in memory: headers that point to one another, walked by every allocation. */
module KernelHeap {
  import opened Heap

  /** A header as it lies in memory. */
  datatype Header = Header(free: bool, size: nat, next: nat)

  /** The headers from the one at address a on, along the next pointers. */
  ghost predicate Linked(m: map<nat, Header>, h: Chain) {
    && |h| > 0
    && (forall i: nat :: i < |h| ==> h[i].at in m && m[h[i].at].free == h[i].free && m[h[i].at].size == h[i].size)
    && (forall i: nat, j: nat :: j == i + 1 && j < |h| ==> m[h[i].at].next == h[j].at)
    && m[h[|h| - 1].at].next == 0
  }

  lemma LinkedAt(m: map<nat, Header>, h: Chain, i: nat)
    requires Linked(m, h) && HeapInv(h) && i < |h|
    ensures h[i].at in m && m[h[i].at].free == h[i].free && m[h[i].at].size == h[i].size && h[i].at >= HEAP
    ensures m[h[i].at].next == if i + 1 < |h| then h[i + 1].at else 0
  {
  }

  /** Changing one header's flag and size in memory changes the same block of the chain. */
  lemma LinkedUpdate(m: map<nat, Header>, h: Chain, i: nat, free: bool, size: nat)
    requires Linked(m, h) && HeapInv(h) && i < |h|
    ensures Linked(m[h[i].at := m[h[i].at].(free := free, size := size)], h[i := h[i].(free := free, size := size)])
  {
    forall j: nat | j < |h| && j != i
      ensures h[j].at != h[i].at
    {
      if i < j {
        assert h[i].at + HEADER + h[i].size <= h[j].at;
      } else {
        assert h[j].at + HEADER + h[j].size <= h[i].at;
      }
    }
  }

  /** Taking the last block makes a new last header behind it. */
  lemma LinkedAppend(m: map<nat, Header>, h: Chain, size: nat)
    requires Linked(m, h) && HeapInv(h) && h[|h| - 1].at + HEADER + size < ADDRESSES
    ensures var s := h[|h| - 1].at;
      var last := (s + HEADER + size) % ADDRESSES;
      Linked(m[s := Header(false, size, last)][last := Header(true, UNKNOWN, 0)], Taken(h, |h| - 1, size))
  {
    var n := |h|;
    var s := h[n - 1].at;
    var last := (s + HEADER + size) % ADDRESSES;
    forall j: nat | j < n - 1
      ensures h[j].at < s && h[j].at != last
    {
      assert h[j].at + HEADER + h[j].size <= s;
    }
  }

  lemma FirstIsThere(h: Chain)
    requires HeapInv(h)
    ensures |h| > 0
  {
  }

  class KernelHeap {
    var headers: map<nat, Header>
    ghost var chain: Chain

    ghost predicate Valid()
      reads this
    {
      HeapInv(chain) && Linked(headers, chain)
    }

    constructor ()
      ensures Valid() && chain == NewHeap()
    {
      headers := map[HEAP := Header(true, UNKNOWN, 0)];
      chain := NewHeap();
    }

    /** Walks the chain to the first block that fits. */
    method Search(size: nat) returns (s: nat, ghost i: nat)
      requires Valid() && size <= UNKNOWN
      ensures i == FirstFit(chain, 0, size) < |chain| && s == chain[i].at && s in headers
    {
      MallocSucceeds(chain, size);
      s, i := HEAP, 0;
      LinkedAt(headers, chain, 0);
      while s != 0 && (!headers[s].free || headers[s].size < size)
        invariant i < |chain| && s == chain[i].at && s in headers
        invariant FirstFit(chain, i, size) == FirstFit(chain, 0, size)
        decreases |chain| - i
      {
        LinkedAt(headers, chain, i);
        if i + 1 < |chain| { LinkedAt(headers, chain, i + 1); }
        s := headers[s].next;
        i := i + 1;
      }
      LinkedAt(headers, chain, i);
    }

    method Allocate(size: nat) returns (p: nat)
      requires Valid() && size <= UNKNOWN && Room(chain, size)
      modifies this
      ensures Valid() && (chain, p) == Malloc(old(chain), size)
    {
      hide HeapInv, Linked;
      MallocSucceeds(chain, size);
      MallocExactly(chain, size);
      FirstIsThere(chain);
      var s;
      ghost var i;
      s, i := Search(size);
      p := s + HEADER;
      LinkedAt(headers, chain, i);
      if i + 1 < |chain| { LinkedAt(headers, chain, i + 1); }
      if headers[s].next == 0 {
        LinkedAppend(headers, chain, size);
        var last := (s + HEADER + size) % ADDRESSES;
        headers := headers[s := Header(false, size, last)];
        headers := headers[last := Header(true, UNKNOWN, 0)];
      } else {
        LinkedUpdate(headers, chain, i, false, size);
        headers := headers[s := headers[s].(free := false, size := size)];
      }
      chain := Malloc(chain, size).0;
    }

    method Release(p: nat)
      requires Valid() && p >= HEADER && p - HEADER in headers
      requires exists i: nat :: i < |chain| && chain[i].at == p - HEADER
      modifies this
      ensures Valid() && chain == Free(old(chain), p)
    {
      hide HeapInv, Linked;
      FreeKeepsInv(chain, p);
      ghost var i := HeaderAt(chain, p - HEADER, 0);
      LinkedUpdate(headers, chain, i, true, chain[i].size);
      LinkedAt(headers, chain, i);
      headers := headers[p - HEADER := headers[p - HEADER].(free := true)];
      chain := Free(chain, p);
    }
  }
}
