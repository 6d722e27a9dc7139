/** Every step on the page tables keeps the memory invariant, and what it does to who owns
    what. */
module PageInvariant {
  import opened MemoryMap
  import opened PageTables

  // ----- the parts of the invariant, one at a time

  lemma InvShape(s: MemState)
    requires MemInv(s)
    ensures Shape(s) && Unshared(s) && MapInv(s.map_) && UnboundEmpty(s)
  {
  }

  lemma BackedAt(s: MemState, t: nat, p: nat)
    requires MemInv(s) && UserAt(s, t, p)
    ensures Shape(s) && t < |s.tables| && p < PAGES && OwnedBy(s.map_, t, Get(s, t, p).frame * PAGE_SIZE)
  {
  }

  lemma DistinctAt(s: MemState, t: nat, p: nat, q: nat)
    requires MemInv(s) && UserAt(s, t, p) && UserAt(s, t, q) && Get(s, t, p).frame == Get(s, t, q).frame
    ensures p == q
  {
  }

  lemma ReachedAt(s: MemState, t: nat, x: int) returns (p: nat)
    requires MemInv(s) && OwnedBy(s.map_, t, x)
    ensures MappedTo(s, t, p, x)
  {
    hide OwnedBy, Get, UserAt, InPage, MappedTo;
    p :| MappedTo(s, t, p, x);
  }

  lemma InvFromParts(s: MemState)
    requires MapInv(s.map_) && Shape(s) && Unshared(s) && UnboundEmpty(s)
    requires Backed(s) && Distinct(s) && Reached(s)
    ensures MemInv(s)
  {
  }

  /** s' has the same user entries as s, and the same map. */
  ghost predicate SameUsers(s: MemState, s': MemState)
    requires Shape(s) && Shape(s')
  {
    && s'.map_ == s.map_
    && forall t: nat, p: nat :: UserAt(s', t, p) || UserAt(s, t, p) ==>
         UserAt(s', t, p) && UserAt(s, t, p) && t < |s.tables| && t < |s'.tables| && p < PAGES
         && Get(s', t, p).frame == Get(s, t, p).frame
  }

  lemma SameUsersAt(s: MemState, s': MemState, t: nat, p: nat)
    requires Shape(s) && Shape(s') && SameUsers(s, s') && (UserAt(s, t, p) || UserAt(s', t, p))
    ensures UserAt(s', t, p) && UserAt(s, t, p) && t < |s.tables| && t < |s'.tables| && p < PAGES
    ensures Get(s', t, p).frame == Get(s, t, p).frame
  {
    hide Shape, Get, UserAt;
  }

  lemma SameUsersKeepsInv(s: MemState, s': MemState)
    requires MemInv(s) && Shape(s') && Unshared(s') && UnboundEmpty(s') && SameUsers(s, s')
    ensures MemInv(s')
  {
    InvShape(s);
    assert s'.map_ == s.map_;
    hide MapInv, Unshared, UnboundEmpty, Get, OwnedBy, Shape, MemInv, UserAt, SameUsers, InPage;
    forall t: nat, p: nat | UserAt(s', t, p)
      ensures OwnedBy(s'.map_, t, Get(s', t, p).frame * PAGE_SIZE)
    {
      SameUsersAt(s, s', t, p);
      BackedAt(s, t, p);
    }
    forall t: nat, p: nat, q: nat | UserAt(s', t, p) && UserAt(s', t, q) && Get(s', t, p).frame == Get(s', t, q).frame
      ensures p == q
    {
      SameUsersAt(s, s', t, p);
      SameUsersAt(s, s', t, q);
      DistinctAt(s, t, p, q);
    }
    forall t: nat, x: int | OwnedBy(s'.map_, t, x)
      ensures exists p: nat :: MappedTo(s', t, p, x)
    {
      var p := ReachedAt(s, t, x);
      SameUsersAt(s, s', t, p);
      assert MappedTo(s', t, p, x);
    }
    InvFromParts(s');
  }

  lemma SameTranslationKeepsInv(s: MemState, s': MemState)
    requires MemInv(s) && Shape(s') && Unshared(s') && SameTranslation(s, s')
    ensures MemInv(s')
  {
    InvShape(s);
    hide MapInv, MemInv, Unshared, Get, Shape;
    assert UnboundEmpty(s');
    assert SameUsers(s, s');
    hide *;
    SameUsersKeepsInv(s, s');
  }

  lemma EnsureKeepsInv(s: MemState, t: nat, d: nat)
    requires MemInv(s) && t < |s.tables| && d < ENTRIES
    ensures MemInv(EnsureTable(s, t, d)) && SameTranslation(s, EnsureTable(s, t, d))
  {
    var s' := EnsureTable(s, t, d);
    EnsuredUnshared(s, t, d);
    EnsuredTranslates(s, t, d);
    hide *;
    SameTranslationKeepsInv(s, s') by { InvShape(s); }
  }

  lemma EnsuredTranslates(s: MemState, t: nat, d: nat)
    requires Shape(s) && t < |s.tables| && d < ENTRIES
    ensures SameTranslation(s, EnsureTable(s, t, d))
  {
    var s' := EnsureTable(s, t, d);
    hide EnsureTable, Get, Shape;
    forall u: nat, p: nat | u < |s.tables| && p < PAGES
      ensures Get(s', u, p) == Get(s, u, p)
    {
      GetEnsured(s, t, d, u, p);
    }
    forall u: nat | u < |s.tables|
      ensures s'.tables[u].bound == s.tables[u].bound
    {
      GetEnsured(s, t, d, u, 0);
    }
    GetEnsured(s, t, d, t, 0);
  }

  lemma PutChanges(s: MemState, t: nat, p: nat, e: Entry)
    requires Shape(s) && Unshared(s) && t < |s.tables| && p < PAGES && s.tables[t].dirs[p / ENTRIES] != NO_TABLE
    ensures Changed(s, PutEntry(s, t, p, e), t, p, e) && PutEntry(s, t, p, e).map_ == s.map_
    ensures Unshared(PutEntry(s, t, p, e))
  {
    var s' := PutEntry(s, t, p, e);
    assert s'.map_ == s.map_;
    forall u: nat, d: nat, v: nat, f: nat | SameTable(s', u, d, v, f)
      ensures u == v && d == f
    {
      assert SameTable(s, u, d, v, f);
    }
    hide PutEntry, Get, Shape, Unshared;
    forall u: nat, q: nat | u < |s.tables| && q < PAGES
      ensures Get(s', u, q) == if u == t && q == p then e else Get(s, u, q)
    {
      GetPut(s, t, p, e, u, q);
    }
  }

  /** A page of t's is mapped as a user page, to a page that was free. */
  ghost predicate TakesPage(s: MemState, s': MemState, t: nat, p: nat, a: nat)
    requires Shape(s) && Shape(s')
  {
    && MapInv(s'.map_) && Takes(s.map_, s'.map_, t, a) && t != KERNEL_TABLE && a % PAGE_SIZE == 0
    && Changed(s, s', t, p, Entry(true, a / PAGE_SIZE, true)) && !Get(s, t, p).mapped && s.tables[t].bound
  }

  lemma OldUser(s: MemState, s': MemState, t: nat, p: nat, a: nat, u: nat, q: nat)
    requires MemInv(s) && Shape(s') && TakesPage(s, s', t, p, a) && UserAt(s', u, q) && !(u == t && q == p)
    ensures UserAt(s, u, q) && u < |s.tables| && u < |s'.tables| && q < PAGES && Get(s', u, q) == Get(s, u, q)
    ensures u == t ==> Get(s, u, q).frame != a / PAGE_SIZE
    ensures OwnedBy(s'.map_, u, Get(s', u, q).frame * PAGE_SIZE)
  {
    hide MapInv, MemInv, OwnedBy, FreeAt, Shape, Get;
    BackedAt(s, u, q);
    if u == t && Get(s, u, q).frame == a / PAGE_SIZE {
      assert a / PAGE_SIZE * PAGE_SIZE == a && InPage(a, a);
      InvShape(s);
      OwnersApart(s.map_, t, t, a);
    }
  }

  lemma NewUser(s: MemState, s': MemState, t: nat, p: nat, a: nat)
    requires Shape(s) && Shape(s') && TakesPage(s, s', t, p, a)
    ensures t < |s'.tables| && p < PAGES && UserAt(s', t, p) && Get(s', t, p).frame == a / PAGE_SIZE
    ensures OwnedBy(s'.map_, t, Get(s', t, p).frame * PAGE_SIZE)
    ensures forall x: int :: InPage(a, x) ==> MappedTo(s', t, p, x)
  {
    hide MapInv, OwnedBy, FreeAt, Shape, Get;
    assert a / PAGE_SIZE * PAGE_SIZE == a && InPage(a, a);
  }

  lemma StillMapped(s: MemState, s': MemState, t: nat, p: nat, a: nat, u: nat, q: nat, x: int)
    requires Shape(s) && Shape(s') && TakesPage(s, s', t, p, a) && MappedTo(s, u, q, x)
    ensures MappedTo(s', u, q, x)
  {
    hide MapInv, OwnedBy, FreeAt, Shape, Get;
  }

  lemma TakesPageFacts(s: MemState, s': MemState, t: nat, p: nat, a: nat)
    requires Shape(s) && Shape(s') && TakesPage(s, s', t, p, a) && UnboundEmpty(s)
    ensures MapInv(s'.map_) && Takes(s.map_, s'.map_, t, a) && UnboundEmpty(s')
  {
    hide MapInv, Takes, Get, Shape;
  }

  lemma TakingKeepsInv(s: MemState, s': MemState, t: nat, p: nat, a: nat)
    requires MemInv(s) && Shape(s') && Unshared(s') && TakesPage(s, s', t, p, a)
    ensures MemInv(s')
  {
    hide MapInv, Unshared, Get, OwnedBy, FreeAt, Shape, MemInv, InPage, MappedTo, UnboundEmpty, TakesPage, Changed;
    InvShape(s);
    TakesPageFacts(s, s', t, p, a);
    NewUser(s, s', t, p, a);
    forall u: nat, q: nat | UserAt(s', u, q)
      ensures OwnedBy(s'.map_, u, Get(s', u, q).frame * PAGE_SIZE)
    {
      if !(u == t && q == p) { OldUser(s, s', t, p, a, u, q); }
    }
    forall u: nat, q: nat, r: nat | UserAt(s', u, q) && UserAt(s', u, r) && Get(s', u, q).frame == Get(s', u, r).frame
      ensures q == r
    {
      if !(u == t && q == p) { OldUser(s, s', t, p, a, u, q); }
      if !(u == t && r == p) { OldUser(s, s', t, p, a, u, r); }
      if u != t || (q != p && r != p) { DistinctAt(s, u, q, r); }
    }
    forall u: nat, x: int | OwnedBy(s'.map_, u, x)
      ensures exists q: nat :: MappedTo(s', u, q, x)
    {
      if !(u == t && InPage(a, x)) {
        var q := ReachedAt(s, u, x);
        StillMapped(s, s', t, p, a, u, q, x);
      }
    }
    InvFromParts(s');
  }

  /** An unmapped page is mapped as a kernel page. */
  lemma MappingKeepsInv(s: MemState, s': MemState, t: nat, p: nat, frame: nat)
    requires MemInv(s) && Shape(s') && Unshared(s') && s'.map_ == s.map_
    requires Changed(s, s', t, p, Entry(true, frame, false))
    requires !Get(s, t, p).mapped && s.tables[t].bound
    ensures MemInv(s')
  {
    InvShape(s);
    MappingSameUsers(s, s', t, p, frame);
    MappingUnbound(s, s', t, p, frame);
    hide *;
    SameUsersKeepsInv(s, s');
  }

  lemma MappingSameUsers(s: MemState, s': MemState, t: nat, p: nat, frame: nat)
    requires Shape(s) && Shape(s') && s'.map_ == s.map_ && Changed(s, s', t, p, Entry(true, frame, false))
    requires !Get(s, t, p).mapped
    ensures SameUsers(s, s')
  {
    hide Get, Shape;
  }

  lemma MappingUnbound(s: MemState, s': MemState, t: nat, p: nat, frame: nat)
    requires Shape(s) && Shape(s') && Changed(s, s', t, p, Entry(true, frame, false))
    requires s.tables[t].bound && UnboundEmpty(s)
    ensures UnboundEmpty(s')
  {
    hide Get, Shape;
  }

  // ----- allocation

  /** Memory changes hands only from free to t. */
  ghost predicate Feeds(m: Map, m': Map, t: nat) {
    && (forall u: nat, x: int :: u != t ==> (OwnedBy(m', u, x) <==> OwnedBy(m, u, x)))
    && (forall x: int :: OwnedBy(m, t, x) ==> OwnedBy(m', t, x))
    && (forall x: int :: FreeAt(m', x) ==> FreeAt(m, x))
    && (forall x: int :: FreeAt(m, x) || OwnedBy(m, t, x) <==> FreeAt(m', x) || OwnedBy(m', t, x))
  }

  /** Entries are only added, and only to table t. */
  ghost predicate OnlyAdds(s: MemState, s': MemState, t: nat)
    requires Shape(s) && Shape(s')
  {
    && |s'.tables| == |s.tables|
    && (forall u: nat :: u < |s.tables| ==> s'.tables[u].bound == s.tables[u].bound)
    && (forall u: nat, p: nat :: u < |s.tables| && p < PAGES && (u != t || Get(s, u, p).mapped) ==>
          Get(s', u, p) == Get(s, u, p))
  }

  ghost predicate Grows(s: MemState, s': MemState, t: nat) {
    MemInv(s) && MemInv(s') && Feeds(s.map_, s'.map_, t) && OnlyAdds(s, s', t)
  }

  lemma GrowsTrans(s: MemState, s1: MemState, s2: MemState, t: nat)
    requires Grows(s, s1, t) && Grows(s1, s2, t)
    ensures Grows(s, s2, t)
  {
    hide MapInv, Unshared, UnboundEmpty, Backed, Distinct, Reached, Shape, Get, OwnedBy, FreeAt;
  }

  lemma GrowsSelf(s: MemState, t: nat)
    requires MemInv(s)
    ensures Grows(s, s, t)
  {
    hide MapInv, Unshared, UnboundEmpty, Backed, Distinct, Reached, Shape, Get, OwnedBy, FreeAt;
  }

  lemma SameTranslationGrows(s: MemState, s': MemState, t: nat)
    requires MemInv(s) && MemInv(s') && SameTranslation(s, s')
    ensures Grows(s, s', t)
  {
    hide MapInv, Unshared, UnboundEmpty, Backed, Distinct, Reached, Shape, Get, OwnedBy, FreeAt;
  }

  lemma TakesFeeds(m: Map, m': Map, t: nat, a: int)
    requires MapInv(m) && Takes(m, m', t, a)
    ensures Feeds(m, m', t)
  {
    hide OwnedBy, FreeAt, InPage, MapInv;
  }

  ghost predicate NoneFree(m: Map) {
    forall x: int :: !FreeAt(m, x)
  }

  lemma CarveFails(m: Map, t: nat)
    requires MapInv(m) && t != KERNEL_TABLE && Carve(m, t).None?
    ensures NoneFree(m)
  {
    hide MapInv, Carve, FreeAt;
    CarveSucceeds(m, t);
  }

  /** s' is s with page p of t's filled, or s when there was nothing to fill it with. */
  lemma FillCases(s: MemState, t: nat, p: nat)
    requires MemInv(s) && t < |s.tables| && s.tables[t].bound && t != KERNEL_TABLE && p < PAGES
    requires s.tables[t].dirs[p / ENTRIES] != NO_TABLE
    ensures Get(s, t, p).mapped ==> FillPage(s, t, p) == s
    ensures !Get(s, t, p).mapped && Carve(s.map_, t).None? ==> FillPage(s, t, p) == s && NoneFree(s.map_)
    ensures !Get(s, t, p).mapped && Carve(s.map_, t).Some? ==>
      var (m, a) := Carve(s.map_, t).value;
      && FillPage(s, t, p) == PutEntry(s.(map_ := m), t, p, Entry(true, a / PAGE_SIZE, true))
      && MapInv(m) && Takes(s.map_, m, t, a) && a % PAGE_SIZE == 0
  {
    InvShape(s);
    hide MemInv, MapInv, Unshared, Shape, Get, Carve, PutEntry, NoneFree, UnboundEmpty, Takes;
    if Carve(s.map_, t).Some? {
      CarveTakes(s.map_, t, Carve(s.map_, t).value.0, Carve(s.map_, t).value.1);
    } else {
      CarveFails(s.map_, t);
    }
  }

  /** A page of the table has been allocated, or there was no free memory left for it. */
  lemma FillGrows(s: MemState, t: nat, p: nat)
    requires MemInv(s) && t < |s.tables| && s.tables[t].bound && t != KERNEL_TABLE && p < PAGES
    requires s.tables[t].dirs[p / ENTRIES] != NO_TABLE
    ensures Grows(s, FillPage(s, t, p), t)
    ensures Get(FillPage(s, t, p), t, p).mapped || NoneFree(FillPage(s, t, p).map_)
  {
    FillCases(s, t, p);
    hide *;
    GrowsSelf(s, t);
    if !Get(s, t, p).mapped && Carve(s.map_, t).Some? {
      FillTaken(s, t, p, Carve(s.map_, t).value.0, Carve(s.map_, t).value.1);
    }
  }

  lemma FillTaken(s: MemState, t: nat, p: nat, m: Map, a: nat)
    requires MemInv(s) && t < |s.tables| && s.tables[t].bound && t != KERNEL_TABLE && p < PAGES
    requires s.tables[t].dirs[p / ENTRIES] != NO_TABLE && !Get(s, t, p).mapped
    requires MapInv(m) && Takes(s.map_, m, t, a) && a % PAGE_SIZE == 0
    ensures var s' := PutEntry(s.(map_ := m), t, p, Entry(true, a / PAGE_SIZE, true));
      Grows(s, s', t) && Get(s', t, p).mapped
  {
    var e := Entry(true, a / PAGE_SIZE, true);
    var r := s.(map_ := m);
    var s' := PutEntry(r, t, p, e);
    InvShape(s);
    NewMap(s, m);
    PutChanges(r, t, p, e);
    ChangedFrom(s, m, s', t, p, e);
    assert TakesPage(s, s', t, p, a);
    hide *;
    TakingKeepsInv(s, s', t, p, a);
    TakesFeeds(s.map_, m, t, a);
    ChangedGrows(s, s', t, p, e);
  }

  lemma NewMap(s: MemState, m: Map)
    requires Shape(s) && Unshared(s)
    ensures Shape(s.(map_ := m)) && Unshared(s.(map_ := m))
  {
    assert forall u: nat, d: nat, v: nat, f: nat :: SameTable(s.(map_ := m), u, d, v, f) ==> SameTable(s, u, d, v, f);
  }

  lemma ChangedFrom(s: MemState, m: Map, s': MemState, t: nat, p: nat, e: Entry)
    requires Shape(s) && Shape(s.(map_ := m)) && Shape(s') && Changed(s.(map_ := m), s', t, p, e)
    ensures Changed(s, s', t, p, e)
  {
    assert forall u: nat, q: nat :: u < |s.tables| && q < PAGES ==> Get(s.(map_ := m), u, q) == Get(s, u, q);
  }

  lemma ChangedGrows(s: MemState, s': MemState, t: nat, p: nat, e: Entry)
    requires MemInv(s) && MemInv(s') && Changed(s, s', t, p, e) && !Get(s, t, p).mapped && e.mapped
    requires Feeds(s.map_, s'.map_, t)
    ensures Grows(s, s', t) && Get(s', t, p).mapped
  {
    hide MapInv, Unshared, UnboundEmpty, Backed, Distinct, Reached, Shape, Get, OwnedBy, FreeAt;
  }

  lemma AllocatePageIs(s: MemState, t: nat, p: nat)
    requires Shape(s) && t < |s.tables| && p < PAGES
    ensures PAGE_SIZE == 0x1000 && ENTRIES == 1024 && p / ENTRIES < ENTRIES
    ensures AllocatePage(s, t, p) == FillPage(EnsureTable(s, t, p / ENTRIES), t, p)
    ensures s.tables[t].dirs[p / ENTRIES] != NO_TABLE ==> EnsureTable(s, t, p / ENTRIES) == s
  {
  }

  lemma AllocatePageGrows(s: MemState, t: nat, p: nat)
    requires MemInv(s) && t < |s.tables| && s.tables[t].bound && t != KERNEL_TABLE && p < PAGES
    ensures Grows(s, AllocatePage(s, t, p), t)
    ensures Get(AllocatePage(s, t, p), t, p).mapped || NoneFree(AllocatePage(s, t, p).map_)
  {
    var d := p / ENTRIES;
    var s1 := EnsureTable(s, t, d);
    EnsureKeepsInv(s, t, d);
    SameTranslationGrows(s, s1, t);
    SameTranslationBound(s, s1, t);
    hide MemInv, Grows, Get, SameTranslation, FillPage, EnsureTable, FreeAt;
    FillGrows(s1, t, p);
    GrowsTrans(s, s1, FillPage(s1, t, p), t);
  }

  lemma SameTranslationBound(s: MemState, s': MemState, t: nat)
    requires Shape(s) && Shape(s') && SameTranslation(s, s') && t < |s.tables|
    ensures s'.tables[t].bound == s.tables[t].bound && |s'.tables| == |s.tables|
  {
  }

  lemma GrowsBound(s: MemState, s': MemState, t: nat)
    requires Grows(s, s', t)
    ensures Shape(s) && Shape(s') && |s'.tables| == |s.tables|
    ensures forall u: nat :: u < |s.tables| ==> s'.tables[u].bound == s.tables[u].bound
  {
  }

  /** The n pages from p on are mapped. */
  ghost predicate RangeMapped(s: MemState, t: nat, p: nat, n: nat)
    requires Shape(s) && t < |s.tables| && p + n <= PAGES
  {
    forall q: nat :: p <= q < p + n ==> Get(s, t, q).mapped
  }

  lemma RangeSplit(s: MemState, t: nat, p: nat, n: nat)
    requires Shape(s) && t < |s.tables| && 0 < n && p + n <= PAGES
    requires Get(s, t, p).mapped && RangeMapped(s, t, p + 1, n - 1)
    ensures RangeMapped(s, t, p, n)
  {
    hide Get, Shape;
  }

  lemma RangeStep(s1: MemState, s': MemState, t: nat, p: nat, n: nat)
    requires Grows(s1, s', t) && t < |s1.tables| && 0 < n && p + n <= PAGES
    requires Get(s1, t, p).mapped || NoneFree(s1.map_)
    requires NoneFree(s'.map_) || RangeMapped(s', t, p + 1, n - 1)
    ensures NoneFree(s'.map_) || RangeMapped(s', t, p, n)
  {
    GrowsBound(s1, s', t);
    hide MemInv, Get, NoneFree, RangeMapped, Grows;
    GrowsStays(s1, s', t, p);
    if !NoneFree(s'.map_) { RangeSplit(s', t, p, n); }
  }

  lemma AllocatePagesNone(s: MemState, t: nat, p: nat)
    requires Shape(s) && t < |s.tables| && p <= PAGES
    ensures AllocatePages(s, t, p, 0) == s && RangeMapped(s, t, p, 0)
  {
  }

  lemma AllocatePagesMore(s: MemState, t: nat, p: nat, n: nat)
    requires Shape(s) && t < |s.tables| && 0 < n && p + n <= PAGES
    ensures AllocatePages(s, t, p, n) == AllocatePages(AllocatePage(s, t, p), t, p + 1, n - 1)
  {
  }

  /** Allocating a range: the invariant is kept, only free memory changes hands and only to the
      table, no existing entry changes, and every page of the range is mapped unless no memory
      is free any more. */
  lemma {:induction false} AllocatePagesGrows(s: MemState, t: nat, p: nat, n: nat)
    requires MemInv(s) && t < |s.tables| && s.tables[t].bound && t != KERNEL_TABLE && p + n <= PAGES
    ensures Grows(s, AllocatePages(s, t, p, n), t)
    ensures var s' := AllocatePages(s, t, p, n);
      NoneFree(s'.map_) || RangeMapped(s', t, p, n)
    decreases n
  {
    hide *;
    InvShape(s);
    if n == 0 {
      AllocatePagesNone(s, t, p);
      GrowsSelf(s, t);
    } else {
      AllocatePagesMore(s, t, p, n);
      var s1 := AllocatePage(s, t, p);
      AllocatePageGrows(s, t, p);
      GrowsBound(s, s1, t);
      GrowsInv(s, s1, t);
      AllocatePagesGrows(s1, t, p + 1, n - 1);
      var s' := AllocatePages(s1, t, p + 1, n - 1);
      GrowsTrans(s, s1, s', t);
      RangeStep(s1, s', t, p, n);
    }
  }

  lemma GrowsInv(s: MemState, s': MemState, t: nat)
    requires Grows(s, s', t)
    ensures MemInv(s')
  {
  }

  lemma GrowsStays(s: MemState, s': MemState, t: nat, p: nat)
    requires Grows(s, s', t) && t < |s.tables| && p < PAGES
    ensures Get(s, t, p).mapped ==> Get(s', t, p) == Get(s, t, p)
    ensures NoneFree(s.map_) ==> NoneFree(s'.map_)
  {
    hide MemInv, Get, FreeAt, OwnedBy;
  }
}
