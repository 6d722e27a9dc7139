/** Identity mapping, creating and freeing tables, and whole runs of calls on the memory. */
module PageRuns {
  import opened MemoryMap
  import opened MapFreeing
  import opened PageTables
  import opened PageInvariant
  import opened Options

  // ----- mapping kernel memory at its own address

  lemma IdentityStepGrows(s: MemState, t: nat, p: nat, frame: nat)
    requires MemInv(s) && t < |s.tables| && s.tables[t].bound && p < PAGES
    ensures var (s', next) := IdentityPage(s, t, p, frame);
      && Grows(s, s', t) && s'.map_ == s.map_
      && (Get(s, t, p).mapped ==> next == frame && Get(s', t, p) == Get(s, t, p))
      && (!Get(s, t, p).mapped ==> next == frame + 1 && Get(s', t, p) == Entry(true, frame, false))
      && forall q: nat :: q < PAGES && q != p ==> Get(s', t, q) == Get(s, t, q)
  {
    var d := p / ENTRIES;
    var s1 := EnsureTable(s, t, d);
    EnsureKeepsInv(s, t, d);
    SameTranslationGrows(s, s1, t);
    SameTranslationBound(s, s1, t);
    assert forall q: nat :: q < PAGES ==> Get(s1, t, q) == Get(s, t, q) by { SameTranslationEntries(s, s1, t); }
    assert s1.map_ == s.map_ && IdentityPage(s, t, p, frame) ==
      if Get(s1, t, p).mapped then (s1, frame) else (PutEntry(s1, t, p, Entry(true, frame, false)), frame + 1);
    hide *;
    if !Get(s1, t, p).mapped {
      PutKernelGrows(s1, t, p, frame);
      GrowsTrans(s, s1, PutEntry(s1, t, p, Entry(true, frame, false)), t);
    }
  }

  lemma SameTranslationEntries(s: MemState, s': MemState, t: nat)
    requires Shape(s) && Shape(s') && SameTranslation(s, s') && t < |s.tables|
    ensures forall q: nat :: q < PAGES ==> Get(s', t, q) == Get(s, t, q)
  {
    hide Shape, Get;
  }

  lemma FeedsSelf(m: Map, t: nat)
    ensures Feeds(m, m, t)
  {
    hide OwnedBy, FreeAt;
  }

  lemma PutKernelGrows(s: MemState, t: nat, p: nat, frame: nat)
    requires MemInv(s) && t < |s.tables| && s.tables[t].bound && p < PAGES
    requires s.tables[t].dirs[p / ENTRIES] != NO_TABLE && !Get(s, t, p).mapped
    ensures var s' := PutEntry(s, t, p, Entry(true, frame, false));
      && Grows(s, s', t) && s'.map_ == s.map_ && Get(s', t, p) == Entry(true, frame, false)
      && forall q: nat :: q < PAGES && q != p ==> Get(s', t, q) == Get(s, t, q)
  {
    var e := Entry(true, frame, false);
    var s' := PutEntry(s, t, p, e);
    InvShape(s);
    PutChanges(s, t, p, e);
    ChangedEntries(s, s', t, p, e);
    hide *;
    MappingKeepsInv(s, s', t, p, frame);
    FeedsSelf(s.map_, t);
    ChangedGrows(s, s', t, p, e);
  }

  lemma ChangedEntries(s: MemState, s': MemState, t: nat, p: nat, e: Entry)
    requires Shape(s) && Shape(s') && Changed(s, s', t, p, e)
    ensures t < |s'.tables| && forall q: nat :: q < PAGES ==> Get(s', t, q) == if q == p then e else Get(s, t, q)
  {
    hide Shape, Get;
  }

  /** Every page of the range is mapped to itself. */
  ghost predicate SelfMapped(s: MemState, t: nat, p: nat, n: nat)
    requires Shape(s) && t < |s.tables| && p + n <= PAGES
  {
    forall q: nat :: p <= q < p + n ==> Get(s, t, q).mapped && Get(s, t, q).frame == q
  }

  /** What is mapped already is mapped to itself, and only at the end of the range. */
  ghost predicate OnlyTailMapped(s: MemState, t: nat, p: nat, n: nat)
    requires Shape(s) && t < |s.tables| && p + n <= PAGES
  {
    && (forall q: nat :: p <= q < p + n && Get(s, t, q).mapped ==> Get(s, t, q).frame == q)
    && forall q: nat, r: nat :: p <= q <= r < p + n && Get(s, t, q).mapped ==> Get(s, t, r).mapped
  }

  lemma IdentityMore(s: MemState, t: nat, p: nat, n: nat, frame: nat)
    requires Shape(s) && t < |s.tables| && 0 < n && p + n <= PAGES
    ensures var (s1, next) := IdentityPage(s, t, p, frame);
      IdentityPages(s, t, p, n, frame) == IdentityPages(s1, t, p + 1, n - 1, next)
  {
  }

  lemma IdentityNone(s: MemState, t: nat, p: nat, frame: nat)
    requires Shape(s) && t < |s.tables| && p <= PAGES
    ensures IdentityPages(s, t, p, 0, frame) == s
    ensures SelfMapped(s, t, p, 0) && OnlyTailMapped(s, t, p, 0) && RangeMapped(s, t, p, 0)
  {
  }

  lemma {:induction false} IdentityGrows(s: MemState, t: nat, p: nat, n: nat, frame: nat)
    requires MemInv(s) && t < |s.tables| && s.tables[t].bound && p + n <= PAGES
    ensures var s' := IdentityPages(s, t, p, n, frame); Grows(s, s', t) && s'.map_ == s.map_
    ensures forall q: nat :: q < p && q < PAGES ==> Get(IdentityPages(s, t, p, n, frame), t, q) == Get(s, t, q)
    decreases n
  {
    hide *;
    InvShape(s);
    if n == 0 {
      IdentityNone(s, t, p, frame);
      GrowsSelf(s, t);
    } else {
      IdentityMore(s, t, p, n, frame);
      var (s1, next) := IdentityPage(s, t, p, frame);
      IdentityStepGrows(s, t, p, frame);
      GrowsBound(s, s1, t);
      GrowsInv(s, s1, t);
      IdentityGrows(s1, t, p + 1, n - 1, next);
      GrowsTrans(s, s1, IdentityPages(s1, t, p + 1, n - 1, next), t);
    }
  }

  /** The first page and the rest of a range. */
  lemma TailSplit(s: MemState, t: nat, p: nat, n: nat)
    requires Shape(s) && t < |s.tables| && 0 < n && p + n <= PAGES
    ensures OnlyTailMapped(s, t, p, n) <==>
      && (Get(s, t, p).mapped ==> Get(s, t, p).frame == p && RangeMapped(s, t, p, n))
      && OnlyTailMapped(s, t, p + 1, n - 1)
    ensures RangeMapped(s, t, p, n) <==> Get(s, t, p).mapped && RangeMapped(s, t, p + 1, n - 1)
    ensures SelfMapped(s, t, p, n) <==>
      Get(s, t, p).mapped && Get(s, t, p).frame == p && SelfMapped(s, t, p + 1, n - 1)
  {
    hide Get, Shape;
  }

  lemma SameTail(s: MemState, s': MemState, t: nat, p: nat, n: nat)
    requires Shape(s) && Shape(s') && t < |s.tables| && t < |s'.tables| && p + n <= PAGES
    requires forall q: nat :: p <= q < p + n ==> Get(s', t, q) == Get(s, t, q)
    ensures OnlyTailMapped(s', t, p, n) <==> OnlyTailMapped(s, t, p, n)
    ensures RangeMapped(s', t, p, n) <==> RangeMapped(s, t, p, n)
  {
    hide Get, Shape;
  }

  lemma {:induction false} IdentityExactlyFrom(s: MemState, t: nat, p: nat, n: nat, frame: nat)
    requires MemInv(s) && t < |s.tables| && s.tables[t].bound && p + n <= PAGES && frame <= p
    ensures SelfMapped(IdentityPages(s, t, p, n, frame), t, p, n) <==>
      OnlyTailMapped(s, t, p, n) && (frame == p || RangeMapped(s, t, p, n))
    decreases n
  {
    hide *;
    InvShape(s);
    if n == 0 {
      IdentityNone(s, t, p, frame);
    } else {
      IdentityMore(s, t, p, n, frame);
      var (s1, next) := IdentityPage(s, t, p, frame);
      IdentityStepGrows(s, t, p, frame);
      GrowsBound(s, s1, t);
      GrowsInv(s, s1, t);
      var s' := IdentityPages(s1, t, p + 1, n - 1, next);
      IdentityGrows(s1, t, p + 1, n - 1, next);
      IdentityExactlyFrom(s1, t, p + 1, n - 1, next);
      SameTail(s, s1, t, p + 1, n - 1);
      TailSplit(s, t, p, n);
      TailSplit(s', t, p, n);
    }
  }

  /** Identity mapping maps the whole range to itself exactly when whatever was mapped in it was
      mapped to itself already and nothing unmapped came after it. */
  lemma IdentityExactly(s: MemState, t: nat, base: nat, limit: nat)
    requires MemInv(s) && t < |s.tables| && s.tables[t].bound && InRange(base, limit)
    ensures FirstPage(base) + PageCount(base, limit) <= PAGES
    ensures SelfMapped(Identity(s, t, base, limit), t, FirstPage(base), PageCount(base, limit)) <==>
      OnlyTailMapped(s, t, FirstPage(base), PageCount(base, limit))
  {
    RangeFits(base, limit);
    hide MemInv, SelfMapped, OnlyTailMapped;
    IdentityExactlyFrom(s, t, FirstPage(base), PageCount(base, limit), FirstPage(base));
  }

  // ----- creating a table

  lemma CreatedEntries(s: MemState, u: nat, p: nat)
    requires Shape(s) && u <= |s.tables| && p < PAGES
    ensures var (s', t) := CreateTable(s);
      && Shape(s') && t < |s'.tables| && (u < |s.tables| ==> u < |s'.tables| && Get(s', u, p) == Get(s, u, p))
      && (u == |s.tables| < |s'.tables| ==> !Get(s', u, p).mapped)
  {
    var t := FirstUnbound(s.tables, 0);
    if t == |s.tables| {
      assert ShapedDirectory(seq(ENTRIES, _ => NO_TABLE), |s.store|);
    }
    assert p / ENTRIES < ENTRIES;
  }

  lemma CreatedUnshared(s: MemState)
    requires Shape(s) && Unshared(s) && Shape(CreateTable(s).0)
    ensures Unshared(CreateTable(s).0)
  {
    var s' := CreateTable(s).0;
    forall u: nat, d: nat, v: nat, f: nat | SameTable(s', u, d, v, f)
      ensures u == v && d == f
    {
      assert SameTable(s, u, d, v, f);
    }
  }

  lemma CreatedFacts(s: MemState)
    requires Shape(s) && UnboundEmpty(s)
    ensures var (s', t) := CreateTable(s);
      && Shape(s') && UnboundEmpty(s') && SameUsers(s, s') && s'.map_ == s.map_
      && t != KERNEL_TABLE && t < |s'.tables| && s'.tables[t].bound && (t < |s.tables| ==> !s.tables[t].bound)
      && (forall p: nat :: p < PAGES ==> !Get(s', t, p).mapped)
      && |s'.tables| >= |s.tables|
      && (forall u: nat :: u < |s.tables| && u != t ==> s'.tables[u].bound == s.tables[u].bound)
      && forall u: nat, p: nat :: u < |s.tables| && p < PAGES ==> Get(s', u, p) == Get(s, u, p)
  {
    var (s', t) := CreateTable(s);
    CreatedEntries(s, |s.tables|, 0);
    hide Get, Shape;
    forall u: nat, p: nat | u <= |s.tables| && p < PAGES
      ensures u < |s.tables| ==> u < |s'.tables| && Get(s', u, p) == Get(s, u, p)
      ensures u == |s.tables| < |s'.tables| ==> !Get(s', u, p).mapped
    {
      CreatedEntries(s, u, p);
    }
  }

  lemma CreatedLength(s: MemState)
    requires Shape(s)
    ensures |CreateTable(s).0.tables| == (if AllBound(s.tables) then |s.tables| + 1 else |s.tables|)
  {
    hide Shape;
    var t := FirstUnbound(s.tables, 0);
    assert t < |s.tables| ==> !s.tables[t].bound;
  }

  predicate AllBound(tables: seq<Table>) {
    forall u: nat :: u < |tables| ==> tables[u].bound
  }

  /** A created table, recycled or, exactly when all are bound, a new one, is not the kernel's, was
      not bound, maps nothing and owns no memory; nothing else changes. */
  lemma CreateKeepsInv(s: MemState)
    requires MemInv(s)
    ensures var (s', t) := CreateTable(s);
      && MemInv(s') && s'.map_ == s.map_
      && t != KERNEL_TABLE && t < |s'.tables| && s'.tables[t].bound && (t < |s.tables| ==> !s.tables[t].bound)
      && (forall p: nat :: p < PAGES ==> !Get(s', t, p).mapped)
      && (forall x: int :: !OwnedBy(s'.map_, t, x))
      && |s'.tables| == (if AllBound(s.tables) then |s.tables| + 1 else |s.tables|)
      && (forall u: nat :: u < |s.tables| && u != t ==> s'.tables[u].bound == s.tables[u].bound)
      && forall u: nat, p: nat :: u < |s.tables| && p < PAGES ==> Get(s', u, p) == Get(s, u, p)
  {
    var (s', t) := CreateTable(s);
    InvShape(s);
    CreatedFacts(s);
    CreatedUnshared(s);
    CreatedLength(s);
    hide MemInv, CreateTable, UnboundEmpty, SameUsers, Unshared, Shape, MapInv, OwnedBy, Get;
    SameUsersKeepsInv(s, s');
    forall x: int
      ensures !OwnedBy(s'.map_, t, x)
    {
      if OwnedBy(s'.map_, t, x) { var p := ReachedAt(s', t, x); }
    }
  }

  // ----- freeing a table

  lemma {:induction false} ClearedEntry(s: MemState, t: nat, i: nat, u: nat, p: nat)
    requires Shape(s) && Unshared(s) && t < |s.tables| && u < |s.tables| && i <= ENTRIES && p < PAGES
    ensures Get(Cleared(s, t, i), u, p) == if u == t && i <= p / ENTRIES then EMPTY else Get(s, u, p)
    decreases ENTRIES - i
  {
    assert p / ENTRIES < ENTRIES;
    if i < ENTRIES {
      var d := s.tables[t].dirs[i];
      var s1 := if d == NO_TABLE then s else s.(store := s.store[d := EmptyTable()]);
      ClearStep(s, t, i, u, p);
      hide Get, Shape, Unshared, EmptyTable;
      ClearedEntry(s1, t, i + 1, u, p);
    }
  }

  lemma ClearStep(s: MemState, t: nat, i: nat, u: nat, p: nat)
    requires Shape(s) && Unshared(s) && t < |s.tables| && u < |s.tables| && i < ENTRIES && p < PAGES
    ensures var d := s.tables[t].dirs[i];
      var s1 := if d == NO_TABLE then s else s.(store := s.store[d := EmptyTable()]);
      && Shape(s1) && Unshared(s1)
      && Get(s1, u, p) == if u == t && i == p / ENTRIES then EMPTY else Get(s, u, p)
  {
    var d := s.tables[t].dirs[i];
    var s1 := if d == NO_TABLE then s else s.(store := s.store[d := EmptyTable()]);
    assert p / ENTRIES < ENTRIES && p % ENTRIES < ENTRIES;
    assert EmptyTable()[p % ENTRIES] == EMPTY;
    assert SameTable(s, t, i, u, p / ENTRIES) ==> u == t && i == p / ENTRIES;
    forall u: nat, d: nat, v: nat, f: nat | SameTable(s1, u, d, v, f)
      ensures u == v && d == f
    {
      assert SameTable(s, u, d, v, f);
    }
  }

  ghost predicate Emptied(s: MemState, s': MemState, t: nat)
    requires Shape(s) && Shape(s')
  {
    && t < |s.tables| == |s'.tables|
    && (forall u: nat :: u < |s.tables| ==> s'.tables[u].bound == (s.tables[u].bound && u != t))
    && forall u: nat, p: nat :: u < |s.tables| && p < PAGES ==>
         Get(s', u, p) == if u == t then EMPTY else Get(s, u, p)
  }

  lemma FreedTables(s: MemState, t: nat, s': MemState)
    requires Shape(s) && Unshared(s) && t < |s.tables| && FreeTable(s, t) == Some(s')
    ensures Shape(s') && Unshared(s') && Emptied(s, s', t) && FreeBlocks(s.map_, t) == Freed(s'.map_)
  {
    hide FreeBlocks;
    var s1 := Cleared(s, t, 0);
    assert s'.store == s1.store;
    assert Shape(s');
    forall u: nat, p: nat | u < |s.tables| && p < PAGES
      ensures Get(s', u, p) == if u == t then EMPTY else Get(s, u, p)
    {
      ClearedEntry(s, t, 0, u, p);
      assert Get(s', u, p) == Get(s1, u, p);
    }
    forall u: nat, d: nat, v: nat, f: nat | SameTable(s', u, d, v, f)
      ensures u == v && d == f
    {
      assert SameTable(s, u, d, v, f);
    }
  }

  /** The memory a freed table gives back. */
  ghost predicate GivesBack(m: Map, m': Map, t: nat, all: bool) {
    Gives(m, m', t) && (all ==> GivesAll(m, m', t)) && forall x: int :: !OwnedBy(m', t, x)
  }

  lemma DoneGivesBack(m: Map, r: FreeResult, t: nat, all: bool)
    requires Done(m, r, t, all)
    ensures r.Freed? && MapInv(r.m) && GivesBack(m, r.m, t, all)
  {
    hide MapInv, OwnedBy, Gives, GivesAll;
    forall x: int
      ensures !OwnedBy(r.m, t, x)
    {
      NoneOwned(r.m, t, x);
    }
  }

  lemma GivesBackAt(m: Map, m': Map, t: nat, u: nat, x: int)
    requires GivesBack(m, m', t, false)
    ensures OwnedBy(m', u, x) <==> u != t && OwnedBy(m, u, x)
  {
    hide OwnedBy, FreeAt;
  }

  lemma EmptiedAt(s: MemState, s': MemState, t: nat, u: nat, p: nat)
    requires Shape(s) && Shape(s') && Emptied(s, s', t)
    ensures UserAt(s', u, p) <==> u != t && UserAt(s, u, p)
    ensures UserAt(s', u, p) ==> u < |s.tables| && u < |s'.tables| && p < PAGES && Get(s', u, p) == Get(s, u, p)
  {
    hide Shape, Get;
  }

  lemma EmptyingKeepsInv(s: MemState, s': MemState, t: nat)
    requires MemInv(s) && Shape(s') && Unshared(s') && Emptied(s, s', t) && t != KERNEL_TABLE
    requires MapInv(s'.map_) && GivesBack(s.map_, s'.map_, t, false)
    ensures MemInv(s')
  {
    InvShape(s);
    hide MapInv, Unshared, Get, OwnedBy, Shape, MemInv, UserAt, InPage, GivesBack, MappedTo;
    assert UnboundEmpty(s');
    hide UnboundEmpty, Emptied;
    forall u: nat, q: nat | UserAt(s', u, q)
      ensures OwnedBy(s'.map_, u, Get(s', u, q).frame * PAGE_SIZE)
    {
      EmptiedAt(s, s', t, u, q);
      BackedAt(s, u, q);
      GivesBackAt(s.map_, s'.map_, t, u, Get(s', u, q).frame * PAGE_SIZE);
    }
    forall u: nat, q: nat, r: nat | UserAt(s', u, q) && UserAt(s', u, r) && Get(s', u, q).frame == Get(s', u, r).frame
      ensures q == r
    {
      EmptiedAt(s, s', t, u, q);
      EmptiedAt(s, s', t, u, r);
      DistinctAt(s, u, q, r);
    }
    forall u: nat, x: int | OwnedBy(s'.map_, u, x)
      ensures exists q: nat :: MappedTo(s', u, q, x)
    {
      GivesBackAt(s.map_, s'.map_, t, u, x);
      var q := ReachedAt(s, u, x);
      MappedElsewhere(s, s', t, u, q, x);
    }
    InvFromParts(s');
  }

  lemma MappedElsewhere(s: MemState, s': MemState, t: nat, u: nat, q: nat, x: int)
    requires Shape(s) && Shape(s') && Emptied(s, s', t) && u != t && MappedTo(s, u, q, x)
    ensures MappedTo(s', u, q, x)
  {
    hide Shape, Get, Emptied, UserAt;
    EmptiedAt(s, s', t, u, q);
  }

  /** Freeing a table whose merges are sound keeps the invariant and leaves the table empty and
      unbound; nobody else's memory or entries change. */
  lemma FreeKeepsInv(s: MemState, t: nat)
    requires MemInv(s) && t < |s.tables| && t != KERNEL_TABLE && Sound(s.map_, t)
    ensures FreeTable(s, t).Some?
    ensures var s' := FreeTable(s, t).value;
      MemInv(s') && Emptied(s, s', t) && GivesBack(s.map_, s'.map_, t, false)
  {
    InvShape(s);
    FreeSoundly(s.map_, t);
    DoneGivesBack(s.map_, FreeBlocks(s.map_, t), t, false);
    assert FreeTable(s, t).Some? by { hide FreeBlocks, MemInv, Cleared; }
    var s' := FreeTable(s, t).value;
    hide *;
    FreedTables(s, t, s');
    EmptyingKeepsInv(s, s', t);
  }

  lemma OwnsItsBase(m: Map, k: nat, t: nat)
    requires MapInv(m) && k < |m| && m[k].table == t != KERNEL_TABLE
    ensures OwnedBy(m, t, m[k].base)
  {
    UserBlock(m, k, t);
    TopAbove(m[k]);
  }

  lemma NothingLeft(m: Map, m': Map, t: nat)
    requires MapInv(m') && GivesBack(m, m', t, false) && t != KERNEL_TABLE
    ensures Done(m, Freed(m'), t, false)
  {
    hide MapInv, Gives, OwnedBy;
    forall k: nat | k < |m'|
      ensures !IsT(m', k, t)
    {
      if IsT(m', k, t) { OwnsItsBase(m', k, t); }
    }
  }

  /** Freeing a table goes through, keeps the invariant and gives back nothing but the table's own
      memory exactly when the merges are sound. */
  lemma FreeKeepsExactly(s: MemState, t: nat)
    requires MemInv(s) && t < |s.tables| && t != KERNEL_TABLE
    ensures (FreeTable(s, t).Some? && MemInv(FreeTable(s, t).value)
             && GivesBack(s.map_, FreeTable(s, t).value.map_, t, false))
            <==> Sound(s.map_, t)
  {
    InvShape(s);
    hide MemInv, MapInv, Sound, GivesBack, FreeBlocks, Done, Emptied, Cleared;
    if Sound(s.map_, t) {
      FreeKeepsInv(s, t);
    } else {
      FreeSoundly(s.map_, t);
      if FreeTable(s, t).Some? && MemInv(FreeTable(s, t).value)
          && GivesBack(s.map_, FreeTable(s, t).value.map_, t, false) {
        InvShape(FreeTable(s, t).value);
        NothingLeft(s.map_, FreeTable(s, t).value.map_, t);
      }
    }
  }

  /** Freeing a table returns precisely its pages to the free memory exactly when its merges are
      clean. */
  lemma FreeReturnsExactly(s: MemState, t: nat)
    requires MemInv(s) && t < |s.tables| && t != KERNEL_TABLE
    ensures (FreeTable(s, t).Some? && MapInv(FreeTable(s, t).value.map_)
             && (forall k: nat :: k < |FreeTable(s, t).value.map_| ==> FreeTable(s, t).value.map_[k].table != t)
             && Gives(s.map_, FreeTable(s, t).value.map_, t) && GivesAll(s.map_, FreeTable(s, t).value.map_, t))
            <==> Clean(s.map_, t)
  {
    InvShape(s);
    hide MemInv, MapInv, Gives, GivesAll, Cleared, Clean, FreeBlocks;
    FreeExactly(s.map_, t);
    var r := FreeBlocks(s.map_, t);
    if r.Freed? {
      assert FreeTable(s, t).Some? && FreeTable(s, t).value.map_ == r.m;
      assert (forall k: nat :: k < |r.m| ==> !IsT(r.m, k, t))
        <==> (forall k: nat :: k < |r.m| ==> r.m[k].table != t) by {
        if forall k: nat :: k < |r.m| ==> !IsT(r.m, k, t) {
          forall k: nat | k < |r.m| ensures r.m[k].table != t { assert !IsT(r.m, k, t); }
        }
      }
    }
  }
}
