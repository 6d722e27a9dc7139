/** The page tables as what they are for: one finite map from a table and a page number to an
    entry. The two-level tables behave as this map does on every run, whatever state the map of
    the memory is in. */
module FlatTables {
  import opened MemoryMap
  import opened MapFreeing
  import opened PageTables
  import opened PageInvariant
  import opened PageRuns
  import opened MemoryRuns
  import opened Options

  type Page = (nat, nat)

  datatype Flat = Flat(map_: Map, bound: seq<bool>, pages: map<Page, Entry>)

  function Lookup(v: Flat, t: nat, p: nat): Entry {
    if (t, p) in v.pages then v.pages[(t, p)] else EMPTY
  }

  // ----- the calls on the flat map

  function FirstFalse(bound: seq<bool>, i: nat): (r: nat)
    requires i <= |bound|
    ensures i <= r <= |bound|
    decreases |bound| - i
  {
    if i < |bound| && bound[i] then FirstFalse(bound, i + 1) else i
  }

  function FlatCreate(v: Flat): Flat {
    var t := FirstFalse(v.bound, 0);
    v.(bound := if t < |v.bound| then v.bound[t := true] else v.bound + [true])
  }

  function FlatAllocate(v: Flat, t: nat, p: nat, n: nat): Flat
    decreases n
  {
    if n == 0 then v
    else
      var v1 := if Lookup(v, t, p).mapped then v
        else match Carve(v.map_, t)
          case None => v
          case Some((m, a)) => v.(map_ := m, pages := v.pages[(t, p) := Entry(true, a / PAGE_SIZE, true)]);
      FlatAllocate(v1, t, p + 1, n - 1)
  }

  function FlatIdentity(v: Flat, t: nat, p: nat, n: nat, frame: nat): Flat
    decreases n
  {
    if n == 0 then v
    else if Lookup(v, t, p).mapped then FlatIdentity(v, t, p + 1, n - 1, frame)
    else FlatIdentity(v.(pages := v.pages[(t, p) := Entry(true, frame, false)]), t, p + 1, n - 1, frame + 1)
  }

  function Without(pages: map<Page, Entry>, t: nat): map<Page, Entry> {
    map k | k in pages && k.0 != t :: pages[k]
  }

  function FlatPerform(v: Flat, c: Call): Option<Flat> {
    match c
    case CallCreate => Some(FlatCreate(v))
    case CallAllocate(t, base, limit) =>
      if t < |v.bound| && InRange(base, limit) then Some(FlatAllocate(v, t, FirstPage(base), PageCount(base, limit)))
      else None
    case CallIdentity(t, base, limit) =>
      if t < |v.bound| && InRange(base, limit) then
        Some(FlatIdentity(v, t, FirstPage(base), PageCount(base, limit), FirstPage(base)))
      else None
    case CallFree(t) =>
      if t < |v.bound| then
        match FreeBlocks(v.map_, t)
        case Fault => None
        case Freed(m) => Some(Flat(m, v.bound[t := false], Without(v.pages, t)))
      else None
  }

  function FlatRun(v: Flat, calls: seq<Call>): Option<Flat>
    decreases |calls|
  {
    if calls == [] then Some(v)
    else match FlatPerform(v, calls[0])
      case None => None
      case Some(v1) => FlatRun(v1, calls[1..])
  }

  // ----- the refinement

  ghost predicate KeysFit(v: Flat) {
    forall k :: k in v.pages ==> k.0 < |v.bound| && k.1 < PAGES && v.pages[k].mapped
  }

  /** The two-level tables of s translate as v says. */
  ghost predicate Refines(s: MemState, v: Flat) {
    && Shape(s) && Unshared(s) && KeysFit(v) && s.map_ == v.map_ && |s.tables| == |v.bound|
    && (forall t: nat :: t < |v.bound| ==> s.tables[t].bound == v.bound[t])
    && forall t: nat, p: nat :: t < |v.bound| && p < PAGES ==> Get(s, t, p) == Lookup(v, t, p)
  }

  lemma FirstsAgree(tables: seq<Table>, bound: seq<bool>, i: nat)
    requires |tables| == |bound| && i <= |bound| && forall t: nat :: t < |bound| ==> tables[t].bound == bound[t]
    ensures FirstUnbound(tables, i) == FirstFalse(bound, i)
    decreases |bound| - i
  {
    if i < |bound| && bound[i] { FirstsAgree(tables, bound, i + 1); }
  }

  lemma CreateRefines(s: MemState, v: Flat)
    requires Refines(s, v)
    ensures Refines(CreateTable(s).0, FlatCreate(v))
  {
    FirstsAgree(s.tables, v.bound, 0);
    CreatedEntries(s, 0, 0);
    CreatedUnshared(s);
    var s', v' := CreateTable(s).0, FlatCreate(v);
    assert |s'.tables| == |v'.bound| && s'.map_ == s.map_ && Lookup(v', 0, 0) == Lookup(v, 0, 0);
    assert forall t: nat :: t < |v'.bound| ==> s'.tables[t].bound == v'.bound[t];
    assert |v'.bound| >= |v.bound| && |v'.bound| <= |v.bound| + 1;
    hide Get, Shape, Unshared, CreateTable, FlatCreate;
    forall t: nat, p: nat | t < |v'.bound| && p < PAGES
      ensures Get(s', t, p) == Lookup(v', t, p)
    {
      CreatedEntries(s, t, p);
    }
  }

  lemma EnsureRefines(s: MemState, v: Flat, t: nat, d: nat)
    requires Refines(s, v) && t < |s.tables| && d < ENTRIES
    ensures Refines(EnsureTable(s, t, d), v)
  {
    EnsuredUnshared(s, t, d);
    EnsuredTranslates(s, t, d);
    hide EnsureTable, Get, Unshared, Shape, KeysFit, Lookup;
  }

  lemma PutRefines(s: MemState, v: Flat, t: nat, p: nat, e: Entry, m: Map)
    requires Refines(s, v) && t < |s.tables| && p < PAGES && s.tables[t].dirs[p / ENTRIES] != NO_TABLE && e.mapped
    ensures Refines(PutEntry(s.(map_ := m), t, p, e), v.(map_ := m, pages := v.pages[(t, p) := e]))
  {
    NewMap(s, m);
    var r := s.(map_ := m);
    PutChanges(r, t, p, e);
    ChangedFrom(s, m, PutEntry(r, t, p, e), t, p, e);
    hide PutEntry, Get, Unshared, Shape;
  }

  lemma FillRefines(s: MemState, v: Flat, t: nat, p: nat)
    requires Refines(s, v) && t < |s.tables| && p < PAGES
    ensures Refines(AllocatePage(s, t, p), FlatAllocate(v, t, p, 1))
  {
    AllocatePageIs(s, t, p);
    var s1 := EnsureTable(s, t, p / ENTRIES);
    EnsureRefines(s, v, t, p / ENTRIES);
    hide EnsureTable, Get, Unshared, Shape, KeysFit, Carve, PutEntry, AllocatePage;
    if !Get(s1, t, p).mapped && Carve(s.map_, t).Some? {
      var (m, a) := Carve(s.map_, t).value;
      PutRefines(s1, v, t, p, Entry(true, a / PAGE_SIZE, true), m);
    }
  }

  lemma FlatAllocateMore(v: Flat, t: nat, p: nat, n: nat)
    requires n > 0
    ensures FlatAllocate(v, t, p, n) == FlatAllocate(FlatAllocate(v, t, p, 1), t, p + 1, n - 1)
  {
  }

  lemma RefinesBound(s: MemState, v: Flat)
    requires Refines(s, v)
    ensures Shape(s) && |s.tables| == |v.bound| && s.map_ == v.map_
  {
  }

  lemma {:induction false} AllocateRefines(s: MemState, v: Flat, t: nat, p: nat, n: nat)
    requires Refines(s, v) && t < |s.tables| && p + n <= PAGES && Shape(s)
    ensures Refines(AllocatePages(s, t, p, n), FlatAllocate(v, t, p, n))
    decreases n
  {
    hide Refines, Shape, FlatAllocate;
    if n == 0 {
      AllocatePagesNone(s, t, p);
      assert FlatAllocate(v, t, p, 0) == v by { FlatNone(v, t, p); }
    } else {
      AllocatePagesMore(s, t, p, n);
      FlatAllocateMore(v, t, p, n);
      FillRefines(s, v, t, p);
      AllocateRefines(AllocatePage(s, t, p), FlatAllocate(v, t, p, 1), t, p + 1, n - 1);
    }
  }

  lemma FlatNone(v: Flat, t: nat, p: nat)
    ensures FlatAllocate(v, t, p, 0) == v
  {
  }

  lemma IdentityPageRefines(s: MemState, v: Flat, t: nat, p: nat, frame: nat)
    requires Refines(s, v) && t < |s.tables| && p < PAGES
    ensures var (s1, next) := IdentityPage(s, t, p, frame);
      if Lookup(v, t, p).mapped then next == frame && Refines(s1, v)
      else next == frame + 1 && Refines(s1, v.(pages := v.pages[(t, p) := Entry(true, frame, false)]))
  {
    var s1 := EnsureTable(s, t, p / ENTRIES);
    EnsureRefines(s, v, t, p / ENTRIES);
    assert IdentityPage(s, t, p, frame) ==
      if Get(s1, t, p).mapped then (s1, frame) else (PutEntry(s1, t, p, Entry(true, frame, false)), frame + 1);
    hide EnsureTable, Get, Unshared, Shape, KeysFit, PutEntry, IdentityPage;
    if !Get(s1, t, p).mapped {
      PutRefines(s1, v, t, p, Entry(true, frame, false), s1.map_);
      assert s1.(map_ := s1.map_) == s1 && v.(map_ := s1.map_) == v;
    }
  }

  lemma FlatIdentityMore(v: Flat, t: nat, p: nat, n: nat, frame: nat)
    requires n > 0
    ensures FlatIdentity(v, t, p, n, frame) ==
      if Lookup(v, t, p).mapped then FlatIdentity(v, t, p + 1, n - 1, frame)
      else FlatIdentity(v.(pages := v.pages[(t, p) := Entry(true, frame, false)]), t, p + 1, n - 1, frame + 1)
  {
  }

  /** One page of an identity mapping, on both sides. */
  lemma IdentityStep(s: MemState, v: Flat, t: nat, p: nat, n: nat, frame: nat)
    returns (s1: MemState, v1: Flat, next: nat)
    requires Refines(s, v) && t < |s.tables| && 0 < n && p + n <= PAGES && Shape(s)
    ensures Refines(s1, v1) && Shape(s1) && |s1.tables| == |s.tables|
    ensures IdentityPages(s, t, p, n, frame) == IdentityPages(s1, t, p + 1, n - 1, next)
    ensures FlatIdentity(v, t, p, n, frame) == FlatIdentity(v1, t, p + 1, n - 1, next)
  {
    hide *;
    IdentityMore(s, t, p, n, frame);
    FlatIdentityMore(v, t, p, n, frame);
    IdentityPageRefines(s, v, t, p, frame);
    s1, next := IdentityPage(s, t, p, frame).0, IdentityPage(s, t, p, frame).1;
    v1 := if Lookup(v, t, p).mapped then v else v.(pages := v.pages[(t, p) := Entry(true, frame, false)]);
  }

  lemma {:induction false} IdentityRefines(s: MemState, v: Flat, t: nat, p: nat, n: nat, frame: nat)
    requires Refines(s, v) && t < |s.tables| && p + n <= PAGES && Shape(s)
    ensures Refines(IdentityPages(s, t, p, n, frame), FlatIdentity(v, t, p, n, frame))
    decreases n
  {
    if n > 0 {
      hide *;
      var s1, v1, next := IdentityStep(s, v, t, p, n, frame);
      IdentityRefines(s1, v1, t, p + 1, n - 1, next);
    }
  }

  lemma FreeRefines(s: MemState, v: Flat, t: nat)
    requires Refines(s, v) && t < |s.tables|
    ensures FreeTable(s, t).Some? <==> FreeBlocks(v.map_, t).Freed?
    ensures FreeTable(s, t).Some? ==>
      Refines(FreeTable(s, t).value, Flat(FreeBlocks(v.map_, t).m, v.bound[t := false], Without(v.pages, t)))
  {
    assert FreeTable(s, t).Some? <==> FreeBlocks(v.map_, t).Freed? by {
      hide FreeBlocks, Cleared, Shape, Unshared, Get; }
    if FreeTable(s, t).Some? {
      hide FreeTable, FreeBlocks, Get, Shape, Unshared;
      FreedTables(s, t, FreeTable(s, t).value);
    }
  }

  /** One call does to the two-level tables what it does to the flat map. */
  lemma PerformRefines(s: MemState, v: Flat, c: Call)
    requires Refines(s, v)
    ensures Perform(s, c).Some? <==> FlatPerform(v, c).Some?
    ensures Perform(s, c).Some? ==> Refines(Perform(s, c).value, FlatPerform(v, c).value)
  {
    RefinesBound(s, v);
    hide Refines, Shape, CreateTable, FlatCreate, FlatAllocate, FlatIdentity, FreeTable, FreeBlocks, PageCount,
      FirstPage;
    match c
    case CallCreate => CreateRefines(s, v);
    case CallAllocate(t, base, limit) =>
      if t < |s.tables| && InRange(base, limit) {
        RangeFits(base, limit);
        AllocateRefines(s, v, t, FirstPage(base), PageCount(base, limit));
      }
    case CallIdentity(t, base, limit) =>
      if t < |s.tables| && InRange(base, limit) {
        RangeFits(base, limit);
        IdentityRefines(s, v, t, FirstPage(base), PageCount(base, limit), FirstPage(base));
      }
    case CallFree(t) =>
      if t < |s.tables| { FreeRefines(s, v, t); }
  }

  /** Whole runs: the two-level tables go through a run exactly when the flat map does, and then
      translate as it says. */
  lemma {:induction false} RunRefines(s: MemState, v: Flat, calls: seq<Call>)
    requires Refines(s, v)
    ensures Run(s, calls).Some? <==> FlatRun(v, calls).Some?
    ensures Run(s, calls).Some? ==> Refines(Run(s, calls).value, FlatRun(v, calls).value)
    decreases |calls|
  {
    hide Refines, Perform, FlatPerform;
    if calls != [] {
      PerformRefines(s, v, calls[0]);
      if Perform(s, calls[0]).Some? {
        RunRefines(Perform(s, calls[0]).value, FlatPerform(v, calls[0]).value, calls[1..]);
      }
    }
  }

  // ----- what a caller must see to, on the flat map

  ghost predicate FlatGuard(v: Flat, c: Call) {
    match c
    case CallCreate => true
    case CallAllocate(t, base, limit) => t != KERNEL_TABLE && t < |v.bound| && v.bound[t] && InRange(base, limit)
    case CallIdentity(t, base, limit) => t < |v.bound| && v.bound[t] && InRange(base, limit)
    case CallFree(t) => t != KERNEL_TABLE && t < |v.bound| && v.bound[t] && Sound(v.map_, t)
  }

  ghost predicate FlatPermitted(v: Flat, calls: seq<Call>)
    decreases |calls|
  {
    calls != [] ==>
      FlatGuard(v, calls[0])
      && (FlatPerform(v, calls[0]).Some? ==> FlatPermitted(FlatPerform(v, calls[0]).value, calls[1..]))
  }

  lemma GuardRefines(s: MemState, v: Flat, c: Call)
    requires Refines(s, v)
    ensures Guard(s, c) <==> FlatGuard(v, c)
  {
    hide Sound, Shape, Unshared, Get, KeysFit;
  }

  lemma {:induction false} PermittedRefines(s: MemState, v: Flat, calls: seq<Call>)
    requires Refines(s, v)
    ensures Permitted(s, calls) <==> FlatPermitted(v, calls)
    decreases |calls|
  {
    hide Refines, Perform, FlatPerform, Guard, FlatGuard;
    if calls != [] {
      PerformRefines(s, v, calls[0]);
      GuardRefines(s, v, calls[0]);
      if Perform(s, calls[0]).Some? {
        PermittedRefines(Perform(s, calls[0]).value, FlatPerform(v, calls[0]).value, calls[1..]);
      }
    }
  }

  // ----- the flat map at boot

  lemma {:induction false} IdentityLeaves(v: Flat, t: nat, p: nat, n: nat, frame: nat)
    ensures var v' := FlatIdentity(v, t, p, n, frame);
      v'.map_ == v.map_ && v'.bound == v.bound
      && forall u: nat, q: nat :: u != t ==> Lookup(v', u, q) == Lookup(v, u, q)
    decreases n
  {
    if n > 0 {
      hide FlatIdentity;
      FlatIdentityMore(v, t, p, n, frame);
      var v1 := v.(pages := v.pages[(t, p) := Entry(true, frame, false)]);
      IdentityLeaves(v, t, p + 1, n - 1, frame);
      IdentityLeaves(v1, t, p + 1, n - 1, frame + 1);
    } else {
      assert FlatIdentity(v, t, p, 0, frame) == v;
    }
  }

  function FlatBoot(rs: seq<Region>): Flat {
    FlatIdentity(Flat(InitialMap(rs), [true], map[]), KERNEL_TABLE, FirstPage(0), PageCount(0, MAPPED_AT_BOOT),
                     FirstPage(0))
  }

  lemma BootRefines(rs: seq<Region>)
    ensures Refines(Boot(rs), FlatBoot(rs))
    ensures FlatBoot(rs).map_ == InitialMap(rs) && FlatBoot(rs).bound == [true]
    ensures forall t: nat, p: nat :: t != KERNEL_TABLE ==> Lookup(FlatBoot(rs), t, p) == EMPTY
  {
    var s, v := FirstTable(rs), Flat(InitialMap(rs), [true], map[]);
    FirstTableRefines(rs);
    RefinesBound(s, v);
    assert InRange(0, MAPPED_AT_BOOT) && |s.tables| == 1;
    RangeFits(0, MAPPED_AT_BOOT);
    assert Boot(rs) == IdentityPages(s, KERNEL_TABLE, FirstPage(0), PageCount(0, MAPPED_AT_BOOT), FirstPage(0));
    assert forall t: nat, p: nat :: Lookup(v, t, p) == EMPTY;
    assert FlatBoot(rs) == FlatIdentity(v, KERNEL_TABLE, FirstPage(0), PageCount(0, MAPPED_AT_BOOT), FirstPage(0));
    hide *;
    IdentityRefines(s, v, KERNEL_TABLE, FirstPage(0), PageCount(0, MAPPED_AT_BOOT), FirstPage(0));
    IdentityLeaves(v, KERNEL_TABLE, FirstPage(0), PageCount(0, MAPPED_AT_BOOT), FirstPage(0));
  }

  lemma FirstTableRefines(rs: seq<Region>)
    ensures Refines(FirstTable(rs), Flat(InitialMap(rs), [true], map[]))
  {
    FirstTableMapsNothing(rs);
    assert ShapedDirectory(seq(ENTRIES, _ => NO_TABLE), 0);
    assert forall p: nat :: p < PAGES ==> p / ENTRIES < ENTRIES;
  }
}
