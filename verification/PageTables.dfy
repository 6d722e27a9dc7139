/** Two-level page tables over the map of physical memory: creating a table, giving it memory
    page by page, mapping kernel memory at its own address, and freeing it. */
module PageTables {
  import opened MemoryMap
  import opened MapFreeing
  import opened Options

  const ENTRIES: nat := 1024
  const PAGES: nat := ENTRIES * ENTRIES

  datatype Entry = Entry(mapped: bool, frame: nat, user: bool)

  const EMPTY := Entry(false, 0, false)
  const NO_TABLE: int := -1

  type Directory = seq<int>

  datatype Table = Table(bound: bool, dirs: Directory)

  /** Every second-level table ever made is in store; a directory entry is an index into it. */
  datatype MemState = MemState(map_: Map, tables: seq<Table>, store: seq<seq<Entry>>)

  predicate ShapedDirectory(dirs: Directory, n: nat) {
    |dirs| == ENTRIES && forall d: nat :: d < ENTRIES ==> NO_TABLE <= dirs[d] < n
  }

  predicate Shape(s: MemState) {
    && (forall t: nat :: t < |s.tables| ==> ShapedDirectory(s.tables[t].dirs, |s.store|))
    && (forall k: nat :: k < |s.store| ==> |s.store[k]| == ENTRIES)
  }

  /** The entry that translates page p of table t. */
  function Get(s: MemState, t: nat, p: nat): Entry
    requires Shape(s) && t < |s.tables| && p < PAGES
  {
    var d := s.tables[t].dirs[p / ENTRIES];
    if d == NO_TABLE then EMPTY else s.store[d][p % ENTRIES]
  }

  predicate UserAt(s: MemState, t: nat, p: nat)
    requires Shape(s)
  {
    t < |s.tables| && p < PAGES && Get(s, t, p).mapped && Get(s, t, p).user
  }

  // ----- the steps

  function EmptyTable(): seq<Entry> { seq(ENTRIES, _ => EMPTY) }

  function FirstUnbound(tables: seq<Table>, i: nat): (r: nat)
    requires i <= |tables|
    ensures i <= r <= |tables| && (r < |tables| ==> !tables[r].bound)
    ensures forall k :: i <= k < r ==> tables[k].bound
    decreases |tables| - i
  {
    if i < |tables| && tables[i].bound then FirstUnbound(tables, i + 1) else i
  }

  /** The first unbound table is taken as it is; only a new one gets an empty directory. */
  function CreateTable(s: MemState): (r: (MemState, nat))
    ensures r.1 < |r.0.tables| && (Shape(s) ==> Shape(r.0))
  {
    var t := FirstUnbound(s.tables, 0);
    assert ShapedDirectory(seq(ENTRIES, _ => NO_TABLE), |s.store|);
    if t < |s.tables| then (s.(tables := s.tables[t := s.tables[t].(bound := true)]), t)
    else (s.(tables := s.tables + [Table(true, seq(ENTRIES, _ => NO_TABLE))]), t)
  }

  /** A directory entry without a second-level table gets an empty one. */
  function EnsureTable(s: MemState, t: nat, d: nat): (s': MemState)
    requires Shape(s) && t < |s.tables| && d < ENTRIES
    ensures Shape(s') && |s'.tables| == |s.tables| && s'.tables[t].dirs[d] != NO_TABLE
  {
    if s.tables[t].dirs[d] != NO_TABLE then s
    else
      var table := s.tables[t].(dirs := s.tables[t].dirs[d := |s.store|]);
      s.(tables := s.tables[t := table], store := s.store + [EmptyTable()])
  }

  function PutEntry(s: MemState, t: nat, p: nat, e: Entry): (s': MemState)
    requires Shape(s) && t < |s.tables| && p < PAGES && s.tables[t].dirs[p / ENTRIES] != NO_TABLE
    ensures Shape(s') && s'.tables == s.tables && |s'.store| == |s.store|
  {
    var d := s.tables[t].dirs[p / ENTRIES];
    s.(store := s.store[d := s.store[d][p % ENTRIES := e]])
  }

  /** An unmapped page gets a carved one, if there is any left. */
  function FillPage(s: MemState, t: nat, p: nat): (s': MemState)
    requires Shape(s) && t < |s.tables| && p < PAGES && s.tables[t].dirs[p / ENTRIES] != NO_TABLE
    ensures Shape(s') && s'.tables == s.tables && |s'.store| == |s.store|
  {
    if Get(s, t, p).mapped then s
    else match Carve(s.map_, t)
      case None => s
      case Some((m, a)) => PutEntry(s.(map_ := m), t, p, Entry(true, a / PAGE_SIZE, true))
  }

  function AllocatePage(s: MemState, t: nat, p: nat): (s': MemState)
    requires Shape(s) && t < |s.tables| && p < PAGES
    ensures Shape(s') && |s'.tables| == |s.tables|
  {
    FillPage(EnsureTable(s, t, p / ENTRIES), t, p)
  }

  /** n pages from p on, in order. */
  function AllocatePages(s: MemState, t: nat, p: nat, n: nat): (s': MemState)
    requires Shape(s) && t < |s.tables| && p + n <= PAGES
    ensures Shape(s') && |s'.tables| == |s.tables|
    decreases n
  {
    if n == 0 then s else AllocatePages(AllocatePage(s, t, p), t, p + 1, n - 1)
  }

  /** An unmapped page is mapped to the given frame, and the next frame is used next. */
  function IdentityPage(s: MemState, t: nat, p: nat, frame: nat): ((MemState, nat))
    requires Shape(s) && t < |s.tables| && p < PAGES
    ensures Shape(IdentityPage(s, t, p, frame).0) && |IdentityPage(s, t, p, frame).0.tables| == |s.tables|
  {
    var s1 := EnsureTable(s, t, p / ENTRIES);
    if Get(s1, t, p).mapped then (s1, frame)
    else (PutEntry(s1, t, p, Entry(true, frame, false)), frame + 1)
  }

  function IdentityPages(s: MemState, t: nat, p: nat, n: nat, frame: nat): (s': MemState)
    requires Shape(s) && t < |s.tables| && p + n <= PAGES
    ensures Shape(s') && |s'.tables| == |s.tables|
    decreases n
  {
    if n == 0 then s
    else
      var (s1, next) := IdentityPage(s, t, p, frame);
      IdentityPages(s1, t, p + 1, n - 1, next)
  }

  /** The second-level tables of directory entries i and up are emptied. */
  function Cleared(s: MemState, t: nat, i: nat): (s': MemState)
    requires Shape(s) && t < |s.tables| && i <= ENTRIES
    ensures Shape(s') && s'.tables == s.tables && s'.map_ == s.map_ && |s'.store| == |s.store|
    decreases ENTRIES - i
  {
    if i == ENTRIES then s
    else
      var d := s.tables[t].dirs[i];
      Cleared(if d == NO_TABLE then s else s.(store := s.store[d := EmptyTable()]), t, i + 1)
  }

  /** The result when the pass over the map looks through a null list node is None. */
  function FreeTable(s: MemState, t: nat): Option<MemState>
    requires Shape(s) && t < |s.tables|
  {
    match FreeBlocks(s.map_, t)
    case Fault => None
    case Freed(m) =>
      var s1 := Cleared(s, t, 0);
      Some(s1.(map_ := m, tables := s1.tables[t := s1.tables[t].(bound := false)]))
  }

  // ----- which pages a byte range covers

  /** The first page of a range, and how many pages it covers; a range of no bytes covers one. */
  function FirstPage(base: nat): nat { base / PAGE_SIZE }

  function PageCount(base: nat, limit: nat): (n: nat)
    ensures n >= 1
  {
    (base + (if limit == 0 then 1 else limit) - 1) / PAGE_SIZE - base / PAGE_SIZE + 1
  }

  predicate InRange(base: nat, limit: nat) {
    base < 0x8000_0000 && base + limit <= 0x8000_0000
  }

  lemma RangeFits(base: nat, limit: nat)
    requires InRange(base, limit)
    ensures FirstPage(base) + PageCount(base, limit) <= PAGES
  {
  }

  predicate OnPage(q: nat, x: nat) { x / PAGE_SIZE == q }

  /** These are just the pages that a byte of the range lies on. */
  lemma RangePages(base: nat, limit: nat, q: nat)
    ensures FirstPage(base) <= q < FirstPage(base) + PageCount(base, limit) <==>
      exists x: nat :: base <= x < base + (if limit == 0 then 1 else limit) && OnPage(q, x)
  {
    var last := base + (if limit == 0 then 1 else limit) - 1;
    if FirstPage(base) <= q < FirstPage(base) + PageCount(base, limit) {
      var x := if q == FirstPage(base) then base else q * PAGE_SIZE;
      assert x / PAGE_SIZE == q && base <= x <= last && OnPage(q, x);
    }
    forall x: nat | base <= x <= last && OnPage(q, x)
      ensures FirstPage(base) <= q < FirstPage(base) + PageCount(base, limit)
    {
      Monotone(base, x);
      Monotone(x, last);
    }
  }

  lemma Monotone(a: nat, b: nat)
    requires a <= b
    ensures a / PAGE_SIZE <= b / PAGE_SIZE
  {
  }

  function Allocate(s: MemState, t: nat, base: nat, limit: nat): (s': MemState)
    requires Shape(s) && t < |s.tables| && InRange(base, limit)
    ensures Shape(s') && |s'.tables| == |s.tables|
  {
    RangeFits(base, limit);
    AllocatePages(s, t, FirstPage(base), PageCount(base, limit))
  }

  function Identity(s: MemState, t: nat, base: nat, limit: nat): (s': MemState)
    requires Shape(s) && t < |s.tables| && InRange(base, limit)
    ensures Shape(s') && |s'.tables| == |s.tables|
  {
    RangeFits(base, limit);
    IdentityPages(s, t, FirstPage(base), PageCount(base, limit), FirstPage(base))
  }

  // ----- what every step keeps

  ghost predicate SameTable(s: MemState, t: nat, d: nat, u: nat, e: nat)
    requires Shape(s)
  {
    && t < |s.tables| && d < ENTRIES && u < |s.tables| && e < ENTRIES
    && s.tables[t].dirs[d] == s.tables[u].dirs[e] != NO_TABLE
  }

  /** No second-level table serves two directory entries. */
  ghost predicate Unshared(s: MemState)
    requires Shape(s)
  {
    forall t: nat, d: nat, u: nat, e: nat ::
      SameTable(s, t, d, u, e) ==> t == u && d == e
  }

  /** An unbound table maps nothing, and the kernel's table is bound. */
  ghost predicate UnboundEmpty(s: MemState)
    requires Shape(s)
  {
    && |s.tables| > 0 && s.tables[KERNEL_TABLE].bound
    && forall t: nat, p: nat :: t < |s.tables| && !s.tables[t].bound && p < PAGES ==> !Get(s, t, p).mapped
  }

  /** Every user entry translates to a page that belongs to its table. */
  ghost predicate Backed(s: MemState)
    requires Shape(s)
  {
    forall t: nat, p: nat :: UserAt(s, t, p) ==> OwnedBy(s.map_, t, Get(s, t, p).frame * PAGE_SIZE)
  }

  /** No two user entries of one table translate to the same page. */
  ghost predicate Distinct(s: MemState)
    requires Shape(s)
  {
    forall t: nat, p: nat, q: nat ::
      UserAt(s, t, p) && UserAt(s, t, q) && Get(s, t, p).frame == Get(s, t, q).frame ==> p == q
  }

  ghost predicate MappedTo(s: MemState, t: nat, p: nat, x: int)
    requires Shape(s)
  {
    UserAt(s, t, p) && InPage(Get(s, t, p).frame * PAGE_SIZE, x)
  }

  /** All of a table's memory is translated to by one of its entries. */
  ghost predicate Reached(s: MemState)
    requires Shape(s)
  {
    forall t: nat, x: int :: OwnedBy(s.map_, t, x) ==> exists p: nat :: MappedTo(s, t, p, x)
  }

  ghost predicate MemInv(s: MemState) {
    && MapInv(s.map_) && Shape(s) && Unshared(s) && UnboundEmpty(s)
    && Backed(s) && Distinct(s) && Reached(s)
  }

  // ----- entries after each step

  lemma GetEnsured(s: MemState, t: nat, d: nat, u: nat, p: nat)
    requires Shape(s) && t < |s.tables| && d < ENTRIES && u < |s.tables| && p < PAGES
    ensures Get(EnsureTable(s, t, d), u, p) == Get(s, u, p)
    ensures EnsureTable(s, t, d).map_ == s.map_ && EnsureTable(s, t, d).tables[u].bound == s.tables[u].bound
  {
    assert p / ENTRIES < ENTRIES && p % ENTRIES < ENTRIES;
    assert EmptyTable()[p % ENTRIES] == EMPTY;
  }

  lemma EnsuredUnshared(s: MemState, t: nat, d: nat)
    requires Shape(s) && Unshared(s) && t < |s.tables| && d < ENTRIES
    ensures Unshared(EnsureTable(s, t, d))
  {
    var s' := EnsureTable(s, t, d);
    forall u: nat, e: nat, v: nat, f: nat | SameTable(s', u, e, v, f)
      ensures u == v && e == f
    {
      assert !(u == t && e == d) && !(v == t && f == d) ==> SameTable(s, u, e, v, f);
    }
  }

  lemma GetPut(s: MemState, t: nat, p: nat, e: Entry, u: nat, q: nat)
    requires Shape(s) && Unshared(s) && t < |s.tables| && p < PAGES && s.tables[t].dirs[p / ENTRIES] != NO_TABLE
    requires u < |s.tables| && q < PAGES
    ensures Get(PutEntry(s, t, p, e), u, q) == if u == t && q == p then e else Get(s, u, q)
  {
    assert p / ENTRIES < ENTRIES && q / ENTRIES < ENTRIES;
    assert p / ENTRIES == q / ENTRIES && p % ENTRIES == q % ENTRIES ==> p == q;
    assert SameTable(s, t, p / ENTRIES, u, q / ENTRIES) ==> t == u && p / ENTRIES == q / ENTRIES;
  }

  /** s' translates as s does. */
  ghost predicate SameTranslation(s: MemState, s': MemState)
    requires Shape(s) && Shape(s')
  {
    && |s'.tables| == |s.tables| && s'.map_ == s.map_
    && (forall u: nat :: u < |s.tables| ==> s'.tables[u].bound == s.tables[u].bound)
    && (forall u: nat, p: nat :: u < |s.tables| && p < PAGES ==> Get(s', u, p) == Get(s, u, p))
  }

  /** Only page p of table t translates differently. */
  ghost predicate Changed(s: MemState, s': MemState, t: nat, p: nat, e: Entry)
    requires Shape(s) && Shape(s')
  {
    && |s'.tables| == |s.tables| && t < |s.tables| && p < PAGES
    && (forall u: nat :: u < |s.tables| ==> s'.tables[u].bound == s.tables[u].bound)
    && (forall u: nat, q: nat :: u < |s.tables| && q < PAGES ==>
          Get(s', u, q) == if u == t && q == p then e else Get(s, u, q))
  }
}
