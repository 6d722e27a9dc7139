/** A run from boot on after which two tables translate to one page. All of its calls are as they
    should be; one free breaks the condition on its merges. */
module SharedPage {
  import opened MemoryMap
  import opened MapFreeing
  import opened MapExamples
  import opened PageTables
  import opened MemoryRuns
  import opened FlatTables
  import opened Options

  // ----- the map on the way

  /** A machine with 7 MB. */
  function Machine(): seq<Region> {
    [Region(0, 0x9_F000, true), Region(0xF_0000, 0x1_0000, false), Region(0x10_0000, 0x60_0000, true)]
  }

  const LOW := Block(true, true, 0, 0x9_F000, 0)
  const BIOS := Block(true, true, 0xF_0000, 0x1_0000, 0)

  /** The free memory from a page on: it ends one byte short. */
  function FreeFrom(page: nat): Block {
    Block(false, false, page * PAGE_SIZE, 0x6F_FFFF - page * PAGE_SIZE, 0)
  }

  function Hole(page: nat, n: nat): Block { Block(false, false, page * PAGE_SIZE, n * PAGE_SIZE, 0) }

  function Pages(t: nat, page: nat, n: nat): Block { Block(true, false, page * PAGE_SIZE, n * PAGE_SIZE, t) }

  const TURNS: seq<nat> := [2, 1, 3, 1, 4, 2]

  function Given(): Map {
    [User(2, 0x600), User(1, 0x601), User(3, 0x602), User(1, 0x603), User(4, 0x604), User(2, 0x605)]
  }

  /** After n pages have been given out. */
  function Carved(n: nat): Map
    requires n <= 6
  {
    [LOW, BIOS] + Given()[..n] + [FreeFrom(0x600 + n)]
  }

  lemma MachineIsUsual()
    ensures UsualMachine(Machine()) && InitialMap(Machine()) == Carved(0)
  {
    var rs := Machine();
    assert |rs| == 3 && rs[0] == Region(0, 0x9_F000, true) && rs[1] == Region(0xF_0000, 0x1_0000, false)
        && rs[2] == Region(0x10_0000, 0x60_0000, true);
    assert !High(rs[0]) && !High(rs[1]) && High(rs[2]);
    assert BlockOf(rs[0]) == LOW && BlockOf(rs[1]) == BIOS && BlockOf(rs[2]) == FreeFrom(0x600);
    hide High, BlockOf;
    assert InitialMap(rs) == [LOW, BIOS, FreeFrom(0x600)];
  }

  lemma CarvedStep(n: nat)
    requires n < 6
    ensures Carve(Carved(n), TURNS[n]) == Some((Carved(n + 1), (0x600 + n) * PAGE_SIZE))
  {
    var m, t := Carved(n), TURNS[n];
    CarvedBlocks(n);
    CarveNew(m, n + 2, t);
    var c := Block(true, false, m[n + 2].base, PAGE_SIZE, t);
    assert c == Given()[n];
    assert Given()[..n + 1] == Given()[..n] + [c];
    assert Shrunk(m[n + 2]) == FreeFrom(0x600 + n + 1);
    assert m[..n + 2] == [LOW, BIOS] + Given()[..n] && m[n + 3..] == [];
    assert m[..n + 2] + [c, Shrunk(m[n + 2])] + m[n + 3..] == Carved(n + 1);
  }

  lemma CarvedBlocks(n: nat)
    requires n < 6
    ensures FirstFreeAt(Carved(n), n + 2) && Carved(n)[n + 2] == FreeFrom(0x600 + n)
    ensures Carved(n)[n + 2].limit > PAGE_SIZE && |Carved(n)| == n + 3 && Carved(n)[n + 1].table != TURNS[n]
  {
    var m := Carved(n);
    assert m[0] == LOW && m[1] == BIOS && m[n + 2] == FreeFrom(0x600 + n);
    forall k | 2 <= k < n + 2
      ensures m[k] == Given()[k - 2]
    {
    }
  }

  /** Tables 3 and 4 freed. */
  function Holed(): Map {
    [LOW, BIOS, User(2, 0x600), User(1, 0x601), Hole(0x602, 1), User(1, 0x603), Hole(0x604, 1), User(2, 0x605),
     FreeFrom(0x606)]
  }

  lemma FreeThreeAndFour()
    ensures Sound(Carved(6), 3) && FreeBlocks(Carved(6), 3) == Freed(Holed()[6 := User(4, 0x604)])
    ensures Sound(Holed()[6 := User(4, 0x604)], 4) && FreeBlocks(Holed()[6 := User(4, 0x604)], 4) == Freed(Holed())
  {
    var m, n := Carved(6), Holed()[6 := User(4, 0x604)];
    assert m == [LOW, BIOS, User(2, 0x600), User(1, 0x601), User(3, 0x602), User(1, 0x603), User(4, 0x604),
                 User(2, 0x605), FreeFrom(0x606)];
    FreeOne(m, 4, 3);
    assert Retag(m[4]) == Hole(0x602, 1) && m[4 := Hole(0x602, 1)] == n;
    FreeOne(n, 6, 4);
    assert Retag(n[6]) == Hole(0x604, 1) && n[6 := Hole(0x604, 1)] == Holed();
  }

  /** Table 1 freed: the hole at page 0x604 has grown over table 2's page 0x605. */
  function Overlapping(): Map {
    [LOW, BIOS, User(2, 0x600), Hole(0x601, 2), Hole(0x604, 2), User(2, 0x605), FreeFrom(0x606)]
  }

  lemma FreeOneOverlaps()
    ensures !Sound(Holed(), 1) && FreeBlocks(Holed(), 1) == Freed(Overlapping())
    ensures OwnedBy(Overlapping(), 2, 0x605 * PAGE_SIZE) && FreeAt(Overlapping(), 0x605 * PAGE_SIZE)
  {
    var m, o := Holed(), Overlapping();
    StartPass(m, 3, 1);
    JoinThenGrow(m, 3, At(2), 1);
    assert m[..3] == o[..3] && m[7..] == o[5..];
    assert Joined(m[3], m[4]) == o[3] && Lengthened(m[6], m[5]) == o[4];
    assert o == m[..3] + [Joined(m[3], m[4]), Lengthened(m[6], m[5])] + m[7..];
    PassOver(o, 4, At(4), 1);
    PassTo(o, 5, 7, 1);
    PassEnds(o, 7, At(6), 1);
    assert MergesUp(m, 3, 1) && IsT(m, 5, 1) && IsTagged(m, 6) && !IsPinned(m[6]);
    assert !SoundAt(m, 3, 1);
    hide FreePass, FreeBlocks;
    assert o[5].base <= 0x605 * PAGE_SIZE < Top(o[5]) && IsUser(o[5]);
    assert o[4].base <= 0x605 * PAGE_SIZE < Top(o[4]) && IsFree(o[4]);
  }

  /** Then n pages are given to table 1 again. */
  function Again(n: nat): Map
    requires n <= 4
  {
    [LOW, BIOS, User(2, 0x600)]
    + (if n == 0 then [Hole(0x601, 2), Hole(0x604, 2)]
       else if n == 1 then [Pages(1, 0x601, 1), Hole(0x602, 1), Hole(0x604, 2)]
       else if n == 2 then [Pages(1, 0x601, 2), Hole(0x604, 2)]
       else if n == 3 then [Pages(1, 0x601, 3), Hole(0x605, 1)]
       else [Pages(1, 0x601, 4)])
    + [User(2, 0x605), FreeFrom(0x606)]
  }

  const HANDED: seq<nat> := [0x601, 0x602, 0x604, 0x605]

  lemma AgainStep(n: nat)
    requires n < 4
    ensures Carve(Again(n), 1) == Some((Again(n + 1), HANDED[n] * PAGE_SIZE))
  {
    if n == 0 { FirstAgain(); } else { LaterAgain(n); }
  }

  lemma FirstAgain()
    ensures Carve(Again(0), 1) == Some((Again(1), HANDED[0] * PAGE_SIZE))
  {
    var m := Again(0);
    CarveNew(m, 3, 1);
    hide Carve;
    assert Again(1) == m[..3] + [Pages(1, 0x601, 1), Hole(0x602, 1)] + m[4..];
  }

  lemma LaterAgain(n: nat)
    requires 0 < n < 4
    ensures Carve(Again(n), 1) == Some((Again(n + 1), HANDED[n] * PAGE_SIZE))
  {
    var m := Again(n);
    CarveBehind(m, 4, 1);
    hide Carve;
    var rest := if m[4].limit <= PAGE_SIZE then [] else [Shrunk(m[4])];
    assert m[..3] + [Extended(m[3])] + rest + m[5..] == Again(n + 1);
  }

  // ----- the run

  const HEAP_PAGE: nat := 0x4_0000

  /** A call for one page, n pages above the start of the process heap. */
  function Give(t: nat, n: nat): Call { CallAllocate(t, (HEAP_PAGE + n) * PAGE_SIZE, PAGE_SIZE) }

  /** The state with exactly these user pages. */
  ghost predicate Stands(v: Flat, m: Map, bound: seq<bool>, given: map<Page, nat>) {
    && v.map_ == m && v.bound == bound
    && forall t: nat, p: nat :: t != KERNEL_TABLE ==>
         Lookup(v, t, p) == if (t, p) in given then Entry(true, given[(t, p)], true) else EMPTY
  }

  ghost predicate Trip(v: Flat, calls: seq<Call>, w: Flat) {
    FlatPermitted(v, calls) && FlatRun(v, calls) == Some(w)
  }

  lemma TripNone(v: Flat)
    ensures Trip(v, [], v)
  {
  }

  lemma {:induction false} TripMore(v: Flat, calls: seq<Call>, w: Flat, c: Call, x: Flat)
    requires Trip(v, calls, w) && FlatGuard(w, c) && FlatPerform(w, c) == Some(x)
    ensures Trip(v, calls + [c], x)
    decreases |calls|
  {
    hide FlatGuard, FlatPerform;
    if calls == [] {
      var all := calls + [c];
      assert all[0] == c && all[1..] == [];
      assert FlatPermitted(x, []) && FlatRun(x, []) == Some(x);
    } else {
      assert (calls + [c])[0] == calls[0] && (calls + [c])[1..] == calls[1..] + [c];
      TripMore(FlatPerform(v, calls[0]).value, calls[1..], w, c, x);
    }
  }

  lemma CreateNext(v: Flat, calls: seq<Call>, w: Flat, m: Map, bound: seq<bool>, given: map<Page, nat>)
    returns (x: Flat)
    requires Trip(v, calls, w) && Stands(w, m, bound, given)
    ensures Trip(v, calls + [CallCreate], x)
    ensures var t := FirstFalse(bound, 0);
      Stands(x, m, if t < |bound| then bound[t := true] else bound + [true], given)
  {
    x := FlatCreate(w);
    hide FlatRun, FlatPermitted, Trip;
    assert forall t: nat, p: nat :: Lookup(x, t, p) == Lookup(w, t, p);
    TripMore(v, calls, w, CallCreate, x);
  }

  lemma OnePage(t: nat, n: nat)
    requires n < 0x1000
    ensures InRange(Give(t, n).base, Give(t, n).limit)
    ensures FirstPage(Give(t, n).base) == HEAP_PAGE + n && PageCount(Give(t, n).base, Give(t, n).limit) == 1
  {
  }

  lemma GiveNext(v: Flat, calls: seq<Call>, w: Flat, m: Map, bound: seq<bool>, given: map<Page, nat>,
                 t: nat, n: nat, m': Map, page: nat) returns (x: Flat)
    requires Trip(v, calls, w) && Stands(w, m, bound, given) && n < 0x1000
    requires t != KERNEL_TABLE && t < |bound| && bound[t] && (t, HEAP_PAGE + n) !in given
    requires Carve(m, t) == Some((m', page * PAGE_SIZE))
    ensures Trip(v, calls + [Give(t, n)], x) && Stands(x, m', bound, given[(t, HEAP_PAGE + n) := page])
  {
    var p := HEAP_PAGE + n;
    OnePage(t, n);
    assert page * PAGE_SIZE / PAGE_SIZE == page;
    x := w.(map_ := m', pages := w.pages[(t, p) := Entry(true, page, true)]);
    hide FlatRun, FlatPermitted, Trip, Carve, FirstPage, PageCount;
    assert !Lookup(w, t, p).mapped;
    assert FlatAllocate(w, t, p, 1) == x by { assert FlatAllocate(x, t, p + 1, 0) == x; }
    assert FlatPerform(w, Give(t, n)) == Some(x) && FlatGuard(w, Give(t, n));
    TripMore(v, calls, w, Give(t, n), x);
  }

  /** What is left of the given pages when a table goes. */
  function Keep(given: map<Page, nat>, t: nat): map<Page, nat> {
    map k | k in given && k.0 != t :: given[k]
  }

  lemma FreedStands(w: Flat, m: Map, bound: seq<bool>, given: map<Page, nat>, t: nat, m': Map)
    requires Stands(w, m, bound, given) && t < |bound| && FreeBlocks(m, t) == Freed(m')
    ensures FlatPerform(w, CallFree(t)).Some?
    ensures Stands(FlatPerform(w, CallFree(t)).value, m', bound[t := false], Keep(given, t))
  {
    hide FreeBlocks;
  }

  lemma FreeNext(v: Flat, calls: seq<Call>, w: Flat, m: Map, bound: seq<bool>, given: map<Page, nat>, t: nat, m': Map)
    returns (x: Flat)
    requires Trip(v, calls, w) && Stands(w, m, bound, given) && t != KERNEL_TABLE && t < |bound| && bound[t]
    requires Sound(m, t) && FreeBlocks(m, t) == Freed(m')
    ensures Trip(v, calls + [CallFree(t)], x) && Stands(x, m', bound[t := false], Keep(given, t))
  {
    hide FlatRun, FlatPermitted, Trip, FreeBlocks, Sound, FlatPerform;
    FreedStands(w, m, bound, given, t, m');
    x := FlatPerform(w, CallFree(t)).value;
    TripMore(v, calls, w, CallFree(t), x);
  }

  function Creates(n: nat): seq<Call> { if n == 0 then [] else Creates(n - 1) + [CallCreate] }

  function AllTrue(n: nat): (b: seq<bool>)
    ensures |b| == n && forall i :: 0 <= i < n ==> b[i]
  {
    if n == 0 then [] else AllTrue(n - 1) + [true]
  }

  lemma {:induction false} NoneFalse(bound: seq<bool>, i: nat)
    requires i <= |bound| && forall k :: 0 <= k < |bound| ==> bound[k]
    ensures FirstFalse(bound, i) == |bound|
    decreases |bound| - i
  {
    if i < |bound| { NoneFalse(bound, i + 1); }
  }

  lemma {:induction false} Creating(v: Flat, m: Map, n: nat) returns (w: Flat)
    requires Stands(v, m, [true], map[])
    ensures Trip(v, Creates(n), w) && Stands(w, m, AllTrue(n + 1), map[])
  {
    hide Trip, Stands;
    if n == 0 {
      assert AllTrue(1) == [true];
      TripNone(v);
      w := v;
    } else {
      var x := Creating(v, m, n - 1);
      NoneFalse(AllTrue(n), 0);
      w := CreateNext(v, Creates(n - 1), x, m, AllTrue(n), map[]);
    }
  }

  const SECOND: seq<nat> := [0, 0, 0, 1, 0, 1]

  /** The pages given out by the first n of the six calls. */
  function GivenPages(n: nat): map<Page, nat>
    requires n <= 6
  {
    if n == 0 then map[] else GivenPages(n - 1)[(TURNS[n - 1], HEAP_PAGE + SECOND[n - 1]) := 0x600 + n - 1]
  }

  function Gives6(n: nat): seq<Call>
    requires n <= 6
  {
    if n == 0 then [] else Gives6(n - 1) + [Give(TURNS[n - 1], SECOND[n - 1])]
  }

  lemma GivenApart(n: nat)
    requires n < 6
    ensures (TURNS[n], HEAP_PAGE + SECOND[n]) !in GivenPages(n)
  {
    forall k: nat | k < n
      ensures (TURNS[k], SECOND[k]) != (TURNS[n], SECOND[n])
    {
    }
    GivenKeys(n);
  }

  lemma {:induction false} GivenKeys(n: nat)
    requires n <= 6
    ensures forall key :: key in GivenPages(n) ==>
      exists k: nat :: k < n && key == (TURNS[k], HEAP_PAGE + SECOND[k])
  {
    if n > 0 {
      GivenKeys(n - 1);
      forall key | key in GivenPages(n)
        ensures exists k: nat :: k < n && key == (TURNS[k], HEAP_PAGE + SECOND[k])
      {
        if key != (TURNS[n - 1], HEAP_PAGE + SECOND[n - 1]) { assert key in GivenPages(n - 1); }
      }
    }
  }

  lemma {:induction false} Giving(v: Flat, calls: seq<Call>, w: Flat, n: nat) returns (x: Flat)
    requires Trip(v, calls, w) && Stands(w, Carved(0), AllTrue(5), map[]) && n <= 6
    ensures Trip(v, calls + Gives6(n), x) && Stands(x, Carved(n), AllTrue(5), GivenPages(n))
  {
    hide Trip, Stands, Carved, Carve;
    if n == 0 {
      assert calls + [] == calls;
      x := w;
    } else {
      var y := Giving(v, calls, w, n - 1);
      CarvedStep(n - 1);
      GivenApart(n - 1);
      x := GiveNext(v, calls + Gives6(n - 1), y, Carved(n - 1), AllTrue(5), GivenPages(n - 1), TURNS[n - 1],
                          SECOND[n - 1],
                    Carved(n), 0x600 + n - 1);
      assert calls + Gives6(n - 1) + [Give(TURNS[n - 1], SECOND[n - 1])] == calls + Gives6(n);
    }
  }

  /** Four tables are created, tables 2, 1, 3, 1, 4 and 2 are given a page each, and tables 3 and 4
      are freed. */
  function Before(): seq<Call> { Creates(4) + Gives6(6) + [CallFree(3)] + [CallFree(4)] }

  /** A table is created and given n pages. */
  function After(n: nat): seq<Call> { if n == 0 then [CallCreate] else After(n - 1) + [Give(1, n - 1)] }

  function BoundBefore(): seq<bool> { AllTrue(5)[3 := false][4 := false] }

  function PagesBefore(): map<Page, nat> { Keep(Keep(GivenPages(6), 3), 4) }

  lemma TripBefore(v: Flat) returns (w: Flat)
    requires Stands(v, Carved(0), [true], map[])
    ensures Trip(v, Before(), w) && Stands(w, Holed(), BoundBefore(), PagesBefore())
  {
    hide Trip, Stands, Sound, FreeBlocks, Carved, Creates, Gives6, GivenPages, Keep, Retag;
    var x := Creating(v, Carved(0), 4);
    var y := Giving(v, Creates(4), x, 6);
    FreeThreeAndFour();
    var z := FreeNext(v, Creates(4) + Gives6(6), y, Carved(6), AllTrue(5), GivenPages(6), 3,
                      Holed()[6 := User(4, 0x604)]);
    w := FreeNext(v, Creates(4) + Gives6(6) + [CallFree(3)], z, Holed()[6 := User(4, 0x604)], AllTrue(5)[3 := false],
                  Keep(GivenPages(6), 3), 4, Holed());
  }

  function BoundAfter(): seq<bool> { BoundBefore()[1 := false] }

  /** The pages given out once table 1 has been freed, created again and given n pages. */
  function PagesAfter(n: nat): map<Page, nat>
    requires n <= 4
  {
    if n == 0 then Keep(PagesBefore(), 1) else PagesAfter(n - 1)[(1, HEAP_PAGE + n - 1) := HANDED[n - 1]]
  }

  lemma {:induction false} PagesAfterKeys(n: nat, k: nat)
    requires n <= 4 && n <= k
    ensures (1, HEAP_PAGE + k) !in PagesAfter(n)
  {
    if n > 0 { PagesAfterKeys(n - 1, k); }
  }

  lemma Table2Keeps(n: nat)
    requires n <= 4
    ensures (2, HEAP_PAGE + 1) in PagesAfter(n) && PagesAfter(n)[(2, HEAP_PAGE + 1)] == 0x605
  {
    if n == 0 {
      assert TURNS[5] == 2 && SECOND[5] == 1;
      assert (2, HEAP_PAGE + 1) in GivenPages(6) && GivenPages(6)[(2, HEAP_PAGE + 1)] == 0x605;
      hide GivenPages;
    } else {
      Table2Keeps(n - 1);
    }
  }

  lemma {:induction false} TripAfter(v: Flat, n: nat) returns (w: Flat)
    requires Stands(v, Overlapping(), BoundAfter(), PagesAfter(0)) && n <= 4
    ensures Trip(v, After(n), w) && Stands(w, Again(n), BoundAfter()[1 := true], PagesAfter(n))
  {
    hide Trip, Stands, Again, Carve, PagesAfter, Overlapping;
    if n == 0 {
      TripNone(v);
      assert FirstFalse(BoundAfter(), 0) == 1;
      w := CreateNext(v, [], v, Overlapping(), BoundAfter(), PagesAfter(0));
      assert Again(0) == Overlapping() by { AgainFirst(); }
      assert [] + [CallCreate] == After(0);
    } else {
      var x := TripAfter(v, n - 1);
      AgainStep(n - 1);
      PagesAfterKeys(n - 1, n - 1);
      PagesAfterMore(n);
      w := GiveNext(v, After(n - 1), x, Again(n - 1), BoundAfter()[1 := true], PagesAfter(n - 1), 1, n - 1,
                    Again(n), HANDED[n - 1]);
    }
  }

  lemma AgainFirst()
    ensures Again(0) == Overlapping()
  {
  }

  lemma PagesAfterMore(n: nat)
    requires 0 < n <= 4
    ensures PagesAfter(n) == PagesAfter(n - 1)[(1, HEAP_PAGE + n - 1) := HANDED[n - 1]]
  {
  }

  /** Freeing table 1 goes through, but not soundly. */
  lemma TripBetween(v: Flat)
    requires Stands(v, Holed(), BoundBefore(), PagesBefore())
    ensures !FlatGuard(v, CallFree(1)) && v.bound[1] && FlatPerform(v, CallFree(1)).Some?
    ensures Stands(FlatPerform(v, CallFree(1)).value, Overlapping(), BoundAfter(), PagesAfter(0))
  {
    hide FreeBlocks, Sound, Holed, Overlapping, GivenPages, Keep;
    FreeOneOverlaps();
    FreedStands(v, Holed(), BoundBefore(), PagesBefore(), 1, Overlapping());
  }

  lemma StandsAt(v: Flat, m: Map, bound: seq<bool>, given: map<Page, nat>, t: nat, p: nat)
    requires Stands(v, m, bound, given) && t != KERNEL_TABLE && (t, p) in given
    ensures Lookup(v, t, p) == Entry(true, given[(t, p)], true) && v.bound == bound
  {
  }

  lemma FlatShares(v: Flat)
    requires Stands(v, Again(4), BoundAfter()[1 := true], PagesAfter(4))
    ensures |v.bound| == 5 && Lookup(v, 1, HEAP_PAGE + 3) == Lookup(v, 2, HEAP_PAGE + 1) == Entry(true, 0x605, true)
  {
    hide Stands, PagesAfter;
    Table2Keeps(4);
    PagesAfterMore(4);
    StandsAt(v, Again(4), BoundAfter()[1 := true], PagesAfter(4), 1, HEAP_PAGE + 3);
    StandsAt(v, Again(4), BoundAfter()[1 := true], PagesAfter(4), 2, HEAP_PAGE + 1);
  }

  lemma TripRefines(s: MemState, v: Flat, calls: seq<Call>, w: Flat) returns (s': MemState)
    requires Refines(s, v) && Trip(v, calls, w)
    ensures Permitted(s, calls) && Run(s, calls) == Some(s') && Refines(s', w)
  {
    hide Refines;
    PermittedRefines(s, v, calls);
    RunRefines(s, v, calls);
    s' := Run(s, calls).value;
  }

  /** From boot on, on a machine with 7 MB, every call but one is as it should be: tables are
      created, given pages and freed. The one free whose merges are not sound goes through, and at
      the end tables 1 and 2 both translate to the page at 0x605000. */
  lemma TwoTablesShareAPage()
    ensures UsualMachine(Machine()) && Permitted(Boot(Machine()), Before()) && Run(Boot(Machine()), Before()).Some?
    ensures var s := Run(Boot(Machine()), Before()).value;
      && 1 < |s.tables| && s.tables[1].bound && !Sound(s.map_, 1) && Perform(s, CallFree(1)).Some?
      && var s1 := Perform(s, CallFree(1)).value;
      && Permitted(s1, After(4)) && Run(s1, After(4)).Some?
      && var s2 := Run(s1, After(4)).value;
      && Shape(s2) && UserAt(s2, 1, HEAP_PAGE + 3) && UserAt(s2, 2, HEAP_PAGE + 1)
      && Get(s2, 1, HEAP_PAGE + 3).frame == Get(s2, 2, HEAP_PAGE + 1).frame == 0x605
  {
    var rs := Machine();
    MachineIsUsual();
    BootRefines(rs);
    var v := FlatBoot(rs);
    assert Stands(v, Carved(0), [true], map[]);
    hide *;
    var w := TripBefore(v);
    var s := TripRefines(Boot(rs), v, Before(), w);
    TripBetween(w);
    FlatNotSound(s, w, 1);
    PerformRefines(s, w, CallFree(1));
    var s1 := Perform(s, CallFree(1)).value;
    var w1 := FlatPerform(w, CallFree(1)).value;
    var w2 := TripAfter(w1, 4);
    var s2 := TripRefines(s1, w1, After(4), w2);
    FlatShares(w2);
    SharesHere(s2, w2);
  }

  lemma FlatNotSound(s: MemState, w: Flat, t: nat)
    requires Refines(s, w) && t != KERNEL_TABLE && t < |w.bound| && w.bound[t] && !FlatGuard(w, CallFree(t))
    ensures t < |s.tables| && s.tables[t].bound && !Sound(s.map_, t)
  {
    hide Sound;
  }

  lemma SharesHere(s: MemState, w: Flat)
    requires Refines(s, w) && |w.bound| == 5
    requires Lookup(w, 1, HEAP_PAGE + 3) == Lookup(w, 2, HEAP_PAGE + 1) == Entry(true, 0x605, true)
    ensures Shape(s) && UserAt(s, 1, HEAP_PAGE + 3) && UserAt(s, 2, HEAP_PAGE + 1)
    ensures Get(s, 1, HEAP_PAGE + 3).frame == Get(s, 2, HEAP_PAGE + 1).frame == 0x605
  {
    hide Get, Shape, Unshared, KeysFit;
  }
}
