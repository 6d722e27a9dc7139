/** Giving a page table's memory back: the one pass over the map that merges each of its
    blocks into a neighbour tagged with the kernel's page table, or retags it.  The pass takes
    that tag for "free", which pinned blocks carry too, and after a merge into the next block
    it looks at the wrong predecessor. */
module MapFreeing {
  import opened MemoryMap

  /** The predecessor the pass remembers: none yet, a block of the map, or what is read
      through a null list node. */
  datatype Prev = NoPrev | At(k: nat) | Garbage

  datatype FreeResult = Fault | Freed(m: Map)

  predicate Tagged(b: Block) { b.table == KERNEL_TABLE }

  predicate ToFree(b: Block, t: nat) { b.table == t && Signed(b.base) > 0x10_0000 }

  function Retag(b: Block): Block { b.(bound := false, table := KERNEL_TABLE) }

  function Lengthened(b: Block, c: Block): Block { b.(limit := b.limit + c.limit) }

  /** Block i merged up into the block after it. */
  function Joined(c: Block, next: Block): Block { next.(limit := next.limit + c.limit, base := c.base) }

  function AfterRemoval(prev: Prev, i: nat): Prev {
    if prev.At? && prev.k > i then At(prev.k - 1) else prev
  }

  /** The pass from block i on. */
  function FreePass(m: Map, i: nat, prev: Prev, t: nat): FreeResult
    decreases |m| - i
  {
    if i >= |m| then Freed(m)
    else if !ToFree(m[i], t) then FreePass(m, i + 1, At(i), t)
    else if prev.Garbage? || (prev.At? && prev.k >= |m|) then Fault
    else if prev.At? && Tagged(m[prev.k]) then
      FreePass(Removed(m[prev.k := Lengthened(m[prev.k], m[i])], i), i, AfterRemoval(prev, i), t)
    else if i + 1 < |m| && Tagged(m[i + 1]) then
      var m' := Removed(m[i + 1 := Joined(m[i], m[i + 1])], i);
      if i + 1 >= |m'| then Fault
      else FreePass(m', i + 1, if i + 2 < |m'| then At(i + 2) else Garbage, t)
    else FreePass(m[i := Retag(m[i])], i + 1, At(i), t)
  }

  function FreeBlocks(m: Map, t: nat): FreeResult {
    FreePass(m, 0, NoPrev, t)
  }

  // ----- when the pass is right

  ghost predicate IsT(m: Map, k: int, t: nat) {
    0 <= k < |m| && m[k].table == t
  }

  ghost predicate IsTagged(m: Map, k: int) {
    0 <= k < |m| && Tagged(m[k])
  }

  /** Block k, the first of a run of t's blocks, will be merged into the block after it. */
  ghost predicate MergesUp(m: Map, k: int, t: nat) {
    IsT(m, k, t) && !IsT(m, k - 1, t) && !IsTagged(m, k - 1) && IsTagged(m, k + 1)
  }

  /** How many of t's blocks a stretch of the map begins with. */
  function RunLength(s: Map, t: nat): (n: nat)
    ensures n <= |s| && (forall k :: 0 <= k < n ==> s[k].table == t) && (n < |s| ==> s[n].table != t)
  {
    if s != [] && s[0].table == t then 1 + RunLength(s[1..], t) else 0
  }

  function Rest(s: Map, t: nat): Map { s[RunLength(s, t)..] }

  /** How much memory the blocks of t's are that a stretch begins with. */
  function Taken(s: Map, t: nat): int {
    if s != [] && s[0].table == t then s[0].limit + Taken(s[1..], t) else 0
  }

  /** The block after block i is pinned, and it can grow by block i and by the blocks of t's
      that follow it without reaching the block after those. */
  ghost predicate Swallows(m: Map, i: nat, t: nat)
    requires i + 1 < |m|
  {
    && IsPinned(m[i + 1])
    && (Rest(m[i + 2..], t) != [] ==>
          Top(m[i + 1]) + m[i].limit + Taken(m[i + 2..], t) <= Rest(m[i + 2..], t)[0].base)
  }

  /** After a merge upwards there is a block left to go on with, and if it is t's too, the
      block after it is there, and if that one is tagged as the kernel's, it is a pinned block
      with room to grow. */
  ghost predicate SoundAt(m: Map, k: nat, t: nat) {
    MergesUp(m, k, t) ==>
      k + 2 < |m| && (IsT(m, k + 2, t) ==> k + 3 < |m| && (IsTagged(m, k + 3) ==> Swallows(m, k + 2, t)))
  }

  /** And no block is merged into a pinned one. */
  ghost predicate CleanAt(m: Map, k: nat, t: nat) {
    && (MergesUp(m, k, t) ==>
          && IsFree(m[k + 1]) && k + 2 < |m|
          && (IsT(m, k + 2, t) ==> k + 3 < |m| && !IsTagged(m, k + 3)))
    && (IsT(m, k, t) && IsTagged(m, k - 1) ==> IsFree(m[k - 1]))
  }

  ghost predicate Sound(m: Map, t: nat) {
    forall k: nat :: k < |m| ==> SoundAt(m, k, t)
  }

  ghost predicate Clean(m: Map, t: nat) {
    forall k: nat :: k < |m| ==> CleanAt(m, k, t)
  }

  // ----- one step of the pass

  /** Nobody else gains or loses, free memory stays free, and only t's memory becomes free. */
  ghost predicate Gives(m: Map, m': Map, t: nat) {
    && (forall u: nat, x: int :: u != t ==> (OwnedBy(m', u, x) <==> OwnedBy(m, u, x)))
    && (forall x: int :: OwnedBy(m', t, x) ==> OwnedBy(m, t, x))
    && (forall x: int :: FreeAt(m, x) ==> FreeAt(m', x))
    && (forall x: int :: FreeAt(m', x) ==> FreeAt(m, x) || OwnedBy(m, t, x))
  }

  /** What t no longer owns is free. */
  ghost predicate GivesAll(m: Map, m': Map, t: nat) {
    forall x: int :: OwnedBy(m, t, x) ==> OwnedBy(m', t, x) || FreeAt(m', x)
  }

  lemma GivesTrans(m: Map, n: Map, o: Map, t: nat)
    requires Gives(m, n, t) && Gives(n, o, t)
    ensures Gives(m, o, t) && (GivesAll(m, n, t) && GivesAll(n, o, t) ==> GivesAll(m, o, t))
  {
    hide OwnedBy, FreeAt;
  }

  lemma GivesSelf(m: Map, t: nat)
    ensures Gives(m, m, t) && GivesAll(m, m, t)
  {
  }

  lemma ReplaceGives(m: Map, lo: nat, hi: nat, mid: Map, t: nat)
    requires lo <= hi <= |m| && Gives(m[lo..hi], mid, t)
    ensures Gives(m, Replaced(m, lo, hi, mid), t)
    ensures GivesAll(m[lo..hi], mid, t) ==> GivesAll(m, Replaced(m, lo, hi, mid), t)
  {
    hide OwnedBy, FreeAt, Replaced;
    var m' := Replaced(m, lo, hi, mid);
    forall u: nat, x: int | u != t
      ensures OwnedBy(m', u, x) <==> OwnedBy(m, u, x)
    {
      ReplaceCover(m, lo, hi, mid, u, x);
    }
    forall x: int
      ensures OwnedBy(m', t, x) ==> OwnedBy(m, t, x)
      ensures FreeAt(m, x) ==> FreeAt(m', x)
      ensures FreeAt(m', x) ==> FreeAt(m, x) || OwnedBy(m, t, x)
      ensures GivesAll(m[lo..hi], mid, t) && OwnedBy(m, t, x) ==> OwnedBy(m', t, x) || FreeAt(m', x)
    {
      ReplaceCover(m, lo, hi, mid, t, x);
    }
  }

  lemma TaggedKind(m: Map, i: nat)
    requires MapInv(m) && i < |m| && Tagged(m[i])
    ensures GoodBlock(m[i]) && (IsFree(m[i]) || IsPinned(m[i]))
  {
    GoodAt(m, i);
  }

  lemma MergeFacts(a: Block, c: Block)
    requires GoodBlock(a) && Tagged(a) && GoodBlock(c) && IsUser(c) && Top(a) <= c.base && Neighbours(a, c)
    ensures GoodBlock(Lengthened(a, c)) && Lengthened(a, c).base == a.base && Top(Lengthened(a, c)) <= Top(c)
    ensures IsFree(a) ==> IsFree(Lengthened(a, c)) && Top(a) == c.base && Top(Lengthened(a, c)) == Top(c)
    ensures IsFree(a) ==> a.base + Lengthened(a, c).limit == c.base + c.limit
    ensures IsPinned(a) ==> IsPinned(Lengthened(a, c))
  {
    TopAbove(a);
    if IsFree(a) {
      TopOfFree(a);
      PageMath(Lengthened(a, c).limit);
    }
  }

  lemma MergeGives(a: Block, c: Block)
    requires GoodBlock(a) && Tagged(a) && GoodBlock(c) && IsUser(c) && Top(a) <= c.base && Neighbours(a, c)
    ensures Gives([a, c], [Lengthened(a, c)], c.table) && (IsFree(a) ==> GivesAll([a, c], [Lengthened(a, c)], c.table))
  {
    MergeFacts(a, c);
    TopAbove(a);
    TopAbove(c);
    var g, t := Lengthened(a, c), c.table;
    hide GoodBlock, OwnedBy, FreeAt, Top;
    forall u: nat, x: int | u != t
      ensures OwnedBy([g], u, x) <==> OwnedBy([a, c], u, x)
    {
      CoverOne(a, u, x); CoverOne(c, u, x); CoverOne(g, u, x); CoverTwo(a, c, u, x);
    }
    forall x: int
      ensures OwnedBy([g], t, x) ==> OwnedBy([a, c], t, x)
      ensures FreeAt([a, c], x) ==> FreeAt([g], x)
      ensures FreeAt([g], x) ==> FreeAt([a, c], x) || OwnedBy([a, c], t, x)
      ensures IsFree(a) && OwnedBy([a, c], t, x) ==> FreeAt([g], x)
    {
      CoverOne(a, t, x); CoverOne(c, t, x); CoverOne(g, t, x); CoverTwo(a, c, t, x);
    }
  }

  lemma JoinFacts(c: Block, n: Block)
    requires GoodBlock(n) && Tagged(n) && GoodBlock(c) && IsUser(c) && Top(c) <= n.base && Neighbours(c, n)
    ensures GoodBlock(Joined(c, n)) && Joined(c, n).base == c.base && Top(Joined(c, n)) <= Top(n)
    ensures IsFree(n) ==> IsFree(Joined(c, n)) && Top(c) == n.base && Top(Joined(c, n)) == Top(n)
    ensures IsFree(n) ==> c.base + Joined(c, n).limit == n.base + n.limit
    ensures IsPinned(n) ==> IsPinned(Joined(c, n))
  {
    TopAbove(n);
    TopAbove(c);
    if IsFree(n) {
      PageMath(n.limit);
      PageMath(Joined(c, n).limit);
    }
  }

  lemma JoinGives(c: Block, n: Block)
    requires GoodBlock(n) && Tagged(n) && GoodBlock(c) && IsUser(c) && Top(c) <= n.base && Neighbours(c, n)
    ensures Gives([c, n], [Joined(c, n)], c.table) && (IsFree(n) ==> GivesAll([c, n], [Joined(c, n)], c.table))
  {
    JoinFacts(c, n);
    TopAbove(n);
    TopAbove(c);
    var g, t := Joined(c, n), c.table;
    hide GoodBlock, OwnedBy, FreeAt, Top;
    forall u: nat, x: int | u != t
      ensures OwnedBy([g], u, x) <==> OwnedBy([c, n], u, x)
    {
      CoverOne(n, u, x); CoverOne(c, u, x); CoverOne(g, u, x); CoverTwo(c, n, u, x);
    }
    forall x: int
      ensures OwnedBy([g], t, x) ==> OwnedBy([c, n], t, x)
      ensures FreeAt([c, n], x) ==> FreeAt([g], x)
      ensures FreeAt([g], x) ==> FreeAt([c, n], x) || OwnedBy([c, n], t, x)
      ensures IsFree(n) && OwnedBy([c, n], t, x) ==> FreeAt([g], x)
    {
      CoverOne(n, t, x); CoverOne(c, t, x); CoverOne(g, t, x); CoverTwo(c, n, t, x);
    }
  }

  lemma RetagGives(c: Block)
    requires GoodBlock(c) && IsUser(c)
    ensures GoodBlock(Retag(c)) && IsFree(Retag(c)) && Top(Retag(c)) == Top(c)
    ensures Gives([c], [Retag(c)], c.table) && GivesAll([c], [Retag(c)], c.table)
  {
    PageMath(c.limit);
    var g, t := Retag(c), c.table;
    hide GoodBlock, OwnedBy, FreeAt, Top;
    assert Top(g) == Top(c) by { RetagTop(c); }
    forall u: nat, x: int
      ensures OwnedBy([g], u, x) <==> false
      ensures OwnedBy([c], u, x) <==> u == t && c.base <= x < Top(c)
    {
      CoverOne(c, u, x); CoverOne(g, u, x);
    }
    forall x: int
      ensures FreeAt([c], x) <==> false
      ensures FreeAt([g], x) <==> c.base <= x < Top(c)
    {
      CoverOne(c, t, x); CoverOne(g, t, x);
    }
  }

  lemma RetagTop(c: Block)
    requires GoodBlock(c) && IsUser(c)
    ensures Top(Retag(c)) == Top(c)
  {
    PageMath(c.limit);
  }

  // ----- the three steps on the map

  /** What one step keeps, and gives. */
  ghost predicate Step(m: Map, m': Map, t: nat, all: bool) {
    MapInv(m') && Gives(m, m', t) && (all ==> GivesAll(m, m', t))
  }

  lemma MergeFits(m: Map, i: nat, t: nat)
    requires MapInv(m) && 0 < i < |m| && m[i].table == t != KERNEL_TABLE && Tagged(m[i - 1])
    ensures FitsIn(m, i - 1, i + 1, [Lengthened(m[i - 1], m[i])])
    ensures Gives([m[i - 1], m[i]], [Lengthened(m[i - 1], m[i])], t)
    ensures IsFree(m[i - 1]) ==>
      IsFree(Lengthened(m[i - 1], m[i])) && GivesAll([m[i - 1], m[i]], [Lengthened(m[i - 1], m[i])], t)
  {
    hide MapInv, GoodBlock, Top, Gives, GivesAll;
    var a, c := m[i - 1], m[i];
    UserBlock(m, i, t);
    TaggedKind(m, i - 1);
    SortedPair(m, i - 1, i);
    TouchingPair(m, i - 1);
    if i > 1 { TouchingPair(m, i - 2); }
    if i + 1 < |m| { TouchingPair(m, i); SortedPair(m, i, i + 1); }
    MergeFacts(a, c);
    MergeGives(a, c);
    OneInv(Lengthened(a, c));
  }

  lemma MergeStep(m: Map, i: nat, t: nat)
    requires MapInv(m) && 0 < i < |m| && m[i].table == t != KERNEL_TABLE && Tagged(m[i - 1])
    ensures Step(m, Removed(m[i - 1 := Lengthened(m[i - 1], m[i])], i), t, IsFree(m[i - 1]))
    ensures Tagged(Lengthened(m[i - 1], m[i])) && (IsFree(m[i - 1]) ==> IsFree(Lengthened(m[i - 1], m[i])))
  {
    hide MapInv, FitsIn, Gives, GivesAll, Replaced, Removed;
    var g := Lengthened(m[i - 1], m[i]);
    MergeFits(m, i, t);
    ReplaceKeepsInv(m, i - 1, i + 1, [g]);
    OnePlace(m, i - 1, g);
    ReplaceGives(m, i - 1, i + 1, [g], t);
  }

  /** Two neighbours replaced by one block, either way it is written. */
  lemma OnePlace(m: Map, i: nat, b: Block)
    requires i + 1 < |m|
    ensures m[i..i + 2] == [m[i], m[i + 1]]
    ensures Removed(m[i := b], i + 1) == Replaced(m, i, i + 2, [b])
    ensures Removed(m[i + 1 := b], i) == Replaced(m, i, i + 2, [b])
  {
  }

  lemma JoinFits(m: Map, i: nat, t: nat)
    requires MapInv(m) && i + 1 < |m| && m[i].table == t != KERNEL_TABLE && Tagged(m[i + 1])
    ensures FitsIn(m, i, i + 2, [Joined(m[i], m[i + 1])])
    ensures Gives([m[i], m[i + 1]], [Joined(m[i], m[i + 1])], t)
    ensures IsFree(m[i + 1]) ==>
      IsFree(Joined(m[i], m[i + 1])) && GivesAll([m[i], m[i + 1]], [Joined(m[i], m[i + 1])], t)
  {
    hide MapInv, GoodBlock, Top, Gives, GivesAll;
    var c, n := m[i], m[i + 1];
    UserBlock(m, i, t);
    TaggedKind(m, i + 1);
    SortedPair(m, i, i + 1);
    TouchingPair(m, i);
    if i > 0 { TouchingPair(m, i - 1); }
    if i + 2 < |m| { TouchingPair(m, i + 1); SortedPair(m, i + 1, i + 2); }
    JoinFacts(c, n);
    JoinGives(c, n);
    OneInv(Joined(c, n));
  }

  lemma JoinStep(m: Map, i: nat, t: nat)
    requires MapInv(m) && i + 1 < |m| && m[i].table == t != KERNEL_TABLE && Tagged(m[i + 1])
    ensures Step(m, Removed(m[i + 1 := Joined(m[i], m[i + 1])], i), t, IsFree(m[i + 1]))
    ensures Tagged(Joined(m[i], m[i + 1])) && (IsFree(m[i + 1]) ==> IsFree(Joined(m[i], m[i + 1])))
  {
    hide MapInv, FitsIn, Gives, GivesAll, Replaced, Removed;
    var g := Joined(m[i], m[i + 1]);
    JoinFits(m, i, t);
    ReplaceKeepsInv(m, i, i + 2, [g]);
    OnePlace(m, i, g);
    ReplaceGives(m, i, i + 2, [g], t);
  }

  lemma RetagFits(m: Map, i: nat, t: nat)
    requires MapInv(m) && i < |m| && m[i].table == t != KERNEL_TABLE
    ensures FitsIn(m, i, i + 1, [Retag(m[i])]) && IsFree(Retag(m[i]))
    ensures Gives([m[i]], [Retag(m[i])], t) && GivesAll([m[i]], [Retag(m[i])], t)
  {
    UserBlock(m, i, t);
    hide MapInv, GoodBlock, Top, Gives, GivesAll;
    if i > 0 { TouchingPair(m, i - 1); }
    if i + 1 < |m| { TouchingPair(m, i); }
    RetagGives(m[i]);
    OneInv(Retag(m[i]));
  }

  lemma RetagStep(m: Map, i: nat, t: nat)
    requires MapInv(m) && i < |m| && m[i].table == t != KERNEL_TABLE
    ensures Step(m, m[i := Retag(m[i])], t, true) && Tagged(Retag(m[i])) && IsFree(Retag(m[i]))
  {
    var g := Retag(m[i]);
    assert m[i..i + 1] == [m[i]];
    assert m[i := g] == Replaced(m, i, i + 1, [g]);
    hide MapInv, FitsIn, Gives, GivesAll, Replaced;
    RetagFits(m, i, t);
    ReplaceKeepsInv(m, i, i + 1, [g]);
    ReplaceGives(m, i, i + 1, [g], t);
  }

  // ----- the whole pass

  /** The pass is about to look at block i: no block of t's is left before it, and either the
      remembered predecessor is the block before i, or block i follows a merge upwards. */
  ghost predicate Ready(m: Map, i: nat, prev: Prev, t: nat, clean: bool) {
    && i <= |m| && (forall k: nat :: k < i ==> !IsT(m, k, t))
    && ((prev == if i == 0 then NoPrev else At(i - 1)) || Skewed(m, i, prev, t, clean))
  }

  ghost predicate Skewed(m: Map, i: nat, prev: Prev, t: nat, clean: bool) {
    && 0 < i < |m| && IsTagged(m, i - 1)
    && prev == (if i + 1 < |m| then At(i + 1) else Garbage)
    && (IsT(m, i, t) ==> i + 1 < |m| && (IsTagged(m, i + 1) ==> !clean && Swallows(m, i, t)))
  }

  ghost predicate AllAt(m: Map, i: nat, t: nat, clean: bool) {
    forall k: nat :: i <= k < |m| ==> SoundAt(m, k, t) && (clean ==> CleanAt(m, k, t))
  }

  lemma SameKind(m: Map, i: nat, m': Map, i': nat, n: nat, t: nat)
    requires i <= |m| && i' <= |m'| && m[i..] == m'[i'..]
    ensures i' + n < |m'| <==> i + n < |m|
    ensures (IsT(m', i' + n, t) <==> IsT(m, i + n, t)) && (IsTagged(m', i' + n) <==> IsTagged(m, i + n))
    ensures i + n < |m| ==> (IsFree(m'[i' + n]) <==> IsFree(m[i + n]))
  {
    TailAt(m, i, m', i', n);
  }

  lemma SameSwallow(m: Map, i: nat, m': Map, i': nat, t: nat)
    requires i + 1 < |m| && i' + 1 < |m'| && m[i..] == m'[i'..]
    ensures Swallows(m, i, t) <==> Swallows(m', i', t)
  {
    hide Rest, Taken, Top;
    TailAt(m, i, m', i', 0);
    TailAt(m, i, m', i', 1);
    TailAt(m, i, m', i', 2);
  }

  /** The conditions at a block look at the block before it and at those after it. */
  lemma SameConditions(m: Map, k: nat, m': Map, k': nat, t: nat, clean: bool)
    requires 0 < k < |m| && 0 < k' < |m'| && m[k - 1..] == m'[k' - 1..]
    requires SoundAt(m, k, t) && (clean ==> CleanAt(m, k, t))
    ensures SoundAt(m', k', t) && (clean ==> CleanAt(m', k', t))
  {
    hide Swallows, IsT, IsTagged, IsFree;
    SameKind(m, k - 1, m', k' - 1, 0, t);
    SameKind(m, k - 1, m', k' - 1, 1, t);
    SameKind(m, k - 1, m', k' - 1, 2, t);
    SameKind(m, k - 1, m', k' - 1, 3, t);
    SameKind(m, k - 1, m', k' - 1, 4, t);
    if k + 3 < |m| {
      TailAt(m, k - 1, m', k' - 1, 3);
      SameSwallow(m, k + 2, m', k' + 2, t);
    }
  }

  lemma TailAt(m: Map, i: nat, m': Map, i': nat, n: nat)
    requires i <= |m| && i' <= |m'| && m[i..] == m'[i'..]
    ensures i' + n < |m'| <==> i + n < |m|
    ensures i' + n < |m'| ==> m'[i' + n] == m[i + n]
    ensures i' + n <= |m'| ==> m'[i' + n..] == m[i + n..]
  {
    assert |m[i..]| == |m'[i'..]|;
    if i' + n < |m'| { assert m'[i'..][n] == m[i..][n]; }
    if i' + n <= |m'| { assert m'[i'..][n..] == m[i..][n..]; }
  }

  /** At a block after a tagged one nothing is merged upwards. */
  lemma AfterTagged(m: Map, i: nat, t: nat)
    requires 0 < i && IsTagged(m, i - 1)
    ensures SoundAt(m, i, t) && (IsFree(m[i - 1]) ==> CleanAt(m, i, t))
  {
  }

  lemma NotMine(m: Map, i: nat, t: nat)
    requires !IsT(m, i, t)
    ensures SoundAt(m, i, t) && CleanAt(m, i, t)
  {
  }

  /** Conditions on later blocks carry over when blocks are taken out and the one now before
      the rest is tagged, and free if that matters. */
  lemma ShiftedConditions(m: Map, m': Map, i: nat, d: nat, t: nat, clean: bool)
    requires |m'| == |m| - d && 0 < i <= |m'| && AllAt(m, i + d, t, clean) && m'[i..] == m[i + d..]
    requires IsTagged(m', i - 1) && (clean ==> IsFree(m'[i - 1]) || !IsT(m', i, t))
    ensures AllAt(m', i, t, clean)
  {
    hide SoundAt, CleanAt, IsTagged, IsT;
    forall k: nat | i <= k < |m'|
      ensures SoundAt(m', k, t) && (clean ==> CleanAt(m', k, t))
    {
      if k == i {
        AfterTagged(m', i, t);
        if !IsT(m', i, t) { NotMine(m', i, t); }
      } else {
        TailAt(m, i + d, m', i, k - 1 - i);
        SameConditions(m, k + d, m', k, t, clean);
      }
    }
  }

  /** What the finished pass has done. */
  ghost predicate Done(m: Map, r: FreeResult, t: nat, clean: bool) {
    && r.Freed? && MapInv(r.m) && Gives(m, r.m, t) && (clean ==> GivesAll(m, r.m, t))
    && forall k: nat :: k < |r.m| ==> !IsT(r.m, k, t)
  }

  lemma StepInv(m: Map, m': Map, t: nat, all: bool)
    requires Step(m, m', t, all)
    ensures MapInv(m')
  {
  }

  lemma DoneTrans(m: Map, n: Map, r: FreeResult, t: nat, clean: bool)
    requires Step(m, n, t, clean) && Done(n, r, t, clean)
    ensures Done(m, r, t, clean)
  {
    hide MapInv;
    GivesTrans(m, n, r.m, t);
  }

  /** A run of the pass whose merges are safe ends with a sound map in which t owns nothing and
      nobody else's memory has changed; if they are clean too, all of t's memory is free. */
  lemma {:induction false} PassIsSound(m: Map, i: nat, prev: Prev, t: nat, clean: bool)
    requires MapInv(m) && t != KERNEL_TABLE && Ready(m, i, prev, t, clean) && AllAt(m, i, t, clean)
    ensures Done(m, FreePass(m, i, prev, t), t, clean)
    decreases |m| - i, 1
  {
    hide MapInv, Gives, GivesAll, AllAt, Done, Step, Ready, Skewed;
    ReadyBound(m, i, prev, t, clean);
    if i == |m| {
      FinishedPass(m, prev, t, clean);
    } else if m[i].table != t {
      LaterConditions(m, i, t, clean);
      ReadyNext(m, i, prev, t, clean);
      PassIsSound(m, i + 1, At(i), t, clean);
    } else {
      PassStep(m, i, prev, t, clean);
    }
  }

  lemma ReadyBound(m: Map, i: nat, prev: Prev, t: nat, clean: bool)
    requires Ready(m, i, prev, t, clean)
    ensures i <= |m|
  {
  }

  lemma FinishedPass(m: Map, prev: Prev, t: nat, clean: bool)
    requires MapInv(m) && Ready(m, |m|, prev, t, clean)
    ensures Done(m, Freed(m), t, clean)
  {
    GivesSelf(m, t);
  }

  lemma LaterConditions(m: Map, i: nat, t: nat, clean: bool)
    requires AllAt(m, i, t, clean)
    ensures AllAt(m, i + 1, t, clean)
  {
  }

  lemma ReadyNext(m: Map, i: nat, prev: Prev, t: nat, clean: bool)
    requires Ready(m, i, prev, t, clean) && i < |m| && m[i].table != t
    ensures Ready(m, i + 1, At(i), t, clean)
  {
  }

  lemma UserIsHigh(m: Map, i: nat, t: nat)
    requires MapInv(m) && i < |m| && m[i].table == t != KERNEL_TABLE
    ensures ToFree(m[i], t)
  {
    UserBlock(m, i, t);
    TopAbove(m[i]);
  }

  lemma NoneBefore(m: Map, m': Map, n: nat, t: nat)
    requires t != KERNEL_TABLE && 0 < n <= |m'| && Tagged(m'[n - 1])
    requires forall k: nat :: k < n - 1 ==> k < |m| && m'[k] == m[k] && !IsT(m, k, t)
    ensures forall k: nat :: k < n ==> !IsT(m', k, t)
  {
  }

  /** A round that merges block i into the block before it: what is left to do. */
  lemma MergeReady(m: Map, i: nat, t: nat, clean: bool)
    requires MapInv(m) && 0 < i < |m| && m[i].table == t != KERNEL_TABLE && Tagged(m[i - 1])
    requires AllAt(m, i, t, clean) && forall k: nat :: k < i ==> !IsT(m, k, t)
    ensures var m' := Removed(m[i - 1 := Lengthened(m[i - 1], m[i])], i);
      Step(m, m', t, clean) && Ready(m', i, At(i - 1), t, clean) && AllAt(m', i, t, clean)
  {
    hide MapInv, Gives, GivesAll, SoundAt, Swallows;
    assert CleanAt(m, i, t) || !clean;
    var m' := Removed(m[i - 1 := Lengthened(m[i - 1], m[i])], i);
    assert m'[i..] == m[i + 1..];
    MergeStep(m, i, t);
    NoneBefore(m, m', i, t);
    ShiftedConditions(m, m', i, 1, t, clean);
  }

  lemma JoinSkews(m: Map, i: nat, t: nat, clean: bool)
    requires i + 1 < |m| && MergesUp(m, i, t) && SoundAt(m, i, t) && (clean ==> CleanAt(m, i, t))
    ensures var m' := Removed(m[i + 1 := Joined(m[i], m[i + 1])], i);
      i + 1 < |m'| && Skewed(m', i + 1, if i + 2 < |m'| then At(i + 2) else Garbage, t, clean)
  {
    hide RunLength, Taken, Rest, Top;
    var m' := Removed(m[i + 1 := Joined(m[i], m[i + 1])], i);
    assert m'[i + 1..] == m[i + 2..];
    if i + 3 <= |m'| { assert m'[i + 3..] == m[i + 4..]; }
  }

  lemma JoinReady(m: Map, i: nat, t: nat, clean: bool)
    requires MapInv(m) && i + 1 < |m| && MergesUp(m, i, t) && t != KERNEL_TABLE
    requires AllAt(m, i, t, clean) && forall k: nat :: k < i ==> !IsT(m, k, t)
    ensures var m' := Removed(m[i + 1 := Joined(m[i], m[i + 1])], i);
      Step(m, m', t, clean) && i + 1 < |m'| && AllAt(m', i + 1, t, clean)
      && Ready(m', i + 1, if i + 2 < |m'| then At(i + 2) else Garbage, t, clean)
  {
    hide MapInv, Gives, GivesAll, Skewed, SoundAt, Swallows;
    assert SoundAt(m, i, t) && (clean ==> CleanAt(m, i, t));
    var m' := Removed(m[i + 1 := Joined(m[i], m[i + 1])], i);
    assert m'[i + 1..] == m[i + 2..];
    JoinStep(m, i, t);
    JoinSkews(m, i, t, clean);
    NoneBefore(m, m', i + 1, t);
    ShiftedConditions(m, m', i + 1, 1, t, clean);
  }

  lemma RetagReady(m: Map, i: nat, t: nat, clean: bool)
    requires MapInv(m) && i < |m| && m[i].table == t != KERNEL_TABLE
    requires AllAt(m, i, t, clean) && forall k: nat :: k < i ==> !IsT(m, k, t)
    ensures var m' := m[i := Retag(m[i])];
      Step(m, m', t, clean) && Ready(m', i + 1, At(i), t, clean) && AllAt(m', i + 1, t, clean)
  {
    hide MapInv, Gives, GivesAll, SoundAt, CleanAt;
    var m' := m[i := Retag(m[i])];
    assert m'[i + 1..] == m[i + 1..];
    RetagStep(m, i, t);
    NoneBefore(m, m', i + 1, t);
    ShiftedConditions(m, m', i + 1, 0, t, clean);
  }

  // ----- a pinned block swallowing what follows a merge upwards

  lemma PassOver(m: Map, i: nat, prev: Prev, t: nat)
    requires i < |m| && m[i].table != t
    ensures FreePass(m, i, prev, t) == FreePass(m, i + 1, At(i), t)
  {
  }

  lemma PassEnds(m: Map, i: nat, prev: Prev, t: nat)
    requires i >= |m|
    ensures FreePass(m, i, prev, t) == Freed(m)
  {
  }

  /** One block of t's after a tagged block is merged into it. */
  lemma MergeRound(m: Map, i: nat, t: nat)
    requires 0 < i < |m| && Tagged(m[i - 1]) && ToFree(m[i], t)
    ensures FreePass(m, i, At(i - 1), t)
      == FreePass(Removed(m[i - 1 := Lengthened(m[i - 1], m[i])], i), i, At(i - 1), t)
  {
  }

  lemma RunMore(m: Map, i: nat, t: nat)
    requires i < |m| && m[i].table == t
    ensures Taken(m[i..], t) == m[i].limit + Taken(m[i + 1..], t) && Rest(m[i..], t) == Rest(m[i + 1..], t)
  {
    assert m[i..][1..] == m[i + 1..];
  }

  lemma RunNone(m: Map, i: nat, t: nat)
    requires i <= |m| && !IsT(m, i, t)
    ensures Taken(m[i..], t) == 0 && Rest(m[i..], t) == m[i..] && RunLength(m[i..], t) == 0
  {
  }

  /** Blocks of t's after a tagged block are all merged into it. */
  lemma {:induction false} MergeRun(m: Map, i: nat, t: nat)
    requires 0 < i <= |m| && Tagged(m[i - 1])
    requires forall k :: i <= k < |m| && m[k].table == t ==> ToFree(m[k], t)
    ensures var b := m[i - 1].(limit := m[i - 1].limit + Taken(m[i..], t));
      FreePass(m, i, At(i - 1), t) == FreePass(m[..i - 1] + [b] + Rest(m[i..], t), i, At(i - 1), t)
    decreases |m| - i
  {
    hide FreePass, Taken, Rest, ToFree;
    if i < |m| && m[i].table == t {
      var m' := Removed(m[i - 1 := Lengthened(m[i - 1], m[i])], i);
      assert m'[i..] == m[i + 1..] && m'[..i - 1] == m[..i - 1];
      MergeRound(m, i, t);
      RunMore(m, i, t);
      MergeRun(m', i, t);
    } else {
      RunNone(m, i, t);
      assert m[..i - 1] + [m[i - 1]] + m[i..] == m;
    }
  }

  /** Block i+1 grown by block i and by the blocks of t's after it. */
  function Swollen(m: Map, i: nat, t: nat): Block
    requires i + 1 < |m|
  {
    m[i + 1].(limit := m[i + 1].limit + m[i].limit + Taken(m[i + 2..], t))
  }

  function Swallowed(m: Map, i: nat, t: nat): Map
    requires i + 1 < |m|
  {
    m[..i] + [Swollen(m, i, t)] + Rest(m[i + 2..], t)
  }

  /** Out of step, a block of t's before a tagged one is merged into that. */
  lemma SkewedRound(m: Map, i: nat, t: nat)
    requires i + 1 < |m| && ToFree(m[i], t) && Tagged(m[i + 1])
    ensures var m' := Removed(m[i + 1 := Lengthened(m[i + 1], m[i])], i);
      && FreePass(m, i, At(i + 1), t) == FreePass(m', i, At(i), t) && |m'| == |m| - 1
      && m'[i] == Lengthened(m[i + 1], m[i]) && m'[i + 1..] == m[i + 2..] && m'[..i] == m[..i]
      && forall k :: i < k < |m'| ==> m'[k] == m[k + 1]
  {
  }

  lemma SwallowRound(m: Map, i: nat, t: nat)
    requires i + 1 < |m| && m[i].table == t != KERNEL_TABLE && Tagged(m[i + 1])
    requires forall k :: i <= k < |m| && m[k].table == t ==> ToFree(m[k], t)
    ensures FreePass(m, i, At(i + 1), t) == FreePass(Swallowed(m, i, t), i + 1, At(i), t)
    ensures |Swallowed(m, i, t)| == |m| - 1 - RunLength(m[i + 2..], t)
    ensures Swallowed(m, i, t)[i] == Swollen(m, i, t) && Swallowed(m, i, t)[i + 1..] == Rest(m[i + 2..], t)
    ensures Swallowed(m, i, t)[..i] == m[..i]
  {
    hide FreePass, Taken, ToFree, Removed, RunLength;
    var m' := Removed(m[i + 1 := Lengthened(m[i + 1], m[i])], i);
    SkewedRound(m, i, t);
    PassOver(m', i, At(i), t);
    MergeRun(m', i + 1, t);
    assert m'[..i + 1 - 1] == m[..i];
  }

  /** Where nothing is free and only t owns anything. */
  lemma NothingElse(s: Map, t: nat)
    requires forall k :: 0 <= k < |s| ==> IsPinned(s[k]) || (IsUser(s[k]) && s[k].table == t)
    ensures forall u: nat, x: int :: u != t ==> !OwnedBy(s, u, x)
    ensures forall x: int :: !FreeAt(s, x)
  {
  }

  lemma SwallowedBlock(m: Map, i: nat, t: nat, k: nat)
    requires MapInv(m) && i + 1 < |m| && m[i].table == t != KERNEL_TABLE && IsPinned(m[i + 1])
    requires i <= k < i + 2 + RunLength(m[i + 2..], t)
    ensures IsPinned(m[k]) || (IsUser(m[k]) && m[k].table == t)
  {
    hide MapInv, GoodBlock;
    if k != i + 1 {
      assert k >= i + 2 ==> m[k] == m[i + 2..][k - i - 2];
      UserBlock(m, k, t);
    }
  }

  lemma SwallowGives(m: Map, i: nat, t: nat)
    requires MapInv(m) && i + 1 < |m| && m[i].table == t != KERNEL_TABLE && IsPinned(m[i + 1])
    ensures Gives(m[i..i + 2 + RunLength(m[i + 2..], t)], [Swollen(m, i, t)], t)
  {
    hide MapInv, Taken, OwnedBy, FreeAt, RunLength, Gives, IsPinned, IsUser;
    var s, b := m[i..i + 2 + RunLength(m[i + 2..], t)], Swollen(m, i, t);
    forall k: nat | k < |s|
      ensures IsPinned(s[k]) || (IsUser(s[k]) && s[k].table == t)
    {
      SwallowedBlock(m, i, t, i + k);
    }
    NothingElse(s, t);
    SwollenPinned(m, i, t);
    PinnedGives(s, b, t);
  }

  lemma SwollenPinned(m: Map, i: nat, t: nat)
    requires i + 1 < |m| && IsPinned(m[i + 1])
    ensures IsPinned(Swollen(m, i, t))
  {
  }

  lemma PinnedGives(s: Map, b: Block, t: nat)
    requires IsPinned(b) && (forall u: nat, x: int :: u != t ==> !OwnedBy(s, u, x)) && forall x: int :: !FreeAt(s, x)
    ensures Gives(s, [b], t)
  {
    hide OwnedBy, FreeAt;
    var bs := [b];
    forall u: nat, x: int
      ensures !OwnedBy(bs, u, x)
    {
      CoverOne(b, u, x);
    }
    forall x: int
      ensures !FreeAt(bs, x)
    {
      CoverOne(b, t, x);
    }
  }

  lemma {:induction false} TakenPositive(m: Map, i: nat, t: nat)
    requires MapInv(m) && i <= |m|
    ensures Taken(m[i..], t) >= 0
    decreases |m| - i
  {
    if i < |m| {
      assert m[i..][1..] == m[i + 1..];
      GoodAt(m, i);
      TakenPositive(m, i + 1, t);
    }
  }

  lemma SwollenBlock(m: Map, i: nat, t: nat)
    requires MapInv(m) && i + 1 < |m| && IsPinned(m[i + 1])
    ensures var b := Swollen(m, i, t);
      && GoodBlock(b) && IsPinned(b) && Top(b) == Top(m[i + 1]) + m[i].limit + Taken(m[i + 2..], t)
      && m[i].base <= b.base
  {
    hide MapInv, Taken;
    TakenPositive(m, i + 2, t);
    GoodAt(m, i);
    GoodAt(m, i + 1);
    InSorted(m, i, i + 1);
  }

  lemma SwallowFits(m: Map, i: nat, t: nat)
    requires MapInv(m) && i + 1 < |m| && m[i].table == t != KERNEL_TABLE && Swallows(m, i, t)
    ensures FitsIn(m, i, i + 2 + RunLength(m[i + 2..], t), [Swollen(m, i, t)])
  {
    hide MapInv, GoodBlock, Top, Taken;
    SwollenBlock(m, i, t);
    OneInv(Swollen(m, i, t));
    var n := RunLength(m[i + 2..], t);
    if i + 2 + n < |m| { assert Rest(m[i + 2..], t)[0] == m[i + 2 + n]; }
  }

  lemma AllToFree(m: Map, i: nat, t: nat)
    requires MapInv(m) && t != KERNEL_TABLE
    ensures forall k :: i <= k < |m| && m[k].table == t ==> ToFree(m[k], t)
  {
    hide MapInv, ToFree;
    forall k | i <= k < |m| && m[k].table == t
      ensures ToFree(m[k], t)
    {
      UserIsHigh(m, k, t);
    }
  }

  lemma SwallowedIs(m: Map, i: nat, t: nat)
    requires i + 1 < |m|
    ensures Swallowed(m, i, t) == Replaced(m, i, i + 2 + RunLength(m[i + 2..], t), [Swollen(m, i, t)])
  {
  }

  lemma SwallowStep(m: Map, i: nat, t: nat)
    requires MapInv(m) && i + 1 < |m| && m[i].table == t != KERNEL_TABLE && Swallows(m, i, t)
    ensures Step(m, Swallowed(m, i, t), t, false)
  {
    hide MapInv, FitsIn, Gives, GivesAll, Replaced, RunLength, Taken, Rest, Top;
    SwallowFits(m, i, t);
    SwallowedIs(m, i, t);
    SwallowGives(m, i, t);
    ReplaceKeepsInv(m, i, i + 2 + RunLength(m[i + 2..], t), [Swollen(m, i, t)]);
    ReplaceGives(m, i, i + 2 + RunLength(m[i + 2..], t), [Swollen(m, i, t)], t);
  }

  lemma SamePrefix(m: Map, o: Map, i: nat)
    requires i <= |m| && i <= |o| && o[..i] == m[..i]
    ensures forall k: nat :: k < i ==> o[k] == m[k]
  {
    forall k: nat | k < i
      ensures o[k] == m[k]
    {
      assert o[..i][k] == m[..i][k];
    }
  }

  lemma SwallowReady(m: Map, i: nat, t: nat)
    requires MapInv(m) && i + 1 < |m| && m[i].table == t != KERNEL_TABLE && Swallows(m, i, t)
    requires AllAt(m, i, t, false) && forall k: nat :: k < i ==> !IsT(m, k, t)
    ensures var o := Swallowed(m, i, t);
      && FreePass(m, i, At(i + 1), t) == FreePass(o, i + 1, At(i), t) && |o| < |m|
      && Step(m, o, t, false) && Ready(o, i + 1, At(i), t, false) && AllAt(o, i + 1, t, false)
  {
    hide MapInv, Step, FreePass, Taken, Top, SoundAt, CleanAt, Swallowed, ToFree;
    var o := Swallowed(m, i, t);
    AllToFree(m, i, t);
    SwallowRound(m, i, t);
    SwallowStep(m, i, t);
    SamePrefix(m, o, i);
    NoneBefore(m, o, i + 1, t);
    assert o[i + 1..] == m[i + 1 + (1 + RunLength(m[i + 2..], t))..];
    ShiftedConditions(m, o, i + 1, 1 + RunLength(m[i + 2..], t), t, false);
  }

  /** One round of the pass at a block of t's. */
  lemma PassStep(m: Map, i: nat, prev: Prev, t: nat, clean: bool)
    requires MapInv(m) && t != KERNEL_TABLE && Ready(m, i, prev, t, clean) && AllAt(m, i, t, clean)
    requires i < |m| && m[i].table == t
    ensures Done(m, FreePass(m, i, prev, t), t, clean)
    decreases |m| - i, 0
  {
    hide MapInv, Done, Step, AllAt, Swallows, Swallowed;
    UserIsHigh(m, i, t);
    if prev.At? && prev.k == i + 1 && Tagged(m[prev.k]) {
      SwallowReady(m, i, t);
      var o := Swallowed(m, i, t);
      StepInv(m, o, t, false);
      PassIsSound(o, i + 1, At(i), t, false);
      DoneTrans(m, o, FreePass(o, i + 1, At(i), t), t, false);
    } else if prev.At? && Tagged(m[prev.k]) {
      var m' := Removed(m[i - 1 := Lengthened(m[i - 1], m[i])], i);
      MergeReady(m, i, t, clean);
      StepInv(m, m', t, clean);
      PassIsSound(m', i, At(i - 1), t, clean);
      DoneTrans(m, m', FreePass(m', i, At(i - 1), t), t, clean);
    } else if i + 1 < |m| && Tagged(m[i + 1]) {
      var m' := Removed(m[i + 1 := Joined(m[i], m[i + 1])], i);
      var p := if i + 2 < |m'| then At(i + 2) else Garbage;
      JoinReady(m, i, t, clean);
      StepInv(m, m', t, clean);
      PassIsSound(m', i + 1, p, t, clean);
      DoneTrans(m, m', FreePass(m', i + 1, p, t), t, clean);
    } else {
      RetagReady(m, i, t, clean);
      StepInv(m, m[i := Retag(m[i])], t, clean);
      PassIsSound(m[i := Retag(m[i])], i + 1, At(i), t, clean);
      DoneTrans(m, m[i := Retag(m[i])], FreePass(m[i := Retag(m[i])], i + 1, At(i), t), t, clean);
    }
  }

  // ----- a pass that is not clean loses memory

  /** A page that no free block covers and that lies below everything still to come stays
      uncovered. */
  lemma {:induction false} NeverFree(m: Map, i: nat, prev: Prev, t: nat, x: int)
    requires forall k: nat :: i <= k < |m| ==> m[k].base > x
    requires forall k: nat :: k < |m| && m[k].base <= x ==> !(IsFree(m[k]) && x < Top(m[k]))
    requires prev.At? && prev.k < |m| ==> m[prev.k].base > x || m[prev.k].pinned
    ensures FreePass(m, i, prev, t).Freed? ==> !FreeAt(FreePass(m, i, prev, t).m, x)
    decreases |m| - i
  {
    hide Top;
    if i < |m| {
      if !ToFree(m[i], t) {
        NeverFree(m, i + 1, At(i), t, x);
      } else if prev.Garbage? || (prev.At? && prev.k >= |m|) {
      } else if prev.At? && Tagged(m[prev.k]) {
        var m' := Removed(m[prev.k := Lengthened(m[prev.k], m[i])], i);
        NeverFree(m', i, AfterRemoval(prev, i), t, x);
      } else if i + 1 < |m| && Tagged(m[i + 1]) {
        var m' := Removed(m[i + 1 := Joined(m[i], m[i + 1])], i);
        if i + 1 < |m'| {
          NeverFree(m', i + 1, if i + 2 < |m'| then At(i + 2) else Garbage, t, x);
        }
      } else {
        NeverFree(m[i := Retag(m[i])], i + 1, At(i), t, x);
      }
    }
  }

  /** A page of t's that ends up not free: the pass is not right. */
  lemma LostPage(m: Map, r: FreeResult, t: nat, k: nat)
    requires MapInv(m) && k < |m| && m[k].table == t != KERNEL_TABLE
    requires r.Freed? ==> !FreeAt(r.m, m[k].base)
    ensures !Done(m, r, t, true)
  {
    UserBlock(m, k, t);
    TopAbove(m[k]);
    var x := m[k].base;
    assert OwnedBy(m, t, x);
    if Done(m, r, t, true) {
      NoneOwned(r.m, t, x);
    }
  }

  lemma NoneOwned(m: Map, t: nat, x: int)
    requires forall k: nat :: k < |m| ==> !IsT(m, k, t)
    ensures !OwnedBy(m, t, x)
  {
    forall k: nat | k < |m|
      ensures m[k].table != t
    {
      assert !IsT(m, k, t);
    }
  }

  /** If the whole pass is right then so is the rest of it after a step that loses nothing. */
  lemma DoneBack(m: Map, n: Map, r: FreeResult, t: nat)
    requires Step(m, n, t, true) && Done(m, r, t, true)
    ensures Done(n, r, t, true)
  {
    hide MapInv, OwnedBy, FreeAt;
    forall x: int
      ensures !OwnedBy(r.m, t, x)
    {
      NoneOwned(r.m, t, x);
    }
  }

  lemma BaseBelow(m: Map, i: nat, x: int)
    requires MapInv(m) && i < |m| && x == m[i].base
    ensures forall k: nat :: i < k < |m| ==> m[k].base > x
    ensures forall k: nat :: k < i ==> Top(m[k]) <= x && m[k].base <= x
  {
    hide MapInv;
    forall k: nat | i < k < |m|
      ensures m[k].base > x
    {
      SortedPair(m, i, k);
      GoodAt(m, i);
      TopAbove(m[i]);
    }
    forall k: nat | k < i
      ensures Top(m[k]) <= x && m[k].base <= x
    {
      SortedPair(m, k, i);
      GoodAt(m, k);
      TopAbove(m[k]);
    }
  }

  /** Merging a block of t's into a pinned block before it loses its memory. */
  lemma LostBelow(m: Map, i: nat, t: nat)
    requires MapInv(m) && 0 < i < |m| && m[i].table == t != KERNEL_TABLE && IsPinned(m[i - 1])
    ensures !Done(m, FreePass(m, i, At(i - 1), t), t, true)
  {
    UserIsHigh(m, i, t);
    BaseBelow(m, i, m[i].base);
    UserBlock(m, i, t);
    hide MapInv, Top, FreeAt, Done;
    var m' := Removed(m[i - 1 := Lengthened(m[i - 1], m[i])], i);
    NeverFree(m', i, At(i - 1), t, m[i].base);
    LostPage(m, FreePass(m, i, At(i - 1), t), t, i);
  }

  /** What the pass does at a block it merges into the one after it. */
  lemma JoinRound(m: Map, i: nat, prev: Prev, t: nat)
    requires i + 1 < |m| && ToFree(m[i], t) && Tagged(m[i + 1])
    requires prev == (if i == 0 then NoPrev else At(i - 1)) && !IsTagged(m, i - 1)
    ensures var m' := Removed(m[i + 1 := Joined(m[i], m[i + 1])], i);
      && |m'| == |m| - 1 && m'[i] == Joined(m[i], m[i + 1])
      && (forall n: nat :: n < i ==> m'[n] == m[n]) && (forall n: nat :: i < n < |m'| ==> m'[n] == m[n + 1])
      && FreePass(m, i, prev, t) ==
         if i + 1 < |m'| then FreePass(m', i + 1, if i + 2 < |m'| then At(i + 2) else Garbage, t) else Fault
  {
  }

  /** So does merging it into a pinned block after it. */
  lemma LostAbove(m: Map, i: nat, prev: Prev, t: nat)
    requires MapInv(m) && i + 1 < |m| && m[i].table == t != KERNEL_TABLE && IsPinned(m[i + 1])
    requires prev == (if i == 0 then NoPrev else At(i - 1)) && !IsTagged(m, i - 1)
    ensures !Done(m, FreePass(m, i, prev, t), t, true)
  {
    UserIsHigh(m, i, t);
    BaseBelow(m, i, m[i].base);
    hide MapInv, Top, FreeAt, Done, FreePass, Removed, ToFree;
    JoinRound(m, i, prev, t);
    var m' := Removed(m[i + 1 := Joined(m[i], m[i + 1])], i);
    if i + 1 < |m'| {
      NeverFree(m', i + 1, if i + 2 < |m'| then At(i + 2) else Garbage, t, m[i].base);
    }
    LostPage(m, FreePass(m, i, prev, t), t, i);
  }

  /** After a merge upwards the next block of t's is merged into the block after it, which
      grows past its end instead of down. */
  lemma LostAfterJoin(m: Map, i: nat, prev: Prev, t: nat)
    requires MapInv(m) && i + 3 < |m| && m[i].table == m[i + 2].table == t != KERNEL_TABLE
    requires Tagged(m[i + 1]) && Tagged(m[i + 3])
    requires prev == (if i == 0 then NoPrev else At(i - 1)) && !IsTagged(m, i - 1)
    ensures !Done(m, FreePass(m, i, prev, t), t, true)
  {
    UserIsHigh(m, i, t);
    UserIsHigh(m, i + 2, t);
    var x := m[i + 2].base;
    BaseBelow(m, i + 2, x);
    JoinedTop(m, i, t, x);
    hide MapInv, Top, FreeAt, Done;
    var m2 := m[..i] + [Joined(m[i], m[i + 1]), Lengthened(m[i + 3], m[i + 2])] + m[i + 4..];
    JoinThenGrow(m, i, prev, t);
    hide FreePass, IsFree, Joined, Lengthened, ToFree, Tagged;
    LengthenedBase(m[i + 3], m[i + 2]);
    NothingCovers(m, i, Joined(m[i], m[i + 1]), Lengthened(m[i + 3], m[i + 2]), x);
    NeverFree(m2, i + 1, At(i + 1), t, x);
    LostPage(m, FreePass(m, i, prev, t), t, i + 2);
  }

  lemma LengthenedBase(b: Block, c: Block)
    ensures Lengthened(b, c).base == b.base
  {
  }

  lemma NothingCovers(m: Map, i: nat, g: Block, h: Block, x: int)
    requires i + 3 < |m| && h.base == m[i + 3].base && Top(g) <= x
    requires forall k: nat :: i + 2 < k < |m| ==> m[k].base > x
    requires forall k: nat :: k < i + 2 ==> Top(m[k]) <= x
    ensures var m2 := m[..i] + [g, h] + m[i + 4..];
      && |m2| == |m| - 2 && m2[i + 1].base > x
      && (forall k: nat :: i + 1 <= k < |m2| ==> m2[k].base > x)
      && forall k: nat :: k < |m2| && m2[k].base <= x ==> Top(m2[k]) <= x
  {
    hide Top;
    var m2 := m[..i] + [g, h] + m[i + 4..];
    forall k: nat | k < |m2|
      ensures i + 1 <= k ==> m2[k].base > x
      ensures m2[k].base <= x ==> Top(m2[k]) <= x
    {
      assert m2[k] == if k < i then m[k] else if k == i then g else if k == i + 1 then h else m[k + 2];
    }
  }

  lemma JoinThenGrow(m: Map, i: nat, prev: Prev, t: nat)
    requires i + 3 < |m| && ToFree(m[i], t) && ToFree(m[i + 2], t) && Tagged(m[i + 1]) && Tagged(m[i + 3])
    requires prev == (if i == 0 then NoPrev else At(i - 1)) && !IsTagged(m, i - 1)
    ensures FreePass(m, i, prev, t)
      == FreePass(m[..i] + [Joined(m[i], m[i + 1]), Lengthened(m[i + 3], m[i + 2])] + m[i + 4..], i + 1, At(i + 1), t)
  {
    var m' := Removed(m[i + 1 := Joined(m[i], m[i + 1])], i);
    var m2 := Removed(m'[i + 2 := Lengthened(m'[i + 2], m'[i + 1])], i + 1);
    assert m2 == m[..i] + [Joined(m[i], m[i + 1]), Lengthened(m[i + 3], m[i + 2])] + m[i + 4..];
    assert FreePass(m, i, prev, t) == FreePass(m', i + 1, At(i + 2), t);
    assert FreePass(m', i + 1, At(i + 2), t) == FreePass(m2, i + 1, At(i + 1), t);
  }

  lemma JoinedTop(m: Map, i: nat, t: nat, x: int)
    requires MapInv(m) && i + 2 < |m| && m[i].table == t != KERNEL_TABLE && Tagged(m[i + 1]) && x == m[i + 2].base
    ensures Top(Joined(m[i], m[i + 1])) <= x
  {
    UserBlock(m, i, t);
    TaggedKind(m, i + 1);
    SortedPair(m, i, i + 1);
    TouchingPair(m, i);
    SortedPair(m, i + 1, i + 2);
    hide MapInv, GoodBlock, Top;
    JoinFacts(m[i], m[i + 1]);
  }

  ghost predicate InStep(m: Map, i: nat, prev: Prev, t: nat) {
    i <= |m| && prev == (if i == 0 then NoPrev else At(i - 1)) && forall k: nat :: k < i ==> !IsT(m, k, t)
  }

  /** A condition broken at block k is still broken after block i, before k - 1, is taken out. */
  lemma StillBroken(m: Map, m': Map, i: nat, k: nat, t: nat)
    requires |m'| == |m| - 1 && i + 1 < k < |m| && !CleanAt(m, k, t)
    requires forall n: nat :: i <= n < |m'| ==> m'[n] == m[n + 1]
    ensures !CleanAt(m', k - 1, t)
  {
    assert m'[k - 1] == m[k] && m'[k - 2] == m[k - 1];
    assert k < |m'| ==> m'[k] == m[k + 1];
    assert k + 1 < |m'| ==> m'[k + 1] == m[k + 2];
    assert k + 2 < |m'| ==> m'[k + 2] == m[k + 3];
  }

  lemma NotBrokenHere(m: Map, i: nat, t: nat)
    requires i < |m| && m[i].table != t
    ensures CleanAt(m, i, t)
  {
  }

  lemma NotBrokenAfter(m: Map, i: nat, t: nat)
    requires t != KERNEL_TABLE && IsT(m, i, t)
    ensures CleanAt(m, i + 1, t)
    ensures IsTagged(m, i - 1) && IsFree(m[i - 1]) ==> CleanAt(m, i, t)
    ensures !IsTagged(m, i - 1) && !IsTagged(m, i + 1) ==> CleanAt(m, i, t)
  {
  }

  lemma UncleanMerge(m: Map, i: nat, t: nat, k: nat)
    requires MapInv(m) && t != KERNEL_TABLE && 0 < i <= k < |m| && !CleanAt(m, k, t)
    requires InStep(m, i, At(i - 1), t) && m[i].table == t && Tagged(m[i - 1])
    ensures !Done(m, FreePass(m, i, At(i - 1), t), t, true)
    decreases |m| - i, 0
  {
    hide MapInv, Done, CleanAt;
    if !IsFree(m[i - 1]) {
      TaggedKind(m, i - 1);
      LostBelow(m, i, t);
    } else {
      NotBrokenAfter(m, i, t);
      UserIsHigh(m, i, t);
      var m' := Removed(m[i - 1 := Lengthened(m[i - 1], m[i])], i);
      MergeStep(m, i, t);
      NoneBefore(m, m', i, t);
      StillBroken(m, m', i, k, t);
      UncleanPass(m', i, At(i - 1), t, k - 1);
      if Done(m, FreePass(m', i, At(i - 1), t), t, true) {
        DoneBack(m, m', FreePass(m', i, At(i - 1), t), t);
      }
    }
  }

  lemma UncleanRetag(m: Map, i: nat, prev: Prev, t: nat, k: nat)
    requires MapInv(m) && t != KERNEL_TABLE && InStep(m, i, prev, t) && i <= k < |m| && !CleanAt(m, k, t)
    requires m[i].table == t && !IsTagged(m, i - 1) && !IsTagged(m, i + 1)
    ensures !Done(m, FreePass(m, i, prev, t), t, true)
    decreases |m| - i, 0
  {
    hide MapInv, Done;
    NotBrokenAfter(m, i, t);
    UserIsHigh(m, i, t);
    var m' := m[i := Retag(m[i])];
    assert !CleanAt(m', k, t);
    hide CleanAt;
    RetagStep(m, i, t);
    NoneBefore(m, m', i + 1, t);
    UncleanPass(m', i + 1, At(i), t, k);
    if Done(m, FreePass(m', i + 1, At(i), t), t, true) {
      DoneBack(m, m', FreePass(m', i + 1, At(i), t), t);
    }
  }

  lemma UncleanJoin(m: Map, i: nat, prev: Prev, t: nat, k: nat)
    requires MapInv(m) && t != KERNEL_TABLE && InStep(m, i, prev, t) && i <= k < |m| && !CleanAt(m, k, t)
    requires m[i].table == t && !IsTagged(m, i - 1) && IsTagged(m, i + 1)
    ensures !Done(m, FreePass(m, i, prev, t), t, true)
    decreases |m| - i, 1
  {
    hide MapInv, Done, FreePass;
    if !IsFree(m[i + 1]) {
      TaggedKind(m, i + 1);
      LostAbove(m, i, prev, t);
    } else if i + 2 >= |m| {
      JoinAtEnd(m, i, prev, t);
    } else if m[i + 2].table == t && i + 3 >= |m| {
      JoinBeforeLast(m, i, prev, t);
    } else if m[i + 2].table == t && Tagged(m[i + 3]) {
      LostAfterJoin(m, i, prev, t);
    } else {
      NotBrokenAfter(m, i, t);
      JoinClean(m, i, t);
      UncleanAfterJoin(m, i, prev, t, k);
    }
  }

  lemma JoinClean(m: Map, i: nat, t: nat)
    requires t != KERNEL_TABLE && i + 2 < |m| && IsT(m, i, t)
    requires IsTagged(m, i + 1) && IsFree(m[i + 1]) && !IsTagged(m, i - 1)
    requires m[i + 2].table == t ==> i + 3 < |m| && !IsTagged(m, i + 3)
    ensures CleanAt(m, i, t) && CleanAt(m, i + 1, t) && CleanAt(m, i + 2, t)
    ensures m[i + 2].table == t ==> CleanAt(m, i + 3, t)
  {
  }

  /** A merge upwards into the last block of the map leaves nothing to go on with. */
  lemma JoinAtEnd(m: Map, i: nat, prev: Prev, t: nat)
    requires MapInv(m) && i + 2 == |m| && m[i].table == t != KERNEL_TABLE && IsTagged(m, i + 1) && !IsTagged(m, i - 1)
    requires prev == (if i == 0 then NoPrev else At(i - 1))
    ensures FreePass(m, i, prev, t) == Fault
    ensures !Done(m, FreePass(m, i, prev, t), t, true)
  {
    UserIsHigh(m, i, t);
  }

  /** And before a last block of t's it leaves no predecessor to look at. */
  lemma JoinBeforeLast(m: Map, i: nat, prev: Prev, t: nat)
    requires MapInv(m) && i + 3 == |m| && m[i].table == m[i + 2].table == t != KERNEL_TABLE
    requires IsTagged(m, i + 1) && !IsTagged(m, i - 1)
    requires prev == (if i == 0 then NoPrev else At(i - 1))
    ensures FreePass(m, i, prev, t) == Fault
    ensures !Done(m, FreePass(m, i, prev, t), t, true)
  {
    UserIsHigh(m, i, t);
    UserIsHigh(m, i + 2, t);
    var m' := Removed(m[i + 1 := Joined(m[i], m[i + 1])], i);
    assert FreePass(m, i, prev, t) == FreePass(m', i + 1, Garbage, t);
  }

  lemma UncleanAfterJoin(m: Map, i: nat, prev: Prev, t: nat, k: nat)
    requires MapInv(m) && t != KERNEL_TABLE && InStep(m, i, prev, t) && i + 2 < k < |m| && !CleanAt(m, k, t)
    requires m[i].table == t && !IsTagged(m, i - 1) && IsTagged(m, i + 1) && IsFree(m[i + 1])
    requires m[i + 2].table == t ==> !IsTagged(m, i + 3) && k > i + 3
    ensures !Done(m, FreePass(m, i, prev, t), t, true)
    decreases |m| - i, 0
  {
    hide MapInv, Done, CleanAt, Step, FreePass;
    var m' := Removed(m[i + 1 := Joined(m[i], m[i + 1])], i);
    var r := FreePass(m', i + 1, At(i + 2), t);
    JoinBreaks(m, i, prev, t, k);
    if m[i + 2].table != t {
      UncleanSkipped(m', i + 1, t, k - 1);
    } else {
      UncleanSkewed(m', i + 1, t, k - 1);
    }
    if Done(m, r, t, true) { DoneBack(m, m', r, t); }
  }

  /** A clean merge upwards leaves a condition broken further up broken. */
  lemma JoinBreaks(m: Map, i: nat, prev: Prev, t: nat, k: nat)
    requires MapInv(m) && t != KERNEL_TABLE && InStep(m, i, prev, t) && i + 2 < k < |m| && !CleanAt(m, k, t)
    requires m[i].table == t && !IsTagged(m, i - 1) && IsTagged(m, i + 1) && IsFree(m[i + 1])
    ensures var m' := Removed(m[i + 1 := Joined(m[i], m[i + 1])], i);
      && FreePass(m, i, prev, t) == FreePass(m', i + 1, At(i + 2), t)
      && MapInv(m') && Step(m, m', t, true) && !CleanAt(m', k - 1, t)
      && forall n: nat :: n < i + 1 ==> !IsT(m', n, t)
  {
    UserIsHigh(m, i, t);
    hide MapInv, CleanAt, FreePass, Step, Removed, ToFree, IsT;
    var m' := Removed(m[i + 1 := Joined(m[i], m[i + 1])], i);
    JoinRound(m, i, prev, t);
    JoinStep(m, i, t);
    StepInv(m, m', t, true);
    NoneBefore(m, m', i + 1, t);
    StillBroken(m, m', i + 1, k, t);
  }

  /** Out of step, a block of another's puts the pass back in step. */
  lemma UncleanSkipped(m: Map, i: nat, t: nat, k: nat)
    requires MapInv(m) && t != KERNEL_TABLE && i < k < |m| && !CleanAt(m, k, t)
    requires m[i].table != t && forall n: nat :: n < i ==> !IsT(m, n, t)
    ensures !Done(m, FreePass(m, i, At(i + 1), t), t, true)
    decreases |m| - i, 0
  {
    hide MapInv, Done, CleanAt;
    assert FreePass(m, i, At(i + 1), t) == FreePass(m, i + 1, At(i), t);
    UncleanPass(m, i + 1, At(i), t, k);
  }

  /** Out of step, a block of t's with an untagged block after it is retagged, which puts the
      pass back in step. */
  lemma UncleanSkewed(m: Map, i: nat, t: nat, k: nat)
    requires MapInv(m) && t != KERNEL_TABLE && i + 1 < k < |m| && !CleanAt(m, k, t)
    requires m[i].table == t && !Tagged(m[i + 1]) && forall n: nat :: n < i ==> !IsT(m, n, t)
    ensures !Done(m, FreePass(m, i, At(i + 1), t), t, true)
    decreases |m| - i, 0
  {
    hide MapInv, Done;
    UserIsHigh(m, i, t);
    var m' := m[i := Retag(m[i])];
    assert !CleanAt(m', k, t);
    hide CleanAt;
    RetagStep(m, i, t);
    NoneBefore(m, m', i + 1, t);
    var r := FreePass(m', i + 1, At(i), t);
    assert FreePass(m, i, At(i + 1), t) == r;
    UncleanPass(m', i + 1, At(i), t, k);
    if Done(m, r, t, true) { DoneBack(m, m', r, t); }
  }

  /** Wherever a condition is broken ahead of a pass in step, the pass is not right. */
  lemma {:induction false} UncleanPass(m: Map, i: nat, prev: Prev, t: nat, k: nat)
    requires MapInv(m) && t != KERNEL_TABLE && InStep(m, i, prev, t) && i <= k < |m| && !CleanAt(m, k, t)
    ensures !Done(m, FreePass(m, i, prev, t), t, true)
    decreases |m| - i, 2
  {
    hide MapInv, Done, CleanAt;
    if m[i].table != t {
      NotBrokenHere(m, i, t);
      UncleanPass(m, i + 1, At(i), t, k);
    } else if IsTagged(m, i - 1) {
      UncleanMerge(m, i, t, k);
    } else if IsTagged(m, i + 1) {
      UncleanJoin(m, i, prev, t, k);
    } else {
      UncleanRetag(m, i, prev, t, k);
    }
  }

  /** Freeing a page table returns precisely its memory to the free memory, and takes nobody
      else's, exactly when every merge is clean. */
  lemma FreeExactly(m: Map, t: nat)
    requires MapInv(m) && t != KERNEL_TABLE
    ensures Done(m, FreeBlocks(m, t), t, true) <==> Clean(m, t)
  {
    hide MapInv, Done, CleanAt;
    if Clean(m, t) {
      assert forall k: nat :: k < |m| ==> CleanAt(m, k, t);
      CleanIsSound(m, t);
      PassIsSound(m, 0, NoPrev, t, true);
    } else {
      var k: nat :| k < |m| && !CleanAt(m, k, t);
      UncleanPass(m, 0, NoPrev, t, k);
    }
  }

  lemma CleanIsSound(m: Map, t: nat)
    requires Clean(m, t)
    ensures AllAt(m, 0, t, true) && Sound(m, t)
  {
    forall k: nat | k < |m|
      ensures SoundAt(m, k, t) && CleanAt(m, k, t)
    {
      assert CleanAt(m, k, t);
    }
  }

  // ----- a pass that is not sound spoils the map

  /** The blocks before block i - 1 stay as they are, and block i - 1 keeps its base. */
  lemma {:induction false} Untouched(m: Map, i: nat, prev: Prev, t: nat)
    requires 0 < i <= |m| && (prev.At? ==> prev.k >= i - 1)
    ensures var r := FreePass(m, i, prev, t);
      r.Freed? ==> |r.m| >= i && r.m[..i - 1] == m[..i - 1] && r.m[i - 1].base == m[i - 1].base
    decreases |m| - i
  {
    if i < |m| {
      if !ToFree(m[i], t) {
        UntouchedNext(m, m, i, At(i), t);
      } else if prev.Garbage? || (prev.At? && prev.k >= |m|) {
      } else if prev.At? && Tagged(m[prev.k]) {
        var m' := Removed(m[prev.k := Lengthened(m[prev.k], m[i])], i);
        assert m'[..i - 1] == m[..i - 1] && m'[i - 1].base == m[i - 1].base;
        Untouched(m', i, AfterRemoval(prev, i), t);
      } else if i + 1 < |m| && Tagged(m[i + 1]) {
        var m' := Removed(m[i + 1 := Joined(m[i], m[i + 1])], i);
        assert m'[..i] == m[..i];
        if i + 1 < |m'| { UntouchedNext(m, m', i, if i + 2 < |m'| then At(i + 2) else Garbage, t); }
      } else {
        var m' := m[i := Retag(m[i])];
        assert m'[..i] == m[..i];
        UntouchedNext(m, m', i, At(i), t);
      }
    }
  }

  lemma UntouchedNext(m: Map, m': Map, i: nat, prev: Prev, t: nat)
    requires 0 < i < |m| && i + 1 <= |m'| && m'[..i] == m[..i] && (prev.At? ==> prev.k >= i) && |m'| - i - 1 < |m| - i
    ensures var r := FreePass(m', i + 1, prev, t);
      r.Freed? ==> |r.m| >= i && r.m[..i - 1] == m[..i - 1] && r.m[i - 1].base == m[i - 1].base
    decreases |m| - i, 0
  {
    Untouched(m', i + 1, prev, t);
    var r := FreePass(m', i + 1, prev, t);
    if r.Freed? {
      assert r.m[..i] == m[..i];
      assert r.m[..i][..i - 1] == m[..i][..i - 1];
      assert r.m[..i][i - 1] == m[..i][i - 1];
    }
  }

  /** Where the run of t's blocks behind the first block of a stretch ends, if all of them
      touch. */
  function End(s: Map, t: nat): int
    requires s != []
  {
    Top(s[0]) + Taken(s[1..], t)
  }

  ghost predicate NothingAtEnd(s: Map, t: nat)
    requires s != []
  {
    Rest(s[1..], t) != [] ==> End(s, t) < Rest(s[1..], t)[0].base
  }

  /** The pass runs into a null node, or leaves two blocks that overlap, or makes memory free
      that lies behind a stretch of the map and belongs to nobody. */
  ghost predicate Spoilt(r: FreeResult, s: Map, t: nat) {
    r.Fault? || !Sorted(r.m) || (s != [] && IsFree(s[0]) && NothingAtEnd(s, t) && FreeAt(r.m, End(s, t)))
  }

  ghost predicate SpoiltBeyond(m: Map, i: nat, r: FreeResult, t: nat) {
    exists j: nat :: i <= j <= |m| && Spoilt(r, m[j..], t)
  }

  lemma SpoiltBefore(m: Map, i: nat, m': Map, i': nat, r: FreeResult, t: nat)
    requires i <= |m| && i' <= |m'| && m'[i'..] == m[i..] && SpoiltBeyond(m', i', r, t)
    ensures forall n: nat :: n <= i ==> SpoiltBeyond(m, n, r, t)
  {
    hide Spoilt;
    var j: nat :| i' <= j <= |m'| && Spoilt(r, m'[j..], t);
    TailAt(m, i, m', i', j - i');
    assert |m'[i'..]| == |m[i..]|;
    assert Spoilt(r, m[j - i' + i..], t);
  }

  lemma {:induction false} TakenPages(m: Map, i: nat, t: nat)
    requires MapInv(m) && i <= |m| && t != KERNEL_TABLE
    ensures Taken(m[i..], t) % PAGE_SIZE == 0
    decreases |m| - i
  {
    if i < |m| && m[i].table == t {
      hide MapInv, Taken;
      RunMore(m, i, t);
      UserBlock(m, i, t);
      TakenPages(m, i + 1, t);
    }
  }

  /** A free block that grows by whole pages ends that much higher. */
  lemma FreeTop(b: Block, more: int)
    requires GoodBlock(b) && IsFree(b) && more % PAGE_SIZE == 0
    ensures Top(b.(limit := b.limit + more)) == Top(b) + more
  {
    PageMath(b.limit);
  }

  lemma SwollenTop(m: Map, i: nat, t: nat)
    requires MapInv(m) && i + 1 < |m| && m[i].table == t != KERNEL_TABLE && Tagged(m[i + 1])
    ensures var b, e := Swollen(m, i, t), End(m[i + 1..], t);
      Top(b) == Top(m[i + 1]) + m[i].limit + Taken(m[i + 2..], t)
      && b.base <= e < Top(b) && (IsFree(m[i + 1]) <==> IsFree(b))
  {
    hide MapInv, Taken;
    TaggedKind(m, i + 1);
    UserBlock(m, i, t);
    TakenPositive(m, i + 2, t);
    TakenPages(m, i + 2, t);
    TopAbove(m[i + 1]);
    assert m[i + 1..][1..] == m[i + 2..];
    if IsFree(m[i + 1]) {
      FreeTop(m[i + 1], m[i].limit + Taken(m[i + 2..], t));
    }
  }

  /** Once the pass is past the grown block, that block and the base of the next one are there
      to stay. */
  lemma SwollenStays(m: Map, i: nat, t: nat)
    requires MapInv(m) && i + 1 < |m| && m[i].table == t != KERNEL_TABLE && Tagged(m[i + 1])
    ensures var r, rest := FreePass(m, i, At(i + 1), t), Rest(m[i + 2..], t);
      && (r.Freed? ==> |r.m| > i && r.m[i] == Swollen(m, i, t))
      && (r.Freed? && rest != [] ==> |r.m| > i + 1 && r.m[i + 1].base == rest[0].base)
  {
    hide MapInv, FreePass, Taken, Swollen, Swallowed;
    var o := Swallowed(m, i, t);
    AllToFree(m, i, t);
    SwallowRound(m, i, t);
    var r := FreePass(o, i + 1, At(i), t);
    if i + 1 < |o| {
      assert o[i + 1] == o[i + 1..][0];
      PassOver(o, i + 1, At(i), t);
      Untouched(o, i + 2, At(i + 1), t);
      if r.Freed? {
        assert r.m[..i + 1][i] == o[..i + 1][i];
      }
    } else {
      PassEnds(o, i + 1, At(i), t);
    }
  }

  /** A block of t's that goes into a block with no room for it. */
  lemma NoRoom(m: Map, i: nat, t: nat)
    requires MapInv(m) && i + 1 < |m| && m[i].table == t != KERNEL_TABLE && Tagged(m[i + 1]) && !Swallows(m, i, t)
    ensures Spoilt(FreePass(m, i, At(i + 1), t), m[i + 1..], t)
  {
    hide MapInv, FreePass, Taken, Swollen, End, Top, Rest;
    TaggedKind(m, i + 1);
    SwollenTop(m, i, t);
    SwollenStays(m, i, t);
    var r, s := FreePass(m, i, At(i + 1), t), m[i + 1..];
    assert s[0] == m[i + 1] && s[1..] == m[i + 2..];
    var rest := Rest(m[i + 2..], t);
    if r.Freed? {
      if rest != [] && Top(Swollen(m, i, t)) > rest[0].base {
        assert !(Top(r.m[i]) <= r.m[i + 1].base);
      } else {
        assert r.m[i].base <= End(s, t) < Top(r.m[i]) && IsFree(r.m[i]);
      }
    }
  }

  /** Blocks whose conditions cannot be broken. */
  lemma NotBroken(m: Map, i: nat, t: nat)
    requires t != KERNEL_TABLE && IsT(m, i, t)
    ensures SoundAt(m, i + 1, t)
    ensures IsTagged(m, i - 1) || !IsTagged(m, i + 1) ==> SoundAt(m, i, t)
  {
  }

  lemma StillUnsound(m: Map, k: nat, m': Map, k': nat, t: nat)
    requires 0 < k < |m| && 0 < k' < |m'| && m[k - 1..] == m'[k' - 1..] && !SoundAt(m, k, t)
    ensures !SoundAt(m', k', t)
  {
    hide SoundAt, CleanAt;
    if SoundAt(m', k', t) { SameConditions(m', k', m, k, t, false); }
  }

  lemma UnsoundMerge(m: Map, i: nat, t: nat, k: nat)
    requires MapInv(m) && t != KERNEL_TABLE && 0 < i <= k < |m| && !SoundAt(m, k, t)
    requires InStep(m, i, At(i - 1), t) && m[i].table == t && Tagged(m[i - 1])
    ensures SpoiltBeyond(m, i, FreePass(m, i, At(i - 1), t), t)
    decreases |m| - i, 0
  {
    hide MapInv, SoundAt, SpoiltBeyond, FreePass, Step;
    NotBroken(m, i, t);
    UserIsHigh(m, i, t);
    var m' := Removed(m[i - 1 := Lengthened(m[i - 1], m[i])], i);
    MergeStep(m, i, t);
    StepInv(m, m', t, IsFree(m[i - 1]));
    NoneBefore(m, m', i, t);
    MergeRound(m, i, t);
    assert m'[i..] == m[i + 1..];
    assert m'[k - 2..] == m[k - 1..];
    StillUnsound(m, k, m', k - 1, t);
    UnsoundPass(m', i, At(i - 1), t, k - 1);
    SpoiltBefore(m, i + 1, m', i, FreePass(m', i, At(i - 1), t), t);
  }

  lemma RetagRound(m: Map, i: nat, prev: Prev, t: nat)
    requires i < |m| && ToFree(m[i], t) && !IsTagged(m, i + 1) && !prev.Garbage?
    requires prev.At? ==> prev.k < |m| && !Tagged(m[prev.k])
    ensures FreePass(m, i, prev, t) == FreePass(m[i := Retag(m[i])], i + 1, At(i), t)
  {
  }

  lemma UnsoundRetag(m: Map, i: nat, prev: Prev, t: nat, k: nat)
    requires MapInv(m) && t != KERNEL_TABLE && i + 1 < k < |m| && !SoundAt(m, k, t)
    requires i < |m| && m[i].table == t && !IsTagged(m, i + 1) && !prev.Garbage?
    requires prev.At? ==> prev.k < |m| && !Tagged(m[prev.k])
    requires forall n: nat :: n < i ==> !IsT(m, n, t)
    ensures SpoiltBeyond(m, i, FreePass(m, i, prev, t), t)
    decreases |m| - i, 0
  {
    hide MapInv, SoundAt, SpoiltBeyond, FreePass, Step;
    UserIsHigh(m, i, t);
    var m' := m[i := Retag(m[i])];
    RetagStep(m, i, t);
    StepInv(m, m', t, true);
    NoneBefore(m, m', i + 1, t);
    RetagRound(m, i, prev, t);
    assert m'[i + 1..] == m[i + 1..];
    assert m'[k - 1..] == m[k - 1..];
    StillUnsound(m, k, m', k, t);
    UnsoundPass(m', i + 1, At(i), t, k);
    SpoiltBefore(m, i + 1, m', i + 1, FreePass(m', i + 1, At(i), t), t);
  }

  lemma UnsoundJoin(m: Map, i: nat, prev: Prev, t: nat, k: nat)
    requires MapInv(m) && t != KERNEL_TABLE && InStep(m, i, prev, t) && i <= k < |m| && !SoundAt(m, k, t)
    requires m[i].table == t && !IsTagged(m, i - 1) && IsTagged(m, i + 1)
    ensures SpoiltBeyond(m, i, FreePass(m, i, prev, t), t)
    decreases |m| - i, 1
  {
    hide MapInv, SoundAt, SpoiltBeyond, FreePass, Step, ToFree, Spoilt;
    UserIsHigh(m, i, t);
    if i + 2 >= |m| {
      JoinAtEnd(m, i, prev, t);
      FaultSpoils(m, i, t);
    } else if m[i + 2].table == t && i + 3 >= |m| {
      JoinBeforeLast(m, i, prev, t);
      FaultSpoils(m, i, t);
    } else {
      JoinRound(m, i, prev, t);
      var m' := Removed(m[i + 1 := Joined(m[i], m[i + 1])], i);
      JoinStep(m, i, t);
      StepInv(m, m', t, IsFree(m[i + 1]));
      NoneBefore(m, m', i + 1, t);
      assert m'[i + 1..] == m[i + 2..];
      AfterJoin(m, i, t);
      if m[i + 2].table == t && Tagged(m[i + 3]) {
        UnsoundSwallow(m, m', i, t, k);
      } else {
        assert m'[k - 2..] == m[k - 1..];
        StillUnsound(m, k, m', k - 1, t);
        if m[i + 2].table != t {
          PassOver(m', i + 1, At(i + 2), t);
          UnsoundPass(m', i + 2, At(i + 1), t, k - 1);
          assert m'[i + 2..] == m[i + 3..];
          SpoiltBefore(m, i + 3, m', i + 2, FreePass(m', i + 2, At(i + 1), t), t);
        } else {
          UnsoundRetag(m', i + 1, At(i + 2), t, k - 1);
          SpoiltBefore(m, i + 2, m', i + 1, FreePass(m', i + 1, At(i + 2), t), t);
        }
      }
    }
  }

  lemma FaultSpoils(m: Map, i: nat, t: nat)
    requires i <= |m|
    ensures SpoiltBeyond(m, i, Fault, t)
  {
    assert Spoilt(Fault, m[i..], t);
  }

  /** The conditions at the blocks around a merge upwards that leaves something to go on with. */
  lemma AfterJoin(m: Map, i: nat, t: nat)
    requires t != KERNEL_TABLE && i + 2 < |m| && IsT(m, i, t) && IsTagged(m, i + 1) && !IsTagged(m, i - 1)
    requires IsT(m, i + 2, t) ==> i + 3 < |m|
    ensures !(IsT(m, i + 2, t) && IsTagged(m, i + 3)) || Swallows(m, i + 2, t) ==> SoundAt(m, i, t)
    ensures SoundAt(m, i + 1, t) && SoundAt(m, i + 2, t) && (IsT(m, i + 2, t) ==> SoundAt(m, i + 3, t))
  {
  }

  lemma RunIsSound(m: Map, i: nat, t: nat, k: nat)
    requires t != KERNEL_TABLE && 0 < i <= k && IsTagged(m, i - 1) && k <= i + RunLength(m[i..], t)
    ensures SoundAt(m, k, t)
  {
    if k < |m| {
      var n := RunLength(m[i..], t);
      if k == i {
      } else if k < i + n {
        assert m[k - 1] == m[i..][k - 1 - i];
      } else {
        assert m[k] == m[i..][n];
      }
    }
  }

  /** Where the pass stands after a merge upwards and the swallowing behind it. */
  lemma SwallowAhead(m: Map, i: nat, t: nat)
    requires MapInv(m) && t != KERNEL_TABLE && i + 1 < |m| && IsT(m, i, t) && Swallows(m, i, t)
    requires forall n: nat :: n < i ==> !IsT(m, n, t)
    ensures var o, n := Swallowed(m, i, t), RunLength(m[i + 2..], t);
      && MapInv(o) && InStep(o, i + 1, At(i), t) && i + 2 + n <= |m| && i < |o| && o[i + 1..] == m[i + 2 + n..]
      && FreePass(m, i, At(i + 1), t) == FreePass(o, i + 1, At(i), t)
  {
    hide MapInv, FreePass, Step, Swallowed, Taken, Swollen, Top, ToFree;
    var o := Swallowed(m, i, t);
    AllToFree(m, i, t);
    SwallowRound(m, i, t);
    SwallowStep(m, i, t);
    StepInv(m, o, t, false);
    SwollenBlock(m, i, t);
    SamePrefix(m, o, i);
    NoneBefore(m, o, i + 1, t);
  }

  lemma UnsoundSwallow(m: Map, m': Map, i: nat, t: nat, k: nat)
    requires MapInv(m') && t != KERNEL_TABLE && i + 3 < |m| && |m'| == |m| - 1 && m'[i + 1..] == m[i + 2..]
    requires i <= k < |m| && !SoundAt(m, k, t) && IsT(m, i + 2, t) && IsTagged(m, i + 3)
    requires Swallows(m, i + 2, t) ==> k != i
    requires k != i + 1 && k != i + 2 && k != i + 3 && forall n: nat :: n < i + 1 ==> !IsT(m', n, t)
    ensures SpoiltBeyond(m, i, FreePass(m', i + 1, At(i + 2), t), t)
    decreases |m| - i, 0
  {
    hide MapInv, SoundAt, SpoiltBeyond, FreePass, Spoilt, Swallowed, Taken, RunLength, Top, InStep;
    TailAt(m, i + 2, m', i + 1, 0);
    TailAt(m, i + 2, m', i + 1, 1);
    TailAt(m, i + 2, m', i + 1, 2);
    if !Swallows(m, i + 2, t) {
      NoRoom(m', i + 1, t);
      SpoiltHere(m, i, i + 3, FreePass(m', i + 1, At(i + 2), t), t);
    } else {
      var n := RunLength(m[i + 4..], t);
      if k <= i + 4 + n { RunIsSound(m, i + 4, t, k); }
      SwallowAhead(m', i + 1, t);
      TailAt(m, i + 2, m', i + 1, 2 + n);
      UnsoundRest(m, Swallowed(m', i + 1, t), i, 2 + n, t, k);
    }
  }

  /** A pass that is in step again, d blocks shorter. */
  lemma UnsoundRest(m: Map, o: Map, i: nat, d: nat, t: nat, k: nat)
    requires MapInv(o) && t != KERNEL_TABLE && InStep(o, i + 2, At(i + 1), t)
    requires i + 2 + d < k < |m| && !SoundAt(m, k, t) && i + 2 <= |o| && o[i + 2..] == m[i + 2 + d..]
    ensures SpoiltBeyond(m, i, FreePass(o, i + 2, At(i + 1), t), t)
    decreases |m| - i - 1
  {
    hide *;
    TailAt(m, i + 2 + d, o, i + 2, k - i - 3 - d);
    assert |o[i + 2..]| == |m[i + 2 + d..]|;
    StillUnsound(m, k, o, k - d, t);
    UnsoundPass(o, i + 2, At(i + 1), t, k - d);
    SpoiltBefore(m, i + 2 + d, o, i + 2, FreePass(o, i + 2, At(i + 1), t), t);
  }

  lemma SpoiltHere(m: Map, i: nat, j: nat, r: FreeResult, t: nat)
    requires i <= j <= |m| && Spoilt(r, m[j..], t)
    ensures SpoiltBeyond(m, i, r, t)
  {
  }

  /** Wherever a condition is broken ahead of a pass in step, the pass spoils the map. */
  lemma {:induction false} UnsoundPass(m: Map, i: nat, prev: Prev, t: nat, k: nat)
    requires MapInv(m) && t != KERNEL_TABLE && InStep(m, i, prev, t) && i <= k < |m| && !SoundAt(m, k, t)
    ensures SpoiltBeyond(m, i, FreePass(m, i, prev, t), t)
    decreases |m| - i, 2
  {
    hide MapInv, SoundAt, SpoiltBeyond, FreePass;
    if m[i].table != t {
      NotMine(m, i, t);
      PassOver(m, i, prev, t);
      UnsoundPass(m, i + 1, At(i), t, k);
      SpoiltBefore(m, i + 1, m, i + 1, FreePass(m, i + 1, At(i), t), t);
    } else if IsTagged(m, i - 1) {
      UnsoundMerge(m, i, t, k);
    } else if IsTagged(m, i + 1) {
      UnsoundJoin(m, i, prev, t, k);
    } else {
      NotBroken(m, i, t);
      UnsoundRetag(m, i, prev, t, k);
    }
  }

  // ----- the two equivalences

  /** A run of t's blocks behind a block that is not pinned ends where its memory adds up to. */
  lemma {:induction false} RunTop(m: Map, i: nat, t: nat, k: nat)
    requires MapInv(m) && t != KERNEL_TABLE && 0 < i <= |m| && i <= k < i + RunLength(m[i..], t) && !m[i - 1].pinned
    ensures Top(m[k]) <= Top(m[i - 1]) + Taken(m[i..], t)
    decreases k - i
  {
    assert m[i] == m[i..][0];
    RunMore(m, i, t);
    UserBlock(m, i, t);
    RunTouches(m, i, t);
    hide MapInv, Taken, Top;
    if i < k {
      assert m[i..][1..] == m[i + 1..];
      RunTop(m, i + 1, t, k);
    } else {
      TakenPositive(m, i + 1, t);
    }
  }

  lemma RunTouches(m: Map, i: nat, t: nat)
    requires MapInv(m) && t != KERNEL_TABLE && 0 < i < |m| && m[i].table == t && !m[i - 1].pinned
    ensures Top(m[i]) == Top(m[i - 1]) + m[i].limit
  {
    GoodAt(m, i - 1);
    UserBlock(m, i, t);
    TouchingPair(m, i - 1);
    if !m[i - 1].bound { LastPageBeforePinned(m, i - 1); }
  }

  /** Behind the run nobody has the memory that is not the next block's. */
  lemma NobodyThere(m: Map, j: nat, t: nat, n: nat)
    requires MapInv(m) && t != KERNEL_TABLE && j < |m| && n < |m| && IsFree(m[j]) && NothingAtEnd(m[j..], t)
    ensures !(m[n].base <= End(m[j..], t) < Top(m[n]))
  {
    hide MapInv, Taken, Top;
    var e := End(m[j..], t);
    assert m[j..][1..] == m[j + 1..];
    TakenPositive(m, j + 1, t);
    var r := RunLength(m[j + 1..], t);
    if n <= j {
      InSorted(m, n, j);
    } else if n < j + 1 + r {
      RunTop(m, j + 1, t, n);
    } else {
      assert Rest(m[j + 1..], t)[0] == m[j + 1 + r];
      InSorted(m, j + 1 + r, n);
    }
  }

  lemma NotSpoilt(m: Map, r: FreeResult, t: nat)
    requires MapInv(m) && t != KERNEL_TABLE && Done(m, r, t, false)
    ensures !SpoiltBeyond(m, 0, r, t)
  {
    forall j: nat | j <= |m|
      ensures !Spoilt(r, m[j..], t)
    {
      SortedMap(r.m);
      if j < |m| && IsFree(m[j]) && NothingAtEnd(m[j..], t) {
        hide MapInv, End, NothingAtEnd, Top;
        var e := End(m[j..], t);
        forall n: nat | n < |m|
          ensures !(m[n].base <= e < Top(m[n]))
        {
          NobodyThere(m, j, t, n);
        }
        assert !FreeAt(m, e) && !OwnedBy(m, t, e);
      }
    }
  }

  lemma SortedMap(m: Map)
    requires MapInv(m)
    ensures Sorted(m)
  {
  }

  /** Freeing a page table leaves a sound map in which the table owns nothing any more and
      nobody else gains or loses, exactly when its merges are sound; even then memory may be
      lost to pinned blocks. */
  lemma FreeSoundly(m: Map, t: nat)
    requires MapInv(m) && t != KERNEL_TABLE
    ensures Done(m, FreeBlocks(m, t), t, false) <==> Sound(m, t)
  {
    hide MapInv, Done, SoundAt, SpoiltBeyond;
    if Sound(m, t) {
      assert forall k: nat :: k < |m| ==> SoundAt(m, k, t);
      PassIsSound(m, 0, NoPrev, t, false);
    } else {
      var k: nat :| k < |m| && !SoundAt(m, k, t);
      UnsoundPass(m, 0, NoPrev, t, k);
      if Done(m, FreeBlocks(m, t), t, false) { NotSpoilt(m, FreeBlocks(m, t), t); }
    }
  }
}
