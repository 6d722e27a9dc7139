/** The bubble sort of the standard library: repeated passes that swap neighbours the comparator
    calls out of order, until a pass swaps none. */
module Sort {

  /** A comparator whose positive results say "belongs after" and form a strict weak order. */
  ghost predicate StrictWeak<T(!new)>(after: (T, T) -> bool) {
    && (forall a: T, b: T :: after(a, b) ==> !after(b, a))
    && (forall a: T, b: T, c: T :: after(a, b) && after(b, c) ==> after(a, c))
    && (forall a: T, b: T, c: T :: !after(a, b) && !after(b, c) ==> !after(a, c))
  }

  /** No element belongs after a later one. */
  ghost predicate Sorted<T>(s: seq<T>, after: (T, T) -> bool) {
    forall i: nat, j: nat :: i < j < |s| ==> !after(s[i], s[j])
  }

  function Swapped<T>(s: seq<T>, i: nat): (r: seq<T>)
    requires i + 1 < |s|
    ensures |r| == |s|
  {
    s[i := s[i + 1]][i + 1 := s[i]]
  }

  /** The pass from position i on, and whether it has swapped anything. */
  function Pass<T>(s: seq<T>, after: (T, T) -> bool, i: nat): (r: (seq<T>, bool))
    requires 1 <= i
    ensures |r.0| == |s|
    decreases |s| - i
  {
    if i >= |s| then (s, false)
    else if after(s[i - 1], s[i]) then (Pass(Swapped(s, i - 1), after, i + 1).0, true)
    else Pass(s, after, i + 1)
  }

  // ----- the measure

  /** The number of elements of s that x belongs after. */
  function Below<T>(x: T, s: seq<T>, after: (T, T) -> bool): nat {
    if s == [] then 0 else (if after(x, s[0]) then 1 else 0) + Below(x, s[1..], after)
  }

  /** The number of pairs out of order. */
  function Inversions<T>(s: seq<T>, after: (T, T) -> bool): nat {
    if s == [] then 0 else Below(s[0], s[1..], after) + Inversions(s[1..], after)
  }

  lemma {:induction false} BelowSwap<T>(x: T, s: seq<T>, i: nat, after: (T, T) -> bool)
    requires i + 1 < |s|
    ensures Below(x, Swapped(s, i), after) == Below(x, s, after)
  {
    if i == 0 {
      var t := Swapped(s, 0);
      assert t[1..][0] == s[0] && t[1..][1..] == s[2..] && s[1..][0] == s[1] && s[1..][1..] == s[2..];
    } else {
      assert Swapped(s, i)[1..] == Swapped(s[1..], i - 1);
      BelowSwap(x, s[1..], i - 1, after);
    }
  }

  /** Swapping neighbours that are out of order removes exactly one inversion. */
  lemma {:induction false} SwapRemovesOne<T>(s: seq<T>, i: nat, after: (T, T) -> bool)
    requires i + 1 < |s| && after(s[i], s[i + 1]) && !after(s[i + 1], s[i])
    ensures Inversions(Swapped(s, i), after) == Inversions(s, after) - 1
  {
    var t := Swapped(s, i);
    if i == 0 {
      var rest := s[2..];
      assert t == [s[1], s[0]] + rest && s == [s[0], s[1]] + rest;
      assert t[1..] == [s[0]] + rest && s[1..] == [s[1]] + rest && t[1..][1..] == rest && s[1..][1..] == rest;
    } else {
      assert t[1..] == Swapped(s[1..], i - 1);
      BelowSwap(s[0], s[1..], i - 1, after);
      SwapRemovesOne(s[1..], i - 1, after);
    }
  }

  lemma {:induction false} PassDecreases<T(!new)>(s: seq<T>, after: (T, T) -> bool, i: nat)
    requires StrictWeak(after) && 1 <= i
    ensures Inversions(Pass(s, after, i).0, after) <= Inversions(s, after)
    ensures Pass(s, after, i).1 ==> Inversions(Pass(s, after, i).0, after) < Inversions(s, after)
    decreases |s| - i
  {
    if i < |s| {
      if after(s[i - 1], s[i]) {
        SwapRemovesOne(s, i - 1, after);
        PassDecreases(Swapped(s, i - 1), after, i + 1);
      } else {
        PassDecreases(s, after, i + 1);
      }
    }
  }

  /** Passes until one swaps nothing. */
  function Bubble<T(!new)>(s: seq<T>, after: (T, T) -> bool): (r: seq<T>)
    requires StrictWeak(after)
    ensures |r| == |s|
    decreases Inversions(s, after)
  {
    var (t, swapped) := Pass(s, after, 1);
    PassDecreases(s, after, 1);
    if swapped then Bubble(t, after) else t
  }

  // ----- what sorting does

  lemma {:induction false} PassWithoutSwaps<T>(s: seq<T>, after: (T, T) -> bool, i: nat, k: nat)
    requires 1 <= i <= k < |s| && !Pass(s, after, i).1
    ensures Pass(s, after, i).0 == s && !after(s[k - 1], s[k])
    decreases |s| - i
  {
    if i < k {
      PassWithoutSwaps(s, after, i + 1, k);
    } else if i + 1 < |s| {
      PassWithoutSwaps(s, after, i + 1, |s| - 1);
    }
  }

  /** If no element belongs after its neighbour then none belongs after any later one. */
  lemma {:induction false} NeighboursSuffice<T(!new)>(s: seq<T>, after: (T, T) -> bool, i: nat, j: nat)
    requires StrictWeak(after) && i < j < |s| && forall k: nat, l: nat :: l == k + 1 && l < |s| ==> !after(s[k], s[l])
    ensures !after(s[i], s[j])
    decreases j - i
  {
    if i + 1 < j { NeighboursSuffice(s, after, i, j - 1); }
  }

  lemma {:induction false} BubbleSorts<T(!new)>(s: seq<T>, after: (T, T) -> bool)
    requires StrictWeak(after)
    ensures Sorted(Bubble(s, after), after)
    decreases Inversions(s, after)
  {
    hide Inversions, StrictWeak;
    PassDecreases(s, after, 1);
    var (t, swapped) := Pass(s, after, 1);
    if swapped {
      BubbleSorts(t, after);
    } else {
      hide Pass;
      forall k: nat, l: nat | l == k + 1 && l < |s|
        ensures t == s && !after(s[k], s[l])
      {
        PassWithoutSwaps(s, after, 1, l);
      }
      if |s| > 1 { PassWithoutSwaps(s, after, 1, 1); }
      forall i: nat, j: nat | i < j < |t|
        ensures !after(t[i], t[j])
      {
        NeighboursSuffice(s, after, i, j);
      }
    }
  }

  /** Whatever a swap of two neighbours that are out of order keeps, sorting keeps. */
  ghost predicate KeptBySwaps<T(!new)>(p: seq<T> -> bool, after: (T, T) -> bool) {
    forall s: seq<T>, i: nat :: i + 1 < |s| && after(s[i], s[i + 1]) && p(s) ==> p(Swapped(s, i))
  }

  lemma {:induction false} PassKeeps<T(!new)>(s: seq<T>, after: (T, T) -> bool, i: nat, p: seq<T> -> bool)
    requires 1 <= i && KeptBySwaps(p, after) && p(s)
    ensures p(Pass(s, after, i).0)
    decreases |s| - i
  {
    if i < |s| {
      if after(s[i - 1], s[i]) {
        assert p(Swapped(s, i - 1));
        PassKeeps(Swapped(s, i - 1), after, i + 1, p);
      } else {
        PassKeeps(s, after, i + 1, p);
      }
    }
  }

  lemma {:induction false} BubbleKeeps<T(!new)>(s: seq<T>, after: (T, T) -> bool, p: seq<T> -> bool)
    requires StrictWeak(after) && KeptBySwaps(p, after) && p(s)
    ensures p(Bubble(s, after))
    decreases Inversions(s, after)
  {
    hide StrictWeak, KeptBySwaps, Inversions;
    PassDecreases(s, after, 1);
    PassKeeps(s, after, 1, p);
    if Pass(s, after, 1).1 { BubbleKeeps(Pass(s, after, 1).0, after, p); }
  }

  /** The result has the same elements, each as often. */
  lemma BubblePermutes<T(!new)>(s: seq<T>, after: (T, T) -> bool)
    requires StrictWeak(after)
    ensures multiset(Bubble(s, after)) == multiset(s)
  {
    ghost var p := (t: seq<T>) => multiset(t) == multiset(s);
    forall t: seq<T>, i: nat | i + 1 < |t| && after(t[i], t[i + 1]) && p(t)
      ensures p(Swapped(t, i))
    {
      SwapPermutes(t, i);
    }
    hide StrictWeak;
    BubbleKeeps(s, after, p);
  }

  lemma SwapPermutes<T>(s: seq<T>, i: nat)
    requires i + 1 < |s|
    ensures multiset(Swapped(s, i)) == multiset(s)
  {
    assert s == s[..i] + [s[i], s[i + 1]] + s[i + 2..];
    assert Swapped(s, i) == s[..i] + [s[i + 1], s[i]] + s[i + 2..];
  }

  /** The elements of s that are neither before nor after x, in the order they stand in. */
  function Ties<T>(x: T, s: seq<T>, after: (T, T) -> bool): seq<T> {
    if s == [] then [] else (if !after(x, s[0]) && !after(s[0], x) then [s[0]] else []) + Ties(x, s[1..], after)
  }

  /** Of two elements out of order at most one ties with x. */
  lemma TiesNotSwapped<T(!new)>(x: T, a: T, b: T, after: (T, T) -> bool)
    requires StrictWeak(after) && after(a, b)
    ensures !after(a, x) ==> after(x, b)
  {
  }

  lemma {:induction false} SwapKeepsTies<T(!new)>(x: T, s: seq<T>, i: nat, after: (T, T) -> bool)
    requires StrictWeak(after) && i + 1 < |s| && after(s[i], s[i + 1])
    ensures Ties(x, Swapped(s, i), after) == Ties(x, s, after)
  {
    var t := Swapped(s, i);
    if i == 0 {
      assert t[1..][0] == s[0] && t[1..][1..] == s[2..] && s[1..][0] == s[1] && s[1..][1..] == s[2..];
      TiesNotSwapped(x, s[0], s[1], after);
    } else {
      assert t[1..] == Swapped(s[1..], i - 1);
      SwapKeepsTies(x, s[1..], i - 1, after);
    }
  }

  /** Sorting is stable: elements that tie with one another keep their order. */
  lemma BubbleIsStable<T(!new)>(x: T, s: seq<T>, after: (T, T) -> bool)
    requires StrictWeak(after)
    ensures Ties(x, Bubble(s, after), after) == Ties(x, s, after)
  {
    ghost var p := (t: seq<T>) => Ties(x, t, after) == Ties(x, s, after);
    forall t: seq<T>, i: nat | i + 1 < |t| && after(t[i], t[i + 1]) && p(t)
      ensures p(Swapped(t, i))
    {
      SwapKeepsTies(x, t, i, after);
    }
    hide StrictWeak;
    BubbleKeeps(s, after, p);
  }

  // ----- in place

  /** The sort on an array. */
  method BubbleSort<T(!new)>(a: array<T>, after: (T, T) -> bool)
    requires StrictWeak(after)
    modifies a
    ensures a[..] == Bubble(old(a[..]), after)
  {
    hide StrictWeak, Inversions;
    var sorted := false;
    while !sorted
      invariant if sorted then a[..] == Bubble(old(a[..]), after) else Bubble(a[..], after) == Bubble(old(a[..]), after)
      decreases !sorted, Inversions(a[..], after)
    {
      sorted := true;
      PassDecreases(a[..], after, 1);
      ghost var before := a[..];
      var i := 1;
      while i < a.Length
        invariant 1 <= i
        invariant Pass(before, after, 1).0 == Pass(a[..], after, i).0
        invariant Pass(before, after, 1).1 == (!sorted || Pass(a[..], after, i).1)
      {
        if after(a[i - 1], a[i]) {
          ghost var s := a[..];
          var temp := a[i - 1];
          a[i - 1] := a[i];
          a[i] := temp;
          assert a[..] == Swapped(s, i - 1);
          sorted := false;
        }
        i := i + 1;
      }
      assert Pass(a[..], after, i) == (a[..], false);
    }
  }
}
