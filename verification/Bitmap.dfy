/** The block bitmap: one bit a block, kept in an array of bytes.  Two programs allocate
    from it: the kernel, one block at a time, and the image builder, a contiguous run.
    A byte is modelled by its eight bits, least significant first, so that testing or
    setting it with the mask 1 << k is reading or writing bit k. */
module Bitmap {
  import opened Blocks
  import opened Options

  type Octet = o: seq<bool> | |o| == 8 witness seq(8, _ => false)

  /** The bitmap as a sequence of bits, bit k of byte n being bit 8n + k. */
  function Bits(s: seq<Octet>): (r: seq<bool>)
    ensures |r| == 8 * |s|
  {
    seq(8 * |s|, i requires 0 <= i < 8 * |s| => s[i / 8][i % 8])
  }

  /** The first clear bit at or after position k, or the length when there is none. */
  function FirstClear(bits: seq<bool>, k: nat): (r: nat)
    requires k <= |bits|
    ensures k <= r <= |bits|
    ensures r < |bits| ==> !bits[r]
    ensures forall j :: k <= j < r ==> bits[j]
    decreases |bits| - k
  {
    if k < |bits| && bits[k] then FirstClear(bits, k + 1) else k
  }

  /** n clear bits from position s on. */
  ghost predicate ClearRun(bits: seq<bool>, s: nat, n: nat) {
    s + n <= |bits| && forall j :: s <= j < s + n ==> !bits[j]
  }

  lemma SetBits(s: seq<Octet>, n: nat, k: nat)
    requires n < |s| && k < 8
    ensures Bits(s[n := s[n][k := true]]) == Bits(s)[8 * n + k := true]
  {
  }

  /** get_free_block: the first clear bit is set and its sector address returned; -1 and an
      unchanged bitmap when every bit is set. */
  method GetFreeBlock(bitmap: array<Octet>) returns (address: int)
    modifies bitmap
    ensures var bits := Bits(old(bitmap[..])); var k := FirstClear(bits, 0);
            if k < |bits|
            then address == AddressOf(k) && Bits(bitmap[..]) == bits[k := true]
            else address == -1 && bitmap[..] == old(bitmap[..])
  {
    ghost var before := bitmap[..];
    var index := 0;
    while index < bitmap.Length
      invariant 0 <= index <= bitmap.Length
      invariant bitmap[..] == before
      invariant forall j :: 0 <= j < 8 * index ==> Bits(before)[j]
    {
      var k := 0;
      while k < 8
        invariant 0 <= k <= 8
        invariant forall j :: 0 <= j < 8 * index + k ==> Bits(before)[j]
      {
        if !bitmap[index][k] {
          assert !Bits(before)[8 * index + k];
          assert FirstClear(Bits(before), 0) == 8 * index + k;
          bitmap[index] := bitmap[index][k := true];
          SetBits(before, index, k);
          assert bitmap[..] == before[index := before[index][k := true]];
          return AddressOf(8 * index + k);
        }
        assert Bits(before)[8 * index + k];
        k := k + 1;
      }
      index := index + 1;
    }
    assert FirstClear(Bits(before), 0) == |Bits(before)|;
    return -1;
  }

  /** The last stretch of clear bits starts at s. */
  ghost predicate LastStretch(bits: seq<bool>, s: nat) {
    && s < |bits| && !bits[s] && (s > 0 ==> bits[s - 1])
    && forall j, k :: s <= j && k == j + 1 && k < |bits| && !bits[k] ==> !bits[j]
  }

  ghost predicate HasRun(bits: seq<bool>, n: nat) {
    n >= 1 && exists s :: ClearRun(bits, s, n)
  }

  /** Past the last place a run could start there is none. */
  lemma NoRunLeft(bits: seq<bool>, needed: nat, s: nat)
    requires needed > 0 ==> |bits| - s < needed && forall r :: 0 <= r < s ==> !ClearRun(bits, r, needed)
    ensures !HasRun(bits, needed)
  {
  }

  /** Where the search ends: the first run of `needed` clear bits, or else the start of the last
      stretch of clear bits, however short. */
  ghost predicate Chosen(bits: seq<bool>, needed: nat, start: Option<nat>) {
    if HasRun(bits, needed) then
      && start.Some?
      && ClearRun(bits, start.value, needed)
      && forall s :: 0 <= s < start.value ==> !ClearRun(bits, s, needed)
    else if start.Some? then LastStretch(bits, start.value)
    else forall j :: 0 <= j < |bits| ==> bits[j]
  }

  method SearchRun(bitmap: array<Octet>, needed: nat) returns (start: Option<nat>)
    ensures Chosen(Bits(bitmap[..]), needed, start)
  {
    hide Bits;
    ghost var bits := Bits(bitmap[..]);
    var first, count, i, started := 0, 0, 0, false;
    while i < 8 * bitmap.Length
      invariant 0 <= count <= i <= |bits| && (needed > 0 ==> count < needed)
      invariant count > 0 ==> first == i - count && started
      invariant ClearRun(bits, i - count, count)
      invariant needed > 0 ==> forall s :: 0 <= s < i - count ==> !ClearRun(bits, s, needed)
      invariant count == 0 && i > 0 ==> bits[i - 1]
      invariant !started ==> forall j :: 0 <= j < i ==> bits[j]
      invariant started ==>
        && first < i && !bits[first] && (first > 0 ==> bits[first - 1])
        && forall j, k :: first <= j && k == j + 1 && k < i && !bits[k] ==> !bits[j]
    {
      BitAt(bitmap[..], i);
      if !bitmap[i / 8][i % 8] {
        if count == 0 { first, started := i, true; }
        count := count + 1;
        if count == needed {
          assert ClearRun(bits, first, needed);
          return Some(first);
        }
      } else {
        count := 0;
      }
      i := i + 1;
    }
    NoRunLeft(bits, needed, i - count);
    start := if started then Some(first) else None;
  }

  lemma BitAt(s: seq<Octet>, i: nat)
    requires i < 8 * |s|
    ensures |Bits(s)| == 8 * |s| && Bits(s)[i] == s[i / 8][i % 8]
  {
  }

  method SetRun(bitmap: array<Octet>, first: nat, needed: nat)
    requires first + needed <= 8 * bitmap.Length
    modifies bitmap
    ensures |Bits(bitmap[..])| == |Bits(old(bitmap[..]))|
    ensures forall j :: 0 <= j < |Bits(bitmap[..])| ==>
      Bits(bitmap[..])[j] == (first <= j < first + needed || Bits(old(bitmap[..]))[j])
  {
    ghost var bits := Bits(bitmap[..]);
    var i := 0;
    while i < needed
      invariant 0 <= i <= needed && bitmap.Length * 8 == |bits|
      invariant forall j :: 0 <= j < |bits| ==> Bits(bitmap[..])[j] == (first <= j < first + i || bits[j])
    {
      ghost var now := bitmap[..];
      var n, k := (first + i) / 8, (first + i) % 8;
      bitmap[n] := bitmap[n][k := true];
      assert bitmap[..] == now[n := now[n][k := true]];
      SetBits(now, n, k);
      i := i + 1;
    }
  }

  /** find_free_blocks of the image builder.  If there are `needed` clear bits in a row, the first
      run of them is set and the byte offset of its first block on the disk image is returned.
      If not, nothing tells the caller: the bits from the start of the last stretch of clear ones
      on are set, so a block is given out that is in use.  None is a bitmap without a clear bit,
      where the start is never assigned, or one that ends before the bits to set do. */
  method FindFreeBlocks(bitmap: array<Octet>, needed: nat) returns (offset: Option<int>, ghost start: Option<nat>)
    modifies bitmap
    ensures Chosen(Bits(old(bitmap[..])), needed, start)
    ensures offset.None? <==> start.None? || start.value + needed > |Bits(old(bitmap[..]))|
    ensures offset.None? ==> bitmap[..] == old(bitmap[..])
    ensures offset.Some? ==>
      && offset.value == 512 * AddressOf(start.value)
      && |Bits(bitmap[..])| == |Bits(old(bitmap[..]))|
      && forall j :: 0 <= j < |Bits(bitmap[..])| ==>
           Bits(bitmap[..])[j] == (start.value <= j < start.value + needed || Bits(old(bitmap[..]))[j])
  {
    var first := SearchRun(bitmap, needed);
    start := first;
    if first.None? || first.value + needed > 8 * bitmap.Length {
      return None, start;
    }
    hide Bits;
    SetRun(bitmap, first.value, needed);
    offset := Some(0x110_0000 + first.value * 0x2000);
  }

  /** Without a run long enough, a bitmap is changed all the same: some bit that is set again
      was set before. */
  lemma GivenOutTwice(bits: seq<bool>, needed: nat, start: nat)
    requires needed > 0 && Chosen(bits, needed, Some(start)) && start + needed <= |bits|
    ensures HasRun(bits, needed) <==> forall j :: start <= j < start + needed ==> !bits[j]
  {
    if !HasRun(bits, needed) { assert !ClearRun(bits, start, needed); }
  }

  /** For a single block the image builder and the kernel pick the same one. */
  lemma OneBlockRun(bits: seq<bool>, start: nat)
    requires ClearRun(bits, start, 1)
    requires forall s :: 0 <= s < start ==> !ClearRun(bits, s, 1)
    ensures start == FirstClear(bits, 0)
  {
    forall j | 0 <= j < start
      ensures bits[j]
    {
      assert !ClearRun(bits, j, 1);
    }
    assert !bits[start];
  }
}
