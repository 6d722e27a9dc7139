/** When read and write go through: the transfer stays within its blocks, and there is a disk
    block for every block the file has yet to get. */
module FsSuccess {
  import opened Blocks
  import opened Bitmap
  import opened FsState
  import opened FsInvariant
  import opened FsData
  import opened Transfer
  import opened FsContent
  import opened FsReadWrite
  import opened Options

  ghost function ClearSet(bits: seq<bool>): set<nat> {
    set k: nat | k < |bits| && !bits[k]
  }

  lemma ClearSetFacts(bits: seq<bool>)
    ensures FirstClear(bits, 0) == |bits| <==> ClearSet(bits) == {}
    ensures FirstClear(bits, 0) < |bits| ==>
      |ClearSet(bits[FirstClear(bits, 0) := true])| == |ClearSet(bits)| - 1
  {
    var k := FirstClear(bits, 0);
    if k < |bits| {
      assert k in ClearSet(bits);
      assert ClearSet(bits[k := true]) == ClearSet(bits) - {k};
    }
  }

  /** How many of the blocks m, m + 1, ... a file has no disk block for. */
  function MissingFrom(address: Words, m: nat, rounds: nat): nat
    decreases rounds
  {
    if rounds == 0 then 0
    else (if m < BLOCK_WORDS && address[m] == 0 then 1 else 0) + MissingFrom(address, m + 1, rounds - 1)
  }

  lemma {:induction false} SameMissing(a: Words, b: Words, m: nat, rounds: nat)
    requires forall n :: m <= n < BLOCK_WORDS ==> a[n] == b[n]
    ensures MissingFrom(a, m, rounds) == MissingFrom(b, m, rounds)
    decreases rounds
  {
    if rounds > 0 { SameMissing(a, b, m + 1, rounds - 1); }
  }

  /** Whether the flat transfer goes through does not depend on what is in the file. */
  lemma {:induction false} AnyFile(f: Flat, g: Flat, m: nat, rounds: nat, count: nat, at: nat,
                                   source: seq<Byte>, from: nat, eof: bool)
    ensures WriteFlat(f, m, rounds, count, at, source, from, eof).Some?
      <==> WriteFlat(g, m, rounds, count, at, source, from, eof).Some?
    decreases rounds
  {
    hide Piece, Splice;
    if rounds > 0 && m < BLOCK_WORDS {
      match Piece(source, from, count, eof)
      case None =>
      case Some(bytes) =>
        if at + |bytes| <= BLOCK_BYTES {
          AnyFile(Splice(f, BLOCK_BYTES * m + at, bytes), Splice(g, BLOCK_BYTES * m + at, bytes), m + 1, rounds - 1,
                  count - |bytes|, 0, source, from + BLOCK_BYTES, eof);
        }
    }
  }

  // ----- write

  /** Getting a block: it needs a free disk block exactly when the file has none for it. */
  lemma EnsureBlockExactly(s: State, d: nat, m: nat)
    requires Inv(s) && IsOpen(s, d) && s.open[d].inode < |s.inodes| && |s.bits| <= BLOCKS
    ensures EnsureBlock(s, d, m).Some? <==>
      m < BLOCK_WORDS && (s.open[d].address[m] == 0 ==> ClearSet(s.bits) != {})
    ensures EnsureBlock(s, d, m).Some? ==>
      var s1 := EnsureBlock(s, d, m).value;
      && |ClearSet(s1.bits)| == |ClearSet(s.bits)| - (if s.open[d].address[m] == 0 then 1 else 0)
      && forall n :: m < n < BLOCK_WORDS ==> s1.open[d].address[n] == s.open[d].address[n]
  {
    OpenIsFile(s, d);
    hide Inv, ClearSet;
    ClearSetFacts(s.bits);
  }

  lemma StoreKeepsPlaces(s: State, d: nat, m: nat, at: nat, bytes: seq<Byte>)
    requires d < |s.open| && m in s.open[d].cache && m < BLOCK_WORDS && at + |bytes| <= BLOCK_BYTES
    ensures var s' := Store(s, d, m, at, bytes);
      s'.bits == s.bits && d < |s'.open| && s'.open[d].address == s.open[d].address
  {
  }

  lemma {:induction false} WriteRoundsExactly(s: State, d: nat, m: nat, rounds: nat, count: nat, at: nat,
                                              source: seq<Byte>, from: nat, eof: bool, file: Flat)
    requires Inv(s) && IsOpen(s, d) && s.open[d].inode < |s.inodes| && |s.bits| <= BLOCKS
    ensures WriteRounds(s, d, m, rounds, count, at, source, from, eof).Some? <==>
      && WriteFlat(file, m, rounds, count, at, source, from, eof).Some?
      && MissingFrom(s.open[d].address, m, rounds) <= |ClearSet(s.bits)|
    decreases rounds
  {
    hide Inv, EnsureBlock, Store, Piece, Splice, ClearSet;
    if rounds > 0 {
      EnsureBlockExactly(s, d, m);
      match EnsureBlock(s, d, m)
      case None =>
      case Some(s1) =>
        match Piece(source, from, count, eof)
        case None =>
        case Some(bytes) =>
          if m < BLOCK_WORDS && at + |bytes| <= BLOCK_BYTES {
            EnsureBlockKeepsInv(s, d, m);
            StoreKeepsInv(s1, d, m, at, bytes);
            StoreKeepsPlaces(s1, d, m, at, bytes);
            EnsureBlockTables(s, d, m, s1);
            StoreKeepsTables(s1, d, m, at, bytes);
            var s2, file' := Store(s1, d, m, at, bytes), Splice(file, BLOCK_BYTES * m + at, bytes);
            SameMissing(s2.open[d].address, s.open[d].address, m + 1, rounds - 1);
            WriteRoundsExactly(s2, d, m + 1, rounds - 1, count - |bytes|, 0, source, from + BLOCK_BYTES, eof, file');
          }
    }
  }

  /** How many disk blocks a write has yet to take. */
  function BlocksNeeded(s: State, d: nat, count: nat): nat
    requires d < |s.open|
  {
    MissingFrom(s.open[d].address, 0, Rounds(s.open[d].offset % BLOCK_BYTES, count))
  }

  /** A write goes through exactly when its flat transfer does and there are free blocks enough. */
  lemma WriteGoesThrough(s: State, d: nat, buff: seq<Byte>)
    requires Inv(s) && IsOpen(s, d) && s.open[d].inode < |s.inodes| && |s.bits| <= BLOCKS
    ensures var i := s.open[d].inode;
      Write(s, d, buff).Some? <==>
      && WriteCallFlat(FlatOf(s, i), s.open[d].offset, s.inodes[i].size, buff).Some?
      && BlocksNeeded(s, d, |buff|) <= |ClearSet(s.bits)|
  {
    hide Inv, FlatOf, WriteRounds, WriteFlat, Rounds, ClearSet, MissingFrom;
    var i := s.open[d].inode;
    var eof, at := ReachesEnd(s, d, |buff|), s.open[d].offset % BLOCK_BYTES;
    var s1, source := Enlarged(s, d, |buff|), Source(buff, eof);
    EnlargedKeepsInv(s, d, |buff|);
    WriteRoundsExactly(s1, d, 0, Rounds(at, |buff|), |source|, at, source, 0, eof, FlatOf(s, i));
    var r := WriteRounds(s1, d, 0, Rounds(at, |buff|), |source|, at, source, 0, eof);
    if r.Some? {
      WriteRoundsTables(s1, d, 0, Rounds(at, |buff|), |source|, at, source, 0, eof, r.value);
      TablesLength(s1, r.value);
    }
  }

  /** A write that fits and for which there are blocks enough puts the buffer at its offset: the
      call returns, and the content is the old one overwritten. */
  lemma FittingWriteSucceeds(s: State, d: nat, buff: seq<Byte>)
    requires Inv(s) && IsOpen(s, d) && s.open[d].inode < |s.inodes| && |s.bits| <= BLOCKS && WriteFits(s, d, |buff|)
    requires s.inodes[s.open[d].inode].size <= FILE_BYTES && s.open[d].offset + |buff| < FILE_BYTES
    requires s.open[d].offset <= |Content(s, s.open[d].inode)|
    ensures Write(s, d, buff).Some? <==> BlocksNeeded(s, d, |buff|) <= |ClearSet(s.bits)|
    ensures Write(s, d, buff).Some? ==>
      var (s', n) := Write(s, d, buff).value;
      n == |buff| && |s'.inodes| == |s.inodes|
      && Content(s', s.open[d].inode) == Overwrite(Content(s, s.open[d].inode), s.open[d].offset, buff)
  {
    hide Inv, Write, FlatOf, WriteCallFlat, ClearSet, MissingFrom;
    var i := s.open[d].inode;
    WriteGoesThrough(s, d, buff);
    FittingWrite(FlatOf(s, i), s.open[d].offset, s.inodes[i].size, buff);
    if Write(s, d, buff).Some? {
      WriteOverwrites(s, d, buff, Write(s, d, buff).value.0, Write(s, d, buff).value.1);
    }
  }

  // ----- read

  lemma FetchBlockExactly(s: State, d: nat, m: nat)
    requires Inv(s) && IsOpen(s, d) && s.open[d].inode < |s.inodes|
    ensures FetchBlock(s, d, m).Some? <==> m < BLOCK_WORDS && s.open[d].address[m] != 0
    ensures FetchBlock(s, d, m).Some? ==> FetchBlock(s, d, m).value.open[d].address == s.open[d].address
  {
    OpenIsFile(s, d);
    hide Inv;
  }

  /** What is left of a flat read after a round. */
  function ReadInto(file: Flat, m: nat, at: nat, n: nat, into: seq<Byte>, from: nat): (r: seq<Byte>)
    requires m < BLOCK_WORDS && at + n <= BLOCK_BYTES && (n > 0 ==> from + n <= |into|)
    ensures |r| == |into|
  {
    if n == 0 then into else Splice(into, from, file[BLOCK_BYTES * m + at..BLOCK_BYTES * m + at + n])
  }

  lemma ReadFlatMore(file: Flat, m: nat, rounds: nat, count: nat, at: nat, into: seq<Byte>, from: nat)
    requires rounds > 0
    ensures var n := ChunkLength(count);
      ReadFlat(file, m, rounds, count, at, into, from) ==
      if m >= BLOCK_WORDS || at + n > BLOCK_BYTES || (n > 0 && from + n > |into|) then None
      else ReadFlat(file, m + 1, rounds - 1, count - n, 0, ReadInto(file, m, at, n, into, from), from + BLOCK_BYTES)
  {
  }

  lemma ReadRoundsMore(s: State, d: nat, m: nat, rounds: nat, count: nat, at: nat, buff: seq<Byte>, from: nat)
    requires d < |s.open| && rounds > 0
    ensures FetchBlock(s, d, m).None? ==> ReadRounds(s, d, m, rounds, count, at, buff, from).None?
    ensures FetchBlock(s, d, m).Some? ==>
      var s1, n := FetchBlock(s, d, m).value, ChunkLength(count);
      ReadRounds(s, d, m, rounds, count, at, buff, from) ==
      if at + n > BLOCK_BYTES || (n > 0 && from + n > |buff|) then None
      else
        var b1 := if n == 0 then buff else Splice(buff, from, s1.open[d].cache[m][at..at + n]);
        ReadRounds(s1, d, m + 1, rounds - 1, count - n, 0, b1, from + BLOCK_BYTES)
  {
  }

  /** The round can be done. */
  predicate CanRead(s: State, d: nat, m: nat, count: nat, at: nat, size: nat, from: nat)
    requires d < |s.open|
  {
    && m < BLOCK_WORDS && s.open[d].address[m] != 0
    && at + ChunkLength(count) <= BLOCK_BYTES && (ChunkLength(count) > 0 ==> from + ChunkLength(count) <= size)
  }

  lemma CannotRead(s: State, d: nat, m: nat, rounds: nat, count: nat, at: nat,
                   buff: seq<Byte>, from: nat, file: Flat, into: seq<Byte>)
    requires Inv(s) && IsOpen(s, d) && s.open[d].inode < |s.inodes| && |into| == |buff| && rounds > 0
    requires !CanRead(s, d, m, count, at, |buff|, from)
    ensures ReadRounds(s, d, m, rounds, count, at, buff, from).None?
    ensures ReadFlat(file, m, rounds, count, at, into, from).None? || MissingFrom(s.open[d].address, m, rounds) > 0
  {
    hide Inv, FetchBlock, Splice, ChunkLength, ReadRounds, ReadFlat, ReadInto, FlatOf;
    FetchBlockExactly(s, d, m);
    ReadRoundsMore(s, d, m, rounds, count, at, buff, from);
    ReadFlatMore(file, m, rounds, count, at, into, from);
  }

  lemma OneReadRound(s: State, d: nat, m: nat, rounds: nat, count: nat, at: nat,
                     buff: seq<Byte>, from: nat, file: Flat, into: seq<Byte>)
    returns (s1: State, b1: seq<Byte>, i1: seq<Byte>, rest: nat, next: nat)
    requires Inv(s) && IsOpen(s, d) && s.open[d].inode < |s.inodes| && |into| == |buff| && rounds > 0
    requires CanRead(s, d, m, count, at, |buff|, from)
    ensures Inv(s1) && IsOpen(s1, d) && d < |s1.open| && s1.open[d].inode < |s1.inodes| && |i1| == |b1|
    ensures ReadRounds(s, d, m, rounds, count, at, buff, from)
      == ReadRounds(s1, d, m + 1, rounds - 1, rest, 0, b1, next)
    ensures ReadFlat(file, m, rounds, count, at, into, from)
      == ReadFlat(file, m + 1, rounds - 1, rest, 0, i1, next)
    ensures MissingFrom(s.open[d].address, m, rounds) == MissingFrom(s1.open[d].address, m + 1, rounds - 1)
  {
    hide Inv, FetchBlock, Splice, ChunkLength, ReadRounds, ReadFlat, ReadInto, FlatOf;
    FetchBlockExactly(s, d, m);
    ReadRoundsMore(s, d, m, rounds, count, at, buff, from);
    ReadFlatMore(file, m, rounds, count, at, into, from);
    var n := ChunkLength(count);
    s1 := FetchBlock(s, d, m).value;
    FetchFacts(s, d, m, at, n);
    SplicedSize(buff, from, s1.open[d].cache[m], at, n);
    b1 := if n == 0 then buff else Splice(buff, from, s1.open[d].cache[m][at..at + n]);
    i1 := ReadInto(file, m, at, n, into, from);
    rest, next := count - n, from + BLOCK_BYTES;
  }

  lemma NoRounds(s: State, d: nat, m: nat, count: nat, at: nat, buff: seq<Byte>, from: nat, file: Flat, into: seq<Byte>)
    requires d < |s.open|
    ensures ReadRounds(s, d, m, 0, count, at, buff, from) == Some((s, buff))
    ensures ReadFlat(file, m, 0, count, at, into, from) == Some(into) && MissingFrom(s.open[d].address, m, 0) == 0
  {
  }

  lemma {:induction false} ReadRoundsExactly(s: State, d: nat, m: nat, rounds: nat, count: nat, at: nat,
                                             buff: seq<Byte>, from: nat, file: Flat, into: seq<Byte>)
    requires Inv(s) && d < |s.open| && IsOpen(s, d) && s.open[d].inode < |s.inodes| && |into| == |buff|
    ensures ReadRounds(s, d, m, rounds, count, at, buff, from).Some? <==>
      ReadFlat(file, m, rounds, count, at, into, from).Some? && MissingFrom(s.open[d].address, m, rounds) == 0
    decreases rounds
  {
    hide *;
    if rounds == 0 {
      NoRounds(s, d, m, count, at, buff, from, file, into);
    } else if CanRead(s, d, m, count, at, |buff|, from) {
      var s1, b1, i1, rest, next := OneReadRound(s, d, m, rounds, count, at, buff, from, file, into);
      ReadRoundsExactly(s1, d, m + 1, rounds - 1, rest, 0, b1, next, file, i1);
    } else {
      CannotRead(s, d, m, rounds, count, at, buff, from, file, into);
    }
  }

  lemma SplicedSize(buff: seq<Byte>, from: nat, bytes: seq<Byte>, at: nat, n: nat)
    requires at + n <= |bytes| && (n > 0 ==> from + n <= |buff|)
    ensures n > 0 ==> |Splice(buff, from, bytes[at..at + n])| == |buff|
  {
  }

  /** A read goes through exactly when the offset is within the content, its flat transfer goes
      through, and every block it visits has been written. */
  lemma ReadGoesThrough(s: State, d: nat, buff: seq<Byte>, count: nat)
    requires Inv(s) && IsOpen(s, d) && s.open[d].inode < |s.inodes|
    ensures var i, o := s.open[d].inode, s.open[d].offset;
      var n := Clamped(o, count, s.inodes[i].size);
      Read(s, d, buff, count).Some? <==>
        && n >= 0 && ReadCallFlat(FlatOf(s, i), o, n, buff).Some?
        && BlocksNeeded(s, d, n) == 0
  {
    hide Inv, FlatOf, ReadRounds, ReadFlat, Rounds, MissingFrom;
    var i, o := s.open[d].inode, s.open[d].offset;
    var n, at := Clamped(o, count, s.inodes[i].size), o % BLOCK_BYTES;
    if n >= 0 {
      ReadRoundsExactly(s, d, 0, Rounds(at, n), n, at, buff, 0, FlatOf(s, i), buff);
      var r := ReadRounds(s, d, 0, Rounds(at, n), n, at, buff, 0);
      if r.Some? { ReadRoundsKeepInv(s, d, 0, Rounds(at, n), n, at, buff, 0, r.value.0, r.value.1); }
    }
  }
}
