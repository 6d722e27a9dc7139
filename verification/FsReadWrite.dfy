/** read and write as operations on the byte sequence a file holds. */
module FsReadWrite {
  import opened Blocks
  import opened FsState
  import opened FsInvariant
  import opened FsData
  import opened Transfer
  import opened FsContent
  import opened Options

  lemma InvShape(s: State)
    requires Inv(s)
    ensures |s.bits| == |s.disk| == BLOCKS && |s.inodes| == INODES
  {
  }

  // ----- write

  /** The state a write starts its rounds in. */
  function Enlarged(s: State, d: nat, count: nat): State
    requires d < |s.open| && s.open[d].inode < |s.inodes|
  {
    if ReachesEnd(s, d, count) then Resized(s, s.open[d].inode, s.open[d].offset + count + 1) else s
  }

  function Source(buff: seq<Byte>, eof: bool): seq<Byte> {
    if eof then buff + [0] else buff
  }

  lemma EnlargedKeepsInv(s: State, d: nat, count: nat)
    requires Inv(s) && IsOpen(s, d) && s.open[d].inode < |s.inodes|
    ensures Inv(Enlarged(s, d, count)) && IsOpen(Enlarged(s, d, count), d)
    ensures var s1 := Enlarged(s, d, count);
      |s1.inodes| == |s.inodes| && s1.open == s.open && s1.names == s.names && s1.disk == s.disk
  {
    hide Inv;
    ResizedKeepsInv(s, s.open[d].inode, s.open[d].offset + count + 1);
  }

  /** The parts of a successful write to an open file. */
  lemma WriteParts(s: State, d: nat, buff: seq<Byte>, s': State, n: int)
    returns (s1: State, source: seq<Byte>, at: nat, eof: bool, s2: State)
    requires IsOpen(s, d) && s.open[d].inode < |s.inodes| && |s.bits| <= BLOCKS
    requires Write(s, d, buff) == Some((s', n))
    ensures n == |buff| && at == s.open[d].offset % BLOCK_BYTES && eof == ReachesEnd(s, d, |buff|)
    ensures s1 == Enlarged(s, d, |buff|) && source == Source(buff, eof)
    ensures d < |s1.open| && s1.open[d].inode < |s1.inodes| && |s1.bits| <= BLOCKS
    ensures WriteRounds(s1, d, 0, Rounds(at, |buff|), |source|, at, source, 0, eof) == Some(s2)
    ensures d < |s2.open| && s' == Advanced(s2, d, |buff|)
  {
    hide WriteRounds, Rounds;
    eof := ReachesEnd(s, d, |buff|);
    at := s.open[d].offset % BLOCK_BYTES;
    s1, source := Enlarged(s, d, |buff|), Source(buff, eof);
    s2 := WriteRounds(s1, d, 0, Rounds(at, |buff|), |source|, at, source, 0, eof).value;
  }

  lemma OffsetIsFree(s: State, f: Descriptor, offset: nat)
    requires CoherentDescriptor(s, f)
    ensures CoherentDescriptor(s, f.(offset := offset))
  {
  }

  lemma AdvancedKeepsInv(s: State, d: nat, count: nat)
    requires Inv(s) && IsOpen(s, d)
    ensures Inv(Advanced(s, d, count)) && IsOpen(Advanced(s, d, count), d)
  {
    hide Inv, CoherentDescriptor, IsFile;
    OpenIsFile(s, d);
    OffsetIsFree(s, s.open[d], s.open[d].offset + count);
    DescriptorUpdateKeepsInv(s, d, s.open[d].(offset := s.open[d].offset + count));
  }

  lemma WriteKeepsInv(s: State, d: int, buff: seq<Byte>, s': State, n: int)
    requires Inv(s) && |s.bits| <= BLOCKS && Write(s, d, buff) == Some((s', n))
    ensures Inv(s') && |s'.open| == |s.open|
    ensures !(0 <= d < |s.open|) ==> s' == s && n == 0
  {
    hide Inv;
    if 0 <= d < |s.open| {
      assert IsOpen(s, d);
      OpenIsFile(s, d);
      assert s.open[d].inode < |s.inodes|;
      hide *;
      var s1, source, at, eof, s2 := WriteParts(s, d, buff, s', n);
      EnlargedKeepsInv(s, d, |buff|);
      WriteRoundsKeepInv(s1, d, 0, Rounds(at, |buff|), |source|, at, source, 0, eof, s2);
      WriteRoundsTables(s1, d, 0, Rounds(at, |buff|), |source|, at, source, 0, eof, s2);
      AdvancedKeepsInv(s2, d, |buff|);
      TablesLength(s1, s2);
      AdvancedLength(s2, d, |buff|);
    }
  }

  lemma TablesLength(s: State, s': State)
    requires SameTables(s, s')
    ensures |s'.open| == |s.open| && s'.inodes == s.inodes && s'.names == s.names
    ensures s'.image.inodes == s.image.inodes && s'.image.names == s.image.names
    ensures s.image.bits == s.bits ==> s'.image.bits == s'.bits
    ensures forall d :: 0 <= d < |s.open| ==>
      s'.open[d].used == s.open[d].used && s'.open[d].inode == s.open[d].inode && s'.open[d].offset == s.open[d].offset
  {
  }

  lemma AdvancedLength(s: State, d: nat, count: nat)
    requires d < |s.open|
    ensures var s' := Advanced(s, d, count);
      |s'.open| == |s.open| && s'.inodes == s.inodes && s'.names == s.names && s'.disk == s.disk
      && s' == s.(open := s'.open) && s'.open[d].offset == s.open[d].offset + count
      && s'.open[d].inode == s.open[d].inode && s'.open[d].used == s.open[d].used
  {
  }

  lemma EnlargedInode(s: State, d: nat, count: nat, j: nat)
    requires d < |s.open| && s.open[d].inode < |s.inodes| && j < |s.inodes|
    ensures var s1, i := Enlarged(s, d, count), s.open[d].inode;
      && |s1.inodes| == |s.inodes| && s1.inodes[j].(size := 0) == s.inodes[j].(size := 0)
      && (j != i ==> s1.inodes[j] == s.inodes[j])
      && s1.inodes[i].size == (if ReachesEnd(s, d, count) then s.open[d].offset + count + 1 else s.inodes[i].size)
  {
  }

  /** On the bytes of the file a write is the flat transfer; the size follows. */
  lemma WriteFlatly(s: State, d: nat, buff: seq<Byte>, s': State, n: int)
    requires Inv(s) && IsOpen(s, d) && s.open[d].inode < |s.inodes| && |s.bits| <= BLOCKS
    requires Write(s, d, buff) == Some((s', n))
    ensures n == |buff| && |s'.inodes| == |s.inodes| && |s'.open| == |s.open|
    ensures var i, o := s.open[d].inode, s.open[d].offset;
      && WriteCallFlat(FlatOf(s, i), o, s.inodes[i].size, buff) == Some(FlatOf(s', i))
      && s'.inodes[i].size == (if o + |buff| >= s.inodes[i].size then o + |buff| + 1 else s.inodes[i].size)
      && s'.open[d].offset == o + |buff| && s'.open[d].inode == i && s'.open[d].used
  {
    var i := s.open[d].inode;
    assert s.open[d].used;
    hide Inv, IsOpen, WriteRounds, FlatOf, WriteFlat, Rounds, SameTables, Advanced, Enlarged, Write;
    var s1, source, at, eof, s2 := WriteParts(s, d, buff, s', n);
    EnlargedKeepsInv(s, d, |buff|);
    EnlargedInode(s, d, |buff|, i);
    SameDiskFlat(s, s1, i);
    WriteRoundsFlat(s1, d, 0, Rounds(at, |buff|), |source|, at, source, 0, eof, s2);
    WriteRoundsTables(s1, d, 0, Rounds(at, |buff|), |source|, at, source, 0, eof, s2);
    TablesLength(s1, s2);
    AdvancedLength(s2, d, |buff|);
    SameDiskFlat(s2, s', i);
  }

  /** A write changes no other file, ... */
  lemma WriteKeepsOthers(s: State, d: int, buff: seq<Byte>, s': State, n: int, j: nat)
    requires Inv(s) && |s.bits| <= BLOCKS && Write(s, d, buff) == Some((s', n)) && j < |s.inodes|
    ensures |s'.inodes| == |s.inodes| && s'.names == s.names && s'.inodes[j].(size := 0) == s.inodes[j].(size := 0)
    ensures IsFile(s, j) && !(0 <= d < |s.open| && s.open[d].inode == j) ==> Content(s', j) == Content(s, j)
  {
    hide Inv, FlatOf;
    if 0 <= d < |s.open| {
      assert IsOpen(s, d);
      OpenIsFile(s, d);
      assert s.open[d].inode < |s.inodes|;
      hide IsOpen, WriteRounds, Rounds, SameTables, Advanced, Enlarged, Write, CoherentDescriptor;
      var s1, source, at, eof, s2 := WriteParts(s, d, buff, s', n);
      EnlargedKeepsInv(s, d, |buff|);
      EnlargedInode(s, d, |buff|, j);
      SameDiskFlat(s, s1, j);
      WriteRoundsElsewhere(s1, d, 0, Rounds(at, |buff|), |source|, at, source, 0, eof, s2, j, 0);
      WriteRoundsTables(s1, d, 0, Rounds(at, |buff|), |source|, at, source, 0, eof, s2);
      TablesLength(s1, s2);
      AdvancedLength(s2, d, |buff|);
      SameDiskFlat(s2, s', j);
    }
  }

  /** ... and no directory entry. */
  lemma WriteKeepsEntries(s: State, d: int, buff: seq<Byte>, s': State, n: int, j: nat, m: nat)
    requires Inv(s) && |s.bits| <= BLOCKS && Write(s, d, buff) == Some((s', n))
    ensures Entry(s', j, m) == Entry(s, j, m)
  {
    hide Inv;
    if 0 <= d < |s.open| {
      assert IsOpen(s, d);
      OpenIsFile(s, d);
      assert s.open[d].inode < |s.inodes|;
      assert Alike(s, Enlarged(s, d, |buff|));
      hide IsOpen, WriteRounds, Entry, Rounds, SameTables, Enlarged, Write, CoherentDescriptor;
      var s1, source, at, eof, s2 := WriteParts(s, d, buff, s', n);
      EnlargedKeepsInv(s, d, |buff|);
      AlikeEntry(s, s1, j, m);
      WriteRoundsElsewhere(s1, d, 0, Rounds(at, |buff|), |source|, at, source, 0, eof, s2, j, m);
      AlikeEntry(s2, s', j, m);
    }
  }

  /** Bytes put at an offset of a content, which grows when they reach past its end. */
  function Overwrite(content: seq<Byte>, offset: nat, bytes: seq<Byte>): seq<Byte>
    requires offset <= |content|
  {
    content[..offset] + bytes + if offset + |bytes| < |content| then content[offset + |bytes|..] else []
  }

  lemma OverwriteFlat(file: Flat, size: nat, offset: nat, buff: seq<Byte>)
    requires size <= FILE_BYTES && offset + PayloadLength(offset, size, |buff|) <= FILE_BYTES
    requires offset <= if size == 0 then 0 else size - 1
    ensures var content := if size == 0 then [] else file[..size - 1];
            var file' := Splice(file, offset, Payload(offset, size, buff));
            var size' := if offset + |buff| >= size then offset + |buff| + 1 else size;
      size' <= FILE_BYTES && file'[..size' - 1] == Overwrite(content, offset, buff)
      && (offset + |buff| >= size ==> file'[offset + |buff|] == END_MARKER)
  {
  }

  /** The condition under which a call of write may move its bytes to the right places. */
  predicate WriteFits(s: State, d: nat, count: nat)
    requires d < |s.open| && s.open[d].inode < |s.inodes|
  {
    var o, size := s.open[d].offset, s.inodes[s.open[d].inode].size;
    Fits(o, PayloadLength(o, size, count))
  }

  /** A write that fits puts the buffer at the descriptor's offset of the content and moves
      the offset past it; reaching the end, it leaves the end marker there. */
  lemma WriteOverwrites(s: State, d: nat, buff: seq<Byte>, s': State, n: int)
    requires Inv(s) && IsOpen(s, d) && s.open[d].inode < |s.inodes| && |s.bits| <= BLOCKS
    requires Write(s, d, buff) == Some((s', n)) && WriteFits(s, d, |buff|)
    requires s.inodes[s.open[d].inode].size <= FILE_BYTES && s.open[d].offset + |buff| < FILE_BYTES
    requires s.open[d].offset <= |Content(s, s.open[d].inode)|
    ensures n == |buff| && |s'.inodes| == |s.inodes| && |s'.open| == |s.open|
    ensures var i, o := s.open[d].inode, s.open[d].offset;
      && Content(s', i) == Overwrite(Content(s, i), o, buff)
      && (o + |buff| > |Content(s, i)| ==> FlatOf(s', i)[o + |buff|] == END_MARKER)
      && s'.inodes[i].size == |Content(s', i)| + 1
      && s'.open[d] == s'.open[d].(used := true, inode := i, offset := o + |buff|)
  {
    hide Inv, Write, FlatOf, WriteCallFlat;
    var i, o := s.open[d].inode, s.open[d].offset;
    var size := s.inodes[i].size;
    WriteFlatly(s, d, buff, s', n);
    FittingWrite(FlatOf(s, i), o, size, buff);
    OverwriteFlat(FlatOf(s, i), size, o, buff);
  }

  // ----- read

  lemma {:induction false} ReadRoundsKeepInv(s: State, d: nat, m: nat, rounds: nat, count: nat, at: nat,
                                             buff: seq<Byte>, from: nat, s': State, buff': seq<Byte>)
    requires Inv(s) && IsOpen(s, d) && s.open[d].inode < |s.inodes|
    requires ReadRounds(s, d, m, rounds, count, at, buff, from) == Some((s', buff'))
    ensures Inv(s') && IsOpen(s', d) && s' == s.(open := s'.open) && |s'.open| == |s.open|
    ensures s'.open[d].offset == s.open[d].offset && s'.open[d].inode == s.open[d].inode
    decreases rounds
  {
    hide Inv, FlatOf, FetchBlock, Splice, ChunkLength;
    if rounds > 0 {
      var s1, n := FetchBlock(s, d, m).value, ChunkLength(count);
      FetchFacts(s, d, m, at, n);
      var b1 := if n == 0 then buff else Splice(buff, from, s1.open[d].cache[m][at..at + n]);
      ReadRoundsKeepInv(s1, d, m + 1, rounds - 1, count - n, 0, b1, from + BLOCK_BYTES, s', buff');
    }
  }

  lemma {:induction false} ReadRoundsFlat(s: State, d: nat, m: nat, rounds: nat, count: nat, at: nat,
                                          buff: seq<Byte>, from: nat, s': State, buff': seq<Byte>)
    requires Inv(s) && IsOpen(s, d) && s.open[d].inode < |s.inodes|
    requires ReadRounds(s, d, m, rounds, count, at, buff, from) == Some((s', buff'))
    ensures ReadFlat(FlatOf(s, s.open[d].inode), m, rounds, count, at, buff, from) == Some(buff')
    decreases rounds
  {
    hide Inv, FlatOf, FetchBlock, Splice, ChunkLength;
    if rounds > 0 {
      var s1, n := FetchBlock(s, d, m).value, ChunkLength(count);
      var i := s.open[d].inode;
      FetchFacts(s, d, m, at, n);
      OpenOnlyFlat(s, s1, i);
      var b1 := if n == 0 then buff else Splice(buff, from, s1.open[d].cache[m][at..at + n]);
      ReadRoundsFlat(s1, d, m + 1, rounds - 1, count - n, 0, b1, from + BLOCK_BYTES, s', buff');
    }
  }

  lemma OpenOnlyFlat(s: State, s': State, i: nat)
    requires s' == s.(open := s'.open) && i < |s.inodes|
    ensures FlatOf(s', i) == FlatOf(s, i)
  {
    SameFlat(s, s', i);
  }

  /** A fetched block holds the bytes of the file. */
  lemma FetchFacts(s: State, d: nat, m: nat, at: nat, n: nat)
    requires Inv(s) && IsOpen(s, d) && s.open[d].inode < |s.inodes|
    requires FetchBlock(s, d, m).Some? && at + n <= BLOCK_BYTES
    ensures var s1, i := FetchBlock(s, d, m).value, s.open[d].inode;
      && Inv(s1) && IsOpen(s1, d) && s1 == s.(open := s1.open) && |s1.open| == |s.open|
      && s1.open[d].offset == s.open[d].offset && s1.open[d].inode == i
      && m < BLOCK_WORDS && m in s1.open[d].cache
      && s1.open[d].cache[m][at..at + n] == FlatOf(s, i)[BLOCK_BYTES * m + at..BLOCK_BYTES * m + at + n]
  {
    var s1, f := FetchBlock(s, d, m).value, s.open[d];
    OpenIsFile(s, d);
    hide Inv;
    if m !in f.cache { LoadKeepsInv(s, d, m); }
    assert f.address[m] != 0 && s1.open[d].cache[m] == DiskBlock(s, IndexOf(s, f.inode)[m]);
    CachedBytes(s, f.inode, m, at, n);
  }

  lemma CachedBytes(s: State, i: nat, m: nat, at: nat, n: nat)
    requires i < |s.inodes| && m < BLOCK_WORDS && at + n <= BLOCK_BYTES && IndexOf(s, i)[m] != 0
    ensures DiskBlock(s, IndexOf(s, i)[m])[at..at + n] == FlatOf(s, i)[BLOCK_BYTES * m + at..BLOCK_BYTES * m + at + n]
  {
    var block, file := DiskBlock(s, IndexOf(s, i)[m]), FlatOf(s, i);
    var got, want := block[at..at + n], file[BLOCK_BYTES * m + at..BLOCK_BYTES * m + at + n];
    forall k | 0 <= k < n
      ensures got[k] == want[k]
    {
      var p := BLOCK_BYTES * m + at + k;
      InBlock(p, m);
      assert file[p] == FlatByte(s, i, p);
    }
  }

  /** A read of an open file keeps the invariant and changes nothing but its descriptor; on
      the buffer it is the flat transfer, of no more bytes than there is content. */
  lemma ReadFlatly(s: State, d: nat, buff: seq<Byte>, count: nat, s': State, buff': seq<Byte>, n: int)
    requires Inv(s) && IsOpen(s, d) && s.open[d].inode < |s.inodes|
    requires Read(s, d, buff, count) == Some((s', buff', n))
    ensures Inv(s') && s' == s.(open := s'.open) && |s'.open| == |s.open|
    ensures var i, o := s.open[d].inode, s.open[d].offset;
      && 0 <= n == Clamped(o, count, s.inodes[i].size)
      && ReadCallFlat(FlatOf(s, i), o, n, buff) == Some(buff')
      && IsOpen(s', d) && s'.open[d].offset == o + n && s'.open[d].inode == i
  {
    hide Inv, FlatOf, ReadRounds, ReadFlat, Rounds;
    var i, o := s.open[d].inode, s.open[d].offset;
    var m := Clamped(o, count, s.inodes[i].size);
    var at := o % BLOCK_BYTES;
    var (s1, b1) := ReadRounds(s, d, 0, Rounds(at, m), m, at, buff, 0).value;
    ReadRoundsKeepInv(s, d, 0, Rounds(at, m), m, at, buff, 0, s1, b1);
    ReadRoundsFlat(s, d, 0, Rounds(at, m), m, at, buff, 0, s1, b1);
    AdvancedKeepsInv(s1, d, m);
  }

  /** A read that fits returns the requested slice of the content, cut off at its end. */
  lemma ReadReturnsSlice(s: State, d: nat, buff: seq<Byte>, count: nat, s': State, buff': seq<Byte>, n: int)
    requires Inv(s) && IsOpen(s, d) && s.open[d].inode < |s.inodes|
    requires Read(s, d, buff, count) == Some((s', buff', n)) && count <= |buff|
    requires s.inodes[s.open[d].inode].size <= FILE_BYTES && s.open[d].offset <= |Content(s, s.open[d].inode)|
    requires var size := s.inodes[s.open[d].inode].size;
      size > 0 && Fits(s.open[d].offset, Clamped(s.open[d].offset, count, size))
    ensures var i, o := s.open[d].inode, s.open[d].offset;
      var content := Content(s, i);
      && n == (if o + count <= |content| then count else |content| - o)
      && buff' == content[o..o + n] + buff[n..]
      && s' == s.(open := s'.open) && IsOpen(s', d) && s'.open[d].offset == o + n
  {
    hide Inv, FlatOf, Read, ReadCallFlat;
    ReadFlatly(s, d, buff, count, s', buff', n);
    FittingRead(FlatOf(s, s.open[d].inode), s.open[d].offset, n, buff);
  }

  /** What was written is read back after seeking to where it was put. */
  lemma WriteSeekRead(s: State, d: nat, buff: seq<Byte>, s1: State, n: int, s2: State,
                      into: seq<Byte>, s3: State, got: seq<Byte>, r: int)
    requires Inv(s) && IsOpen(s, d) && s.open[d].inode < |s.inodes| && |s.bits| <= BLOCKS
    requires s.inodes[s.open[d].inode].size <= FILE_BYTES && s.open[d].offset + |buff| < FILE_BYTES
    requires s.open[d].offset <= |Content(s, s.open[d].inode)|
    requires WriteFits(s, d, |buff|) && Fits(s.open[d].offset, |buff|)
    requires Write(s, d, buff) == Some((s1, n)) && Seek(s1, d, s.open[d].offset) == Some(s2)
    requires |into| == |buff| && Read(s2, d, into, |buff|) == Some((s3, got, r))
    ensures r == |buff| && got == buff
  {
    hide Inv, Write, Read, FlatOf;
    var i, o := s.open[d].inode, s.open[d].offset;
    WriteOverwrites(s, d, buff, s1, n);
    WriteKeepsInv(s, d, buff, s1, n);
    SeekKeepsInv(s1, d, o, s2);
    OpenOnlyFlat(s1, s2, i);
    ReadReturnsSlice(s2, d, into, |buff|, s3, got, r);
  }

  /** The other descriptors stay as they are. */
  predicate OnlyAt(s: State, s': State, d: int) {
    |s'.open| == |s.open| && forall e :: 0 <= e < |s.open| && e != d ==> s'.open[e] == s.open[e]
  }

  lemma SeekKeepsInv(s: State, d: int, offset: nat, s': State)
    requires Inv(s) && Seek(s, d, offset) == Some(s')
    ensures Inv(s') && s' == s.(open := s'.open) && OnlyAt(s, s', d)
    ensures 0 <= d < |s.open| ==>
      && s'.open[d].offset == offset && s'.open[d].used && s'.open[d].inode == s.open[d].inode
      && s'.open[d].address == s.open[d].address && s'.open[d].cache == s.open[d].cache
  {
    hide Inv, CoherentDescriptor, IsFile;
    if 0 <= d < |s.open| {
      OpenIsFile(s, d);
      OffsetIsFree(s, s.open[d], offset);
      DescriptorUpdateKeepsInv(s, d, s.open[d].(offset := offset));
    }
  }

  lemma CloseKeepsInv(s: State, d: int, s': State)
    requires Inv(s) && Close(s, d) == Some(s')
    ensures Inv(s') && s' == s.(open := s'.open) && OnlyAt(s, s', d)
    ensures 0 <= d < |s.open| ==> !s'.open[d].used
  {
    hide Inv;
    if 0 <= d < |s.open| {
      DescriptorUpdateKeepsInv(s, d, s.open[d].(used := false));
    }
  }

  lemma ReadKeepsInv(s: State, d: int, buff: seq<Byte>, count: nat, s': State, buff': seq<Byte>, n: int)
    requires Inv(s) && Read(s, d, buff, count) == Some((s', buff', n))
    ensures Inv(s') && s' == s.(open := s'.open)
    ensures !(0 <= d < |s.open|) ==> s' == s && buff' == buff && n == 0
  {
    hide Inv, ReadRounds, Rounds, CoherentDescriptor, ReadCallFlat, FlatOf;
    if 0 <= d < |s.open| {
      OpenIsFile(s, d);
      ReadFlatly(s, d, buff, count, s', buff', n);
    }
  }
}
