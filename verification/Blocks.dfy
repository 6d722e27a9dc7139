/** Disk blocks: 8 KiB, seen by the file system either as 8192 bytes of data or as an
    index of 2048 little-endian 32-bit words (directory entries, block addresses). */
module Blocks {

  const BLOCK_BYTES: int := 8192
  const BLOCK_WORDS: int := 2048

  // Sector numbers: the file system starts at this sector and a block is 16 sectors long.
  const FILE_SYSTEM_BASE: int := 34816
  const BLOCK_SECTORS: int := 16

  type Byte = b: int | 0 <= b < 256
  type Word = w: int | 0 <= w < 0x1_0000_0000
  type Block = b: seq<Byte> | |b| == 8192 witness seq(8192, _ => 0)
  type Words = w: seq<Word> | |w| == 2048 witness seq(2048, _ => 0)

  function ZeroBlock(): Block {
    seq(8192, _ => 0)
  }

  function WordAt(b: Block, i: nat): Word
    requires i < BLOCK_WORDS
  {
    b[4 * i] as int + 0x100 * b[4 * i + 1] as int + 0x1_0000 * b[4 * i + 2] as int + 0x100_0000 * b[4 * i + 3] as int
  }

  /** Reading a block into an array of 32-bit integers. */
  function WordsOf(b: Block): Words {
    seq(2048, i requires 0 <= i < 2048 => WordAt(b, i))
  }

  function ByteOf(w: Word, k: int): Byte {
    if k == 0 then w % 0x100
    else if k == 1 then w / 0x100 % 0x100
    else if k == 2 then w / 0x1_0000 % 0x100
    else w / 0x100_0000
  }

  /** Writing an array of 32-bit integers to a block. */
  function BytesOf(w: Words): Block {
    seq(8192, j requires 0 <= j < 8192 => ByteOf(w[j / 4], j % 4))
  }

  lemma WordRoundTrip(w: Word)
    ensures w == ByteOf(w, 0) + 0x100 * ByteOf(w, 1) + 0x1_0000 * ByteOf(w, 2) + 0x100_0000 * ByteOf(w, 3)
  {
    var a := w / 0x100;
    var b := a / 0x100;
    assert b == w / 0x1_0000;
    assert b / 0x100 == w / 0x100_0000;
  }

  /** What is written as words reads back as the same words. */
  lemma WordsRoundTrip(w: Words)
    ensures WordsOf(BytesOf(w)) == w
  {
    var b := BytesOf(w);
    forall i | 0 <= i < 2048
      ensures WordAt(b, i) == w[i]
    {
      WordRoundTrip(w[i]);
      assert b[4 * i] == ByteOf(w[i], 0);
      assert b[4 * i + 1] == ByteOf(w[i], 1);
      assert b[4 * i + 2] == ByteOf(w[i], 2);
      assert b[4 * i + 3] == ByteOf(w[i], 3);
    }
  }

  lemma ZeroWords()
    ensures forall i :: 0 <= i < 2048 ==> WordsOf(ZeroBlock())[i] == 0
  {
  }

  function AddressOf(k: nat): int {
    FILE_SYSTEM_BASE + BLOCK_SECTORS * k
  }

  function BlockNumber(address: int): int {
    (address - FILE_SYSTEM_BASE) / BLOCK_SECTORS
  }

  /** Overwrites part of a sequence, the effect of memcpy into a buffer. */
  function Splice<T>(s: seq<T>, at: nat, t: seq<T>): (r: seq<T>)
    requires at + |t| <= |s|
    ensures |r| == |s|
    ensures forall i :: 0 <= i < |s| ==> r[i] == if at <= i < at + |t| then t[i - at] else s[i]
  {
    s[..at] + t + s[at + |t|..]
  }

  lemma SpliceTwice<T>(s: seq<T>, at: nat, t: seq<T>, u: seq<T>)
    requires at + |t| + |u| <= |s|
    ensures Splice(Splice(s, at, t), at + |t|, u) == Splice(s, at, t + u)
  {
  }
}
