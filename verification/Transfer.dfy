/** The transfer loops of read and write on the flat contents of one file, and exactly when
    they move the bytes they should. */
module Transfer {
  import opened Blocks
  import opened FsState
  import opened Options

  // 2048 data blocks of 8192 bytes
  const FILE_BYTES: int := 16777216

  type Flat = f: seq<Byte> | |f| == 16777216 witness seq(16777216, _ => 0)

  // ----- write

  /** The rounds of write on the flat file. */
  function WriteFlat(file: Flat, m: nat, rounds: nat, count: nat, at: nat,
                     source: seq<Byte>, from: nat, eof: bool): Option<Flat>
    decreases rounds
  {
    if rounds == 0 then Some(file)
    else
      match Piece(source, from, count, eof)
      case None => None
      case Some(bytes) =>
        if m >= BLOCK_WORDS || at + |bytes| > BLOCK_BYTES then None
        else WriteFlat(Splice(file, BLOCK_BYTES * m + at, bytes), m + 1, rounds - 1, count - |bytes|, 0,
                       source, from + BLOCK_BYTES, eof)
  }

  /** What write does with a buffer, at an offset of a file of a given size. */
  function WriteCallFlat(file: Flat, offset: nat, size: nat, buff: seq<Byte>): Option<Flat> {
    var eof := offset + |buff| >= size;
    var source := if eof then buff + [0] else buff;
    var at := offset % BLOCK_BYTES;
    WriteFlat(file, 0, Rounds(at, |buff|), |source|, at, source, 0, eof)
  }

  /** The bytes a write is meant to put at its offset: the buffer, and the end marker when it
      reaches the end of the file. */
  function Payload(offset: nat, size: nat, buff: seq<Byte>): seq<Byte> {
    if offset + |buff| >= size then buff + [END_MARKER] else buff
  }

  function PayloadLength(offset: nat, size: nat, count: nat): nat {
    if offset + count >= size then count + 1 else count
  }

  /** One block holds it all, or whole blocks from the start of the file, or nothing at all. */
  predicate Fits(offset: nat, length: nat) {
    offset + length <= BLOCK_BYTES || (offset == 0 && length % BLOCK_BYTES == 0) || length == 0
  }

  /** The remainder chunk comes first, then whole blocks. */
  lemma ChunkFacts(n: nat)
    requires n > 0
    ensures var f := ChunkLength(n);
      && 0 < f <= BLOCK_BYTES && f <= n && (n > f ==> n >= f + BLOCK_BYTES)
      && (f == BLOCK_BYTES <==> n % BLOCK_BYTES == 0)
      && (n <= BLOCK_BYTES ==> f == n)
      && (n > f ==> ChunkLength(n - f) == BLOCK_BYTES)
  {
  }

  /** A transfer that does not fit and whose first round stays in its block has more to do. */
  lemma MisfitFacts(offset: nat, n: nat)
    requires !Fits(offset, n)
    ensures n > 0 && ChunkLength(n) > 0
    ensures offset < BLOCK_BYTES && offset + ChunkLength(n) <= BLOCK_BYTES ==>
      ChunkLength(n) < n && ChunkLength(n) < BLOCK_BYTES && ChunkLength(n) + BLOCK_BYTES <= n
  {
    ChunkFacts(n);
  }

  lemma InFirstBlock(offset: nat)
    requires offset < BLOCK_BYTES
    ensures offset % BLOCK_BYTES == offset
  {
  }

  /** There is a second round whenever there is a byte beyond the first block. */
  lemma RoundsFacts(at: nat, count: nat)
    requires at < BLOCK_BYTES
    ensures Rounds(at, count) >= 1 && (at + count > BLOCK_BYTES ==> Rounds(at, count) >= 2)
  {
  }

  lemma LaterRoundsKeep(file: Flat, m: nat, rounds: nat, count: nat, at: nat,
                        source: seq<Byte>, from: nat, eof: bool, p: nat)
    requires p < BLOCK_BYTES * m && p < FILE_BYTES
    requires WriteFlat(file, m, rounds, count, at, source, from, eof).Some?
    ensures WriteFlat(file, m, rounds, count, at, source, from, eof).value[p] == file[p]
    decreases rounds
  {
    if rounds > 0 {
      var bytes := Piece(source, from, count, eof).value;
      var file' := Splice(file, BLOCK_BYTES * m + at, bytes);
      LaterRoundsKeep(file', m + 1, rounds - 1, count - |bytes|, 0, source, from + BLOCK_BYTES, eof, p);
    }
  }

  /** The tail of the source from position `from` on, with the end marker in its last place. */
  function Tail(source: seq<Byte>, from: nat, eof: bool): seq<Byte>
    requires from <= |source| && (eof ==> from < |source|)
  {
    if eof then source[from..|source| - 1] + [END_MARKER] else source[from..]
  }

  lemma WholeBlock(rounds: nat)
    requires rounds > 0
    ensures ChunkLength(BLOCK_BYTES * rounds) == BLOCK_BYTES
  {
    assert (BLOCK_BYTES * rounds - 1) == BLOCK_BYTES * (rounds - 1) + (BLOCK_BYTES - 1);
  }

  lemma TailStep(source: seq<Byte>, from: nat, rest: nat, eof: bool)
    requires from + rest == |source| && rest > BLOCK_BYTES && ChunkLength(rest) == BLOCK_BYTES
    ensures Piece(source, from, rest, eof) == Some(source[from..from + BLOCK_BYTES])
    ensures Tail(source, from, eof) == source[from..from + BLOCK_BYTES] + Tail(source, from + BLOCK_BYTES, eof)
  {
  }

  lemma TailEnd(source: seq<Byte>, from: nat, eof: bool)
    requires from + BLOCK_BYTES == |source|
    ensures Piece(source, from, BLOCK_BYTES, eof) == Some(Tail(source, from, eof))
  {
    assert source[from..from + BLOCK_BYTES] == source[from..];
  }

  lemma {:induction false} WholeBlocks(file: Flat, m: nat, rounds: nat, source: seq<Byte>, eof: bool)
    requires |source| == BLOCK_BYTES * (m + rounds) <= FILE_BYTES && rounds > 0
    ensures WriteFlat(file, m, rounds, BLOCK_BYTES * rounds, 0, source, BLOCK_BYTES * m, eof)
         == Some(Splice(file, BLOCK_BYTES * m, Tail(source, BLOCK_BYTES * m, eof)))
    decreases rounds
  {
    var from := BLOCK_BYTES * m;
    WholeBlock(rounds);
    if rounds == 1 {
      TailEnd(source, from, eof);
      var file' := Splice(file, from, Tail(source, from, eof));
      assert WriteFlat(file', m + 1, 0, 0, 0, source, from + BLOCK_BYTES, eof) == Some(file');
    } else {
      var bytes := source[from..from + BLOCK_BYTES];
      TailStep(source, from, BLOCK_BYTES * rounds, eof);
      WholeBlocks(Splice(file, from, bytes), m + 1, rounds - 1, source, eof);
      SpliceTwice(file, from, bytes, Tail(source, from + BLOCK_BYTES, eof));
    }
  }

  lemma SingleRound(at: nat, count: nat, length: nat)
    requires at < BLOCK_BYTES && at + length <= BLOCK_BYTES && count <= length
    ensures Rounds(at, count) == 1 && ChunkLength(length) == length
  {
  }

  lemma WholePiece(buff: seq<Byte>, eof: bool)
    requires |buff| + (if eof then 1 else 0) <= BLOCK_BYTES
    ensures var source := if eof then buff + [0] else buff;
      Piece(source, 0, |source|, eof) == Some(if eof then buff + [END_MARKER] else buff)
  {
    var source := if eof then buff + [0] else buff;
    SingleRound(0, 0, |source|);
    assert source[0..|source|] == source && (eof ==> source[0..|source| - 1] == buff);
  }

  lemma OneRound(file: Flat, offset: nat, size: nat, buff: seq<Byte>)
    requires offset < BLOCK_BYTES && offset + PayloadLength(offset, size, |buff|) <= BLOCK_BYTES
    ensures WriteCallFlat(file, offset, size, buff) == Some(Splice(file, offset, Payload(offset, size, buff)))
  {
    var eof := offset + |buff| >= size;
    var source := if eof then buff + [0] else buff;
    var payload := Payload(offset, size, buff);
    InFirstBlock(offset);
    SingleRound(offset, |buff|, |source|);
    WholePiece(buff, eof);
    hide Piece, Rounds, ChunkLength, Splice;
    assert WriteFlat(Splice(file, offset, payload), 1, 0, 0, 0, source, BLOCK_BYTES, eof) ==
        Some(Splice(file, offset, payload));
  }

  lemma NothingToWrite(file: Flat, offset: nat, size: nat)
    requires offset < size && offset <= FILE_BYTES
    ensures WriteCallFlat(file, offset, size, []) == Some(Splice(file, offset, []))
  {
    var at := offset % BLOCK_BYTES;
    assert Rounds(at, 0) == 1;
    assert Piece([], 0, 0, false) == Some([]);
    assert Splice(file, at, []) == file;
    assert Splice(file, offset, []) == file;
    assert WriteFlat(file, 1, 0, 0, 0, [], BLOCK_BYTES, false) == Some(file);
  }

  lemma FittingWrite(file: Flat, offset: nat, size: nat, buff: seq<Byte>)
    requires var n := PayloadLength(offset, size, |buff|); offset + n <= FILE_BYTES && Fits(offset, n)
    ensures WriteCallFlat(file, offset, size, buff) == Some(Splice(file, offset, Payload(offset, size, buff)))
  {
    var n := PayloadLength(offset, size, |buff|);
    if n == 0 {
      assert buff == [];
      NothingToWrite(file, offset, size);
    } else if offset + n <= BLOCK_BYTES {
      OneRound(file, offset, size, buff);
    } else {
      var eof := |buff| >= size;
      var source := if eof then buff + [0] else buff;
      var rounds := n / BLOCK_BYTES;
      assert n == BLOCK_BYTES * rounds && Rounds(0, |buff|) == rounds;
      WholeBlocks(file, 0, rounds, source, eof);
      assert Tail(source, 0, eof) == Payload(offset, size, buff);
    }
  }

  // The probe that shows a write going wrong: a file of zeros, a buffer with none.
  function Zeros(): Flat {
    seq(16777216, _ => 0)
  }

  function Probe(count: nat): seq<Byte> {
    seq(count, k => if k < BLOCK_BYTES then 1 else 2)
  }

  /** Exactly when the transfer fits is a write right for every file and every buffer. */
  lemma WriteExact(offset: nat, size: nat, count: nat)
    requires offset + PayloadLength(offset, size, count) <= FILE_BYTES
    ensures (forall file: Flat, buff: seq<Byte> | |buff| == count ::
              WriteCallFlat(file, offset, size, buff) == Some(Splice(file, offset, Payload(offset, size, buff))))
       <==> Fits(offset, PayloadLength(offset, size, count))
  {
    if Fits(offset, PayloadLength(offset, size, count)) {
      forall file: Flat, buff: seq<Byte> | |buff| == count
        ensures WriteCallFlat(file, offset, size, buff) == Some(Splice(file, offset, Payload(offset, size, buff)))
      {
        FittingWrite(file, offset, size, buff);
      }
    } else {
      MisplacedWrite(offset, size, count);
    }
  }

  /** The first round: what is left to do after it. */
  lemma FirstRound(file: Flat, offset: nat, size: nat, buff: seq<Byte>, source: seq<Byte>, at: nat, rounds: nat)
    returns (file1: Flat, bytes: seq<Byte>)
    requires source == if offset + |buff| >= size then buff + [0] else buff
    requires at == offset % BLOCK_BYTES && rounds == Rounds(at, |buff|)
    requires WriteCallFlat(file, offset, size, buff).Some?
    ensures Piece(source, 0, |source|, offset + |buff| >= size) == Some(bytes) && |bytes| == ChunkLength(|source|)
    ensures at + |bytes| <= BLOCK_BYTES && file1 == Splice(file, at, bytes) && rounds > 0
    ensures WriteCallFlat(file, offset, size, buff)
         == WriteFlat(file1, 1, rounds - 1, |source| - |bytes|, 0, source, BLOCK_BYTES, offset + |buff| >= size)
  {
    var eof := offset + |buff| >= size;
    bytes := Piece(source, 0, |source|, eof).value;
    file1 := Splice(file, at, bytes);
  }

  lemma ProbeBytes(count: nat, eof: bool, bytes: seq<Byte>)
    requires Piece(if eof then Probe(count) + [0] else Probe(count), 0, count + (if eof then 1 else 0), eof)
      == Some(bytes)
    ensures forall k :: 0 <= k < |bytes| ==> bytes[k] != 0
  {
  }

  lemma PastFirstBlock(offset: nat, size: nat, count: nat)
    requires offset + PayloadLength(offset, size, count) <= FILE_BYTES
    requires offset >= BLOCK_BYTES && PayloadLength(offset, size, count) > 0
    requires WriteCallFlat(Zeros(), offset, size, Probe(count)).Some?
    ensures WriteCallFlat(Zeros(), offset, size, Probe(count)).value[offset % BLOCK_BYTES] != 0
  {
    var buff, at, eof := Probe(count), offset % BLOCK_BYTES, offset + count >= size;
    var source := if eof then buff + [0] else buff;
    var rounds := Rounds(at, count);
    var file1, bytes := FirstRound(Zeros(), offset, size, buff, source, at, rounds);
    LaterRoundsKeep(file1, 1, rounds - 1, |source| - |bytes|, 0, source, BLOCK_BYTES, eof, at);
    ProbeBytes(count, eof, bytes);
    assert file1[at] == bytes[0];
  }

  lemma ShortFirstRound(offset: nat, size: nat, count: nat)
    requires offset < BLOCK_BYTES
    requires var n := PayloadLength(offset, size, count);
      n > 0 && offset + ChunkLength(n) < BLOCK_BYTES && WriteCallFlat(Zeros(), offset, size, Probe(count)).Some?
    ensures var f := ChunkLength(PayloadLength(offset, size, count));
      WriteCallFlat(Zeros(), offset, size, Probe(count)).value[offset + f] == 0
  {
    var buff, eof := Probe(count), offset + count >= size;
    var source := if eof then buff + [0] else buff;
    var rounds := Rounds(offset, count);
    InFirstBlock(offset);
    var file1, bytes := FirstRound(Zeros(), offset, size, buff, source, offset, rounds);
    LaterRoundsKeep(file1, 1, rounds - 1, |source| - |bytes|, 0, source, BLOCK_BYTES, eof, offset + |bytes|);
  }

  lemma MisplacedWrite(offset: nat, size: nat, count: nat)
    requires offset + PayloadLength(offset, size, count) <= FILE_BYTES
    requires !Fits(offset, PayloadLength(offset, size, count))
    ensures WriteCallFlat(Zeros(), offset, size, Probe(count))
         != Some(Splice(Zeros(), offset, Payload(offset, size, Probe(count))))
  {
    var buff, n := Probe(count), PayloadLength(offset, size, count);
    var want, f := Splice(Zeros(), offset, Payload(offset, size, buff)), ChunkLength(n);
    if WriteCallFlat(Zeros(), offset, size, buff).Some? {
      MisfitFacts(offset, n);
      if offset >= BLOCK_BYTES {
        PastFirstBlock(offset, size, count);
        assert want[offset % BLOCK_BYTES] == 0;
      } else if offset + f < BLOCK_BYTES {
        ShortFirstRound(offset, size, count);
        assert want[offset + f] == Payload(offset, size, buff)[f] != 0;
      } else {
        FullFirstRound(offset, size, count);
        assert want[BLOCK_BYTES] == buff[f] == 1;
      }
    }
  }

  lemma FullFirstRound(offset: nat, size: nat, count: nat)
    requires offset < BLOCK_BYTES && !Fits(offset, PayloadLength(offset, size, count))
    requires var n := PayloadLength(offset, size, count);
      n > 0 && offset + ChunkLength(n) >= BLOCK_BYTES && WriteCallFlat(Zeros(), offset, size, Probe(count)).Some?
    ensures var f := ChunkLength(PayloadLength(offset, size, count));
      0 < offset && f < BLOCK_BYTES && offset + f == BLOCK_BYTES
    ensures WriteCallFlat(Zeros(), offset, size, Probe(count)).value[BLOCK_BYTES] != 1
    ensures ChunkLength(PayloadLength(offset, size, count)) < count
  {
    var buff, eof := Probe(count), offset + count >= size;
    var source := if eof then buff + [0] else buff;
    var rounds := Rounds(offset, count);
    InFirstBlock(offset);
    MisfitFacts(offset, |source|);
    RoundsFacts(offset, count);
    assert source[..count] == buff;
    hide Rounds, ChunkLength, Fits, Piece, WriteCallFlat, Splice;
    var file1, bytes := FirstRound(Zeros(), offset, size, buff, source, offset, rounds);
    SecondBlockMisplaced(file1, rounds - 1, |source|, |bytes|, source, eof, buff);
  }

  lemma ProbeSecondBlock(buff: seq<Byte>, source: seq<Byte>, rest: nat, eof: bool, bytes: seq<Byte>)
    requires BLOCK_BYTES < |buff| <= |source| && source[..|buff|] == buff == Probe(|buff|)
    requires ChunkLength(rest) == BLOCK_BYTES && Piece(source, BLOCK_BYTES, rest, eof) == Some(bytes)
    ensures bytes[0] != 1
  {
    assert source[BLOCK_BYTES] == buff[BLOCK_BYTES];
  }

  lemma SecondBlockMisplaced(file: Flat, rounds: nat, n: nat, f: nat, source: seq<Byte>, eof: bool, buff: seq<Byte>)
    requires n == |source| && 0 < f < BLOCK_BYTES && f == ChunkLength(n) < n && rounds > 0
    requires |buff| <= n <= |buff| + 1 && source[..|buff|] == buff == Probe(|buff|)
    requires WriteFlat(file, 1, rounds, n - f, 0, source, BLOCK_BYTES, eof).Some?
    ensures WriteFlat(file, 1, rounds, n - f, 0, source, BLOCK_BYTES, eof).value[BLOCK_BYTES] != 1
  {
    ChunkFacts(n);
    var bytes := Piece(source, BLOCK_BYTES, n - f, eof).value;
    assert |source| >= 2 * BLOCK_BYTES;
    ProbeSecondBlock(buff, source, n - f, eof, bytes);
    var file' := Splice(file, BLOCK_BYTES, bytes);
    LaterRoundsKeep(file', 2, rounds - 1, n - f - BLOCK_BYTES, 0, source, 2 * BLOCK_BYTES, eof, BLOCK_BYTES);
  }

  // ----- read

  /** The rounds of read on the flat file, into a buffer. */
  function ReadFlat(file: Flat, m: nat, rounds: nat, count: nat, at: nat,
                    buff: seq<Byte>, from: nat): (r: Option<seq<Byte>>)
    ensures r.Some? ==> |r.value| == |buff|
    decreases rounds
  {
    if rounds == 0 then Some(buff)
    else
      var n := ChunkLength(count);
      if m >= BLOCK_WORDS || at + n > BLOCK_BYTES || (n > 0 && from + n > |buff|) then None
      else
        var p := BLOCK_BYTES * m + at;
        var buff' := if n == 0 then buff else Splice(buff, from, file[p..p + n]);
        ReadFlat(file, m + 1, rounds - 1, count - n, 0, buff', from + BLOCK_BYTES)
  }

  function ReadCallFlat(file: Flat, offset: nat, count: nat, buff: seq<Byte>): Option<seq<Byte>> {
    var at := offset % BLOCK_BYTES;
    ReadFlat(file, 0, Rounds(at, count), count, at, buff, 0)
  }

  lemma LaterReadsKeep(file: Flat, m: nat, rounds: nat, count: nat, at: nat, buff: seq<Byte>, from: nat, p: nat)
    requires p < from && p < |buff|
    requires ReadFlat(file, m, rounds, count, at, buff, from).Some?
    ensures ReadFlat(file, m, rounds, count, at, buff, from).value[p] == buff[p]
    decreases rounds
  {
    if rounds > 0 {
      var n := ChunkLength(count);
      var q := BLOCK_BYTES * m + at;
      var buff' := if n == 0 then buff else Splice(buff, from, file[q..q + n]);
      LaterReadsKeep(file, m + 1, rounds - 1, count - n, 0, buff', from + BLOCK_BYTES, p);
    }
  }

  lemma {:induction false} WholeBlockReads(file: Flat, m: nat, rounds: nat, buff: seq<Byte>)
    requires BLOCK_BYTES * (m + rounds) <= FILE_BYTES && BLOCK_BYTES * (m + rounds) <= |buff|
    ensures ReadFlat(file, m, rounds, BLOCK_BYTES * rounds, 0, buff, BLOCK_BYTES * m)
         == Some(Splice(buff, BLOCK_BYTES * m, file[BLOCK_BYTES * m..BLOCK_BYTES * (m + rounds)]))
    decreases rounds
  {
    var from := BLOCK_BYTES * m;
    if rounds == 0 {
      assert Splice(buff, from, file[from..from]) == buff;
    } else {
      WholeBlock(rounds);
      var buff' := Splice(buff, from, file[from..from + BLOCK_BYTES]);
      WholeBlockReads(file, m + 1, rounds - 1, buff');
      assert Splice(buff', from + BLOCK_BYTES, file[from + BLOCK_BYTES..from + BLOCK_BYTES * rounds])
          == Splice(buff, from, file[from..from + BLOCK_BYTES * rounds]);
    }
  }

  lemma FittingRead(file: Flat, offset: nat, count: nat, buff: seq<Byte>)
    requires offset + count <= FILE_BYTES && count <= |buff| && Fits(offset, count)
    ensures ReadCallFlat(file, offset, count, buff) == Some(Splice(buff, 0, file[offset..offset + count]))
  {
    var at := offset % BLOCK_BYTES;
    if count == 0 {
      assert Rounds(at, 0) == 1;
      assert Splice(buff, 0, file[offset..offset]) == buff;
      assert ReadFlat(file, 1, 0, 0, 0, buff, BLOCK_BYTES) == Some(buff);
    } else if offset + count <= BLOCK_BYTES {
      assert Rounds(at, count) == 1 && ChunkLength(count) == count;
      var buff' := Splice(buff, 0, file[offset..offset + count]);
      assert ReadFlat(file, 1, 0, 0, 0, buff', BLOCK_BYTES) == Some(buff');
    } else {
      var rounds := count / BLOCK_BYTES;
      assert count == BLOCK_BYTES * rounds && Rounds(0, count) == rounds;
      WholeBlockReads(file, 0, rounds, buff);
    }
  }

  /** Exactly when the transfer fits does a read return the requested slice of every file. */
  lemma ReadExact(offset: nat, count: nat)
    requires offset + count <= FILE_BYTES
    ensures (forall file: Flat, buff: seq<Byte> | |buff| == count ::
              ReadCallFlat(file, offset, count, buff) == Some(file[offset..offset + count]))
       <==> Fits(offset, count)
  {
    if Fits(offset, count) {
      forall file: Flat, buff: seq<Byte> | |buff| == count
        ensures ReadCallFlat(file, offset, count, buff) == Some(file[offset..offset + count])
      {
        FittingRead(file, offset, count, buff);
        assert Splice(buff, 0, file[offset..offset + count]) == file[offset..offset + count];
      }
    } else {
      MisplacedRead(offset, count);
    }
  }

  lemma FirstReadRound(file: Flat, offset: nat, count: nat, buff: seq<Byte>, at: nat, rounds: nat)
    returns (buff1: seq<Byte>)
    requires count > 0 && |buff| == count && ReadCallFlat(file, offset, count, buff).Some?
    requires at == offset % BLOCK_BYTES && rounds == Rounds(at, count)
    ensures at + ChunkLength(count) <= BLOCK_BYTES && rounds > 0
    ensures buff1 == Splice(buff, 0, file[at..at + ChunkLength(count)])
    ensures ReadCallFlat(file, offset, count, buff)
         == ReadFlat(file, 1, rounds - 1, count - ChunkLength(count), 0, buff1, BLOCK_BYTES)
  {
    buff1 := Splice(buff, 0, file[at..at + ChunkLength(count)]);
  }

  /** Past the first block, the first byte comes from block 0. */
  lemma ReadPastFirstBlock(file: Flat, offset: nat, count: nat, buff: seq<Byte>)
    requires offset + count <= FILE_BYTES && offset >= BLOCK_BYTES && 0 < count == |buff|
    requires ReadCallFlat(file, offset, count, buff).Some?
    ensures ReadCallFlat(file, offset, count, buff).value[0] == file[offset % BLOCK_BYTES]
  {
    var at := offset % BLOCK_BYTES;
    var rounds, f := Rounds(at, count), ChunkLength(count);
    assert f > 0;
    hide Rounds, ChunkLength;
    var buff1 := FirstReadRound(file, offset, count, buff, at, rounds);
    LaterReadsKeep(file, 1, rounds - 1, count - f, 0, buff1, BLOCK_BYTES, 0);
  }

  /** The byte after a short first round is written by no round. */
  lemma ReadShortFirstRound(file: Flat, offset: nat, count: nat, buff: seq<Byte>)
    requires offset < BLOCK_BYTES && 0 < count == |buff|
    requires ChunkLength(count) < BLOCK_BYTES && ChunkLength(count) < count
    requires ReadCallFlat(file, offset, count, buff).Some?
    ensures ReadCallFlat(file, offset, count, buff).value[ChunkLength(count)] == buff[ChunkLength(count)]
    ensures offset + ChunkLength(count) <= BLOCK_BYTES
  {
    InFirstBlock(offset);
    var rounds, f := Rounds(offset, count), ChunkLength(count);
    var buff1 := FirstReadRound(file, offset, count, buff, offset, rounds);
    LaterReadsKeep(file, 1, rounds - 1, count - f, 0, buff1, BLOCK_BYTES, f);
  }

  lemma ReadOverruns(file: Flat, offset: nat, count: nat, buff: seq<Byte>)
    requires offset < BLOCK_BYTES < offset + ChunkLength(count)
    ensures ReadCallFlat(file, offset, count, buff).None?
  {
    InFirstBlock(offset);
  }

  lemma MisplacedRead(offset: nat, count: nat)
    requires offset + count <= FILE_BYTES && !Fits(offset, count)
    ensures var file: Flat := Probe(16777216);
      ReadCallFlat(file, offset, count, seq(count, _ => 0)) != Some(file[offset..offset + count])
  {
    var file: Flat := Probe(16777216);
    var buff: seq<Byte> := seq(count, _ => 0);
    var want, f := file[offset..offset + count], ChunkLength(count);
    MisfitFacts(offset, count);
    if ReadCallFlat(file, offset, count, buff).Some? {
      if offset >= BLOCK_BYTES {
        ReadPastFirstBlock(file, offset, count, buff);
        assert want[0] == file[offset] == 2;
      } else if offset + f <= BLOCK_BYTES {
        ReadShortFirstRound(file, offset, count, buff);
        assert want[f] == file[offset + f] != 0;
      } else {
        ReadOverruns(file, offset, count, buff);
      }
    }
  }
}
