/** The file system as a value: its state and what every call does to it, step by step as
    the kernel does it.  None is a call that leaves the modelled memory: a read or write
    outside a buffer or table, a full disk, a descriptor that is not open. */
module FsState {
  import opened Blocks
  import opened Names
  import opened Tokens
  import opened Bitmap
  import opened Options

  const BLOCKS: int := 65536
  const INODES: int := 186
  const METADATA_BLOCKS: int := 3
  const NEW_FILE_ACCESS: int := 448   // 0700
  const END_MARKER: Byte := 255

  datatype FileType = NewFile | RegularFile | Directory

  datatype Inode = Inode(
    bound: bool, kind: FileType, access: nat, creatorUid: int,
    size: nat, addressBlock: int, nameAddress: nat)

  /** An entry of the system-wide open-file table, with the inode's address block and the
      data blocks read so far. */
  datatype Descriptor = Descriptor(used: bool, inode: nat, address: Words, cache: map<nat, Block>, offset: nat)

  /** The three metadata blocks as last written to the disk. */
  datatype Image = Image(bits: seq<bool>, inodes: seq<Inode>, names: seq<char>)

  datatype State = State(
    disk: seq<Block>, bits: seq<bool>, inodes: seq<Inode>, names: seq<char>,
    image: Image, open: seq<Descriptor>)

  // ----- reading the disk

  predicate ValidAddress(a: int) {
    METADATA_BLOCKS <= BlockNumber(a) < BLOCKS && a == AddressOf(BlockNumber(a))
  }

  function DiskBlock(s: State, address: int): Block {
    if 0 <= BlockNumber(address) < |s.disk| then s.disk[BlockNumber(address)] else ZeroBlock()
  }

  /** The index block of an inode: the entries of a directory, the data block addresses of a file. */
  function IndexOf(s: State, i: nat): Words
    requires i < |s.inodes|
  {
    WordsOf(DiskBlock(s, s.inodes[i].addressBlock))
  }

  function NameOf(s: State, i: nat): string
    requires i < |s.inodes|
  {
    StringAt(s.names, s.inodes[i].nameAddress)
  }

  // ----- permissions

  predicate Permitted(inode: Inode, euid: int, mode: string) {
    var bits := if euid == inode.creatorUid then inode.access / 64 else inode.access % 8;
    var r, w, x := bits / 4 % 2 == 1, bits / 2 % 2 == 1, bits % 2 == 1;
    euid == 0 || (mode == "r" && r) || (mode == "w" && w) || (mode == "r+" && r && w) || (mode == "x" && x)
  }

  // ----- directories

  datatype Scan = Free(at: nat) | Match(inode: nat) | OffEnd

  /** Scanning a directory for a name from slot m on: it stops at the first empty slot. */
  function ScanFrom(s: State, index: Words, name: string, m: nat): (r: Scan)
    ensures r.Match? ==> r.inode < |s.inodes| && NameOf(s, r.inode) == name
    decreases BLOCK_WORDS - m
  {
    if m >= BLOCK_WORDS then OffEnd
    else if index[m] == 0 then Free(m)
    else if index[m] >= |s.inodes| then OffEnd
    else if NameOf(s, index[m]) == name then Match(index[m])
    else ScanFrom(s, index, name, m + 1)
  }

  datatype Walked = Resolved(inode: nat) | Missing(parent: nat, rest: seq<string>) | Denied | Broken

  /** The walk from an inode along path components, as far as it goes. */
  function Walk(s: State, i: nat, components: seq<string>, euid: int): Walked
    requires i < |s.inodes|
    decreases |components|
  {
    if components == [] then Resolved(i)
    else
      match ScanFrom(s, IndexOf(s, i), components[0], 0)
      case OffEnd => Broken
      case Free(_) => Missing(i, components)
      case Match(j) =>
        if |components| > 1 && !Permitted(s.inodes[j], euid, "x") then Denied
        else Walk(s, j, components[1..], euid)
  }

  // ----- creation

  function FirstUnbound(inodes: seq<Inode>, i: nat): (r: nat)
    requires i <= |inodes|
    ensures i <= r <= |inodes|
    ensures r < |inodes| ==> !inodes[r].bound
    ensures forall j :: i <= j < r ==> inodes[j].bound
    decreases |inodes| - i
  {
    if i < |inodes| && inodes[i].bound then FirstUnbound(inodes, i + 1) else i
  }

  function FirstZero(index: Words, m: nat): (r: nat)
    requires m <= BLOCK_WORDS
    ensures m <= r <= BLOCK_WORDS
    ensures r < BLOCK_WORDS ==> index[r] == 0
    ensures forall j :: m <= j < r ==> index[j] != 0
    decreases BLOCK_WORDS - m
  {
    if m < BLOCK_WORDS && index[m] != 0 then FirstZero(index, m + 1) else m
  }

  /** The tables after one directory is made in `parent`; the name table is written out only
      when the name was appended to it. */
  function Added(s: State, parent: nat, j: nat, k: nat, name: string, euid: int): State
    requires parent < |s.inodes| && j < |s.inodes| && k < |s.bits|
    requires j < 0x1_0000_0000 && !PlaceFor(s.names, name, 0).NoSpace?
  {
    var p := PlaceFor(s.names, name, 0);
    var index := IndexOf(s, parent);
    var m := FirstZero(index, 0);
    var index' := if m < BLOCK_WORDS then index[m := j] else index;
    var bits', names' := s.bits[k := true], Interned(s.names, name);
    var inodes' := s.inodes[j := Inode(true, Directory, NEW_FILE_ACCESS, euid, 0, AddressOf(k), p.at)];
    var b := BlockNumber(inodes'[parent].addressBlock);
    s.(disk := if 0 <= b < |s.disk| then s.disk[b := BytesOf(index')] else s.disk,
       bits := bits',
       inodes := inodes',
       names := names',
       image := s.image.(bits := bits', names := if p.Found? then s.image.names else names'))
  }

  /** One missing component: take an inode, intern the name, take a block, enter the inode in
      the parent. */
  function CreateOne(s: State, parent: nat, name: string, euid: int): Option<(State, nat)>
    requires parent < |s.inodes| <= INODES
  {
    var j, k := FirstUnbound(s.inodes, 0), FirstClear(s.bits, 0);
    var p := PlaceFor(s.names, name, 0);
    if j == |s.inodes| || k == |s.bits| || p.NoSpace? then None
    else Some((Added(s, parent, j, k, name, euid), j))
  }

  /** The last component becomes a new file and the inode table is written out. */
  function Finish(s: State, j: nat): State
    requires j < |s.inodes|
  {
    var inodes' := s.inodes[j := s.inodes[j].(kind := NewFile)];
    s.(inodes := inodes', image := s.image.(inodes := inodes'))
  }

  function Create(s: State, parent: nat, components: seq<string>, euid: int): Option<(State, nat)>
    requires parent < |s.inodes| <= INODES && components != []
    decreases |components|
  {
    match CreateOne(s, parent, components[0], euid)
    case None => None
    case Some((s1, j)) =>
      if |components| == 1 then Some((Finish(s1, j), j))
      else Create(s1, j, components[1..], euid)
  }

  const NOT_FOUND: int := -1
  const REFUSED: int := -2

  /** get_inode_index_of: an inode index, -1 or -2. */
  function GetInode(s: State, path: string, create: bool, euid: int): Option<(State, int)>
    requires path != "" && 0 < |s.inodes| <= INODES
  {
    match Walk(s, 0, PathComponents(path), euid)
    case Broken => None
    case Denied => Some((s, REFUSED))
    case Resolved(i) => Some((s, i))
    case Missing(parent, rest) =>
      if !create then Some((s, NOT_FOUND))
      else if parent >= |s.inodes| || rest == [] then None
      else if !Permitted(s.inodes[parent], euid, "w") then Some((s, REFUSED))
      else
        match Create(s, parent, rest, euid)
        case None => None
        case Some((s1, j)) => Some((s1, j as int))
  }

  // ----- the open-file table

  /** The first descriptor open on inode i, or the length of the table. */
  function FindOpen(open: seq<Descriptor>, i: nat, d: nat): (r: nat)
    requires d <= |open|
    ensures d <= r <= |open|
    ensures r < |open| ==> open[r].used && open[r].inode == i
    ensures forall e :: d <= e < r ==> !(open[e].used && open[e].inode == i)
    decreases |open| - d
  {
    if d < |open| && !(open[d].used && open[d].inode == i) then FindOpen(open, i, d + 1) else d
  }

  function FirstUnused(open: seq<Descriptor>, d: nat): (r: nat)
    requires d <= |open|
    ensures d <= r <= |open|
    ensures r < |open| ==> !open[r].used
    ensures forall e :: d <= e < r ==> open[e].used
    decreases |open| - d
  {
    if d < |open| && open[d].used then FirstUnused(open, d + 1) else d
  }

  /** A descriptor for an inode: the one already open on it, or a fresh one. */
  function Attach(s: State, i: nat): (State, nat)
    requires i < |s.inodes|
  {
    var d := FindOpen(s.open, i, 0);
    if d < |s.open| then (s, d)
    else
      var e := FirstUnused(s.open, 0);
      var f := Descriptor(true, i, IndexOf(s, i), map[], 0);
      (s.(open := if e < |s.open| then s.open[e := f] else s.open + [f]), e)
  }

  /** A file created by this very call, or found new, becomes a regular file in memory. */
  function Settled(s: State, i: nat): State
    requires i < |s.inodes|
  {
    if s.inodes[i].kind == NewFile then s.(inodes := s.inodes[i := s.inodes[i].(kind := RegularFile)]) else s
  }

  /** The inode is looked at, and a new file's kind stored, before a negative index is: a refused
      walk is an access outside the table. */
  function Open(s: State, path: string, mode: string, euid: int): Option<(State, int)>
    requires path != "" && 0 < |s.inodes| <= INODES
  {
    match GetInode(s, path, true, euid)
    case None => None
    case Some((s1, i)) =>
      if i < 0 || i >= |s1.inodes| then None
      else
        var s2 := Settled(s1, i);
        if !Permitted(s2.inodes[i], euid, mode) || s2.inodes[i].kind != RegularFile then Some((s2, -1))
        else
          var (s3, d) := Attach(s2, i);
          Some((s3, d as int))
  }

  function Close(s: State, d: int): Option<State> {
    if d < 0 || d >= |s.open| then Some(s)
    else if !s.open[d].used then None
    else Some(s.(open := s.open[d := s.open[d].(used := false)]))
  }

  function Seek(s: State, d: int, offset: nat): Option<State> {
    if d < 0 || d >= |s.open| then Some(s)
    else if !s.open[d].used then None
    else Some(s.(open := s.open[d := s.open[d].(offset := offset)]))
  }

  // ----- data blocks

  /** Data block m of an open file is read into the descriptor. */
  function Load(s: State, d: nat, m: nat): State
    requires d < |s.open| && m < BLOCK_WORDS
  {
    var f := s.open[d];
    s.(open := s.open[d := f.(cache := f.cache[m := DiskBlock(s, f.address[m])])])
  }

  /** Data block m of an open file gets disk block k, and the address block is written out. */
  function Assign(s: State, d: nat, m: nat, k: nat): State
    requires d < |s.open| && m < BLOCK_WORDS && k < |s.bits| <= BLOCKS
    requires s.open[d].inode < |s.inodes|
  {
    var f := s.open[d];
    var address' := f.address[m := AddressOf(k)];
    var b := BlockNumber(s.inodes[f.inode].addressBlock);
    var bits' := s.bits[k := true];
    s.(disk := if 0 <= b < |s.disk| then s.disk[b := BytesOf(address')] else s.disk,
       bits := bits', image := s.image.(bits := bits'),
       open := s.open[d := f.(address := address')])
  }

  function EnsureBlock(s: State, d: nat, m: nat): (r: Option<State>)
    requires d < |s.open| && s.open[d].inode < |s.inodes| && |s.bits| <= BLOCKS
    ensures r.Some? ==> |r.value.open| == |s.open| && m in r.value.open[d].cache
    ensures r.Some? ==> r.value.inodes == s.inodes && |r.value.bits| == |s.bits|
    ensures r.Some? ==> r.value.open[d].inode == s.open[d].inode
  {
    var f := s.open[d];
    if m in f.cache then Some(s)
    else if m >= BLOCK_WORDS then None
    else if f.address[m] != 0 then Some(Load(s, d, m))
    else
      var k := FirstClear(s.bits, 0);
      if k == |s.bits| then None else Some(Load(Assign(s, d, m, k), d, m))
  }

  /** Bytes go into the cached block and the block through to the disk. */
  function Store(s: State, d: nat, m: nat, at: nat, bytes: seq<Byte>): State
    requires d < |s.open| && m in s.open[d].cache && m < BLOCK_WORDS
    requires at + |bytes| <= BLOCK_BYTES
  {
    var f := s.open[d];
    var data: Block := Splice(f.cache[m], at, bytes);
    var b := BlockNumber(f.address[m]);
    s.(disk := if 0 <= b < |s.disk| then s.disk[b := data] else s.disk,
       open := s.open[d := f.(cache := f.cache[m := data])])
  }

  /** (count - 1) % 8192 + 1 with the remainder taken towards zero: the remainder chunk comes first. */
  function ChunkLength(count: nat): (n: nat)
    ensures n <= count && n <= BLOCK_BYTES
    ensures count > 0 ==> n > 0
  {
    if count == 0 then 0 else (count - 1) % BLOCK_BYTES + 1
  }

  /** Number of rounds of the transfer loops for `count` bytes at offset `at` of a block. */
  function Rounds(at: nat, count: nat): nat {
    if at + count == 0 then 1 else (at + count - 1) / BLOCK_BYTES + 1
  }

  /** What one round copies: its bytes of the source, the last one replaced by the end marker
      in the round that ends the file. */
  function Piece(source: seq<Byte>, from: nat, count: nat, eof: bool): (r: Option<seq<Byte>>)
    ensures r.Some? ==> |r.value| == ChunkLength(count)
  {
    var n := ChunkLength(count);
    if n == 0 then if eof then None else Some([])
    else if from + n > |source| then None
    else if eof && n == count then Some(source[from..from + n - 1] + [END_MARKER])
    else Some(source[from..from + n])
  }

  /** The rounds of write, from block m on. */
  function WriteRounds(s: State, d: nat, m: nat, rounds: nat, count: nat, at: nat,
                       source: seq<Byte>, from: nat, eof: bool): Option<State>
    requires d < |s.open| && s.open[d].inode < |s.inodes| && |s.bits| <= BLOCKS
    decreases rounds
  {
    if rounds == 0 then Some(s)
    else
      match EnsureBlock(s, d, m)
      case None => None
      case Some(s1) =>
        match Piece(source, from, count, eof)
        case None => None
        case Some(bytes) =>
          if m >= BLOCK_WORDS || at + |bytes| > BLOCK_BYTES then None
          else WriteRounds(Store(s1, d, m, at, bytes), d, m + 1, rounds - 1, count - |bytes|, 0,
                           source, from + BLOCK_BYTES, eof)
  }

  /** Growing a file: its size is the content length and one for the end marker. */
  function Resized(s: State, i: nat, size: nat): State
    requires i < |s.inodes|
  {
    var inodes' := s.inodes[i := s.inodes[i].(size := size)];
    s.(inodes := inodes', image := s.image.(inodes := inodes'))
  }

  function Advanced(s: State, d: nat, count: nat): State
    requires d < |s.open|
  {
    s.(open := s.open[d := s.open[d].(offset := s.open[d].offset + count)])
  }

  predicate ReachesEnd(s: State, d: nat, count: nat)
    requires d < |s.open| && s.open[d].inode < |s.inodes|
  {
    s.open[d].offset + count >= s.inodes[s.open[d].inode].size
  }

  /** write: the byte read past the buffer to make room for the end marker is modelled as 0;
      the marker replaces it. */
  function Write(s: State, d: int, buff: seq<Byte>): Option<(State, int)>
    requires |s.bits| <= BLOCKS
  {
    if d < 0 || d >= |s.open| then Some((s, 0))
    else if !s.open[d].used || s.open[d].inode >= |s.inodes| then None
    else
      var f, eof := s.open[d], ReachesEnd(s, d, |buff|);
      var at := f.offset % BLOCK_BYTES;
      var s1 := if eof then Resized(s, f.inode, f.offset + |buff| + 1) else s;
      var source := if eof then buff + [0] else buff;
      match WriteRounds(s1, d, 0, Rounds(at, |buff|), |source|, at, source, 0, eof)
      case None => None
      case Some(s2) =>
        if d < |s2.open| then Some((Advanced(s2, d, |buff|), |buff|)) else None
  }

  /** A cached or allocated block for reading; reading a block that was never written makes
      the call return an undefined value. */
  function FetchBlock(s: State, d: nat, m: nat): (r: Option<State>)
    requires d < |s.open|
    ensures r.Some? ==> |r.value.open| == |s.open| && m in r.value.open[d].cache
  {
    var f := s.open[d];
    if m in f.cache then Some(s)
    else if m >= BLOCK_WORDS || f.address[m] == 0 then None
    else Some(Load(s, d, m))
  }

  function ReadRounds(s: State, d: nat, m: nat, rounds: nat, count: nat, at: nat,
                      buff: seq<Byte>, from: nat): Option<(State, seq<Byte>)>
    requires d < |s.open|
    decreases rounds
  {
    if rounds == 0 then Some((s, buff))
    else
      match FetchBlock(s, d, m)
      case None => None
      case Some(s1) =>
        var n := ChunkLength(count);
        if at + n > BLOCK_BYTES || (n > 0 && from + n > |buff|) then None
        else
          var buff' := if n == 0 then buff else Splice(buff, from, s1.open[d].cache[m][at..at + n]);
          ReadRounds(s1, d, m + 1, rounds - 1, count - n, 0, buff', from + BLOCK_BYTES)
  }

  /** The number of bytes read asks for, cut off before the end marker. */
  function Clamped(offset: nat, count: nat, size: nat): int {
    if count + offset >= size then size - offset - 1 else count
  }

  /** read into a buffer; an offset past the content makes the byte count negative. */
  function Read(s: State, d: int, buff: seq<Byte>, count: nat): Option<(State, seq<Byte>, int)> {
    if d < 0 || d >= |s.open| then Some((s, buff, 0))
    else if !s.open[d].used || s.open[d].inode >= |s.inodes| then None
    else
      var f := s.open[d];
      var n := Clamped(f.offset, count, s.inodes[f.inode].size);
      if n < 0 then None
      else
        var at := f.offset % BLOCK_BYTES;
        match ReadRounds(s, d, 0, Rounds(at, n), n, at, buff, 0)
        case None => None
        case Some((s1, buff')) =>
          if d < |s1.open| then Some((Advanced(s1, d, n), buff', n)) else None
  }

  // ----- runs

  datatype Call =
    | OpenCall(path: string, mode: string, euid: int)
    | WriteCall(fd: int, data: seq<Byte>)
    | ReadCall(fd: int, buff: seq<Byte>, count: nat)
    | SeekCall(fd: int, offset: nat)
    | CloseCall(fd: int)

  function Perform(s: State, c: Call): Option<State> {
    if |s.inodes| != INODES || |s.bits| != BLOCKS then None
    else
      match c
      case OpenCall(path, mode, euid) =>
        if path == "" then None
        else
          var r := Open(s, path, mode, euid);
          if r.None? then None else Some(r.value.0)
      case WriteCall(fd, data) =>
        var r := Write(s, fd, data);
        if r.None? then None else Some(r.value.0)
      case ReadCall(fd, buff, count) =>
        var r := Read(s, fd, buff, count);
        if r.None? then None else Some(r.value.0)
      case SeekCall(fd, offset) => Seek(s, fd, offset)
      case CloseCall(fd) => Close(s, fd)
  }

  /** A run of calls, one after the other. */
  function Run(s: State, calls: seq<Call>): Option<State>
    decreases |calls|
  {
    if calls == [] then Some(s)
    else
      match Perform(s, calls[0])
      case None => None
      case Some(s1) => Run(s1, calls[1..])
  }

  /** init_filesystem: the tables are read back from the disk and nothing is open. */
  function Reboot(s: State): State {
    State(s.disk, s.image.bits, s.image.inodes, s.image.names, s.image, [])
  }
}
