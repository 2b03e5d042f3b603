/** The block log: an append-only file of blocks, each followed by its own position, and an index file of
    positions. */
module BlockLogs {
  import opened ByteOrder
  import opened Options

  const TWO29: nat := 0x2000_0000
  const TWO32: nat := 0x1_0000_0000
  const TWO63: nat := 0x8000_0000_0000_0000
  const NO_POSITION: nat := 0xffff_ffff_ffff_ffff

  /** A block, as far as the log is concerned: its number and everything else. */
  datatype Block = Block(num: nat, content: Bytes)

  /** The byte encoding of blocks. */
  datatype Codec = Codec(encode: Block -> Bytes, decode: Bytes -> Block)

  ghost predicate Proper(c: Codec) {
    forall b :: c.decode(c.encode(b)) == b && |c.encode(b)| < TWO32
  }

  // ------------------------------------------------------------------
  // Little-endian numbers
  // ------------------------------------------------------------------

  /** The `w` low-order bytes of `n`, least significant first. */
  function LittleEndian(w: nat, n: nat): (r: Bytes)
    ensures |r| == w
  {
    if w == 0 then [] else [n % 256] + LittleEndian(w - 1, n / 256)
  }

  function FromLittleEndian(b: Bytes): nat {
    if b == [] then 0 else b[0] + 256 * FromLittleEndian(b[1..])
  }

  lemma {:induction false} LittleEndianRoundTrip(w: nat, n: nat)
    requires n < Pow(256, w)
    ensures FromLittleEndian(LittleEndian(w, n)) == n
  {
    if w > 0 {
      var b := LittleEndian(w, n);
      assert b[1..] == LittleEndian(w - 1, n / 256);
      LittleEndianRoundTrip(w - 1, n / 256);
    }
  }

  function Word32(n: nat): (r: Bytes)
    ensures |r| == 4
  {
    LittleEndian(4, n % TWO32)
  }

  /** A number of 32 bits has its low-order byte first. */
  lemma Word32Bytes(n: nat)
    requires n < TWO32
    ensures Word32(n) == [n % 256, n / 0x100 % 256, n / 0x1_0000 % 256, n / 0x100_0000]
  {
    var a, b, c := n / 0x100, n / 0x1_0000, n / 0x100_0000;
    assert a / 256 == b && b / 256 == c;
    var last := LittleEndian(1, c);
    assert last == [c];
    assert LittleEndian(2, b) == [b % 256] + last;
    assert LittleEndian(3, a) == [a % 256] + LittleEndian(2, b);
  }

  function Word64(n: nat): (r: Bytes)
    requires n < TWO63
    ensures |r| == 8
  {
    LittleEndian(8, n)
  }

  lemma WordRoundTrips(size: nat, position: nat)
    requires size < TWO32 && position < TWO63
    ensures FromLittleEndian(Word32(size)) == size && FromLittleEndian(Word64(position)) == position
  {
    Word32RoundTrip(size);
    Word64RoundTrip(position);
  }

  lemma Word32RoundTrip(n: nat)
    requires n < TWO32
    ensures FromLittleEndian(Word32(n)) == n
  {
    WordRanges();
    RoundTripWithin(4, n, TWO32);
  }

  lemma RoundTripWithin(w: nat, n: nat, limit: nat)
    requires n < limit == Pow(256, w)
    ensures FromLittleEndian(LittleEndian(w, n % limit)) == n
  {
    assert n % limit == n;
    LittleEndianRoundTrip(w, n);
  }

  lemma WordRanges()
    ensures Pow(256, 4) == TWO32 && Pow(256, 8) > TWO63
  {
    PowOf256();
  }

  lemma Word64RoundTrip(n: nat)
    requires n < TWO63
    ensures FromLittleEndian(Word64(n)) == n
  {
    WordRanges();
    LittleEndianRoundTrip(8, n);
  }

  // ------------------------------------------------------------------
  // Files
  // ------------------------------------------------------------------

  function Zeros(n: nat): (r: Bytes)
    ensures |r| == n
  {
    seq(n, _ => 0)
  }

  /** The file `data` after writing `b` at position `at`; a gap before it is filled with zeros. */
  function Written(data: Bytes, at: nat, b: Bytes): Bytes {
    if at > |data| then data + Zeros(at - |data|) + b
    else if at + |b| >= |data| then data[..at] + b
    else data[..at] + b + data[at + |b|..]
  }

  /** What a buffer of `n` zeros holds after reading at position `at`. */
  function ReadAt(data: Bytes, at: nat, n: nat): (r: Bytes)
    ensures |r| == n
    ensures at + n <= |data| ==> r == data[at..at + n]
  {
    if at >= |data| then Zeros(n)
    else if at + n <= |data| then data[at..at + n]
    else data[at..] + Zeros(n - (|data| - at))
  }

  lemma WrittenInFront(data: Bytes, b: Bytes)
    requires |b| <= |data|
    ensures Written(data, 0, b) == b + data[|b|..]
  {
  }

  class Stream {
    var data: Bytes
    var position: nat

    constructor (data: Bytes)
      ensures this.data == data && position == 0
    {
      this.data, position := data, 0;
    }

    method SeekEnd() returns (at: nat)
      modifies this`position
      ensures at == position == |data|
    {
      position := |data|;
      at := position;
    }

    method Seek(at: nat)
      modifies this`position
      ensures position == at
    {
      position := at;
    }

    method Read(n: nat) returns (b: Bytes)
      modifies this`position
      ensures b == ReadAt(data, old(position), n)
      ensures if old(position) + n <= |data| then position == old(position) + n else position >= |data|
    {
      b := ReadAt(data, position, n);
      if position + n <= |data| {
        position := position + n;
      } else if position < |data| {
        position := |data|;
      }
    }

    method Write(b: Bytes)
      modifies this
      ensures data == Written(old(data), old(position), b) && position == old(position) + |b|
      ensures old(position) == |old(data)| ==> data == old(data) + b
    {
      data := Written(data, position, b);
      position := position + |b|;
    }

    /** Writes three parts at the end, one after the other. */
    method WriteParts(a: Bytes, b: Bytes, c: Bytes)
      requires position == |data|
      modifies this
      ensures data == old(data) + (a + b + c) && position == |data|
    {
      Write(a);
      Write(b);
      Write(c);
    }
  }

  // ------------------------------------------------------------------
  // The layout of the two files
  // ------------------------------------------------------------------

  /** A block in the block file: its size, its encoding and its own position. */
  function Entry(c: Codec, b: Block, at: nat): Bytes
    requires at < TWO63
  {
    Word32(|c.encode(b)|) + c.encode(b) + Word64(at)
  }

  /** Block `b` is stored at position `at`. */
  ghost predicate Stored(c: Codec, file: Bytes, b: Block, at: nat) {
    at < TWO63 && at + |Entry(c, b, at)| <= |file| && file[at..at + |Entry(c, b, at)|] == Entry(c, b, at)
  }

  /** The k-th number in the index file is `at`. */
  ghost predicate Indexed(index: Bytes, k: nat, at: nat) {
    at < TWO63 && 8 * k + 8 <= |index| && index[8 * k..8 * k + 8] == Word64(at)
  }

  ghost predicate EntryOk(c: Codec, file: Bytes, index: Bytes, blocks: seq<Block>, starts: seq<nat>, k: nat)
    requires k < |blocks| == |starts|
  {
    && Stored(c, file, blocks[k], starts[k]) && Indexed(index, k, starts[k]) && starts[k] >= 8
    && starts[k] + |Entry(c, blocks[k], starts[k])| == if k + 1 < |starts| then starts[k + 1] else |file|
  }

  /** The block file holds the blocks one after the other, behind the genesis information, and the n-th entry of
      the index is the position of the n-th block. */
  ghost predicate Layout(c: Codec, file: Bytes, index: Bytes, blocks: seq<Block>, starts: seq<nat>) {
    && |blocks| == |starts| && |index| == 8 * |blocks|
    && forall k {:trigger EntryOk(c, file, index, blocks, starts, k)} :: 0 <= k < |blocks| ==> EntryOk(c, file, index, blocks, starts, k)
  }

  lemma AppendKeepsLayout(c: Codec, file: Bytes, index: Bytes, blocks: seq<Block>, starts: seq<nat>, b: Block)
    requires Layout(c, file, index, blocks, starts) && 8 <= |file| < TWO63
    ensures Layout(c, file + Entry(c, b, |file|), index + Word64(|file|), blocks + [b], starts + [|file|])
  {
    var file', index', blocks', starts' := file + Entry(c, b, |file|), index + Word64(|file|), blocks + [b], starts + [|file|];
    forall k | 0 <= k < |blocks'| ensures EntryOk(c, file', index', blocks', starts', k) {
      if k < |blocks| {
        assert EntryOk(c, file, index, blocks, starts, k);
        var e := Entry(c, blocks[k], starts[k]);
        assert file'[starts[k]..starts[k] + |e|] == file[starts[k]..starts[k] + |e|];
        assert index'[8 * k..8 * k + 8] == index[8 * k..8 * k + 8];
      } else {
        assert file'[|file|..] == Entry(c, b, |file|);
        assert index'[8 * k..] == Word64(|file|);
      }
    }
  }

  /** Overwriting the version in front of the blocks does not touch them. */
  lemma VersionKeepsLayout(c: Codec, file: Bytes, index: Bytes, blocks: seq<Block>, starts: seq<nat>, version: Bytes)
    requires Layout(c, file, index, blocks, starts) && |version| == 4 && |file| >= 8
    ensures Layout(c, Written(file, 0, version), index, blocks, starts)
  {
    var file' := Written(file, 0, version);
    forall k | 0 <= k < |blocks| ensures EntryOk(c, file', index, blocks, starts, k) {
      assert EntryOk(c, file, index, blocks, starts, k);
      var e := Entry(c, blocks[k], starts[k]);
      assert file'[starts[k]..starts[k] + |e|] == file[starts[k]..starts[k] + |e|];
    }
  }

  /** Reading the three parts of a stored block one after the other gives the block and its position. */
  lemma StoredParts(c: Codec, file: Bytes, b: Block, at: nat)
    requires Proper(c) && Stored(c, file, b, at)
    ensures FromLittleEndian(ReadAt(file, at, 4)) == |c.encode(b)|
    ensures at + 4 + |c.encode(b)| + 8 <= |file|
    ensures c.decode(ReadAt(file, at + 4, |c.encode(b)|)) == b
    ensures FromLittleEndian(ReadAt(file, at + 4 + |c.encode(b)|, 8)) == at
  {
    assert c.decode(c.encode(b)) == b;
    var n := |c.encode(b)|;
    ThreeParts(file, at, Word32(n), c.encode(b), Word64(at));
    WordRoundTrips(n, at);
  }

  lemma ThreeParts(file: Bytes, at: nat, x: Bytes, y: Bytes, z: Bytes)
    requires at + |x + y + z| <= |file| && file[at..at + |x + y + z|] == x + y + z
    ensures file[at..at + |x|] == x && file[at + |x|..at + |x| + |y|] == y && file[at + |x| + |y|..at + |x| + |y| + |z|] == z
  {
    FirstPart(file, at, x + y, z);
    FirstPart(file, at, x, y);
    SecondPart(file, at, x, y);
    SecondPart(file, at, x + y, z);
  }

  lemma FirstPart(file: Bytes, at: nat, x: Bytes, y: Bytes)
    requires at + |x + y| <= |file| && file[at..at + |x + y|] == x + y
    ensures file[at..at + |x|] == x
  {
    assert file[at..at + |x|] == file[at..at + |x + y|][..|x|];
  }

  lemma SecondPart(file: Bytes, at: nat, x: Bytes, y: Bytes)
    requires at + |x + y| <= |file| && file[at..at + |x + y|] == x + y
    ensures file[at + |x|..at + |x| + |y|] == y
  {
    assert file[at + |x|..at + |x| + |y|] == file[at..at + |x + y|][|x|..];
  }

  lemma {:induction false} ZerosAreZero(n: nat)
    ensures FromLittleEndian(Zeros(n)) == 0
  {
    if n > 0 {
      assert Zeros(n)[1..] == Zeros(n - 1);
      ZerosAreZero(n - 1);
    }
  }

  /** The block at position `at` of the block file, whatever is stored there. */
  function ReadFrom(c: Codec, file: Bytes, at: nat): Block {
    c.decode(ReadAt(file, at + 4, FromLittleEndian(ReadAt(file, at, 4))))
  }

  /** Reading at the position of a block gives the block. */
  lemma ReadsStored(c: Codec, file: Bytes, index: Bytes, blocks: seq<Block>, starts: seq<nat>, k: nat)
    requires Proper(c) && Layout(c, file, index, blocks, starts) && k < |blocks|
    ensures 8 <= starts[k] < TWO63 && starts[k] + 4 <= |file| && ReadFrom(c, file, starts[k]) == blocks[k]
  {
    assert EntryOk(c, file, index, blocks, starts, k);
    StoredParts(c, file, blocks[k], starts[k]);
  }

  /** The file ends with the position of the last block. */
  lemma LastStored(c: Codec, file: Bytes, index: Bytes, blocks: seq<Block>, starts: seq<nat>)
    requires Proper(c) && Layout(c, file, index, blocks, starts) && blocks != []
    ensures var k := |blocks| - 1;
            && |file| > 8 && FromLittleEndian(ReadAt(file, |file| - 8, 8)) == starts[k]
            && starts[k] + 4 <= |file| && ReadFrom(c, file, starts[k]) == blocks[k]
  {
    var k := |blocks| - 1;
    assert EntryOk(c, file, index, blocks, starts, k);
    StoredParts(c, file, blocks[k], starts[k]);
    assert |file| - 8 == starts[k] + 4 + |c.encode(blocks[k])|;
  }

  // ------------------------------------------------------------------
  // Looking blocks up by number
  // ------------------------------------------------------------------

  datatype Outcome = Absent | Found(block: Block) | Thrown

  /** Where the index must end for a block of number `num`, in unsigned 32-bit arithmetic. */
  function ExpectedIndexSize(num: nat): nat {
    8 * ((num + TWO32 - 1) % TWO32) % TWO32
  }

  /** A log of `n` blocks takes a block of number `num` next. */
  predicate Follows(n: nat, num: nat) {
    n < TWO29 && (num + TWO32 - 1) % TWO29 == n
  }

  lemma ExpectedIndexSizeMeans(n: nat, num: nat)
    requires num < TWO32
    ensures 8 * n == ExpectedIndexSize(num) <==> Follows(n, num)
  {
    var x := (num + TWO32 - 1) % TWO32;
    assert x % TWO29 == (num + TWO32 - 1) % TWO29;
    assert 8 * x % TWO32 == 8 * (x % TWO29);
  }

  /** The numbers of the blocks are those the log takes, one after the other. */
  ghost predicate Numbered(blocks: seq<Block>) {
    forall k :: 0 <= k < |blocks| ==> blocks[k].num < TWO32 && Follows(k, blocks[k].num)
  }

  /** What looking up block `num` gives. Past the end of the index the position reads as zero. */
  ghost function Lookup(c: Codec, file: Bytes, blocks: seq<Block>, num: nat): Outcome {
    if blocks == [] || num == 0 || num > blocks[|blocks| - 1].num then Absent
    else
      var b := if num <= |blocks| then blocks[num - 1] else ReadFrom(c, file, 0);
      if b.num == num then Found(b) else Thrown
  }

  /** Every number up to the head finds the block appended in that turn, and every other number finds nothing. */
  ghost predicate Agrees(c: Codec, file: Bytes, blocks: seq<Block>) {
    forall num {:trigger Lookup(c, file, blocks, num)} :: 0 <= num < TWO32 ==>
      Lookup(c, file, blocks, num) == if 1 <= num <= |blocks| then Found(blocks[num - 1]) else Absent
  }

  ghost predicate AllInRange(blocks: seq<Block>) {
    forall k :: 0 <= k < |blocks| ==> 1 <= blocks[k].num <= TWO29
  }

  /** The log agrees with its lookups exactly while no block number exceeds 2^29 (or is zero): the check on
      appending only compares numbers modulo 2^29. */
  lemma AgreesExactly(c: Codec, file: Bytes, blocks: seq<Block>)
    requires Numbered(blocks)
    ensures Agrees(c, file, blocks) <==> AllInRange(blocks)
  {
    if k :| 0 <= k < |blocks| && !(1 <= blocks[k].num <= TWO29) {
      var head := blocks[|blocks| - 1];
      assert Follows(|blocks| - 1, head.num) && Follows(k, blocks[k].num);
      if head.num > |blocks| {
        assert Lookup(c, file, blocks, head.num) != Absent;
      } else {
        assert Lookup(c, file, blocks, k + 1) != Found(blocks[k]);
      }
      assert !Agrees(c, file, blocks);
    } else {
      forall k | 0 <= k < |blocks| ensures blocks[k].num == k + 1 { assert Follows(k, blocks[k].num); }
      assert Agrees(c, file, blocks);
    }
  }

  lemma LookupAgrees(c: Codec, file: Bytes, blocks: seq<Block>, num: nat)
    requires Numbered(blocks) && AllInRange(blocks) && num < TWO32
    ensures Lookup(c, file, blocks, num) == if 1 <= num <= |blocks| then Found(blocks[num - 1]) else Absent
  {
    AgreesExactly(c, file, blocks);
  }

  /** The first block appended may have number 2^29 + 1; then nothing can be looked up any more. */
  lemma WrappedNumberTaken(c: Codec, file: Bytes)
    ensures Follows(0, TWO29 + 1) && !Agrees(c, file, [Block(TWO29 + 1, [])])
  {
    var b := Block(TWO29 + 1, []);
    assert Numbered([b]);
    AgreesExactly(c, file, [b]);
    assert [b][0].num > TWO29;
  }

  /** Overwriting the first bytes keeps what follows them in front. */
  lemma MarkedPrefix(version: Bytes, rest: Bytes, data: Bytes, version': Bytes)
    requires |version| == |version'| == 4 && version + rest <= data
    ensures version' + rest <= version' + data[4..]
  {
    assert rest == (version + rest)[4..];
  }

  // ------------------------------------------------------------------
  // The log
  // ------------------------------------------------------------------

  class BlockLog {
    const codec: Codec
    var blockStream: Stream
    var indexStream: Stream
    var genesisWritten: bool
    var head: Option<Block>
    ghost var blocks: seq<Block>
    ghost var starts: seq<nat>

    ghost predicate Valid()
      reads this, blockStream, indexStream
    {
      && Proper(codec) && blockStream != indexStream && Numbered(blocks)
      && Layout(codec, blockStream.data, indexStream.data, blocks, starts)
      && (genesisWritten ==> |blockStream.data| >= 8)
      && head == if blocks == [] then None else Some(blocks[|blocks| - 1])
    }

    constructor (codec: Codec)
      requires Proper(codec)
      ensures Valid() && fresh(blockStream) && fresh(indexStream) && blocks == [] && !genesisWritten
      ensures this.codec == codec && blockStream.data == []
    {
      this.codec, genesisWritten, head, blocks, starts := codec, false, None, [], [];
      blockStream := new Stream([]);
      indexStream := new Stream([]);
    }

    /** Appends a block. The result is its position, or nothing if the block is refused. */
    method Append(block: Block) returns (at: Option<nat>)
      requires Valid() && block.num < TWO32 && |blockStream.data| < TWO63
      modifies this`head, this`blocks, this`starts, blockStream, indexStream
      ensures Valid()
      ensures at.Some? <==> genesisWritten && Follows(|old(blocks)|, block.num)
      ensures at.Some? ==> blocks == old(blocks) + [block] && starts == old(starts) + [at.value]
      ensures at.Some? ==> at.value == |old(blockStream.data)| && old(blockStream.data) <= blockStream.data
      ensures 1 <= block.num <= 0x2000_0000 ==> (at.Some? <==> genesisWritten && block.num == |old(blocks)| + 1)
      ensures at.Some? ==> var data, pos := codec.encode(block), Word64(|old(blockStream.data)|);
                           && blockStream.data == old(blockStream.data) + (Word32(|data|) + data + pos)
                           && indexStream.data == old(indexStream.data) + pos
      ensures at.None? ==> blocks == old(blocks) && starts == old(starts) && blockStream.data == old(blockStream.data)
    {
      if !genesisWritten { return None; }
      var pos := blockStream.SeekEnd();
      var indexPos := indexStream.SeekEnd();
      ExpectedIndexSizeMeans(|blocks|, block.num);
      if indexPos != ExpectedIndexSize(block.num) { return None; }
      AppendKeepsLayout(codec, blockStream.data, indexStream.data, blocks, starts, block);
      var data := codec.encode(block);
      WriteEntry(Word32(|data|), data, Word64(pos));
      head := Some(block);
      blocks, starts := blocks + [block], starts + [pos];
      return Some(pos);
    }

    method WriteEntry(size: Bytes, data: Bytes, pos: Bytes)
      requires blockStream != indexStream
      requires blockStream.position == |blockStream.data| && indexStream.position == |indexStream.data|
      modifies blockStream, indexStream
      ensures blockStream.data == old(blockStream.data) + (size + data + pos)
      ensures indexStream.data == old(indexStream.data) + pos
    {
      blockStream.WriteParts(size, data, pos);
      indexStream.Write(pos);
    }

    /** Starts the log afresh with the genesis information and the genesis block. */
    method ResetToGenesis(genesis: Bytes, block: Block) returns (at: Option<nat>)
      requires Valid() && block.num < TWO32 && |genesis| + 8 < TWO63
      modifies this, blockStream, indexStream
      ensures Valid() && fresh(blockStream) && fresh(indexStream) && genesisWritten
      ensures at.Some? <==> Follows(0, block.num)
      ensures at.Some? ==> blocks == [block] && starts == [8 + |genesis|] && at == Some(8 + |genesis|)
      ensures at.Some? ==> Word32(1) + (Word32(|genesis|) + genesis) <= blockStream.data
      ensures at.None? ==> blocks == []
    {
      WriteGenesis(Word32(0), Word32(|genesis|), genesis);
      at := Append(block);
      if at.None? { return; }
      MarkedPrefix(Word32(0), Word32(|genesis|) + genesis, blockStream.data, Word32(1));
      MarkWritten();
    }

    /** Replaces both files and writes the genesis information, under a version that says it is incomplete. */
    method WriteGenesis(version: Bytes, size: Bytes, genesis: Bytes)
      requires Valid() && |version| == |size| == 4
      modifies this
      ensures Valid() && fresh(blockStream) && fresh(indexStream) && genesisWritten && blocks == [] && starts == []
      ensures blockStream.data == version + (size + genesis)
    {
      blockStream := new Stream([]);
      indexStream := new Stream([]);
      blocks, starts, head := [], [], None;
      blockStream.WriteParts(version, size, genesis);
      genesisWritten := true;
    }

    /** Overwrites the version with the supported one. */
    method MarkWritten()
      requires Valid() && |blockStream.data| >= 8
      modifies this`blockStream
      ensures Valid() && fresh(blockStream) && blockStream.data == Word32(1) + old(blockStream.data)[4..]
    {
      VersionKeepsLayout(codec, blockStream.data, indexStream.data, blocks, starts, Word32(1));
      WrittenInFront(blockStream.data, Word32(1));
      blockStream := new Stream(blockStream.data);
      blockStream.Write(Word32(1));
    }

    /** The block at a position of the file, and the position stored behind it. */
    method ReadBlock(pos: nat) returns (block: Block, next: nat)
      requires Proper(codec)
      modifies blockStream`position
      ensures block == ReadFrom(codec, blockStream.data, pos)
      ensures forall b :: Stored(codec, blockStream.data, b, pos) ==> block == b && next == pos
    {
      blockStream.Seek(pos);
      var sizeBytes := blockStream.Read(4);
      var size := FromLittleEndian(sizeBytes);
      var bytes := blockStream.Read(size);
      block := codec.decode(bytes);
      bytes := blockStream.Read(8);
      next := FromLittleEndian(bytes);
      forall b | Stored(codec, blockStream.data, b, pos) ensures block == b && next == pos {
        StoredParts(codec, blockStream.data, b, pos);
      }
    }

    /** The position of block `num` according to the index. */
    method GetBlockPos(num: nat) returns (pos: nat)
      requires Valid()
      modifies indexStream`position
      ensures head.None? || num > head.value.num || num == 0 ==> pos == NO_POSITION
      ensures head.Some? && 1 <= num <= head.value.num ==> pos == if num <= |blocks| then starts[num - 1] else 0
    {
      if !(head.Some? && num <= head.value.num && num > 0) { return NO_POSITION; }
      indexStream.Seek(8 * (num - 1));
      var bytes := indexStream.Read(8);
      pos := FromLittleEndian(bytes);
      if num <= |blocks| {
        assert EntryOk(codec, blockStream.data, indexStream.data, blocks, starts, num - 1);
        WordRoundTrips(0, starts[num - 1]);
      } else {
        ZerosAreZero(8);
      }
    }

    /** The block with the given number. */
    method ReadBlockByNum(num: nat) returns (r: Outcome)
      requires Valid()
      modifies blockStream`position, indexStream`position
      ensures Valid() && r == Lookup(codec, blockStream.data, blocks, num)
      ensures num < TWO32 && (forall k :: 0 <= k < |blocks| ==> 1 <= blocks[k].num <= 0x2000_0000) ==>
                r == if 1 <= num <= |blocks| then Found(blocks[num - 1]) else Absent
    {
      r := ReadIndexed(num);
      if num < TWO32 && AllInRange(blocks) { LookupAgrees(codec, blockStream.data, blocks, num); }
    }

    method ReadIndexed(num: nat) returns (r: Outcome)
      requires Valid()
      modifies blockStream`position, indexStream`position
      ensures Valid() && r == Lookup(codec, blockStream.data, blocks, num)
    {
      PositionOf(num);
      var pos := GetBlockPos(num);
      if pos == NO_POSITION { return Absent; }
      var block, _ := ReadBlock(pos);
      if block.num != num { return Thrown; }
      return Found(block);
    }

    /** What the position of a block number leads to. */
    lemma PositionOf(num: nat)
      requires Valid()
      ensures head.None? || num > head.value.num || num == 0 ==> Lookup(codec, blockStream.data, blocks, num) == Absent
      ensures head.Some? && 1 <= num <= head.value.num ==>
                var pos := if num <= |blocks| then starts[num - 1] else 0;
                && pos != NO_POSITION && pos + 4 <= |blockStream.data|
                && var b := ReadFrom(codec, blockStream.data, pos);
                   Lookup(codec, blockStream.data, blocks, num) == if b.num == num then Found(b) else Thrown
    {
      if blocks != [] { ReadsStored(codec, blockStream.data, indexStream.data, blocks, starts, 0); }
      if 1 <= num <= |blocks| { ReadsStored(codec, blockStream.data, indexStream.data, blocks, starts, num - 1); }
    }

    /** The block at the position stored last in the file: the last block, if there is one. A file that holds genesis
        data and no block is read as if it did. */
    method ReadHead() returns (r: Option<Block>)
      requires Valid()
      modifies blockStream`position
      ensures Valid() && (r == head <==> blocks != [] || |blockStream.data| <= 8)
      ensures var data := blockStream.data;
              blocks == [] && |data| > 8 ==> r == Some(ReadFrom(codec, data, FromLittleEndian(ReadAt(data, |data| - 8, 8))))
    {
      var s := blockStream.SeekEnd();
      if blocks != [] { LastStored(codec, blockStream.data, indexStream.data, blocks, starts); }
      if s <= 8 { return None; }
      blockStream.Seek(s - 8);
      var bytes := blockStream.Read(8);
      var pos := FromLittleEndian(bytes);
      var block, _ := ReadBlock(pos);
      return Some(block);
    }
  }
}
