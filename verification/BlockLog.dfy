/** The block log: an append-only file of packed blocks, each followed by the position it
    starts at, and an index file of those positions that is rebuilt when it disagrees. */
module BlockLog {
  import opened Wrappers
  import opened Bytes

  datatype SignedBlock = SignedBlock(num: nat, payload: seq<byte>)

  // Serialisation of blocks. unpack reports how many bytes it consumed.
  datatype Codec = Codec(pack: SignedBlock -> seq<byte>, unpack: seq<byte> -> Option<(SignedBlock, nat)>) {
    // A packed block followed by anything reads back as the block.
    ghost predicate Decodes() {
      forall b, rest :: unpack(pack(b) + rest) == Some((b, |pack(b)|))
    }
  }

  // ---------- Positions as eight bytes ----------

  const WORD: nat := 0x1_0000_0000_0000_0000

  function Enc(pos: nat): (s: seq<byte>)
    ensures |s| == 8
  {
    LittleEndian(pos, 8)
  }

  lemma EncRoundTrip(pos: nat)
    requires pos < WORD
    ensures FromLittleEndian(Enc(pos)) == pos
  {
    assert Pow256(2) == 0x1_0000 && Pow256(4) == 0x1_0000_0000 && Pow256(6) == 0x1_0000_0000_0000;
    LittleEndianRoundTrip(pos, 8);
  }

  // ---------- The two files of a list of blocks ----------

  function LogBytes(codec: Codec, blocks: seq<SignedBlock>): seq<byte> {
    if blocks == [] then []
    else
      var before := LogBytes(codec, blocks[..|blocks| - 1]);
      before + codec.pack(blocks[|blocks| - 1]) + Enc(|before|)
  }

  // Where the block after the first i starts.
  function PosOf(codec: Codec, blocks: seq<SignedBlock>, i: nat): nat
    requires i <= |blocks|
  {
    |LogBytes(codec, blocks[..i])|
  }

  function IndexBytes(codec: Codec, blocks: seq<SignedBlock>): (s: seq<byte>)
    ensures |s| == 8 * |blocks|
  {
    if blocks == [] then []
    else
      var init := blocks[..|blocks| - 1];
      IndexBytes(codec, init) + Enc(|LogBytes(codec, init)|)
  }

  lemma LogStep(codec: Codec, blocks: seq<SignedBlock>, i: nat)
    requires i < |blocks|
    ensures LogBytes(codec, blocks[..i + 1]) ==
            LogBytes(codec, blocks[..i]) + codec.pack(blocks[i]) + Enc(PosOf(codec, blocks, i))
    ensures IndexBytes(codec, blocks[..i + 1]) == IndexBytes(codec, blocks[..i]) + Enc(PosOf(codec, blocks, i))
  {
    assert blocks[..i + 1][..i] == blocks[..i];
  }

  lemma AppendedBytes(codec: Codec, blocks: seq<SignedBlock>, b: SignedBlock)
    ensures LogBytes(codec, blocks + [b]) ==
            LogBytes(codec, blocks) + codec.pack(b) + Enc(|LogBytes(codec, blocks)|)
    ensures IndexBytes(codec, blocks + [b]) == IndexBytes(codec, blocks) + Enc(|LogBytes(codec, blocks)|)
  {
    hide LogBytes, IndexBytes, Enc;
    var more := blocks + [b];
    LogStep(codec, more, |blocks|);
    assert more[..|blocks|] == blocks && more[..|blocks| + 1] == more;
  }

  lemma {:induction false} LogPrefix(codec: Codec, blocks: seq<SignedBlock>, i: nat)
    requires i <= |blocks|
    ensures LogBytes(codec, blocks[..i]) <= LogBytes(codec, blocks)
    ensures IndexBytes(codec, blocks[..i]) <= IndexBytes(codec, blocks)
    ensures i < |blocks| ==> PosOf(codec, blocks, i) + 8 <= |LogBytes(codec, blocks)|
    decreases |blocks| - i
  {
    if i < |blocks| {
      LogStep(codec, blocks, i);
      LogPrefix(codec, blocks, i + 1);
    } else {
      assert blocks[..i] == blocks;
    }
  }

  lemma Sections(a: seq<byte>, b: seq<byte>, c: seq<byte>, whole: seq<byte>)
    requires a + b + c <= whole
    ensures whole[|a|..] == b + (c + whole[|a + b + c|..])
    ensures whole[|a + b|..|a + b + c|] == c
  {
    assert whole == a + b + c + whole[|a + b + c|..];
  }

  // What stands in the log at block i: the packed block, its own position, and more.
  lemma BlockAt(codec: Codec, blocks: seq<SignedBlock>, i: nat)
    requires i < |blocks| && codec.Decodes()
    ensures var log, pos, size := LogBytes(codec, blocks), PosOf(codec, blocks, i), |codec.pack(blocks[i])|;
            && pos + size + 8 == PosOf(codec, blocks, i + 1) <= |log|
            && codec.unpack(log[pos..]) == Some((blocks[i], size))
            && log[pos + size..pos + size + 8] == Enc(pos)
  {
    LogStep(codec, blocks, i);
    LogPrefix(codec, blocks, i + 1);
    Sections(LogBytes(codec, blocks[..i]), codec.pack(blocks[i]), Enc(PosOf(codec, blocks, i)), LogBytes(codec, blocks));
  }

  function BlockIn(codec: Codec, log: seq<byte>, pos: nat): Option<(SignedBlock, nat)>
    requires pos <= |log|
  {
    match codec.unpack(log[pos..])
    case None => None
    case Some((b, size)) => Some((b, pos + size + 8))
  }

  // Entry i of the index is the position of block i.
  lemma IndexAt(codec: Codec, blocks: seq<SignedBlock>, i: nat)
    requires i < |blocks|
    ensures IndexBytes(codec, blocks)[8 * i..8 * i + 8] == Enc(PosOf(codec, blocks, i))
  {
    hide IndexBytes, LogBytes, Enc;
    LogStep(codec, blocks, i);
    LogPrefix(codec, blocks, i + 1);
    SectionAt(IndexBytes(codec, blocks[..i]), Enc(PosOf(codec, blocks, i)), IndexBytes(codec, blocks));
  }

  lemma SectionAt(a: seq<byte>, b: seq<byte>, whole: seq<byte>)
    requires a + b <= whole
    ensures whole[|a|..|a| + |b|] == b
  {
    assert whole == a + b + whole[|a + b|..];
  }

  lemma {:induction false} PositionsRise(codec: Codec, blocks: seq<SignedBlock>, i: nat, j: nat)
    requires i < j <= |blocks|
    ensures PosOf(codec, blocks, i) < PosOf(codec, blocks, j)
  {
    LogPrefix(codec, blocks[..j], i);
    assert blocks[..j][..i] == blocks[..i];
  }

  // The log ends with the position of its last block.
  lemma LogTail(codec: Codec, blocks: seq<SignedBlock>)
    requires blocks != [] && codec.Decodes()
    ensures var log := LogBytes(codec, blocks);
            && |log| >= 8
            && log[|log| - 8..] == Enc(PosOf(codec, blocks, |blocks| - 1))
  {
    BlockAt(codec, blocks, |blocks| - 1);
    assert blocks[..|blocks|] == blocks;
  }

  ghost predicate Numbered(blocks: seq<SignedBlock>) {
    forall i :: 0 <= i < |blocks| ==> blocks[i].num == i + 1
  }

  // The index construct_index leaves: nothing for a log of one block, because the only
  // block starts at position 0 and the loop runs while 0 < 0.
  function Rebuilt(codec: Codec, blocks: seq<SignedBlock>): seq<byte> {
    if |blocks| <= 1 then [] else IndexBytes(codec, blocks)
  }

  predicate EndsWith(index: seq<byte>, tail: seq<byte>) {
    |index| >= |tail| && index[|index| - |tail|..] == tail
  }

  // Opening rebuilds the index exactly when it does not end with the last block's position.
  predicate TrustsIndex(codec: Codec, blocks: seq<SignedBlock>, index: seq<byte>)
    requires blocks != []
  {
    EndsWith(index, Enc(PosOf(codec, blocks, |blocks| - 1)))
  }

  function IndexAfterOpen(codec: Codec, blocks: seq<SignedBlock>, index: seq<byte>): seq<byte> {
    if blocks == [] then []
    else if TrustsIndex(codec, blocks, index) then index
    else Rebuilt(codec, blocks)
  }

  // ---------- The log object ----------

  const NPOS := WORD - 1

  datatype LogError = WrongIndexPosition | WrongBlock | StreamFailure

  class BlockLogFiles {
    const codec: Codec
    var blockFile: seq<byte>
    var indexFile: seq<byte>
    var head: Option<SignedBlock>
    // Which way each stream is open: for appending, or for reading.
    var blockWrite: bool
    var indexWrite: bool
    ghost var blocks: seq<SignedBlock>

    ghost predicate Valid()
      reads this
    {
      && codec.Decodes()
      && blockFile == LogBytes(codec, blocks) && |blockFile| < WORD
      && head == if blocks == [] then None else Some(blocks[|blocks| - 1])
    }

    // Blocks are numbered from 1 and the index is the one their appends write.
    ghost predicate InOrder()
      reads this
    {
      Numbered(blocks) && indexFile == IndexBytes(codec, blocks)
    }

    // As Valid, for files just opened.
    ghost predicate Readable()
      reads this
    {
      codec.Decodes() && blockFile == LogBytes(codec, blocks) && |blockFile| < WORD
    }

    // Opens the two files as they are found on disk; existing is what the log file holds.
    constructor (codec: Codec, logOnDisk: seq<byte>, indexOnDisk: seq<byte>, ghost existing: seq<SignedBlock>)
      requires codec.Decodes()
      requires logOnDisk == LogBytes(codec, existing) && |logOnDisk| < WORD
      ensures this.codec == codec && blockFile == logOnDisk && indexFile == indexOnDisk
      ensures blocks == existing && head == None && blockWrite && indexWrite
    {
      this.codec := codec;
      blockFile := logOnDisk;
      indexFile := indexOnDisk;
      head := None;
      blockWrite, indexWrite := true, true;
      blocks := existing;
    }

    method CheckBlockRead()
      modifies this`blockWrite
      ensures !blockWrite
    {
      if blockWrite {
        blockWrite := false;
      }
    }

    method CheckIndexRead()
      modifies this`indexWrite
      ensures !indexWrite
    {
      if indexWrite {
        indexWrite := false;
      }
    }

    // read_block: whatever unpacks at pos, and the position after its trailer.
    method ReadBlock(pos: nat) returns (r: Option<(SignedBlock, nat)>)
      modifies this`blockWrite
      ensures !blockWrite
      ensures r == if pos > |blockFile| then None else BlockIn(codec, blockFile, pos)
    {
      CheckBlockRead();
      if pos > |blockFile| {
        return None;
      }
      var u := codec.unpack(blockFile[pos..]);
      r := if u.None? then None else Some((u.value.0, pos + u.value.1 + 8));
    }

    // The last eight bytes of the log.
    method ReadTrailer() returns (pos: nat)
      requires Readable() && blocks != [] && !blockWrite
      ensures pos == PosOf(codec, blocks, |blocks| - 1) < |blockFile|
    {
      LogTail(codec, blocks);
      PositionsRise(codec, blocks, |blocks| - 1, |blocks|);
      assert blocks[..|blocks|] == blocks;
      pos := FromLittleEndian(blockFile[|blockFile| - 8..]);
      EncRoundTrip(PosOf(codec, blocks, |blocks| - 1));
    }

    method ReadHead() returns (b: SignedBlock)
      requires Readable() && blocks != []
      modifies this`blockWrite
      ensures !blockWrite && b == blocks[|blocks| - 1]
    {
      CheckBlockRead();
      var pos := ReadTrailer();
      BlockAt(codec, blocks, |blocks| - 1);
      var r := ReadBlock(pos);
      b := r.value.0;
    }

    // get_block_pos: the index entry of a block number, or npos.
    method GetBlockPos(blockNum: nat) returns (pos: nat)
      requires Valid() && InOrder()
      modifies this`indexWrite
      ensures pos == if 1 <= blockNum <= |blocks| then PosOf(codec, blocks, blockNum - 1) else NPOS
    {
      hide LogBytes, IndexBytes, FromLittleEndian, Codec.Decodes, Enc;
      CheckIndexRead();
      if !(head.Some? && blockNum <= head.value.num && blockNum > 0) {
        return NPOS;
      }
      IndexAt(codec, blocks, blockNum - 1);
      BlockStartsBelow(codec, blocks, blockNum - 1);
      EncRoundTrip(PosOf(codec, blocks, blockNum - 1));
      pos := FromLittleEndian(indexFile[8 * (blockNum - 1)..8 * (blockNum - 1) + 8]);
    }

    // read_block_by_num: the block appended in that place, nothing for other numbers.
    method ReadBlockByNum(blockNum: nat) returns (r: Result<Option<SignedBlock>, LogError>)
      requires Valid() && InOrder()
      modifies this`indexWrite, this`blockWrite
      ensures r == Success(if 1 <= blockNum <= |blocks| then Some(blocks[blockNum - 1]) else None)
    {
      hide LogBytes, IndexBytes, FromLittleEndian, Codec.Decodes;
      var pos := GetBlockPos(blockNum);
      if pos == NPOS {
        if 1 <= blockNum <= |blocks| {
          BlockStartsBelow(codec, blocks, blockNum - 1);
        }
        return Success(None);
      }
      BlockAt(codec, blocks, blockNum - 1);
      var b := ReadBlock(pos);
      if b.None? {
        return Failure(StreamFailure);
      }
      if b.value.0.num != blockNum {
        return Failure(WrongBlock);
      }
      r := Success(Some(b.value.0));
    }

    // append: refused, with nothing written, unless the index ends where this block's
    // entry belongs. In order, that is exactly for the next block number.
    method Append(b: SignedBlock) returns (r: Result<nat, LogError>)
      requires Valid() && |blockFile| + |codec.pack(b)| + 8 < WORD
      modifies this
      ensures Valid()
      ensures r.Success? <==> b.num >= 1 && |old(indexFile)| == 8 * (b.num - 1)
      ensures r.Success? ==>
                && r.value == |old(blockFile)| && blocks == old(blocks) + [b]
                && indexFile == old(indexFile) + Enc(r.value)
      ensures r.Failure? ==> r.error == WrongIndexPosition && blocks == old(blocks) && indexFile == old(indexFile)
      ensures old(InOrder()) ==> InOrder() && (r.Success? <==> b.num == |old(blocks)| + 1)
    {
      hide LogBytes, IndexBytes, Enc, Codec.Decodes;
      AppendedBytes(codec, blocks, b);
      blockWrite, indexWrite := true, true;
      var pos := |blockFile|;
      if b.num == 0 || |indexFile| != 8 * (b.num - 1) {
        return Failure(WrongIndexPosition);
      }
      var data := codec.pack(b);
      blockFile := blockFile + data;
      blockFile := blockFile + Enc(pos);
      indexFile := indexFile + Enc(pos);
      head := Some(b);
      blocks := blocks + [b];
      r := Success(pos);
    }

    // open, on files that hold whole blocks and any index at all. An index too short to
    // hold a position makes the stream throw.
    method Open() returns (r: Result<(), LogError>)
      requires Readable()
      modifies this
      ensures blocks == old(blocks) && blockFile == old(blockFile)
      ensures r.Failure? <==> blocks != [] && 0 < |old(indexFile)| < 8
      ensures r.Success? ==> Valid() && indexFile == IndexAfterOpen(codec, blocks, old(indexFile))
    {
      hide LogBytes, IndexBytes, FromLittleEndian, LittleEndian, Codec.Decodes;
      LogNonEmpty(codec, blocks);
      blockWrite, indexWrite := true, true;
      head := None;
      if |blockFile| != 0 {
        var b := ReadHead();
        head := Some(b);
        if |indexFile| != 0 {
          CheckBlockRead();
          CheckIndexRead();
          var blockPos := ReadTrailer();
          if |indexFile| < 8 {
            return Failure(StreamFailure);
          }
          var indexPos := FromLittleEndian(indexFile[|indexFile| - 8..]);
          SameEntry(indexFile[|indexFile| - 8..], blockPos);
          if blockPos < indexPos {
            ConstructIndex();
          } else if blockPos > indexPos {
            ConstructIndex();
          }
        } else {
          ConstructIndex();
        }
      } else {
        if |indexFile| != 0 {
          indexFile := [];
          indexWrite := true;
        }
      }
      r := Success(());
    }

    // construct_index.
    method ConstructIndex()
      requires Valid() && blocks != []
      modifies this`indexFile, this`indexWrite, this`blockWrite
      ensures Valid() && indexFile == Rebuilt(codec, blocks)
    {
      hide LogBytes, Codec.Decodes, LittleEndian;
      indexFile := [];
      indexWrite := true;
      CheckBlockRead();
      var endPos := ReadTrailer();
      var pos, cursor := 0, 0;
      ghost var i := 0;
      LogStartsAtZero(codec, blocks);
      while pos < endPos
        invariant Valid() && !blockWrite && i <= |blocks|
        invariant cursor == PosOf(codec, blocks, i) && indexFile == IndexBytes(codec, blocks[..i])
        invariant i == 0 ==> pos == 0
        invariant i > 0 ==> pos == PosOf(codec, blocks, i - 1) && |blocks| >= 2
        decreases |blocks| - i
      {
        EntryBelow(codec, blocks, i, pos, endPos);
        pos, cursor := ReadEntry(cursor, i);
        LogStep(codec, blocks, i);
        indexFile := indexFile + Enc(pos);
        i := i + 1;
      }
      AllEntriesRead(codec, blocks, i, pos, endPos);
      assert blocks[..|blocks|] == blocks;
    }

    // The next block of the log, skipped, and the position that follows it.
    method ReadEntry(cursor: nat, ghost i: nat) returns (pos: nat, next: nat)
      requires Valid() && !blockWrite && i < |blocks| && cursor == PosOf(codec, blocks, i)
      ensures pos == PosOf(codec, blocks, i) && next == PosOf(codec, blocks, i + 1)
    {
      BlockAt(codec, blocks, i);
      BlockStartsBelow(codec, blocks, i);
      EncRoundTrip(PosOf(codec, blocks, i));
      var size := codec.unpack(blockFile[cursor..]).value.1;
      pos := FromLittleEndian(blockFile[cursor + size..cursor + size + 8]);
      next := cursor + size + 8;
    }
  }

  lemma NextFits(codec: Codec, all: seq<SignedBlock>, n: nat)
    requires n < |all|
    ensures |LogBytes(codec, all[..n])| + |codec.pack(all[n])| + 8 <= |LogBytes(codec, all)|
  {
    LogStep(codec, all, n);
    LogPrefix(codec, all, n + 1);
  }

  // Writes blocks one after the other; every append is accepted.
  method AppendAll(log: BlockLogFiles, bs: seq<SignedBlock>)
    requires log.Valid() && log.InOrder() && Numbered(log.blocks + bs)
    requires |LogBytes(log.codec, log.blocks + bs)| < WORD
    modifies log
    ensures log.Valid() && log.InOrder() && log.blocks == old(log.blocks) + bs
  {
    hide LogBytes, IndexBytes, LittleEndian, Codec.Decodes;
    ghost var all := log.blocks + bs;
    var i := 0;
    while i < |bs|
      invariant i <= |bs| && log.Valid() && log.InOrder() && log.blocks == old(log.blocks) + bs[..i]
    {
      assert all[..|log.blocks|] == log.blocks && all[|log.blocks|] == bs[i];
      NextFits(log.codec, all, |log.blocks|);
      var r := log.Append(bs[i]);
      i := i + 1;
    }
    assert bs[..|bs|] == bs;
  }

  // Whatever was appended, block n reads back as the n-th appended block and the head as the
  // last, also after closing and opening the files again with their index.
  method WriteCloseAndRead(codec: Codec, bs: seq<SignedBlock>, n: nat) returns (r: Result<Option<SignedBlock>, LogError>, last: Option<SignedBlock>)
    requires codec.Decodes() && Numbered(bs) && |LogBytes(codec, bs)| < WORD
    ensures r == Success(if 1 <= n <= |bs| then Some(bs[n - 1]) else None)
    ensures last == if bs == [] then None else Some(bs[|bs| - 1])
  {
    var log := new BlockLogFiles(codec, [], [], []);
    var status := log.Open();
    assert log.blocks + bs == bs;
    AppendAll(log, bs);
    var again := new BlockLogFiles(codec, log.blockFile, log.indexFile, bs);
    IntactIndexIsTrusted(codec, bs);
    status := again.Open();
    r := again.ReadBlockByNum(n);
    last := again.head;
  }

  // Opening leaves the right index exactly when it was right already, or the log does not
  // hold exactly one block and the index does not end with the last block's position.
  lemma OpenRestoresIndexIff(codec: Codec, blocks: seq<SignedBlock>, index: seq<byte>)
    ensures IndexAfterOpen(codec, blocks, index) == IndexBytes(codec, blocks) <==>
            index == IndexBytes(codec, blocks) || blocks == [] || (|blocks| > 1 && !TrustsIndex(codec, blocks, index))
  {
    IntactIndexIsTrusted(codec, blocks);
  }

  lemma IntactIndexIsTrusted(codec: Codec, blocks: seq<SignedBlock>)
    ensures blocks != [] ==> TrustsIndex(codec, blocks, IndexBytes(codec, blocks))
  {
    if blocks != [] {
      IndexAt(codec, blocks, |blocks| - 1);
      var index := IndexBytes(codec, blocks);
      assert index[8 * (|blocks| - 1)..8 * |blocks|] == index[|index| - 8..];
    }
  }

  // An index cut short after any number of entries is restored, given at least two blocks.
  lemma TruncatedIndexIsRestored(codec: Codec, blocks: seq<SignedBlock>, j: nat)
    requires |blocks| >= 2 && j <= |blocks| && |LogBytes(codec, blocks)| < WORD
    ensures IndexAfterOpen(codec, blocks, IndexBytes(codec, blocks[..j])) == IndexBytes(codec, blocks)
  {
    if j == |blocks| {
      assert blocks[..j] == blocks;
    } else if j > 0 {
      var short := blocks[..j];
      IntactIndexIsTrusted(codec, short);
      assert short[..j - 1] == blocks[..j - 1];
      EntriesDiffer(codec, blocks, j - 1);
    }
    OpenRestoresIndexIff(codec, blocks, IndexBytes(codec, blocks[..j]));
  }

  lemma EntriesDiffer(codec: Codec, blocks: seq<SignedBlock>, i: nat)
    requires i < |blocks| - 1 && |LogBytes(codec, blocks)| < WORD
    ensures Enc(PosOf(codec, blocks, i)) != Enc(PosOf(codec, blocks, |blocks| - 1))
  {
    PositionsRise(codec, blocks, i, |blocks| - 1);
    LogPrefix(codec, blocks, |blocks| - 1);
    EncRoundTrip(PosOf(codec, blocks, i));
    EncRoundTrip(PosOf(codec, blocks, |blocks| - 1));
  }

  // So is an index with any further entries that end in a larger position.
  lemma OverlongIndexIsRestored(codec: Codec, blocks: seq<SignedBlock>, more: seq<byte>, p: nat)
    requires |blocks| >= 2 && |LogBytes(codec, blocks)| < WORD
    requires PosOf(codec, blocks, |blocks| - 1) < p < WORD
    ensures IndexAfterOpen(codec, blocks, IndexBytes(codec, blocks) + more + Enc(p)) == IndexBytes(codec, blocks)
  {
    EncRoundTrip(p);
    EncRoundTrip(PosOf(codec, blocks, |blocks| - 1));
    var index := IndexBytes(codec, blocks) + more + Enc(p);
    assert index[|index| - 8..] == Enc(p);
    OpenRestoresIndexIff(codec, blocks, index);
  }

  // An index cut inside an entry can end by chance with the last position. Here the last
  // position is 256 times the second one, so the index without its last nine bytes is trusted.
  lemma TornIndexCanBeTrusted(codec: Codec, blocks: seq<SignedBlock>)
    requires |blocks| == 3 && PosOf(codec, blocks, 2) == 256 * PosOf(codec, blocks, 1)
    ensures var torn := IndexBytes(codec, blocks)[..15];
            IndexAfterOpen(codec, blocks, torn) == torn != IndexBytes(codec, blocks)
  {
    hide LogBytes, IndexBytes, LittleEndian;
    var index := IndexBytes(codec, blocks);
    var x := PosOf(codec, blocks, 1);
    IndexAt(codec, blocks, 0);
    IndexAt(codec, blocks, 1);
    assert blocks[..0] == [];
    LogStartsAtZero(codec, blocks);
    LastByteOfZero();
    ShiftedEntry(x);
    assert index[..15][7..] == index[0..8][7..] + index[8..16][..7];
  }

  lemma LastByteOfZero()
    ensures Enc(0)[7..] == [0]
  {
    ZeroBytes(8);
  }

  lemma {:induction false} ZeroBytes(width: nat)
    ensures forall i :: 0 <= i < width ==> LittleEndian(0, width)[i] == 0
  {
    if width > 0 {
      ZeroBytes(width - 1);
    }
  }

  lemma ShiftedEntry(x: nat)
    ensures Enc(256 * x) == [0] + Enc(x)[..7]
  {
    LittleEndianPrefix(x, 7);
    assert 256 * x % 256 == 0 && 256 * x / 256 == x;
    assert LittleEndian(256 * x, 8) == [0] + LittleEndian(x, 7);
  }

  lemma {:induction false} LittleEndianPrefix(v: nat, width: nat)
    ensures LittleEndian(v, width + 1)[..width] == LittleEndian(v, width)
  {
    if width > 0 {
      LittleEndianPrefix(v / 256, width - 1);
      assert LittleEndian(v, width + 1) == [(v % 256) as byte] + LittleEndian(v / 256, width);
    }
  }

  // ---------- A codec and three blocks for which that happens ----------

  // Each byte behind a one, and a zero at the end.
  function Marked(data: seq<byte>): (s: seq<byte>)
    ensures |s| == 2 * |data| + 1
  {
    if data == [] then [0] else [1, data[0]] + Marked(data[1..])
  }

  function Unmarked(s: seq<byte>): (r: Option<(seq<byte>, nat)>)
    ensures r.Some? ==> r.value.1 <= |s|
  {
    if s == [] then None
    else if s[0] == 0 then Some(([], 1))
    else if |s| == 1 then None
    else
      match Unmarked(s[2..])
      case None => None
      case Some((data, n)) => Some(([s[1]] + data, n + 2))
  }

  lemma {:induction false} MarkedReadsBack(data: seq<byte>, rest: seq<byte>)
    ensures Unmarked(Marked(data) + rest) == Some((data, 2 * |data| + 1))
  {
    if data != [] {
      MarkedReadsBack(data[1..], rest);
      assert Marked(data) + rest == [1, data[0]] + (Marked(data[1..]) + rest);
      assert [data[0]] + data[1..] == data;
    }
  }

  function Zeros(n: nat): seq<byte> {
    seq(n, _ => 0 as byte)
  }

  function PackMarked(b: SignedBlock): seq<byte> {
    Marked(Zeros(b.num)) + Marked(b.payload)
  }

  function UnpackMarked(s: seq<byte>): Option<(SignedBlock, nat)> {
    match Unmarked(s)
    case None => None
    case Some((zeros, n)) =>
      match Unmarked(s[n..])
      case None => None
      case Some((payload, m)) => Some((SignedBlock(|zeros|, payload), n + m))
  }

  lemma PackedReadsBack(b: SignedBlock, rest: seq<byte>)
    ensures UnpackMarked(PackMarked(b) + rest) == Some((b, |PackMarked(b)|))
  {
    hide Marked, Unmarked;
    var first, second := Marked(Zeros(b.num)), Marked(b.payload);
    MarkedReadsBack(Zeros(b.num), second + rest);
    MarkedReadsBack(b.payload, rest);
    assert PackMarked(b) + rest == first + (second + rest);
    assert (first + (second + rest))[|first|..] == second + rest;
  }

  lemma MarkedCodecDecodes()
    ensures Codec(PackMarked, UnpackMarked).Decodes()
  {
    hide PackMarked, UnpackMarked;
    var codec := Codec(PackMarked, UnpackMarked);
    forall b, rest ensures codec.unpack(codec.pack(b) + rest) == Some((b, |codec.pack(b)|)) {
      PackedReadsBack(b, rest);
    }
  }

  // The second block starts at 12 and the third at 256 * 12.
  lemma TornIndexHappens() returns (codec: Codec, blocks: seq<SignedBlock>)
    ensures codec.Decodes() && Numbered(blocks) && |blocks| == 3
    ensures var torn := IndexBytes(codec, blocks)[..15];
            IndexAfterOpen(codec, blocks, torn) == torn != IndexBytes(codec, blocks)
  {
    hide LogBytes, IndexBytes, IndexAfterOpen, Codec.Decodes, Marked, UnpackMarked, Enc;
    codec := Codec(PackMarked, UnpackMarked);
    MarkedCodecDecodes();
    blocks := [SignedBlock(1, []), SignedBlock(2, Zeros(1523)), SignedBlock(3, [])];
    LogStartsAtZero(codec, blocks);
    LogStep(codec, blocks, 0);
    LogStep(codec, blocks, 1);
    assert |codec.pack(blocks[0])| == 4 && |codec.pack(blocks[1])| == 3052;
    TornIndexCanBeTrusted(codec, blocks);
  }

  // A log of one block whose index is lost stays without it, so the next append is refused.
  method LostIndexOfOneBlock(codec: Codec, first: SignedBlock, second: SignedBlock) returns (r: Result<nat, LogError>)
    requires codec.Decodes() && first.num == 1 && second.num == 2
    requires |LogBytes(codec, [first])| + |codec.pack(second)| + 8 < WORD
    ensures r == Failure(WrongIndexPosition)
  {
    hide LittleEndian, FromLittleEndian;
    ghost var blocks := [first];
    assert blocks[..0] == [];
    var data := codec.pack(first);
    assert LogBytes(codec, blocks) == data + Enc(0);
    var log := new BlockLogFiles(codec, data + Enc(0), [], blocks);
    var status := log.Open();
    r := log.Append(second);
  }

  // When it stops every block has been read, unless there is only one.
  lemma AllEntriesRead(codec: Codec, blocks: seq<SignedBlock>, i: nat, pos: nat, endPos: nat)
    requires blocks != [] && i <= |blocks| && endPos == PosOf(codec, blocks, |blocks| - 1) && pos >= endPos
    requires if i == 0 then pos == 0 else |blocks| >= 2 && pos == PosOf(codec, blocks, i - 1)
    ensures if |blocks| == 1 then i == 0 else i == |blocks|
  {
    if |blocks| > 1 && i < |blocks| {
      PositionsRise(codec, blocks, if i == 0 then 0 else i - 1, |blocks| - 1);
    }
  }

  lemma LogNonEmpty(codec: Codec, blocks: seq<SignedBlock>)
    ensures LogBytes(codec, blocks) == [] <==> blocks == []
  {
  }

  // Eight bytes decode to a position exactly when they are its encoding.
  lemma SameEntry(s: seq<byte>, pos: nat)
    requires |s| == 8 && pos < WORD
    ensures FromLittleEndian(s) == pos <==> s == Enc(pos)
  {
    EncRoundTrip(pos);
    if FromLittleEndian(s) == pos {
      DecodeIsInjective(s, Enc(pos));
    }
  }

  lemma {:induction false} DecodeIsInjective(s: seq<byte>, t: seq<byte>)
    requires |s| == |t| && FromLittleEndian(s) == FromLittleEndian(t)
    ensures s == t
  {
    if s != [] {
      FirstDigit(s[0] as nat, FromLittleEndian(s[1..]), t[0] as nat, FromLittleEndian(t[1..]));
      DecodeIsInjective(s[1..], t[1..]);
      assert s == [s[0]] + s[1..] && t == [t[0]] + t[1..];
    }
  }

  lemma FirstDigit(a: nat, x: nat, b: nat, y: nat)
    requires a < 256 && b < 256 && a + 256 * x == b + 256 * y
    ensures a == b && x == y
  {
  }

  lemma LogStartsAtZero(codec: Codec, blocks: seq<SignedBlock>)
    ensures PosOf(codec, blocks, 0) == 0
  {
  }

  lemma BlockStartsBelow(codec: Codec, blocks: seq<SignedBlock>, i: nat)
    requires i < |blocks| && |LogBytes(codec, blocks)| < WORD
    ensures PosOf(codec, blocks, i) < WORD - 8
  {
    LogPrefix(codec, blocks, i);
  }

  // While the loop of construct_index runs there is another block to read.
  lemma EntryBelow(codec: Codec, blocks: seq<SignedBlock>, i: nat, pos: nat, endPos: nat)
    requires blocks != [] && i <= |blocks| && endPos == PosOf(codec, blocks, |blocks| - 1) && pos < endPos
    requires i > 0 ==> pos == PosOf(codec, blocks, i - 1)
    ensures i < |blocks| && |blocks| >= 2
  {
    assert PosOf(codec, blocks, 0) == 0;
  }
}
