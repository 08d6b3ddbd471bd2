/** Error correction of a whole symbol: a message with few wrong codewords in each block belongs to one text only. */
module QrRecovery {
  import opened Gf256
  import opened Polynomials
  import opened ReedSolomon
  import opened ReedSolomonDistance
  import opened QrVersions
  import opened QrEncoding
  import opened QrBlocks

  /** The number of data codewords of a block; all blocks of a supported version have as many. */
  function DataPerBlock(version: int): nat
    requires IsVersion(version)
  {
    Info(version).dataCW / Info(version).blocks
  }

  /** Where the data of block `b` starts and ends among all data codewords. */
  lemma BlockBounds(version: int, b: nat)
    requires IsVersion(version) && b < Info(version).blocks
    ensures b * DataPerBlock(version) + DataPerBlock(version) <= Info(version).dataCW
    ensures DataPerBlock(version) + Info(version).ecPerBlock <= 255
  {
    BlockPartition(version, b);
    hide BlockStart;
    if version < 4 {
      assert Info(version).blocks == 1 && b == 0;
    } else {
      assert DataPerBlock(version) == 32;
    }
  }

  function BlockData(data: seq<Byte>, version: int, b: nat): (r: seq<Byte>)
    requires IsVersion(version) && |data| == Info(version).dataCW && b < Info(version).blocks
    ensures |r| == DataPerBlock(version)
  {
    BlockBounds(version, b);
    data[b * DataPerBlock(version)..b * DataPerBlock(version) + DataPerBlock(version)]
  }

  /** Block `b` as a reader takes it out of a message: its data codewords, then its parity codewords. */
  function ReadBlock(message: seq<Byte>, version: int, b: nat): (r: Poly)
    requires IsVersion(version) && |message| == Info(version).totalCW && b < Info(version).blocks
    ensures |r| == DataPerBlock(version) + Info(version).ecPerBlock
  {
    BlockData(Deinterleave(message, version), version, b) + BlockParity(message, version, b)
  }

  /** What a reader takes out of an encoder's message are the codewords of the blocks. */
  lemma BlockIsCodeword(data: seq<Byte>, version: int, b: nat)
    requires IsVersion(version) && |data| == Info(version).dataCW && b < Info(version).blocks
    ensures |FinalMessage(data, version)| == Info(version).totalCW
    ensures ReadBlock(FinalMessage(data, version), version, b)
         == Codeword(BlockData(data, version, b), Info(version).ecPerBlock)
  {
    DeinterleaveRoundTrip(data, version);
    ParityRoundTrip(data, version, b);
    SameBlock(data, version, b);
    hide FinalMessage, Deinterleave, BlockParity, Parity, BlockData, DataBlock, Info;
  }

  /** The encoder's block is the reader's. */
  lemma SameBlock(data: seq<Byte>, version: int, b: nat)
    requires IsVersion(version) && |data| == Info(version).dataCW && b < Info(version).blocks
    ensures DataBlock(data, Info(version), b) == BlockData(data, version, b)
  {
    BlockPartition(version, b);
    BlockBounds(version, b);
    hide BlockStart, BlockLength, Info;
  }

  /** Every block of the message differs from that of the data in at most half of its parity codewords. */
  ghost predicate Near(message: seq<Byte>, data: seq<Byte>, version: int)
    requires IsVersion(version)
  {
    && |message| == Info(version).totalCW && |data| == Info(version).dataCW
    && forall b: nat :: b < Info(version).blocks ==> BlockNear(message, data, version, b)
  }

  ghost predicate BlockNear(message: seq<Byte>, data: seq<Byte>, version: int, b: nat)
    requires IsVersion(version) && |message| == Info(version).totalCW && |data| == Info(version).dataCW
    requires b < Info(version).blocks
  {
    2 * Distance(ReadBlock(message, version, b),
                 Codeword(BlockData(data, version, b), Info(version).ecPerBlock)) <= Info(version).ecPerBlock
  }

  lemma BlockRecovery(message: seq<Byte>, d1: seq<Byte>, d2: seq<Byte>, version: int, b: nat)
    requires IsVersion(version) && |message| == Info(version).totalCW && |d1| == |d2| == Info(version).dataCW
    requires b < Info(version).blocks && BlockNear(message, d1, version, b) && BlockNear(message, d2, version, b)
    ensures BlockData(d1, version, b) == BlockData(d2, version, b)
  {
    BlockBounds(version, b);
    hide ReadBlock, BlockData, Codeword, Distance, Info;
    UniqueRecovery(ReadBlock(message, version, b), BlockData(d1, version, b), BlockData(d2, version, b),
                   Info(version).ecPerBlock,
                   Info(version).ecPerBlock / 2);
  }

  /** Data that agrees in all blocks is equal. */
  lemma BlocksDetermineData(d1: seq<Byte>, d2: seq<Byte>, version: int)
    requires IsVersion(version) && |d1| == |d2| == Info(version).dataCW
    requires forall b: nat :: b < Info(version).blocks ==> BlockData(d1, version, b) == BlockData(d2, version, b)
    ensures d1 == d2
  {
    var len := DataPerBlock(version);
    assert BlockData(d1, version, 0) == BlockData(d2, version, 0);
    if version < 4 {
      assert len == |d1|;
      assert d1 == d1[0..len] && d2 == d2[0..len];
    } else {
      assert BlockData(d1, version, 1) == BlockData(d2, version, 1);
      assert d1 == d1[0..32] + d1[32..64] && d2 == d2[0..32] + d2[32..64];
    }
  }

  /** A message that is near to the codewords of two data strings belongs to one: the symbol corrects up to half of the
      parity codewords of every block. */
  lemma SymbolRecovery(message: seq<Byte>, d1: seq<Byte>, d2: seq<Byte>, version: int)
    requires IsVersion(version) && Near(message, d1, version) && Near(message, d2, version)
    ensures d1 == d2
  {
    hide BlockNear, BlockData;
    forall b: nat | b < Info(version).blocks ensures BlockData(d1, version, b) == BlockData(d2, version, b) {
      BlockRecovery(message, d1, d2, version, b);
    }
    BlocksDetermineData(d1, d2, version);
  }

  /** So two texts whose symbols a message is near to are the same text. */
  lemma TextRecovery(message: seq<Byte>, text1: seq<Byte>, text2: seq<Byte>, version: int)
    requires IsVersion(version) && |text1| <= ByteCapacity(version) && |text2| <= ByteCapacity(version)
    requires Near(message, DataCodewords(text1, version), version)
    requires Near(message, DataCodewords(text2, version), version)
    ensures text1 == text2
  {
    hide DataCodewords, Near, Info, ParseSegment;
    SegmentRoundTrip(text1, version);
    SegmentRoundTrip(text2, version);
    SymbolRecovery(message, DataCodewords(text1, version), DataCodewords(text2, version), version);
  }

  lemma DistanceToItself(p: Poly)
    ensures Distance(p, p) == 0
  {
    DistanceZero(p, p);
  }

  /** The encoder's own message is near to its data. */
  lemma EncodedIsNear(data: seq<Byte>, version: int)
    requires IsVersion(version) && |data| == Info(version).dataCW
    ensures Near(FinalMessage(data, version), data, version)
  {
    MessageLength(data, version);
    hide FinalMessage, ReadBlock, Codeword, Distance, Info;
    forall b: nat | b < Info(version).blocks ensures BlockNear(FinalMessage(data, version), data, version, b) {
      BlockIsCodeword(data, version, b);
      DistanceToItself(Codeword(BlockData(data, version, b), Info(version).ecPerBlock));
    }
  }
}
