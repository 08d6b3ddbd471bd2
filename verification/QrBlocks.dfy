/** Splitting the data codewords into blocks, adding parity to each block, and interleaving. */
module QrBlocks {
  import opened Gf256
  import opened Polynomials
  import opened ReedSolomon
  import opened QrVersions

  // ---------- blocks ----------

  function BlockLength(info: VersionInfo, b: nat): nat
    requires info.blocks > 0
  {
    info.dataCW / info.blocks + (if b >= info.blocks - info.dataCW % info.blocks then 1 else 0)
  }

  function BlockStart(info: VersionInfo, b: nat): nat
    requires info.blocks > 0
  {
    if b == 0 then 0 else BlockStart(info, b - 1) + BlockLength(info, b - 1)
  }

  /** `s.slice(from, to)`: the bounds are cut off at the length. */
  function Slice(s: seq<Byte>, from: nat, to: nat): seq<Byte>
    requires from <= to
  {
    if to <= |s| then s[from..to] else if from <= |s| then s[from..] else []
  }

  function DataBlock(data: seq<Byte>, info: VersionInfo, b: nat): seq<Byte>
    requires info.blocks > 0
  {
    var start := BlockStart(info, b);
    Slice(data, start, start + BlockLength(info, b))
  }

  function DataBlocks(data: seq<Byte>, info: VersionInfo, n: nat): (r: seq<seq<Byte>>)
    requires info.blocks > 0
    ensures |r| == n && forall b :: 0 <= b < n ==> r[b] == DataBlock(data, info, b)
  {
    if n == 0 then [] else DataBlocks(data, info, n - 1) + [DataBlock(data, info, n - 1)]
  }

  function EcBlock(data: seq<Byte>, info: VersionInfo, b: nat): seq<Byte>
    requires info.blocks > 0
  {
    Parity(DataBlock(data, info, b), info.ecPerBlock)
  }

  function EcBlocks(data: seq<Byte>, info: VersionInfo, n: nat): (r: seq<seq<Byte>>)
    requires info.blocks > 0
    ensures |r| == n && forall b :: 0 <= b < n ==> r[b] == EcBlock(data, info, b)
  {
    seq(n, (b: nat) => EcBlock(data, info, b))
  }

  // ---------- interleaving ----------

  /** The `i`-th byte of every block that has one. */
  function Column(blocks: seq<seq<Byte>>, i: nat): seq<Byte> {
    if |blocks| == 0 then []
    else
      var last := blocks[|blocks| - 1];
      Column(blocks[..|blocks| - 1], i) + (if i < |last| then [last[i]] else [])
  }

  function Interleave(blocks: seq<seq<Byte>>, n: nat): seq<Byte> {
    if n == 0 then [] else Interleave(blocks, n - 1) + Column(blocks, n - 1)
  }

  function MaxLength(blocks: seq<seq<Byte>>): nat {
    if |blocks| == 0 then 0
    else
      var rest := MaxLength(blocks[..|blocks| - 1]);
      var last := |blocks[|blocks| - 1]|;
      if last > rest then last else rest
  }

  /** The final message: interleaved data codewords, then interleaved parity codewords. */
  function FinalMessage(data: seq<Byte>, version: int): seq<Byte>
    requires IsVersion(version)
  {
    var info := Info(version);
    var blocks := DataBlocks(data, info, info.blocks);
    Interleave(blocks, MaxLength(blocks)) + Interleave(EcBlocks(data, info, info.blocks), info.ecPerBlock)
  }

  method InterleaveBlocks(blocks: seq<seq<Byte>>, n: nat) returns (result: seq<Byte>)
    ensures result == Interleave(blocks, n)
  {
    result := [];
    for i := 0 to n
      invariant result == Interleave(blocks, i)
    {
      ghost var before := result;
      for b := 0 to |blocks|
        invariant result == before + Column(blocks[..b], i)
      {
        assert blocks[..b + 1][..b] == blocks[..b];
        if i < |blocks[b]| {
          result := result + [blocks[b][i]];
        }
      }
      assert blocks[..|blocks|] == blocks;
    }
  }

  method LongestBlock(blocks: seq<seq<Byte>>) returns (maxDataLen: nat)
    ensures maxDataLen == MaxLength(blocks)
  {
    maxDataLen := 0;
    for b := 0 to |blocks|
      invariant maxDataLen == MaxLength(blocks[..b])
    {
      assert blocks[..b + 1][..b] == blocks[..b];
      if |blocks[b]| > maxDataLen {
        maxDataLen := |blocks[b]|;
      }
    }
    assert blocks[..|blocks|] == blocks;
  }

  /** Splits, encodes and interleaves the data codewords. */
  method BuildCodewords(dataBytes: seq<Byte>, version: int) returns (result: seq<Byte>)
    requires IsVersion(version)
    ensures result == FinalMessage(dataBytes, version)
  {
    hide Parity, Interleave, BlockStart;
    var info := Info(version);
    var dataCWPerBlock := info.dataCW / info.blocks;
    var shortBlocks := info.blocks - info.dataCW % info.blocks;
    var dataBlocks: seq<seq<Byte>> := [];
    var ecBlocks: seq<seq<Byte>> := [];
    var offset := 0;
    NoBlocksYet(info);
    for b := 0 to info.blocks
      invariant offset == BlockStart(info, b)
      invariant dataBlocks == DataBlocks(dataBytes, info, b)
      invariant ecBlocks == EcBlocks(dataBytes, info, b)
    {
      var blockLen := dataCWPerBlock + (if b >= shortBlocks then 1 else 0);
      NextBlockStart(info, b);
      var block := Slice(dataBytes, offset, offset + blockLen);
      dataBlocks := dataBlocks + [block];
      var ec := RsEncode(block, info.ecPerBlock);
      ecBlocks := ecBlocks + [ec];
      offset := offset + blockLen;
    }
    var maxDataLen := LongestBlock(dataBlocks);
    result := InterleaveBlocks(dataBlocks, maxDataLen);
    var tail := InterleaveBlocks(ecBlocks, info.ecPerBlock);
    result := result + tail;
  }

  lemma NoBlocksYet(info: VersionInfo)
    requires info.blocks > 0
    ensures BlockStart(info, 0) == 0
  {}

  lemma NextBlockStart(info: VersionInfo, b: nat)
    requires info.blocks > 0
    ensures BlockStart(info, b + 1) == BlockStart(info, b) + BlockLength(info, b)
  {}

  // ---------- reading the blocks back ----------

  lemma {:induction false} ColumnOfEqualBlocks(blocks: seq<seq<Byte>>, i: nat)
    requires forall b :: 0 <= b < |blocks| ==> i < |blocks[b]|
    ensures |Column(blocks, i)| == |blocks|
    ensures forall b :: 0 <= b < |blocks| ==> Column(blocks, i)[b] == blocks[b][i]
  {
    if |blocks| != 0 {
      ColumnOfEqualBlocks(blocks[..|blocks| - 1], i);
    }
  }

  /** Where row `i` starts in a matrix with `width` columns, written row by row. */
  function RowAt(width: nat, i: nat): nat {
    i * width
  }

  lemma {:induction false} InterleaveLength(blocks: seq<seq<Byte>>, n: nat)
    requires forall b :: 0 <= b < |blocks| ==> n <= |blocks[b]|
    ensures |Interleave(blocks, n)| == RowAt(|blocks|, n)
  {
    if n != 0 {
      InterleaveLength(blocks, n - 1);
      ColumnOfEqualBlocks(blocks, n - 1);
      assert n * |blocks| == (n - 1) * |blocks| + |blocks|;
    }
  }

  lemma {:induction false} InterleaveByte(blocks: seq<seq<Byte>>, n: nat, b: nat, i: nat)
    requires b < |blocks| && i < n
    requires forall b :: 0 <= b < |blocks| ==> n <= |blocks[b]|
    ensures RowAt(|blocks|, i) + b < |Interleave(blocks, n)|
    ensures Interleave(blocks, n)[RowAt(|blocks|, i) + b] == blocks[b][i]
    decreases n
  {
    hide RowAt, Interleave, Column;
    InterleaveLength(blocks, n - 1);
    ColumnOfEqualBlocks(blocks, n - 1);
    InterleaveStep(blocks, n);
    var before, column := Interleave(blocks, n - 1), Column(blocks, n - 1);
    if i < n - 1 {
      InterleaveByte(blocks, n - 1, b, i);
      ConcatAt(before, column, RowAt(|blocks|, i) + b);
    } else {
      ConcatAt(before, column, |before| + b);
    }
  }

  lemma ConcatAt(a: seq<Byte>, b: seq<Byte>, k: nat)
    requires k < |a| + |b|
    ensures (a + b)[k] == if k < |a| then a[k] else b[k - |a|]
  {}

  lemma InterleaveStep(blocks: seq<seq<Byte>>, n: nat)
    requires n > 0
    ensures Interleave(blocks, n) == Interleave(blocks, n - 1) + Column(blocks, n - 1)
  {}

  lemma {:induction false} MaxLengthOfEqual(blocks: seq<seq<Byte>>, n: nat)
    requires |blocks| > 0 && forall b :: 0 <= b < |blocks| ==> |blocks[b]| == n
    ensures MaxLength(blocks) == n
  {
    if |blocks| > 1 {
      MaxLengthOfEqual(blocks[..|blocks| - 1], n);
    } else {
      assert blocks[..0] == [];
    }
  }

  /** The blocks of every supported version are equally long and partition the data codewords. */
  lemma BlockPartition(version: int, b: nat)
    requires IsVersion(version) && b < Info(version).blocks
    ensures var info := Info(version); var len := info.dataCW / info.blocks;
      && BlockLength(info, b) == len && BlockStart(info, b) == b * len && info.blocks * len == info.dataCW
      && info.blocks * (len + info.ecPerBlock) == info.totalCW && len + info.ecPerBlock <= 255
  {
    if b != 0 {
      assert b == 1 && BlockStart(Info(version), 0) == 0;
    }
  }

  // Where the final message keeps data codeword k, with the block count written out.
  lemma DataPosition(version: int, k: nat)
    requires IsVersion(version) && k < Info(version).dataCW
    ensures version < 4 ==> DataIndex(version, k) == k
    ensures version == 4 ==> DataIndex(version, k) == (k % 32) * 2 + k / 32
  {
    var info := Info(version);
    if version < 4 {
      assert info.blocks == 1 && info.dataCW / info.blocks == info.dataCW;
      BelowDivisor(k, info.dataCW);
    } else {
      assert info.blocks == 2 && info.dataCW / info.blocks == 32;
    }
  }

  lemma BelowDivisor(k: nat, n: nat)
    requires k < n
    ensures k % n == k && k / n == 0
  {}

  function DataIndex(version: int, k: nat): nat
    requires IsVersion(version)
  {
    var info := Info(version);
    var len := info.dataCW / info.blocks;
    (k % len) * info.blocks + k / len
  }

  /** A reader's view of the final message: the data codewords in their original order. */
  function Deinterleave(message: seq<Byte>, version: int): (data: seq<Byte>)
    requires IsVersion(version) && |message| == Info(version).totalCW
    ensures |data| == Info(version).dataCW
  {
    var info := Info(version);
    seq(info.dataCW,
        (k: nat) requires k < info.dataCW => DataPositionInRange(version, k); message[DataIndex(version, k)])
  }

  lemma DataPositionInRange(version: int, k: nat)
    requires IsVersion(version) && k < Info(version).dataCW
    ensures DataIndex(version, k) < Info(version).dataCW <= Info(version).totalCW
  {
    DataPosition(version, k);
  }

  /** The parity bytes of block `b`, as a reader finds them behind the data codewords. */
  function BlockParity(message: seq<Byte>, version: int, b: nat): seq<Byte>
    requires IsVersion(version) && |message| == Info(version).totalCW && b < Info(version).blocks
  {
    var info := Info(version);
    seq(info.ecPerBlock, (i: nat) requires i < info.ecPerBlock => message[info.dataCW + i * info.blocks + b])
  }

  lemma EqualBlocks(data: seq<Byte>, version: int)
    requires IsVersion(version) && |data| == Info(version).dataCW
    ensures var info := Info(version); var len := info.dataCW / info.blocks;
      var blocks := DataBlocks(data, info, info.blocks);
      && MaxLength(blocks) == len
      && forall b :: 0 <= b < info.blocks ==> blocks[b] == data[b * len..b * len + len] && |blocks[b]| == len
  {
    hide BlockStart, BlockLength, MaxLength, DataBlocks;
    var info := Info(version);
    var len := info.dataCW / info.blocks;
    var blocks := DataBlocks(data, info, info.blocks);
    forall b | 0 <= b < info.blocks ensures blocks[b] == data[b * len..b * len + len] && |blocks[b]| == len {
      BlockPartition(version, b);
    }
    MaxLengthOfEqual(blocks, len);
  }

  lemma MessageLength(data: seq<Byte>, version: int)
    requires IsVersion(version) && |data| == Info(version).dataCW
    ensures |FinalMessage(data, version)| == Info(version).totalCW
    ensures var info := Info(version); var blocks := DataBlocks(data, info, info.blocks);
      |Interleave(blocks, MaxLength(blocks))| == info.dataCW
  {
    hide Interleave, Parity, DataBlocks, EcBlocks, MaxLength;
    var info := Info(version);
    EqualBlocks(data, version);
    BlockPartition(version, 0);
    InterleaveLength(DataBlocks(data, info, info.blocks), info.dataCW / info.blocks);
    InterleaveLength(EcBlocks(data, info, info.blocks), info.ecPerBlock);
  }

  lemma MessageByte(data: seq<Byte>, version: int, k: nat)
    requires IsVersion(version) && |data| == Info(version).dataCW && k < |data|
    ensures DataIndex(version, k) < |FinalMessage(data, version)|
    ensures FinalMessage(data, version)[DataIndex(version, k)] == data[k]
  {
    hide *;
    WholeBlocks(version);
    var info := Info(version);
    var len, blocks := info.dataCW / info.blocks, DataBlocks(data, info, info.blocks);
    EqualBlocks(data, version);
    var b, i := BlockAndOffset(version, k);
    InterleaveByte(blocks, len, b, i);
    TwoParts(data, version);
    assert data[b * len..b * len + len][i] == data[k];
  }

  lemma WholeBlocks(version: int)
    requires IsVersion(version)
    ensures var info := Info(version);
      info.blocks > 0 && info.dataCW / info.blocks > 0 && info.dataCW == info.blocks * (info.dataCW / info.blocks)
  {}

  lemma BlockAndOffset(version: int, k: nat) returns (b: nat, i: nat)
    requires IsVersion(version) && k < Info(version).dataCW
    ensures var info := Info(version); info.blocks > 0 && var len := info.dataCW / info.blocks;
      && b < info.blocks && i < len && k == b * len + i && b * len + len <= info.dataCW
      && DataIndex(version, k) == RowAt(info.blocks, i) + b
  {
    hide Info;
    WholeBlocks(version);
    var len := Info(version).dataCW / Info(version).blocks;
    b, i := k / len, k % len;
    InParts(k, len, Info(version).blocks);
  }

  lemma InParts(k: nat, len: nat, n: nat)
    requires len > 0 && k < n * len
    ensures k / len < n && k == (k / len) * len + k % len && (k / len) * len + len <= n * len
  {
    var b := k / len;
    assert b * len <= k && b < n;
    assert (b + 1) * len <= n * len;
  }

  lemma TwoParts(data: seq<Byte>, version: int)
    requires IsVersion(version)
    ensures var info := Info(version); var blocks := DataBlocks(data, info, info.blocks);
      FinalMessage(data, version)
      == Interleave(blocks, MaxLength(blocks)) + Interleave(EcBlocks(data, info, info.blocks), info.ecPerBlock)
  {
    hide Interleave, DataBlocks, EcBlocks, MaxLength, Info;
  }

  /** De-interleaving gives the data codewords back. */
  lemma DeinterleaveRoundTrip(data: seq<Byte>, version: int)
    requires IsVersion(version) && |data| == Info(version).dataCW
    ensures |FinalMessage(data, version)| == Info(version).totalCW
    ensures Deinterleave(FinalMessage(data, version), version) == data
  {
    MessageLength(data, version);
    hide FinalMessage, Info, DataIndex;
    forall k | 0 <= k < |data| ensures Deinterleave(FinalMessage(data, version), version)[k] == data[k] {
      MessageByte(data, version, k);
    }
  }

  /** ... and the parity found behind them is the Reed-Solomon parity of each block. */
  lemma ParityRoundTrip(data: seq<Byte>, version: int, b: nat)
    requires IsVersion(version) && |data| == Info(version).dataCW && b < Info(version).blocks
    ensures |FinalMessage(data, version)| == Info(version).totalCW
    ensures BlockParity(FinalMessage(data, version), version, b)
         == Parity(DataBlock(data, Info(version), b), Info(version).ecPerBlock)
  {
    hide Interleave, Parity, DataBlocks, EcBlocks, MaxLength, BlockStart;
    MessageLength(data, version);
    var info := Info(version);
    var ec := EcBlocks(data, info, info.blocks);
    forall i | 0 <= i < info.ecPerBlock
      ensures BlockParity(FinalMessage(data, version), version, b)[i] == ec[b][i]
    {
      InterleaveByte(ec, info.ecPerBlock, b, i);
    }
  }

  /** Where everything is, for one block: data in order, then its parity. */
  lemma OneBlockMessage(data: seq<Byte>, version: int)
    requires IsVersion(version) && version < 4 && |data| == Info(version).dataCW
    ensures FinalMessage(data, version) == data + Parity(data, Info(version).ecPerBlock)
  {
    hide *;
    var info := Info(version);
    var message := FinalMessage(data, version);
    MessageLength(data, version);
    OneBlock(version);
    forall i: nat | i < |data| ensures message[i] == data[i] {
      FirstBlockByte(data, version, i);
    }
    forall i: nat | i < info.ecPerBlock ensures message[info.dataCW + i] == Parity(data, info.ecPerBlock)[i] {
      FirstBlockParity(data, version, i);
    }
  }

  lemma OneBlock(version: int)
    requires IsVersion(version) && version < 4
    ensures Info(version).totalCW == Info(version).dataCW + Info(version).ecPerBlock
  {}

  lemma FirstBlockByte(data: seq<Byte>, version: int, i: nat)
    requires IsVersion(version) && version < 4 && |data| == Info(version).dataCW && i < |data|
    ensures i < |FinalMessage(data, version)| && FinalMessage(data, version)[i] == data[i]
  {
    MessageByte(data, version, i);
    DataPosition(version, i);
    hide FinalMessage, DataIndex;
  }

  lemma FirstBlockParity(data: seq<Byte>, version: int, i: nat)
    requires IsVersion(version) && version < 4 && |data| == Info(version).dataCW && i < Info(version).ecPerBlock
    ensures Info(version).dataCW + i < |FinalMessage(data, version)|
    ensures FinalMessage(data, version)[Info(version).dataCW + i] == Parity(data, Info(version).ecPerBlock)[i]
  {
    ParityRoundTrip(data, version, 0);
    WholeBlock(data, version);
    hide FinalMessage, Parity, DataBlock;
    assert BlockParity(FinalMessage(data, version), version, 0)[i]
        == FinalMessage(data, version)[Info(version).dataCW + i];
  }

  lemma WholeBlock(data: seq<Byte>, version: int)
    requires IsVersion(version) && version < 4 && |data| == Info(version).dataCW
    ensures DataBlock(data, Info(version), 0) == data
  {
    BlockPartition(version, 0);
    hide BlockStart, BlockLength;
  }

  /** For the two blocks of version 4: the first and the second half of the data in turn ... */
  lemma TwoBlockData(data: seq<Byte>, i: nat, b: nat)
    requires |data| == 64 && b < 2 && i < 32
    ensures 2 * i + b < |FinalMessage(data, 4)| && FinalMessage(data, 4)[2 * i + b] == data[32 * b + i]
  {
    FourthVersion();
    hide *;
    MessageByte(data, 4, 32 * b + i);
    DataPosition(4, 32 * b + i);
    InHalf(i, b);
  }

  lemma FourthVersion()
    ensures IsVersion(4) && Info(4) == VersionInfo(100, 18, 2, 64)
  {}

  lemma InHalf(i: nat, b: nat)
    requires i < 32 && b < 2
    ensures (32 * b + i) % 32 == i && (32 * b + i) / 32 == b
  {}

  /** ... then their parities in turn. */
  lemma TwoBlockParity(data: seq<Byte>, i: nat, b: nat)
    requires |data| == 64 && b < 2 && i < 18
    ensures 64 + 2 * i + b < |FinalMessage(data, 4)|
    ensures FinalMessage(data, 4)[64 + 2 * i + b] == Parity(data[32 * b..32 * b + 32], 18)[i]
  {
    FourthVersion();
    hide *;
    ParityRoundTrip(data, 4, b);
    HalfBlock(data, b);
    ParityAt(FinalMessage(data, 4), i, b);
  }

  lemma ParityAt(message: seq<Byte>, i: nat, b: nat)
    requires |message| == Info(4).totalCW && b < 2 && i < 18
    ensures |message| == 100 && BlockParity(message, 4, b)[i] == message[64 + 2 * i + b]
  {
    assert 64 + i * 2 + b == 64 + 2 * i + b;
  }

  lemma HalfBlock(data: seq<Byte>, b: nat)
    requires |data| == 64 && b < 2
    ensures DataBlock(data, Info(4), b) == data[32 * b..32 * b + 32]
  {
    BlockPartition(4, b);
    hide BlockStart, BlockLength;
  }
}
