/** The byte-mode bit stream: mode indicator, character count, data, terminator and padding. */
module QrEncoding {
  import opened Wrappers
  import opened Gf256
  import opened QrVersions

  type Bit = b: int | 0 <= b < 2

  // ---------- numbers as bits, most significant first ----------

  function BitsOf(value: nat, count: nat): (s: seq<Bit>)
    ensures |s| == count
  {
    if count == 0 then [] else BitsOf(value / 2, count - 1) + [value % 2]
  }

  function FromBits(s: seq<Bit>): nat {
    if |s| == 0 then 0 else 2 * FromBits(s[..|s| - 1]) + s[|s| - 1]
  }

  lemma {:induction false} FromBitsOf(value: nat, count: nat)
    requires value < Power2(count)
    ensures FromBits(BitsOf(value, count)) == value
  {
    if count != 0 {
      FromBitsOf(value / 2, count - 1);
    }
  }

  lemma {:induction false} BitsOfFrom(s: seq<Bit>)
    ensures FromBits(s) < Power2(|s|) && BitsOf(FromBits(s), |s|) == s
  {
    if |s| != 0 {
      BitsOfFrom(s[..|s| - 1]);
      assert s == s[..|s| - 1] + [s[|s| - 1]];
    }
  }

  lemma HalfOfQuotient(value: nat, p: nat)
    requires p > 0
    ensures (value / 2) / p == value / (2 * p)
  {
    var q, r := value / 2, value % 2;
    var d, m := q / p, q % p;
    assert p * d + m == q;
    assert (2 * p) * d == 2 * (p * d);
    assert value == (2 * p) * d + (2 * m + r);
    DivisionIsUnique(value, 2 * p, d, 2 * m + r);
  }

  lemma DivisionIsUnique(x: int, n: int, d: int, r: int)
    requires 0 <= r < n && x == n * d + r
    ensures x / n == d
  {
    var e := x / n;
    assert e < d ==> n * (e + 1) <= n * d;
    assert d < e ==> n * (d + 1) <= n * e;
  }

  lemma {:induction false} Power2Positive(k: nat)
    ensures Power2(k) > 0
  {
    if k > 0 {
      Power2Positive(k - 1);
    }
  }

  // The first bit of a number is its quotient by the leading weight.
  lemma {:induction false} LeadingBit(value: nat, count: nat)
    requires count > 0
    ensures (Power2Positive(count - 1);
             BitsOf(value, count) == [(value / Power2(count - 1)) % 2] + BitsOf(value, count - 1))
  {
    Power2Positive(count - 1);
    if count > 1 {
      LeadingBit(value / 2, count - 1);
      Power2Positive(count - 2);
      HalfOfQuotient(value, Power2(count - 2));
    }
  }

  /** Bit `i` of a number written with `count` bits is its digit of weight 2^(count - 1 - i). */
  lemma {:induction false} BitsOfDigit(value: nat, count: nat, i: nat)
    requires i < count
    ensures (Power2Positive(count - 1 - i); BitsOf(value, count)[i] == (value / Power2(count - 1 - i)) % 2)
    decreases count
  {
    Power2Positive(count - 1 - i);
    if i < count - 1 {
      Power2Positive(count - 2 - i);
      BitsOfDigit(value / 2, count - 1, i);
      HalfOfQuotient(value, Power2(count - 2 - i));
    } else {
      assert Power2(0) == 1;
    }
  }

  // ---------- bytes as bits ----------

  function AllBits(bytes: seq<Byte>): (s: seq<Bit>)
    ensures |s| == 8 * |bytes|
  {
    if |bytes| == 0 then [] else BitsOf(bytes[0], 8) + AllBits(bytes[1..])
  }

  /** The digit of weight 2^(7 - b) of a byte. */
  function Digit(byte: Byte, b: nat): Bit
    requires b < 8
  {
    Power2Positive(7 - b);
    (byte / Power2(7 - b)) % 2
  }

  /** Bytes are written one after the other, each with its most significant digit first. */
  lemma {:induction false} AllBitsDigit(bytes: seq<Byte>, i: nat, b: nat)
    requires i < |bytes| && b < 8
    ensures 8 * i + b < |AllBits(bytes)| && AllBits(bytes)[8 * i + b] == Digit(bytes[i], b)
  {
    hide BitsOf;
    if i == 0 {
      BitsOfDigit(bytes[0], 8, b);
    } else {
      AllBitsDigit(bytes[1..], i - 1, b);
    }
  }

  lemma FromBitsIsByte(s: seq<Bit>)
    requires |s| == 8
    ensures FromBits(s) < 256
  {
    BitsOfFrom(s);
    assert Power2(8) == 256;
  }

  function Pack(bits: seq<Bit>): (bytes: seq<Byte>)
    requires |bits| % 8 == 0
    ensures |bytes| == |bits| / 8
  {
    if |bits| == 0 then [] else FromBitsIsByte(bits[..8]); [FromBits(bits[..8])] + Pack(bits[8..])
  }

  lemma {:induction false} PackAllBits(bytes: seq<Byte>)
    ensures Pack(AllBits(bytes)) == bytes
  {
    hide FromBits, BitsOf;
    if |bytes| != 0 {
      var s := AllBits(bytes);
      assert s[..8] == BitsOf(bytes[0], 8) && s[8..] == AllBits(bytes[1..]);
      assert Power2(8) == 256;
      FromBitsOf(bytes[0], 8);
      PackAllBits(bytes[1..]);
    }
  }

  lemma {:induction false} AllBitsPack(bits: seq<Bit>)
    requires |bits| % 8 == 0
    ensures AllBits(Pack(bits)) == bits
  {
    hide FromBits, BitsOf;
    if |bits| != 0 {
      BitsOfFrom(bits[..8]);
      AllBitsPack(bits[8..]);
      assert bits == bits[..8] + bits[8..];
    }
  }

  // ---------- the bit stream ----------

  function Min(a: int, b: int): int {
    if a < b then a else b
  }

  function Header(data: seq<Byte>, version: int): seq<Bit> {
    BitsOf(4, 4) + BitsOf(|data|, CharCountBits(version)) + AllBits(data)
  }

  function ZeroBits(n: int): (s: seq<Bit>)
    ensures |s| == if n < 0 then 0 else n
    ensures forall k :: 0 <= k < |s| ==> s[k] == 0
    decreases if n < 0 then 0 else n
  {
    if n <= 0 then [] else ZeroBits(n - 1) + [0]
  }

  /** Zeros that fill `length` bits up to the next byte boundary. */
  function AlignBits(length: nat): (s: seq<Bit>)
    ensures (length + |s|) % 8 == 0 && |s| < 8
    decreases 8 - length % 8
  {
    if length % 8 == 0 then [] else if length % 8 == 7 then [0] else [0] + AlignBits(length + 1)
  }

  /** Alternating 0xEC, 0x11 bytes from `length` bits up to `total`. */
  function PadBits(length: nat, total: nat, padIdx: nat): (s: seq<Bit>)
    ensures length % 8 == 0 && total % 8 == 0 && length <= total ==> |s| == total - length
    decreases total - length
  {
    if length >= total then []
    else BitsOf(if padIdx % 2 == 0 then 0xEC else 0x11, 8) + PadBits(length + 8, total, padIdx + 1)
  }

  function Terminated(data: seq<Byte>, version: int): seq<Bit>
    requires IsVersion(version)
  {
    var h := Header(data, version);
    h + ZeroBits(Min(4, Info(version).dataCW * 8 - |h|))
  }

  function Aligned(data: seq<Byte>, version: int): (s: seq<Bit>)
    requires IsVersion(version)
    ensures |s| % 8 == 0
  {
    hide Header, AlignBits, ZeroBits;
    var t := Terminated(data, version);
    t + AlignBits(|t|)
  }

  function Stream(data: seq<Byte>, version: int): (s: seq<Bit>)
    requires IsVersion(version)
    ensures |s| % 8 == 0
  {
    hide Aligned, PadBits;
    var a := Aligned(data, version);
    PadBitsAligned(|a|, Info(version).dataCW * 8, 0);
    a + PadBits(|a|, Info(version).dataCW * 8, 0)
  }

  lemma {:induction false} PadBitsAligned(length: nat, total: nat, padIdx: nat)
    requires length % 8 == 0
    ensures |PadBits(length, total, padIdx)| % 8 == 0
    decreases total - length
  {
    if length < total {
      PadBitsAligned(length + 8, total, padIdx + 1);
    }
  }

  /** The data codewords of a message. */
  function DataCodewords(data: seq<Byte>, version: int): seq<Byte>
    requires IsVersion(version)
  {
    Pack(Stream(data, version))
  }

  /** Appends the `count` low bits of `value`, most significant first. */
  method PushBits(bits: seq<Bit>, value: nat, count: int) returns (r: seq<Bit>)
    ensures count >= 0 ==> r == bits + BitsOf(value, count)
    ensures count < 0 ==> r == bits
  {
    r := bits;
    var i := count - 1;
    while i >= 0
      invariant -1 <= i < count || (count < 0 && i == count - 1)
      invariant count < 0 ==> r == bits
      invariant count >= 0 ==> r + BitsOf(value, i + 1) == bits + BitsOf(value, count)
    {
      Power2Positive(i);
      LeadingBit(value, i + 1);
      r := r + [(value / Power2(i)) % 2];
      i := i - 1;
    }
  }

  lemma {:induction false} ZeroBitsOf(n: nat)
    ensures BitsOf(0, n) == ZeroBits(n)
  {
    if n > 0 {
      ZeroBitsOf(n - 1);
    }
  }

  /** Encodes the data bytes into the data codewords of a symbol. */
  method EncodeData(data: seq<Byte>, version: int) returns (bytes: seq<Byte>)
    requires IsVersion(version)
    ensures bytes == DataCodewords(data, version)
  {
    hide BitsOf, PadBits, AllBits, FromBits, Pack;
    var info := Info(version);
    var bits: seq<Bit> := PushBits([], 4, 4);
    bits := PushBits(bits, |data|, CharCountBits(version));
    ghost var prefix := bits;
    for i := 0 to |data|
      invariant bits == prefix + AllBits(data[..i])
    {
      AllBitsAppend(data[..i], data[i]);
      assert data[..i + 1] == data[..i] + [data[i]];
      bits := PushBits(bits, data[i], 8);
    }
    assert data[..|data|] == data;
    assert bits == Header(data, version);

    var totalDataBits := info.dataCW * 8;
    var terminatorLen := Min(4, totalDataBits - |bits|);
    bits := PushBits(bits, 0, terminatorLen);
    if terminatorLen >= 0 {
      ZeroBitsOf(terminatorLen);
    }
    assert bits == Terminated(data, version);
    bits := PadToByte(bits);
    bits := PadToCapacity(bits, totalDataBits);
    assert bits == Stream(data, version);
    bytes := PackBits(bits);
  }

  lemma AllBitsAppend(bytes: seq<Byte>, b: Byte)
    ensures AllBits(bytes + [b]) == AllBits(bytes) + BitsOf(b, 8)
  {
    hide BitsOf;
    if |bytes| != 0 {
      AllBitsAppend(bytes[1..], b);
      assert (bytes + [b])[1..] == bytes[1..] + [b];
    } else {
      assert (bytes + [b])[1..] == [];
    }
  }

  method PadToByte(bits: seq<Bit>) returns (r: seq<Bit>)
    ensures r == bits + AlignBits(|bits|)
  {
    r := bits;
    while |r| % 8 != 0
      invariant r + AlignBits(|r|) == bits + AlignBits(|bits|)
      decreases |AlignBits(|r|)|
    {
      assert AlignBits(|r|) == [0] + AlignBits(|r| + 1);
      assert (r + [0]) + AlignBits(|r| + 1) == r + AlignBits(|r|);
      r := r + [0];
    }
  }

  method PadToCapacity(bits: seq<Bit>, totalDataBits: nat) returns (r: seq<Bit>)
    ensures r == bits + PadBits(|bits|, totalDataBits, 0)
  {
    r := bits;
    var padIdx := 0;
    while |r| < totalDataBits
      invariant r + PadBits(|r|, totalDataBits, padIdx) == bits + PadBits(|bits|, totalDataBits, 0)
      decreases totalDataBits - |r|
    {
      ghost var rest := PadBits(|r|, totalDataBits, padIdx);
      ghost var before := r;
      r := PushBits(r, if padIdx % 2 == 0 then 0xEC else 0x11, 8);
      padIdx := padIdx + 1;
      assert before + rest == r + PadBits(|r|, totalDataBits, padIdx);
    }
  }

  method PackByte(bits: seq<Bit>, i: nat) returns (byte: Byte)
    requires i + 8 <= |bits|
    ensures byte == FromBits(bits[i..i + 8])
  {
    var value: nat := 0;
    for j := 0 to 8
      invariant value == FromBits(bits[i..i + j])
    {
      assert bits[i..i + j + 1][..j] == bits[i..i + j];
      value := 2 * value + bits[i + j];
    }
    FromBitsIsByte(bits[i..i + 8]);
    return value;
  }

  method PackBits(bits: seq<Bit>) returns (bytes: seq<Byte>)
    requires |bits| % 8 == 0
    ensures bytes == Pack(bits)
  {
    hide BitsOf;
    bytes := [];
    var i := 0;
    while i < |bits|
      invariant 0 <= i <= |bits| && i % 8 == 0
      invariant bytes + Pack(bits[i..]) == Pack(bits)
    {
      ghost var rest := bits[i..];
      var byte := PackByte(bits, i);
      assert rest[..8] == bits[i..i + 8];
      assert rest[8..] == bits[i + 8..];
      bytes := bytes + [byte];
      i := i + 8;
    }
    assert bits[i..] == [];
  }

  // ---------- reading the stream back ----------

  /** A reader's view of the data codewords: the payload of one byte-mode segment. */
  function ParseSegment(bytes: seq<Byte>): Option<seq<Byte>> {
    hide AllBits, FromBits, Pack;
    var bits := AllBits(bytes);
    if |bits| < 12 || FromBits(bits[..4]) != 4 then None
    else
      var count := FromBits(bits[4..12]);
      if 12 + 8 * count > |bits| then None else Some(Pack(bits[12..12 + 8 * count]))
  }

  /** The pad byte number `k`. */
  function PadByte(k: nat): Byte {
    if k % 2 == 0 then 0xEC else 0x11
  }

  lemma {:induction false} PadBitsAt(length: nat, total: nat, padIdx: nat, k: nat)
    requires length % 8 == 0 && total % 8 == 0 && length + 8 * k + 8 <= total
    ensures |PadBits(length, total, padIdx)| == total - length
    ensures PadBits(length, total, padIdx)[8 * k..8 * k + 8] == BitsOf(PadByte(padIdx + k), 8)
    decreases k
  {
    hide BitsOf;
    var first, rest := BitsOf(PadByte(padIdx), 8), PadBits(length + 8, total, padIdx + 1);
    assert PadBits(length, total, padIdx) == first + rest;
    if k > 0 {
      PadBitsAt(length + 8, total, padIdx + 1, k - 1);
      assert (first + rest)[8 * k..8 * k + 8] == rest[8 * (k - 1)..8 * (k - 1) + 8];
    } else {
      assert (first + rest)[0..8] == first;
    }
  }

  /** The terminator is four zero bits, which ends on a byte boundary: no alignment bit follows, only pad bytes. */
  lemma StreamParts(data: seq<Byte>, version: int)
    requires IsVersion(version) && |data| <= ByteCapacity(version)
    ensures |Header(data, version)| == 12 + 8 * |data| && Info(version).dataCW == ByteCapacity(version) + 2
    ensures Stream(data, version)
         == Header(data, version) + ZeroBits(4) + PadBits(16 + 8 * |data|, 8 * Info(version).dataCW, 0)
  {
    hide BitsOf, AllBits, PadBits, ZeroBits;
    var t := Terminated(data, version);
    assert t == Header(data, version) + ZeroBits(4);
    assert |t| % 8 == 0;
    assert Aligned(data, version) == t + [];
  }

  /** Every bit of the stream: mode, count and data, four zero bits, then the pad bytes 0xEC and 0x11 in turn up to the
      capacity. */
  lemma StreamShape(data: seq<Byte>, version: int)
    requires IsVersion(version) && |data| <= ByteCapacity(version)
    ensures |Stream(data, version)| == 8 * Info(version).dataCW
    ensures 16 + 8 * |data| <= |Stream(data, version)|
    ensures Stream(data, version)[..4] == [0, 1, 0, 0]
    ensures ByteAt(Stream(data, version), 4, 0, |data|)
    ensures forall i: nat :: i < |data| ==> ByteAt(Stream(data, version), 12, i, data[i])
    ensures Stream(data, version)[12 + 8 * |data|..16 + 8 * |data|] == [0, 0, 0, 0]
    ensures forall k: nat :: k < Info(version).dataCW - 2 - |data| && k % 2 == 0 ==>
              ByteAt(Stream(data, version), 16 + 8 * |data|, k, 0xEC)
    ensures forall k: nat :: k < Info(version).dataCW - 2 - |data| && k % 2 == 1 ==>
              ByteAt(Stream(data, version), 16 + 8 * |data|, k, 0x11)
  {
    hide BitsOf, AllBits, PadBits, ZeroBits, Stream, ByteAt;
    StreamBytes(data, version);
    ModeBits();
    CountDigits(Stream(data, version), |data|);
    forall i: nat | i < |data| ensures ByteAt(Stream(data, version), 12, i, data[i]) {
      DataDigits(Stream(data, version), data, i);
    }
    forall k: nat | k < Info(version).dataCW - 2 - |data|
      ensures k % 2 == 0 ==> ByteAt(Stream(data, version), 16 + 8 * |data|, k, 0xEC)
      ensures k % 2 == 1 ==> ByteAt(Stream(data, version), 16 + 8 * |data|, k, 0x11)
    {
      assert PadAt(Stream(data, version), 16 + 8 * |data|, k);
      PadDigits(Stream(data, version), 16 + 8 * |data|, k);
    }
  }

  /** Bit `b` of the `i`-th byte from `start` on. */
  ghost predicate DigitAt(stream: seq<Bit>, start: nat, i: nat, b: nat, byte: Byte)
    requires b < 8
  {
    start + 8 * i + b < |stream| && stream[start + 8 * i + b] == Digit(byte, b)
  }

  lemma ModeBits()
    ensures BitsOf(4, 4) == [0, 1, 0, 0]
  {
    assert BitsOf(0, 1) == [0] && BitsOf(1, 2) == [0, 1] && BitsOf(2, 3) == [0, 1, 0];
  }

  lemma ByteDigit(byte: Byte, b: nat)
    requires b < 8
    ensures BitsOf(byte, 8)[b] == Digit(byte, b)
  {
    hide BitsOf;
    BitsOfDigit(byte, 8, b);
  }

  /** The `i`-th byte from `start` on. */
  ghost predicate ByteAt(stream: seq<Bit>, start: nat, i: nat, byte: Byte) {
    forall b: nat :: b < 8 ==> DigitAt(stream, start, i, b, byte)
  }

  lemma CountDigits(stream: seq<Bit>, count: Byte)
    requires |stream| >= 12 && stream[4..12] == BitsOf(count, 8)
    ensures ByteAt(stream, 4, 0, count)
  {
    hide BitsOf, Digit;
    forall b: nat | b < 8 ensures DigitAt(stream, 4, 0, b, count) {
      ByteDigit(count, b);
      assert stream[4..12][b] == stream[4 + b];
    }
  }

  lemma DataDigits(stream: seq<Bit>, data: seq<Byte>, i: nat)
    requires i < |data| && 12 + 8 * |data| <= |stream| && stream[12..12 + 8 * |data|] == AllBits(data)
    ensures ByteAt(stream, 12, i, data[i])
  {
    hide AllBits, Digit;
    forall b: nat | b < 8 ensures DigitAt(stream, 12, i, b, data[i]) {
      AllBitsDigit(data, i, b);
      assert stream[12..12 + 8 * |data|][8 * i + b] == stream[12 + 8 * i + b];
    }
  }

  lemma PadDigits(stream: seq<Bit>, start: nat, k: nat)
    requires PadAt(stream, start, k)
    ensures ByteAt(stream, start, k, PadByte(k))
  {
    hide BitsOf, Digit;
    forall b: nat | b < 8 ensures DigitAt(stream, start, k, b, PadByte(k)) {
      ByteDigit(PadByte(k), b);
      assert stream[start + 8 * k..start + 8 * k + 8][b] == stream[start + 8 * k + b];
    }
  }

  /** The same, byte by byte. */
  lemma StreamBytes(data: seq<Byte>, version: int)
    requires IsVersion(version) && |data| <= ByteCapacity(version)
    ensures |Stream(data, version)| == 8 * Info(version).dataCW
    ensures 16 + 8 * |data| <= |Stream(data, version)|
    ensures Stream(data, version)[..4] == BitsOf(4, 4)
    ensures Stream(data, version)[4..12] == BitsOf(|data|, 8)
    ensures Stream(data, version)[12..12 + 8 * |data|] == AllBits(data)
    ensures Stream(data, version)[12 + 8 * |data|..16 + 8 * |data|] == [0, 0, 0, 0]
    ensures PadsFrom(Stream(data, version), 16 + 8 * |data|, Info(version).dataCW - 2 - |data|)
  {
    hide BitsOf, AllBits, PadBits, ZeroBits, Stream;
    StreamParts(data, version);
    var at, total := 16 + 8 * |data|, 8 * Info(version).dataCW;
    var start := Header(data, version) + ZeroBits(4);
    assert |start| == at;
    assert Stream(data, version) == start + PadBits(at, total, 0);
    assert Stream(data, version)[12 + 8 * |data|..at] == ZeroBits(4);
    forall k: nat | k < Info(version).dataCW - 2 - |data| ensures PadAt(Stream(data, version), at, k) {
      PadBitsAt(at, total, 0, k);
      PadInside(start, PadBits(at, total, 0), k);
    }
  }

  /** The eight bits from `start + 8 k` on are pad byte `k`. */
  ghost predicate PadAt(stream: seq<Bit>, start: nat, k: nat) {
    start + 8 * k + 8 <= |stream| && stream[start + 8 * k..start + 8 * k + 8] == BitsOf(PadByte(k), 8)
  }

  ghost predicate PadsFrom(stream: seq<Bit>, start: nat, count: int) {
    forall k: nat :: k < count ==> PadAt(stream, start, k)
  }

  lemma PadInside(start: seq<Bit>, pad: seq<Bit>, k: nat)
    requires 8 * k + 8 <= |pad| && pad[8 * k..8 * k + 8] == BitsOf(PadByte(k), 8)
    ensures PadAt(start + pad, |start|, k)
  {
    hide BitsOf, PadByte;
    assert (start + pad)[|start| + 8 * k..|start| + 8 * k + 8] == pad[8 * k..8 * k + 8];
  }

  /** The data codewords fill the symbol exactly, and a reader parses the message back out of them. */
  lemma SegmentRoundTrip(data: seq<Byte>, version: int)
    requires IsVersion(version) && |data| <= ByteCapacity(version)
    ensures |DataCodewords(data, version)| == Info(version).dataCW
    ensures ParseSegment(DataCodewords(data, version)) == Some(data)
  {
    hide BitsOf, AllBits, PadBits, ZeroBits, FromBits, Pack, Stream;
    StreamBytes(data, version);
    AllBitsPack(Stream(data, version));
    assert Power2(4) == 16 && Power2(8) == 256;
    FromBitsOf(4, 4);
    FromBitsOf(|data|, 8);
    PackAllBits(data);
  }
}
