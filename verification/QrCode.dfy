/** Masking, format information, choice of the mask, and a reader that gets the bytes back. */
module QrCode {
  import opened Wrappers
  import opened Gf256
  import opened QrVersions
  import opened QrEncoding
  import opened QrBlocks
  import opened QrLayout
  import opened QrReserved
  import opened QrMatrix

  // ---------- masks ----------

  predicate Mask(idx: int, r: nat, c: nat) {
    match idx
    case 0 => (r + c) % 2 == 0
    case 1 => r % 2 == 0
    case 2 => c % 3 == 0
    case 3 => (r + c) % 3 == 0
    case 4 => (r / 2 + c / 3) % 2 == 0
    case 5 => (r * c) % 2 + (r * c) % 3 == 0
    case 6 => ((r * c) % 2 + (r * c) % 3) % 2 == 0
    case _ => ((r + c) % 2 + (r * c) % 3) % 2 == 0
  }

  /** A copy of the symbol with the unreserved modules under the mask inverted. */
  method ApplyMask(matrix: array2<bool>, reservedMask: array2<bool>, maskIdx: int) returns (result: array2<bool>)
    requires matrix.Length0 == matrix.Length1 && Square(reservedMask, matrix.Length0)
    ensures fresh(result) && Square(result, matrix.Length0)
    ensures forall r, c :: InSymbol(matrix.Length0, r, c) ==>
      result[r, c] == (matrix[r, c] != (!reservedMask[r, c] && Mask(maskIdx, r, c)))
  {
    hide Mask;
    var size := matrix.Length0;
    result := new bool[size, size]((r, c) reads matrix requires 0 <= r < matrix.Length0
                                   && 0 <= c < matrix.Length1 => matrix[r, c]);
    for r := 0 to size
      invariant forall a, b :: InSymbol(size, a, b) ==>
        result[a, b] == (matrix[a, b] != (a < r && !reservedMask[a, b] && Mask(maskIdx, a, b)))
    {
      for c := 0 to size
        invariant forall a, b :: InSymbol(size, a, b) ==>
          result[a, b] == (matrix[a, b] != ((a < r || (a == r && b < c)) && !reservedMask[a, b] && Mask(maskIdx, a, b)))
      {
        if !reservedMask[r, c] && Mask(maskIdx, r, c) {
          result[r, c] := !result[r, c];
        }
      }
    }
  }

  /** Applying the same mask a second time gives every module its first colour back. */
  method MaskTwice(matrix: array2<bool>, reservedMask: array2<bool>, maskIdx: int) returns (back: array2<bool>)
    requires matrix.Length0 == matrix.Length1 && Square(reservedMask, matrix.Length0)
    ensures Square(back, matrix.Length0)
    ensures forall r, c :: InSymbol(matrix.Length0, r, c) ==> back[r, c] == matrix[r, c]
  {
    hide Mask;
    var once := ApplyMask(matrix, reservedMask, maskIdx);
    back := ApplyMask(once, reservedMask, maskIdx);
  }

  // ---------- format information ----------

  function FormatWord(maskIdx: int): nat {
    match maskIdx
    case 0 => 0x5412 case 1 => 0x5125 case 2 => 0x5e7c case 3 => 0x5b4b
    case 4 => 0x45f9 case 5 => 0x40ce case 6 => 0x4f97 case _ => 0x4aa0
  }

  /** Bit `i` of the format word, most significant first. */
  predicate FormatBit(maskIdx: int, i: nat)
    requires i < 15
  {
    Power2Positive(14 - i);
    (FormatWord(maskIdx) / Power2(14 - i)) % 2 == 1
  }

  /** The format bit a module carries, if any: the copy around the top-left finder, and the split copy. */
  function FormatIndex(size: int, r: int, c: int): Option<nat> {
    if r == 8 && 0 <= c <= 5 then Some(c)
    else if r == 8 && c == 7 then Some(6)
    else if r == 8 && c == 8 then Some(7)
    else if r == 7 && c == 8 then Some(8)
    else if c == 8 && 0 <= r <= 5 then Some(14 - r)
    else if c == 8 && size - 8 <= r < size then Some(size - 1 - r)
    else if r == 8 && size - 7 <= c < size then Some(c - (size - 15))
    else None
  }

  lemma FormatIndexBound(size: int, r: int, c: int)
    ensures FormatIndex(size, r, c).Some? ==> FormatIndex(size, r, c).value < 15
  {}

  predicate FormatColour(maskIdx: int, size: int, r: int, c: int)
    requires FormatIndex(size, r, c).Some?
  {
    FormatIndexBound(size, r, c);
    FormatBit(maskIdx, FormatIndex(size, r, c).value)
  }

  /** Writes both copies of the format word, and nothing else. */
  method WriteFormatInfo(matrix: array2<bool>, maskIdx: int)
    requires matrix.Length0 == matrix.Length1 >= 21
    modifies matrix
    ensures forall r, c :: InSymbol(matrix.Length0, r, c) ==>
      matrix[r, c] == if FormatIndex(matrix.Length0, r, c).Some? then FormatColour(maskIdx, matrix.Length0, r, c)
                      else old(matrix[r, c])
  {
    hide FormatBit;
    var size := matrix.Length0;
    for i := 0 to 15
      invariant forall r, c :: InSymbol(size, r, c) ==>
        matrix[r, c] == if FormatIndex(size, r, c).Some? && FormatIndex(size, r, c).value < i
                        then FormatColour(maskIdx, size, r, c) else old(matrix[r, c])
    {
      var bit := FormatBit(maskIdx, i);
      if i < 8 {
        var col := if i < 6 then i else i + 1;
        matrix[8, col] := bit;
      } else {
        var row := if i == 8 then 7 else 14 - i;
        matrix[row, 8] := bit;
      }
      if i < 8 {
        matrix[size - 1 - i, 8] := bit;
      } else {
        matrix[8, size - 15 + i] := bit;
      }
    }
    forall r, c | InSymbol(size, r, c) && FormatIndex(size, r, c).Some? ensures FormatIndex(size, r, c).value < 15 {
      FormatIndexBound(size, r, c);
    }
  }

  /** Format information lies on function modules only, so it never touches a data bit. */
  lemma FormatIsReserved(version: int, r: int, c: int)
    requires IsVersion(version) && FormatIndex(VersionSize(version), r, c).Some?
    ensures FunctionModule(version, r, c)
  {}

  // ---------- the finished symbol ----------

  /** Everything about the symbol of `message` under mask `k`. */
  ghost predicate IsSymbol(m: array2<bool>, version: int, message: seq<Byte>, k: int)
    requires IsVersion(version)
    reads m
  {
    var size := VersionSize(version);
    && Square(m, size)
    && (forall r, c :: InSymbol(size, r, c) && FormatIndex(size, r, c).Some? ==> m[r, c] == FormatColour(k, size, r, c))
    && (forall r, c :: InSymbol(size, r, c) && FormatIndex(size, r, c).None? && FunctionModule(version, r, c) ==>
          m[r, c] == (Pattern(version, r, c) == Some(true)))
    && (forall j :: 0 <= j < |Zigzag(version)| ==>
          var q := Zigzag(version)[j];
          InSymbol(size, q.0, q.1) && m[q.0, q.1] == (BitAt(AllBits(message), j) != Mask(k, q.0, q.1)))
  }

  /** One candidate: mask a copy of the base symbol, then write its format information. */
  method BuildCandidate(base: array2<bool>, reservedMask: array2<bool>, version: int, ghost message: seq<Byte>, k: int)
    returns (m: array2<bool>)
    requires IsVersion(version) && IsBaseMatrix(base, version, message) && Square(reservedMask, VersionSize(version))
    requires forall a, b :: InSymbol(VersionSize(version), a, b) ==> reservedMask[a, b] == FunctionModule(version, a, b)
    ensures fresh(m) && IsSymbol(m, version, message, k)
  {
    hide Mask, Pattern, Zigzag, AllBits, FormatBit, FormatIndex, FunctionModule;
    m := ApplyMask(base, reservedMask, k);
    WriteFormatInfo(m, k);
    var size := VersionSize(version);
    forall r, c | FormatIndex(size, r, c).Some? ensures FunctionModule(version, r, c) {
      FormatIsReserved(version, r, c);
    }
    ZigzagIsBijection(version);
    forall j | 0 <= j < |Zigzag(version)| ensures !FunctionModule(version, Zigzag(version)[j].0, Zigzag(version)[j].1) {
      assert Zigzag(version)[j] in Zigzag(version);
    }
  }

  /** The data bytes of at most 62 bytes as a symbol. `scores[k]` stands for the penalty of the candidate with
      mask `k`; the first candidate of least penalty wins. */
  method GenerateQrMatrix(data: seq<Byte>, scores: seq<real>) returns (r: Result<array2<bool>, string>)
    requires |scores| == 8
    ensures r.Ok? <==> |data| <= 62
    ensures r.Ok? ==> ReadsAs(r.value, data)
    ensures r.Ok? ==> exists version, k :: IsBestSymbol(r.value, data, scores, version, k)
  {
    hide Mask, Pattern, Zigzag, AllBits, FormatBit, FormatIndex, FunctionModule, FinalMessage, DataCodewords, IsSymbol,
         IsBaseMatrix, ReadsAs, ReadAlong, IsScanOrder;
    var v := SelectVersion(|data|);
    if v.Err? {
      return Err(v.error);
    }
    var version := v.value;
    var dataBytes := EncodeData(data, version);
    var codewords := BuildCodewords(dataBytes, version);
    var baseMatrix := BuildMatrix(codewords, version);
    var reservedMask := BuildReservedMask(version);
    var bestMatrix := baseMatrix;
    var bestScore: Option<real> := None;
    ghost var best := 0;
    for k := 0 to 8
      invariant IsBaseMatrix(baseMatrix, version, codewords)
      invariant Square(reservedMask, VersionSize(version))
      invariant forall a, b :: InSymbol(VersionSize(version), a, b) ==>
                  reservedMask[a, b] == FunctionModule(version, a, b)
      invariant k == 0 <==> bestScore == None
      invariant k > 0 ==> 0 <= best < k && bestScore == Some(scores[best])
                          && IsSymbol(bestMatrix, version, codewords, best)
      invariant forall j :: 0 <= j < k ==> scores[best] <= scores[j] && (j < best ==> scores[best] < scores[j])
    {
      var masked := BuildCandidate(baseMatrix, reservedMask, version, codewords, k);
      var score := scores[k];
      if bestScore == None || score < bestScore.value {
        bestScore := Some(score);
        bestMatrix := masked;
        best := k;
      }
    }
    ReadBack(bestMatrix, version, data, best);
    assert IsBestSymbol(bestMatrix, data, scores, version, best);
    return Ok(bestMatrix);
  }

  /** The first index of least score. */
  ghost predicate IsWinner(scores: seq<real>, k: int) {
    0 <= k < |scores| && forall j :: 0 <= j < |scores| ==> scores[k] <= scores[j] && (j < k ==> scores[k] < scores[j])
  }

  /** The symbol of the data in the smallest version that holds it, under the winning mask. */
  ghost predicate IsBestSymbol(m: array2<bool>, data: seq<Byte>, scores: seq<real>, version: int, k: int)
    reads m
  {
    && IsVersion(version) && |data| <= ByteCapacity(version)
    && (forall v :: 1 <= v < version ==> ByteCapacity(v) < |data|)
    && IsWinner(scores, k)
    && IsSymbol(m, version, FinalMessage(DataCodewords(data, version), version), k)
  }

  // ---------- the reader ----------

  /** The mask number in the first format copy: bits 2 to 4, with the fixed 101 pattern removed. */
  function ReadMask(m: array2<bool>): int
    requires m.Length0 >= 21 && m.Length1 >= 21
    reads m
  {
    (if m[8, 2] then 0 else 4) + (if m[8, 3] then 2 else 0) + (if m[8, 4] then 0 else 1)
  }

  /** The unmasked bits along a path. */
  function ReadBits(m: array2<bool>, mask: int, path: seq<Cell>): (s: seq<Bit>)
    requires forall q :: q in path ==> 0 <= q.0 < m.Length0 && 0 <= q.1 < m.Length1
    reads m
    ensures |s| == |path|
    ensures forall j :: 0 <= j < |path| ==>
              s[j] == if m[path[j].0, path[j].1] != Mask(mask, path[j].0, path[j].1) then 1 else 0
  {
    hide Mask;
    if |path| == 0 then []
    else
      var q := path[|path| - 1];
      ReadBits(m, mask, path[..|path| - 1]) + [if m[q.0, q.1] != Mask(mask, q.0, q.1) then 1 else 0]
  }

  /** Reads a symbol along a path: size, mask, bits along the path, codewords, de-interleaving, byte-mode segment. */
  function ReadAlong(m: array2<bool>, path: seq<Cell>): Option<seq<Byte>>
    reads m
  {
    hide Mask, Pack, Info, Deinterleave, ParseSegment;
    var version := (m.Length0 - 17) / 4;
    if !IsVersion(version) || !Square(m, VersionSize(version)) || |path| < 8 * Info(version).totalCW
       || exists q :: q in path && !InSymbol(VersionSize(version), q.0, q.1)
    then None
    else
      var bits := ReadBits(m, ReadMask(m), path[..8 * Info(version).totalCW]);
      ParseSegment(Deinterleave(Pack(bits), version))
  }

  /** A reader that visits the modules in the standard's order gets these bytes; there is exactly one such order. */
  ghost predicate ReadsAs(m: array2<bool>, data: seq<Byte>)
    reads m
  {
    exists path :: IsScanOrder((m.Length0 - 17) / 4, path) && ReadAlong(m, path) == Some(data)
  }

  lemma ReadMaskBack(m: array2<bool>, version: int, message: seq<Byte>, k: int)
    requires IsVersion(version) && IsSymbol(m, version, message, k) && 0 <= k < 8
    ensures ReadMask(m) == k
  {
    hide Zigzag, AllBits, Mask, Pattern, FunctionModule;
    var size := VersionSize(version);
    assert FormatIndex(size, 8, 2) == Some(2) && FormatIndex(size, 8, 3) == Some(3)
           && FormatIndex(size, 8, 4) == Some(4);
    assert m[8, 2] == FormatBit(k, 2) && m[8, 3] == FormatBit(k, 3) && m[8, 4] == FormatBit(k, 4);
    FormatMaskBits(k);
  }

  lemma FormatMaskBits(k: int)
    requires 0 <= k < 8
    ensures k == (if FormatBit(k, 2) then 0 else 4) + (if FormatBit(k, 3) then 2 else 0)
                 + (if FormatBit(k, 4) then 0 else 1)
  {
    assert Power2(12) == 4096 && Power2(11) == 2048 && Power2(10) == 1024;
  }

  lemma ReadBitsBack(m: array2<bool>, version: int, message: seq<Byte>, k: int, path: seq<Cell>)
    requires IsVersion(version) && IsSymbol(m, version, message, k) && |message| == Info(version).totalCW
    requires |path| == 8 * |message| && path <= Zigzag(version)
    requires forall q :: q in path ==> InSymbol(VersionSize(version), q.0, q.1)
    ensures ReadBits(m, k, path) == AllBits(message)
  {
    hide Zigzag, AllBits, Mask, Pattern, FunctionModule, FormatIndex, Info, ReadBits;
    var bits := ReadBits(m, k, path);
    forall j | 0 <= j < |bits| ensures bits[j] == AllBits(message)[j] {
      assert path[j] == Zigzag(version)[j];
    }
  }

  lemma ZigzagInSymbol(version: int)
    requires IsVersion(version)
    ensures forall q :: q in Zigzag(version) ==> InSymbol(VersionSize(version), q.0, q.1)
  {
    hide Zigzag, FunctionModule;
    ZigzagIsBijection(version);
  }

  /** Round trip: whichever mask won, a reader of the symbol gets the data bytes back. */
  lemma ReadBack(m: array2<bool>, version: int, data: seq<Byte>, k: int)
    requires IsVersion(version) && |data| <= ByteCapacity(version) && 0 <= k < 8
    requires IsSymbol(m, version, FinalMessage(DataCodewords(data, version), version), k)
    ensures ReadsAs(m, data) && forall path :: IsScanOrder(version, path) ==> ReadAlong(m, path) == Some(data)
  {
    hide Zigzag, AllBits, Mask, Pattern, FunctionModule, FinalMessage, DataCodewords, IsScanOrder, ReadAlong;
    ZigzagInOrder(version);
    forall path | IsScanOrder(version, path) ensures ReadAlong(m, path) == Some(data) {
      ScanOrderIffZigzag(version, path);
      ReadBackAlong(m, version, data, k);
    }
    assert (m.Length0 - 17) / 4 == version;
  }

  lemma ReadBackAlong(m: array2<bool>, version: int, data: seq<Byte>, k: int)
    requires IsVersion(version) && |data| <= ByteCapacity(version) && 0 <= k < 8
    requires IsSymbol(m, version, FinalMessage(DataCodewords(data, version), version), k)
    ensures ReadAlong(m, Zigzag(version)) == Some(data)
  {
    hide Zigzag, AllBits, Mask, Pattern, FunctionModule, FinalMessage, DataCodewords, ParseSegment, Pack, Deinterleave,
         ReadBits, Info;
    var codewords := DataCodewords(data, version);
    var message := FinalMessage(codewords, version);
    SegmentRoundTrip(data, version);
    DeinterleaveRoundTrip(codewords, version);
    ReadMaskBack(m, version, message, k);
    ZigzagLength(version);
    ZigzagInSymbol(version);
    ReadBitsBack(m, version, message, k, Zigzag(version)[..8 * |message|]);
    PackAllBits(message);
  }

  /** Module by module: bit `b` of codeword `i` is on module 8 i + b of the order, inverted where the mask says so. */
  lemma SymbolModules(m: array2<bool>, version: int, message: seq<Byte>, k: int, path: seq<Cell>, i: nat, b: nat)
    requires IsVersion(version) && IsSymbol(m, version, message, k) && IsScanOrder(version, path)
    requires i < |message| == Info(version).totalCW && b < 8
    ensures 8 * i + b < |path|
    ensures var q := path[8 * i + b];
      InSymbol(VersionSize(version), q.0, q.1) && m[q.0, q.1] == ((Digit(message[i], b) == 1) != Mask(k, q.0, q.1))
  {
    hide Zigzag, AllBits, Mask, Pattern, FunctionModule, FormatIndex, Info, IsScanOrder, Digit;
    ScanOrderIffZigzag(version, path);
    ZigzagLength(version);
    AllBitsDigit(message, i, b);
  }
}
