/** Building the unmasked symbol: function patterns first, then the codeword bits along the zigzag. */
module QrMatrix {
  import opened Wrappers
  import opened Gf256
  import opened QrVersions
  import opened QrEncoding
  import opened QrLayout
  import opened QrReserved

  // ---------- what the function patterns look like ----------

  /** Colour of a finder pattern, its separator included, relative to its top-left corner. */
  predicate FinderDark(r: int, c: int) {
    Box(r, c, 0, 6, 0, 6) && (r == 0 || r == 6 || c == 0 || c == 6 || Box(r, c, 2, 4, 2, 4))
  }

  /** Colour of an alignment pattern, relative to its centre. */
  predicate AlignmentDark(r: int, c: int) {
    r == 2 || r == -2 || c == 2 || c == -2 || (r == 0 && c == 0)
  }

  function FinderPattern(size: int, r: int, c: int): Option<bool> {
    if FinderBox(r, c, 0, 0) then Some(FinderDark(r, c))
    else if FinderBox(r, c, 0, size - 7) then Some(FinderDark(r, c - (size - 7)))
    else if FinderBox(r, c, size - 7, 0) then Some(FinderDark(r - (size - 7), c))
    else None
  }

  function LinePattern(size: int, r: int, c: int): Option<bool> {
    if FinderPattern(size, r, c).Some? then FinderPattern(size, r, c)
    else if r == 6 then Some(c % 2 == 0)
    else if c == 6 then Some(r % 2 == 0)
    else None
  }

  /** Colour of every function module; format areas are not coloured yet. */
  function Pattern(version: int, r: int, c: int): Option<bool> {
    var size := VersionSize(version);
    if r == size - 8 && c == 8 then Some(true)
    else if AlignmentModule(version, r, c) then Some(AlignmentDark(r - (size - 7), c - (size - 7)))
    else LinePattern(size, r, c)
  }

  // ---------- placing the patterns ----------

  method PlaceFinder(matrix: array2<Option<bool>>, reserved: array2<bool>, size: int, row: int, col: int)
    requires matrix.Length0 == size && matrix.Length1 == size && Square(reserved, size)
    modifies matrix, reserved
    ensures forall a, b :: InSymbol(size, a, b) ==>
      reserved[a, b] == (old(reserved[a, b]) || FinderBox(a, b, row, col))
    ensures forall a, b :: InSymbol(size, a, b) ==>
      matrix[a, b] == if FinderBox(a, b, row, col) then Some(FinderDark(a - row, b - col)) else old(matrix[a, b])
  {
    for r := -1 to 8
      invariant forall a, b :: InSymbol(size, a, b) ==>
        var done := FinderBox(a, b, row, col) && a < row + r;
        && reserved[a, b] == (old(reserved[a, b]) || done)
        && matrix[a, b] == if done then Some(FinderDark(a - row, b - col)) else old(matrix[a, b])
    {
      for c := -1 to 8
        invariant forall a, b :: InSymbol(size, a, b) ==>
          var done := FinderBox(a, b, row, col) && (a < row + r || (a == row + r && b < col + c));
          && reserved[a, b] == (old(reserved[a, b]) || done)
          && matrix[a, b] == if done then Some(FinderDark(a - row, b - col)) else old(matrix[a, b])
      {
        var mr := row + r;
        var mc := col + c;
        if mr < 0 || mr >= size || mc < 0 || mc >= size {
          continue;
        }
        var dark := false;
        if r >= 0 && r <= 6 && c >= 0 && c <= 6 {
          if r == 0 || r == 6 || c == 0 || c == 6 || (r >= 2 && r <= 4 && c >= 2 && c <= 4) {
            dark := true;
          }
        }
        matrix[mr, mc] := Some(dark);
        reserved[mr, mc] := true;
      }
    }
  }

  method PlaceFinders(matrix: array2<Option<bool>>, reserved: array2<bool>, size: int)
    requires matrix.Length0 == size && matrix.Length1 == size && Square(reserved, size) && size >= 21
    requires forall a, b :: InSymbol(size, a, b) ==> !reserved[a, b] && matrix[a, b] == None
    modifies matrix, reserved
    ensures forall a, b :: InSymbol(size, a, b) ==>
      reserved[a, b] == FinderPattern(size, a, b).Some? && matrix[a, b] == FinderPattern(size, a, b)
  {
    hide FinderDark;
    PlaceFinder(matrix, reserved, size, 0, 0);
    PlaceFinder(matrix, reserved, size, 0, size - 7);
    PlaceFinder(matrix, reserved, size, size - 7, 0);
  }

  method PlaceTiming(matrix: array2<Option<bool>>, reserved: array2<bool>, size: int)
    requires matrix.Length0 == size && matrix.Length1 == size && Square(reserved, size) && size >= 21
    requires forall a, b :: InSymbol(size, a, b) ==>
      reserved[a, b] == FinderPattern(size, a, b).Some? && matrix[a, b] == FinderPattern(size, a, b)
    modifies matrix, reserved
    ensures forall a, b :: InSymbol(size, a, b) ==>
      reserved[a, b] == LinePattern(size, a, b).Some? && matrix[a, b] == LinePattern(size, a, b)
  {
    hide FinderDark;
    for i := 8 to size - 8
      invariant forall a, b :: InSymbol(size, a, b) ==>
        && matrix[a, b] == (if (a == 6 && 8 <= b < i) || (b == 6 && 8 <= a < i)
                            then LinePattern(size, a, b) else FinderPattern(size, a, b))
        && reserved[a, b] == matrix[a, b].Some?
    {
      var dark := i % 2 == 0;
      if matrix[6, i] == None {
        matrix[6, i] := Some(dark);
        reserved[6, i] := true;
      }
      if matrix[i, 6] == None {
        matrix[i, 6] := Some(dark);
        reserved[i, 6] := true;
      }
    }
  }

  method PlaceAlignmentPattern(matrix: array2<Option<bool>>, reserved: array2<bool>, size: int, row: int, col: int)
    requires matrix.Length0 == size && matrix.Length1 == size && Square(reserved, size)
    requires 2 <= row < size - 2 && 2 <= col < size - 2
    modifies matrix, reserved
    ensures forall a, b :: InSymbol(size, a, b) ==>
      reserved[a, b] == (old(reserved[a, b]) || Box(a, b, row - 2, row + 2, col - 2, col + 2))
    ensures forall a, b :: InSymbol(size, a, b) ==>
      matrix[a, b] == if Box(a, b, row - 2, row + 2, col - 2, col + 2) then Some(AlignmentDark(a - row, b - col))
                      else old(matrix[a, b])
  {
    for r := -2 to 3
      invariant forall a, b :: InSymbol(size, a, b) ==>
        var done := Box(a, b, row - 2, row + r - 1, col - 2, col + 2);
        && reserved[a, b] == (old(reserved[a, b]) || done)
        && matrix[a, b] == if done then Some(AlignmentDark(a - row, b - col)) else old(matrix[a, b])
    {
      for c := -2 to 3
        invariant forall a, b :: InSymbol(size, a, b) ==>
          var done := Box(a, b, row - 2, row + r - 1, col - 2, col + 2)
          || Box(a, b, row + r, row + r, col - 2, col + c - 1);
          && reserved[a, b] == (old(reserved[a, b]) || done)
          && matrix[a, b] == if done then Some(AlignmentDark(a - row, b - col)) else old(matrix[a, b])
      {
        var dark := r == 2 || r == -2 || c == 2 || c == -2 || (r == 0 && c == 0);
        matrix[row + r, col + c] := Some(dark);
        reserved[row + r, col + c] := true;
      }
    }
  }

  method PlaceAlignment(matrix: array2<Option<bool>>, reserved: array2<bool>, version: int)
    requires IsVersion(version)
    requires matrix.Length0 == VersionSize(version) && matrix.Length1 == VersionSize(version)
    requires Square(reserved, VersionSize(version))
    requires forall a, b :: InSymbol(VersionSize(version), a, b) ==>
      reserved[a, b] == LinePattern(VersionSize(version), a, b).Some?
    modifies matrix, reserved
    ensures forall a, b :: InSymbol(VersionSize(version), a, b) ==>
      reserved[a, b] == (old(reserved[a, b]) || AlignmentModule(version, a, b))
    ensures forall a, b :: InSymbol(VersionSize(version), a, b) && AlignmentModule(version, a, b) ==>
      matrix[a, b] == Some(AlignmentDark(a - (VersionSize(version) - 7), b - (VersionSize(version) - 7)))
    ensures forall a, b :: InSymbol(VersionSize(version), a, b) && !AlignmentModule(version, a, b) ==>
      matrix[a, b] == old(matrix[a, b])
  {
    hide AlignmentDark, FinderDark;
    var size := VersionSize(version);
    var alignPos := AlignmentPositions(version);
    for i := 0 to |alignPos|
      invariant forall a, b :: InSymbol(size, a, b) ==>
        var done := i == 2 && AlignmentModule(version, a, b);
        && reserved[a, b] == (old(reserved[a, b]) || done)
        && matrix[a, b] == if done then Some(AlignmentDark(a - (size - 7), b - (size - 7))) else old(matrix[a, b])
    {
      for j := 0 to |alignPos|
        invariant forall a, b :: InSymbol(size, a, b) ==>
          var done := i == 1 && j == 2 && AlignmentModule(version, a, b);
          && reserved[a, b] == (old(reserved[a, b]) || done)
          && matrix[a, b] == if done then Some(AlignmentDark(a - (size - 7), b - (size - 7))) else old(matrix[a, b])
      {
        var row, col := alignPos[i], alignPos[j];
        if reserved[row, col] {
          continue;
        }
        PlaceAlignmentPattern(matrix, reserved, size, row, col);
      }
    }
  }

  /** Reserves the format areas that no pattern covers yet. */
  method ReserveFormat(reserved: array2<bool>, size: int)
    requires Square(reserved, size) && size >= 21
    modifies reserved
    ensures forall a, b :: InSymbol(size, a, b) ==>
      reserved[a, b] == (old(reserved[a, b]) || FormatArea(size, a, b))
  {
    for i := 0 to 9
      invariant forall a, b :: InSymbol(size, a, b) ==>
        reserved[a, b] == (old(reserved[a, b]) || (a == 8 && b < i) || (b == 8 && a < i))
    {
      if !reserved[8, i] {
        reserved[8, i] := true;
      }
      if !reserved[i, 8] {
        reserved[i, 8] := true;
      }
    }
    for i := 0 to 8
      invariant forall a, b :: InSymbol(size, a, b) ==>
        reserved[a, b] == (old(reserved[a, b]) || (a == 8 && (b <= 8 || b >= size - i)) || (b == 8 && a <= 8))
    {
      if !reserved[8, size - 1 - i] {
        reserved[8, size - 1 - i] := true;
      }
    }
    for i := 0 to 8
      invariant forall a, b :: InSymbol(size, a, b) ==>
        reserved[a, b] == (old(reserved[a, b]) || (a == 8 && (b <= 8 || b >= size - 8))
                           || (b == 8 && (a <= 8 || a >= size - i)))
    {
      if !reserved[size - 1 - i, 8] {
        reserved[size - 1 - i, 8] := true;
      }
    }
  }

  /** All function patterns; the reserved set is the one buildReservedMask computes. */
  method PlacePatterns(matrix: array2<Option<bool>>, reserved: array2<bool>, version: int)
    requires IsVersion(version)
    requires matrix.Length0 == VersionSize(version) && matrix.Length1 == VersionSize(version)
    requires Square(reserved, VersionSize(version))
    requires forall a, b :: InSymbol(VersionSize(version), a, b) ==> !reserved[a, b] && matrix[a, b] == None
    modifies matrix, reserved
    ensures forall a, b :: InSymbol(VersionSize(version), a, b) ==>
      reserved[a, b] == FunctionModule(version, a, b) && matrix[a, b] == Pattern(version, a, b)
  {
    hide AlignmentDark, FinderDark;
    var size := VersionSize(version);
    PlaceFinders(matrix, reserved, size);
    PlaceTiming(matrix, reserved, size);
    PlaceAlignment(matrix, reserved, version);
    matrix[size - 8, 8] := Some(true);
    reserved[size - 8, 8] := true;
    ReserveFormat(reserved, size);
    forall a, b | InSymbol(size, a, b)
      ensures FunctionModule(version, a, b) == (Pattern(version, a, b).Some? || FormatArea(size, a, b))
    {
      PatternsAreFunctionModules(version, a, b);
    }
  }

  lemma PatternsAreFunctionModules(version: int, a: int, b: int)
    requires IsVersion(version) && InSymbol(VersionSize(version), a, b)
    ensures FunctionModule(version, a, b) <==> Pattern(version, a, b).Some? || FormatArea(VersionSize(version), a, b)
  {}

  // ---------- placing the data ----------

  function BitAt(bits: seq<Bit>, j: nat): bool {
    j < |bits| && bits[j] == 1
  }

  /** The modules of `path` hold the bits in order, light when the bits run out. */
  ghost predicate Placed(matrix: array2<Option<bool>>, path: seq<Cell>, bits: seq<Bit>)
    reads matrix
  {
    forall j :: 0 <= j < |path| ==>
      && 0 <= path[j].0 < matrix.Length0 && 0 <= path[j].1 < matrix.Length1
      && matrix[path[j].0, path[j].1] == Some(BitAt(bits, j))
  }

  /** Puts the next bit into a module unless the module is reserved. */
  method PlaceBit(matrix: array2<Option<bool>>, reserved: array2<bool>, version: int, row: int, c: int,
                  bits: seq<Bit>, bitIdx: nat, ghost path: seq<Cell>) returns (next: nat)
    requires IsVersion(version) && InSymbol(VersionSize(version), row, c)
    requires matrix.Length0 == VersionSize(version) && matrix.Length1 == VersionSize(version)
    requires Square(reserved, VersionSize(version))
    requires forall a, b :: InSymbol(VersionSize(version), a, b) ==> reserved[a, b] == FunctionModule(version, a, b)
    requires bitIdx == |path| && path + OneCell(version, row, c) <= Zigzag(version) && Placed(matrix, path, bits)
    modifies matrix
    ensures next == |path + OneCell(version, row, c)| && Placed(matrix, path + OneCell(version, row, c), bits)
    ensures forall a, b :: InSymbol(VersionSize(version), a, b) && FunctionModule(version, a, b) ==>
              matrix[a, b] == old(matrix[a, b])
  {
    hide Zigzag, FunctionModule;
    if reserved[row, c] {
      assert path + OneCell(version, row, c) == path;
      return bitIdx;
    }
    ghost var longer := path + [(row, c)];
    ZigzagIsBijection(version);
    PrefixDistinct(longer, Zigzag(version));
    if bitIdx < |bits| {
      matrix[row, c] := Some(bits[bitIdx] == 1);
    } else {
      matrix[row, c] := Some(false);
    }
    next := bitIdx + 1;
    assert forall j :: 0 <= j < |path| ==> longer[j] == path[j] && longer[j] != (row, c);
  }

  lemma PrefixDistinct(s: seq<Cell>, t: seq<Cell>)
    requires s <= t && Distinct(t) && |s| > 0
    ensures forall j :: 0 <= j < |s| - 1 ==> s[j] != s[|s| - 1]
  {
    forall j | 0 <= j < |s| - 1 ensures s[j] != s[|s| - 1] {
      assert s[j] == t[j] && s[|s| - 1] == t[|s| - 1];
    }
  }

  // ---------- prefixes of the zigzag ----------

  lemma {:induction false} PathPrefix(version: int, n: nat)
    requires IsVersion(version) && n <= Strips(version)
    ensures Path(version, n) <= Zigzag(version)
    decreases Strips(version) - n
  {
    hide StripPart;
    if n < Strips(version) {
      PathPrefix(version, n + 1);
    }
  }

  lemma {:induction false} StripPrefix(version: int, k: int, i: nat)
    requires i <= VersionSize(version)
    ensures StripPart(version, k, i) <= StripPart(version, k, VersionSize(version))
    decreases VersionSize(version) - i
  {
    hide RowPart;
    if i < VersionSize(version) {
      StripPrefix(version, k, i + 1);
    }
  }

  lemma RowPrefix(version: int, k: nat, i: nat)
    requires IsVersion(version) && k < Strips(version) && i < VersionSize(version)
    ensures Path(version, k) + StripPart(version, k, i) + RowPart(version, k, i)
         == Path(version, k) + StripPart(version, k, i + 1)
    ensures Path(version, k) + StripPart(version, k, i) + RowPart(version, k, i) <= Zigzag(version)
  {
    hide RowPart, Zigzag;
    PathPrefix(version, k + 1);
    StripPrefix(version, k, i + 1);
  }

  /** Walks one two-column strip. */
  method PlaceStrip(matrix: array2<Option<bool>>, reserved: array2<bool>, version: int, ghost k: nat, col: int,
                    goingUp: bool,
                    bits: seq<Bit>, bitIdx: nat) returns (next: nat)
    requires IsVersion(version) && k < Strips(version) && col == StripColumn(version, k) && goingUp == (k % 2 == 0)
    requires matrix.Length0 == VersionSize(version) && matrix.Length1 == VersionSize(version)
    requires Square(reserved, VersionSize(version))
    requires forall a, b :: InSymbol(VersionSize(version), a, b) ==> reserved[a, b] == FunctionModule(version, a, b)
    requires bitIdx == |Path(version, k)| && Placed(matrix, Path(version, k), bits)
    modifies matrix
    ensures next == |Path(version, k + 1)| && Placed(matrix, Path(version, k + 1), bits)
    ensures forall a, b :: InSymbol(VersionSize(version), a, b) && FunctionModule(version, a, b) ==>
              matrix[a, b] == old(matrix[a, b])
  {
    hide Path, StripPart, Zigzag, FunctionModule, StripColumn, Placed, OneCell;
    var size := VersionSize(version);
    StripOfColumns(version, k);
    EmptyStrip(version, k);
    next := bitIdx;
    for i := 0 to size
      invariant next == |Path(version, k) + StripPart(version, k, i)|
      invariant Placed(matrix, Path(version, k) + StripPart(version, k, i), bits)
      invariant forall a, b :: InSymbol(size, a, b) && FunctionModule(version, a, b) ==>
                  matrix[a, b] == old(matrix[a, b])
    {
      var row := if goingUp then size - 1 - i else i;
      ghost var path := Path(version, k) + StripPart(version, k, i);
      RowPrefix(version, k, i);
      assert path + OneCell(version, row, col) + OneCell(version, row, col - 1) == path + RowPart(version, k, i);
      next := PlaceBit(matrix, reserved, version, row, col, bits, next, path);
      next := PlaceBit(matrix, reserved, version, row, col - 1, bits, next, path + OneCell(version, row, col));
    }
    NextPath(version, k);
  }

  lemma EmptyStrip(version: int, k: nat)
    requires IsVersion(version)
    ensures Path(version, k) + StripPart(version, k, 0) == Path(version, k)
  {}

  lemma NextPath(version: int, k: nat)
    requires IsVersion(version)
    ensures Path(version, k + 1) == Path(version, k) + StripPart(version, k, VersionSize(version))
  {}

  /** Walks all strips from right to left, skipping column 6. */
  method PlaceData(matrix: array2<Option<bool>>, reserved: array2<bool>, version: int, bits: seq<Bit>)
    requires IsVersion(version)
    requires matrix.Length0 == VersionSize(version) && matrix.Length1 == VersionSize(version)
    requires Square(reserved, VersionSize(version))
    requires forall a, b :: InSymbol(VersionSize(version), a, b) ==> reserved[a, b] == FunctionModule(version, a, b)
    modifies matrix
    ensures Placed(matrix, Zigzag(version), bits)
    ensures forall path :: IsScanOrder(version, path) ==> Placed(matrix, path, bits)
    ensures forall a, b :: InSymbol(VersionSize(version), a, b) && FunctionModule(version, a, b) ==>
              matrix[a, b] == old(matrix[a, b])
  {
    hide Path, FunctionModule, Placed, IsScanOrder;
    var size := VersionSize(version);
    NothingPlaced(matrix, version, bits);
    var bitIdx := 0;
    var col := size - 1;
    ghost var k: nat := 0;
    while col >= 0
      invariant 0 <= k <= Strips(version)
      invariant (col >= 6 && col == size - 1 - 2 * k) || (col < 6 && col == size - 2 - 2 * k)
      invariant k < Strips(version) || col < 0
      invariant bitIdx == |Path(version, k)| && Placed(matrix, Path(version, k), bits)
      invariant forall a, b :: InSymbol(size, a, b) && FunctionModule(version, a, b) ==>
                  matrix[a, b] == old(matrix[a, b])
      decreases col
    {
      if col == 6 {
        col := col - 1;
        continue;
      }
      var stripIndex := if col >= 7 then (size - 1 - col) / 2 else (size - 2 - col) / 2;
      var goingUp := stripIndex % 2 == 0;
      bitIdx := PlaceStrip(matrix, reserved, version, k, col, goingUp, bits, bitIdx);
      col := col - 2;
      k := k + 1;
    }
    forall path | IsScanOrder(version, path) ensures Placed(matrix, path, bits) {
      ScanOrderIffZigzag(version, path);
    }
  }

  lemma NothingPlaced(matrix: array2<Option<bool>>, version: int, bits: seq<Bit>)
    requires IsVersion(version)
    ensures |Path(version, 0)| == 0 && Placed(matrix, Path(version, 0), bits)
  {}

  // ---------- the whole symbol ----------

  /** The unmasked symbol: patterns on the function modules, the message bits along the zigzag. */
  ghost predicate IsBaseMatrix(m: array2<bool>, version: int, message: seq<Byte>)
    requires IsVersion(version)
    reads m
  {
    && m.Length0 == VersionSize(version) && m.Length1 == VersionSize(version)
    && (forall a, b :: InSymbol(VersionSize(version), a, b) && FunctionModule(version, a, b) ==>
          m[a, b] == (Pattern(version, a, b) == Some(true)))
    && (forall j :: 0 <= j < |Zigzag(version)| ==>
          var q := Zigzag(version)[j];
          InSymbol(VersionSize(version), q.0, q.1) && m[q.0, q.1] == BitAt(AllBits(message), j))
  }

  method MessageBits(codewords: seq<Byte>) returns (bits: seq<Bit>)
    ensures bits == AllBits(codewords)
  {
    hide AllBits, BitsOf;
    bits := [];
    NoBits();
    for i := 0 to |codewords|
      invariant bits == AllBits(codewords[..i])
    {
      AllBitsAppend(codewords[..i], codewords[i]);
      assert codewords[..i + 1] == codewords[..i] + [codewords[i]];
      bits := PushBits(bits, codewords[i], 8);
    }
    assert codewords[..|codewords|] == codewords;
  }

  method BuildMatrix(codewords: seq<Byte>, version: int) returns (m: array2<bool>)
    requires IsVersion(version)
    ensures fresh(m) && IsBaseMatrix(m, version, codewords)
  {
    hide FunctionModule, Zigzag, AllBits, Pattern, BitsOf;
    var size := VersionSize(version);
    var matrix := new Option<bool>[size, size]((_, _) => None);
    var reserved := new bool[size, size]((_, _) => false);
    PlacePatterns(matrix, reserved, version);

    var bits := MessageBits(codewords);
    PlaceData(matrix, reserved, version, bits);
    ZigzagIsBijection(version);
    m := new bool[size, size]((r, c)
      reads matrix
      requires 0 <= r < size && 0 <= c < size && matrix.Length0 == size && matrix.Length1 == size
      => matrix[r, c] == Some(true));
    forall j | 0 <= j < |Zigzag(version)|
      ensures var q := Zigzag(version)[j]; InSymbol(size, q.0, q.1) && m[q.0, q.1] == BitAt(bits, j)
    {
      assert Zigzag(version)[j] in Zigzag(version);
    }
  }

  lemma NoBits()
    ensures AllBits([]) == []
  {}
}
