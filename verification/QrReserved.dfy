/** Marking the function modules of a symbol, as buildReservedMask does it. */
module QrReserved {
  import opened QrVersions
  import opened QrLayout

  predicate Square(m: array2<bool>, size: int) {
    m.Length0 == size && m.Length1 == size
  }

  /** The two timing lines between the finder patterns. */
  predicate TimingModule(size: int, r: int, c: int) {
    || (r == 6 && 8 <= c < size - 8)
    || (c == 6 && 8 <= r < size - 8)
  }

  /** The areas kept for format information, next to the three finder patterns. */
  predicate FormatArea(size: int, r: int, c: int) {
    || (r == 8 && (c <= 8 || c >= size - 8))
    || (c == 8 && (r <= 8 || r >= size - 8))
  }

  function AlignmentPositions(version: int): seq<int>
    requires IsVersion(version)
  {
    match version
    case 1 => []
    case 2 => [6, 18]
    case 3 => [6, 22]
    case _ => [6, 26]
  }

  predicate FinderBox(r: int, c: int, row: int, col: int) {
    Box(r, c, row - 1, row + 7, col - 1, col + 7)
  }

  predicate OverlapsFinder(size: int, row: int, col: int) {
    FinderBox(row, col, 0, 0) || FinderBox(row, col, 0, size - 7) || FinderBox(row, col, size - 7, 0)
  }

  method MarkFinder(reserved: array2<bool>, size: int, row: int, col: int)
    requires Square(reserved, size)
    modifies reserved
    ensures forall a, b :: InSymbol(size, a, b) ==>
      reserved[a, b] == (old(reserved[a, b]) || FinderBox(a, b, row, col))
  {
    for r := -1 to 8
      invariant forall a, b :: InSymbol(size, a, b) ==>
        reserved[a, b] == (old(reserved[a, b]) || (FinderBox(a, b, row, col) && a < row + r))
    {
      for c := -1 to 8
        invariant forall a, b :: InSymbol(size, a, b) ==>
          reserved[a, b] == (old(reserved[a, b])
            || (FinderBox(a, b, row, col) && (a < row + r || (a == row + r && b < col + c))))
      {
        var mr := row + r;
        var mc := col + c;
        if mr >= 0 && mr < size && mc >= 0 && mc < size {
          reserved[mr, mc] := true;
        }
      }
    }
  }

  method MarkTiming(reserved: array2<bool>, size: int)
    requires Square(reserved, size) && size >= 21
    modifies reserved
    ensures forall a, b :: InSymbol(size, a, b) ==>
      reserved[a, b] == (old(reserved[a, b]) || TimingModule(size, a, b))
  {
    for i := 8 to size - 8
      invariant forall a, b :: InSymbol(size, a, b) ==>
        reserved[a, b] == (old(reserved[a, b]) || (a == 6 && 8 <= b < i) || (b == 6 && 8 <= a < i))
    {
      reserved[6, i] := true;
      reserved[i, 6] := true;
    }
  }

  method MarkAlignment(reserved: array2<bool>, version: int)
    requires IsVersion(version) && Square(reserved, VersionSize(version))
    modifies reserved
    ensures forall a, b :: InSymbol(VersionSize(version), a, b) ==>
      reserved[a, b] == (old(reserved[a, b]) || AlignmentModule(version, a, b))
  {
    var size := VersionSize(version);
    var alignPos := AlignmentPositions(version);
    for i := 0 to |alignPos|
      invariant forall a, b :: InSymbol(size, a, b) ==>
        reserved[a, b] == (old(reserved[a, b]) || (i == 2 && AlignmentModule(version, a, b)))
    {
      for j := 0 to |alignPos|
        invariant forall a, b :: InSymbol(size, a, b) ==>
          reserved[a, b] == (old(reserved[a, b]) || (i == 1 && j == 2 && AlignmentModule(version, a, b)))
      {
        var row, col := alignPos[i], alignPos[j];
        if !OverlapsFinder(size, row, col) {
          MarkSquare(reserved, size, row, col);
        }
      }
    }
  }

  method MarkSquare(reserved: array2<bool>, size: int, row: int, col: int)
    requires Square(reserved, size) && 2 <= row < size - 2 && 2 <= col < size - 2
    modifies reserved
    ensures forall a, b :: InSymbol(size, a, b) ==>
      reserved[a, b] == (old(reserved[a, b]) || Box(a, b, row - 2, row + 2, col - 2, col + 2))
  {
    for r := -2 to 3
      invariant forall a, b :: InSymbol(size, a, b) ==>
        reserved[a, b] == (old(reserved[a, b]) || Box(a, b, row - 2, row + r - 1, col - 2, col + 2))
    {
      for c := -2 to 3
        invariant forall a, b :: InSymbol(size, a, b) ==>
          reserved[a, b] == (old(reserved[a, b]) || Box(a, b, row - 2, row + r - 1, col - 2, col + 2)
            || Box(a, b, row + r, row + r, col - 2, col + c - 1))
      {
        reserved[row + r, col + c] := true;
      }
    }
  }

  method MarkFormat(reserved: array2<bool>, size: int)
    requires Square(reserved, size) && size >= 21
    modifies reserved
    ensures forall a, b :: InSymbol(size, a, b) ==>
      reserved[a, b] == (old(reserved[a, b]) || FormatArea(size, a, b))
  {
    for i := 0 to 9
      invariant forall a, b :: InSymbol(size, a, b) ==>
        reserved[a, b] == (old(reserved[a, b]) || (a == 8 && b < i) || (b == 8 && a < i))
    {
      reserved[8, i] := true;
      reserved[i, 8] := true;
    }
    for i := 0 to 8
      invariant forall a, b :: InSymbol(size, a, b) ==>
        reserved[a, b] == (old(reserved[a, b]) || (a == 8 && (b <= 8 || b >= size - i))
                           || (b == 8 && (a <= 8 || a >= size - i)))
    {
      reserved[8, size - 1 - i] := true;
      reserved[size - 1 - i, 8] := true;
    }
  }

  /** The reserved mask marks exactly the function modules. */
  method BuildReservedMask(version: int) returns (reserved: array2<bool>)
    requires IsVersion(version)
    ensures fresh(reserved) && Square(reserved, VersionSize(version))
    ensures forall a, b :: InSymbol(VersionSize(version), a, b) ==> reserved[a, b] == FunctionModule(version, a, b)
  {
    var size := VersionSize(version);
    reserved := new bool[size, size]((_, _) => false);
    MarkFinder(reserved, size, 0, 0);
    MarkFinder(reserved, size, 0, size - 7);
    MarkFinder(reserved, size, size - 7, 0);
    MarkTiming(reserved, size);
    MarkAlignment(reserved, version);
    reserved[size - 8, 8] := true;
    MarkFormat(reserved, size);
    forall a, b | InSymbol(size, a, b) ensures FunctionModule(version, a, b) == Marked(version, a, b) {
      MarkedIsFunctionModule(version, a, b);
    }
  }

  /** The union of everything that is marked. */
  predicate Marked(version: int, a: int, b: int) {
    var size := VersionSize(version);
    || FinderBox(a, b, 0, 0) || FinderBox(a, b, 0, size - 7) || FinderBox(a, b, size - 7, 0)
    || TimingModule(size, a, b) || AlignmentModule(version, a, b)
    || (a == size - 8 && b == 8) || FormatArea(size, a, b)
  }

  lemma MarkedIsFunctionModule(version: int, a: int, b: int)
    requires IsVersion(version) && InSymbol(VersionSize(version), a, b)
    ensures Marked(version, a, b) <==> FunctionModule(version, a, b)
  {}
}
