/** Where the modules of a symbol are: the function modules, and the zigzag order of all the others. */
module QrLayout {
  import opened QrVersions

  type Cell = (int, int)

  predicate InSymbol(size: int, r: int, c: int) {
    0 <= r < size && 0 <= c < size
  }

  predicate Box(r: int, c: int, r0: int, r1: int, c0: int, c1: int) {
    r0 <= r <= r1 && c0 <= c <= c1
  }

  /** The alignment pattern of versions 2 and up, five modules wide. */
  predicate AlignmentModule(version: int, r: int, c: int) {
    var size := VersionSize(version);
    version >= 2 && Box(r, c, size - 9, size - 5, size - 9, size - 5)
  }

  /** Finder patterns with separators and format areas, timing patterns, alignment pattern, dark module. */
  predicate FunctionModule(version: int, r: int, c: int) {
    var size := VersionSize(version);
    || (r <= 8 && c <= 8)
    || (r <= 8 && c >= size - 8)
    || (r >= size - 8 && c <= 8)
    || r == 6
    || c == 6
    || AlignmentModule(version, r, c)
  }

  predicate Free(version: int, r: int, c: int) {
    InSymbol(VersionSize(version), r, c) && !FunctionModule(version, r, c)
  }

  // ---------- the zigzag ----------

  function Strips(version: int): int {
    8 + 2 * version
  }

  /** The right column of the k-th two-column strip; column 6 is skipped. */
  function StripColumn(version: int, k: int): int {
    var c := VersionSize(version) - 1 - 2 * k;
    if c > 6 then c else c - 1
  }

  /** Row visited at step `i` of strip `k`: even strips go up, odd strips go down. */
  function ZigzagRow(version: int, k: int, i: int): int {
    if k % 2 == 0 then VersionSize(version) - 1 - i else i
  }

  function OneCell(version: int, r: int, c: int): seq<Cell> {
    if Free(version, r, c) then [(r, c)] else []
  }

  function RowPart(version: int, k: int, i: int): seq<Cell> {
    var r := ZigzagRow(version, k, i);
    var c := StripColumn(version, k);
    OneCell(version, r, c) + OneCell(version, r, c - 1)
  }

  function StripPart(version: int, k: int, n: nat): seq<Cell> {
    if n == 0 then [] else StripPart(version, k, n - 1) + RowPart(version, k, n - 1)
  }

  /** The free modules of the first `n` strips, in the order they are visited. */
  function Path(version: int, n: nat): seq<Cell>
    requires IsVersion(version)
  {
    if n == 0 then [] else Path(version, n - 1) + StripPart(version, n - 1, VersionSize(version))
  }

  function Zigzag(version: int): seq<Cell>
    requires IsVersion(version)
  {
    Path(version, Strips(version))
  }

  // ---------- every free module once ----------

  /** The strip a column belongs to, and the step at which a strip reaches a row. */
  function StripOf(version: int, c: int): int {
    var size := VersionSize(version);
    if c > 6 then (size - 1 - c) / 2 else (size - 2 - c) / 2
  }

  function StepOf(version: int, r: int, c: int): int {
    if StripOf(version, c) % 2 == 0 then VersionSize(version) - 1 - r else r
  }

  lemma StripColumns(version: int, c: int)
    requires IsVersion(version) && 0 <= c < VersionSize(version) && c != 6
    ensures 0 <= StripOf(version, c) < Strips(version)
    ensures c == StripColumn(version, StripOf(version, c)) || c == StripColumn(version, StripOf(version, c)) - 1
  {}

  lemma StripOfColumns(version: int, k: int)
    requires IsVersion(version) && 0 <= k < Strips(version)
    ensures 1 <= StripColumn(version, k) < VersionSize(version)
    ensures StripOf(version, StripColumn(version, k)) == k
    ensures StripOf(version, StripColumn(version, k) - 1) == k
    ensures StripColumn(version, k) != 6 && StripColumn(version, k) != 7
  {}

  ghost predicate Distinct(s: seq<Cell>) {
    forall a, b :: 0 <= a < b < |s| ==> s[a] != s[b]
  }

  lemma ConcatDistinct(s: seq<Cell>, t: seq<Cell>)
    requires Distinct(s) && Distinct(t) && forall q :: q in s ==> q !in t
    ensures Distinct(s + t)
  {
    forall a, b | 0 <= a < b < |s + t| ensures (s + t)[a] != (s + t)[b] {
      if a < |s| <= b {
        assert (s + t)[a] in s && (s + t)[b] in t;
      }
    }
  }

  /** The free cells of strip `k` reached in fewer than `n` steps. */
  predicate InStrip(version: int, k: int, n: int, q: Cell) {
    Free(version, q.0, q.1) && StripOf(version, q.1) == k && StepOf(version, q.0, q.1) < n
  }

  predicate InRow(version: int, k: int, i: int, q: Cell) {
    Free(version, q.0, q.1) && StripOf(version, q.1) == k && StepOf(version, q.0, q.1) == i
  }

  lemma {:induction false} StripPartCells(version: int, k: int, n: nat)
    requires IsVersion(version) && 0 <= k < Strips(version) && n <= VersionSize(version)
    ensures Distinct(StripPart(version, k, n))
    ensures forall q :: q in StripPart(version, k, n) <==> InStrip(version, k, n, q)
  {
    hide FunctionModule, StripOf, RowPart, Distinct;
    if n == 0 {
      EmptyDistinct();
    } else {
      StripPartCells(version, k, n - 1);
      RowPartCells(version, k, n - 1);
      var before, row := StripPart(version, k, n - 1), RowPart(version, k, n - 1);
      forall q | q in before ensures q !in row {
        assert InStrip(version, k, n - 1, q);
      }
      ConcatDistinct(StripPart(version, k, n - 1), RowPart(version, k, n - 1));
      forall q | q in StripPart(version, k, n) ensures InStrip(version, k, n, q) {}
      forall q: Cell | InStrip(version, k, n, q) ensures q in StripPart(version, k, n) {
        assert InStrip(version, k, n - 1, q) || InRow(version, k, n - 1, q);
      }
    }
  }

  lemma EmptyDistinct()
    ensures Distinct([])
  {}

  lemma RowPartCells(version: int, k: int, i: nat)
    requires IsVersion(version) && 0 <= k < Strips(version) && i < VersionSize(version)
    ensures Distinct(RowPart(version, k, i))
    ensures forall q :: q in RowPart(version, k, i) <==> InRow(version, k, i, q)
  {
    hide FunctionModule, StripOf, StripColumn;
    StripOfColumns(version, k);
    forall q: Cell | InRow(version, k, i, q) ensures q in RowPart(version, k, i) {
      ColumnSixIsReserved(version, q.0);
      StripColumns(version, q.1);
    }
  }

  lemma ColumnSixIsReserved(version: int, r: int)
    ensures !Free(version, r, 6)
  {}

  /** The free cells of the first `n` strips. */
  predicate InStrips(version: int, n: int, q: Cell) {
    Free(version, q.0, q.1) && StripOf(version, q.1) < n
  }

  lemma FreeCellPlace(version: int, q: Cell)
    requires IsVersion(version) && Free(version, q.0, q.1)
    ensures 0 <= StripOf(version, q.1) < Strips(version)
    ensures 0 <= StepOf(version, q.0, q.1) < VersionSize(version)
  {
    hide FunctionModule, StripOf;
    ColumnSixIsReserved(version, q.0);
    StripColumns(version, q.1);
  }

  lemma {:induction false} PathCells(version: int, n: nat)
    requires IsVersion(version) && n <= Strips(version)
    ensures Distinct(Path(version, n))
    ensures forall q :: q in Path(version, n) <==> InStrips(version, n, q)
  {
    hide FunctionModule, StripOf, StripPart, StepOf, Distinct, Free;
    var size := VersionSize(version);
    if n == 0 {
      EmptyDistinct();
      forall q: Cell ensures !InStrips(version, 0, q) {
        if InStrips(version, 0, q) { FreeCellPlace(version, q); }
      }
    } else {
      PathCells(version, n - 1);
      StripPartCells(version, n - 1, size);
      var before, strip := Path(version, n - 1), StripPart(version, n - 1, size);
      forall q | q in before ensures q !in strip {
        assert InStrips(version, n - 1, q);
      }
      ConcatDistinct(Path(version, n - 1), StripPart(version, n - 1, size));
      forall q | q in Path(version, n) ensures InStrips(version, n, q) {}
      forall q: Cell | InStrips(version, n, q) ensures q in Path(version, n) {
        FreeCellPlace(version, q);
        assert InStrips(version, n - 1, q) || InStrip(version, n - 1, size, q);
      }
    }
  }

  /** The zigzag visits every module that is not a function module exactly once, and nothing else. */
  lemma ZigzagIsBijection(version: int)
    requires IsVersion(version)
    ensures Distinct(Zigzag(version))
    ensures forall q :: q in Zigzag(version) <==> Free(version, q.0, q.1)
  {
    hide FunctionModule, StripOf, StepOf, Path, Distinct, Free;
    PathCells(version, Strips(version));
    forall q: Cell | Free(version, q.0, q.1) ensures InStrips(version, Strips(version), q) {
      FreeCellPlace(version, q);
    }
  }

  // ---------- the order ----------

  /** `p` is visited before `q`: strips of two columns from right to left, even strips upwards and odd ones
      downwards, and in a row the right module first. Column 6 belongs to no strip. */
  predicate Precedes(version: int, p: Cell, q: Cell) {
    var size := VersionSize(version);
    var k := if p.1 > 6 then (size - 1 - p.1) / 2 else (size - 2 - p.1) / 2;
    var l := if q.1 > 6 then (size - 1 - q.1) / 2 else (size - 2 - q.1) / 2;
    || k < l
    || (k == l && k % 2 == 0 && p.0 > q.0)
    || (k == l && k % 2 == 1 && p.0 < q.0)
    || (k == l && p.0 == q.0 && p.1 > q.1)
  }

  ghost predicate InOrder(version: int, path: seq<Cell>) {
    forall i, j :: 0 <= i < j < |path| ==> Precedes(version, path[i], path[j])
  }

  /** The standard's placement order: every module that is not a function module, in this order. */
  ghost predicate IsScanOrder(version: int, path: seq<Cell>) {
    InOrder(version, path) && forall q :: q in path <==> Free(version, q.0, q.1)
  }

  lemma ConcatInOrder(version: int, s: seq<Cell>, t: seq<Cell>)
    requires InOrder(version, s) && InOrder(version, t)
    requires forall p, q :: p in s && q in t ==> Precedes(version, p, q)
    ensures InOrder(version, s + t)
  {
    hide Precedes;
    forall i, j | 0 <= i < j < |s + t| ensures Precedes(version, (s + t)[i], (s + t)[j]) {
      if i < |s| <= j {
        assert (s + t)[i] in s && (s + t)[j] in t;
      }
    }
  }

  lemma RowInOrder(version: int, k: int, i: nat)
    requires IsVersion(version) && 0 <= k < Strips(version)
    ensures InOrder(version, RowPart(version, k, i))
  {
    hide Free, StripColumn, StripOf;
    StripOfColumns(version, k);
    var r, c := ZigzagRow(version, k, i), StripColumn(version, k);
    PrecedesByPlace(version, (r, c), (r, c - 1));
  }

  /** The order, by strip and step. */
  lemma PrecedesByPlace(version: int, p: Cell, q: Cell)
    ensures Precedes(version, p, q) <==>
      || StripOf(version, p.1) < StripOf(version, q.1)
      || (StripOf(version, p.1) == StripOf(version, q.1) && StepOf(version, p.0, p.1) < StepOf(version, q.0, q.1))
      || (StripOf(version, p.1) == StripOf(version, q.1) && p.0 == q.0 && p.1 > q.1)
  {}

  lemma {:induction false} StripInOrder(version: int, k: int, n: nat)
    requires IsVersion(version) && 0 <= k < Strips(version) && n <= VersionSize(version)
    ensures InOrder(version, StripPart(version, k, n))
  {
    hide Free, RowPart, StripOf, StepOf, Precedes;
    if n > 0 {
      StripInOrder(version, k, n - 1);
      StripPartCells(version, k, n - 1);
      RowInOrder(version, k, n - 1);
      RowPartCells(version, k, n - 1);
      forall p, q | p in StripPart(version, k, n - 1) && q in RowPart(version, k, n - 1)
        ensures Precedes(version, p, q)
      {
        PrecedesByPlace(version, p, q);
      }
      ConcatInOrder(version, StripPart(version, k, n - 1), RowPart(version, k, n - 1));
    }
  }

  lemma {:induction false} PathInOrder(version: int, n: nat)
    requires IsVersion(version) && n <= Strips(version)
    ensures InOrder(version, Path(version, n))
  {
    hide Free, StripPart, StripOf, StepOf, Precedes;
    var size := VersionSize(version);
    if n > 0 {
      PathInOrder(version, n - 1);
      PathCells(version, n - 1);
      StripInOrder(version, n - 1, size);
      StripPartCells(version, n - 1, size);
      forall p, q | p in Path(version, n - 1) && q in StripPart(version, n - 1, size) ensures Precedes(version, p, q) {
        PrecedesByPlace(version, p, q);
      }
      ConcatInOrder(version, Path(version, n - 1), StripPart(version, n - 1, size));
    }
  }

  /** Module by module, the zigzag is in the standard's order. */
  lemma ZigzagInOrder(version: int)
    requires IsVersion(version)
    ensures IsScanOrder(version, Zigzag(version))
  {
    hide Free, Path, Precedes, InOrder;
    PathInOrder(version, Strips(version));
    ZigzagIsBijection(version);
  }

  lemma PrecedesOneWay(version: int, p: Cell, q: Cell)
    ensures !(Precedes(version, p, q) && Precedes(version, q, p))
  {}

  lemma SameLastCell(version: int, s: seq<Cell>, t: seq<Cell>)
    requires InOrder(version, s) && InOrder(version, t) && |s| > 0 && forall q :: q in s <==> q in t
    ensures |t| > 0 && s[|s| - 1] == t[|t| - 1]
  {
    hide Precedes;
    var x := s[|s| - 1];
    assert x in t;
    var y := t[|t| - 1];
    assert y in s;
    PrecedesOneWay(version, x, y);
  }

  lemma WithoutLast(version: int, s: seq<Cell>)
    requires InOrder(version, s) && |s| > 0
    ensures InOrder(version, s[..|s| - 1])
    ensures forall q :: q in s[..|s| - 1] <==> q in s && q != s[|s| - 1]
  {
    hide Precedes;
    var n := |s| - 1;
    assert s == s[..n] + [s[n]];
    forall i | 0 <= i < n ensures s[i] != s[n] {
      PrecedesOneWay(version, s[i], s[n]);
    }
  }

  lemma FirstIsMember(s: seq<Cell>)
    ensures |s| > 0 ==> exists q :: q in s
  {
    assert |s| > 0 ==> s[0] in s;
  }

  /** Lists in this order with the same modules are equal. */
  lemma {:induction false} SameOrder(version: int, s: seq<Cell>, t: seq<Cell>)
    requires InOrder(version, s) && InOrder(version, t) && forall q :: q in s <==> q in t
    ensures s == t
  {
    hide InOrder;
    if |s| == 0 {
      FirstIsMember(t);
    } else {
      SameLastCell(version, s, t);
      WithoutLast(version, s);
      WithoutLast(version, t);
      var front, back := s[..|s| - 1], t[..|t| - 1];
      assert forall q :: q in front <==> q in s && q != s[|s| - 1];
      assert forall q :: q in back <==> q in t && q != t[|t| - 1];
      SameOrder(version, front, back);
      assert t == t[..|t| - 1] + [t[|t| - 1]];
      assert s == s[..|s| - 1] + [s[|s| - 1]];
    }
  }

  /** So there is exactly one such order, and the zigzag is it. */
  lemma ScanOrderIffZigzag(version: int, path: seq<Cell>)
    requires IsVersion(version)
    ensures IsScanOrder(version, path) <==> path == Zigzag(version)
  {
    hide Free, Zigzag, InOrder;
    ZigzagInOrder(version);
    if IsScanOrder(version, path) {
      SameOrder(version, path, Zigzag(version));
    }
  }

  // ---------- how many there are ----------

  function Clamp(x: int, hi: int): int {
    if x < 0 then 0 else if x > hi then hi else x
  }

  /** The number of free modules in the first `n` rows of column `c`. */
  function FreeRows(version: int, c: int, n: int): int {
    var size := VersionSize(version);
    var aligned := if version >= 2 && size - 9 <= c <= size - 5 then Clamp(n - (size - 9), 5) else 0;
    if c == 6 then 0
    else if c <= 8 then Clamp(n - 9, size - 17)
    else if c <= size - 9 then n - (if n > 6 then 1 else 0) - aligned
    else Clamp(n - 9, size) - aligned
  }

  lemma FreeRowsCounts(version: int, r: int, c: int)
    requires IsVersion(version) && InSymbol(VersionSize(version), r, c)
    ensures FreeRows(version, c, r + 1) == FreeRows(version, c, r) + (if Free(version, r, c) then 1 else 0)
    ensures FreeRows(version, c, 0) == 0
  {}

  /** Free modules met in the first `n` steps of a strip, in one of its columns. */
  function FreeSteps(version: int, k: int, c: int, n: int): int {
    var size := VersionSize(version);
    if k % 2 == 0 then FreeRows(version, c, size) - FreeRows(version, c, size - n) else FreeRows(version, c, n)
  }

  lemma FreeStepsCounts(version: int, k: int, c: int, n: nat)
    requires IsVersion(version) && 0 <= c < VersionSize(version) && n < VersionSize(version)
    ensures FreeSteps(version, k, c, n + 1)
         == FreeSteps(version, k, c, n) + |OneCell(version, ZigzagRow(version, k, n), c)|
    ensures FreeSteps(version, k, c, 0) == 0
  {
    hide FreeRows, FunctionModule;
    FreeRowsCounts(version, ZigzagRow(version, k, n), c);
    FreeRowsCounts(version, 0, c);
  }

  lemma {:induction false} StripLength(version: int, k: int, n: nat)
    requires IsVersion(version) && 0 <= k < Strips(version) && n <= VersionSize(version)
    ensures |StripPart(version, k, n)|
         == FreeSteps(version, k, StripColumn(version, k), n) + FreeSteps(version, k, StripColumn(version, k) - 1, n)
  {
    hide FreeSteps, OneCell, StripColumn, ZigzagRow;
    StripOfColumns(version, k);
    var c := StripColumn(version, k);
    if n == 0 {
      FreeStepsCounts(version, k, c, 0);
      FreeStepsCounts(version, k, c - 1, 0);
    } else {
      StripLength(version, k, n - 1);
      FreeStepsCounts(version, k, c, n - 1);
      FreeStepsCounts(version, k, c - 1, n - 1);
    }
  }

  /** The number of free modules in the first `n` strips. */
  function PathLength(version: int, n: nat): int {
    if n == 0 then 0 else PathLength(version, n - 1) + StripTotal(version, n - 1)
  }

  function StripTotal(version: int, k: int): int {
    var c := StripColumn(version, k);
    FreeRows(version, c, VersionSize(version)) + FreeRows(version, c - 1, VersionSize(version))
  }

  lemma {:induction false} PathLengthCounts(version: int, n: nat)
    requires IsVersion(version) && n <= Strips(version)
    ensures |Path(version, n)| == PathLength(version, n)
  {
    hide FreeRows, StripPart, StripColumn;
    if n != 0 {
      PathLengthCounts(version, n - 1);
      StripLength(version, n - 1, VersionSize(version));
      StripOfColumns(version, n - 1);
      FreeRowsCounts(version, 0, StripColumn(version, n - 1));
      FreeRowsCounts(version, 0, StripColumn(version, n - 1) - 1);
    }
  }

  /** Data modules per version: ISO/IEC 18004:2015, table 1. */
  function DataModules(version: int): nat
    requires IsVersion(version)
  {
    match version
    case 1 => 208
    case 2 => 359
    case 3 => 567
    case _ => 807
  }

  /** Free modules of a strip: four strips on the right, the strips between the finders, four on the left. */
  lemma StripTotals(version: int, k: int)
    requires IsVersion(version) && 0 <= k < Strips(version)
    ensures var size := VersionSize(version);
      StripTotal(version, k) ==
        if k < 2 then 2 * (size - 9)
        else if k < 4 then 2 * (size - 9) - (if version >= 2 then 10 else 0)
        else if k == 4 then 2 * (size - 1) - (if version >= 2 then 5 else 0)
        else if k < Strips(version) - 4 then 2 * (size - 1)
        else 2 * (size - 17)
  {}

  lemma {:induction false} EqualStrips(version: int, n: nat, m: nat, t: int)
    requires IsVersion(version) && n + m <= Strips(version)
    requires forall k :: n <= k < n + m ==> StripTotal(version, k) == t
    ensures PathLength(version, n + m) == PathLength(version, n) + m * t
  {
    hide StripTotal;
    if m != 0 {
      EqualStrips(version, n, m - 1, t);
      assert StripTotal(version, n + m - 1) == t;
      assert m * t == (m - 1) * t + t;
    }
  }

  lemma NoStripsYet(version: int)
    ensures PathLength(version, 0) == 0
  {}

  /** The zigzag has exactly the tabulated number of modules, enough for every codeword bit. */
  lemma ZigzagLength(version: int)
    requires IsVersion(version)
    ensures |Zigzag(version)| == DataModules(version)
    ensures 8 * Info(version).totalCW <= |Zigzag(version)| < 8 * Info(version).totalCW + 8
  {
    hide StripTotal, Path;
    NoStripsYet(version);
    hide PathLength;
    PathLengthCounts(version, Strips(version));
    var size := VersionSize(version);
    forall k | 0 <= k < Strips(version) ensures StripTotal(version, k) ==
        if k < 2 then 2 * (size - 9)
        else if k < 4 then 2 * (size - 9) - (if version >= 2 then 10 else 0)
        else if k == 4 then 2 * (size - 1) - (if version >= 2 then 5 else 0)
        else if k < Strips(version) - 4 then 2 * (size - 1)
        else 2 * (size - 17)
    {
      StripTotals(version, k);
    }
    EqualStrips(version, 0, 2, 2 * (size - 9));
    EqualStrips(version, 2, 2, 2 * (size - 9) - (if version >= 2 then 10 else 0));
    EqualStrips(version, 4, 1, 2 * (size - 1) - (if version >= 2 then 5 else 0));
    EqualStrips(version, 5, Strips(version) - 9, 2 * (size - 1));
    EqualStrips(version, Strips(version) - 4, 4, 2 * (size - 17));
  }
}
