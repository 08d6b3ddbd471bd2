/** What the symbol has to look like by ISO/IEC 18004:2015, said independently of how it is built: masks, format words,
    function patterns. */
module QrStandard {
  import opened Wrappers
  import opened Gf256
  import opened QrVersions
  import opened QrEncoding
  import opened QrLayout
  import opened QrReserved
  import opened QrMatrix
  import opened QrCode

  // ---------- masks ----------

  /** Masks 0 to 3: a chessboard, rows, every third column, and every third diagonal. */
  lemma SimpleMasks(r: nat, c: nat)
    ensures Mask(0, 0, 0) && (Mask(0, r + 1, c) <==> !Mask(0, r, c)) && (Mask(0, r, c + 1) <==> !Mask(0, r, c))
    ensures Mask(1, 0, c) && (Mask(1, r + 1, c) <==> !Mask(1, r, c))
    ensures Mask(2, r, 3 * c) && !Mask(2, r, 3 * c + 1) && !Mask(2, r, 3 * c + 2)
    ensures Mask(3, r, c) <==> Mask(2, 0, r + c)
  {
    NextIsOther(r + c);
    NextIsOther(r);
    Residue(3, c, 0);
    Residue(3, c, 1);
    Residue(3, c, 2);
  }

  lemma NextIsOther(x: nat)
    ensures (x + 1) % 2 == 0 <==> x % 2 != 0
  {}

  /** Mask 4 is the chessboard with fields two rows high and three columns wide. */
  lemma BlockMask(r: nat, c: nat, i: nat, j: nat)
    requires i < 2 && j < 3
    ensures Mask(4, 2 * r + i, 3 * c + j) <==> Mask(0, r, c)
  {
    assert (2 * r + i) / 2 == r && (3 * c + j) / 3 == c;
  }

  /** Masks 5 to 7 by the product of row and column modulo 6 and 3. */
  lemma ProductMasks(r: nat, c: nat)
    ensures Mask(5, r, c) <==> (r * c) % 6 == 0
    ensures Mask(6, r, c) <==> (r * c) % 6 < 3
    ensures Mask(7, r, c) <==> (Mask(0, r, c) <==> (r * c) % 3 != 1)
  {
    SixResidues(r * c);
  }

  lemma SixResidues(x: nat)
    ensures x % 2 + x % 3 == 0 <==> x % 6 == 0
    ensures (x % 2 + x % 3) % 2 == 0 <==> x % 6 < 3
  {
    var q, r := x / 6, x % 6;
    Residue(2, 3 * q, r);
    Residue(3, 2 * q, r);
    assert x == 2 * (3 * q) + r && x == 3 * (2 * q) + r;
  }

  lemma Residue(m: nat, q: nat, r: nat)
    requires m == 2 || m == 3
    ensures (m * q + r) % m == r % m
  {}

  // ---------- format words ----------

  /** The multiple of the generator x^10 + x^8 + x^5 + x^4 + x^2 + x + 1 by a polynomial of degree below 5. */
  function Multiple(q: bv16): bv16 {
    Term(q & 1, 0x537) ^ Term(q & 2, 0xA6E) ^ Term(q & 4, 0x14DC) ^ Term(q & 8, 0x29B8) ^ Term(q & 16, 0x5370)
  }

  /** The shifted generator, if the quotient has the term. */
  function Term(digit: bv16, shifted: bv16): bv16 {
    if digit != 0 then shifted else 0
  }

  /** The word, as bits, is the BCH(15,5) codeword with the level bits 00 and the mask number in front, under the mask
      101010000010010. */
  ghost predicate IsFormatWord(word: nat, bits: bv16, mask: int) {
    bits as int == word && exists q :: bits ^ 0x5412 == Multiple(q) && (Multiple(q) >> 10) as int == mask
  }

  function WordBits(k: int): bv16 {
    match k
    case 0 => 0x5412 case 1 => 0x5125 case 2 => 0x5e7c case 3 => 0x5b4b
    case 4 => 0x45f9 case 5 => 0x40ce case 6 => 0x4f97 case _ => 0x4aa0
  }

  function QuotientOf(k: int): bv16 {
    match k
    case 0 => 0 case 1 => 1 case 2 => 2 case 3 => 3
    case 4 => 5 case 5 => 4 case 6 => 7 case _ => 6
  }

  ghost predicate WordOf(k: int, bits: bv16, q: bv16) {
    bits as int == FormatWord(k) && bits ^ 0x5412 == Multiple(q) && (Multiple(q) >> 10) as int == k
  }

  lemma LowerWords()
    ensures WordOf(0, 0x5412, 0) && WordOf(1, 0x5125, 1) && WordOf(2, 0x5e7c, 2) && WordOf(3, 0x5b4b, 3)
  {}

  lemma UpperWords()
    ensures WordOf(4, 0x45f9, 5) && WordOf(5, 0x40ce, 4) && WordOf(6, 0x4f97, 7) && WordOf(7, 0x4aa0, 6)
  {}

  lemma WordIsMultiple(k: int)
    requires 0 <= k < 8
    ensures WordOf(k, WordBits(k), QuotientOf(k))
  {
    LowerWords();
    UpperWords();
    hide WordOf;
  }

  /** The tabulated words are the codewords the standard prescribes. */
  lemma FormatWordsAreBch(k: int)
    requires 0 <= k < 8
    ensures IsFormatWord(FormatWord(k), WordBits(k), k)
  {
    WordIsMultiple(k);
    hide Multiple, FormatWord, QuotientOf, WordBits;
  }

  /** The number of ones. */
  function Ones(x: bv16): nat {
    One(x & 1) + One(x & 2) + One(x & 4) + One(x & 8) + One(x & 16) + One(x & 32) + One(x & 64) + One(x & 128)
    + One(x & 0x100) + One(x & 0x200) + One(x & 0x400) + One(x & 0x800) + One(x & 0x1000) + One(x & 0x2000)
    + One(x & 0x4000) + One(x & 0x8000)
  }

  function One(x: bv16): nat {
    if x == 0 then 0 else 1
  }

  /** The seven sums of two different words. */
  predicate IsDifference(x: bv16) {
    x == 0x0537 || x == 0x0A6E || x == 0x0F59 || x == 0x11EB || x == 0x14DC || x == 0x1B85 || x == 0x1EB2
  }

  lemma Weights(x: bv16)
    requires IsDifference(x)
    ensures Ones(x) >= 7
  {}

  /** The words of two masks differ in at least seven of the fifteen bits: three wrong bits can be corrected. */
  lemma FormatWordsApart(k: int, l: int)
    requires 0 <= k < 8 && 0 <= l < 8 && k != l
    ensures Ones(WordBits(k) ^ WordBits(l)) >= 7
  {
    hide Ones;
    var word, other := WordBits(k), WordBits(l);
    assert IsDifference(word ^ other);
    Weights(word ^ other);
  }

  /** Where the fifteen bits are: around the top left finder, and split between the other two. */
  function FirstCopy(i: nat): Cell
    requires i < 15
  {
    if i < 6 then (8, i) else if i < 8 then (8, i + 1) else if i == 8 then (7, 8) else (14 - i, 8)
  }

  function SecondCopy(size: int, i: nat): Cell
    requires i < 15
  {
    if i < 8 then (size - 1 - i, 8) else (8, size - 15 + i)
  }

  /** Both copies of a finished symbol hold the word of its mask, bit 14 first. */
  lemma FormatModules(m: array2<bool>, version: int, message: seq<Byte>, k: int, i: nat)
    requires IsVersion(version) && IsSymbol(m, version, message, k) && i < 15
    ensures var size := VersionSize(version); var p, q := FirstCopy(i), SecondCopy(size, i);
      && InSymbol(size, p.0, p.1) && InSymbol(size, q.0, q.1)
      && (Power2Positive(14 - i);
          (m[p.0, p.1] <==> (FormatWord(k) / Power2(14 - i)) % 2 == 1)
          && (m[q.0, q.1] <==> (FormatWord(k) / Power2(14 - i)) % 2 == 1))
  {
    hide Zigzag, AllBits, Mask, Pattern, FunctionModule, FormatWord, Power2;
    var size := VersionSize(version);
    var p, q := FirstCopy(i), SecondCopy(size, i);
    assert FormatIndex(size, p.0, p.1) == Some(i) && FormatIndex(size, q.0, q.1) == Some(i);
  }

  // ---------- function patterns ----------

  function Abs(x: int): nat {
    if x < 0 then -x else x
  }

  /** The number of the square around the centre that the module is on. */
  function RingOf(r: int, c: int, centreRow: int, centreColumn: int): nat {
    if Abs(r - centreRow) > Abs(c - centreColumn) then Abs(r - centreRow) else Abs(c - centreColumn)
  }

  /** The square around the nearest of the three finder centres. */
  function FinderSquare(size: int, r: int, c: int): nat {
    var a, b, d := RingOf(r, c, 3, 3), RingOf(r, c, 3, size - 4), RingOf(r, c, size - 4, 3);
    if a <= b && a <= d then a else if b <= d then b else d
  }

  lemma BoxSquares(r: int, c: int, row: int, col: int)
    ensures FinderBox(r, c, row, col) <==> RingOf(r, c, row + 3, col + 3) <= 4
    ensures FinderBox(r, c, row, col) ==>
              (FinderDark(r - row, c - col) <==>
                 RingOf(r, c, row + 3, col + 3) != 2 && RingOf(r, c, row + 3, col + 3) != 4)
  {}

  lemma FinderSquares(size: int, r: int, c: int)
    requires size >= 21 && InSymbol(size, r, c)
    ensures var ring := FinderSquare(size, r, c);
      FinderPattern(size, r, c) == if ring <= 4 then Some(ring != 2 && ring != 4) else None
  {
    BoxSquares(r, c, 0, 0);
    BoxSquares(r, c, 0, size - 7);
    BoxSquares(r, c, size - 7, 0);
    OneFinder(size, r, c);
    hide FinderDark, FinderBox, RingOf;
  }

  /** No module is near two finders. */
  lemma OneFinder(size: int, r: int, c: int)
    requires size >= 21
    ensures RingOf(r, c, 3, 3) > 4 || (RingOf(r, c, 3, size - 4) > 4 && RingOf(r, c, size - 4, 3) > 4)
    ensures RingOf(r, c, 3, size - 4) > 4 || RingOf(r, c, size - 4, 3) > 4
  {}

  lemma AlignmentSquares(version: int, r: int, c: int)
    requires IsVersion(version)
    ensures var size := VersionSize(version); var ring := RingOf(r, c, size - 7, size - 7);
      && (AlignmentModule(version, r, c) <==> version >= 2 && ring <= 2)
      && (ring <= 2 ==> (AlignmentDark(r - (size - 7), c - (size - 7)) <==> ring != 1))
      && (version >= 2 && ring <= 2 ==> FinderSquare(size, r, c) > 4)
  {}

  lemma DarkModule(version: int)
    requires IsVersion(version)
    ensures var size := VersionSize(version);
      FinderSquare(size, size - 8, 8) > 4 && RingOf(size - 8, 8, size - 7, size - 7) > 2 && size - 8 != 6
  {}

  lemma LineColours(size: int, r: int, c: int)
    requires size >= 21 && InSymbol(size, r, c)
    ensures var finder := FinderSquare(size, r, c);
      LinePattern(size, r, c) ==
        if finder <= 4 then Some(finder != 2 && finder != 4)
        else if r == 6 || c == 6 then Some((r + c) % 2 == 0)
        else None
  {
    FinderSquares(size, r, c);
    hide FinderPattern, FinderSquare, InSymbol;
  }

  /** A finder is a dark centre of squares 0 and 1, a light square 2, a dark square 3 and a light separator 4; an
      alignment pattern is dark but for its square 1; the timing patterns alternate; one more module is always dark. */
  lemma PatternColours(version: int, r: int, c: int)
    requires IsVersion(version) && InSymbol(VersionSize(version), r, c)
    ensures var size := VersionSize(version);
      var finder, alignment := FinderSquare(size, r, c), RingOf(r, c, size - 7, size - 7);
      Pattern(version, r, c) ==
        if finder <= 4 then Some(finder != 2 && finder != 4)
        else if version >= 2 && alignment <= 2 then Some(alignment != 1)
        else if r == 6 || c == 6 then Some((r + c) % 2 == 0)
        else if r == size - 8 && c == 8 then Some(true)
        else None
  {
    LineColours(VersionSize(version), r, c);
    AlignmentSquares(version, r, c);
    DarkModule(version);
    hide LinePattern, AlignmentModule, AlignmentDark, FinderSquare, RingOf, InSymbol;
  }
}
