/** The field product against the textbook definition: multiply the two bytes as polynomials with
    coefficients in GF(2), and take the remainder modulo 0x11D. */
module GfModulus {
  import opened Gf256
  import opened GfTables

  /** Product of two bit polynomials, without any reduction. */
  function PolyProduct(a: nat, b: nat): nat
    decreases b
  {
    if b == 0 then 0 else Xor(if b % 2 == 1 then a else 0, PolyProduct(2 * a, b / 2))
  }

  /** `r` is `x` modulo 0x11D: a remainder below x^8, and x + r is a multiple of 0x11D. */
  ghost predicate IsRemainder(x: nat, r: nat) {
    r < 256 && exists q: nat :: Xor(x, r) == PolyProduct(GF_POLY, q)
  }

  lemma {:induction false} ProductXorLeft(a: nat, c: nat, b: nat)
    ensures PolyProduct(Xor(a, c), b) == Xor(PolyProduct(a, b), PolyProduct(c, b))
    decreases b
  {
    hide Xor;
    if b == 0 {
      XorZero(0);
    } else {
      XorDouble(a, c);
      ProductXorLeft(2 * a, 2 * c, b / 2);
      XorZero(0);
      Regroup(if b % 2 == 1 then a else 0, PolyProduct(2 * a, b / 2), if b % 2 == 1 then c else 0,
              PolyProduct(2 * c, b / 2));
    }
  }

  lemma ProductStep(a: nat, b: nat)
    ensures PolyProduct(a, b) == Xor(if b % 2 == 1 then a else 0, PolyProduct(2 * a, b / 2))
  {
    XorZero(0);
  }

  lemma XorHalves(b: nat, c: nat)
    ensures Xor(b, c) / 2 == Xor(b / 2, c / 2)
    ensures (Xor(b, c) % 2 == 1) == ((b % 2 == 1) != (c % 2 == 1))
  {}

  lemma {:induction false} ProductXorRight(a: nat, b: nat, c: nat)
    ensures PolyProduct(a, Xor(b, c)) == Xor(PolyProduct(a, b), PolyProduct(a, c))
    decreases b + c
  {
    hide Xor;
    if b == 0 && c == 0 {
      XorZero(0);
    } else {
      XorHalves(b, c);
      ProductXorRight(2 * a, b / 2, c / 2);
      hide PolyProduct;
      ProductStep(a, b);
      ProductStep(a, c);
      ProductStep(a, Xor(b, c));
      XorZero(a);
      XorZero(0);
      Regroup(if b % 2 == 1 then a else 0, PolyProduct(2 * a, b / 2), if c % 2 == 1 then a else 0,
              PolyProduct(2 * a, c / 2));
    }
  }

  /** The shift-and-reduce product differs from the plain product by a multiple of 0x11D. */
  lemma {:induction false} MulModulo(a: Byte, b: Byte) returns (q: nat)
    ensures Xor(PolyProduct(a, b), Mul(a, b)) == PolyProduct(GF_POLY, q)
    decreases b
  {
    hide Xor;
    XorZero(0);
    if b == 0 {
      q := 0;
    } else {
      var h := b / 2;
      var rest := MulModulo(Xtime(a), h);
      var over := if a < 128 then 0 else h;
      q := Xor(over, rest);
      ProductStep(a, b);
      MulStep(a, b);
      ReduceShift(a, h);
      hide PolyProduct, Mul, Xtime, Gate;
      ProductXorRight(GF_POLY, over, rest);
      var g: nat := Gate(a, b % 2 == 1);
      SameGate(a, b);
      Regroup(g, PolyProduct(2 * a, h), g, Mul(Xtime(a), h));
      XorZero(g);
      XorZero(Xor(PolyProduct(2 * a, h), Mul(Xtime(a), h)));
      ChainDifference(PolyProduct(2 * a, h), PolyProduct(Xtime(a), h), Mul(Xtime(a), h));
    }
  }

  lemma SameGate(a: Byte, b: Byte)
    ensures Gate(a, b % 2 == 1) == if b % 2 == 1 then a else 0
  {}

  lemma ChainDifference(x: nat, y: nat, z: nat)
    ensures Xor(x, z) == Xor(Xor(x, y), Xor(y, z))
  {
    hide Xor;
    XorAssociates(Xor(x, y), y, z);
    XorCancels(x, y);
  }

  // One shift-and-reduce step changes a product with h by 0 or by 0x11D times h.
  lemma ReduceShift(a: Byte, h: nat)
    ensures Xor(PolyProduct(2 * a, h), PolyProduct(Xtime(a), h)) == PolyProduct(GF_POLY, if a < 128 then 0 else h)
  {
    hide PolyProduct, Xor;
    ProductXorLeft(2 * a, Xtime(a), h);
    XorZero(2 * a);
    if a >= 128 {
      XorCommutes(2 * a, GF_POLY);
      XorAssociates(2 * a, 2 * a, GF_POLY);
      XorZero(GF_POLY);
    } else {
      ZeroTimes(h);
      ZeroTimes(GF_POLY);
    }
  }

  lemma {:induction false} ZeroTimes(h: nat)
    ensures PolyProduct(0, h) == 0 && PolyProduct(h, 0) == 0
    decreases h
  {
    if h != 0 {
      ZeroTimes(h / 2);
      XorZero(0);
    }
  }

  /** The table lookup computes the product of two bytes modulo 0x11D. */
  lemma GfMulIsProductModulo(a: Byte, b: Byte)
    ensures IsRemainder(PolyProduct(a, b), GfMul(a, b))
  {
    hide GfMul, Mul, PolyProduct, Xor;
    GfMulIsProduct(a, b);
    var q := MulModulo(a, b);
  }

  // ---------- there is only one remainder ----------

  lemma {:induction false} XorAbove(x: nat, y: nat, k: nat)
    requires x < Power2(k) <= y
    ensures Xor(x, y) >= Power2(k)
    decreases k
  {
    if k > 0 {
      XorAbove(x / 2, y / 2, k - 1);
    } else {
      XorZero(y);
    }
  }

  // Multiplying by a nonzero polynomial does not lower the leading digit.
  lemma {:induction false} ProductKeepsDegree(a: nat, q: nat, k: nat)
    requires q != 0 && Power2(k) <= a < Power2(k + 1)
    ensures PolyProduct(a, q) >= Power2(k)
    decreases q
  {
    hide Xor;
    if q / 2 != 0 {
      ProductKeepsDegree(2 * a, q / 2, k + 1);
      XorAbove(if q % 2 == 1 then a else 0, PolyProduct(2 * a, q / 2), k + 1);
    } else {
      XorZero(a);
      ZeroTimes(2 * a);
    }
  }

  lemma RemainderIsUnique(x: nat, r: nat, r': nat)
    requires IsRemainder(x, r) && IsRemainder(x, r')
    ensures r == r'
  {
    hide Xor, PolyProduct;
    var q: nat :| Xor(x, r) == PolyProduct(GF_POLY, q);
    var q': nat :| Xor(x, r') == PolyProduct(GF_POLY, q');
    ProductXorRight(GF_POLY, q, q');
    XorCommutes(x, r);
    ChainDifference(r, x, r');
    XorByte(r, r');
    XorCancels(r, r');
    assert Power2(8) == 256 && Power2(9) == 512;
    if Xor(q, q') != 0 {
      ProductKeepsDegree(GF_POLY, Xor(q, q'), 8);
    }
    ZeroTimes(GF_POLY);
  }
}
