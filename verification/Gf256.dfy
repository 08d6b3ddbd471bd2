/** The field GF(2^8) that the Reed-Solomon code of services/auth-bridge/qr.ts works in:
    exclusive or on naturals, the shift-and-add reference multiplication modulo
    x^8 + x^4 + x^3 + x^2 + 1 (0x11D), and the powers of the generator. */
module Gf256 {

  type Byte = b: int | 0 <= b < 256

  const GF_POLY: nat := 0x11D

  /** Bitwise exclusive or. */
  function Xor(a: nat, b: nat): nat
    decreases a + b
  {
    if a == 0 && b == 0 then 0 else (if a % 2 == b % 2 then 0 else 1) + 2 * Xor(a / 2, b / 2)
  }

  function Power2(k: nat): nat {
    if k == 0 then 1 else 2 * Power2(k - 1)
  }

  // ---------- exclusive or is an elementary abelian group ----------

  lemma {:induction false} XorCommutes(a: nat, b: nat)
    ensures Xor(a, b) == Xor(b, a)
    decreases a + b
  {
    if a != 0 || b != 0 {
      XorCommutes(a / 2, b / 2);
    }
  }

  lemma {:induction false} XorAssociates(a: nat, b: nat, c: nat)
    ensures Xor(Xor(a, b), c) == Xor(a, Xor(b, c))
    decreases a + b + c
  {
    if a != 0 || b != 0 || c != 0 {
      XorAssociates(a / 2, b / 2, c / 2);
      assert Xor(a, b) / 2 == Xor(a / 2, b / 2);
      assert Xor(b, c) / 2 == Xor(b / 2, c / 2);
    }
  }

  lemma {:induction false} XorZero(a: nat)
    ensures Xor(a, 0) == a && Xor(0, a) == a && Xor(a, a) == 0
    decreases a
  {
    if a != 0 {
      XorZero(a / 2);
    }
  }

  lemma XorCancels(a: nat, b: nat)
    ensures Xor(Xor(a, b), b) == a
    ensures Xor(a, b) == 0 <==> a == b
  {
    XorAssociates(a, b, b);
    XorZero(a);
    XorZero(b);
  }

  /** Regrouping two sums into the sum of their parts. */
  lemma Regroup(a: nat, b: nat, c: nat, d: nat)
    ensures Xor(Xor(a, b), Xor(c, d)) == Xor(Xor(a, c), Xor(b, d))
  {
    hide Xor;
    calc {
      Xor(Xor(a, b), Xor(c, d));
      { XorAssociates(a, b, Xor(c, d)); XorAssociates(b, c, d); }
      Xor(a, Xor(Xor(b, c), d));
      { XorCommutes(b, c); XorAssociates(c, b, d); XorAssociates(a, c, Xor(b, d)); }
      Xor(Xor(a, c), Xor(b, d));
    }
  }

  /** Below 2^(k+1), the top digits add without carry and the rest stays below 2^k. */
  lemma {:induction false} XorTop(a: nat, b: nat, k: nat)
    requires a < 2 * Power2(k) && b < 2 * Power2(k)
    ensures Xor(a, b) < 2 * Power2(k)
    ensures Xor(a, b) < Power2(k) <==> (a < Power2(k) <==> b < Power2(k))
    decreases k
  {
    if a != 0 || b != 0 {
      if k > 0 {
        XorTop(a / 2, b / 2, k - 1);
      }
    }
  }

  lemma XorByte(a: Byte, b: Byte)
    ensures Xor(a, b) < 256
    ensures Xor(a, b) < 128 <==> (a < 128 <==> b < 128)
  {
    assert Power2(7) == 128;
    XorTop(a, b, 7);
  }

  /** Addition (and subtraction) in the field. */
  function Add(a: Byte, b: Byte): Byte {
    XorByte(a, b);
    Xor(a, b)
  }

  /** Multiplication by x: shift, and subtract 0x11D when the result overflows a byte. */
  function Xtime(a: Byte): Byte {
    if a < 128 then 2 * a else XtimeFits(a); Xor(2 * a, GF_POLY)
  }

  lemma XtimeFits(a: Byte)
    requires a >= 128
    ensures Xor(2 * a, GF_POLY) < 256
  {
    assert Power2(8) == 256;
    XorTop(2 * a, GF_POLY, 8);
  }

  function Gate(a: Byte, on: bool): Byte {
    if on then a else 0
  }

  /** Reference product: shift-and-add over the digits of `b`. */
  function Mul(a: Byte, b: Byte): Byte
    decreases b
  {
    if b == 0 then 0 else Add(Gate(a, b % 2 == 1), Mul(Xtime(a), b / 2))
  }

  /** The powers of the generator x. */
  function Pow(i: nat): Byte {
    if i == 0 then 1 else Xtime(Pow(i - 1))
  }

  // ---------- the product is bilinear ----------

  lemma XorDouble(a: nat, b: nat)
    ensures Xor(2 * a, 2 * b) == 2 * Xor(a, b)
  {}

  lemma XtimeAdd(a: Byte, b: Byte)
    ensures Xtime(Add(a, b)) == Add(Xtime(a), Xtime(b))
  {
    hide Xor;
    XorByte(a, b);
    XorDouble(a, b);
    if a < 128 && b >= 128 {
      XorAssociates(2 * a, 2 * b, GF_POLY);
    } else if a >= 128 && b < 128 {
      XorAssociates(2 * a, 2 * b, GF_POLY);
      XorCommutes(2 * b, GF_POLY);
      XorAssociates(2 * a, GF_POLY, 2 * b);
    } else if a >= 128 && b >= 128 {
      Regroup(2 * a, GF_POLY, 2 * b, GF_POLY);
      XorZero(GF_POLY);
      XorZero(Xor(2 * a, 2 * b));
    }
  }

  lemma {:induction false} MulZero(a: Byte, b: Byte)
    requires a == 0 || b == 0
    ensures Mul(a, b) == 0
    decreases b
  {
    if b != 0 {
      MulZero(0, b / 2);
    }
  }

  lemma GateAdd(a: Byte, b: Byte, p: bool, q: bool)
    ensures Gate(Add(a, b), p) == Add(Gate(a, p), Gate(b, p))
    ensures Gate(a, p != q) == Add(Gate(a, p), Gate(a, q))
  {
    XorZero(a);
    XorZero(0);
  }

  lemma {:induction false} MulAddLeft(a: Byte, c: Byte, b: Byte)
    ensures Mul(Add(a, c), b) == Add(Mul(a, b), Mul(c, b))
    decreases b
  {
    hide Xor, Xtime, Gate;
    if b == 0 {
      XorZero(0);
    } else {
      var p := b % 2 == 1;
      XtimeAdd(a, c);
      MulAddLeft(Xtime(a), Xtime(c), b / 2);
      GateAdd(a, c, p, p);
      Regroup(Gate(a, p), Mul(Xtime(a), b / 2), Gate(c, p), Mul(Xtime(c), b / 2));
    }
  }

  lemma {:induction false} MulAddRight(a: Byte, b: Byte, c: Byte)
    ensures Mul(a, Add(b, c)) == Add(Mul(a, b), Mul(a, c))
    decreases b + c
  {
    MulStep(a, b);
    MulStep(a, c);
    MulStep(a, Add(b, c));
    if b == 0 && c == 0 {
      MulZero(a, 0);
    } else {
      assert Add(b, c) / 2 == Add(b / 2, c / 2);
      assert (Add(b, c) % 2 == 1) == ((b % 2 == 1) != (c % 2 == 1));
      MulAddRight(Xtime(a), b / 2, c / 2);
      MulAddRightStep(a, b, c);
    }
  }

  // The recursion equation of Mul, also at zero.
  lemma MulStep(a: Byte, b: Byte)
    ensures Mul(a, b) == Add(Gate(a, b % 2 == 1), Mul(Xtime(a), b / 2))
  {
    XorZero(0);
    MulZero(Xtime(a), 0);
  }

  lemma MulAddRightStep(a: Byte, b: Byte, c: Byte)
    requires Add(b, c) / 2 == Add(b / 2, c / 2)
    requires (Add(b, c) % 2 == 1) == ((b % 2 == 1) != (c % 2 == 1))
    requires Mul(Xtime(a), Add(b / 2, c / 2)) == Add(Mul(Xtime(a), b / 2), Mul(Xtime(a), c / 2))
    ensures Mul(a, Add(b, c)) == Add(Mul(a, b), Mul(a, c))
  {
    hide Xor, Xtime, Gate, Mul;
    MulStep(a, b);
    MulStep(a, c);
    MulStep(a, Add(b, c));
    GateAdd(a, a, b % 2 == 1, c % 2 == 1);
    Regroup(Gate(a, b % 2 == 1), Mul(Xtime(a), b / 2), Gate(a, c % 2 == 1), Mul(Xtime(a), c / 2));
  }

  lemma {:induction false} MulXtime(a: Byte, b: Byte)
    ensures Mul(Xtime(a), b) == Xtime(Mul(a, b))
    decreases b
  {
    hide Xor;
    if b != 0 {
      MulXtime(Xtime(a), b / 2);
      XtimeAdd(Gate(a, b % 2 == 1), Mul(Xtime(a), b / 2));
    }
  }

  // ---------- one is the unit, and powers add ----------

  lemma {:induction false} MulOneLeft(b: Byte)
    ensures Mul(1, b) == b
    decreases b
  {
    if b != 0 {
      var h := b / 2;
      MulOneLeft(h);
      MulXtime(1, h);
      MulStep(1, b);
      XorSplit(b);
    }
  }

  lemma XorSplit(b: nat)
    ensures Xor(b % 2, 2 * (b / 2)) == b
  {
    XorZero(b / 2);
  }

  lemma {:induction false} PowAdd(i: nat, j: nat)
    ensures Mul(Pow(i), Pow(j)) == Pow(i + j)
  {
    hide Xor, Xtime;
    if i == 0 {
      MulOneLeft(Pow(j));
    } else {
      PowAdd(i - 1, j);
      MulXtime(Pow(i - 1), Pow(j));
    }
  }

  lemma {:induction false} PowNonzero(i: nat)
    ensures Pow(i) != 0
  {
    if i != 0 {
      PowNonzero(i - 1);
      XtimeNonzero(Pow(i - 1));
    }
  }

  lemma XtimeNonzero(a: Byte)
    requires a != 0
    ensures Xtime(a) != 0
  {
    if a >= 128 {
      XorCancels(2 * a, GF_POLY);
    }
  }

  lemma XtimeInjective(a: Byte, b: Byte)
    requires Xtime(a) == Xtime(b)
    ensures a == b
  {
    hide Xor;
    XtimeAdd(a, b);
    XorCancels(a, b);
    XorCancels(Xtime(a), Xtime(b));
    if Add(a, b) != 0 {
      XtimeNonzero(Add(a, b));
    }
  }
}
