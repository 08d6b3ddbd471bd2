/** Polynomials over GF(2^8), coefficients highest degree first, as services/auth-bridge/qr.ts keeps them. */
module Polynomials {
  import opened Gf256
  import opened GfTables

  type Poly = seq<Byte>

  function Zeros(n: nat): (z: Poly)
    ensures |z| == n && forall k :: 0 <= k < n ==> z[k] == 0
  {
    if n == 0 then [] else Zeros(n - 1) + [0]
  }

  /** Value at `x`, by Horner's rule. */
  function Eval(p: Poly, x: Byte): Byte {
    if |p| == 0 then 0 else Add(Mul(Eval(p[..|p| - 1], x), x), p[|p| - 1])
  }

  function Scale(s: Byte, p: Poly): (r: Poly)
    ensures |r| == |p| && forall k :: 0 <= k < |p| ==> r[k] == Mul(s, p[k])
  {
    if |p| == 0 then [] else Scale(s, p[..|p| - 1]) + [Mul(s, p[|p| - 1])]
  }

  function Sum(p: Poly, q: Poly): (r: Poly)
    requires |p| == |q|
    ensures |r| == |p| && forall k :: 0 <= k < |p| ==> r[k] == Add(p[k], q[k])
  {
    if |p| == 0 then [] else Sum(p[..|p| - 1], q[..|p| - 1]) + [Add(p[|p| - 1], q[|p| - 1])]
  }

  /** `m` with `q` added to the coefficients from index `i` on. */
  function AddAt(m: Poly, i: nat, q: Poly): Poly
    requires i + |q| <= |m|
  {
    Sum(m, Zeros(i) + q + Zeros(|m| - i - |q|))
  }

  function XPow(x: Byte, n: nat): Byte {
    if n == 0 then 1 else Mul(XPow(x, n - 1), x)
  }

  // ---------- evaluation ----------

  lemma EvalAppend(p: Poly, c: Byte, x: Byte)
    ensures Eval(p + [c], x) == Add(Mul(Eval(p, x), x), c)
  {
    hide Add, Mul;
    assert (p + [c])[..|p|] == p;
  }

  lemma {:induction false} EvalZeros(n: nat, x: Byte)
    ensures Eval(Zeros(n), x) == 0
  {
    if n != 0 {
      EvalZeros(n - 1, x);
      EvalAppend(Zeros(n - 1), 0, x);
      MulZero(0, x);
      XorZero(0);
    }
  }

  lemma {:induction false} EvalSum(p: Poly, q: Poly, x: Byte)
    requires |p| == |q|
    ensures Eval(Sum(p, q), x) == Add(Eval(p, x), Eval(q, x))
  {
    hide Xor, Mul;
    if |p| == 0 {
      XorZero(0);
    } else {
      var n := |p| - 1;
      EvalSum(p[..n], q[..n], x);
      EvalAppend(Sum(p[..n], q[..n]), Add(p[n], q[n]), x);
      MulAddLeft(Eval(p[..n], x), Eval(q[..n], x), x);
      Regroup(Mul(Eval(p[..n], x), x), Mul(Eval(q[..n], x), x), p[n], q[n]);
    }
  }

  lemma {:induction false} EvalScale(s: Byte, p: Poly, x: Byte)
    ensures Eval(Scale(s, p), x) == Mul(s, Eval(p, x))
  {
    hide Xor, Mul, Add;
    if |p| == 0 {
      MulZero(s, 0);
    } else {
      var n := |p| - 1;
      EvalScale(s, p[..n], x);
      EvalAppend(Scale(s, p[..n]), Mul(s, p[n]), x);
      MulAssociates(s, Eval(p[..n], x), x);
      MulAddRight(s, Mul(Eval(p[..n], x), x), p[n]);
    }
  }

  lemma {:induction false} EvalShift(p: Poly, n: nat, x: Byte)
    ensures Eval(p + Zeros(n), x) == Mul(Eval(p, x), XPow(x, n))
  {
    hide Xor, Mul;
    if n == 0 {
      assert p + Zeros(0) == p;
      MulCommutes(Eval(p, x), 1);
      MulOneLeft(Eval(p, x));
    } else {
      EvalShift(p, n - 1, x);
      assert p + Zeros(n) == (p + Zeros(n - 1)) + [0];
      EvalAppend(p + Zeros(n - 1), 0, x);
      XorZero(Mul(Eval(p + Zeros(n - 1), x), x));
      MulAssociates(Eval(p, x), XPow(x, n - 1), x);
    }
  }

  lemma {:induction false} EvalLeadingZeros(n: nat, p: Poly, x: Byte)
    ensures Eval(Zeros(n) + p, x) == Eval(p, x)
  {
    hide Xor, Mul, Add;
    if |p| == 0 {
      assert Zeros(n) + p == Zeros(n);
      EvalZeros(n, x);
    } else {
      var k := |p| - 1;
      EvalLeadingZeros(n, p[..k], x);
      assert Zeros(n) + p == (Zeros(n) + p[..k]) + [p[k]];
      EvalAppend(Zeros(n) + p[..k], p[k], x);
    }
  }

  lemma EvalAddAt(m: Poly, i: nat, q: Poly, x: Byte)
    requires i + |q| <= |m|
    ensures Eval(AddAt(m, i, q), x) == Add(Eval(m, x), Mul(Eval(q, x), XPow(x, |m| - i - |q|)))
  {
    hide Xor, Mul, Add, Eval, Sum, XPow, Zeros;
    var n := |m| - i - |q|;
    EvalSum(m, Zeros(i) + q + Zeros(n), x);
    EvalShift(Zeros(i) + q, n, x);
    EvalLeadingZeros(i, q, x);
  }

  lemma AddAtElements(m: Poly, i: nat, q: Poly)
    requires i + |q| <= |m|
    ensures |AddAt(m, i, q)| == |m|
    ensures forall k :: 0 <= k < i || i + |q| <= k < |m| ==> AddAt(m, i, q)[k] == m[k]
    ensures forall k :: i <= k < i + |q| ==> AddAt(m, i, q)[k] == Add(m[k], q[k - i])
  {
    hide Xor, Sum, Zeros;
    forall c: Byte ensures Add(c, 0) == c { XorZero(c); }
  }
}
