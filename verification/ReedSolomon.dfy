/** Reed-Solomon encoding by polynomial long division in place, and the proof that every codeword
    data ++ parity is a multiple of the generator polynomial. */
module ReedSolomon {
  import opened Gf256
  import opened GfOrder
  import opened GfTables
  import opened Polynomials

  // ---------- product of two polynomials ----------

  /** The product of the first `i` coefficients of `a` with `b`, at the weights they have in `a`. */
  function PartialProduct(a: Poly, b: Poly, i: nat): (r: Poly)
    requires |a| + |b| >= 1 && i <= |a|
    ensures |r| == |a| + |b| - 1
  {
    if i == 0 then Zeros(|a| + |b| - 1) else AddAt(PartialProduct(a, b, i - 1), i - 1, Scale(a[i - 1], b))
  }

  function Product(a: Poly, b: Poly): Poly
    requires |a| + |b| >= 1
  {
    PartialProduct(a, b, |a|)
  }

  /** Multiplies two polynomials, accumulating into the result array. */
  method PolyMul(a: Poly, b: Poly) returns (product: Poly)
    requires |a| + |b| >= 1
    ensures product == Product(a, b)
  {
    hide Xor, Mul, GfMul, Zeros, Sum, Scale, PartialProduct;
    var result := new Byte[|a| + |b| - 1](_ => 0);
    StartProduct(a, b, result[..]);
    for i := 0 to |a|
      invariant result.Length == |a| + |b| - 1
      invariant result[..] == PartialProduct(a, b, i)
    {
      ghost var before := result[..];
      for j := 0 to |b|
        invariant result.Length == |a| + |b| - 1
        invariant forall k :: i <= k < i + j ==> result[k] == Add(before[k], Mul(a[i], b[k - i]))
        invariant forall k :: 0 <= k < i || i + j <= k < |before| ==> result[k] == before[k]
      {
        GfMulIsProduct(a[i], b[j]);
        result[i + j] := Add(result[i + j], GfMul(a[i], b[j]));
      }
      AddAtElements(before, i, Scale(a[i], b));
      assert result[..] == AddAt(before, i, Scale(a[i], b));
      ProductRow(a, b, i);
    }
    product := result[..];
  }

  lemma StartProduct(a: Poly, b: Poly, r: Poly)
    requires |a| + |b| >= 1 && |r| == |a| + |b| - 1 && forall k :: 0 <= k < |r| ==> r[k] == 0
    ensures r == PartialProduct(a, b, 0)
  {}

  lemma ProductRow(a: Poly, b: Poly, i: nat)
    requires i < |a|
    ensures PartialProduct(a, b, i + 1) == AddAt(PartialProduct(a, b, i), i, Scale(a[i], b))
  {}

  lemma {:induction false} EvalPartialProduct(a: Poly, b: Poly, i: nat, x: Byte)
    requires |a| + |b| >= 1 && i <= |a|
    ensures Eval(PartialProduct(a, b, i), x) == Mul(Mul(Eval(a[..i], x), Eval(b, x)), XPow(x, |a| - i))
  {
    hide Xor, Mul, Scale, Sum, Zeros, AddAt;
    if i == 0 {
      EvalZeros(|a| + |b| - 1, x);
      MulZero(0, Eval(b, x));
      MulZero(0, XPow(x, |a|));
    } else {
      var rest := Eval(a[..i - 1], x);
      var v := Eval(b, x);
      var w := XPow(x, |a| - i);
      EvalPartialProduct(a, b, i - 1, x);
      EvalAddAt(PartialProduct(a, b, i - 1), i - 1, Scale(a[i - 1], b), x);
      EvalScale(a[i - 1], b, x);
      assert a[..i] == a[..i - 1] + [a[i - 1]];
      EvalAppend(a[..i - 1], a[i - 1], x);
      EvalRow(rest, a[i - 1], v, w, x);
    }
  }

  // rest * v * (w * x) + c * v * w == (rest * x + c) * v * w
  lemma EvalRow(rest: Byte, c: Byte, v: Byte, w: Byte, x: Byte)
    ensures Add(Mul(Mul(rest, v), Mul(w, x)), Mul(Mul(c, v), w)) == Mul(Mul(Add(Mul(rest, x), c), v), w)
  {
    hide Xor, Mul, Add;
    calc {
      Mul(Mul(rest, v), Mul(w, x));
      { MulCommutes(w, x); MulAssociates(Mul(rest, v), x, w); }
      Mul(Mul(Mul(rest, v), x), w);
      { MulAssociates(rest, v, x); MulCommutes(v, x); MulAssociates(rest, x, v); }
      Mul(Mul(Mul(rest, x), v), w);
    }
    MulAddLeft(Mul(rest, x), c, v);
    MulAddLeft(Mul(Mul(rest, x), v), Mul(c, v), w);
  }

  /** The product polynomial takes the product of the values, at every point. */
  lemma EvalProduct(a: Poly, b: Poly, x: Byte)
    requires |a| + |b| >= 1
    ensures Eval(Product(a, b), x) == Mul(Eval(a, x), Eval(b, x))
  {
    hide Xor, Mul;
    EvalPartialProduct(a, b, |a|, x);
    assert a[..|a|] == a;
    MulCommutes(Mul(Eval(a, x), Eval(b, x)), 1);
    MulOneLeft(Mul(Eval(a, x), Eval(b, x)));
  }

  // ---------- the generator polynomial ----------

  /** The product of (x - Pow(i)) for i below `n`. */
  function Generator(n: nat): (g: Poly)
    ensures |g| == n + 1
  {
    if n == 0 then [1] else Product(Generator(n - 1), [1, ExpTable()[(n - 1) % 256]])
  }

  lemma NoFactors()
    ensures Generator(0) == [1]
  {}

  lemma NextFactor(i: nat)
    ensures Generator(i + 1) == Product(Generator(i), [1, ExpTable()[i % 256]])
  {
    hide Product, ExpTable;
  }

  lemma SmallIndex(i: nat)
    requires i < 256
    ensures i % 256 == i
  {}

  lemma {:induction false} PartialProductLead(a: Poly, b: Poly, i: nat)
    requires |a| >= 1 && |b| >= 1 && 1 <= i <= |a| && a[0] == 1
    ensures PartialProduct(a, b, i)[0] == b[0]
  {
    hide Xor, Mul, Sum, AddAt;
    AddAtElements(PartialProduct(a, b, i - 1), i - 1, Scale(a[i - 1], b));
    if i == 1 {
      MulOneLeft(b[0]);
      XorZero(b[0]);
    } else {
      PartialProductLead(a, b, i - 1);
    }
  }

  lemma {:induction false} GeneratorMonic(n: nat)
    ensures Generator(n)[0] == 1
  {
    hide ExpTable, PartialProduct, Generator;
    if n != 0 {
      GeneratorMonic(n - 1);
      NextFactor(n - 1);
      PartialProductLead(Generator(n - 1), [1, ExpTable()[(n - 1) % 256]], n);
    } else {
      NoFactors();
    }
  }

  lemma EvalLinear(r: Byte, x: Byte)
    ensures Eval([1, r], x) == Add(x, r)
  {
    hide Xor, Mul;
    EvalAppend([], 1, x);
    EvalAppend([1], r, x);
    assert [] + [1] == [1 as Byte] && [1] + [r] == [1, r];
    MulZero(0, x);
    XorZero(1);
    MulOneLeft(x);
  }

  lemma {:induction false} GeneratorRoots(n: nat, k: nat)
    requires k < n <= 256
    ensures Eval(Generator(n), Pow(k)) == 0
  {
    hide Xor, Mul, Pow, Product, Eval;
    var r := ExpTable()[(n - 1) % 256];
    var x := Pow(k);
    EvalProduct(Generator(n - 1), [1, r], x);
    if k == n - 1 {
      EvalLinear(r, x);
      PowPeriodic(k);
      XorZero(x);
      MulZero(Eval(Generator(n - 1), x), 0);
    } else {
      GeneratorRoots(n - 1, k);
      MulZero(0, Eval([1, r], x));
    }
  }

  // ---------- long division ----------

  /** One step of the division: clears coefficient `i`. */
  function DivideStep(m: Poly, g: Poly, i: nat): Poly
    requires i + |g| <= |m| && |g| >= 1
  {
    if m[i] == 0 then m else AddAt(m, i, Scale(m[i], g))
  }

  function Divide(m: Poly, g: Poly, n: nat): (r: Poly)
    requires |g| >= 1 && n + |g| <= |m| + 1
    ensures |r| == |m|
  {
    if n == 0 then m else DivideStep(Divide(m, g, n - 1), g, n - 1)
  }

  /** The parity part of the codeword of `data`. */
  function Parity(data: Poly, ecCount: nat): (r: Poly)
    ensures |r| == ecCount
  {
    Divide(data + Zeros(ecCount), Generator(ecCount), |data|)[|data|..]
  }

  /** The codeword: the data followed by its parity. */
  function Codeword(data: Poly, ecCount: nat): Poly {
    data + Parity(data, ecCount)
  }

  /** Builds the generator one linear factor at a time. */
  method BuildGenerator(ecCount: nat) returns (gen: Poly)
    requires ecCount <= 256
    ensures gen == Generator(ecCount)
  {
    hide ExpTable, Product, Generator;
    gen := [1];
    NoFactors();
    for i := 0 to ecCount
      invariant gen == Generator(i)
    {
      NextFactor(i);
      SmallIndex(i);
      var r := ExpTable()[i];
      gen := PolyMul(gen, [1, r]);
    }
  }

  /** Polynomial long division in place: clears `msg[0..n]` with multiples of `gen`. */
  method DivideInPlace(msg: array<Byte>, gen: Poly, n: nat)
    requires |gen| >= 1 && n + |gen| <= msg.Length + 1
    modifies msg
    ensures msg[..] == Divide(old(msg[..]), gen, n)
  {
    hide Xor, Mul, GfMul, Sum, Scale, Divide, Zeros;
    ghost var start := msg[..];
    StartDivide(start, gen);
    for i := 0 to n
      invariant msg[..] == Divide(start, gen, i)
    {
      ghost var before := msg[..];
      var coeff := msg[i];
      if coeff != 0 {
        for j := 0 to |gen|
          invariant forall k :: i <= k < i + j ==> msg[k] == Add(before[k], Mul(coeff, gen[k - i]))
          invariant forall k :: 0 <= k < i || i + j <= k < |before| ==> msg[k] == before[k]
        {
          GfMulIsProduct(gen[j], coeff);
          MulCommutes(gen[j], coeff);
          msg[i + j] := Add(msg[i + j], GfMul(gen[j], coeff));
        }
        AddAtElements(before, i, Scale(coeff, gen));
        assert msg[..] == AddAt(before, i, Scale(coeff, gen));
      }
      NextDivide(start, gen, i);
    }
  }

  /** Computes the parity: generator, zero-extended message, long division, remainder. */
  method RsEncode(data: Poly, ecCount: nat) returns (parity: Poly)
    requires ecCount <= 256
    ensures parity == Parity(data, ecCount)
  {
    hide Zeros, Divide, Generator;
    var gen := BuildGenerator(ecCount);
    var start := data + Zeros(ecCount);
    var msg := new Byte[|start|](k requires 0 <= k < |start| => start[k]);
    assert msg[..] == start;
    DivideInPlace(msg, gen, |data|);
    parity := msg[|data|..];
    assert parity == msg[..][|data|..];
  }

  lemma StartDivide(m: Poly, g: Poly)
    requires 1 <= |g| <= |m| + 1
    ensures Divide(m, g, 0) == m
  {}

  lemma NextDivide(m: Poly, g: Poly, i: nat)
    requires |g| >= 1 && i + |g| <= |m|
    ensures Divide(m, g, i + 1) == DivideStep(Divide(m, g, i), g, i)
  {}

  /** Dividing by a monic polynomial clears the leading coefficients one after the other. */
  lemma {:induction false} DivideClears(m: Poly, g: Poly, n: nat)
    requires |g| >= 1 && g[0] == 1 && n + |g| <= |m| + 1
    ensures forall k :: 0 <= k < n ==> Divide(m, g, n)[k] == 0
  {
    hide Xor, Mul, Sum, AddAt;
    if n != 0 {
      DivideClears(m, g, n - 1);
      var prev := Divide(m, g, n - 1);
      var c := prev[n - 1];
      if c != 0 {
        AddAtElements(prev, n - 1, Scale(c, g));
        MulCommutes(c, 1);
        MulOneLeft(c);
        XorZero(c);
      }
    }
  }

  /** ... and does not change the value at a root of the divisor. */
  lemma {:induction false} DivideKeepsValue(m: Poly, g: Poly, n: nat, x: Byte)
    requires |g| >= 1 && n + |g| <= |m| + 1 && Eval(g, x) == 0
    ensures Eval(Divide(m, g, n), x) == Eval(m, x)
  {
    hide Xor, Mul, Sum, AddAt, Eval;
    if n != 0 {
      DivideKeepsValue(m, g, n - 1, x);
      var prev := Divide(m, g, n - 1);
      var c := prev[n - 1];
      if c != 0 {
        EvalAddAt(prev, n - 1, Scale(c, g), x);
        EvalScale(c, g, x);
        MulZero(c, 0);
        MulZero(0, XPow(x, |m| - (n - 1) - |g|));
        XorZero(Eval(prev, x));
      }
    }
  }

  /** Every codeword vanishes at the first `ecCount` powers of the generator. */
  lemma CodewordVanishes(data: Poly, ecCount: nat, k: nat)
    requires k < ecCount <= 256
    ensures Eval(Codeword(data, ecCount), Pow(k)) == 0
  {
    hide Xor, Mul, Pow, Eval, Generator, Divide, Zeros;
    var g := Generator(ecCount);
    var x := Pow(k);
    var m := data + Zeros(ecCount);
    var d := Divide(m, g, |data|);
    GeneratorMonic(ecCount);
    GeneratorRoots(ecCount, k);
    DivideClears(m, g, |data|);
    DivideKeepsValue(m, g, |data|, x);
    EvalSum(m, d, x);
    CodewordIsSum(data, ecCount, d);
    XorZero(Eval(m, x));
  }

  lemma CodewordIsSum(data: Poly, ecCount: nat, d: Poly)
    requires |d| == |data| + ecCount && forall k :: 0 <= k < |data| ==> d[k] == 0
    ensures data + d[|data|..] == Sum(data + Zeros(ecCount), d)
  {
    hide Xor, Add, Zeros, Sum;
    var q := data + Zeros(ecCount);
    var r := Sum(q, d);
    var c := data + d[|data|..];
    forall k | 0 <= k < |d| ensures r[k] == c[k] {
      if k < |data| {
        assert q[k] == data[k] && d[k] == 0;
      } else {
        assert q[k] == 0 && c[k] == d[k];
      }
      AddZero(c[k]);
    }
    assert |r| == |c|;
  }

  lemma AddZero(c: Byte)
    ensures Add(c, 0) == c && Add(0, c) == c
  {
    XorZero(c);
  }
}
