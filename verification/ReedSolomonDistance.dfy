/** How far apart codewords are: a nonzero word that vanishes at m consecutive powers of the generator has
    more than m nonzero coefficients, so two codewords differ in more positions than they have parity bytes. */
module ReedSolomonDistance {
  import opened Gf256
  import opened GfOrder
  import opened GfTables
  import opened Polynomials
  import opened ReedSolomon

  /** The number of nonzero coefficients. */
  function Weight(c: Poly): nat {
    if |c| == 0 then 0 else Weight(c[..|c| - 1]) + (if c[|c| - 1] == 0 then 0 else 1)
  }

  /** The number of positions in which two words differ. */
  function Distance(p: Poly, q: Poly): nat
    requires |p| == |q|
  {
    if |p| == 0 then 0 else Distance(p[..|p| - 1], q[..|p| - 1]) + (if p[|p| - 1] == q[|p| - 1] then 0 else 1)
  }

  lemma {:induction false} WeightZero(c: Poly)
    ensures Weight(c) == 0 <==> forall k :: 0 <= k < |c| ==> c[k] == 0
  {
    if |c| != 0 {
      WeightZero(c[..|c| - 1]);
    }
  }

  lemma {:induction false} WeightDrops(c: Poly, d: Poly, j: nat)
    requires |c| == |d| && j < |c| && c[j] != 0 && d[j] == 0
    requires forall k :: 0 <= k < |c| && k != j ==> (c[k] == 0 <==> d[k] == 0)
    ensures Weight(c) == Weight(d) + 1
  {
    var n := |c| - 1;
    if j == n {
      SameWeight(c[..n], d[..n]);
    } else {
      WeightDrops(c[..n], d[..n], j);
    }
  }

  lemma {:induction false} SameWeight(c: Poly, d: Poly)
    requires |c| == |d| && forall k :: 0 <= k < |c| ==> (c[k] == 0 <==> d[k] == 0)
    ensures Weight(c) == Weight(d)
  {
    if |c| != 0 {
      SameWeight(c[..|c| - 1], d[..|c| - 1]);
    }
  }

  // ---------- multiplying every coefficient by its locator ----------

  /** The locator of position `j` in a word of length `n`: the power its coefficient stands for. */
  function Locator(n: nat, j: nat): Byte
    requires j < n
  {
    Pow(n - 1 - j)
  }

  function Locate(c: Poly): (r: Poly)
    ensures |r| == |c| && forall j :: 0 <= j < |c| ==> r[j] == Mul(Locator(|c|, j), c[j])
  {
    seq(|c|, (j: nat) requires j < |c| => Mul(Locator(|c|, j), c[j]))
  }

  lemma LocatePrefix(c: Poly, n: nat)
    requires |c| == n + 1
    ensures Locate(c) == Scale(Pow(1), Locate(c[..n])) + [c[n]]
  {
    hide Xor, Mul, Pow, Locate, Scale;
    var d := Locate(c[..n]);
    forall j | 0 <= j < n ensures Locate(c)[j] == Scale(Pow(1), d)[j] {
      PowAdd(1, n - 1 - j);
      MulAssociates(Pow(1), Pow(n - 1 - j), c[j]);
    }
    FirstPower();
    MulOneLeft(c[n]);
  }

  /** Locating shifts the evaluation point to the next power. */
  lemma {:induction false} EvalLocate(c: Poly, k: nat)
    ensures Eval(Locate(c), Pow(k)) == Eval(c, Pow(k + 1))
  {
    hide Xor, Mul, Pow, Locate, Scale, Add;
    if |c| != 0 {
      var n := |c| - 1;
      var d := c[..n];
      EvalLocate(d, k);
      LocatePrefix(c, n);
      EvalAppend(Scale(Pow(1), Locate(d)), c[n], Pow(k));
      EvalScale(Pow(1), Locate(d), Pow(k));
      MulCommutes(Pow(1), Eval(Locate(d), Pow(k)));
      MulAssociates(Eval(Locate(d), Pow(k)), Pow(1), Pow(k));
      PowAdd(1, k);
    }
  }

  // ---------- eliminating one coefficient ----------

  function Eliminate(c: Poly, j: nat): (r: Poly)
    requires j < |c|
    ensures |r| == |c|
  {
    Sum(Locate(c), Scale(Locator(|c|, j), c))
  }

  lemma EliminateVanishes(c: Poly, j: nat, k: nat)
    requires j < |c| && Eval(c, Pow(k)) == 0 && Eval(c, Pow(k + 1)) == 0
    ensures Eval(Eliminate(c, j), Pow(k)) == 0
  {
    hide Xor, Mul, Pow, Locate, Scale, Eval, Sum;
    EvalSum(Locate(c), Scale(Locator(|c|, j), c), Pow(k));
    EvalLocate(c, k);
    EvalScale(Locator(|c|, j), c, Pow(k));
    MulZero(Locator(|c|, j), 0);
    XorZero(0);
  }

  lemma EliminateWeight(c: Poly, j: nat)
    requires j < |c| <= 255 && c[j] != 0
    ensures Weight(c) == Weight(Eliminate(c, j)) + 1
  {
    hide Xor, Mul, Pow, Locate, Scale, Sum, Weight;
    var d := Eliminate(c, j);
    forall k | 0 <= k < |c| ensures d[k] == 0 <==> c[k] == 0 || k == j {
      MulAddLeft(Locator(|c|, k), Locator(|c|, j), c[k]);
      XorCancels(Locator(|c|, k), Locator(|c|, j));
      if k < j {
        PowInjective(|c| - 1 - j, |c| - 1 - k);
      } else if j < k {
        PowInjective(|c| - 1 - k, |c| - 1 - j);
      }
      var l := Add(Locator(|c|, k), Locator(|c|, j));
      if k == j || c[k] == 0 {
        MulZero(l, c[k]);
      } else if Mul(l, c[k]) == 0 {
        NoZeroDivisors(l, c[k]);
      }
    }
    WeightDrops(c, d, j);
  }

  lemma {:induction false} XPowOfOne(n: nat)
    ensures XPow(1, n) == 1
  {
    if n != 0 {
      XPowOfOne(n - 1);
      MulOneLeft(1);
    }
  }

  lemma SingleNonzero(c: Poly, j: nat)
    requires j < |c| && forall k :: 0 <= k < |c| && k != j ==> c[k] == 0
    ensures Eval(c, Pow(0)) == c[j]
  {
    hide Xor, Mul, XPow, Eval, Zeros, Pow;
    FirstPower();
    var n := |c| - j - 1;
    assert c == Zeros(j) + [c[j]] + Zeros(n);
    EvalShift(Zeros(j) + [c[j]], n, 1);
    EvalLeadingZeros(j, [c[j]], 1);
    XPowOfOne(n);
    assert [] + [c[j]] == [c[j]];
    EvalAppend([], c[j], 1);
    EvalEmpty();
    MulZero(0, 1);
    XorZero(c[j]);
    MulCommutes(c[j], 1);
    MulOneLeft(c[j]);
  }

  lemma EvalEmpty()
    ensures Eval([], 1) == 0
  {}

  /** A word of at most 255 bytes with at most `m` nonzero coefficients that vanishes at the first `m`
      powers of the generator is zero. */
  lemma {:induction false} SparseVanishingIsZero(c: Poly, m: nat)
    requires |c| <= 255 && Weight(c) <= m
    requires forall k :: 0 <= k < m ==> Eval(c, Pow(k)) == 0
    ensures Weight(c) == 0
    decreases m
  {
    hide Xor, Mul, Pow, Eval, Weight, Eliminate;
    WeightZero(c);
    if Weight(c) != 0 {
      var j :| 0 <= j < |c| && c[j] != 0;
      var d := Eliminate(c, j);
      forall k | 0 <= k < m - 1 ensures Eval(d, Pow(k)) == 0 {
        EliminateVanishes(c, j, k);
      }
      EliminateWeight(c, j);
      SparseVanishingIsZero(d, m - 1);
      OnlyNonzero(c, j);
      SingleNonzero(c, j);
    }
  }

  lemma {:induction false} OnlyNonzero(c: Poly, j: nat)
    requires j < |c| && Weight(c) == 1 && c[j] != 0
    ensures forall k :: 0 <= k < |c| && k != j ==> c[k] == 0
  {
    var n := |c| - 1;
    if j == n {
      WeightZero(c[..n]);
    } else {
      WeightPositive(c[..n], j);
      OnlyNonzero(c[..n], j);
    }
  }

  lemma WeightPositive(c: Poly, j: nat)
    requires j < |c| && c[j] != 0
    ensures Weight(c) >= 1
  {
    WeightZero(c);
  }

  // ---------- the code ----------

  lemma {:induction false} DistanceIsWeight(p: Poly, q: Poly)
    requires |p| == |q|
    ensures Distance(p, q) == Weight(Sum(p, q))
  {
    hide Xor;
    if |p| != 0 {
      var n := |p| - 1;
      DistanceIsWeight(p[..n], q[..n]);
      XorCancels(p[n], q[n]);
      assert Sum(p, q)[..n] == Sum(p[..n], q[..n]);
    }
  }

  lemma SameLast(p: Poly, q: Poly)
    requires |p| == |q| > 0
    ensures p == q <==> p[..|p| - 1] == q[..|p| - 1] && p[|p| - 1] == q[|p| - 1]
  {
    var n := |p| - 1;
    assert p == p[..n] + [p[n]] && q == q[..n] + [q[n]];
  }

  lemma {:induction false} DistanceZero(p: Poly, q: Poly)
    requires |p| == |q|
    ensures Distance(p, q) == 0 <==> p == q
  {
    if |p| != 0 {
      var n := |p| - 1;
      DistanceZero(p[..n], q[..n]);
      SameLast(p, q);
    }
  }

  /** Two different vanishing words of the same length differ in more than `m` positions. */
  lemma VanishingWordsApart(p: Poly, q: Poly, m: nat)
    requires |p| == |q| <= 255 && p != q
    requires forall k :: 0 <= k < m ==> Eval(p, Pow(k)) == 0 && Eval(q, Pow(k)) == 0
    ensures Distance(p, q) >= m + 1
  {
    hide Xor, Mul, Pow, Eval, Weight, Sum, Distance;
    forall k | 0 <= k < m ensures Eval(Sum(p, q), Pow(k)) == 0 {
      EvalSum(p, q, Pow(k));
      XorZero(0);
    }
    DistanceIsWeight(p, q);
    DistanceZero(p, q);
    if Weight(Sum(p, q)) <= m {
      SparseVanishingIsZero(Sum(p, q), m);
    }
  }

  /** Minimum distance: codewords of different data differ in at least `ecCount + 1` positions. */
  lemma MinimumDistance(d1: Poly, d2: Poly, ecCount: nat)
    requires |d1| == |d2| && d1 != d2 && |d1| + ecCount <= 255
    ensures Distance(Codeword(d1, ecCount), Codeword(d2, ecCount)) >= ecCount + 1
  {
    hide Xor, Mul, Pow, Eval, Distance, Parity;
    var c1, c2 := Codeword(d1, ecCount), Codeword(d2, ecCount);
    assert c1[..|d1|] == d1 && c2[..|d2|] == d2;
    forall k | 0 <= k < ecCount ensures Eval(c1, Pow(k)) == 0 && Eval(c2, Pow(k)) == 0 {
      CodewordVanishes(d1, ecCount, k);
      CodewordVanishes(d2, ecCount, k);
    }
    VanishingWordsApart(c1, c2, ecCount);
  }

  lemma {:induction false} DistanceTail(d: Poly, p: Poly, q: Poly)
    requires |p| == |q|
    ensures Distance(d + p, d + q) <= |p|
  {
    if |p| == 0 {
      assert d + p == d && d + q == d;
      DistanceZero(d, d);
    } else {
      var n := |p| - 1;
      assert (d + p)[..|d| + n] == d + p[..n] && (d + q)[..|d| + n] == d + q[..n];
      DistanceTail(d, p[..n], q[..n]);
    }
  }

  /** The parity is the only tail of its length that makes the word vanish at the first `ecCount` powers. */
  lemma ParityIsUnique(data: Poly, tail: Poly, ecCount: nat)
    requires |tail| == ecCount && |data| + ecCount <= 255
    requires forall k :: 0 <= k < ecCount ==> Eval(data + tail, Pow(k)) == 0
    ensures tail == Parity(data, ecCount)
  {
    hide Xor, Mul, Pow, Eval, Distance, Parity;
    var c := Codeword(data, ecCount);
    forall k | 0 <= k < ecCount ensures Eval(c, Pow(k)) == 0 {
      CodewordVanishes(data, ecCount, k);
    }
    DistanceTail(data, tail, Parity(data, ecCount));
    if data + tail != c {
      VanishingWordsApart(data + tail, c, ecCount);
    }
    assert tail == (data + tail)[|data|..] && Parity(data, ecCount) == c[|data|..];
  }

  lemma {:induction false} Triangle(p: Poly, r: Poly, q: Poly)
    requires |p| == |r| == |q|
    ensures Distance(p, q) <= Distance(r, p) + Distance(r, q)
  {
    if |p| != 0 {
      var n := |p| - 1;
      Triangle(p[..n], r[..n], q[..n]);
    }
  }

  /** Recovery: a received word with at most `t` wrong bytes, 2t <= ecCount, determines the data. */
  lemma UniqueRecovery(received: Poly, d1: Poly, d2: Poly, ecCount: nat, t: nat)
    requires |d1| == |d2| && |received| == |d1| + ecCount <= 255 && 2 * t <= ecCount
    requires Distance(received, Codeword(d1, ecCount)) <= t
    requires Distance(received, Codeword(d2, ecCount)) <= t
    ensures d1 == d2
  {
    hide Distance, Parity;
    Triangle(Codeword(d1, ecCount), received, Codeword(d2, ecCount));
    if d1 != d2 {
      MinimumDistance(d1, d2, ecCount);
    }
  }
}
