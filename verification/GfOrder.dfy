/** The generator of GF(2^8) has order 255: its first 255 powers are the 255 nonzero bytes, each once.
    The 127 powers that have to be told from one are computed on 8-bit vectors. */
module GfOrder {
  import opened Sets
  import opened Gf256

  // ---------- the same field on bit vectors ----------

  function Step(v: bv8): bv8 {
    (v << 1) ^ (if v & 0x80 == 0 then 0 else 0x1D)
  }

  function Digit(on: bool, w: nat): nat {
    if on then w else 0
  }

  /** The number a bit vector writes. */
  function Value(v: bv8): nat {
    Digit(v & 128 != 0, 128) + Digit(v & 64 != 0, 64) + Digit(v & 32 != 0, 32) + Digit(v & 16 != 0, 16)
    + Digit(v & 8 != 0, 8) + Digit(v & 4 != 0, 4) + Digit(v & 2 != 0, 2) + Digit(v & 1 != 0, 1)
  }

  lemma StepHighDigits(v: bv8)
    ensures Step(v) & 128 != 0 <==> v & 64 != 0
    ensures Step(v) & 64 != 0 <==> v & 32 != 0
    ensures Step(v) & 32 != 0 <==> v & 16 != 0
    ensures Step(v) & 16 != 0 <==> (v & 8 != 0) != (v & 128 != 0)
  {}

  lemma StepLowDigits(v: bv8)
    ensures Step(v) & 8 != 0 <==> (v & 4 != 0) != (v & 128 != 0)
    ensures Step(v) & 4 != 0 <==> (v & 2 != 0) != (v & 128 != 0)
    ensures Step(v) & 2 != 0 <==> v & 1 != 0
    ensures Step(v) & 1 != 0 <==> v & 128 != 0
  {}

  lemma Halves(a: nat, p: nat)
    requires p < 2
    ensures (2 * a + p) / 2 == a && (2 * a + p) % 2 == p
  {}

  lemma XorUnfolds(x: nat, y: nat)
    ensures Xor(x, y) == (if x % 2 == y % 2 then 0 else 1) + 2 * Xor(x / 2, y / 2)
  {}

  lemma XorDigit(a: nat, b: nat, p: bool, q: bool)
    ensures Xor(2 * a + Digit(p, 1), 2 * b + Digit(q, 1)) == 2 * Xor(a, b) + Digit(p != q, 1)
  {
    hide Xor;
    Halves(a, Digit(p, 1));
    Halves(b, Digit(q, 1));
    XorUnfolds(2 * a + Digit(p, 1), 2 * b + Digit(q, 1));
  }

  /** Reduction by 0x11D, digit by digit. */
  lemma XtimeDigits(h: nat, b3: bool, b2: bool, b1: bool, b0: bool)
    requires 8 <= h < 16
    ensures Xtime(16 * h + Digit(b3, 8) + Digit(b2, 4) + Digit(b1, 2) + Digit(b0, 1))
         == 32 * (h - 8) + Digit(!b3, 16) + Digit(!b2, 8) + Digit(!b1, 4) + Digit(b0, 2) + 1
  {
    hide Xor;
    var a3 := 2 * h + Digit(b3, 1);
    var a2 := 2 * a3 + Digit(b2, 1);
    var a1 := 2 * a2 + Digit(b1, 1);
    XorDigit(2 * a1 + Digit(b0, 1), 142, false, true);
    XorDigit(a1, 71, b0, false);
    XorDigit(a2, 35, b1, true);
    XorDigit(a3, 17, b2, true);
    XorDigit(h, 8, b3, true);
    DropTop(h);
  }

  lemma DropTop(h: nat)
    requires 8 <= h < 16
    ensures Xor(h, 8) == h - 8
  {
    assert Power2(3) == 8;
    XorTop(h, 8, 3);
    XorTopAdds(h, 8, 3);
  }

  // Removing a leading one by exclusive or is subtraction.
  lemma {:induction false} XorTopAdds(a: nat, p: nat, k: nat)
    requires p == Power2(k) && p <= a < 2 * p
    ensures Xor(a, p) == a - p
    decreases k
  {
    if k > 0 {
      XorTopAdds(a / 2, p / 2, k - 1);
    } else {
      XorZero(1);
    }
  }

  lemma ValueStep(v: bv8)
    ensures Value(v) < 256 && Value(Step(v)) == Xtime(Value(v))
  {
    hide Step, Xtime;
    StepHighDigits(v);
    StepLowDigits(v);
    XtimeOfValue(v & 128 != 0, v & 64 != 0, v & 32 != 0, v & 16 != 0, v & 8 != 0, v & 4 != 0, v & 2 != 0, v & 1 != 0);
  }

  lemma XtimeOfValue(b7: bool, b6: bool, b5: bool, b4: bool, b3: bool, b2: bool, b1: bool, b0: bool)
    ensures var h := Digit(b7, 128) + Digit(b6, 64) + Digit(b5, 32) + Digit(b4, 16);
      Xtime(h + Digit(b3, 8) + Digit(b2, 4) + Digit(b1, 2) + Digit(b0, 1))
      == Digit(b6, 128) + Digit(b5, 64) + Digit(b4, 32) + Digit(b3 != b7, 16)
         + Digit(b2 != b7, 8) + Digit(b1 != b7, 4) + Digit(b0, 2) + Digit(b7, 1)
  {
    if b7 {
      XtimeDigits(8 + Digit(b6, 4) + Digit(b5, 2) + Digit(b4, 1), b3, b2, b1, b0);
    }
  }

  lemma ValueIsOne(v: bv8)
    requires Value(v) == 1
    ensures v == 1
  {}

  // ---------- the powers up to the 128th ----------

  function Step4(v: bv8): bv8 {
    Step(Step(Step(Step(v))))
  }

  function Step16(v: bv8): bv8 {
    Step4(Step4(Step4(Step4(v))))
  }

  predicate FourNotOne(v: bv8) {
    v != 1 && Step(v) != 1 && Step(Step(v)) != 1 && Step(Step(Step(v))) != 1
  }

  predicate SixteenNotOne(v: bv8) {
    FourNotOne(v) && FourNotOne(Step4(v)) && FourNotOne(Step4(Step4(v))) && FourNotOne(Step4(Step4(Step4(v))))
  }

  lemma Four(i: nat, v: bv8)
    requires Pow(i) == Value(v)
    ensures Pow(i + 4) == Value(Step4(v))
    ensures FourNotOne(v) ==> Pow(i) != 1 && Pow(i + 1) != 1 && Pow(i + 2) != 1 && Pow(i + 3) != 1
  {
    hide Step, Value, Xtime;
    ValueStep(v);
    ValueStep(Step(v));
    ValueStep(Step(Step(v)));
    ValueStep(Step(Step(Step(v))));
    assert Pow(i + 1) == Xtime(Pow(i)) && Pow(i + 2) == Xtime(Pow(i + 1)) && Pow(i + 3) == Xtime(Pow(i + 2));
    assert Pow(i + 4) == Xtime(Pow(i + 3));
    if FourNotOne(v) {
      NotOne(v);
      NotOne(Step(v));
      NotOne(Step(Step(v)));
      NotOne(Step(Step(Step(v))));
    }
  }

  lemma NotOne(v: bv8)
    requires v != 1
    ensures Value(v) != 1
  {
    if Value(v) == 1 {
      ValueIsOne(v);
    }
  }

  lemma Sixteen(i: nat, v: bv8)
    requires Pow(i) == Value(v)
    ensures Pow(i + 16) == Value(Step16(v))
    ensures SixteenNotOne(v) ==> forall k :: i <= k < i + 16 ==> Pow(k) != 1
  {
    hide Step, Value, Xtime, Pow, Step4, FourNotOne;
    Four(i, v);
    Four(i + 4, Step4(v));
    Four(i + 8, Step4(Step4(v)));
    Four(i + 12, Step4(Step4(Step4(v))));
  }

  lemma Run0() ensures SixteenNotOne(2) && Step16(2) == 152 {}
  lemma Run1() ensures SixteenNotOne(152) && Step16(152) == 39 {}
  lemma Run2() ensures SixteenNotOne(39) && Step16(39) == 140 {}
  lemma Run3() ensures SixteenNotOne(140) && Step16(140) == 190 {}
  lemma Run4() ensures SixteenNotOne(190) && Step16(190) == 231 {}
  lemma Run5() ensures SixteenNotOne(231) && Step16(231) == 175 {}
  lemma Run6() ensures SixteenNotOne(175) && Step16(175) == 31 {}
  lemma Run7() ensures SixteenNotOne(31) && Step16(31) == 23 {}
  lemma Run8() ensures Step16(23) == 77 {}
  lemma Run9() ensures Step16(77) == 209 {}
  lemma Run10() ensures Step16(209) == 219 {}
  lemma Run11() ensures Step16(219) == 25 {}
  lemma Run12() ensures Step16(25) == 162 {}
  lemma Run13() ensures Step16(162) == 36 {}
  lemma Run14() ensures Step16(36) == 88 {}
  lemma Run15() ensures Step16(88) == 4 {}

  lemma FirstPower()
    ensures Pow(0) == 1 && Pow(1) == 2 && Value(2) == 2 && Value(4) == 4
    ensures Xtime(1) == 2 && Xtime(2) == 4
  {
    assert Pow(0) == 1;
  }

  lemma FirstHalf()
    ensures forall k :: 1 <= k < 129 ==> Pow(k) != 1
    ensures Pow(129) == Value(23)
  {
    hide Step16, SixteenNotOne, Xtime, Pow, Value;
    FirstPower();
    Run0(); Sixteen(1, 2);
    Run1(); Sixteen(17, 152);
    Run2(); Sixteen(33, 39);
    Run3(); Sixteen(49, 140);
    Run4(); Sixteen(65, 190);
    Run5(); Sixteen(81, 231);
    Run6(); Sixteen(97, 175);
    Run7(); Sixteen(113, 31);
  }

  lemma FullCircle()
    requires Pow(129) == Value(23)
    ensures Pow(257) == 4
  {
    hide Step16, SixteenNotOne, Xtime, Pow, Value;
    FirstPower();
    Run8(); Sixteen(129, 23);
    Run9(); Sixteen(145, 77);
    Run10(); Sixteen(161, 209);
    Run11(); Sixteen(177, 219);
    Run12(); Sixteen(193, 25);
    Run13(); Sixteen(209, 162);
    Run14(); Sixteen(225, 36);
    Run15(); Sixteen(241, 88);
  }

  lemma Pow255()
    ensures Pow(255) == 1
  {
    hide Xtime, Value, Xor;
    FirstHalf();
    FullCircle();
    FirstPower();
    PowStep(255);
    PowStep(256);
    XtimeInjective(Pow(256), 2);
    XtimeInjective(Pow(255), 1);
  }

  lemma PowStep(i: nat)
    ensures Pow(i + 1) == Xtime(Pow(i))
  {}

  // If x^i is one, so is x^(255 - i): the second half follows from the first.
  lemma PowNotOne(i: nat)
    requires 0 < i < 255
    ensures Pow(i) != 1
  {
    hide Xtime, Value, Xor;
    FirstHalf();
    if i >= 129 && Pow(i) == 1 {
      Pow255();
      PowAdd(i, 255 - i);
      MulOneLeft(Pow(255 - i));
    }
  }

  lemma {:induction false} PowInjective(i: nat, j: nat)
    requires i < j < 255
    ensures Pow(i) != Pow(j)
  {
    hide Xtime;
    if i == 0 {
      PowNotOne(j);
    } else {
      PowStep(i - 1);
      PowStep(j - 1);
      PowInjective(i - 1, j - 1);
      if Pow(i) == Pow(j) {
        XtimeInjective(Pow(i - 1), Pow(j - 1));
      }
    }
  }

  lemma {:induction false} PowPeriodic(i: nat)
    ensures Pow(i) == Pow(i % 255)
  {
    hide Xtime, Mul;
    if i >= 255 {
      Pow255();
      PowAdd(255, i - 255);
      MulOneLeft(Pow(i - 255));
      PowPeriodic(i - 255);
    }
  }

  // ---------- every nonzero byte is a power ----------

  ghost predicate IsPower(x: int, n: nat) {
    exists i: nat :: i < n && Pow(i) == x
  }

  lemma {:induction false} PowersSet(n: nat) returns (s: set<int>)
    requires n <= 255
    ensures |s| == n
    ensures forall x :: x in s ==> 1 <= x <= 255
    ensures forall x :: x in s ==> IsPower(x, n)
    ensures forall i :: 0 <= i < n ==> (Pow(i) as int) in s
  {
    hide Pow;
    if n == 0 {
      s := {};
    } else {
      var rest := PowersSet(n - 1);
      var last: int := Pow(n - 1);
      PowNonzero(n - 1);
      if last in rest {
        var i: nat :| i < n - 1 && Pow(i) == last;
        PowInjective(i, n - 1);
      }
      assert last !in rest;
      s := rest + {last};
      assert |s| == n;
      forall x | x in s ensures IsPower(x, n) {
        if x == last {
          assert Pow(n - 1) == x;
        }
      }
    }
  }

  lemma EveryNonzeroIsPower(b: Byte)
    requires b != 0
    ensures exists i: nat :: i < 255 && Pow(i) == b
  {
    hide Pow, Range;
    var s := PowersSet(255);
    SubsetOfSameSize(s, Range(1, |s|));
    assert (b as int) in s;
    assert IsPower(b, 255);
  }
}
