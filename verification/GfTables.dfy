/** The exponential and logarithm tables, the table-driven product, and the field laws. */
module GfTables {
  import opened Gf256
  import opened GfOrder

  // ---------- discrete logarithm ----------

  /** The least i in [from, 255) with Pow(i) == b, or 0 when there is none. */
  function FindLog(b: Byte, from: nat): (i: Byte)
    decreases 255 - from
  {
    if from >= 255 then 0 else if Pow(from) == b then from else FindLog(b, from + 1)
  }

  function LogOf(b: Byte): Byte {
    FindLog(b, 0)
  }

  lemma {:induction false} FindLogFinds(b: Byte, from: nat, i: nat)
    requires from <= i < 255 && Pow(i) == b
    ensures FindLog(b, from) == i
    decreases 255 - from
  {
    hide Pow;
    if from < i {
      PowInjective(from, i);
      FindLogFinds(b, from + 1, i);
    }
  }

  lemma {:induction false} FindLogOfZero(from: nat)
    ensures FindLog(0, from) == 0
    decreases 255 - from
  {
    hide Pow;
    if from < 255 {
      PowNonzero(from);
      FindLogOfZero(from + 1);
    }
  }

  lemma LogInverts(b: Byte)
    requires b != 0
    ensures LogOf(b) < 255 && Pow(LogOf(b)) == b
  {
    hide Pow;
    EveryNonzeroIsPower(b);
    var i: nat :| i < 255 && Pow(i) == b;
    FindLogFinds(b, 0, i);
  }

  // ---------- the tables and the product they compute ----------

  function ExpTable(): (t: seq<Byte>)
    ensures |t| == 256 && forall i :: 0 <= i < 256 ==> t[i] == Pow(i % 255)
  {
    seq(256, (i: nat) => Pow(i % 255))
  }

  function LogTable(): (t: seq<Byte>)
    ensures |t| == 256 && forall b :: 0 <= b < 256 ==> t[b] == LogOf(b)
  {
    seq(256, (b: nat) => if b < 256 then LogOf(b) else 0)
  }

  /** The table-driven product. */
  function GfMul(a: Byte, b: Byte): Byte {
    if a == 0 || b == 0 then 0 else ExpTable()[(LogTable()[a] as int + LogTable()[b]) % 255]
  }

  lemma GfMulIsProduct(a: Byte, b: Byte)
    ensures GfMul(a, b) == Mul(a, b)
  {
    hide Pow, Mul, FindLog, LogOf;
    if a == 0 || b == 0 {
      MulZero(a, b);
    } else {
      LogInverts(a);
      LogInverts(b);
      PowAdd(LogOf(a), LogOf(b));
      PowPeriodic(LogOf(a) + LogOf(b));
    }
  }

  /** Builds both tables by repeated doubling, reducing whenever the value overflows a byte. */
  method BuildTables() returns (exp: array<Byte>, log: array<Byte>)
    ensures exp[..] == ExpTable()
    ensures log[..] == LogTable()
  {
    hide Pow, Xor, FindLog, ExpTable, LogTable;
    assert Pow(0) == 1 by { FirstPower(); }
    exp := new Byte[256](_ => 0);
    log := new Byte[256](_ => 0);
    var val: nat := 1;
    for i := 0 to 255
      invariant exp.Length == 256 && log.Length == 256
      invariant val == Pow(i)
      invariant forall k :: 0 <= k < i ==> exp[k] == Pow(k)
      invariant forall k :: 0 <= k < i ==> log[Pow(k)] == k
      invariant forall b :: 0 <= b < 256 && !IsPower(b, i) ==> log[b] == 0
    {
      exp[i] := val;
      log[val] := i;
      NewPower(i);
      PowStep(i);
      val := 2 * val;
      if val >= 256 {
        val := Xor(val, GF_POLY);
      }
    }
    exp[255] := exp[0];
    TablesComplete(exp[..], log[..]);
  }

  lemma NewPower(i: nat)
    requires i < 255
    ensures forall k :: 0 <= k < i ==> Pow(k) != Pow(i)
    ensures IsPower(Pow(i), i + 1)
    ensures forall b :: IsPower(b, i) ==> IsPower(b, i + 1)
  {
    hide Pow;
    forall k | 0 <= k < i ensures Pow(k) != Pow(i) {
      PowInjective(k, i);
    }
  }

  lemma TablesComplete(exp: seq<Byte>, log: seq<Byte>)
    requires |exp| == 256 && |log| == 256
    requires forall k :: 0 <= k < 255 ==> exp[k] == Pow(k)
    requires exp[255] == Pow(0)
    requires forall k :: 0 <= k < 255 ==> log[Pow(k)] == k
    requires forall b :: 0 <= b < 256 && !IsPower(b, 255) ==> log[b] == 0
    ensures exp == ExpTable() && log == LogTable()
  {
    hide Pow, FindLog;
    forall b: Byte ensures log[b] == LogOf(b) {
      if b == 0 {
        FindLogOfZero(0);
        ZeroIsNoPower();
      } else {
        LogInverts(b);
        assert log[Pow(LogOf(b))] == LogOf(b);
      }
    }
  }

  lemma ZeroIsNoPower()
    ensures !IsPower(0, 255)
  {
    hide Pow;
    forall i: nat ensures Pow(i) != 0 {
      PowNonzero(i);
    }
  }

  // ---------- the field laws ----------

  lemma MulCommutes(a: Byte, b: Byte)
    ensures Mul(a, b) == Mul(b, a)
  {
    hide Pow, Mul, LogOf;
    if a == 0 || b == 0 {
      MulZero(a, b);
      MulZero(b, a);
    } else {
      LogInverts(a);
      LogInverts(b);
      PowAdd(LogOf(a), LogOf(b));
      PowAdd(LogOf(b), LogOf(a));
    }
  }

  lemma MulAssociates(a: Byte, b: Byte, c: Byte)
    ensures Mul(Mul(a, b), c) == Mul(a, Mul(b, c))
  {
    hide Pow, Mul, LogOf;
    if a == 0 || b == 0 || c == 0 {
      if a == 0 || b == 0 { MulZero(a, b); }
      if b == 0 || c == 0 { MulZero(b, c); }
      MulZero(Mul(a, b), c);
      MulZero(a, Mul(b, c));
    } else {
      LogInverts(a);
      LogInverts(b);
      LogInverts(c);
      var i: nat, j: nat, k: nat := LogOf(a), LogOf(b), LogOf(c);
      PowAdd(i, j);
      PowAdd(i + j, k);
      PowAdd(j, k);
      PowAdd(i, j + k);
    }
  }

  lemma NoZeroDivisors(a: Byte, b: Byte)
    requires Mul(a, b) == 0
    ensures a == 0 || b == 0
  {
    hide Pow, Mul, LogOf;
    if a != 0 && b != 0 {
      LogInverts(a);
      LogInverts(b);
      PowAdd(LogOf(a), LogOf(b));
      PowNonzero(LogOf(a) + LogOf(b));
    }
  }
}
