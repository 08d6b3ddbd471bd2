/** The circular latency buffer holds exactly the last values pushed, and its percentiles mean what they say.
    Latencies are exact reals. */
module LatencyBuffers {
  import opened Sorting

  // ---------- specification ----------

  /** The last `n` values, or all of them if there are fewer. */
  function Last(s: seq<real>, n: nat): seq<real> {
    if |s| <= n then s else s[|s| - n..]
  }

  function AtMost(s: seq<real>, v: real): nat {
    if |s| == 0 then 0 else (if s[0] <= v then 1 else 0) + AtMost(s[1..], v)
  }

  function Below(s: seq<real>, v: real): nat {
    if |s| == 0 then 0 else (if s[0] < v then 1 else 0) + Below(s[1..], v)
  }

  /** At least `p` percent of the values are at most `v`, and fewer than `p` percent are below it. */
  ghost predicate IsPercentile(s: seq<real>, p: real, v: real) {
    v in s && 100.0 * AtMost(s, v) as real >= p * |s| as real && 100.0 * Below(s, v) as real < p * |s| as real
  }

  /** Latencies are compared as they are. */
  function Itself(x: real): real {
    x
  }

  lemma {:induction false} CountAppend(a: seq<real>, b: seq<real>, v: real)
    ensures AtMost(a + b, v) == AtMost(a, v) + AtMost(b, v) && Below(a + b, v) == Below(a, v) + Below(b, v)
  {
    if |a| == 0 {
      assert a + b == b;
    } else {
      assert (a + b)[1..] == a[1..] + b;
      CountAppend(a[1..], b, v);
    }
  }

  // ---------- sorting ----------

  lemma {:induction false} InsertCounts(s: seq<real>, x: real, v: real)
    ensures AtMost(Insert(s, x, Itself), v) == AtMost(s, v) + if x <= v then 1 else 0
    ensures Below(Insert(s, x, Itself), v) == Below(s, v) + if x < v then 1 else 0
  {
    if |s| > 0 && x > s[0] {
      InsertCounts(s[1..], x, v);
      assert Insert(s, x, Itself)[1..] == Insert(s[1..], x, Itself);
    } else {
      assert ([x] + s)[1..] == s;
    }
  }

  lemma {:induction false} SortCounts(s: seq<real>, v: real)
    ensures AtMost(Sort(s, Itself), v) == AtMost(s, v) && Below(Sort(s, Itself), v) == Below(s, v)
  {
    if |s| > 0 {
      SortCounts(s[1..], v);
      InsertCounts(Sort(s[1..], Itself), s[0], v);
    }
  }

  // ---------- percentile ----------

  function Ceil(x: real): int {
    -((-x).Floor)
  }

  lemma CeilBounds(x: real)
    ensures x <= Ceil(x) as real < x + 1.0
  {}

  /** `p` percent of `n`. */
  function Share(n: nat, p: real): real {
    Times(p / 100.0, n as real)
  }

  function Times(a: real, b: real): real {
    a * b
  }

  /** The rank of the percentile among `n` values, counted from one. */
  function Rank(n: nat, p: real): int {
    Ceil(Share(n, p))
  }

  function Percentile(sorted: seq<real>, p: real): real {
    if |sorted| == 0 then 0.0
    else
      var idx := Rank(|sorted|, p) - 1;
      var at := if idx < 0 then 0 else idx;
      if at < |sorted| then sorted[at] else 0.0
  }

  lemma Ordered(s: seq<real>)
    requires Ascending(s, Itself)
    ensures forall i, j :: 0 <= i < j < |s| ==> s[i] <= s[j]
  {
    forall i, j | 0 <= i < j < |s| ensures s[i] <= s[j] {
      assert Itself(s[i]) <= Itself(s[j]);
    }
  }

  lemma AtMostBound(s: seq<real>, i: nat)
    requires Ascending(s, Itself) && i < |s|
    ensures AtMost(s, s[i]) >= i + 1
  {
    Ordered(s);
    assert s == s[..i + 1] + s[i + 1..];
    CountAppend(s[..i + 1], s[i + 1..], s[i]);
    AllAtMost(s[..i + 1], s[i]);
  }

  lemma {:induction false} AllAtMost(s: seq<real>, v: real)
    requires forall i :: 0 <= i < |s| ==> s[i] <= v
    ensures AtMost(s, v) == |s|
  {
    if |s| > 0 {
      AllAtMost(s[1..], v);
    }
  }

  lemma {:induction false} NoneBelow(s: seq<real>, v: real)
    requires forall i :: 0 <= i < |s| ==> s[i] >= v
    ensures Below(s, v) == 0
  {
    if |s| > 0 {
      NoneBelow(s[1..], v);
    }
  }

  lemma {:induction false} BelowAtMostLength(s: seq<real>, v: real)
    ensures Below(s, v) <= |s|
  {
    if |s| > 0 {
      BelowAtMostLength(s[1..], v);
    }
  }

  lemma PartOfWhole(q: real, x: real)
    requires 0.0 < q <= 1.0 && x > 0.0
    ensures 0.0 < Times(q, x) <= x
  {
    assert (1.0 - q) * x >= 0.0;
  }

  lemma HundredTimes(q: real, x: real)
    ensures 100.0 * Times(q, x) == Times(100.0 * q, x)
  {}

  lemma ShareBounds(n: nat, p: real)
    requires n > 0 && 0.0 < p <= 100.0
    ensures 0.0 < Share(n, p) <= n as real && 100.0 * Share(n, p) == Times(p, n as real)
  {
    hide Times;
    PartOfWhole(p / 100.0, n as real);
    HundredTimes(p / 100.0, n as real);
    assert 100.0 * (p / 100.0) == p;
  }

  lemma RankInRange(n: nat, p: real)
    requires n > 0 && 0.0 < p <= 100.0
    ensures 1 <= Rank(n, p) <= n
    ensures 100.0 * Rank(n, p) as real >= Times(p, n as real) && 100.0 * (Rank(n, p) - 1) as real < Times(p, n as real)
  {
    hide Ceil, Share, Times;
    ShareBounds(n, p);
    CeilBounds(Share(n, p));
    RankBounds(Rank(n, p), n, Share(n, p), Times(p, n as real));
  }

  lemma RankBounds(k: int, n: nat, share: real, target: real)
    requires 0.0 < share <= n as real && share <= k as real < share + 1.0 && 100.0 * share == target
    ensures 1 <= k <= n && 100.0 * k as real >= target && 100.0 * (k - 1) as real < target
  {
    assert (k - 1) as real < n as real;
  }

  /** The percentile of a sorted list is one of its values, with the promised share at or below it and less below. */
  lemma PercentileIsExact(sorted: seq<real>, p: real)
    requires Ascending(sorted, Itself) && |sorted| > 0 && 0.0 < p <= 100.0
    ensures IsPercentile(sorted, p, Percentile(sorted, p))
  {
    hide Rank, AtMost, Below, Ascending;
    var k := Rank(|sorted|, p);
    RankInRange(|sorted|, p);
    var v := sorted[k - 1];
    BelowBound(sorted, k - 1);
    AtMostBound(sorted, k - 1);
    SharesBound(k, AtMost(sorted, v), Below(sorted, v), Times(p, |sorted| as real));
  }

  lemma SharesBound(k: int, most: int, below: int, target: real)
    requires 100.0 * k as real >= target && 100.0 * (k - 1) as real < target && most >= k && below <= k - 1
    ensures 100.0 * most as real >= target && 100.0 * below as real < target
  {
    assert most as real >= k as real && below as real <= (k - 1) as real;
  }

  lemma BelowBound(s: seq<real>, i: nat)
    requires Ascending(s, Itself) && i < |s|
    ensures Below(s, s[i]) <= i
  {
    Ordered(s);
    assert s == s[..i] + s[i..];
    CountAppend(s[..i], s[i..], s[i]);
    BelowAtMostLength(s[..i], s[i]);
    NoneBelow(s[i..], s[i]);
  }

  // ---------- the buffer ----------

  /** The buffer read from its write position on is the last values pushed, oldest first. */
  ghost predicate HoldsLast(buffer: seq<real>, index: nat, history: seq<real>)
    requires |buffer| > 0
  {
    && index == |history|
    && if index < |buffer| then buffer[..index] == history
       else buffer[index % |buffer|..] + buffer[..index % |buffer|] == Last(history, |buffer|)
  }

  lemma PushKeepsLast(buffer: seq<real>, index: nat, history: seq<real>, value: real)
    requires |buffer| > 0 && HoldsLast(buffer, index, history)
    ensures HoldsLast(buffer[index % |buffer| := value], index + 1, history + [value])
  {
    var n := |buffer|;
    var r := index % n;
    var after := buffer[r := value];
    if index < n {
      SmallMod(index, n);
      if index + 1 == n {
        SelfMod(n);
        assert after == history + [value];
      } else {
        assert after[..index + 1] == history + [value];
      }
    } else {
      NextMod(index, n);
      assert Last(history + [value], n) == Last(history, n)[1..] + [value];
      assert Last(history, n)[1..] == buffer[r + 1..] + buffer[..r];
      if r + 1 == n {
        assert after == buffer[..r] + [value];
      } else {
        assert after[r + 1..] + after[..r + 1] == buffer[r + 1..] + buffer[..r] + [value];
      }
    }
  }

  lemma SmallMod(i: nat, n: nat)
    requires i < n
    ensures i % n == i
  {}

  lemma SelfMod(n: nat)
    requires n > 0
    ensures n % n == 0
  {}

  lemma NextMod(i: nat, n: nat)
    requires n > 0
    ensures (i + 1) % n == if i % n + 1 == n then 0 else i % n + 1
  {
    var q: int, r: int := i / n, i % n;
    assert i + 1 == n * q + (r + 1);
    if r + 1 == n {
      assert i + 1 == n * (q + 1);
      MultipleMod(n, q + 1, 0);
    } else {
      MultipleMod(n, q, r + 1);
    }
  }

  lemma MultipleMod(n: nat, q: int, r: nat)
    requires r < n
    ensures (n * q + r) % n == r
  {
    var x := n * q + r;
    var d := x / n - q;
    assert n * d == n * (x / n) - n * q;
    assert n * d == r - x % n;
    SmallMultiple(n, d);
  }

  lemma SmallMultiple(n: int, d: int)
    requires n >= 0 && -n < n * d < n
    ensures d == 0
  {
    assert d >= 1 ==> n * d >= n * 1;
    assert d <= -1 ==> n * d <= n * -1;
  }

  /** As a collection, the filled part of the buffer is exactly the last values. */
  lemma FilledIsLast(buffer: seq<real>, index: nat, count: nat, history: seq<real>, v: real)
    requires |buffer| > 0 && HoldsLast(buffer, index, history) && count == if index < |buffer| then index else |buffer|
    ensures multiset(buffer[..count]) == multiset(Last(history, |buffer|))
    ensures AtMost(buffer[..count], v) == AtMost(Last(history, |buffer|), v)
    ensures Below(buffer[..count], v) == Below(Last(history, |buffer|), v)
  {
    if index >= |buffer| {
      var r := index % |buffer|;
      assert buffer[..count] == buffer[..r] + buffer[r..];
      CountAppend(buffer[..r], buffer[r..], v);
      CountAppend(buffer[r..], buffer[..r], v);
    }
  }

  class CircularBuffer {
    const buffer: array<real>
    const capacity: nat
    var index: nat
    var count: nat

    // Everything ever pushed.
    ghost var history: seq<real>

    ghost predicate Valid()
      reads this, buffer
    {
      && capacity > 0 && buffer.Length == capacity
      && HoldsLast(buffer[..], index, history)
      && count == if index < capacity then index else capacity
    }

    constructor (capacity: nat)
      requires capacity > 0
      ensures Valid() && fresh(buffer) && this.capacity == capacity && history == []
    {
      this.capacity := capacity;
      buffer := new real[capacity](_ => 0.0);
      index, count, history := 0, 0, [];
    }

    method Push(value: real)
      requires Valid()
      modifies this`index, this`count, this`history, buffer
      ensures Valid() && history == old(history) + [value]
    {
      PushKeepsLast(buffer[..], index, history, value);
      ghost var before := buffer[..];
      buffer[index % capacity] := value;
      assert buffer[..] == before[index % capacity := value];
      index := index + 1;
      if count < capacity {
        count := count + 1;
      }
      history := history + [value];
    }

    /** The last values pushed, at most `capacity` of them, in ascending order. */
    method Sorted() returns (values: seq<real>)
      requires Valid()
      ensures Ascending(values, Itself)
      ensures multiset(values) == multiset(Last(history, capacity)) && |values| == |Last(history, capacity)|
      ensures forall v :: AtMost(values, v) == AtMost(Last(history, capacity), v)
                && Below(values, v) == Below(Last(history, capacity), v)
    {
      var held := buffer[..count];
      assert held == buffer[..][..count];
      values := Sort(held, Itself);
      SortAscending(held, Itself);
      FilledIsLast(buffer[..], index, count, history, 0.0);
      forall v
        ensures AtMost(values, v) == AtMost(Last(history, capacity), v)
        ensures Below(values, v) == Below(Last(history, capacity), v)
      {
        SortCounts(held, v);
        FilledIsLast(buffer[..], index, count, history, v);
      }
    }

    /** A percentile of the snapshot is that percentile of the last values pushed. */
    method SnapshotPercentile(p: real) returns (v: real)
      requires Valid() && 0.0 < p <= 100.0
      ensures if |history| == 0 then v == 0.0 else IsPercentile(Last(history, capacity), p, v)
    {
      hide AtMost, Below, IsPercentile, Last;
      var sorted := Sorted();
      v := Percentile(sorted, p);
      NoneHeld(history, capacity);
      if |sorted| > 0 {
        PercentileIsExact(sorted, p);
        SameCounts(sorted, Last(history, capacity), p, v);
      }
    }
  }

  lemma NoneHeld(history: seq<real>, capacity: nat)
    requires capacity > 0
    ensures |Last(history, capacity)| == 0 <==> |history| == 0
  {
    assert |history| > capacity ==> |history[|history| - capacity..]| == capacity;
  }

  lemma SameCounts(s: seq<real>, t: seq<real>, p: real, v: real)
    requires IsPercentile(s, p, v) && multiset(s) == multiset(t) && |s| == |t|
    requires AtMost(s, v) == AtMost(t, v) && Below(s, v) == Below(t, v)
    ensures IsPercentile(t, p, v)
  {
    hide AtMost, Below;
    assert v in multiset(s);
    assert v in multiset(t);
  }
}
