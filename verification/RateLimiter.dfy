/** The sliding-window limiter keeps only recent timestamps and is pruned at any moment; it accepts exactly what a
    limiter with the full history of acceptances would. Time is a non-decreasing argument. */
module RateLimiters {
  import opened Sets

  datatype RateLimitRule = RateLimitRule(maxRequests: nat, windowMs: nat)

  /** A delay in milliseconds; Never stands for an infinite one. */
  datatype Delay = Ms(ms: int) | Never

  const PRUNE_WINDOW := 3_600_000

  // ---------- the full-history limiter ----------

  /** The times after the cutoff, in order. */
  function Within(times: seq<int>, cutoff: int): seq<int> {
    if |times| == 0 then []
    else if times[0] > cutoff then [times[0]] + Within(times[1..], cutoff)
    else Within(times[1..], cutoff)
  }

  /** What the limiter promises to decide: fewer than the maximum accepted in the window that ends now. */
  predicate Accepts(history: seq<int>, rule: RateLimitRule, now: int) {
    |Within(history, now - rule.windowMs)| < rule.maxRequests
  }

  ghost predicate Sorted(times: seq<int>) {
    forall i, j :: 0 <= i < j < |times| ==> times[i] <= times[j]
  }

  /** Any acceptance and the one `maxRequests` later are at least a window apart. */
  ghost predicate Spaced(history: seq<int>, rule: RateLimitRule) {
    && (|history| > 0 ==> rule.maxRequests > 0)
    && forall i, j :: 0 <= i && j == i + rule.maxRequests && j < |history| ==> history[j] - history[i] >= rule.windowMs
  }

  lemma {:induction false} WithinAppend(a: seq<int>, b: seq<int>, cutoff: int)
    ensures Within(a + b, cutoff) == Within(a, cutoff) + Within(b, cutoff)
  {
    if |a| == 0 {
      assert a + b == b;
    } else {
      assert (a + b)[1..] == a[1..] + b;
      WithinAppend(a[1..], b, cutoff);
    }
  }

  /** Pruning with an earlier cutoff first makes no difference. */
  lemma {:induction false} WithinTwice(times: seq<int>, c: int, d: int)
    requires c <= d
    ensures Within(Within(times, c), d) == Within(times, d)
  {
    if |times| > 0 {
      WithinTwice(times[1..], c, d);
      if times[0] > c {
        var rest := Within(times[1..], c);
        assert ([times[0]] + rest)[1..] == rest;
      }
    }
  }

  /** In a sorted list the times after the cutoff are a suffix. */
  lemma {:induction false} WithinIsSuffix(times: seq<int>, cutoff: int) returns (k: nat)
    requires Sorted(times)
    ensures k <= |times| && Within(times, cutoff) == times[k..]
    ensures forall i :: 0 <= i < k ==> times[i] <= cutoff
    ensures forall i :: k <= i < |times| ==> times[i] > cutoff
  {
    if |times| == 0 || times[0] > cutoff {
      k := 0;
      AllWithin(times, cutoff);
    } else {
      var r := WithinIsSuffix(times[1..], cutoff);
      k := r + 1;
      assert times[1..][r..] == times[k..];
      assert forall i :: k <= i < |times| ==> times[i] == times[1..][i - 1];
    }
  }

  lemma {:induction false} AllWithin(times: seq<int>, cutoff: int)
    requires forall i :: 0 <= i < |times| ==> times[i] > cutoff
    ensures Within(times, cutoff) == times
  {
    if |times| > 0 {
      AllWithin(times[1..], cutoff);
    }
  }

  /** One more acceptance keeps the acceptances spaced. */
  lemma AcceptKeepsSpaced(history: seq<int>, rule: RateLimitRule, now: int)
    requires Sorted(history) && Spaced(history, rule) && Accepts(history, rule, now)
    requires forall i :: 0 <= i < |history| ==> history[i] <= now
    ensures Sorted(history + [now]) && Spaced(history + [now], rule)
  {
    var k := WithinIsSuffix(history, now - rule.windowMs);
    var longer := history + [now];
    forall i, j | 0 <= i && j == i + rule.maxRequests && j < |longer| ensures longer[j] - longer[i] >= rule.windowMs {
      if j == |history| {
        assert |history| - k < rule.maxRequests;
        assert i < k && longer[i] == history[i];
      } else {
        assert longer[j] == history[j] && longer[i] == history[i];
      }
    }
  }

  /** The window that ends now never holds more than the maximum. */
  lemma WindowNotOverfull(history: seq<int>, rule: RateLimitRule, now: int)
    requires Sorted(history) && Spaced(history, rule) && forall i :: 0 <= i < |history| ==> history[i] <= now
    ensures |Within(history, now - rule.windowMs)| <= rule.maxRequests
  {
    var k := WithinIsSuffix(history, now - rule.windowMs);
    SpacedAt(history, rule, k);
  }

  lemma SpacedAt(history: seq<int>, rule: RateLimitRule, i: nat)
    requires Spaced(history, rule)
    ensures i + rule.maxRequests < |history| ==> history[i + rule.maxRequests] - history[i] >= rule.windowMs
  {}

  lemma SortedAt(times: seq<int>, i: nat, j: nat)
    requires Sorted(times)
    ensures i <= j < |times| ==> times[i] <= times[j]
  {}

  /** The indices of the acceptances in [from, from + windowMs). */
  function InInterval(history: seq<int>, from: int, windowMs: nat): set<int> {
    set i | 0 <= i < |history| && from <= history[i] < from + windowMs
  }

  /** No interval as long as the window holds more acceptances than the maximum. */
  lemma NoIntervalOverfull(history: seq<int>, rule: RateLimitRule, from: int)
    requires Sorted(history) && Spaced(history, rule)
    ensures |InInterval(history, from, rule.windowMs)| <= rule.maxRequests
  {
    var hits := InInterval(history, from, rule.windowMs);
    if hits != {} {
      var first := Least(hits);
      forall i | i in hits ensures i in Range(first, rule.maxRequests) {
        SpacedAt(history, rule, first);
        SortedAt(history, first + rule.maxRequests, i);
      }
      SubsetSize(hits, Range(first, rule.maxRequests));
    }
  }

  lemma {:induction false} Least(s: set<int>) returns (m: int)
    requires s != {}
    ensures m in s && forall x :: x in s ==> m <= x
    decreases |s|
  {
    assert (forall x :: x !in s) ==> s == {};
    var x :| x in s;
    var rest := s - {x};
    assert s == rest + {x};
    if rest == {} {
      m := x;
    } else {
      var n := Least(rest);
      m := if n < x then n else x;
    }
  }

  /** Counted by index: a call is accepted when fewer than the maximum were in the window that ends with it. */
  lemma AcceptsByCount(history: seq<int>, rule: RateLimitRule, now: int)
    requires Sorted(history) && forall i :: 0 <= i < |history| ==> history[i] <= now
    ensures Accepts(history, rule, now) <==>
              |InInterval(history, now - rule.windowMs + 1, rule.windowMs)| < rule.maxRequests
  {
    var k := WithinIsSuffix(history, now - rule.windowMs);
    hide Within, InInterval, Sorted;
    SuffixByIndex(history, rule.windowMs, now, k);
  }

  lemma SuffixByIndex(history: seq<int>, windowMs: nat, now: int, k: nat)
    requires k <= |history| && forall i :: 0 <= i < k ==> history[i] <= now - windowMs
    requires forall i :: k <= i < |history| ==> now - windowMs < history[i] <= now
    ensures |InInterval(history, now - windowMs + 1, windowMs)| == |history| - k
  {
    assert InInterval(history, now - windowMs + 1, windowMs) == Range(k, |history| - k);
  }

  // ---------- the limiter ----------

  /** The kept timestamps are the history as far as any window that ends now or later can tell. */
  ghost predicate Agrees(kept: seq<int>, history: seq<int>, since: int) {
    forall c :: c >= since ==> Within(kept, c) == Within(history, c)
  }

  lemma AgreesAfterPrune(kept: seq<int>, history: seq<int>, since: int, cutoff: int, later: int)
    requires Agrees(kept, history, since) && since <= later && cutoff <= later
    ensures Agrees(Within(kept, cutoff), history, later)
  {
    forall c | c >= later ensures Within(Within(kept, cutoff), c) == Within(history, c) {
      WithinTwice(kept, cutoff, c);
    }
  }

  lemma AgreesAfterPush(kept: seq<int>, history: seq<int>, since: int, now: int)
    requires Agrees(kept, history, since)
    ensures Agrees(kept + [now], history + [now], since)
  {
    forall c | c >= since ensures Within(kept + [now], c) == Within(history + [now], c) {
      WithinAppend(kept, [now], c);
      WithinAppend(history, [now], c);
    }
  }

  /** A bucket, the acceptances it stands for, and the rule of its key at the time of the last call. */
  ghost predicate BucketOk(kept: seq<int>, history: seq<int>, rule: RateLimitRule, clock: int) {
    && rule.windowMs <= PRUNE_WINDOW && Sorted(history) && Spaced(history, rule)
    && (forall i :: 0 <= i < |history| ==> history[i] <= clock)
    && Agrees(kept, history, clock - rule.windowMs)
  }

  lemma EmptyBucketOk(rule: RateLimitRule, clock: int)
    requires rule.windowMs <= PRUNE_WINDOW
    ensures BucketOk([], [], rule, clock)
  {}

  /** Pruning with any cutoff no later than the window keeps the bucket. */
  lemma PruneKeepsBucket(kept: seq<int>, history: seq<int>, rule: RateLimitRule, clock: int, now: int, cutoff: int)
    requires BucketOk(kept, history, rule, clock) && clock <= now && cutoff <= now - rule.windowMs
    ensures BucketOk(Within(kept, cutoff), history, rule, now)
  {
    AgreesAfterPrune(kept, history, clock - rule.windowMs, cutoff, now - rule.windowMs);
  }

  /** The pruned bucket decides like the full history, and stays right with the new acceptance. */
  lemma CheckBucket(kept: seq<int>, history: seq<int>, rule: RateLimitRule, clock: int, now: int)
    requires BucketOk(kept, history, rule, clock) && clock <= now
    ensures |Within(kept, now - rule.windowMs)| < rule.maxRequests <==> Accepts(history, rule, now)
    ensures BucketOk(Within(kept, now - rule.windowMs), history, rule, now)
    ensures Accepts(history, rule, now) ==>
              BucketOk(Within(kept, now - rule.windowMs) + [now], history + [now], rule, now)
  {
    var cutoff := now - rule.windowMs;
    PruneKeepsBucket(kept, history, rule, clock, now, cutoff);
    if Accepts(history, rule, now) {
      AcceptKeepsSpaced(history, rule, now);
      AgreesAfterPush(Within(kept, cutoff), history, cutoff, now);
    }
  }

  type Key = string

  class RateLimiter {
    var buckets: map<Key, seq<int>>
    var globalBucket: seq<int>

    // Everything ever accepted, the one rule each key is used with, and the time of the last call.
    ghost var history: map<Key, seq<int>>
    ghost var rules: map<Key, RateLimitRule>
    ghost var globalHistory: seq<int>
    ghost const globalRule: RateLimitRule
    ghost var clock: int

    ghost predicate Valid()
      reads this
    {
      && history.Keys == rules.Keys && buckets.Keys <= rules.Keys
      && (forall key :: key in rules ==> BucketOk(Kept(key), history[key], rules[key], clock))
      && BucketOk(globalBucket, globalHistory, globalRule, clock)
    }

    function Kept(key: Key): seq<int>
      reads this
    {
      if key in buckets then buckets[key] else []
    }

    ghost function HistoryOf(key: Key): seq<int>
      reads this
    {
      if key in history then history[key] else []
    }

    constructor (ghost globalRule: RateLimitRule, ghost now: int)
      requires globalRule.windowMs <= PRUNE_WINDOW
      ensures Valid() && history == map[] && globalHistory == [] && this.globalRule == globalRule && clock == now
    {
      buckets, globalBucket := map[], [];
      history, rules, globalHistory, clock := map[], map[], [], now;
      this.globalRule := globalRule;
      new;
      EmptyBucketOk(globalRule, now);
    }

    lemma BucketOfKey(key: Key, rule: RateLimitRule)
      requires Valid() && rule.windowMs <= PRUNE_WINDOW && (key in rules ==> rules[key] == rule)
      ensures BucketOk(Kept(key), HistoryOf(key), rule, clock)
    {
      EmptyBucketOk(rule, clock);
    }

    /** Time passes: every bucket stays right. */
    lemma OthersAge(key: Key, now: int)
      requires Valid() && clock <= now && key in rules
      ensures BucketOk(Kept(key), history[key], rules[key], now)
    {
      var since := clock - rules[key].windowMs;
      assert BucketOk(Kept(key), history[key], rules[key], clock);
    }

    lemma GlobalAges(now: int)
      requires Valid() && clock <= now
      ensures BucketOk(globalBucket, globalHistory, globalRule, now)
    {}

    method Check(key: Key, rule: RateLimitRule, now: int) returns (allowed: bool)
      requires Valid() && clock <= now
      requires rule.windowMs <= PRUNE_WINDOW && (key in rules ==> rules[key] == rule)
      modifies this
      ensures Valid() && clock == now && rules == old(rules)[key := rule]
      ensures allowed == Accepts(old(HistoryOf(key)), rule, now)
      ensures HistoryOf(key) == if allowed then old(HistoryOf(key)) + [now] else old(HistoryOf(key))
      ensures forall other :: other != key ==> HistoryOf(other) == old(HistoryOf(other))
      ensures globalHistory == old(globalHistory) && globalBucket == old(globalBucket)
    {
      hide Accepts, BucketOk, Within;
      ghost var accepted := HistoryOf(key);
      BucketOfKey(key, rule);
      CheckBucket(Kept(key), accepted, rule, clock, now);
      EveryoneAges(now);
      var cutoff := now - rule.windowMs;
      if key !in buckets {
        buckets := buckets[key := []];
      }
      var active := Within(buckets[key], cutoff);
      if |active| >= rule.maxRequests {
        Store(key, rule, active, accepted, now);
        return false;
      }
      Store(key, rule, active + [now], accepted + [now], now);
      return true;
    }

    /** Puts back the bucket of a key, with its history and the time. */
    method Store(key: Key, ghost rule: RateLimitRule, active: seq<int>, ghost accepted: seq<int>, ghost now: int)
      requires history.Keys == rules.Keys && buckets.Keys <= rules.Keys + {key}
      requires forall k :: k in rules && k != key ==> BucketOk(Kept(k), history[k], rules[k], now)
      requires BucketOk(globalBucket, globalHistory, globalRule, now) && BucketOk(active, accepted, rule, now)
      modifies this`buckets, this`history, this`rules, this`clock
      ensures Valid() && buckets == old(buckets)[key := active]
      ensures history == old(history)[key := accepted] && rules == old(rules)[key := rule] && clock == now
    {
      hide BucketOk;
      buckets := buckets[key := active];
      history, rules, clock := history[key := accepted], rules[key := rule], now;
    }

    lemma EveryoneAges(now: int)
      requires Valid() && clock <= now
      ensures forall k :: k in rules ==> BucketOk(Kept(k), history[k], rules[k], now)
      ensures BucketOk(globalBucket, globalHistory, globalRule, now)
    {
      GlobalAges(now);
      hide BucketOk;
      forall k | k in rules ensures BucketOk(Kept(k), history[k], rules[k], now) {
        OthersAge(k, now);
      }
    }

    method CheckGlobal(rule: RateLimitRule, now: int) returns (allowed: bool)
      requires Valid() && clock <= now && rule == globalRule
      modifies this
      ensures Valid() && clock == now && rules == old(rules) && history == old(history)
      ensures allowed == Accepts(old(globalHistory), rule, now)
      ensures globalHistory == if allowed then old(globalHistory) + [now] else old(globalHistory)
    {
      hide Accepts, BucketOk;
      CheckBucket(globalBucket, globalHistory, rule, clock, now);
      EveryoneAges(now);
      var cutoff := now - rule.windowMs;
      globalBucket := Within(globalBucket, cutoff);
      clock := now;
      if |globalBucket| >= rule.maxRequests {
        return false;
      }
      globalBucket := globalBucket + [now];
      globalHistory := globalHistory + [now];
      return true;
    }

    /** What is left of the maximum, by the full history. */
    method Remaining(key: Key, rule: RateLimitRule, now: int) returns (n: nat)
      requires Valid() && clock <= now
      requires rule.windowMs <= PRUNE_WINDOW && (key in rules ==> rules[key] == rule)
      ensures n == rule.maxRequests - |Within(HistoryOf(key), now - rule.windowMs)|
    {
      BucketOfKey(key, rule);
      WindowNotOverfull(HistoryOf(key), rule, now);
      if key !in buckets {
        return rule.maxRequests;
      }
      var active := |Within(buckets[key], now - rule.windowMs)|;
      n := if rule.maxRequests - active > 0 then rule.maxRequests - active else 0;
    }

    /** The exact time to wait, if nothing else arrives: a check succeeds then, and at no moment before. */
    method RetryAfterMs(key: Key, rule: RateLimitRule, now: int) returns (delay: Delay)
      requires Valid() && clock <= now
      requires rule.windowMs <= PRUNE_WINDOW && (key in rules ==> rules[key] == rule)
      ensures rule.maxRequests > 0 ==> delay.Ms? && FirstSuccess(HistoryOf(key), rule, now, now + delay.ms)
      ensures rule.maxRequests == 0 ==> delay == if key in buckets then Never else Ms(0)
    {
      hide Accepts, BucketOk, Within, FirstSuccess;
      BucketOfKey(key, rule);
      ghost var accepted := HistoryOf(key);
      NowAccepts(Kept(key), accepted, rule, clock, now);
      if key !in buckets {
        EmptyStaysEmpty(now - rule.windowMs);
        return Ms(0);
      }
      var active := Within(buckets[key], now - rule.windowMs);
      if |active| < rule.maxRequests {
        return Ms(0);
      }
      if |active| == 0 {
        return Never;
      }
      var earliest := active[0];
      for i := 1 to |active|
        invariant earliest in active && forall j :: 0 <= j < i ==> earliest <= active[j]
      {
        earliest := if active[i] < earliest then active[i] else earliest;
      }
      EarliestDecides(Kept(key), accepted, rule, clock, now, earliest);
      return Ms(earliest + rule.windowMs - now);
    }

    /** The timer: drops timestamps older than an hour, and empty buckets. Runs at any moment. */
    method PruneAll(now: int)
      requires Valid() && clock <= now
      modifies this
      ensures Valid() && clock == now && history == old(history) && globalHistory == old(globalHistory)
      ensures rules == old(rules)
    {
      hide BucketOk, Within;
      var cutoff := now - PRUNE_WINDOW;
      forall key | key in rules ensures BucketOk(Within(Kept(key), cutoff), history[key], rules[key], now) {
        WindowOfKey(key);
        PruneKeepsBucket(Kept(key), history[key], rules[key], clock, now, cutoff);
      }
      GlobalWindow();
      PruneKeepsBucket(globalBucket, globalHistory, globalRule, clock, now, cutoff);
      PruneBuckets(cutoff);
      globalBucket := Within(globalBucket, cutoff);
      clock := now;
    }

    method PruneBuckets(cutoff: int)
      modifies this`buckets
      ensures buckets.Keys <= old(buckets).Keys
      ensures forall key :: Kept(key) == Within(old(Kept(key)), cutoff)
    {
      ghost var before := buckets;
      EmptyStaysEmpty(cutoff);
      hide Within;
      var rest := buckets.Keys;
      while rest != {}
        invariant rest <= buckets.Keys <= before.Keys
        invariant forall key :: key in rest ==> key in before && buckets[key] == before[key]
        invariant forall key :: key in before && key !in rest ==> Kept(key) == Within(before[key], cutoff)
        decreases |rest|
      {
        var key :| key in rest;
        var kept := Within(buckets[key], cutoff);
        rest := rest - {key};
        if |kept| == 0 {
          buckets := buckets - {key};
        } else {
          buckets := buckets[key := kept];
        }
      }
    }

    /** Whatever was called and pruned so far: no interval as long as the window of a key holds more acceptances of it
        than its maximum. */
    lemma NeverOverfull(key: Key, from: int)
      requires Valid() && key in rules
      ensures |InInterval(history[key], from, rules[key].windowMs)| <= rules[key].maxRequests
    {
      assert BucketOk(Kept(key), history[key], rules[key], clock);
      NoIntervalOverfull(history[key], rules[key], from);
    }

    lemma WindowOfKey(key: Key)
      requires Valid() && key in rules
      ensures rules[key].windowMs <= PRUNE_WINDOW && BucketOk(Kept(key), history[key], rules[key], clock)
    {
      assert BucketOk(Kept(key), history[key], rules[key], clock);
    }

    lemma GlobalWindow()
      requires Valid()
      ensures globalRule.windowMs <= PRUNE_WINDOW
    {}
  }

  lemma EmptyStaysEmpty(cutoff: int)
    ensures Within([], cutoff) == []
  {}

  lemma NowAccepts(kept: seq<int>, history: seq<int>, rule: RateLimitRule, clock: int, now: int)
    requires BucketOk(kept, history, rule, clock) && clock <= now
    ensures |Within(kept, now - rule.windowMs)| < rule.maxRequests ==> FirstSuccess(history, rule, now, now)
    ensures |Within(kept, now - rule.windowMs)| > 0 ==> rule.maxRequests > 0
  {
    assert Within(kept, now - rule.windowMs) == Within(history, now - rule.windowMs);
    WindowNotOverfull(history, rule, now);
  }

  /** When the bucket is full its earliest timestamp decides the first moment of success. */
  lemma EarliestDecides(kept: seq<int>, history: seq<int>, rule: RateLimitRule, clock: int, now: int, e: int)
    requires BucketOk(kept, history, rule, clock) && clock <= now
    requires var active := Within(kept, now - rule.windowMs);
      e in active && (forall j :: 0 <= j < |active| ==> e <= active[j]) && |active| >= rule.maxRequests
    ensures FirstSuccess(history, rule, now, e + rule.windowMs)
  {
    hide *;
    SameWindow(kept, history, rule, clock, now);
    var k := WithinIsSuffix(history, now - rule.windowMs);
    LeastOfSuffix(history, k, e);
    FullUntil(history, rule, now, k);
  }

  lemma SameWindow(kept: seq<int>, history: seq<int>, rule: RateLimitRule, clock: int, now: int)
    requires BucketOk(kept, history, rule, clock) && clock <= now
    ensures Within(kept, now - rule.windowMs) == Within(history, now - rule.windowMs) && Sorted(history)
    ensures |Within(history, now - rule.windowMs)| <= rule.maxRequests
  {
    hide Within;
    WindowNotOverfull(history, rule, now);
  }

  lemma LeastOfSuffix(history: seq<int>, k: nat, e: int)
    requires Sorted(history) && k <= |history| && e in history[k..]
    requires forall j :: 0 <= j < |history[k..]| ==> e <= history[k..][j]
    ensures k < |history| && e == history[k]
  {
    var j :| 0 <= j < |history[k..]| && history[k..][j] == e;
    assert history[k..][0] == history[k] && e == history[k + j];
  }

  ghost predicate FirstSuccess(history: seq<int>, rule: RateLimitRule, now: int, moment: int) {
    now <= moment && Accepts(history, rule, moment) && forall t :: now <= t < moment ==> !Accepts(history, rule, t)
  }

  lemma FullUntil(history: seq<int>, rule: RateLimitRule, now: int, k: nat)
    requires Sorted(history) && k < |history| && |history| - k == rule.maxRequests
    requires forall i :: 0 <= i < k ==> history[i] <= now - rule.windowMs
    requires forall i :: k <= i < |history| ==> history[i] > now - rule.windowMs
    ensures FirstSuccess(history, rule, now, history[k] + rule.windowMs)
  {
    var moment := history[k] + rule.windowMs;
    forall t | now <= t < moment ensures !Accepts(history, rule, t) {
      var m := WithinIsSuffix(history, t - rule.windowMs);
      assert m <= k;
    }
    var m := WithinIsSuffix(history, moment - rule.windowMs);
    assert m > k;
  }

  // ---------- the hour of pruneAll ----------

  /** A prune at any moment leaves every later decision as the full history makes it. */
  ghost predicate PruneIsHarmless(rule: RateLimitRule) {
    forall history, prunedAt: int, now: int ::
      Sorted(history) && Spaced(history, rule) && (forall i :: 0 <= i < |history| ==> history[i] <= prunedAt)
      && prunedAt <= now
      ==> DecidesAlike(history, rule, prunedAt, now)
  }

  ghost predicate DecidesAlike(history: seq<int>, rule: RateLimitRule, prunedAt: int, now: int) {
    |Within(Within(history, prunedAt - PRUNE_WINDOW), now - rule.windowMs)| < rule.maxRequests <==>
      Accepts(history, rule, now)
  }

  lemma {:induction false} NoneWithin(times: seq<int>, cutoff: int)
    requires forall i :: 0 <= i < |times| ==> times[i] <= cutoff
    ensures Within(times, cutoff) == []
  {
    if |times| > 0 {
      NoneWithin(times[1..], cutoff);
    }
  }

  /** Pruning by one hour is harmless exactly for windows of at most an hour (and for limits that never accept). */
  lemma PruneIsHarmlessIff(rule: RateLimitRule)
    ensures PruneIsHarmless(rule) <==> rule.windowMs <= PRUNE_WINDOW || rule.maxRequests == 0
  {
    if rule.windowMs <= PRUNE_WINDOW || rule.maxRequests == 0 {
      forall history: seq<int>, prunedAt: int, now: int | rule.windowMs <= PRUNE_WINDOW && prunedAt <= now
        ensures DecidesAlike(history, rule, prunedAt, now)
      {
        WithinTwice(history, prunedAt - PRUNE_WINDOW, now - rule.windowMs);
      }
    } else {
      var history := seq(rule.maxRequests, _ => 0);
      AllWithin(history, PRUNE_WINDOW - rule.windowMs);
      NoneWithin(history, 0);
      assert !DecidesAlike(history, rule, PRUNE_WINDOW, PRUNE_WINDOW);
    }
  }
}
