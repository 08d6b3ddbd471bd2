/** The LRU+TTL certificate cache. An insertion-ordered map is a list of items with distinct keys. */
module CertCaches {
  import opened Numbers
  import opened Sets
  import opened Wrappers

  type Key = string

  datatype Item<T> = Item(key: Key, value: T, expiresAt: int)

  type Items<T> = seq<Item<T>>

  // ---------- the insertion-ordered map ----------

  function Keys<T>(s: Items<T>): set<Key> {
    if |s| == 0 then {} else {s[0].key} + Keys(s[1..])
  }

  ghost predicate Distinct<T>(s: Items<T>) {
    |s| == 0 || (s[0].key !in Keys(s[1..]) && Distinct(s[1..]))
  }

  function Lookup<T>(s: Items<T>, key: Key): (r: Option<Item<T>>)
    ensures r.Some? <==> key in Keys(s)
    ensures r.Some? ==> r.value.key == key
  {
    if |s| == 0 then None else if s[0].key == key then Some(s[0]) else Lookup(s[1..], key)
  }

  function Without<T>(s: Items<T>, key: Key): Items<T> {
    if |s| == 0 then [] else if s[0].key == key then Without(s[1..], key) else [s[0]] + Without(s[1..], key)
  }

  /** The keys that come after a key: those inserted later. */
  function After<T>(s: Items<T>, key: Key): set<Key> {
    if |s| == 0 then {} else if s[0].key == key then Keys(s[1..]) else After(s[1..], key)
  }

  lemma {:induction false} WithoutKeys<T>(s: Items<T>, key: Key)
    ensures Keys(Without(s, key)) == Keys(s) - {key}
    ensures Distinct(s) ==> Distinct(Without(s, key))
    ensures |Without(s, key)| <= |s| && (key !in Keys(s) ==> Without(s, key) == s)
    ensures key in Keys(s) ==> |Without(s, key)| < |s|
  {
    if |s| > 0 {
      WithoutKeys(s[1..], key);
      if s[0].key != key {
        assert Without(s, key)[1..] == Without(s[1..], key);
      }
    }
  }

  lemma {:induction false} WithoutOther<T>(s: Items<T>, key: Key, other: Key)
    requires other != key
    ensures Lookup(Without(s, other), key) == Lookup(s, key)
    ensures After(Without(s, other), key) <= After(s, key)
  {
    if |s| > 0 {
      WithoutOther(s[1..], key, other);
      WithoutKeys(s[1..], other);
      if s[0].key != other {
        assert Without(s, other)[1..] == Without(s[1..], other);
      }
    }
  }

  lemma {:induction false} AppendItem<T>(s: Items<T>, x: Item<T>, key: Key)
    ensures Keys(s + [x]) == Keys(s) + {x.key}
    ensures Distinct(s) && x.key !in Keys(s) ==> Distinct(s + [x])
    ensures key in Keys(s) ==> Lookup(s + [x], key) == Lookup(s, key) && After(s + [x], key) == After(s, key) + {x.key}
    ensures key !in Keys(s) && key == x.key ==> Lookup(s + [x], key) == Some(x) && After(s + [x], key) == {}
  {
    if |s| == 0 {
      assert s + [x] == [x] && [x][1..] == [];
    } else {
      AppendItem(s[1..], x, key);
      assert (s + [x])[1..] == s[1..] + [x];
    }
  }

  lemma {:induction false} KeyCount<T>(s: Items<T>)
    requires Distinct(s)
    ensures |Keys(s)| == |s|
  {
    if |s| > 0 {
      KeyCount(s[1..]);
    }
  }

  // ---------- the operations on the map ----------

  function AfterGet<T>(s: Items<T>, key: Key, now: int): Items<T> {
    match Lookup(s, key)
    case None => s
    case Some(item) => if now > item.expiresAt then Without(s, key) else Without(s, key) + [item]
  }

  predicate Hit<T>(s: Items<T>, key: Key, now: int) {
    Lookup(s, key).Some? && now <= Lookup(s, key).value.expiresAt
  }

  function AfterSet<T>(s: Items<T>, item: Item<T>, maxEntries: nat): Items<T> {
    var rest := Without(s, item.key);
    (if |rest| >= maxEntries && |rest| > 0 then rest[1..] else rest) + [item]
  }

  function AfterHas<T>(s: Items<T>, key: Key, now: int): Items<T> {
    if Lookup(s, key).Some? && now > Lookup(s, key).value.expiresAt then Without(s, key) else s
  }

  ghost predicate WellKept<T>(s: Items<T>, maxEntries: nat) {
    Distinct(s) && |s| <= AtLeastOne(maxEntries)
  }

  lemma GetKeeps<T>(s: Items<T>, key: Key, now: int, maxEntries: nat)
    requires WellKept(s, maxEntries)
    ensures WellKept(AfterGet(s, key, now), maxEntries)
  {
    WithoutKeys(s, key);
    if Lookup(s, key).Some? {
      AppendItem(Without(s, key), Lookup(s, key).value, key);
    }
  }

  lemma SetKeeps<T>(s: Items<T>, item: Item<T>, maxEntries: nat)
    requires WellKept(s, maxEntries)
    ensures WellKept(AfterSet(s, item, maxEntries), maxEntries)
    ensures Lookup(AfterSet(s, item, maxEntries), item.key) == Some(item)
    ensures After(AfterSet(s, item, maxEntries), item.key) == {}
  {
    WithoutKeys(s, item.key);
    var rest := Without(s, item.key);
    var kept := if |rest| >= maxEntries && |rest| > 0 then rest[1..] else rest;
    AppendItem(kept, item, item.key);
  }

  // ---------- the cache ----------

  class CertCache<T> {
    var cache: Items<T>
    const maxEntries: nat
    const ttlMs: int

    constructor (maxEntries: nat, ttlMs: int)
      ensures this.maxEntries == maxEntries && this.ttlMs == ttlMs && cache == [] && Valid()
    {
      this.maxEntries, this.ttlMs := maxEntries, ttlMs;
      cache := [];
    }

    ghost predicate Valid()
      reads this
    {
      WellKept(cache, maxEntries)
    }

    method Get(key: Key, now: int) returns (r: Option<T>)
      requires Valid()
      modifies this
      ensures Valid() && cache == AfterGet(old(cache), key, now)
      ensures r == if Hit(old(cache), key, now) then Some(Lookup(old(cache), key).value.value) else None
      ensures r.Some? <==> key in Keys(old(cache)) && now <= Lookup(old(cache), key).value.expiresAt
      ensures r.None? ==> key !in Keys(cache)
    {
      WithoutKeys(cache, key);
      GetKeeps(cache, key, now, maxEntries);
      var entry := Lookup(cache, key);
      if entry.None? {
        return None;
      }
      if now > entry.value.expiresAt {
        cache := Without(cache, key);
        return None;
      }
      cache := Without(cache, key);
      cache := cache + [entry.value];
      return Some(entry.value.value);
    }

    method Set(key: Key, value: T, now: int)
      requires Valid()
      modifies this
      ensures Valid() && cache == AfterSet(old(cache), Item(key, value, now + ttlMs), maxEntries)
    {
      SetKeeps(cache, Item(key, value, now + ttlMs), maxEntries);
      cache := Without(cache, key);
      if |cache| >= maxEntries {
        // With no entry at all there is no first key, and nothing is deleted.
        if |cache| > 0 {
          cache := cache[1..];
        }
      }
      cache := cache + [Item(key, value, now + ttlMs)];
    }

    method Has(key: Key, now: int) returns (found: bool)
      requires Valid()
      modifies this
      ensures Valid() && cache == AfterHas(old(cache), key, now)
      ensures found == Hit(old(cache), key, now)
      ensures found <==> key in Keys(old(cache)) && now <= Lookup(old(cache), key).value.expiresAt
      ensures if found then cache == old(cache) else key !in Keys(cache)
    {
      WithoutKeys(cache, key);
      var entry := Lookup(cache, key);
      if entry.None? {
        return false;
      }
      if now > entry.value.expiresAt {
        cache := Without(cache, key);
        return false;
      }
      return true;
    }

    /** The value generated when the key is missing or expired is `generated`, available at `later`. */
    method GetOrCreate(key: Key, generated: T, now: int, later: int) returns (value: T)
      requires Valid()
      modifies this
      ensures Valid()
      ensures value == if Hit(old(cache), key, now) then Lookup(old(cache), key).value.value else generated
      ensures cache == if Hit(old(cache), key, now) then AfterGet(old(cache), key, now)
                       else AfterSet(AfterGet(old(cache), key, now), Item(key, generated, later + ttlMs), maxEntries)
    {
      var cached := Get(key, now);
      if cached.Some? {
        return cached.value;
      }
      Set(key, generated, later);
      return generated;
    }
  }

  // ---------- runs ----------

  datatype Op<T> = Get(key: Key, now: int) | Set(key: Key, value: T, now: int) | Has(key: Key, now: int)

  datatype Limits = Limits(maxEntries: nat, ttlMs: int)

  function Next<T>(s: Items<T>, op: Op<T>, limits: Limits): Items<T> {
    match op
    case Get(key, now) => AfterGet(s, key, now)
    case Set(key, value, now) => AfterSet(s, Item(key, value, now + limits.ttlMs), limits.maxEntries)
    case Has(key, now) => AfterHas(s, key, now)
  }

  /** The operation makes the key the most recently used one. */
  predicate Touches<T>(s: Items<T>, op: Op<T>, key: Key) {
    op.key == key && (op.Set? || (op.Get? && Hit(s, key, op.now)))
  }

  ghost predicate IsRun<T>(states: seq<Items<T>>, ops: seq<Op<T>>, limits: Limits) {
    && |states| == |ops| + 1 && states[0] == []
    && forall i :: 0 <= i < |ops| ==> states[i + 1] == Next(states[i], ops[i], limits)
  }

  lemma NextKeeps<T>(s: Items<T>, op: Op<T>, limits: Limits)
    requires WellKept(s, limits.maxEntries)
    ensures WellKept(Next(s, op, limits), limits.maxEntries)
  {
    match op {
      case Get(key, now) => GetKeeps(s, key, now, limits.maxEntries);
      case Set(key, value, now) => SetKeeps(s, Item(key, value, now + limits.ttlMs), limits.maxEntries);
      case Has(key, now) => WithoutKeys(s, key);
    }
  }

  /** The cache never holds more than its maximum (one, should that be zero), nor a key twice. */
  lemma {:induction false} NeverOverfull<T>(states: seq<Items<T>>, ops: seq<Op<T>>, limits: Limits, n: nat)
    requires IsRun(states, ops, limits) && n < |states|
    ensures WellKept(states[n], limits.maxEntries)
  {
    if n > 0 {
      NeverOverfull(states, ops, limits, n - 1);
      NextKeeps(states[n - 1], ops[n - 1], limits);
    }
  }

  // ---------- a key that was used recently enough stays ----------

  /** The key is held with this item, and only keys of `others` were used after it. */
  ghost predicate Holds<T>(s: Items<T>, item: Item<T>, others: set<Key>) {
    Lookup(s, item.key) == Some(item) && After(s, item.key) <= others
  }

  lemma GetOther<T>(s: Items<T>, item: Item<T>, others: set<Key>, key: Key, now: int)
    requires Holds(s, item, others) && key != item.key
    ensures Holds(AfterGet(s, key, now), item, if Hit(s, key, now) then others + {key} else others)
  {
    WithoutOther(s, item.key, key);
    if Lookup(s, key).Some? {
      WithoutKeys(s, key);
      AppendItem(Without(s, key), Lookup(s, key).value, item.key);
    }
  }

  lemma GetSame<T>(s: Items<T>, item: Item<T>, others: set<Key>, now: int)
    requires Holds(s, item, others) && now <= item.expiresAt
    ensures Holds(AfterGet(s, item.key, now), item, {})
  {
    WithoutKeys(s, item.key);
    AppendItem(Without(s, item.key), item, item.key);
  }

  /** The evicted entry is another one, as long as fewer than the maximum of other keys were used since. */
  lemma SetOther<T>(s: Items<T>, item: Item<T>, others: set<Key>, x: Item<T>, maxEntries: nat)
    requires WellKept(s, maxEntries) && Holds(s, item, others) && x.key != item.key
    requires |others + {x.key}| < maxEntries
    ensures Holds(AfterSet(s, x, maxEntries), item, others + {x.key})
  {
    WithoutOther(s, item.key, x.key);
    WithoutKeys(s, x.key);
    var rest := Without(s, x.key);
    assert item.key in Keys(rest);
    if |rest| >= maxEntries {
      KeyCount(rest);
      FirstIsAnother(rest, item.key, others, x.key);
      AppendItem(rest[1..], x, item.key);
    } else {
      AppendItem(rest, x, item.key);
    }
  }

  lemma FirstIsAnother<T>(rest: Items<T>, key: Key, others: set<Key>, incoming: Key)
    requires |rest| > 0 && Distinct(rest) && key in Keys(rest) && After(rest, key) <= others && incoming !in Keys(rest)
    requires |others + {incoming}| < |rest|
    ensures rest[0].key != key
  {
    if rest[0].key == key {
      KeyCount(rest[1..]);
      assert Keys(rest[1..]) + {incoming} <= others + {incoming};
      SubsetSize(Keys(rest[1..]) + {incoming}, others + {incoming});
    }
  }

  /** Keys other than `key` that steps `from` to `to` touched. */
  ghost function TouchedSince<T>(states: seq<Items<T>>, ops: seq<Op<T>>, key: Key, from: nat, to: nat): set<Key>
    requires from <= to <= |ops| && |states| == |ops| + 1
  {
    set i | from <= i < to && ops[i].key != key && Touches(states[i], ops[i], ops[i].key) :: ops[i].key
  }

  /** From a set or hit of a key at step `from` on: while fewer than the maximum of other keys are touched, and the key
      is neither set again nor asked for after its time, the cache keeps it with the same item. */
  lemma {:induction false} Retained<T>(states: seq<Items<T>>, ops: seq<Op<T>>, limits: Limits, item: Item<T>,
                                       from: nat, n: nat)
    requires IsRun(states, ops, limits) && from < n < |states|
    requires Touches(states[from], ops[from], item.key) && Lookup(states[from + 1], item.key) == Some(item)
    requires forall i :: from < i < n && ops[i].key == item.key ==> !ops[i].Set? && ops[i].now <= item.expiresAt
    requires |TouchedSince(states, ops, item.key, from + 1, n)| < limits.maxEntries
    ensures Holds(states[n], item, TouchedSince(states, ops, item.key, from + 1, n))
  {
    hide Touches, Holds, TouchedSince, WellKept, Next;
    if n == from + 1 {
      NeverOverfull(states, ops, limits, from);
      LastTouched(states[from], ops[from], limits, item.key);
      JustTouched(states[n], item, TouchedSince(states, ops, item.key, from + 1, n));
    } else {
      var m := n - 1;
      var before, after := TouchedSince(states, ops, item.key, from + 1, m),
                           TouchedSince(states, ops, item.key, from + 1, n);
      OneMoreTouched(states, ops, item.key, from + 1, m);
      SubsetSize(before, after);
      Retained(states, ops, limits, item, from, m);
      NeverOverfull(states, ops, limits, m);
      StillHeld(states[m], ops[m], limits, item, before, after);
    }
  }

  lemma JustTouched<T>(s: Items<T>, item: Item<T>, others: set<Key>)
    requires Lookup(s, item.key) == Some(item) && After(s, item.key) == {}
    ensures Holds(s, item, others)
  {}

  lemma LastTouched<T>(s: Items<T>, op: Op<T>, limits: Limits, key: Key)
    requires WellKept(s, limits.maxEntries) && Touches(s, op, key)
    ensures After(Next(s, op, limits), key) == {}
  {
    if op.Set? {
      SetKeeps(s, Item(key, op.value, op.now + limits.ttlMs), limits.maxEntries);
    } else {
      WithoutKeys(s, key);
      AppendItem(Without(s, key), Lookup(s, key).value, key);
    }
  }

  lemma OneMoreTouched<T>(states: seq<Items<T>>, ops: seq<Op<T>>, key: Key, from: nat, m: nat)
    requires from <= m < |ops| && |states| == |ops| + 1
    ensures TouchedSince(states, ops, key, from, m + 1) == TouchedSince(states, ops, key, from, m) +
      if ops[m].key != key && Touches(states[m], ops[m], ops[m].key) then {ops[m].key} else {}
  {}

  lemma StillHeld<T>(s: Items<T>, op: Op<T>, limits: Limits, item: Item<T>, before: set<Key>, after: set<Key>)
    requires WellKept(s, limits.maxEntries) && Holds(s, item, before) && |after| < limits.maxEntries
    requires op.key == item.key ==> !op.Set? && op.now <= item.expiresAt
    requires after == before + if op.key != item.key && Touches(s, op, op.key) then {op.key} else {}
    ensures Holds(Next(s, op, limits), item, after)
  {
    match op {
      case Get(key, now) =>
        if key == item.key { GetSame(s, item, before, now); } else { GetOther(s, item, before, key, now); }
      case Set(key, value, now) => SetOther(s, item, before, Item(key, value, now + limits.ttlMs), limits.maxEntries);
      case Has(key, now) => if key != item.key { WithoutOther(s, item.key, key); }
    }
  }

  // ---------- the order, and the values ----------

  /** The last step before `n` that touched the key, or -1. */
  ghost function LastTouch<T>(states: seq<Items<T>>, ops: seq<Op<T>>, n: nat, key: Key): (r: int)
    requires n <= |ops| && |states| == |ops| + 1
    ensures -1 <= r < n
  {
    if n == 0 then -1 else if Touches(states[n - 1], ops[n - 1], key) then n - 1 else LastTouch(states, ops, n - 1, key)
  }

  /** What the last set of the key before step `n` stored. */
  ghost function LastSet<T>(ops: seq<Op<T>>, ttlMs: int, n: nat, key: Key): Option<Item<T>>
    requires n <= |ops|
  {
    if n == 0 then None
    else if ops[n - 1].Set? && ops[n - 1].key == key then Some(Item(key, ops[n - 1].value, ops[n - 1].now + ttlMs))
    else LastSet(ops, ttlMs, n - 1, key)
  }

  /** A key further back in the list has the higher rank, and every key has one. */
  ghost predicate Ranked<T>(s: Items<T>, rank: Key -> int) {
    && (forall j, k :: j in Keys(s) && k in After(s, j) ==> rank(j) < rank(k))
    && (forall j :: j in Keys(s) ==> rank(j) >= 0)
  }

  lemma WithoutRanked<T>(s: Items<T>, key: Key, rank: Key -> int)
    requires Ranked(s, rank)
    ensures Ranked(Without(s, key), rank)
  {
    WithoutKeys(s, key);
    forall j, k | j in Keys(Without(s, key)) && k in After(Without(s, key), j) ensures rank(j) < rank(k) {
      WithoutOther(s, j, key);
    }
  }

  lemma {:induction false} DropRanked<T>(s: Items<T>, rank: Key -> int)
    requires Ranked(s, rank) && Distinct(s) && |s| > 0
    ensures Ranked(s[1..], rank)
  {
    forall j, k | j in Keys(s[1..]) && k in After(s[1..], j) ensures rank(j) < rank(k) {
      assert After(s, j) == After(s[1..], j);
    }
  }

  /** The touched key goes to the end with the highest rank. */
  lemma AppendRanked<T>(s: Items<T>, x: Item<T>, rank: Key -> int, after: Key -> int)
    requires Ranked(s, rank) && x.key !in Keys(s)
    requires (forall k :: k != x.key ==> after(k) == rank(k)) && after(x.key) >= 0 && forall k :: rank(k) < after(x.key)
    ensures Ranked(s + [x], after)
  {
    AppendItem(s, x, x.key);
    forall j, k | j in Keys(s + [x]) && k in After(s + [x], j) ensures after(j) < after(k) {
      AppendItem(s, x, j);
      KeysAfter(s, j);
    }
  }

  lemma {:induction false} KeysAfter<T>(s: Items<T>, key: Key)
    ensures After(s, key) <= Keys(s)
  {
    if |s| > 0 && s[0].key != key {
      KeysAfter(s[1..], key);
    }
  }

  /** The ranks after a step at time `top` that touches the key. */
  ghost predicate Promoted(rank: Key -> int, after: Key -> int, key: Key, top: nat) {
    after(key) == top && (forall k :: k != key ==> after(k) == rank(k)) && forall k :: rank(k) < top
  }

  lemma SetRanked<T>(s: Items<T>, x: Item<T>, maxEntries: nat, rank: Key -> int, after: Key -> int, top: nat)
    requires WellKept(s, maxEntries) && Ranked(s, rank) && Promoted(rank, after, x.key, top)
    ensures Ranked(AfterSet(s, x, maxEntries), after)
  {
    var rest := Without(s, x.key);
    WithoutKeys(s, x.key);
    WithoutRanked(s, x.key, rank);
    if |rest| >= maxEntries && |rest| > 0 {
      DropRanked(rest, rank);
      AppendRanked(rest[1..], x, rank, after);
    } else {
      AppendRanked(rest, x, rank, after);
    }
  }

  lemma HitRanked<T>(s: Items<T>, key: Key, now: int, rank: Key -> int, after: Key -> int, top: nat)
    requires Hit(s, key, now) && Ranked(s, rank) && Promoted(rank, after, key, top)
    ensures Ranked(AfterGet(s, key, now), after)
  {
    WithoutKeys(s, key);
    WithoutRanked(s, key, rank);
    AppendRanked(Without(s, key), Lookup(s, key).value, rank, after);
  }

  lemma NextRanked<T>(s: Items<T>, op: Op<T>, limits: Limits, rank: Key -> int, after: Key -> int, top: nat)
    requires WellKept(s, limits.maxEntries) && Ranked(s, rank) && forall k :: rank(k) < top
    requires forall k :: after(k) == if Touches(s, op, k) then top else rank(k)
    ensures Ranked(Next(s, op, limits), after)
  {
    hide Ranked, WellKept, Without, After, Keys;
    if Touches(s, op, op.key) {
      assert Promoted(rank, after, op.key, top);
      if op.Set? {
        SetRanked(s, Item(op.key, op.value, op.now + limits.ttlMs), limits.maxEntries, rank, after, top);
      } else {
        HitRanked(s, op.key, op.now, rank, after, top);
      }
    } else {
      WithoutRanked(s, op.key, rank);
      SameRank(s, rank, after);
      SameRank(Without(s, op.key), rank, after);
    }
  }

  lemma SameRank<T>(s: Items<T>, rank: Key -> int, after: Key -> int)
    requires Ranked(s, rank) && forall k :: after(k) == rank(k)
    ensures Ranked(s, after)
  {}

  ghost function RankAt<T>(states: seq<Items<T>>, ops: seq<Op<T>>, n: nat): Key -> int
    requires n <= |ops| && |states| == |ops| + 1
  {
    key => LastTouch(states, ops, n, key)
  }

  /** The list is in the order of last set or get hit, oldest first. */
  lemma {:induction false} OrderIsRecency<T>(states: seq<Items<T>>, ops: seq<Op<T>>, limits: Limits, n: nat)
    requires IsRun(states, ops, limits) && n < |states|
    ensures forall j, k :: j in Keys(states[n]) && k in After(states[n], j) ==>
              LastTouch(states, ops, n, j) < LastTouch(states, ops, n, k)
    ensures Ranked(states[n], RankAt(states, ops, n))
  {
    if n > 0 {
      var m := n - 1;
      OrderIsRecency(states, ops, limits, m);
      NeverOverfull(states, ops, limits, m);
      hide Ranked, WellKept, Next;
      NextRanked(states[m], ops[m], limits, RankAt(states, ops, m), RankAt(states, ops, n), m);
    }
    Reranked(states, ops, n);
  }

  lemma Reranked<T>(states: seq<Items<T>>, ops: seq<Op<T>>, n: nat)
    requires n <= |ops| && |states| == |ops| + 1 && Ranked(states[n], RankAt(states, ops, n))
    ensures forall j, k :: j in Keys(states[n]) && k in After(states[n], j) ==>
              LastTouch(states, ops, n, j) < LastTouch(states, ops, n, k)
  {
    var rank := RankAt(states, ops, n);
    assert forall k :: rank(k) == LastTouch(states, ops, n, k);
  }

  /** No stale value: every entry is what the last set of its key stored. */
  lemma {:induction false} ValuesAreLastSet<T>(states: seq<Items<T>>, ops: seq<Op<T>>, limits: Limits, n: nat)
    requires IsRun(states, ops, limits) && n < |states|
    ensures forall key :: key in Keys(states[n]) ==> Lookup(states[n], key) == LastSet(ops, limits.ttlMs, n, key)
  {
    if n > 0 {
      var m := n - 1;
      ValuesAreLastSet(states, ops, limits, m);
      NeverOverfull(states, ops, limits, m);
      forall key | key in Keys(states[n]) ensures Lookup(states[n], key) == LastSet(ops, limits.ttlMs, n, key) {
        NextLookup(states[m], ops[m], limits, key);
      }
    }
  }

  /** Over every run `get` and `has` answer with an entry exactly while the key is held and the time its last set
      gave it has not passed: the time of that set plus the time to live. */
  lemma AnswersUntilExpiry<T>(states: seq<Items<T>>, ops: seq<Op<T>>, limits: Limits, n: nat, key: Key, now: int)
    requires IsRun(states, ops, limits) && n < |states|
    ensures Hit(states[n], key, now) <==>
              key in Keys(states[n]) && LastSet(ops, limits.ttlMs, n, key).Some?
              && now <= LastSet(ops, limits.ttlMs, n, key).value.expiresAt
    ensures Hit(states[n], key, now) ==>
              Lookup(states[n], key).value.value == LastSet(ops, limits.ttlMs, n, key).value.value
  {
    hide IsRun, LastSet;
    ValuesAreLastSet(states, ops, limits, n);
  }

  /** The last set of a key happened at some step and wrote the value and the time. */
  lemma {:induction false} LastSetHappened<T>(ops: seq<Op<T>>, ttlMs: int, n: nat, key: Key) returns (k: nat)
    requires n <= |ops| && LastSet(ops, ttlMs, n, key).Some?
    ensures k < n && ops[k].Set? && ops[k].key == key
    ensures LastSet(ops, ttlMs, n, key).value == Item(key, ops[k].value, ops[k].now + ttlMs)
    ensures forall i :: k < i < n ==> !(ops[i].Set? && ops[i].key == key)
  {
    if ops[n - 1].Set? && ops[n - 1].key == key {
      k := n - 1;
    } else {
      k := LastSetHappened(ops, ttlMs, n - 1, key);
    }
  }

  lemma NextLookup<T>(s: Items<T>, op: Op<T>, limits: Limits, key: Key)
    requires WellKept(s, limits.maxEntries) && key in Keys(Next(s, op, limits))
    ensures op.Set? && op.key == key ==>
              Lookup(Next(s, op, limits), key) == Some(Item(key, op.value, op.now + limits.ttlMs))
    ensures !(op.Set? && op.key == key) ==> key in Keys(s) && Lookup(Next(s, op, limits), key) == Lookup(s, key)
  {
    var rest := Without(s, op.key);
    WithoutKeys(s, op.key);
    if key != op.key {
      WithoutOther(s, key, op.key);
    }
    if op.Set? {
      var x := Item(op.key, op.value, op.now + limits.ttlMs);
      var evicted := if |rest| >= limits.maxEntries && |rest| > 0 then rest[1..] else rest;
      AppendItem(evicted, x, key);
    } else if op.Get? && Hit(s, op.key, op.now) {
      AppendItem(rest, Lookup(s, op.key).value, key);
    }
  }
}
