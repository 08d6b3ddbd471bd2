/** Ascending lists, and sorting by insertion, by any key. */
module Sorting {

  ghost predicate Ascending<T>(s: seq<T>, key: T -> real) {
    forall i, j :: 0 <= i < j < |s| ==> key(s[i]) <= key(s[j])
  }

  function Insert<T>(s: seq<T>, x: T, key: T -> real): (r: seq<T>)
    ensures |r| == |s| + 1 && multiset(r) == multiset(s) + multiset{x}
  {
    if |s| == 0 || key(x) <= key(s[0]) then [x] + s
    else
      assert s == [s[0]] + s[1..];
      [s[0]] + Insert(s[1..], x, key)
  }

  function Sort<T>(s: seq<T>, key: T -> real): (r: seq<T>)
    ensures |r| == |s| && multiset(r) == multiset(s)
  {
    if |s| == 0 then []
    else
      assert s == [s[0]] + s[1..];
      Insert(Sort(s[1..], key), s[0], key)
  }

  lemma Member<T>(s: seq<T>, t: seq<T>, y: T)
    requires multiset(s) == multiset(t)
    ensures y in s <==> y in t
  {
    assert y in s <==> y in multiset(s);
    assert y in t <==> y in multiset(t);
  }

  lemma Inserted<T>(s: seq<T>, x: T, key: T -> real, y: T)
    requires y in Insert(s, x, key)
    ensures y in s || y == x
  {
    hide Insert;
    assert y in multiset(Insert(s, x, key));
  }

  lemma AscendingFront<T>(first: T, rest: seq<T>, key: T -> real)
    requires Ascending(rest, key) && forall y :: y in rest ==> key(first) <= key(y)
    ensures Ascending([first] + rest, key)
  {}

  lemma {:induction false} InsertAscending<T>(s: seq<T>, x: T, key: T -> real)
    requires Ascending(s, key)
    ensures Ascending(Insert(s, x, key), key)
  {
    if |s| > 0 && key(x) > key(s[0]) {
      InsertAscending(s[1..], x, key);
      forall y | y in Insert(s[1..], x, key) ensures key(s[0]) <= key(y) {
        Inserted(s[1..], x, key, y);
      }
      AscendingFront(s[0], Insert(s[1..], x, key), key);
    } else {
      AscendingFront(x, s, key);
    }
  }

  lemma {:induction false} SortAscending<T>(s: seq<T>, key: T -> real)
    ensures Ascending(Sort(s, key), key)
  {
    if |s| > 0 {
      SortAscending(s[1..], key);
      InsertAscending(Sort(s[1..], key), s[0], key);
    }
  }
}
