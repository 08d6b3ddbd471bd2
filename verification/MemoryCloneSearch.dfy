/** Searching a cloned profile: the copies of what the same search finds in the source, in the same order. */
module MemoryCloneSearch {
  import opened Wrappers
  import opened MemoryTables
  import opened MemoryProfiles
  import opened MemoryQuery
  import MemoryLinkage

  /** The copies of these rows, in their order. */
  function Copies(rows: seq<Id>, f: map<Id, Id>): (r: seq<Id>)
    requires forall a :: a in rows ==> a in f
    ensures |r| == |rows| && forall i :: 0 <= i < |r| ==> r[i] == f[rows[i]]
  {
    seq(|rows|, i requires 0 <= i < |rows| => assert rows[i] in rows; f[rows[i]])
  }

  /** `to` is the image of `from`, one to one. */
  ghost predicate IsImage(from: set<Id>, to: set<Id>, f: map<Id, Id>) {
    && Injective(f) && from <= f.Keys
    && (forall a :: a in from ==> f[a] in to)
    && (forall y :: y in to ==> exists a :: a in from && f[a] == y)
  }

  /** Copies are ranked like their originals. */
  ghost predicate RankedAlike(f: map<Id, Id>, key: Id -> real, copied: Id -> real) {
    forall a :: a in f ==> copied(f[a]) == key(a)
  }

  lemma {:induction false} ImageSize(from: set<Id>, to: set<Id>, f: map<Id, Id>)
    requires IsImage(from, to, f)
    ensures |to| == |from|
    decreases |from|
  {
    if from == {} {
      assert to == {};
    } else {
      var a :| a in from;
      ImageWithout(from, to, f, a);
      ImageSize(from - {a}, to - {f[a]}, f);
    }
  }

  lemma ImageWithout(from: set<Id>, to: set<Id>, f: map<Id, Id>, a: Id)
    requires IsImage(from, to, f) && a in from
    ensures IsImage(from - {a}, to - {f[a]}, f)
  {
    forall y | y in to - {f[a]} ensures exists b :: b in from - {a} && f[b] == y {
      var b :| b in from && f[b] == y;
      assert b in from - {a};
    }
  }

  lemma CopiesMembers(rows: seq<Id>, f: map<Id, Id>)
    requires Injective(f) && forall a :: a in rows ==> a in f
    ensures IsImage(Members(rows), Members(Copies(rows, f)), f)
    ensures NoDuplicates(rows) ==> NoDuplicates(Copies(rows, f))
  {
    var r := Copies(rows, f);
    forall a | a in Members(rows) ensures f[a] in Members(r) {
      var i :| 0 <= i < |rows| && rows[i] == a;
      assert r[i] in r;
    }
    forall y | y in Members(r) ensures exists a :: a in Members(rows) && f[a] == y {
      var i :| 0 <= i < |r| && r[i] == y;
      assert rows[i] in rows;
    }
    forall i, j | 0 <= i < j < |r| && NoDuplicates(rows) ensures r[i] != r[j] {
      assert rows[i] in rows && rows[j] in rows;
    }
  }

  /** The best of the copies are the copies of the best. */
  lemma TopOfCopies(from: set<Id>, to: set<Id>, f: map<Id, Id>, key: Id -> real, copied: Id -> real, limit: nat,
                    rows: seq<Id>)
    requires IsImage(from, to, f) && RankedAlike(f, key, copied) && IsTop(from, key, limit, rows)
    ensures (forall a :: a in rows ==> a in f) && IsTop(to, copied, limit, Copies(rows, f))
  {
    var r := Copies(rows, f);
    ImageSize(from, to, f);
    CopiesMembers(rows, f);
    forall y | y in r ensures y in to && exists a :: a in rows && f[a] == y {
      assert y in Members(r);
      var a :| a in Members(rows) && f[a] == y;
      assert a in rows;
    }
    CopiesInOrder(rows, f, key, copied);
    forall x, y | x in r && y in to && y !in r ensures copied(x) >= copied(y) {
      var a :| a in rows && f[a] == x;
      var b :| b in from && f[b] == y;
      CopyOfMember(rows, f, b);
    }
  }

  lemma CopiesInOrder(rows: seq<Id>, f: map<Id, Id>, key: Id -> real, copied: Id -> real)
    requires RankedAlike(f, key, copied) && forall a :: a in rows ==> a in f
    requires forall i, j :: 0 <= i < j < |rows| ==> key(rows[i]) >= key(rows[j])
    ensures forall i, j :: 0 <= i < j < |rows| ==> copied(Copies(rows, f)[i]) >= copied(Copies(rows, f)[j])
  {
    forall i, j | 0 <= i < j < |rows| ensures copied(Copies(rows, f)[i]) >= copied(Copies(rows, f)[j]) {
      assert rows[i] in rows && rows[j] in rows;
    }
  }

  lemma CopyOfMember(rows: seq<Id>, f: map<Id, Id>, b: Id)
    requires (forall a :: a in rows ==> a in f) && b in f
    ensures b in rows ==> f[b] in Copies(rows, f)
  {
    if b in rows {
      var i :| 0 <= i < |rows| && rows[i] == b;
      assert Copies(rows, f)[i] in Copies(rows, f);
    }
  }

  // ---------- clones ----------

  /** What a search of the clone may find are the copies of what it may find in the source. */
  lemma MatchesOfClone(s: Tables, t: Tables, source: Id, copy: Id, f: map<Id, Id>, g: map<Id, Id>, now: int,
                       kind: Option<MetaKind>, lo: int, hi: int)
    requires MemoryLinkage.OwnersUsed(s) && IsClone(s, t, source, copy, f, g, now)
    ensures forall a :: Matches(s, source, kind, lo, hi, a) <==> a in g && Matches(t, copy, kind, lo, hi, g[a])
    ensures forall y :: Matches(t, copy, kind, lo, hi, y) ==> exists a :: a in g && g[a] == y
  {
    CloneCopiesFields(s, t, source, copy, f, g, now);
    OwnedByCopy(s, t, source, copy, f, g, now);
    hide IsClone;
  }

  lemma OwnedByCopy(s: Tables, t: Tables, source: Id, copy: Id, f: map<Id, Id>, g: map<Id, Id>, now: int)
    requires MemoryLinkage.OwnersUsed(s) && IsClone(s, t, source, copy, f, g, now)
    ensures Injective(g) && forall y :: y in t.metas && t.metas[y].profile == copy ==> exists a :: a in g && g[a] == y
  {
    forall y | y in t.metas && t.metas[y].profile == copy ensures exists a :: a in g && g[a] == y {
      assert y !in s.metas;
      assert y in g.Values;
    }
  }

  /** The selected rows of the clone are the image of those of the source. */
  lemma SelectedOfClone(s: Tables, t: Tables, source: Id, copy: Id, f: map<Id, Id>, g: map<Id, Id>, now: int,
                        kind: Option<MetaKind>, lo: int, hi: int)
    requires MemoryLinkage.OwnersUsed(s) && IsClone(s, t, source, copy, f, g, now)
    ensures IsImage(Selected(s, source, kind, lo, hi), Selected(t, copy, kind, lo, hi), g)
  {
    MatchesOfClone(s, t, source, copy, f, g, now, kind, lo, hi);
    OwnedByCopy(s, t, source, copy, f, g, now);
    SelectedMatch(s, source, kind, lo, hi);
    SelectedMatch(t, copy, kind, lo, hi);
    hide IsClone, Matches, Injective, Selected;
  }

  /** Whatever a search of the source may return, the same search of the clone may return the copies of it, when copies
      are as similar and score as their originals: the embedding is copied with the row. */
  lemma SearchOfClone(s: Tables, t: Tables, source: Id, copy: Id, f: map<Id, Id>, g: map<Id, Id>, now: int,
                      kind: Option<MetaKind>, minDepth: Option<int>, maxDepth: Option<int>, similarity: Id -> real,
                      score: Id -> real, similarity': Id -> real, score': Id -> real, limit: nat, multiplier: nat,
                      rows: seq<Id>)
    requires MemoryLinkage.OwnersUsed(s) && IsClone(s, t, source, copy, f, g, now)
    requires RankedAlike(g, similarity, similarity') && RankedAlike(g, score, score')
    requires IsQueryResult(s, source, kind, minDepth, maxDepth, similarity, score, limit, multiplier, rows)
    ensures forall a :: a in rows ==> a in g
    ensures IsQueryResult(t, copy, kind, minDepth, maxDepth, similarity', score', limit, multiplier, Copies(rows, g))
  {
    var lo := if minDepth.Some? then minDepth.value else 0;
    var hi := if maxDepth.Some? then maxDepth.value else 999;
    SelectedOfClone(s, t, source, copy, f, g, now, kind, lo, hi);
    OwnedByCopy(s, t, source, copy, f, g, now);
    hide IsClone, MemoryLinkage.OwnersUsed, Selected, IsTop, IsImage, Injective, RankedAlike;
    var near :| IsTop(Selected(s, source, kind, lo, hi), similarity, limit * multiplier, near)
                && IsTop(Members(near), score, limit, rows);
    TopOfCopies(Selected(s, source, kind, lo, hi), Selected(t, copy, kind, lo, hi), g, similarity, similarity',
                limit * multiplier, near);
    CopiesMembers(near, g);
    TopOfCopies(Members(near), Members(Copies(near, g)), g, score, score', limit, rows);
  }

  // ---------- and nothing else ----------

  ghost function Inverse(f: map<Id, Id>): (inverse: map<Id, Id>)
    requires Injective(f)
    ensures inverse.Keys == f.Values && forall y :: y in inverse ==> inverse[y] in f && f[inverse[y]] == y
  {
    map y | y in f.Values :: var a :| a in f && f[a] == y; a
  }

  lemma InverseImage(from: set<Id>, to: set<Id>, f: map<Id, Id>)
    requires IsImage(from, to, f)
    ensures IsImage(to, from, Inverse(f))
  {
    var inverse := Inverse(f);
    forall y | y in to ensures y in inverse && inverse[y] in from {
      var a :| a in from && f[a] == y;
      assert a in f && y in f.Values;
    }
    forall a | a in from ensures exists y :: y in to && inverse[y] == a {
      assert f[a] in to && f[a] in f.Values;
      assert inverse[f[a]] == a;
    }
  }

  lemma InverseRanked(f: map<Id, Id>, key: Id -> real, copied: Id -> real)
    requires Injective(f) && RankedAlike(f, key, copied)
    ensures RankedAlike(Inverse(f), copied, key)
  {}

  lemma CopiesOfInverse(rows: seq<Id>, f: map<Id, Id>)
    requires Injective(f) && forall y :: y in rows ==> y in Inverse(f)
    ensures forall a :: a in Copies(rows, Inverse(f)) ==> a in f
    ensures Copies(Copies(rows, Inverse(f)), f) == rows
  {
    var back := Copies(rows, Inverse(f));
    forall i | 0 <= i < |rows| ensures back[i] in f && f[back[i]] == rows[i] {
      assert rows[i] in rows;
    }
  }

  /** Conversely, everything a search of the clone may return are the copies of what that search of the source may
      return. */
  lemma OnlyCopiesAreFound(s: Tables, t: Tables, source: Id, copy: Id, f: map<Id, Id>, g: map<Id, Id>, now: int,
                           kind: Option<MetaKind>, minDepth: Option<int>, maxDepth: Option<int>,
                           similarity: Id -> real, score: Id -> real, similarity': Id -> real, score': Id -> real,
                           limit: nat, multiplier: nat, found: seq<Id>) returns (rows: seq<Id>)
    requires MemoryLinkage.OwnersUsed(s) && IsClone(s, t, source, copy, f, g, now)
    requires RankedAlike(g, similarity, similarity') && RankedAlike(g, score, score')
    requires IsQueryResult(t, copy, kind, minDepth, maxDepth, similarity', score', limit, multiplier, found)
    ensures IsQueryResult(s, source, kind, minDepth, maxDepth, similarity, score, limit, multiplier, rows)
    ensures (forall a :: a in rows ==> a in g) && found == Copies(rows, g)
  {
    var lo := if minDepth.Some? then minDepth.value else 0;
    var hi := if maxDepth.Some? then maxDepth.value else 999;
    SelectedOfClone(s, t, source, copy, f, g, now, kind, lo, hi);
    OwnedByCopy(s, t, source, copy, f, g, now);
    hide IsClone, MemoryLinkage.OwnersUsed, Selected, IsTop, IsImage, Injective, RankedAlike;
    var near :| IsTop(Selected(t, copy, kind, lo, hi), similarity', limit * multiplier, near)
                && IsTop(Members(near), score', limit, found);
    InverseImage(Selected(s, source, kind, lo, hi), Selected(t, copy, kind, lo, hi), g);
    InverseRanked(g, similarity, similarity');
    InverseRanked(g, score, score');
    var back := Inverse(g);
    InverseInjective(g);
    TopOfCopies(Selected(t, copy, kind, lo, hi), Selected(s, source, kind, lo, hi), back, similarity', similarity,
                limit * multiplier, near);
    CopiesMembers(near, back);
    TopOfCopies(Members(near), Members(Copies(near, back)), back, score', score, limit, found);
    CopiesOfInverse(found, g);
    rows := Copies(found, back);
  }

  lemma InverseInjective(f: map<Id, Id>)
    requires Injective(f)
    ensures Injective(Inverse(f))
  {}
}
