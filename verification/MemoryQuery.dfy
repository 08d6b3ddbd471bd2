/** Searching meta memory: candidates above the confidence threshold, the nearest ones first, then re-ranked. The
    similarity of a row and its composite score are arbitrary. */
module MemoryQuery {
  import opened Wrappers
  import opened MemoryTables
  import opened MemoryTrace
  import opened MemoryCascade

  /** The rows the query selects: of the profile and kind, not low, in the depth range. */
  function Selected(t: Tables, profile: Id, kind: Option<MetaKind>, minDepth: int, maxDepth: int): set<Id> {
    set id | id in t.metas && t.metas[id].profile == profile && (kind.None? || t.metas[id].kind == kind.value)
      && t.metas[id].confidence >= LOW && minDepth <= t.metas[id].depth <= maxDepth
  }

  /** A live entry of the profile, of the kind if one is asked for, on a level of the range. */
  ghost predicate Matches(t: Tables, profile: Id, kind: Option<MetaKind>, minDepth: int, maxDepth: int, id: Id) {
    && id in t.metas && t.metas[id].profile == profile && t.metas[id].confidence >= 0.2
    && minDepth <= t.metas[id].depth <= maxDepth && (kind == None || kind == Some(t.metas[id].kind))
  }

  lemma SelectedMatch(t: Tables, profile: Id, kind: Option<MetaKind>, minDepth: int, maxDepth: int)
    ensures forall id :: id in Selected(t, profile, kind, minDepth, maxDepth) <==>
                         Matches(t, profile, kind, minDepth, maxDepth, id)
  {}

  /** The best `limit` members of a set, best first: nothing left out is better than anything taken. */
  ghost predicate IsTop(candidates: set<Id>, key: Id -> real, limit: nat, rows: seq<Id>) {
    && NoDuplicates(rows) && (forall x :: x in rows ==> x in candidates)
    && |rows| == (if |candidates| < limit then |candidates| else limit)
    && (forall i, j :: 0 <= i < j < |rows| ==> key(rows[i]) >= key(rows[j]))
    && (forall x, y :: x in rows && y in candidates && y !in rows ==> key(x) >= key(y))
  }

  function Members(rows: seq<Id>): set<Id> {
    set x | x in rows
  }

  function Similar(rows: seq<Id>, similarity: Id -> real, gate: real): set<Id> {
    set x | x in rows && similarity(x) >= gate
  }

  /** What a search may return: the best by score among the nearest `limit * multiplier` selected rows, less those that
      are not similar enough. */
  ghost predicate IsSearchResult(t: Tables, profile: Id, kind: Option<MetaKind>, minDepth: int, maxDepth: int,
                                 similarity: Id -> real, minSimilarity: real, score: Id -> real, limit: nat,
                                 multiplier: nat, rows: seq<Id>) {
    exists near ::
      && IsTop(Selected(t, profile, kind, minDepth, maxDepth), similarity, limit * multiplier, near)
      && IsTop(Similar(near, similarity, minSimilarity), score, limit, rows)
  }

  /** ORDER BY key DESC LIMIT limit. */
  method Top(candidates: set<Id>, key: Id -> real, limit: nat) returns (rows: seq<Id>)
    ensures IsTop(candidates, key, limit, rows)
  {
    rows := [];
    var rest := candidates;
    while rest != {} && |rows| < limit
      invariant rest <= candidates && NoDuplicates(rows) && |rows| + |rest| == |candidates| && |rows| <= limit
      invariant forall x :: x in candidates <==> x in rows || x in rest
      invariant forall x :: x in rows ==> x !in rest && forall y :: y in rest ==> key(x) >= key(y)
      invariant forall i, j :: 0 <= i < j < |rows| ==> key(rows[i]) >= key(rows[j])
      decreases |rest|
    {
      ghost var best := Greatest(rest, key);
      var x :| x in rest && forall y :: y in rest ==> key(x) >= key(y);
      rows := rows + [x];
      rest := rest - {x};
    }
  }

  lemma {:induction false} Greatest(s: set<Id>, key: Id -> real) returns (best: Id)
    requires s != {}
    ensures best in s && forall y :: y in s ==> key(best) >= key(y)
    decreases |s|
  {
    best :| best in s;
    var rest := s - {best};
    if rest != {} {
      var z := best;
      var x := Greatest(rest, key);
      best := if key(z) >= key(x) then z else x;
      forall y | y in s ensures key(best) >= key(y) {
        assert y == z || y in rest;
      }
    } else {
      assert s == {best};
    }
  }

  method FetchMetaAtDepthRange(db: Database, profile: Id, minDepth: int, maxDepth: int, limit: nat, multiplier: nat,
                               similarity: Id -> real, minSimilarity: real, score: Id -> real) returns (rows: seq<Id>)
    ensures IsSearchResult(db.t, profile, None, minDepth, maxDepth, similarity, minSimilarity, score, limit,
                           multiplier, rows)
    ensures |rows| <= limit && forall id :: id in rows ==>
              Matches(db.t, profile, None, minDepth, maxDepth, id) && similarity(id) >= minSimilarity
  {
    SelectedMatch(db.t, profile, None, minDepth, maxDepth);
    hide Matches;
    var near := Top(Selected(db.t, profile, None, minDepth, maxDepth), similarity, limit * multiplier);
    rows := Top(Similar(near, similarity, minSimilarity), score, limit);
  }

  /** Without a similarity gate; `minDepth` and `maxDepth` default to 0 and 999. */
  method QueryMetaMemory(db: Database, profile: Id, kind: Option<MetaKind>, minDepth: Option<int>,
                         maxDepth: Option<int>, limit: nat, multiplier: nat,
                         similarity: Id -> real, score: Id -> real) returns (rows: seq<Id>)
    ensures IsQueryResult(db.t, profile, kind, minDepth, maxDepth, similarity, score, limit, multiplier, rows)
    ensures |rows| <= limit && forall id :: id in rows ==>
              Matches(db.t, profile, kind, DepthOr(minDepth, 0), DepthOr(maxDepth, 999), id)
  {
    hide Matches;
    var lo := if minDepth.Some? then minDepth.value else 0;
    var hi := if maxDepth.Some? then maxDepth.value else 999;
    SelectedMatch(db.t, profile, kind, lo, hi);
    var near := Top(Selected(db.t, profile, kind, lo, hi), similarity, limit * multiplier);
    rows := Top(Members(near), score, limit);
  }

  function DepthOr(depth: Option<int>, otherwise: int): int {
    if depth.Some? then depth.value else otherwise
  }

  ghost predicate IsQueryResult(t: Tables, profile: Id, kind: Option<MetaKind>, minDepth: Option<int>,
                                maxDepth: Option<int>,
                                similarity: Id -> real, score: Id -> real, limit: nat, multiplier: nat, rows: seq<Id>) {
    var lo := if minDepth.Some? then minDepth.value else 0;
    var hi := if maxDepth.Some? then maxDepth.value else 999;
    exists near :: IsTop(Selected(t, profile, kind, lo, hi), similarity, limit * multiplier, near)
      && IsTop(Members(near), score, limit, rows)
  }

  /** Whatever the similarities and scores: no search returns a low entry, nor one of another profile. */
  lemma SearchesSkipLowEntries(t: Tables, profile: Id, id: Id)
    requires id in t.metas ==> t.metas[id].confidence < LOW || t.metas[id].profile != profile
    ensures forall lo, hi, similarity, gate, score, limit, multiplier, rows ::
      IsSearchResult(t, profile, None, lo, hi, similarity, gate, score, limit, multiplier, rows) ==> id !in rows
    ensures forall kind, lo, hi, similarity, score, limit, multiplier, rows ::
      IsQueryResult(t, profile, kind, lo, hi, similarity, score, limit, multiplier, rows) ==> id !in rows
  {}

  /** A search without a gate finds something whenever a live entry of the range exists and something was asked for. */
  lemma QueryFindsIff(t: Tables, profile: Id, kind: Option<MetaKind>, minDepth: Option<int>, maxDepth: Option<int>,
                      similarity: Id -> real, score: Id -> real, limit: nat, multiplier: nat, rows: seq<Id>)
    requires IsQueryResult(t, profile, kind, minDepth, maxDepth, similarity, score, limit, multiplier, rows)
    requires limit > 0 && multiplier > 0
    ensures var lo := if minDepth.Some? then minDepth.value else 0;
      var hi := if maxDepth.Some? then maxDepth.value else 999;
      |rows| > 0 <==> exists id :: Matches(t, profile, kind, lo, hi, id)
  {
    FindsIffSelected(t, profile, kind, minDepth, maxDepth, similarity, score, limit, multiplier, rows);
    hide IsQueryResult, Matches;
    var lo := if minDepth.Some? then minDepth.value else 0;
    var hi := if maxDepth.Some? then maxDepth.value else 999;
    SelectedMatch(t, profile, kind, lo, hi);
    if id :| Matches(t, profile, kind, lo, hi, id) {
      assert id in Selected(t, profile, kind, lo, hi);
    }
  }

  lemma FindsIffSelected(t: Tables, profile: Id, kind: Option<MetaKind>, minDepth: Option<int>, maxDepth: Option<int>,
                         similarity: Id -> real, score: Id -> real, limit: nat, multiplier: nat, rows: seq<Id>)
    requires IsQueryResult(t, profile, kind, minDepth, maxDepth, similarity, score, limit, multiplier, rows)
    requires limit > 0 && multiplier > 0
    ensures var lo := if minDepth.Some? then minDepth.value else 0;
      var hi := if maxDepth.Some? then maxDepth.value else 999;
      |rows| > 0 <==> Selected(t, profile, kind, lo, hi) != {}
  {
    var lo := if minDepth.Some? then minDepth.value else 0;
    var hi := if maxDepth.Some? then maxDepth.value else 999;
    var near :| IsTop(Selected(t, profile, kind, lo, hi), similarity, limit * multiplier, near)
                && IsTop(Members(near), score, limit, rows);
    assert limit * multiplier >= 1;
    if |near| > 0 {
      assert near[0] in Members(near);
    } else {
      assert Members(near) == {};
    }
  }
}
