/** Tracing a meta entry down the DAG to its semantic sources. */
module MemoryTrace {
  import opened MemoryTables

  class Database {
    var t: Tables

    constructor (t: Tables)
      ensures this.t == t
    {
      this.t := t;
    }
  }

  datatype Expansion = Missing | Sources(semantics: seq<Id>) | ChildMetas(children: seq<Id>)

  /** Depth 0 expands to semantic rows, deeper entries to their children. */
  method ExpandMeta(db: Database, id: Id) returns (r: Expansion)
    ensures r.Missing? <==> id !in db.t.metas
    ensures r.Sources? ==> db.t.metas[id].depth == 0 && NoDuplicates(r.semantics)
    ensures r.Sources? ==> forall s :: s in r.semantics <==> (id, s) in db.t.metaSources
    ensures r.ChildMetas? ==> db.t.metas[id].depth != 0
    ensures r.ChildMetas? ==> NoDuplicates(r.children) && forall c :: c in r.children <==> (id, c) in db.t.metaParents
  {
    RowsOfEdges(db.t, id);
    if id !in db.t.metas {
      return Missing;
    }
    if db.t.metas[id].depth == 0 {
      var rows := Enumerate(SourcesOf(db.t, id));
      return Sources(rows);
    }
    var rows := Enumerate(Children(db.t, id));
    return ChildMetas(rows);
  }

  lemma RowsOfEdges(t: Tables, id: Id)
    ensures forall s :: s in SourcesOf(t, id) <==> (id, s) in t.metaSources
    ensures forall c :: c in Children(t, id) <==> (id, c) in t.metaParents
  {
    forall s ensures s in SourcesOf(t, id) <==> (id, s) in t.metaSources {
      assert (id, s).0 == id && (id, s).1 == s;
    }
    forall c ensures c in Children(t, id) <==> (id, c) in t.metaParents {
      assert (id, c).0 == id && (id, c).1 == c;
    }
  }

  /** The semantic rows an entry stands for, by recursion on its depth. */
  ghost function Traced(t: Tables, id: Id): set<Id>
    requires Layered(t)
    decreases if id in t.metas then t.metas[id].depth else 0
  {
    if id !in t.metas then {}
    else if t.metas[id].depth == 0 then SourcesOf(t, id)
    else set c, s | c in LowerChildren(t, id) && s in Traced(t, c) :: s
  }

  ghost function LowerChildren(t: Tables, id: Id): (children: set<Id>)
    requires Layered(t)
    ensures children == Children(t, id)
    ensures forall c :: c in children ==> id in t.metas && c in t.metas && 0 <= t.metas[c].depth < t.metas[id].depth
  {
    forall c | c in Children(t, id) ensures id in t.metas && c in t.metas && 0 <= t.metas[c].depth < t.metas[id].depth {
      ChildIsLower(t, id, c);
    }
    Children(t, id)
  }

  lemma ChildIsLower(t: Tables, id: Id, c: Id)
    requires Layered(t) && c in Children(t, id)
    ensures id in t.metas && c in t.metas && 0 <= t.metas[c].depth < t.metas[id].depth
    ensures (id, c) in t.metaParents
  {
    var e :| e in t.metaParents && e.0 == id && e.1 == c;
    assert e == (id, c);
    assert GoodEdge(t, id, c);
  }

  /** Collects the sources of all children, then keeps the first occurrence of each. */
  method TraceMetaToSources(db: Database, id: Id) returns (rows: seq<Id>)
    requires Layered(db.t)
    ensures NoDuplicates(rows)
    ensures forall s :: s in rows <==> s in Traced(db.t, id)
    decreases if id in db.t.metas then db.t.metas[id].depth else 0
  {
    var result := ExpandMeta(db, id);
    RowsOfEdges(db.t, id);
    hide Children, SourcesOf;
    match result {
      case Missing =>
        return [];
      case Sources(semantics) =>
        return semantics;
      case ChildMetas(children) =>
        var allSources: seq<Id> := [];
        for i := 0 to |children|
          invariant forall s :: s in allSources <==> exists j :: 0 <= j < i && s in Traced(db.t, children[j])
        {
          assert children[i] in children;
          ChildIsLower(db.t, id, children[i]);
          var childSources := TraceMetaToSources(db, children[i]);
          allSources := allSources + childSources;
        }
        rows := Deduplicate(allSources);
        forall s ensures s in rows <==> s in Traced(db.t, id) {
          if s in rows {
            var j :| 0 <= j < |children| && s in Traced(db.t, children[j]);
            assert children[j] in Children(db.t, id);
          }
          if s in Traced(db.t, id) {
            var c :| c in LowerChildren(db.t, id) && s in Traced(db.t, c);
            var j :| 0 <= j < |children| && children[j] == c;
          }
        }
    }
  }

  method Deduplicate(all: seq<Id>) returns (rows: seq<Id>)
    ensures NoDuplicates(rows)
    ensures forall s :: s in rows <==> s in all
  {
    rows := [];
    var seen: set<Id> := {};
    for i := 0 to |all|
      invariant NoDuplicates(rows)
      invariant forall s :: s in rows <==> s in seen
      invariant forall s :: s in seen <==> s in all[..i]
    {
      if all[i] !in seen {
        seen := seen + {all[i]};
        rows := rows + [all[i]];
      }
    }
    assert all[..|all|] == all;
  }

  // ---------- tracing is reachability ----------

  ghost predicate IsDescent(t: Tables, p: seq<Id>) {
    |p| > 0 && forall i :: 0 <= i < |p| - 1 ==> (p[i], p[i + 1]) in t.metaParents
  }

  /** `s` is linked to the last entry of a path of edges that starts at `id`. */
  ghost predicate ReachesVia(t: Tables, id: Id, p: seq<Id>, s: Id) {
    IsDescent(t, p) && p[0] == id && (p[|p| - 1], s) in t.metaSources
  }

  ghost predicate Reaches(t: Tables, id: Id, s: Id) {
    exists p :: ReachesVia(t, id, p, s)
  }

  lemma {:induction false} TracedReaches(t: Tables, id: Id, s: Id)
    requires Layered(t) && s in Traced(t, id)
    ensures Reaches(t, id, s)
    decreases if id in t.metas then t.metas[id].depth else 0
  {
    if t.metas[id].depth == 0 {
      assert ReachesVia(t, id, [id], s);
    } else {
      var c :| c in LowerChildren(t, id) && s in Traced(t, c);
      ChildIsLower(t, id, c);
      TracedReaches(t, c, s);
      var p :| ReachesVia(t, c, p, s);
      var q := [id] + p;
      forall i | 0 <= i < |q| - 1 ensures (q[i], q[i + 1]) in t.metaParents {
        if i > 0 {
          assert q[i] == p[i - 1] && q[i + 1] == p[i];
        }
      }
      assert ReachesVia(t, id, q, s);
    }
  }

  lemma {:induction false} ReachesTraced(t: Tables, id: Id, p: seq<Id>, s: Id)
    requires Layered(t) && ReachesVia(t, id, p, s)
    ensures s in Traced(t, id)
    decreases |p|
  {
    if |p| == 1 {
      assert GoodSource(t, id, s);
      assert (id, s) in t.metaSources;
    } else {
      var c := p[1];
      assert (id, c) in t.metaParents;
      assert GoodEdge(t, id, c) && t.metas[c].depth >= 0;
      var q := p[1..];
      forall i | 0 <= i < |q| - 1 ensures (q[i], q[i + 1]) in t.metaParents {
        assert q[i] == p[i + 1] && q[i + 1] == p[i + 2];
      }
      assert ReachesVia(t, c, q, s);
      ReachesTraced(t, c, q, s);
      assert c in Children(t, id);
    }
  }

  /** Tracing returns exactly the semantic rows that the DAG connects the entry to. */
  lemma TraceIsReachability(t: Tables, id: Id)
    requires Layered(t)
    ensures forall s :: s in Traced(t, id) <==> Reaches(t, id, s)
  {
    forall s ensures s in Traced(t, id) <==> Reaches(t, id, s) {
      if s in Traced(t, id) {
        TracedReaches(t, id, s);
      }
      if Reaches(t, id, s) {
        var p :| ReachesVia(t, id, p, s);
        ReachesTraced(t, id, p, s);
      }
    }
  }
}
