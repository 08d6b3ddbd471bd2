/** What a deep clone means: the copied DAG is isomorphic to the source, the source is untouched, and tracing a
    copied entry gives the copies of what tracing the original gives. */
module MemoryCloneLaws {
  import opened Wrappers
  import opened MemoryTables
  import opened MemoryTrace
  import opened MemoryCascade
  import opened MemoryStatements
  import opened MemoryProfiles
  import MemoryLinkage

  lemma MappedEdge(edges: set<(Id, Id)>, f: map<Id, Id>, g: map<Id, Id>, a: Id, b: Id)
    requires Injective(f) && Injective(g) && a in f && b in g
    ensures (f[a], g[b]) in MapEdges(edges, f, g) <==> (a, b) in edges
  {
    if (f[a], g[b]) in MapEdges(edges, f, g) {
      var e :| e in edges && e.0 in f && e.1 in g && (f[e.0], g[e.1]) == (f[a], g[b]);
      assert e == (a, b);
    }
    if (a, b) in edges {
      var e := (a, b);
      assert e in edges && e.0 in f && e.1 in g;
    }
  }

  lemma UnmapEdge(edges: set<(Id, Id)>, f: map<Id, Id>, g: map<Id, Id>, x: Id, y: Id) returns (a: Id, b: Id)
    requires (x, y) in MapEdges(edges, f, g)
    ensures (a, b) in edges && a in f && b in g && f[a] == x && g[b] == y
  {
    var e :| e in edges && e.0 in f && e.1 in g && (f[e.0], g[e.1]) == (x, y);
    a, b := e.0, e.1;
    assert e == (a, b);
  }

  /** Every pair with an end that is not among the old rows is the copy of an old pair. */
  ghost predicate FreshAreCopies(before: set<(Id, Id)>, after: set<(Id, Id)>, oldFirst: set<Id>, oldSecond: set<Id>,
                                 f: map<Id, Id>, g: map<Id, Id>) {
    forall x, y :: (x, y) in after && (x !in oldFirst || y !in oldSecond) ==>
      exists a, b :: (a, b) in before && a in f && b in g && f[a] == x && g[b] == y
  }

  lemma CopiedPairs(before: set<(Id, Id)>, oldFirst: set<Id>, oldSecond: set<Id>, f: map<Id, Id>, g: map<Id, Id>)
    requires forall x, y :: (x, y) in before ==> x in oldFirst && y in oldSecond
    ensures FreshAreCopies(before, before + MapEdges(before, f, g), oldFirst, oldSecond, f, g)
  {
    forall x, y | (x, y) in before + MapEdges(before, f, g) && (x !in oldFirst || y !in oldSecond)
      ensures exists a, b :: (a, b) in before && a in f && b in g && f[a] == x && g[b] == y
    {
      var a, b := UnmapEdge(before, f, g, x, y);
    }
  }

  /** Copied rows are joined exactly as their originals are, old rows as they were, and nothing else is joined. */
  lemma CloneIsomorphism(s: Tables, t: Tables, source: Id, copy: Id, semMap: map<Id, Id>, metaMap: map<Id, Id>,
                         now: int)
    requires IdsUsed(s) && Layered(s) && MemoryLinkage.Linkage(s) && IsClone(s, t, source, copy, semMap, metaMap, now)
    ensures forall p, c :: p in metaMap && c in metaMap ==>
      ((metaMap[p], metaMap[c]) in t.metaParents <==> (p, c) in s.metaParents)
    ensures forall m, x :: m in metaMap && x in semMap ==>
      ((metaMap[m], semMap[x]) in t.metaSources <==> (m, x) in s.metaSources)
    ensures forall p, c :: p in semMap && c in semMap ==>
      ((semMap[p], semMap[c]) in t.summaryParents <==> (p, c) in s.summaryParents)
    ensures forall p, c :: p in s.metas ==> ((p, c) in t.metaParents <==> (p, c) in s.metaParents)
    ensures forall m, x :: m in s.metas ==> ((m, x) in t.metaSources <==> (m, x) in s.metaSources)
    ensures forall p, c :: p in s.semantics ==> ((p, c) in t.summaryParents <==> (p, c) in s.summaryParents)
    ensures FreshAreCopies(s.metaParents, t.metaParents, s.metas.Keys, s.metas.Keys, metaMap, metaMap)
    ensures FreshAreCopies(s.metaSources, t.metaSources, s.metas.Keys, s.semantics.Keys, metaMap, semMap)
    ensures FreshAreCopies(s.summaryParents, t.summaryParents, s.semantics.Keys, s.semantics.Keys, semMap, semMap)
    ensures forall a, m :: a in semMap ==> ((semMap[a], m) in t.summaryMessages <==> (a, m) in s.summaryMessages)
    ensures forall a, m :: a in s.semantics ==> ((a, m) in t.summaryMessages <==> (a, m) in s.summaryMessages)
  {
    MessageIsomorphism(s, t, source, copy, semMap, metaMap, now);
    MetaIsomorphism(s, t, source, copy, semMap, metaMap, now);
    SummaryIsomorphism(s, t, source, copy, semMap, metaMap, now);
    hide IsClone, MapEdges;
  }

  /** A copied summary covers the messages its original covers. */
  lemma MessageIsomorphism(s: Tables, t: Tables, source: Id, copy: Id, semMap: map<Id, Id>, metaMap: map<Id, Id>,
                           now: int)
    requires IdsUsed(s) && MemoryLinkage.Linkage(s) && IsClone(s, t, source, copy, semMap, metaMap, now)
    ensures forall a, m :: a in semMap ==> ((semMap[a], m) in t.summaryMessages <==> (a, m) in s.summaryMessages)
    ensures forall a, m :: a in s.semantics ==> ((a, m) in t.summaryMessages <==> (a, m) in s.summaryMessages)
  {
    FreshRows(s, t, source, copy, semMap, metaMap, now);
    LinksStartAtRows(s);
    hide IsClone, Injective, MapFirst, IdsUsed, MemoryLinkage.Linkage;
    forall a: Id, m: Id | a in semMap ensures (semMap[a], m) in t.summaryMessages <==> (a, m) in s.summaryMessages {
      MappedLink(s.summaryMessages, semMap, a, m);
    }
    forall a: Id, m: Id | a in s.semantics ensures (a, m) in t.summaryMessages <==> (a, m) in s.summaryMessages {
      NotMappedTo(s.summaryMessages, semMap, a, m);
    }
  }

  lemma FreshRows(s: Tables, t: Tables, source: Id, copy: Id, semMap: map<Id, Id>, metaMap: map<Id, Id>, now: int)
    requires IdsUsed(s) && IsClone(s, t, source, copy, semMap, metaMap, now)
    ensures Injective(semMap) && forall a :: a in semMap ==> semMap[a] !in s.semantics
    ensures t.summaryMessages == s.summaryMessages + MapFirst(s.summaryMessages, semMap)
  {
    hide Injective, MapFirst, MapEdges;
  }

  lemma LinksStartAtRows(s: Tables)
    requires MemoryLinkage.Linkage(s)
    ensures forall x, m :: (x, m) in s.summaryMessages ==> x in s.semantics
  {
    forall x, m | (x, m) in s.summaryMessages ensures x in s.semantics {
      assert MemoryLinkage.GoodMessageLink(s, x, m);
    }
  }

  lemma MappedLink(edges: set<(Id, Id)>, f: map<Id, Id>, a: Id, m: Id)
    requires Injective(f) && a in f
    ensures (f[a], m) in MapFirst(edges, f) <==> (a, m) in edges
  {
    if (a, m) in edges {
      assert (a, m).0 in f && (f[(a, m).0], (a, m).1) == (f[a], m);
    }
    if (f[a], m) in MapFirst(edges, f) {
      var e :| e in edges && e.0 in f && (f[e.0], e.1) == (f[a], m);
      assert e == (a, m);
    }
  }

  lemma NotMappedTo(edges: set<(Id, Id)>, f: map<Id, Id>, a: Id, m: Id)
    requires forall b :: b in f ==> f[b] != a
    ensures (a, m) !in MapFirst(edges, f)
  {}

  lemma SummaryIsomorphism(s: Tables, t: Tables, source: Id, copy: Id, semMap: map<Id, Id>, metaMap: map<Id, Id>,
                           now: int)
    requires IdsUsed(s) && MemoryLinkage.Linkage(s) && IsClone(s, t, source, copy, semMap, metaMap, now)
    ensures forall p, c :: p in semMap && c in semMap ==>
      ((semMap[p], semMap[c]) in t.summaryParents <==> (p, c) in s.summaryParents)
    ensures forall p, c :: p in s.semantics ==> ((p, c) in t.summaryParents <==> (p, c) in s.summaryParents)
    ensures FreshAreCopies(s.summaryParents, t.summaryParents, s.semantics.Keys, s.semantics.Keys, semMap, semMap)
  {
    hide FreshAreCopies;
    forall p, c | (p, c) in s.summaryParents ensures p in s.semantics && c in s.semantics {
      assert MemoryLinkage.GoodSummaryLink(s, p, c);
    }
    forall p, c | p in semMap && c in semMap
      ensures (semMap[p], semMap[c]) in t.summaryParents <==> (p, c) in s.summaryParents
    {
      MappedEdge(s.summaryParents, semMap, semMap, p, c);
      assert semMap[p] !in s.semantics;
    }
    forall p, c | p in s.semantics && (p, c) in t.summaryParents ensures (p, c) in s.summaryParents {
      if (p, c) in MapEdges(s.summaryParents, semMap, semMap) {
        var a, b := UnmapEdge(s.summaryParents, semMap, semMap, p, c);
      }
    }
    CopiedPairs(s.summaryParents, s.semantics.Keys, s.semantics.Keys, semMap, semMap);
  }

  lemma MetaIsomorphism(s: Tables, t: Tables, source: Id, copy: Id, semMap: map<Id, Id>, metaMap: map<Id, Id>, now: int)
    requires IdsUsed(s) && Layered(s) && IsClone(s, t, source, copy, semMap, metaMap, now)
    ensures forall p, c :: p in metaMap && c in metaMap ==>
      ((metaMap[p], metaMap[c]) in t.metaParents <==> (p, c) in s.metaParents)
    ensures forall m, x :: m in metaMap && x in semMap ==>
      ((metaMap[m], semMap[x]) in t.metaSources <==> (m, x) in s.metaSources)
    ensures forall p, c :: p in s.metas ==> ((p, c) in t.metaParents <==> (p, c) in s.metaParents)
    ensures forall m, x :: m in s.metas ==> ((m, x) in t.metaSources <==> (m, x) in s.metaSources)
    ensures FreshAreCopies(s.metaParents, t.metaParents, s.metas.Keys, s.metas.Keys, metaMap, metaMap)
    ensures FreshAreCopies(s.metaSources, t.metaSources, s.metas.Keys, s.semantics.Keys, metaMap, semMap)
  {
    hide FreshAreCopies;
    forall p, c | p in metaMap && c in metaMap
      ensures (metaMap[p], metaMap[c]) in t.metaParents <==> (p, c) in s.metaParents
    {
      MappedEdge(s.metaParents, metaMap, metaMap, p, c);
      assert (metaMap[p], metaMap[c]) in s.metaParents ==> GoodEdge(s, metaMap[p], metaMap[c]);
    }
    forall m, x | m in metaMap && x in semMap
      ensures (metaMap[m], semMap[x]) in t.metaSources <==> (m, x) in s.metaSources
    {
      MappedEdge(s.metaSources, metaMap, semMap, m, x);
      assert (metaMap[m], semMap[x]) in s.metaSources ==> GoodSource(s, metaMap[m], semMap[x]);
    }
    forall p, c | p in s.metas && (p, c) in t.metaParents ensures (p, c) in s.metaParents {
      if (p, c) in MapEdges(s.metaParents, metaMap, metaMap) {
        var a, b := UnmapEdge(s.metaParents, metaMap, metaMap, p, c);
      }
    }
    forall m, x | m in s.metas && (m, x) in t.metaSources ensures (m, x) in s.metaSources {
      if (m, x) in MapEdges(s.metaSources, metaMap, semMap) {
        var a, b := UnmapEdge(s.metaSources, metaMap, semMap, m, x);
      }
    }
    OldEnds(s);
    CopiedPairs(s.metaParents, s.metas.Keys, s.metas.Keys, metaMap, metaMap);
    CopiedPairs(s.metaSources, s.metas.Keys, s.semantics.Keys, metaMap, semMap);
  }

  lemma OldEnds(s: Tables)
    requires Layered(s)
    ensures forall p, c :: (p, c) in s.metaParents ==> p in s.metas && c in s.metas
    ensures forall m, x :: (m, x) in s.metaSources ==> m in s.metas && x in s.semantics
  {
    forall p, c | (p, c) in s.metaParents ensures p in s.metas && c in s.metas { assert GoodEdge(s, p, c); }
    forall m, x | (m, x) in s.metaSources ensures m in s.metas && x in s.semantics { assert GoodSource(s, m, x); }
  }

  lemma CloneKeepsLayers(s: Tables, t: Tables, source: Id, copy: Id, semMap: map<Id, Id>, metaMap: map<Id, Id>,
                         now: int)
    requires Layered(s) && IsClone(s, t, source, copy, semMap, metaMap, now)
    ensures Layered(t)
  {
    hide Injective;
    forall p, c | (p, c) in t.metaParents ensures GoodEdge(t, p, c) {
      if (p, c) in s.metaParents {
        assert GoodEdge(s, p, c);
      } else {
        var a, b := UnmapEdge(s.metaParents, metaMap, metaMap, p, c);
        assert GoodEdge(s, a, b);
      }
    }
    forall m, x | (m, x) in t.metaSources ensures GoodSource(t, m, x) {
      if (m, x) in s.metaSources {
        assert GoodSource(s, m, x);
      } else {
        var a, b := UnmapEdge(s.metaSources, metaMap, semMap, m, x);
        assert GoodSource(s, a, b);
      }
    }
    forall m | m in t.metas ensures t.metas[m].depth >= 0 {
      if m !in s.metas {
        assert m in metaMap.Values;
        var a :| a in metaMap && metaMap[a] == m;
      }
    }
  }

  /** A clone keeps the invariant of the meta tables and evolves them like every job does. */
  lemma CloneKeepsInv(s: Tables, t: Tables, source: Id, copy: Id, semMap: map<Id, Id>, metaMap: map<Id, Id>, now: int,
                      cfg: ReflectionConfig)
    requires Inv(s, cfg) && IsClone(s, t, source, copy, semMap, metaMap, now)
    ensures Inv(t, cfg) && Evolves(s, t)
  {
    CloneKeepsLayers(s, t, source, copy, semMap, metaMap, now);
    CloneRows(s, t, source, copy, semMap, metaMap, now);
    CloneAddsNoOldChild(s, t, source, copy, semMap, metaMap, now);
    hide IsClone, Layered;
  }

  /** Old entries are as they were; a new one has a fresh id, and the confidence and depth of an old one. */
  lemma CloneRows(s: Tables, t: Tables, source: Id, copy: Id, semMap: map<Id, Id>, metaMap: map<Id, Id>, now: int)
    requires IdsUsed(s) && IsClone(s, t, source, copy, semMap, metaMap, now)
    ensures IdsUsed(t) && s.nextId <= t.nextId
    ensures forall m :: m in s.metas ==> m in t.metas && t.metas[m] == s.metas[m]
    ensures forall m :: m in t.metas && m !in s.metas ==> m >= s.nextId && exists a ::
      a in s.metas && s.metas[a].confidence == t.metas[m].confidence && s.metas[a].depth == t.metas[m].depth
  {
    hide Injective;
    forall m | m in t.metas && m !in s.metas
      ensures s.nextId <= m < t.nextId && exists a ::
        a in s.metas && s.metas[a].confidence == t.metas[m].confidence && s.metas[a].depth == t.metas[m].depth
    {
      assert m in metaMap.Values;
      var a :| a in metaMap && metaMap[a] == m;
      assert a in s.metas;
    }
    forall x | x in t.semantics && x !in s.semantics ensures x < t.nextId {
      assert x in semMap.Values;
    }
  }

  lemma CloneAddsNoOldChild(s: Tables, t: Tables, source: Id, copy: Id, semMap: map<Id, Id>, metaMap: map<Id, Id>,
                            now: int)
    requires IdsUsed(s) && IsClone(s, t, source, copy, semMap, metaMap, now)
    ensures forall p, c :: (p, c) in t.metaParents && (p, c) !in s.metaParents ==> c !in s.metas
  {
    hide Injective;
    forall p, c | (p, c) in t.metaParents && (p, c) !in s.metaParents ensures c !in s.metas {
      var a, b := UnmapEdge(s.metaParents, metaMap, metaMap, p, c);
    }
  }

  // ---------- tracing ----------

  lemma OldRows(s: Tables, t: Tables, source: Id, copy: Id, semMap: map<Id, Id>, metaMap: map<Id, Id>, now: int, id: Id)
    requires IdsUsed(s) && Layered(s) && IsClone(s, t, source, copy, semMap, metaMap, now) && id in s.metas
    ensures id in t.metas && t.metas[id] == s.metas[id]
    ensures Children(t, id) == Children(s, id) && SourcesOf(t, id) == SourcesOf(s, id)
  {
    MetaIsomorphism(s, t, source, copy, semMap, metaMap, now);
    hide Injective, Layered;
    forall c ensures c in Children(t, id) <==> c in Children(s, id) {
      EdgeOfChild(t, id, c);
      EdgeOfChild(s, id, c);
    }
    forall x ensures x in SourcesOf(t, id) <==> x in SourcesOf(s, id) {
      EdgeOfChild(t, id, x);
      EdgeOfChild(s, id, x);
    }
  }

  lemma EdgeOfChild(t: Tables, id: Id, c: Id)
    ensures c in Children(t, id) <==> (id, c) in t.metaParents
    ensures c in SourcesOf(t, id) <==> (id, c) in t.metaSources
  {
    if c in Children(t, id) {
      var e :| e in t.metaParents && e.0 == id && e.1 == c;
      assert e == (id, c);
    }
    if c in SourcesOf(t, id) {
      var e :| e in t.metaSources && e.0 == id && e.1 == c;
      assert e == (id, c);
    }
  }

  /** The source profile, and every other one, traces exactly as before. */
  lemma {:induction false} CloneKeepsTraces(s: Tables, t: Tables, source: Id, copy: Id, semMap: map<Id, Id>,
                                            metaMap: map<Id, Id>, now: int, id: Id)
    requires IdsUsed(s) && Layered(s) && Layered(t) && IsClone(s, t, source, copy, semMap, metaMap, now)
    requires id in s.metas
    ensures Traced(t, id) == Traced(s, id)
    decreases s.metas[id].depth
  {
    OldRows(s, t, source, copy, semMap, metaMap, now, id);
    hide IsClone, Layered, IdsUsed, Children, SourcesOf;
    if s.metas[id].depth != 0 {
      forall c | c in LowerChildren(s, id) ensures Traced(t, c) == Traced(s, c) {
        CloneKeepsTraces(s, t, source, copy, semMap, metaMap, now, c);
      }
    }
  }

  lemma CopiedRowsOf(s: Tables, t: Tables, source: Id, copy: Id, semMap: map<Id, Id>, metaMap: map<Id, Id>, now: int,
                     id: Id)
    requires IdsUsed(s) && Layered(s) && IsClone(s, t, source, copy, semMap, metaMap, now) && id in metaMap
    ensures id in s.metas && metaMap[id] in t.metas && t.metas[metaMap[id]].depth == s.metas[id].depth
    ensures forall c :: c in Children(s, id) ==> c in metaMap
    ensures forall x :: x in SourcesOf(s, id) ==> x in semMap
    ensures forall y :: y in Children(t, metaMap[id]) <==>
              exists c :: c in Children(s, id) && c in metaMap && metaMap[c] == y
    ensures forall y :: y in SourcesOf(t, metaMap[id]) <==>
              exists x :: x in SourcesOf(s, id) && x in semMap && semMap[x] == y
  {
    MetaIsomorphism(s, t, source, copy, semMap, metaMap, now);
    hide Injective;
    forall c | c in Children(s, id) ensures c in metaMap {
      EdgeOfChild(s, id, c);
      assert GoodEdge(s, id, c);
    }
    forall x | x in SourcesOf(s, id) ensures x in semMap {
      EdgeOfChild(s, id, x);
      assert GoodSource(s, id, x);
    }
    forall y | y in Children(t, metaMap[id])
      ensures exists c :: c in Children(s, id) && c in metaMap && metaMap[c] == y
    {
      EdgeOfChild(t, metaMap[id], y);
      var a, b := CopiedEdge(s, t, source, copy, semMap, metaMap, now, id, y);
      EdgeOfChild(s, id, b);
    }
    forall y | y in SourcesOf(t, metaMap[id])
      ensures exists x :: x in SourcesOf(s, id) && x in semMap && semMap[x] == y
    {
      EdgeOfChild(t, metaMap[id], y);
      var b := CopiedSource(s, t, source, copy, semMap, metaMap, now, id, y);
      EdgeOfChild(s, id, b);
    }
    forall c | c in Children(s, id) ensures metaMap[c] in Children(t, metaMap[id]) {
      EdgeOfChild(s, id, c);
      EdgeOfChild(t, metaMap[id], metaMap[c]);
    }
    forall x | x in SourcesOf(s, id) ensures semMap[x] in SourcesOf(t, metaMap[id]) {
      EdgeOfChild(s, id, x);
      EdgeOfChild(t, metaMap[id], semMap[x]);
    }
  }

  lemma CopiedEdge(s: Tables, t: Tables, source: Id, copy: Id, semMap: map<Id, Id>, metaMap: map<Id, Id>, now: int,
                   id: Id, y: Id)
    returns (a: Id, b: Id)
    requires IdsUsed(s) && Layered(s) && IsClone(s, t, source, copy, semMap, metaMap, now) && id in metaMap
    requires (metaMap[id], y) in t.metaParents
    ensures a == id && b in metaMap && metaMap[b] == y && (id, b) in s.metaParents
  {
    assert (metaMap[id], y) in s.metaParents ==> GoodEdge(s, metaMap[id], y);
    a, b := UnmapEdge(s.metaParents, metaMap, metaMap, metaMap[id], y);
  }

  lemma CopiedSource(s: Tables, t: Tables, source: Id, copy: Id, semMap: map<Id, Id>, metaMap: map<Id, Id>, now: int,
                     id: Id, y: Id)
    returns (b: Id)
    requires IdsUsed(s) && Layered(s) && IsClone(s, t, source, copy, semMap, metaMap, now) && id in metaMap
    requires (metaMap[id], y) in t.metaSources
    ensures b in semMap && semMap[b] == y && (id, b) in s.metaSources
  {
    assert (metaMap[id], y) in s.metaSources ==> GoodSource(s, metaMap[id], y);
    var a;
    a, b := UnmapEdge(s.metaSources, metaMap, semMap, metaMap[id], y);
  }

  /** `y` is the copy of a member of `xs`. */
  ghost predicate InImage(xs: set<Id>, f: map<Id, Id>, y: Id) {
    exists x :: x in xs && x in f && f[x] == y
  }

  /** All rows traced from `id` were copied, and its copy traces exactly to their copies. */
  ghost predicate ImageOf(s: Tables, t: Tables, semMap: map<Id, Id>, metaMap: map<Id, Id>, id: Id)
    requires Layered(s) && Layered(t) && id in metaMap
  {
    && (forall x :: x in Traced(s, id) ==> x in semMap)
    && (forall y :: y in Traced(t, metaMap[id]) <==> InImage(Traced(s, id), semMap, y))
  }

  /** Tracing a copied entry gives exactly the copies of the traced rows, all of which were copied. */
  lemma {:induction false} CloneTraceImage(s: Tables, t: Tables, source: Id, copy: Id, semMap: map<Id, Id>,
                                           metaMap: map<Id, Id>, now: int, id: Id)
    requires IdsUsed(s) && Layered(s) && Layered(t) && IsClone(s, t, source, copy, semMap, metaMap, now)
    requires id in metaMap
    requires id in s.metas && metaMap[id] in t.metas
    ensures ImageOf(s, t, semMap, metaMap, id)
    decreases s.metas[id].depth
  {
    CopiedRowsOf(s, t, source, copy, semMap, metaMap, now, id);
    hide IsClone, Layered, IdsUsed, Children, SourcesOf, ImageOf, Traced;
    if s.metas[id].depth == 0 {
      ImageOfLeaf(s, t, semMap, metaMap, id);
    } else {
      forall c | c in LowerChildren(s, id)
        ensures c in metaMap && ImageOf(s, t, semMap, metaMap, c)
      {
        assert metaMap[c] in LowerChildren(t, metaMap[id]);
        CloneTraceImage(s, t, source, copy, semMap, metaMap, now, c);
      }
      ImageOfParent(s, t, semMap, metaMap, id);
    }
  }

  lemma ImageOfLeaf(s: Tables, t: Tables, semMap: map<Id, Id>, metaMap: map<Id, Id>, id: Id)
    requires Layered(s) && Layered(t) && id in metaMap && id in s.metas && metaMap[id] in t.metas
    requires s.metas[id].depth == t.metas[metaMap[id]].depth == 0
    requires forall x :: x in SourcesOf(s, id) ==> x in semMap
    requires forall y :: y in SourcesOf(t, metaMap[id]) <==>
               exists x :: x in SourcesOf(s, id) && x in semMap && semMap[x] == y
    ensures ImageOf(s, t, semMap, metaMap, id)
  {
    hide Layered, SourcesOf;
  }

  lemma ImageOfParent(s: Tables, t: Tables, semMap: map<Id, Id>, metaMap: map<Id, Id>, id: Id)
    requires Layered(s) && Layered(t) && id in metaMap && id in s.metas && metaMap[id] in t.metas
    requires s.metas[id].depth == t.metas[metaMap[id]].depth != 0
    requires forall c :: c in LowerChildren(s, id) ==> c in metaMap && ImageOf(s, t, semMap, metaMap, c)
    requires forall d :: d in LowerChildren(t, metaMap[id]) <==>
               exists c :: c in LowerChildren(s, id) && c in metaMap && metaMap[c] == d
    ensures ImageOf(s, t, semMap, metaMap, id)
  {
    hide Layered, Children, LowerChildren;
    forall y | y in Traced(t, metaMap[id]) ensures InImage(Traced(s, id), semMap, y) {
      var d :| d in LowerChildren(t, metaMap[id]) && y in Traced(t, d);
      var c :| c in LowerChildren(s, id) && c in metaMap && metaMap[c] == d;
      assert ImageOf(s, t, semMap, metaMap, c);
      var x :| x in Traced(s, c) && x in semMap && semMap[x] == y;
      assert x in Traced(s, id);
    }
    forall y | InImage(Traced(s, id), semMap, y) ensures y in Traced(t, metaMap[id]) {
      var x :| x in Traced(s, id) && x in semMap && semMap[x] == y;
      var c :| c in LowerChildren(s, id) && x in Traced(s, c);
      assert ImageOf(s, t, semMap, metaMap, c);
      assert InImage(Traced(s, c), semMap, y);
      assert metaMap[c] in LowerChildren(t, metaMap[id]);
    }
    forall x | x in Traced(s, id) ensures x in semMap {
      var c :| c in LowerChildren(s, id) && x in Traced(s, c);
      assert ImageOf(s, t, semMap, metaMap, c);
    }
  }
}
