/** The memory database: profiles, chats, sessions, messages, semantic and meta memory, and their join tables.
    Tables are maps by id; join tables are sets of pairs. */
module MemoryTables {
  import opened Wrappers

  type Id = nat

  datatype MetaKind = Insight | Heuristic | SelfAssessment

  datatype Meta = Meta(kind: MetaKind, confidence: real, depth: int, profile: Id, created: int)

  /** `summary` rows have a time range; all other semantic rows are facts here. */
  datatype Semantic = Semantic(isSummary: bool, depth: int, profile: Id, session: Option<Id>,
                               earliest: int, latest: int, created: int)

  datatype Profile = Profile(name: string, description: string, isDefault: bool)

  datatype Session = Session(chat: Id, ended: bool)

  datatype Message = Message(session: Option<Id>, timestamp: int)

  datatype Tables = Tables(
    profiles: map<Id, Profile>,
    chats: map<Id, Id>,
    sessions: map<Id, Session>,
    messages: map<Id, Message>,
    semantics: map<Id, Semantic>,
    metas: map<Id, Meta>,
    metaParents: set<(Id, Id)>,
    metaSources: set<(Id, Id)>,
    summaryParents: set<(Id, Id)>,
    summaryMessages: set<(Id, Id)>,
    nextId: Id)

  // ---------- what every reachable state satisfies ----------

  /** Ids are drawn from a supply that is never reused. */
  ghost predicate IdsUsed(t: Tables) {
    && (forall id :: id in t.profiles ==> id < t.nextId)
    && (forall id :: id in t.semantics ==> id < t.nextId)
    && (forall id :: id in t.metas ==> id < t.nextId)
  }

  /** An edge joins a parent to a child one level below, of the same profile and kind. */
  ghost predicate GoodEdge(t: Tables, parent: Id, child: Id) {
    && parent in t.metas && child in t.metas
    && t.metas[parent].depth == t.metas[child].depth + 1
    && t.metas[parent].profile == t.metas[child].profile
    && t.metas[parent].kind == t.metas[child].kind
  }

  /** A source link joins a depth-0 entry to a semantic row of the same profile. */
  ghost predicate GoodSource(t: Tables, meta: Id, semantic: Id) {
    && meta in t.metas && semantic in t.semantics
    && t.metas[meta].depth == 0
    && t.metas[meta].profile == t.semantics[semantic].profile
  }

  ghost predicate Layered(t: Tables) {
    && (forall p, c :: (p, c) in t.metaParents ==> GoodEdge(t, p, c))
    && (forall m, s :: (m, s) in t.metaSources ==> GoodSource(t, m, s))
    && (forall m :: m in t.metas ==> t.metas[m].depth >= 0)
  }

  function Children(t: Tables, id: Id): set<Id> {
    set e | e in t.metaParents && e.0 == id :: e.1
  }

  function SourcesOf(t: Tables, id: Id): set<Id> {
    set e | e in t.metaSources && e.0 == id :: e.1
  }

  // ---------- rows of a query ----------

  predicate NoDuplicates<T(==)>(s: seq<T>) {
    forall i, j :: 0 <= i < j < |s| ==> s[i] != s[j]
  }

  /** The rows of a set, each once, in an order nothing is known about. */
  method Enumerate<T(==)>(s: set<T>) returns (rows: seq<T>)
    ensures NoDuplicates(rows)
    ensures forall x :: x in rows <==> x in s
    ensures |rows| == |s|
  {
    rows := [];
    var rest := s;
    while rest != {}
      invariant NoDuplicates(rows)
      invariant forall x :: x in s <==> x in rows || x in rest
      invariant forall x :: x in rows ==> x !in rest
      invariant |rows| + |rest| == |s|
      decreases |rest|
    {
      var x :| x in rest;
      rows := rows + [x];
      rest := rest - {x};
    }
  }
}
