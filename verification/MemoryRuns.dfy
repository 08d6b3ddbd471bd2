/** Runs of the memory system: statements of the reflection job, inserts of consolidation passes, clones, statements of
    deletions and other writes, interleaved in any order. Only the first state is assumed to be good. */
module MemoryRuns {
  import opened Wrappers
  import opened MemoryTables
  import opened MemoryTrace
  import opened MemoryCascade
  import opened MemoryStatements
  import opened MemoryProfiles
  import opened MemoryQuery
  import Links = MemoryLinkage
  import Consolidation = MemoryConsolidation
  import CloneLaws = MemoryCloneLaws
  import LinkLaws = MemoryLinkLaws
  import Stability = MemoryStability
  import Reflection = MemoryReflection

  // ---------- steps ----------

  /** A statement of the reflection job. */
  ghost predicate Stated(s: Tables, t: Tables, cfg: ReflectionConfig) {
    exists st :: Guard(s, st) && t == Exec(s, st, cfg)
  }

  /** An insert of a consolidation pass. */
  ghost predicate Consolidated(s: Tables, t: Tables) {
    exists i :: Links.MayInsert(s, i) && t == Links.Inserted(s, i)
  }

  ghost predicate Cloned(s: Tables, t: Tables) {
    exists source, copy, f, g, now :: IsClone(s, t, source, copy, f, g, now)
  }

  /** A DELETE of any meta and semantic rows, or of their links, or of a profile. */
  ghost predicate Dropped(s: Tables, t: Tables) {
    exists k, M, S, id :: t == Deleted(s, k, M, S, id)
  }

  /** Profiles, chats, sessions and messages: new ids are fresh, a chat gets an existing profile, and a message keeps
      its time. */
  ghost predicate Written(s: Tables, t: Tables) {
    && t == s.(profiles := t.profiles, chats := t.chats, sessions := t.sessions, messages := t.messages,
               nextId := t.nextId)
    && s.nextId <= t.nextId && (forall p :: p in t.profiles && p !in s.profiles ==> p < t.nextId)
    && (forall c :: c in t.chats ==> t.chats[c] in t.profiles || (c in s.chats && s.chats[c] == t.chats[c]))
    && forall m :: m in s.messages ==> m in t.messages && t.messages[m].timestamp == s.messages[m].timestamp
  }

  ghost predicate Step(s: Tables, t: Tables, cfg: ReflectionConfig) {
    Stated(s, t, cfg) || Consolidated(s, t) || Cloned(s, t) || Dropped(s, t) || Written(s, t)
  }

  ghost predicate IsRun(states: seq<Tables>, cfg: ReflectionConfig) {
    forall i, j :: 0 <= i && j == i + 1 && j < |states| ==> Step(states[i], states[j], cfg)
  }

  /** The meta invariant, good links, and one summary per message and profile. */
  ghost predicate Good(t: Tables, cfg: ReflectionConfig) {
    Inv(t, cfg) && Links.Linkage(t) && Links.OnePerProfile(t)
  }

  lemma EmptyIsGood(cfg: ReflectionConfig, firstId: Id)
    ensures Good(Tables(map[], map[], map[], map[], map[], map[], {}, {}, {}, {}, firstId), cfg)
  {}

  // ---------- every step keeps them ----------

  ghost predicate StaysGood(s: Tables, t: Tables, cfg: ReflectionConfig) {
    Good(t, cfg) && Evolves(s, t)
  }

  lemma StatementIsGood(s: Tables, st: Statement, cfg: ReflectionConfig)
    requires Good(s, cfg) && Guard(s, st)
    ensures StaysGood(s, Exec(s, st, cfg), cfg)
  {
    StatementKeeps(s, st, cfg);
    StatementKeepsOwners(s, st, cfg);
    hide Inv, Guard, Exec, Evolves, Links.OwnersUsed;
    SameLinks(s, Exec(s, st, cfg));
  }

  lemma StatementKeepsOwners(s: Tables, st: Statement, cfg: ReflectionConfig)
    requires Inv(s, cfg) && Links.OwnersUsed(s) && Guard(s, st)
    ensures Links.OwnersUsed(Exec(s, st, cfg))
  {
    hide Inv, ReflectionConfidence, CondensedConfidence, FloorOf, ConfirmConfidence, ContradictConfidence;
    if st.InsertCondensation? {
      assert st.children[0] in st.children;
      assert st.children[0] in Alive(s, st.kind, st.depth - 1, st.profile);
    }
  }

  /** Tables with the same summaries, links and messages. */
  lemma SameLinks(s: Tables, t: Tables)
    requires Links.Linkage(s) && Links.OnePerProfile(s)
    requires t.semantics == s.semantics && t.summaryMessages == s.summaryMessages
    requires t.summaryParents == s.summaryParents
    requires s.nextId <= t.nextId && Links.OwnersUsed(t)
    requires forall m :: m in s.messages ==> m in t.messages && t.messages[m].timestamp == s.messages[m].timestamp
    ensures Links.Linkage(t) && Links.OnePerProfile(t)
  {
    forall x, m | (x, m) in t.summaryMessages
      ensures Links.GoodMessageLink(t, x, m)
    {
      assert Links.GoodMessageLink(s, x, m);
    }
    forall p, c | (p, c) in t.summaryParents
      ensures Links.GoodSummaryLink(t, p, c)
    {
      assert Links.GoodSummaryLink(s, p, c);
    }
    forall a, b, m | (a, m) in t.summaryMessages && (b, m) in t.summaryMessages && Links.SameProfile(t, a, b)
      ensures a == b
    {
      assert Links.SameProfile(s, a, b);
    }
  }

  /** Tables with the same meta entries and edges, and at least the same semantic rows. */
  lemma SameMetas(s: Tables, t: Tables, cfg: ReflectionConfig)
    requires Inv(s, cfg) && t.metas == s.metas && t.metaParents == s.metaParents && t.metaSources == s.metaSources
    requires s.nextId <= t.nextId
    requires forall x :: x in s.semantics ==> x in t.semantics && t.semantics[x] == s.semantics[x]
    requires (forall x :: x in t.semantics ==> x < t.nextId) && forall p :: p in t.profiles ==> p < t.nextId
    ensures Inv(t, cfg) && Evolves(s, t)
  {
    forall p, c | (p, c) in t.metaParents ensures GoodEdge(t, p, c) { assert GoodEdge(s, p, c); }
    forall m, x | (m, x) in t.metaSources ensures GoodSource(t, m, x) { assert GoodSource(s, m, x); }
  }

  lemma InsertionIsGood(s: Tables, i: Links.Insertion, cfg: ReflectionConfig)
    requires Good(s, cfg) && Links.MayInsert(s, i)
    ensures StaysGood(s, Links.Inserted(s, i), cfg)
  {
    var t := Links.Inserted(s, i);
    Links.InsertKeepsLinkage(s, i);
    Links.InsertKeepsUniqueness(s, i);
    hide Layered, Bounded, Evolves, Links.Linkage, Links.OnePerProfile, Links.MayInsert;
    RowsKnown(s);
    RowsKnown(t);
    SameMetas(s, t, cfg);
  }

  lemma RowsKnown(t: Tables)
    requires Links.Linkage(t)
    ensures forall x :: x in t.semantics ==> x < t.nextId
  {}

  lemma ClonedIsGood(s: Tables, t: Tables, source: Id, copy: Id, f: map<Id, Id>, g: map<Id, Id>, now: int,
                     cfg: ReflectionConfig)
    requires Good(s, cfg) && IsClone(s, t, source, copy, f, g, now)
    ensures StaysGood(s, t, cfg)
  {
    hide IsClone, Layered, Bounded, Evolves, Links.Linkage, Links.OnePerProfile;
    CloneLaws.CloneKeepsInv(s, t, source, copy, f, g, now, cfg);
    LinkLaws.CloneKeepsLinkage(s, t, source, copy, f, g, now);
    LinkLaws.CloneKeepsOnePerProfile(s, t, source, copy, f, g, now);
  }

  /** Rows and links are only dropped, and no link is left without its rows. */
  ghost predicate Shrinks(s: Tables, t: Tables) {
    && t.nextId == s.nextId && t.messages == s.messages && t.chats == s.chats && t.profiles.Keys <= s.profiles.Keys
    && (forall m :: m in t.metas ==> m in s.metas && t.metas[m] == s.metas[m])
    && (forall x :: x in t.semantics ==> x in s.semantics && t.semantics[x] == s.semantics[x])
    && (forall p, c :: (p, c) in t.metaParents ==> (p, c) in s.metaParents && p in t.metas && c in t.metas)
    && (forall m, x :: (m, x) in t.metaSources ==> (m, x) in s.metaSources && m in t.metas && x in t.semantics)
    && (forall p, c :: (p, c) in t.summaryParents ==>
          (p, c) in s.summaryParents && p in t.semantics && c in t.semantics)
    && (forall x, m :: (x, m) in t.summaryMessages ==> (x, m) in s.summaryMessages && x in t.semantics)
  }

  lemma ShrunkMetas(s: Tables, t: Tables, cfg: ReflectionConfig)
    requires Inv(s, cfg) && Shrinks(s, t)
    ensures Inv(t, cfg) && Evolves(s, t)
  {
    forall p, c | (p, c) in t.metaParents ensures GoodEdge(t, p, c) { assert GoodEdge(s, p, c); }
    forall m, x | (m, x) in t.metaSources ensures GoodSource(t, m, x) { assert GoodSource(s, m, x); }
  }

  lemma ShrunkOwners(s: Tables, t: Tables)
    requires Links.OwnersUsed(s) && Shrinks(s, t)
    ensures Links.OwnersUsed(t)
  {}

  lemma ShrunkLinks(s: Tables, t: Tables)
    requires Links.Linkage(s) && Links.OnePerProfile(s) && Shrinks(s, t)
    ensures Links.Linkage(t) && Links.OnePerProfile(t)
  {
    ShrunkOwners(s, t);
    hide Links.OwnersUsed;
    forall x, m | (x, m) in t.summaryMessages
      ensures Links.GoodMessageLink(t, x, m)
    {
      assert Links.GoodMessageLink(s, x, m);
    }
    forall p, c | (p, c) in t.summaryParents
      ensures Links.GoodSummaryLink(t, p, c)
    {
      assert Links.GoodSummaryLink(s, p, c);
    }
    forall a, b, m | (a, m) in t.summaryMessages && (b, m) in t.summaryMessages && Links.SameProfile(t, a, b)
      ensures a == b
    {
      assert Links.SameProfile(s, a, b);
    }
  }

  ghost predicate EndsKnown(s: Tables) {
    && (forall p, c :: (p, c) in s.metaParents ==> p in s.metas && c in s.metas)
    && (forall m, x :: (m, x) in s.metaSources ==> m in s.metas && x in s.semantics)
    && (forall p, c :: (p, c) in s.summaryParents ==> p in s.semantics && c in s.semantics)
    && (forall x, m :: (x, m) in s.summaryMessages ==> x in s.semantics)
  }

  lemma GoodEnds(s: Tables, cfg: ReflectionConfig)
    requires Good(s, cfg)
    ensures EndsKnown(s)
  {
    CloneLaws.OldEnds(s);
    forall p, c | (p, c) in s.summaryParents
      ensures p in s.semantics && c in s.semantics
    {
      assert Links.GoodSummaryLink(s, p, c);
    }
    forall x, m | (x, m) in s.summaryMessages ensures x in s.semantics { assert Links.GoodMessageLink(s, x, m); }
  }

  lemma DroppingShrinks(s: Tables, k: nat, M: set<Id>, S: set<Id>, id: Id)
    requires EndsKnown(s)
    ensures Shrinks(s, Deleted(s, k, M, S, id))
  {
    hide EndsKnown, Shrinks;
    if k == 5 {
      MetasDropped(s, M);
    } else if k == 6 {
      SemanticsDropped(s, S);
    } else {
      LinksDropped(s, k, M, S, id);
    }
  }

  lemma LinksDropped(s: Tables, k: nat, M: set<Id>, S: set<Id>, id: Id)
    requires EndsKnown(s) && k != 5 && k != 6
    ensures Shrinks(s, Deleted(s, k, M, S, id))
  {
    hide EndsKnown, Shrinks, WithoutMetaLinks, WithoutSourceLinks, WithoutSummaryLinks, WithoutMessageLinks,
         WithoutMetas, WithoutSemantics;
    match k {
      case 1 => MetaLinksDropped(s, M);
      case 2 => SourceLinksDropped(s, S);
      case 3 => SummaryLinksDropped(s, S);
      case 4 => MessageLinksDropped(s, S);
      case 7 => FewerLinks(s, Deleted(s, k, M, S, id));
      case _ => FewerLinks(s, s);
    }
  }

  lemma MetaLinksDropped(s: Tables, M: set<Id>)
    requires EndsKnown(s)
    ensures Shrinks(s, WithoutMetaLinks(s, M))
  {
    hide EndsKnown, Shrinks;
    FewerLinks(s, WithoutMetaLinks(s, M));
  }

  lemma SourceLinksDropped(s: Tables, S: set<Id>)
    requires EndsKnown(s)
    ensures Shrinks(s, WithoutSourceLinks(s, S))
  {
    hide EndsKnown, Shrinks;
    FewerLinks(s, WithoutSourceLinks(s, S));
  }

  lemma SummaryLinksDropped(s: Tables, S: set<Id>)
    requires EndsKnown(s)
    ensures Shrinks(s, WithoutSummaryLinks(s, S))
  {
    hide EndsKnown, Shrinks;
    FewerLinks(s, WithoutSummaryLinks(s, S));
  }

  lemma MessageLinksDropped(s: Tables, S: set<Id>)
    requires EndsKnown(s)
    ensures Shrinks(s, WithoutMessageLinks(s, S))
  {
    hide EndsKnown, Shrinks;
    FewerLinks(s, WithoutMessageLinks(s, S));
  }

  lemma FewerLinks(s: Tables, t: Tables)
    requires EndsKnown(s) && t.profiles.Keys <= s.profiles.Keys
    requires t.metaSources <= s.metaSources && t.summaryParents <= s.summaryParents
    requires t.summaryMessages <= s.summaryMessages
    requires t == s.(profiles := t.profiles, metaSources := t.metaSources, summaryParents := t.summaryParents,
                     summaryMessages := t.summaryMessages)
    ensures Shrinks(s, t)
  {}

  lemma MetasDropped(s: Tables, M: set<Id>)
    requires EndsKnown(s)
    ensures Shrinks(s, WithoutMetas(s, M))
  {}

  lemma SemanticsDropped(s: Tables, S: set<Id>)
    requires EndsKnown(s)
    ensures Shrinks(s, WithoutSemantics(s, S))
  {}

  lemma DroppedIsGood(s: Tables, k: nat, M: set<Id>, S: set<Id>, id: Id, cfg: ReflectionConfig)
    requires Good(s, cfg)
    ensures StaysGood(s, Deleted(s, k, M, S, id), cfg)
  {
    GoodEnds(s, cfg);
    hide Inv, Evolves, Links.Linkage, Links.OnePerProfile, Deleted, EndsKnown, Shrinks;
    var t := Deleted(s, k, M, S, id);
    DroppingShrinks(s, k, M, S, id);
    ShrunkMetas(s, t, cfg);
    ShrunkLinks(s, t);
  }

  lemma WrittenIsGood(s: Tables, t: Tables, cfg: ReflectionConfig)
    requires Good(s, cfg) && Written(s, t)
    ensures StaysGood(s, t, cfg)
  {
    WrittenKeepsOwners(s, t, cfg);
    hide Layered, Bounded, Evolves, Links.OwnersUsed, Links.OnePerProfile;
    SameLinks(s, t);
    SameMetas(s, t, cfg);
  }

  lemma WrittenKeepsOwners(s: Tables, t: Tables, cfg: ReflectionConfig)
    requires IdsUsed(s) && Links.OwnersUsed(s) && Written(s, t)
    ensures Links.OwnersUsed(t)
  {
    forall c | c in t.chats ensures t.chats[c] < t.nextId {
      assert t.chats[c] in t.profiles ==> t.chats[c] in s.profiles || t.chats[c] < t.nextId;
    }
  }

  lemma StepIsGood(s: Tables, t: Tables, cfg: ReflectionConfig)
    requires Good(s, cfg) && Step(s, t, cfg)
    ensures StaysGood(s, t, cfg)
  {
    hide Good, StaysGood, Guard, Exec, IsClone, Written, Deleted, Links.MayInsert, Links.Inserted;
    if Stated(s, t, cfg) {
      var st :| Guard(s, st) && t == Exec(s, st, cfg);
      StatementIsGood(s, st, cfg);
    } else if Consolidated(s, t) {
      var i :| Links.MayInsert(s, i) && t == Links.Inserted(s, i);
      InsertionIsGood(s, i, cfg);
    } else if Cloned(s, t) {
      var source, copy, f, g, now :| IsClone(s, t, source, copy, f, g, now);
      ClonedIsGood(s, t, source, copy, f, g, now, cfg);
    } else if Dropped(s, t) {
      var k, M, S, id :| t == Deleted(s, k, M, S, id);
      DroppedIsGood(s, k, M, S, id, cfg);
    } else {
      WrittenIsGood(s, t, cfg);
    }
  }

  // ---------- whole runs ----------

  /** Every reachable state is good: layered meta DAG, confidences in bounds, at most one summary per message and
      profile. */
  lemma {:induction false} ReachableIsGood(states: seq<Tables>, cfg: ReflectionConfig, j: nat)
    requires IsRun(states, cfg) && j < |states| && Good(states[0], cfg)
    ensures Good(states[j], cfg)
  {
    hide Good, Step;
    if j > 0 {
      var i := j - 1;
      ReachableIsGood(states, cfg, i);
      StepIsGood(states[i], states[j], cfg);
      GoodAfter(states[i], states[j], cfg);
    }
  }

  lemma GoodAfter(s: Tables, t: Tables, cfg: ReflectionConfig)
    requires StaysGood(s, t, cfg)
    ensures Good(t, cfg)
  {}

  lemma {:induction false} RunEvolves(states: seq<Tables>, cfg: ReflectionConfig, i: nat, j: nat)
    requires IsRun(states, cfg) && i <= j < |states| && Good(states[0], cfg)
    ensures Evolves(states[i], states[j])
    decreases j - i
  {
    hide Step, Evolves, Links.Linkage, Links.OnePerProfile;
    ReachableIsGood(states, cfg, i);
    if i < j {
      var h := j - 1;
      RunEvolves(states, cfg, i, h);
      ReachableIsGood(states, cfg, h);
      ReachableIsGood(states, cfg, j);
      StepIsGood(states[h], states[j], cfg);
      hide Layered, Bounded;
      EvolvesTrans(states[i], states[h], states[j]);
    } else {
      EvolvesRefl(states[i]);
    }
  }

  lemma EvolvesRefl(s: Tables)
    ensures Evolves(s, s)
  {}

  /** Over every run confidences stay between min(threshold, 0.16) and max(threshold, 0.95); above depth 0 they never
      exceed 0.95, whatever the threshold. */
  lemma ConfidenceBounds(states: seq<Tables>, cfg: ReflectionConfig, j: nat, id: Id)
    requires IsRun(states, cfg) && j < |states| && Good(states[0], cfg) && id in states[j].metas
    ensures var confidence := states[j].metas[id].confidence;
      MinReal(cfg.confidenceThreshold, 0.16) <= confidence <= MaxReal(cfg.confidenceThreshold, 0.95)
    ensures states[j].metas[id].depth >= 1 ==> states[j].metas[id].confidence <= 0.95
  {
    ReachableIsGood(states, cfg, j);
    hide IsRun, Layered;
    assert InBounds(cfg, states[j].metas[id].confidence);
  }

  /** In every reachable state an edge joins a parent to a child one level below, of its profile and kind; so tracing
      ends, and finds exactly the rows that can be reached. */
  lemma TracesAreReachability(states: seq<Tables>, cfg: ReflectionConfig, j: nat, id: Id)
    requires IsRun(states, cfg) && j < |states| && Good(states[0], cfg)
    ensures Layered(states[j])
    ensures forall p, c :: (p, c) in states[j].metaParents ==> GoodEdge(states[j], p, c)
    ensures forall x :: x in Traced(states[j], id) <==> Reaches(states[j], id, x)
  {
    ReachableIsGood(states, cfg, j);
    hide IsRun, Reaches, Traced;
    TraceIsReachability(states[j], id);
  }

  /** In every reachable state and under every configuration, seven cascade passes per level leave nothing to decay. */
  lemma CascadesSettle(states: seq<Tables>, cfg: ReflectionConfig, j: nat, profile: Id, maxDepth: nat)
    requires IsRun(states, cfg) && j < |states| && Good(states[0], cfg)
    ensures Layered(states[j])
    ensures var u := Stability.Passes(states[j], profile, maxDepth, 7 * maxDepth);
      CascadePass(u, profile, maxDepth) == u
  {
    ReachableIsGood(states, cfg, j);
    hide IsRun, Layered, CascadePass;
    Reflection.InvIsLayered(states[j], cfg);
    Stability.SevenPassesSettle(states[j], cfg, profile, maxDepth);
  }

  /** Once an entry is below the threshold it is frozen: for the rest of the run its confidence stays, it is not up for
      condensation, it gets no new parent, and no search of any profile returns it. */
  lemma LowEntriesAreFrozen(states: seq<Tables>, cfg: ReflectionConfig, i: nat, j: nat, id: Id)
    requires IsRun(states, cfg) && i <= j < |states| && Good(states[0], cfg)
    requires id in states[i].metas && states[i].metas[id].confidence < LOW
    ensures id in states[j].metas ==> states[j].metas[id].confidence == states[i].metas[id].confidence
    ensures forall kind, depth, profile :: !IsOpen(states[j], kind, depth, profile, id)
    ensures forall p :: (p, id) in states[j].metaParents ==> (p, id) in states[i].metaParents
    ensures forall profile, lo, hi, similarity, gate, score, limit, multiplier, rows ::
      IsSearchResult(states[j], profile, None, lo, hi, similarity, gate, score, limit, multiplier, rows) ==> id !in rows
    ensures forall profile, kind, lo, hi, similarity, score, limit, multiplier, rows ::
      IsQueryResult(states[j], profile, kind, lo, hi, similarity, score, limit, multiplier, rows) ==> id !in rows
  {
    RunEvolves(states, cfg, i, j);
    hide IsRun, Good, IsSearchResult, IsQueryResult;
    if id in states[j].metas {
      assert KeepsEntry(states[i], states[j], id);
    }
    forall profile ensures NoSearchReturns(states[j], profile, id) {
      SearchesSkipLowEntries(states[j], profile, id);
    }
    forall profile, lo, hi, similarity, gate, score, limit, multiplier, rows |
      IsSearchResult(states[j], profile, None, lo, hi, similarity, gate, score, limit, multiplier, rows)
      ensures id !in rows
    {
      assert NoSearchReturns(states[j], profile, id);
    }
    forall profile, kind, lo, hi, similarity, score, limit, multiplier, rows |
      IsQueryResult(states[j], profile, kind, lo, hi, similarity, score, limit, multiplier, rows)
      ensures id !in rows
    {
      assert NoSearchReturns(states[j], profile, id);
    }
  }

  ghost predicate NoSearchReturns(t: Tables, profile: Id, id: Id) {
    && (forall lo, hi, similarity, gate, score, limit, multiplier, rows ::
          IsSearchResult(t, profile, None, lo, hi, similarity, gate, score, limit, multiplier, rows) ==> id !in rows)
    && (forall kind, lo, hi, similarity, score, limit, multiplier, rows ::
          IsQueryResult(t, profile, kind, lo, hi, similarity, score, limit, multiplier, rows) ==> id !in rows)
  }

  // ---------- between two inserts of a pass ----------

  /** Rows that are still there are as they were, and what had no link still has none. */
  ghost predicate LeavesOpen(s: Tables, t: Tables) {
    && s.nextId <= t.nextId
    && (forall x :: x in s.semantics && x in t.semantics ==> t.semantics[x] == s.semantics[x])
    && (forall m :: m in s.messages ==> m in t.messages && t.messages[m].timestamp == s.messages[m].timestamp)
    && (forall m :: !Links.Linked(s, m) ==> !Links.Linked(t, m))
    && (forall c :: c in s.semantics && !Links.HasParent(s, c) ==> !Links.HasParent(t, c))
  }

  lemma FewerLinksLeaveOpen(s: Tables, t: Tables)
    requires s.nextId <= t.nextId && t.summaryMessages <= s.summaryMessages && t.summaryParents <= s.summaryParents
    requires forall x :: x in s.semantics && x in t.semantics ==> t.semantics[x] == s.semantics[x]
    requires forall m :: m in s.messages ==> m in t.messages && t.messages[m].timestamp == s.messages[m].timestamp
    ensures LeavesOpen(s, t)
  {}

  lemma CloneLeavesOpen(s: Tables, t: Tables, source: Id, copy: Id, f: map<Id, Id>, g: map<Id, Id>, now: int)
    requires Links.Linkage(s) && IdsUsed(s) && IsClone(s, t, source, copy, f, g, now)
    ensures LeavesOpen(s, t)
  {
    LinkLaws.CopyIsUnowned(s, t, source, copy, f, g, now);
    LinkLaws.KeptRows(s, t, source, copy, f, g, now);
    CloneNextId(s, t, source, copy, f, g, now);
    hide IsClone, Links.Linkage, IdsUsed, LinkLaws.Unowned;
    forall m, x | (x, m) in t.summaryMessages ensures Links.Linked(s, m) {
      var a := LinkLaws.LinkOfClone(s, t, source, copy, f, g, now, x, m);
    }
    forall c, p | c in s.semantics && (p, c) in t.summaryParents ensures Links.HasParent(s, c) {
      var a, b := LinkLaws.EdgeOfClone(s, t, source, copy, f, g, now, p, c);
    }
  }

  lemma CloneNextId(s: Tables, t: Tables, source: Id, copy: Id, f: map<Id, Id>, g: map<Id, Id>, now: int)
    requires IsClone(s, t, source, copy, f, g, now)
    ensures s.nextId <= t.nextId
  {}

  lemma StatementLeavesOpen(s: Tables, st: Statement, cfg: ReflectionConfig)
    requires Inv(s, cfg) && Guard(s, st)
    ensures LeavesOpen(s, Exec(s, st, cfg))
  {
    StatementKeeps(s, st, cfg);
    hide Inv, Guard, Exec, Grows;
    FewerLinksLeaveOpen(s, Exec(s, st, cfg));
  }

  lemma ShrinkingLeavesOpen(s: Tables, t: Tables)
    requires Shrinks(s, t)
    ensures LeavesOpen(s, t)
  {}

  lemma DroppingLeavesOpen(s: Tables, k: nat, M: set<Id>, S: set<Id>, id: Id, cfg: ReflectionConfig)
    requires Good(s, cfg)
    ensures LeavesOpen(s, Deleted(s, k, M, S, id))
  {
    GoodEnds(s, cfg);
    hide Good, Deleted, EndsKnown, Shrinks, LeavesOpen;
    DroppingShrinks(s, k, M, S, id);
    ShrinkingLeavesOpen(s, Deleted(s, k, M, S, id));
  }

  lemma OthersLeaveOpen(s: Tables, t: Tables, cfg: ReflectionConfig)
    requires Good(s, cfg) && Step(s, t, cfg) && !Consolidated(s, t)
    ensures LeavesOpen(s, t)
  {
    hide Good, LeavesOpen, Guard, Exec, IsClone, Deleted, Consolidated;
    if Stated(s, t, cfg) {
      var st :| Guard(s, st) && t == Exec(s, st, cfg);
      GoodIsInv(s, cfg);
      StatementLeavesOpen(s, st, cfg);
    } else if Cloned(s, t) {
      var source, copy, f, g, now :| IsClone(s, t, source, copy, f, g, now);
      GoodIsInv(s, cfg);
      CloneLeavesOpen(s, t, source, copy, f, g, now);
    } else if Dropped(s, t) {
      var k, M, S, id :| t == Deleted(s, k, M, S, id);
      DroppingLeavesOpen(s, k, M, S, id, cfg);
    } else {
      FewerLinksLeaveOpen(s, t);
    }
  }

  lemma GoodIsInv(s: Tables, cfg: ReflectionConfig)
    requires Good(s, cfg)
    ensures Inv(s, cfg) && Links.Linkage(s) && IdsUsed(s)
  {}

  ghost predicate HasRows(t: Tables, i: Links.Insertion) {
    match i
    case InsertRow(_) => true
    case LinkMessage(x, _) => x in t.semantics
    case LinkSummary(p, c) => p in t.semantics && c in t.semantics
  }

  /** The next insert of a pass may still be made after any statement of another component, unless that has deleted the
      rows to be linked; only the pass itself links a message or a summary. */
  lemma NextInsertStaysAllowed(s: Tables, t: Tables, cfg: ReflectionConfig, i: Links.Insertion)
    requires Good(s, cfg) && Step(s, t, cfg) && !Consolidated(s, t) && Links.MayInsert(s, i) && HasRows(t, i)
    ensures Links.MayInsert(t, i)
  {
    OthersLeaveOpen(s, t, cfg);
    hide Good, Step, Consolidated, Links.Linked, Links.HasParent;
  }

  // ---------- the jobs are runs ----------

  lemma SingleState(s: Tables, cfg: ReflectionConfig)
    ensures IsRun([s], cfg)
  {}

  lemma Prepend(s: Tables, states: seq<Tables>, cfg: ReflectionConfig)
    requires |states| >= 1 && IsRun(states, cfg) && Step(s, states[0], cfg)
    ensures IsRun([s] + states, cfg)
  {
    hide Step;
    var all := [s] + states;
    forall i, j | 0 <= i && j == i + 1 && j < |all| ensures Step(all[i], all[j], cfg) {
      assert i > 0 ==> all[i] == states[i - 1] && all[j] == states[j - 1];
    }
  }

  /** Whatever the reflection job did, up to its end or to a failure, is a run of statements. */
  lemma {:induction false} JobIsRun(s: Tables, log: seq<Statement>, t: Tables, cfg: ReflectionConfig)
    returns (states: seq<Tables>)
    requires Runs(s, log, t, cfg)
    ensures |states| == |log| + 1 && states[0] == s && states[|log|] == t && IsRun(states, cfg)
    decreases |log|
  {
    hide Guard, Exec, IsRun, Consolidated, Cloned, Dropped, Written;
    if |log| == 0 {
      states := [s];
      SingleState(s, cfg);
    } else {
      var u := Exec(s, log[0], cfg);
      var rest := JobIsRun(u, log[1..], t, cfg);
      assert Stated(s, u, cfg);
      Prepend(s, rest, cfg);
      states := [s] + rest;
    }
  }

  /** What a consolidation pass did, up to its end or to a failure, is a run of single inserts. */
  lemma {:induction false} InsertsAreRun(s: Tables, log: seq<Links.Insertion>, t: Tables, cfg: ReflectionConfig)
    returns (states: seq<Tables>)
    requires Links.Inserts(s, log, t)
    ensures |states| == |log| + 1 && states[0] == s && states[|log|] == t && IsRun(states, cfg)
    decreases |log|
  {
    hide Links.MayInsert, Links.Inserted, IsRun, Stated, Cloned, Dropped, Written;
    if |log| == 0 {
      states := [s];
      SingleState(s, cfg);
    } else {
      var u := Links.Inserted(s, log[0]);
      var rest := InsertsAreRun(u, log[1..], t, cfg);
      assert Consolidated(s, u);
      Prepend(s, rest, cfg);
      states := [s] + rest;
    }
  }

  lemma PassIsRun(s: Tables, t: Tables, cfg: ReflectionConfig) returns (states: seq<Tables>)
    requires Links.Grows(s, t)
    ensures |states| >= 1 && states[0] == s && states[|states| - 1] == t && IsRun(states, cfg)
  {
    hide Links.Adds, Links.Inserts, IsRun;
    var log :| Links.Inserts(s, log, t);
    states := InsertsAreRun(s, log, t, cfg);
  }

  /** A clone that succeeds is a step. */
  lemma CloneIsStep(s: Tables, t: Tables, source: Id, copy: Id, f: map<Id, Id>, g: map<Id, Id>, now: int,
                    cfg: ReflectionConfig)
    requires IsClone(s, t, source, copy, f, g, now)
    ensures Step(s, t, cfg)
  {
    hide IsClone, Stated, Consolidated, Dropped, Written;
    assert Cloned(s, t);
  }

  /** Each statement of a profile's deletion is a step. */
  lemma DeletionIsSteps(s: Tables, id: Id, k: nat, cfg: ReflectionConfig)
    ensures Step(AfterDeletion(s, id, k), AfterDeletion(s, id, k + 1), cfg)
  {
    hide Deleted, Stated, Consolidated, Cloned, Written;
    NextDeleted(s, id, k);
  }

  // ---------- a depth-1 summary that does not cover what it condenses ----------

  function Empty(): Tables {
    Tables(map[], map[], map[], map[], map[], map[], {}, {}, {}, {}, 0)
  }

  /** An ended session of chat 1 with messages at 11 and 20. */
  function TwoMessages(): Tables {
    Empty().(profiles := map[0 := Profile("", "", true)], chats := map[1 := 0], sessions := map[2 := Session(1, true)],
             messages := map[3 := Message(Some(2), 11), 4 := Message(Some(2), 20)], nextId := 5)
  }

  function Summary(from: int, to: int): Semantic {
    Semantic(true, 0, 0, Some(2), from, to, 0)
  }

  /** Both are summarised. */
  function FirstSummarised(): Tables {
    TwoMessages().(semantics := map[5 := Summary(11, 20)], summaryMessages := {(5, 3), (5, 4)}, nextId := 6)
  }

  /** A message of the session that was sent at 12 arrives late ... */
  function LateMessage(): Tables {
    FirstSummarised().(messages := map[3 := Message(Some(2), 11), 4 := Message(Some(2), 20),
                                       6 := Message(Some(2), 12)], nextId := 7)
  }

  /** ... and is summarised by the next pass. */
  function BothSummarised(): Tables {
    LateMessage().(semantics := map[5 := Summary(11, 20), 7 := Summary(12, 12)],
                   summaryMessages := {(5, 3), (5, 4), (7, 6)}, nextId := 8)
  }

  lemma FirstSummary()
    ensures Links.ByInserts(TwoMessages(), FirstSummarised())
  {
    var s := TwoMessages();
    var row := Summary(11, 20);
    Links.OneInsert(s, Links.InsertRow(row));
    var a := Links.WithSummary(s, row);
    Links.NextInsert(s, a, Links.LinkMessage(5, 3));
    var b := Links.WithMessageLink(a, 5, 3);
    assert !Links.Linked(b, 4);
    Links.NextInsert(s, b, Links.LinkMessage(5, 4));
    assert Links.WithMessageLink(b, 5, 4) == FirstSummarised();
  }

  lemma SecondSummary()
    ensures Links.ByInserts(LateMessage(), BothSummarised())
  {
    var s := LateMessage();
    var row := Summary(12, 12);
    Links.OneInsert(s, Links.InsertRow(row));
    var a := Links.WithSummary(s, row);
    assert !Links.Linked(a, 6);
    Links.NextInsert(s, a, Links.LinkMessage(7, 6));
    assert Links.WithMessageLink(a, 7, 6) == BothSummarised();
  }

  lemma LateArrival(cfg: ReflectionConfig)
    ensures Step(Empty(), TwoMessages(), cfg) && Step(FirstSummarised(), LateMessage(), cfg)
  {
    assert Written(Empty(), TwoMessages());
    assert Written(FirstSummarised(), LateMessage());
  }

  lemma JoinRuns(a: seq<Tables>, b: seq<Tables>, cfg: ReflectionConfig)
    requires |a| >= 1 && |b| >= 1 && IsRun(a, cfg) && IsRun(b, cfg) && Step(a[|a| - 1], b[0], cfg)
    ensures IsRun(a + b, cfg)
  {
    hide Step;
    var all := a + b;
    forall i, j | 0 <= i && j == i + 1 && j < |all| ensures Step(all[i], all[j], cfg) {
      assert j < |a| ==> all[i] == a[i] && all[j] == a[j];
      assert i >= |a| ==> all[i] == b[i - |a|] && all[j] == b[j - |a|];
    }
  }

  lemma LateRun(cfg: ReflectionConfig) returns (states: seq<Tables>)
    ensures |states| >= 1 && states[0] == Empty() && states[|states| - 1] == BothSummarised() && IsRun(states, cfg)
  {
    hide IsRun, Step, Links.Inserts, Empty, TwoMessages, FirstSummarised, LateMessage, BothSummarised;
    LateArrival(cfg);
    FirstSummary();
    SecondSummary();
    SingleState(Empty(), cfg);
    var log :| Links.Inserts(TwoMessages(), log, FirstSummarised());
    var first := InsertsAreRun(TwoMessages(), log, FirstSummarised(), cfg);
    log :| Links.Inserts(LateMessage(), log, BothSummarised());
    var second := InsertsAreRun(LateMessage(), log, BothSummarised(), cfg);
    JoinRuns(first, second, cfg);
    JoinRuns([Empty()], first + second, cfg);
    states := [Empty()] + (first + second);
  }

  lemma OpenOfLateRun()
    ensures Consolidation.OpenRowsOfChat(BothSummarised(), 1) == {5, 7}
  {
    Consolidation.OpenOfChatAreRows(BothSummarised(), 1);
    var t := BothSummarised();
    assert Consolidation.OpenSummaries(t, 2) == {5, 7};
    assert 2 in t.sessions && t.sessions[2].chat == 1;
  }

  lemma LateEnds()
    ensures {5, 7} <= BothSummarised().semantics.Keys
    ensures forall l :: Consolidation.StartsLast(BothSummarised(), {5, 7}, l) ==>
              !Consolidation.NoneEndsAfter(BothSummarised(), {5, 7}, l)
  {
    var s := BothSummarised();
    assert 5 in {5, 7} && 7 in {5, 7};
    forall l | Consolidation.StartsLast(s, {5, 7}, l) ensures !Consolidation.NoneEndsAfter(s, {5, 7}, l) {
      assert l == 5 || l == 7;
    }
  }

  lemma NoOutcomeCovers(s: Tables, open: set<Id>)
    requires open != {} && open <= s.semantics.Keys
    requires forall l :: Consolidation.StartsLast(s, open, l) ==> !Consolidation.NoneEndsAfter(s, open, l)
    ensures forall t, parent, profile :: Consolidation.CondensedInto(s, t, parent, open, profile) ==>
              !Consolidation.Covers(s, t.semantics[parent].earliest, t.semantics[parent].latest, open)
  {
    hide Consolidation.Covers, Consolidation.StartsLast, Consolidation.NoneEndsAfter;
    forall t, parent, profile | Consolidation.CondensedInto(s, t, parent, open, profile)
      ensures !Consolidation.Covers(s, t.semantics[parent].earliest, t.semantics[parent].latest, open)
    {
      Consolidation.CondensedCovers(s, t, parent, open, profile);
    }
  }

  /** A reachable state in which the open summaries of a chat have the ranges 11 to 20 and 12 to 12: whatever a
      condensation of them leaves records the range 11 to 12 and misses the end of the first. */
  lemma SpanMayMiss(cfg: ReflectionConfig) returns (states: seq<Tables>, s: Tables, open: set<Id>)
    ensures |states| >= 1 && Good(states[0], cfg) && IsRun(states, cfg) && s == states[|states| - 1]
    ensures open == Consolidation.OpenRowsOfChat(s, 1) && |open| == 2
    ensures forall t, parent, profile :: Consolidation.CondensedInto(s, t, parent, open, profile) ==>
              !Consolidation.Covers(s, t.semantics[parent].earliest, t.semantics[parent].latest, open)
  {
    EmptyIsGood(cfg, 0);
    hide Good, IsRun, BothSummarised, Consolidation.OpenRowsOfChat, Consolidation.CondensedInto,
         Consolidation.Covers;
    states := LateRun(cfg);
    OpenOfLateRun();
    s, open := BothSummarised(), {5, 7};
    LateEnds();
    NoOutcomeCovers(s, open);
  }
}
