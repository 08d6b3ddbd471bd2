/** The reflection job: depth-0 entries from semantic memory, condensation level by level, and the cascade.
    Replies of the language model, similarities and failures of any awaited call are arbitrary. */
module MemoryReflection {
  import opened Sets
  import opened Wrappers
  import opened MemoryTables
  import opened MemoryTrace
  import opened MemoryCascade
  import opened MemoryStatements

  /** Other profiles keep their entries as they are; new entries belong to this profile, at depths in the range. */
  ghost predicate OnlyProfile(s: Tables, t: Tables, profile: Id, lo: int, hi: int) {
    && (forall id :: id in s.metas && s.metas[id].profile != profile ==> id in t.metas && t.metas[id] == s.metas[id])
    && (forall id :: id in t.metas && id !in s.metas ==>
          t.metas[id].profile == profile && lo <= t.metas[id].depth <= hi)
  }

  lemma OnlyProfileTrans(s: Tables, u: Tables, t: Tables, profile: Id, lo: int, hi: int, cfg: ReflectionConfig)
    requires JobStep(s, u, cfg) && JobStep(u, t, cfg)
    requires OnlyProfile(s, u, profile, lo, hi) && OnlyProfile(u, t, profile, lo, hi)
    ensures OnlyProfile(s, t, profile, lo, hi)
  {
    hide Layered, Bounded, IdsUsed;
    forall id | id in t.metas && id !in s.metas
      ensures t.metas[id].profile == profile && lo <= t.metas[id].depth <= hi
    {
      if id in u.metas {
        assert KeepsEntry(u, t, id);
      }
    }
  }

  lemma OnlyProfileWidens(s: Tables, t: Tables, profile: Id, depth: int, lo: int, hi: int)
    requires OnlyProfile(s, t, profile, depth, depth) && lo <= depth <= hi
    ensures OnlyProfile(s, t, profile, lo, hi)
  {}

  lemma OnlyProfileRefl(s: Tables, profile: Id, lo: int, hi: int)
    ensures OnlyProfile(s, s, profile, lo, hi)
  {}

  // ---------- what one prompt of depth 0 does ----------

  function SourceLinks(meta: Id, semantics: seq<Id>): set<(Id, Id)> {
    set s | s in semantics :: (meta, s)
  }

  function WithSources(t: Tables, meta: Id, semantics: seq<Id>): Tables {
    t.(metaSources := t.metaSources + SourceLinks(meta, semantics))
  }

  /** The state after the comparison with the nearest entry: confirmed when it is similar, decayed when only close. */
  function AfterComparison(t: Tables, near: Option<Id>, similarity: real): Tables
    requires near.Some? ==> near.value in t.metas
  {
    if near.None? || similarity <= 0.7 then t
    else
      var current := t.metas[near.value].confidence;
      WithConfidence(t, near.value,
                     if similarity > 0.85 then ConfirmConfidence(current) else ContradictConfidence(current))
  }

  /** What a comparison does, in numbers. The nearest entry, with confidence `c`, gets a tenth of what it lacks to
      one, up to 0.95, when it is similar; it loses a fifth when it is only close; everything else stays. */
  ghost predicate Compared(s: Tables, t: Tables, near: Option<Id>, similarity: real) {
    && t == s.(metas := t.metas) && t.metas.Keys == s.metas.Keys
    && (forall id :: id in s.metas && near != Some(id) ==> t.metas[id] == s.metas[id])
    && (near.Some? ==> near.value in s.metas && NearestCompared(s.metas[near.value], t.metas[near.value], similarity))
  }

  ghost predicate NearestCompared(before: Meta, after: Meta, similarity: real) {
    var c, d := before.confidence, after.confidence;
    && after == before.(confidence := d)
    && (similarity > 0.85 ==> d == if c + 0.1 * (1.0 - c) > 0.95 then 0.95 else c + 0.1 * (1.0 - c))
    && (similarity > 0.85 && c < 0.95 ==> d > c)
    && (0.7 < similarity <= 0.85 ==> d == 0.8 * c && d < c)
    && (similarity <= 0.7 ==> d == c)
  }

  lemma ComparisonInNumbers(t: Tables, near: Option<Id>, similarity: real)
    requires near.Some? ==> near.value in t.metas && t.metas[near.value].confidence >= LOW
    ensures Compared(t, AfterComparison(t, near, similarity), near, similarity)
  {}

  lemma ComparisonsInNumbers(t: Tables, near: Option<Id>)
    requires near.Some? ==> near.value in t.metas && t.metas[near.value].confidence >= LOW
    ensures forall similarity :: Compared(t, AfterComparison(t, near, similarity), near, similarity)
  {
    hide AfterComparison, Compared;
    forall similarity ensures Compared(t, AfterComparison(t, near, similarity), near, similarity) {
      ComparisonInNumbers(t, near, similarity);
    }
  }

  /** A new entry over these rows: its place, its confidence by the reply, its links; nothing else changes. */
  ghost predicate Inserted(s: Tables, t: Tables, threshold: real, kind: MetaKind, profile: Id, sourceIds: seq<Id>,
                           r: Reflection, now: int) {
    && t == s.(metas := t.metas, metaSources := t.metaSources, nextId := s.nextId + 1)
    && t.metas.Keys == s.metas.Keys + {s.nextId} && s.nextId !in s.metas
    && (forall id :: id in s.metas ==> t.metas[id] == s.metas[id])
    && t.metas[s.nextId].kind == kind && t.metas[s.nextId].profile == profile && t.metas[s.nextId].depth == 0
    && t.metas[s.nextId].created == now && Clamped(t.metas[s.nextId].confidence, threshold, 0.9, r.confidence)
    && (forall m, x :: (m, x) in t.metaSources <==> (m, x) in s.metaSources || (m == s.nextId && x in sourceIds))
  }

  lemma InsertionInFull(s: Tables, cfg: ReflectionConfig, kind: MetaKind, profile: Id, sourceIds: seq<Id>,
                        r: Reflection, now: int)
    requires s.nextId !in s.metas
    ensures var t := WithSources(WithMeta(s, Meta(kind, ReflectionConfidence(cfg, r), 0, profile, now)), s.nextId,
                                 sourceIds);
      Inserted(s, t, cfg.confidenceThreshold, kind, profile, sourceIds, r, now)
  {
    ConfidencesAreClamped(cfg, 0.5, r);
    hide ReflectionConfidence, Clamped;
    forall x | x in sourceIds ensures (s.nextId, x) in SourceLinks(s.nextId, sourceIds) {}
  }

  /** What storing one reflection does: the comparison, then a new entry unless the nearest one was confirmed. */
  ghost predicate StoredOver(s: Tables, t: Tables, threshold: real, kind: MetaKind, profile: Id, sourceIds: seq<Id>,
                             r: Reflection, near: Option<Id>, similarity: real, now: int) {
    if near.Some? && similarity > 0.85 then Compared(s, t, near, similarity)
    else exists u :: Compared(s, u, near, similarity) && Inserted(u, t, threshold, kind, profile, sourceIds, r, now)
  }

  /** The state after one reflection has been stored: unless the nearest entry was confirmed, a new one with its
      links. */
  function AfterReflection(t: Tables, cfg: ReflectionConfig, kind: MetaKind, profile: Id, sourceIds: seq<Id>,
                           r: Reflection,
                           near: Option<Id>, similarity: real, now: int): Tables
    requires near.Some? ==> near.value in t.metas
  {
    var u := AfterComparison(t, near, similarity);
    if near.Some? && similarity > 0.85 then u
    else WithSources(WithMeta(u, Meta(kind, ReflectionConfidence(cfg, r), 0, profile, now)), u.nextId, sourceIds)
  }

  /** Entries are added at depth 0 with links to the given rows; of the old entries only confidences of this kind and
      profile at depth 0 change. */
  ghost predicate Observed(s: Tables, t: Tables, kind: MetaKind, profile: Id, sourceIds: seq<Id>) {
    && t == s.(metas := t.metas, metaSources := t.metaSources, nextId := t.nextId)
    && s.metas.Keys <= t.metas.Keys && s.metaSources <= t.metaSources
    && (forall id :: id in s.metas ==> KeptOrUpdated(s.metas[id], t.metas[id], kind, profile))
    && (forall id :: id in t.metas && id !in s.metas ==>
          t.metas[id].kind == kind && t.metas[id].profile == profile && t.metas[id].depth == 0)
    && (forall m, x :: (m, x) in t.metaSources && (m, x) !in s.metaSources ==> m !in s.metas && x in sourceIds)
  }

  ghost predicate KeptOrUpdated(before: Meta, after: Meta, kind: MetaKind, profile: Id) {
    after == before || (before.kind == kind && before.profile == profile && before.depth == 0
                        && after == before.(confidence := after.confidence))
  }

  lemma ObservedRefl(s: Tables, kind: MetaKind, profile: Id, sourceIds: seq<Id>)
    ensures Observed(s, s, kind, profile, sourceIds)
  {}

  lemma ObservedTrans(s: Tables, u: Tables, t: Tables, kind: MetaKind, profile: Id, sourceIds: seq<Id>)
    requires Observed(s, u, kind, profile, sourceIds) && Observed(u, t, kind, profile, sourceIds)
    ensures Observed(s, t, kind, profile, sourceIds)
  {
    forall id | id in s.metas ensures KeptOrUpdated(s.metas[id], t.metas[id], kind, profile) {
      assert KeptOrUpdated(s.metas[id], u.metas[id], kind, profile)
             && KeptOrUpdated(u.metas[id], t.metas[id], kind, profile);
    }
    forall id | id in t.metas && id !in s.metas
      ensures t.metas[id].kind == kind && t.metas[id].profile == profile && t.metas[id].depth == 0
    {
      assert id in u.metas ==> KeptOrUpdated(u.metas[id], t.metas[id], kind, profile);
    }
  }

  lemma UpdateIsObserved(t: Tables, id: Id, c: real, kind: MetaKind, profile: Id, sourceIds: seq<Id>)
    requires id in t.metas && t.metas[id].profile == profile && t.metas[id].kind == kind && t.metas[id].depth == 0
    ensures Observed(t, WithConfidence(t, id, c), kind, profile, sourceIds)
    ensures |WithConfidence(t, id, c).metas| == |t.metas|
  {
    assert WithConfidence(t, id, c).metas.Keys == t.metas.Keys;
  }

  lemma InsertIsObserved(t: Tables, m: Meta, sourceIds: seq<Id>)
    requires m.depth == 0 && t.nextId !in t.metas
    ensures Observed(t, WithMeta(t, m), m.kind, m.profile, sourceIds) && |WithMeta(t, m).metas| == |t.metas| + 1
  {}

  /** Links of an entry that was not there before. */
  lemma LinksAreObserved(s: Tables, u: Tables, t: Tables, metaId: Id, kind: MetaKind, profile: Id, sourceIds: seq<Id>)
    requires Observed(s, u, kind, profile, sourceIds) && metaId !in s.metas
    requires t == u.(metaSources := t.metaSources) && u.metaSources <= t.metaSources
    requires forall m, x :: (m, x) in t.metaSources && (m, x) !in u.metaSources ==> m == metaId && x in sourceIds
    ensures Observed(s, t, kind, profile, sourceIds)
  {}

  lemma ObservedIsOneProfile(s: Tables, t: Tables, kind: MetaKind, profile: Id, sourceIds: seq<Id>)
    requires Observed(s, t, kind, profile, sourceIds)
    ensures OnlyProfile(s, t, profile, 0, 0)
  {
    forall id | id in s.metas && s.metas[id].profile != profile ensures t.metas[id] == s.metas[id] {
      assert KeptOrUpdated(s.metas[id], t.metas[id], kind, profile);
    }
  }

  // ---------- the job ----------

  /** What one condensation adds: entries of one kind, profile and depth, and edges from them to the children. */
  ghost predicate Condensed(s: Tables, t: Tables, kind: MetaKind, profile: Id, depth: int, floor: real,
                            childIds: seq<Id>) {
    && (forall id :: id in s.metas ==> id in t.metas && t.metas[id] == s.metas[id])
    && (forall id :: id in t.metas && id !in s.metas ==> NewEntry(t.metas[id], kind, profile, depth, floor))
    && (forall p, c :: (p, c) in t.metaParents && (p, c) !in s.metaParents ==>
          p !in s.metas && p in t.metas && c in childIds)
    && t.metaSources == s.metaSources
  }

  lemma CondensedIsOneProfile(s: Tables, t: Tables, kind: MetaKind, profile: Id, depth: int, floor: real,
                              childIds: seq<Id>)
    requires Condensed(s, t, kind, profile, depth, floor, childIds)
    ensures OnlyProfile(s, t, profile, depth, depth)
  {}

  ghost predicate NewEntry(m: Meta, kind: MetaKind, profile: Id, depth: int, floor: real) {
    m.kind == kind && m.profile == profile && m.depth == depth && floor <= m.confidence <= MaxReal(floor, 0.95)
  }

  /** Every new entry is linked to all of these rows. */
  ghost predicate AllSourced(s: Tables, t: Tables, sourceIds: seq<Id>) {
    forall id, x :: id in t.metas && id !in s.metas && x in sourceIds ==> (id, x) in t.metaSources
  }

  ghost predicate AllLinked(s: Tables, t: Tables, childIds: seq<Id>) {
    forall id, c :: id in t.metas && id !in s.metas && c in childIds ==> (id, c) in t.metaParents
  }

  // ---------- attempts ----------

  /** One prompt of a pass: one kind on one level of one profile, the rows it draws on, the tables before and after it,
      and the number of entries it reported. */
  datatype Attempt = Attempt(kind: MetaKind, depth: int, profile: Id, sources: seq<Id>, before: Tables, after: Tables,
                             created: nat)

  /** What an attempt did to the tables. What it reports is what it added; only a failure, which reports nothing, can
      leave more. */
  ghost predicate Effect(a: Attempt, cfg: ReflectionConfig) {
    && |a.after.metas| >= |a.before.metas| + a.created
    && (a.created > 0 ==> |a.after.metas| == |a.before.metas| + a.created)
    && if a.depth == 0 then ObservationEffect(a) else CondensationEffect(a, cfg)
  }

  ghost predicate FromProfile(t: Tables, profile: Id, sourceIds: seq<Id>) {
    forall x :: x in sourceIds ==> x in t.semantics && t.semantics[x].profile == profile
  }

  /** New entries at depth 0 over the source rows, linked to all of them if any is reported. */
  ghost predicate ObservationEffect(a: Attempt) {
    && Observed(a.before, a.after, a.kind, a.profile, a.sources) && FromProfile(a.before, a.profile, a.sources)
    && (a.created > 0 ==> AllSourced(a.before, a.after, a.sources))
  }

  /** Below the threshold nothing; otherwise new entries above all uncondensed ones, linked to all of them if any is
      reported. */
  ghost predicate CondensationEffect(a: Attempt, cfg: ReflectionConfig) {
    && NoDuplicates(a.sources)
    && (forall c :: c in a.sources <==> IsOpen(a.before, a.kind, a.depth - 1, a.profile, c))
    && if |a.sources| < cfg.metaCondensationThreshold then a.after == a.before && a.created == 0
       else |a.sources| >= 1 && Condenses(a)
  }

  ghost predicate Condenses(a: Attempt)
    requires |a.sources| >= 1
  {
    && Condensed(a.before, a.after, a.kind, a.profile, a.depth, FloorOf(a.before, a.sources), a.sources)
    && (a.created > 0 ==> AllLinked(a.before, a.after, a.sources))
  }

  /** Every new edge leads from a new entry to one that was live on the level below and that no edge led to. */
  ghost predicate CondensesOnlyOpen(s: Tables, t: Tables, kind: MetaKind, sourceDepth: int, profile: Id) {
    forall p, c :: (p, c) in t.metaParents && (p, c) !in s.metaParents ==>
      p !in s.metas && p in t.metas && IsOpen(s, kind, sourceDepth, profile, c)
  }

  /** Every entry that could be condensed has been. */
  ghost predicate NoneLeftOpen(s: Tables, t: Tables, kind: MetaKind, sourceDepth: int, profile: Id) {
    forall c :: IsOpen(s, kind, sourceDepth, profile, c) ==> !WithoutParent(t, c)
  }

  lemma NothingCondensed(s: Tables, kind: MetaKind, sourceDepth: int, profile: Id)
    ensures CondensesOnlyOpen(s, s, kind, sourceDepth, profile)
  {}

  /** The effect of an attempt above depth 0, over the join table. */
  lemma EffectOverEdges(a: Attempt, cfg: ReflectionConfig)
    requires Effect(a, cfg) && a.depth != 0
    ensures CondensesOnlyOpen(a.before, a.after, a.kind, a.depth - 1, a.profile)
    ensures a.created > 0 ==> NoneLeftOpen(a.before, a.after, a.kind, a.depth - 1, a.profile)
  {
    hide IsOpen, FloorOf;
    if a.created > 0 {
      var id := SomethingNew(a.before.metas, a.after.metas);
      forall c: Id | IsOpen(a.before, a.kind, a.depth - 1, a.profile, c) ensures !WithoutParent(a.after, c) {
        assert (id, c) in a.after.metaParents;
      }
    }
  }

  lemma SomethingNew(s: map<Id, Meta>, t: map<Id, Meta>) returns (id: Id)
    requires |t| > |s|
    ensures id in t && id !in s
  {
    if t.Keys <= s.Keys {
      SubsetSize(t.Keys, s.Keys);
    }
    id :| id in t && id !in s;
  }

  ghost predicate IsAttempt(a: Attempt, kind: MetaKind, depth: int, profile: Id, s: Tables, t: Tables, created: nat) {
    a == Attempt(kind, depth, profile, a.sources, s, t, created)
  }

  /** The three attempts of a level, in their order, lead from `s` to `t`. */
  ghost predicate IsLevel(part: seq<Attempt>, depth: int, profile: Id, s: Tables, t: Tables, cfg: ReflectionConfig) {
    && |part| == 3 && part[0].kind == Insight && part[1].kind == Heuristic && part[2].kind == SelfAssessment
    && (forall a :: a in part ==> a.depth == depth && a.profile == profile && Effect(a, cfg))
    && part[0].before == s && part[0].after == part[1].before && part[1].after == part[2].before && part[2].after == t
  }

  function Created(part: seq<Attempt>): nat {
    if |part| == 0 then 0 else Created(part[..|part| - 1]) + part[|part| - 1].created
  }

  lemma {:induction false} CreatedAppend(a: seq<Attempt>, b: seq<Attempt>)
    ensures Created(a + b) == Created(a) + Created(b)
  {
    if |b| == 0 {
      assert a + b == a;
    } else {
      assert (a + b)[..|a + b| - 1] == a + b[..|b| - 1];
      CreatedAppend(a, b[..|b| - 1]);
    }
  }

  /** The attempts of the levels 1 to `top`, lowest first, lead from `s` to `t`; every level but the last reported
      entries. */
  ghost predicate AreLevels(part: seq<Attempt>, top: nat, profile: Id, s: Tables, t: Tables, cfg: ReflectionConfig)
    decreases top
  {
    if top == 0 then part == [] && s == t
    else
      && |part| >= 3
      && var n := |part| - 3;
         && AreLevels(part[..n], top - 1, profile, s, part[n].before, cfg)
         && IsLevel(part[n..], top, profile, part[n].before, t, cfg)
         && (top > 1 ==> n >= 3 && Created(part[n - 3..n]) > 0)
  }

  /** The semantic rows of the profile created since that time. */
  function Recent(t: Tables, profile: Id, since: int): set<Id> {
    set id | id in t.semantics && t.semantics[id].profile == profile && t.semantics[id].created > since
  }

  /** Rows of the profile that are younger than that time. */
  ghost function RowsSince(t: Tables, profile: Id, since: int): set<Id> {
    set x | x in t.semantics && since < t.semantics[x].created && t.semantics[x].profile == profile
  }

  lemma RecentAreRowsSince(t: Tables, profile: Id, since: int)
    ensures Recent(t, profile, since) == RowsSince(t, profile, since)
  {}

  predicate Enough(t: Tables, profile: Id, since: int, cfg: ReflectionConfig) {
    |Recent(t, profile, since)| >= cfg.minSemanticEntries
  }

  /** Generation at depth 0 if there are enough recent rows, then level after level up to the configured depth or to a
      level that reported nothing. */
  ghost predicate Pipeline(part: seq<Attempt>, since: int, profile: Id, s: Tables, t: Tables, cfg: ReflectionConfig) {
    exists generation, levels, m :: part == generation + levels && Generated(generation, since, profile, s, m, cfg)
      && CondensedLevels(levels, profile, m, t, cfg)
  }

  ghost predicate Generated(part: seq<Attempt>, since: int, profile: Id, s: Tables, t: Tables, cfg: ReflectionConfig) {
    if Enough(s, profile, since, cfg) then IsLevel(part, 0, profile, s, t, cfg) && DrawOnRecent(part, since, profile, s)
    else part == [] && s == t
  }

  ghost predicate DrawOnRecent(part: seq<Attempt>, since: int, profile: Id, s: Tables) {
    forall a, x :: a in part ==>
      (x in a.sources <==> x in s.semantics && s.semantics[x].profile == profile && s.semantics[x].created > since)
  }

  // ---------- a whole pass ----------

  ghost function AfterCascade(t: Tables, profile: Id, cfg: ReflectionConfig): Tables
    requires Layered(t)
  {
    if cfg.contradictionCascade then CascadePass(t, profile, cfg.maxMetaDepth) else t
  }

  /** The pipeline of one profile, then one cascade pass if it is configured. */
  ghost predicate ProfilePass(part: seq<Attempt>, since: int, profile: Id, s: Tables, t: Tables,
                              cfg: ReflectionConfig) {
    exists m :: Layered(m) && Pipeline(part, since, profile, s, m, cfg) && t == AfterCascade(m, profile, cfg)
  }

  /** One profile after the other, each from where the one before has ended. */
  ghost predicate ProfilePasses(trail: seq<Attempt>, since: int, profiles: seq<Id>, s: Tables, t: Tables,
                                cfg: ReflectionConfig)
    decreases |profiles|
  {
    if |profiles| == 0 then trail == [] && s == t
    else
      var n := |profiles| - 1;
      exists done, part, u :: trail == done + part && ProfilePasses(done, since, profiles[..n], s, u, cfg)
        && ProfilePass(part, since, profiles[n], u, t, cfg)
  }

  lemma NoPasses(since: int, s: Tables, cfg: ReflectionConfig)
    ensures ProfilePasses([], since, [], s, s, cfg)
  {}

  lemma NextPass(done: seq<Attempt>, part: seq<Attempt>, since: int, profiles: seq<Id>, profile: Id, s: Tables,
                 u: Tables, t: Tables,
                 cfg: ReflectionConfig)
    requires ProfilePasses(done, since, profiles, s, u, cfg) && ProfilePass(part, since, profile, u, t, cfg)
    ensures ProfilePasses(done + part, since, profiles + [profile], s, t, cfg)
  {
    hide ProfilePass;
    assert (profiles + [profile])[..|profiles|] == profiles;
  }

  /** The attempts are levels 1 to the configured depth, or to one that reported nothing. */
  ghost predicate CondensedLevels(part: seq<Attempt>, profile: Id, s: Tables, t: Tables, cfg: ReflectionConfig) {
    exists top: nat :: top <= Deepest(cfg) && AreLevels(part, top, profile, s, t, cfg)
      && (top == Deepest(cfg) || (top >= 1 && |part| >= 3 && Created(part[|part| - 3..]) == 0))
  }

  /** Attempts one after the other add at least as many entries as they report. */
  lemma LevelGrowth(part: seq<Attempt>, depth: int, profile: Id, s: Tables, t: Tables, cfg: ReflectionConfig)
    requires IsLevel(part, depth, profile, s, t, cfg)
    ensures |t.metas| >= |s.metas| + Created(part)
  {
    hide ObservationEffect, CondensationEffect;
    assert part[..2] + [part[2]] == part && part[..1] + [part[1]] == part[..2] && part[..0] + [part[0]] == part[..1];
    assert part[0] in part && part[1] in part && part[2] in part;
    assert part[..2][..1] == part[..1] && part[..1][..0] == [];
    assert Effect(part[0], cfg) && Effect(part[1], cfg) && Effect(part[2], cfg);
    assert Created(part[..1]) == Created([]) + part[0].created;
    assert Created(part[..2]) == Created(part[..1]) + part[1].created;
  }

  lemma {:induction false} LevelsGrowth(part: seq<Attempt>, top: nat, profile: Id, s: Tables, t: Tables,
                                        cfg: ReflectionConfig)
    requires AreLevels(part, top, profile, s, t, cfg)
    ensures |t.metas| >= |s.metas| + Created(part)
    decreases top
  {
    hide IsLevel, Created;
    if top > 0 {
      var n := |part| - 3;
      LevelsGrowth(part[..n], top - 1, profile, s, part[n].before, cfg);
      LevelGrowth(part[n..], top, profile, part[n].before, t, cfg);
      CreatedAppend(part[..n], part[n..]);
      assert part == part[..n] + part[n..];
    } else {
      NothingCreated();
    }
  }

  lemma PipelineGrowth(part: seq<Attempt>, since: int, profile: Id, s: Tables, t: Tables, cfg: ReflectionConfig)
    requires Pipeline(part, since, profile, s, t, cfg)
    ensures |t.metas| >= |s.metas| + Created(part)
  {
    hide IsLevel, AreLevels, Created, DrawOnRecent, Enough;
    var generation, levels, m :| part == generation + levels && Generated(generation, since, profile, s, m, cfg)
      && CondensedLevels(levels, profile, m, t, cfg);
    var top: nat :| top <= Deepest(cfg) && AreLevels(levels, top, profile, m, t, cfg);
    LevelsGrowth(levels, top, profile, m, t, cfg);
    CreatedAppend(generation, levels);
    if Enough(s, profile, since, cfg) {
      LevelGrowth(generation, 0, profile, s, m, cfg);
    } else {
      NothingCreated();
    }
  }

  lemma NothingCreated()
    ensures Created([]) == 0
  {}

  /** One more level on top. */
  lemma NextLevel(part: seq<Attempt>, top: nat, level: seq<Attempt>, profile: Id, s: Tables, u: Tables, t: Tables,
                  cfg: ReflectionConfig)
    requires AreLevels(part, top, profile, s, u, cfg) && IsLevel(level, top + 1, profile, u, t, cfg)
    requires top >= 1 ==> |part| >= 3 && Created(part[|part| - 3..]) > 0
    ensures AreLevels(part + level, top + 1, profile, s, t, cfg)
    ensures (part + level)[|part + level| - 3..] == level
  {
    hide IsLevel, Created;
    var all := part + level;
    LevelHasThree(level, top + 1, profile, u, t, cfg);
    assert all[..|part|] == part && all[|part|..] == level;
    assert top >= 1 ==> all[|part| - 3..|part|] == part[|part| - 3..];
  }

  lemma LevelHasThree(level: seq<Attempt>, depth: int, profile: Id, s: Tables, t: Tables, cfg: ReflectionConfig)
    requires IsLevel(level, depth, profile, s, t, cfg)
    ensures |level| == 3 && level[0].before == s
  {}

  class MemoryReflectionJob {
    const db: Database
    const config: ReflectionConfig
    var running: bool
    var lastReflectionAt: int

    // The attempts made so far.
    ghost var trail: seq<Attempt>

    constructor (db: Database, config: ReflectionConfig)
      ensures this.db == db && this.config == config && !running && trail == []
    {
      this.db := db;
      this.config := config;
      running := false;
      trail := [];
      lastReflectionAt := 0;
    }

    /** Any awaited call can throw. */
    method Await() returns (ok: bool)
    {
      ok := *;
    }

    /** A model reply that parsed as an array, or a failure. */
    method Summarize() returns (r: Option<seq<Reflection>>)
    {
      r := *;
    }

    /** Similarity of an embedding to a stored entry. */
    method Similarity() returns (s: real)
    {
      s := *;
    }

    /** The nearest entry of this profile and kind at depth 0 that is above the threshold, if there is one. */
    method Nearest(kind: MetaKind, profile: Id) returns (r: Option<Id>)
      ensures r.Some? ==> r.value in db.t.metas && db.t.metas[r.value].confidence >= LOW
      ensures r.Some? ==> db.t.metas[r.value].profile == profile && db.t.metas[r.value].kind == kind
                          && db.t.metas[r.value].depth == 0
      ensures r.None? <==> forall id :: !IsLive(db.t, kind, 0, profile, id)
    {
      AliveIsLive(db.t, kind, 0, profile);
      var candidates := Alive(db.t, kind, 0, profile);
      if candidates == {} {
        return None;
      }
      var id :| id in candidates;
      return Some(id);
    }

    /** Links a new entry to its children, one insert after the other. */
    method LinkChildren(metaId: Id, childIds: seq<Id>) returns (ok: bool)
      requires Inv(db.t, config)
      requires forall c :: c in childIds ==> GoodEdge(db.t, metaId, c) && db.t.metas[c].confidence >= LOW
      modifies db
      ensures JobStep(old(db.t), db.t, config)
      ensures db.t == old(db.t).(metaParents := db.t.metaParents)
      ensures forall p, c :: (p, c) in db.t.metaParents && (p, c) !in old(db.t).metaParents ==>
                p == metaId && c in childIds
      ensures ok ==> forall c :: c in childIds ==> (metaId, c) in db.t.metaParents
    {
      hide Inv, JobStep;
      ghost var start := db.t;
      JobStepRefl(start, config);
      for i := 0 to |childIds|
        invariant Inv(start, config) && JobStep(start, db.t, config) && Inv(db.t, config)
        invariant db.t == start.(metaParents := db.t.metaParents)
        invariant forall p, c :: (p, c) in db.t.metaParents && (p, c) !in start.metaParents ==>
                    p == metaId && c in childIds
        invariant forall c :: c in childIds[..i] ==> (metaId, c) in db.t.metaParents
      {
        var sent := Await();
        if !sent {
          return false;
        }
        assert childIds[i] in childIds;
        NewParentStep(db.t, metaId, childIds[i], config);
        ghost var before := db.t;
        db.t := WithParent(db.t, metaId, childIds[i]);
        StepIsInv(before, db.t, config);
        JobStepTrans(start, before, db.t, config);
      }
      assert childIds[..|childIds|] == childIds;
      return true;
    }

    method LinkSources(metaId: Id, sourceIds: seq<Id>) returns (ok: bool)
      requires Inv(db.t, config)
      requires forall s :: s in sourceIds ==> GoodSource(db.t, metaId, s)
      modifies db
      ensures JobStep(old(db.t), db.t, config)
      ensures db.t == old(db.t).(metaSources := db.t.metaSources) && old(db.t).metaSources <= db.t.metaSources
      ensures forall m, s :: (m, s) in db.t.metaSources && (m, s) !in old(db.t).metaSources ==>
                m == metaId && s in sourceIds
      ensures ok ==> db.t == WithSources(old(db.t), metaId, sourceIds)
    {
      hide Inv, JobStep;
      ghost var start := db.t;
      JobStepRefl(start, config);
      for i := 0 to |sourceIds|
        invariant Inv(start, config) && JobStep(start, db.t, config) && Inv(db.t, config)
        invariant db.t == start.(metaSources := db.t.metaSources)
        invariant forall m, s :: (m, s) in db.t.metaSources && (m, s) !in start.metaSources ==>
                    m == metaId && s in sourceIds
        invariant forall s :: s in sourceIds[..i] ==> (metaId, s) in db.t.metaSources
        invariant start.metaSources <= db.t.metaSources
      {
        var sent := Await();
        if !sent {
          return false;
        }
        assert sourceIds[i] in sourceIds;
        NewSourceStep(db.t, metaId, sourceIds[i], config);
        ghost var before := db.t;
        db.t := WithSource(db.t, metaId, sourceIds[i]);
        StepIsInv(before, db.t, config);
        JobStepTrans(start, before, db.t, config);
      }
      assert sourceIds[..|sourceIds|] == sourceIds;
      forall e ensures e in db.t.metaSources <==> e in start.metaSources + SourceLinks(metaId, sourceIds) {
        assert e == (e.0, e.1);
        if e in SourceLinks(metaId, sourceIds) {
          assert e.0 == metaId && e.1 in sourceIds;
        }
      }
      assert db.t.metaSources == start.metaSources + SourceLinks(metaId, sourceIds);
      return true;
    }

    /** Stores the entries of a condensation reply, each linked to all children; returns 0 on any failure. */
    method RunCondensation(kind: MetaKind, childIds: seq<Id>, profile: Id, depth: int, floor: real)
      returns (created: nat)
      requires Inv(db.t, config) && depth >= 1 && |childIds| >= 1 && floor == FloorOf(db.t, childIds)
      requires forall c :: c in childIds ==> c in Alive(db.t, kind, depth - 1, profile)
      modifies db
      ensures JobStep(old(db.t), db.t, config)
      ensures Condensed(old(db.t), db.t, kind, profile, depth, floor, childIds)
      ensures |db.t.metas| >= |old(db.t).metas| + created
      ensures created > 0 ==> |db.t.metas| == |old(db.t).metas| + created && AllLinked(old(db.t), db.t, childIds)
    {
      hide Inv, JobStep, FloorOf;
      ghost var start := db.t;
      JobStepRefl(start, config);
      var reply := Summarize();
      if reply.None? {
        return 0;
      }
      var reflections := reply.value;
      created := 0;
      for i := 0 to |reflections|
        invariant Inv(start, config) && JobStep(start, db.t, config) && Inv(db.t, config)
        invariant Condensed(start, db.t, kind, profile, depth, floor, childIds)
        invariant |db.t.metas| == |start.metas| + created && AllLinked(start, db.t, childIds)
      {
        if !reflections[i].hasContent {
          continue;
        }
        var ok := StoreCondensed(kind, childIds, profile, depth, floor, reflections[i], start);
        if !ok {
          return 0;
        }
        created := created + 1;
      }
    }

    method StoreCondensed(kind: MetaKind, childIds: seq<Id>, profile: Id, depth: int, floor: real, r: Reflection,
                          ghost start: Tables)
      returns (ok: bool)
      requires Inv(start, config) && JobStep(start, db.t, config) && depth >= 1 && |childIds| >= 1
      requires floor == FloorOf(start, childIds)
      requires forall c :: c in childIds ==> c in Alive(start, kind, depth - 1, profile)
      requires Condensed(start, db.t, kind, profile, depth, floor, childIds)
      modifies db
      ensures JobStep(start, db.t, config) && Inv(db.t, config)
      ensures Condensed(start, db.t, kind, profile, depth, floor, childIds)
      ensures ok && old(AllLinked(start, db.t, childIds)) ==> AllLinked(start, db.t, childIds)
      ensures ok ==> |db.t.metas| == |old(db.t).metas| + 1
      ensures ok ==> old(db.t).nextId in db.t.metas
                     && Clamped(db.t.metas[old(db.t).nextId].confidence, floor, 0.95, r.confidence)
      ensures |db.t.metas| >= |old(db.t).metas|
    {
      hide Inv, JobStep, FloorOf, Condensed, AllLinked, Clamped, CondensedConfidence;
      StepIsInv(start, db.t, config);
      ghost var before := db.t;
      var confidence := CondensedConfidence(floor, r);
      var embedded := Await();
      var inserted := Await();
      if !embedded || !inserted {
        return false;
      }
      var now: int := *;
      var metaId := db.t.nextId;
      var m := Meta(kind, confidence, depth, profile, now);
      FreshId(db.t, config);
      CondensedKeepsOld(start, before, kind, profile, depth, floor, childIds);
      CondensationStep(start, before, kind, childIds, profile, depth, r, now, config);
      db.t := WithMeta(db.t, m);
      ghost var stored := db.t;
      StepIsInv(before, stored, config);
      JobStepTrans(start, before, stored, config);
      ChildrenReady(start, before, m, childIds);
      ok := LinkChildren(metaId, childIds);
      StepIsInv(stored, db.t, config);
      JobStepTrans(start, stored, db.t, config);
      StepGrows(stored, db.t, config);
      CondensedCapped(config, floor, r);
      NextCondensed(start, before, db.t, m, floor, childIds);
    }

    /** Condenses one kind on one level when enough entries have gathered; None when the query threw. */
    method CondenseMetaType(kind: MetaKind, sourceDepth: int, targetDepth: int, profile: Id)
      returns (created: Option<nat>)
      requires Inv(db.t, config) && targetDepth == sourceDepth + 1 && sourceDepth >= 0
      requires config.metaCondensationThreshold >= 1
      modifies db, this`trail
      ensures JobStep(old(db.t), db.t, config) && OnlyProfile(old(db.t), db.t, profile, targetDepth, targetDepth)
      ensures created.None? ==> trail == old(trail) && db.t == old(db.t)
      ensures created.Some? ==> |trail| == |old(trail)| + 1 && trail[..|old(trail)|] == old(trail)
      ensures created.Some? ==>
                IsAttempt(trail[|old(trail)|], kind, targetDepth, profile, old(db.t), db.t, created.value)
      ensures created.Some? ==> Effect(trail[|old(trail)|], config)
      ensures CondensesOnlyOpen(old(db.t), db.t, kind, sourceDepth, profile)
      ensures created.Some? && created.value > 0 ==> NoneLeftOpen(old(db.t), db.t, kind, sourceDepth, profile)
      ensures |OpenRows(old(db.t), kind, sourceDepth, profile)| < config.metaCondensationThreshold ==>
                db.t == old(db.t) && (created.None? || created == Some(0))
    {
      hide Inv, JobStep, OnlyProfile, Condensed, AllLinked, IsOpen, CondensesOnlyOpen, NoneLeftOpen;
      ghost var start := db.t;
      JobStepRefl(start, config);
      OnlyProfileRefl(start, profile, targetDepth, targetDepth);
      NothingCondensed(start, kind, sourceDepth, profile);
      UncondensedIsOpen(start, kind, sourceDepth, profile);
      var selected := Await();
      if !selected {
        return None;
      }
      var uncondensed := Enumerate(Uncondensed(db.t, kind, sourceDepth, profile));
      if |uncondensed| < config.metaCondensationThreshold {
        trail := trail + [Attempt(kind, targetDepth, profile, uncondensed, start, db.t, 0)];
        return Some(0);
      }
      var avgConfidence := AverageConfidence(uncondensed);
      var confidenceFloor := MinReal(0.95, avgConfidence + 0.05);
      var n := RunCondensation(kind, uncondensed, profile, targetDepth, confidenceFloor);
      CondensedIsOneProfile(start, db.t, kind, profile, targetDepth, confidenceFloor, uncondensed);
      trail := trail + [Attempt(kind, targetDepth, profile, uncondensed, start, db.t, n)];
      CondensationIsEffect(trail[|trail| - 1], config);
      EffectOverEdges(trail[|trail| - 1], config);
      return Some(n);
    }

    method AverageConfidence(rows: seq<Id>) returns (average: real)
      requires |rows| >= 1
      ensures average == SumConfidence(db.t, rows) / (|rows| as real)
    {
      var sum := 0.0;
      for i := 0 to |rows|
        invariant sum == SumConfidence(db.t, rows[..i])
      {
        assert rows[..i + 1][..i] == rows[..i];
        sum := sum + Confidence(db.t, rows[i]);
      }
      assert rows[..|rows|] == rows;
      average := sum / (|rows| as real);
    }

    /** The three kinds of one level. */
    method CondenseMeta(sourceDepth: int, targetDepth: int, profile: Id) returns (totalCreated: Option<nat>)
      requires Inv(db.t, config) && targetDepth == sourceDepth + 1 && sourceDepth >= 0
      requires config.metaCondensationThreshold >= 1
      modifies db, this`trail
      ensures JobStep(old(db.t), db.t, config) && OnlyProfile(old(db.t), db.t, profile, targetDepth, targetDepth)
      ensures old(trail) <= trail
      ensures totalCreated.Some? ==> var part := trail[|old(trail)|..];
        IsLevel(part, targetDepth, profile, old(db.t), db.t, config) && totalCreated.value == Created(part)
    {
      hide Inv, JobStep, OnlyProfile, Effect;
      ghost var start := db.t;
      ghost var attempted := trail;
      var a := CondenseMetaType(Insight, sourceDepth, targetDepth, profile);
      ghost var s1 := db.t;
      StepIsInv(start, s1, config);
      if a.None? {
        return None;
      }
      var b := CondenseMetaType(Heuristic, sourceDepth, targetDepth, profile);
      ghost var s2 := db.t;
      JobStepTrans(start, s1, s2, config);
      OnlyProfileTrans(start, s1, s2, profile, targetDepth, targetDepth, config);
      StepIsInv(start, s2, config);
      if b.None? {
        return None;
      }
      var c := CondenseMetaType(SelfAssessment, sourceDepth, targetDepth, profile);
      JobStepTrans(start, s2, db.t, config);
      OnlyProfileTrans(start, s2, db.t, profile, targetDepth, targetDepth, config);
      if c.None? {
        return None;
      }
      ghost var x, y, z := trail[|attempted|], trail[|attempted| + 1], trail[|attempted| + 2];
      assert trail[|attempted|..] == [x, y, z];
      ThreeAttempts(x, y, z, targetDepth, profile, start, s1, s2, db.t, config);
      totalCreated := Some(a.value + b.value + c.value);
    }

    /** Stores depth-0 entries: a similar entry is confirmed instead, a contradicted one decays. */
    method RunReflection(kind: MetaKind, sourceIds: seq<Id>, profile: Id) returns (created: nat)
      requires Inv(db.t, config) && profile < db.t.nextId
      requires FromProfile(db.t, profile, sourceIds)
      modifies db, this`trail
      ensures JobStep(old(db.t), db.t, config) && OnlyProfile(old(db.t), db.t, profile, 0, 0)
      ensures trail == old(trail) + [Attempt(kind, 0, profile, sourceIds, old(db.t), db.t, created)]
      ensures Effect(trail[|old(trail)|], config)
    {
      hide Inv, JobStep, OnlyProfile, Observed, FromProfile, AllSourced;
      ghost var start := db.t;
      created := StoreReflections(kind, sourceIds, profile);
      ObservedIsOneProfile(start, db.t, kind, profile, sourceIds);
      trail := trail + [Attempt(kind, 0, profile, sourceIds, start, db.t, created)];
    }

    method StoreReflections(kind: MetaKind, sourceIds: seq<Id>, profile: Id) returns (created: nat)
      requires Inv(db.t, config) && profile < db.t.nextId
      requires FromProfile(db.t, profile, sourceIds)
      modifies db
      ensures JobStep(old(db.t), db.t, config) && Observed(old(db.t), db.t, kind, profile, sourceIds)
      ensures |db.t.metas| >= |old(db.t).metas| + created
      ensures created > 0 ==> |db.t.metas| == |old(db.t).metas| + created && AllSourced(old(db.t), db.t, sourceIds)
    {
      hide Inv, JobStep, Observed, AllSourced, AfterReflection;
      ghost var start := db.t;
      JobStepRefl(start, config);
      ObservedRefl(start, kind, profile, sourceIds);
      AllSourcedRefl(start, sourceIds);
      var reply := Summarize();
      if reply.None? {
        return 0;
      }
      var reflections := reply.value;
      created := 0;
      for i := 0 to |reflections|
        invariant Inv(start, config) && JobStep(start, db.t, config) && Inv(db.t, config)
        invariant Observed(start, db.t, kind, profile, sourceIds)
        invariant db.t.semantics == start.semantics && profile < db.t.nextId
        invariant |db.t.metas| == |start.metas| + created && AllSourced(start, db.t, sourceIds)
      {
        if !reflections[i].hasContent {
          continue;
        }
        ghost var before := db.t;
        var ok, stored, near, sim, now := StoreReflection(kind, sourceIds, profile, reflections[i]);
        ObservedTrans(start, before, db.t, kind, profile, sourceIds);
        StepIsInv(before, db.t, config);
        NextIdGrows(before, db.t, config);
        JobStepTrans(start, before, db.t, config);
        if !ok {
          return 0;
        }
        StepGrows(start, before, config);
        NextSourced(start, before, db.t, config, kind, profile, sourceIds, reflections[i], near, sim, now);
        if stored {
          created := created + 1;
        }
      }
    }

    method StoreReflection(kind: MetaKind, sourceIds: seq<Id>, profile: Id, r: Reflection)
      returns (ok: bool, stored: bool, ghost near: Option<Id>, ghost sim: real, ghost now: int)
      requires Inv(db.t, config) && profile < db.t.nextId
      requires FromProfile(db.t, profile, sourceIds)
      modifies db
      ensures JobStep(old(db.t), db.t, config) && db.t.semantics == old(db.t).semantics
      ensures Observed(old(db.t), db.t, kind, profile, sourceIds)
      ensures |db.t.metas| >= |old(db.t).metas|
      ensures ok ==> |db.t.metas| == |old(db.t).metas| + if stored then 1 else 0
      ensures near.Some? ==> IsLive(old(db.t), kind, 0, profile, near.value)
      ensures ok ==> (near.None? <==> forall id :: !IsLive(old(db.t), kind, 0, profile, id))
      ensures ok ==> StoredOver(old(db.t), db.t, config.confidenceThreshold, kind, profile, sourceIds, r, near, sim,
                                now)
      ensures ok ==> db.t == AfterReflection(old(db.t), config, kind, profile, sourceIds, r, near, sim, now)
      ensures ok ==> (stored <==> !(near.Some? && sim > 0.85))
    {
      hide Inv, JobStep, Observed, IsLive, Inserted, Compared;
      ghost var start := db.t;
      var confirmed;
      ok, confirmed, near, sim := CompareNearest(kind, sourceIds, profile);
      stored, now := false, 0;
      if !ok || confirmed {
        return;
      }
      ghost var checked := db.t;
      StepIsInv(start, checked, config);
      NextIdGrows(start, checked, config);
      FreshId(checked, config);
      ok, now := InsertObserved(kind, sourceIds, profile, r);
      ObservedTrans(start, checked, db.t, kind, profile, sourceIds);
      JobStepTrans(start, checked, db.t, config);
      InsertionInFull(checked, config, kind, profile, sourceIds, r, now);
      stored := ok;
    }

    /** The duplicate check: the nearest live entry is confirmed when it is similar, and decays when it is only
        close. */
    method CompareNearest(kind: MetaKind, sourceIds: seq<Id>, profile: Id)
      returns (ok: bool, confirmed: bool, ghost near: Option<Id>, ghost sim: real)
      requires Inv(db.t, config)
      modifies db
      ensures JobStep(old(db.t), db.t, config) && Observed(old(db.t), db.t, kind, profile, sourceIds)
      ensures db.t == old(db.t).(metas := db.t.metas) && |db.t.metas| == |old(db.t).metas|
      ensures near.Some? ==> IsLive(old(db.t), kind, 0, profile, near.value)
      ensures ok ==> (near.None? <==> forall id :: !IsLive(old(db.t), kind, 0, profile, id))
      ensures ok ==> (confirmed <==> near.Some? && sim > 0.85)
      ensures ok ==> Compared(old(db.t), db.t, near, sim)
      ensures ok ==> db.t == AfterComparison(old(db.t), near, sim)
    {
      hide Inv, JobStep, Observed, Compared;
      ghost var start := db.t;
      JobStepRefl(start, config);
      ObservedRefl(start, kind, profile, sourceIds);
      ok, confirmed, near, sim := false, false, None, 0.0;
      var embedded := Await();
      if !embedded {
        return;
      }
      var existing := Nearest(kind, profile);
      near := existing;
      ComparisonsInNumbers(start, near);
      if existing.Some? {
        var id := existing.value;
        var current := db.t.metas[id].confidence;
        UpdateIsObserved(start, id, ConfirmConfidence(current), kind, profile, sourceIds);
        UpdateIsObserved(start, id, ContradictConfidence(current), kind, profile, sourceIds);
        var similarity := Similarity();
        sim := similarity;
        var updated := Await();
        if !updated {
          return;
        }
        if similarity > 0.85 {
          StatementStep(db.t, Confirm(id), config);
          db.t := WithConfidence(db.t, id, ConfirmConfidence(current));
          assert db.t == AfterComparison(start, near, sim);
          return true, true, near, sim;
        }
        if similarity > 0.7 {
          StatementStep(db.t, Contradict(id), config);
          db.t := WithConfidence(db.t, id, ContradictConfidence(current));
        }
      }
      assert db.t == AfterComparison(start, near, sim);
      ok := true;
    }

    /** Inserts the new entry and links it to its sources. */
    method InsertObserved(kind: MetaKind, sourceIds: seq<Id>, profile: Id, r: Reflection)
      returns (ok: bool, ghost now: int)
      requires Inv(db.t, config) && profile < db.t.nextId
      requires FromProfile(db.t, profile, sourceIds)
      modifies db
      ensures JobStep(old(db.t), db.t, config) && Observed(old(db.t), db.t, kind, profile, sourceIds)
      ensures |db.t.metas| >= |old(db.t).metas| && db.t.semantics == old(db.t).semantics
      ensures ok ==> |db.t.metas| == |old(db.t).metas| + 1
      ensures ok ==> var m := Meta(kind, ReflectionConfidence(config, r), 0, profile, now);
        db.t == WithSources(WithMeta(old(db.t), m), old(db.t).nextId, sourceIds)
    {
      hide Inv, JobStep, Observed;
      ghost var start := db.t;
      JobStepRefl(start, config);
      ObservedRefl(start, kind, profile, sourceIds);
      now := 0;
      var confidence := ReflectionConfidence(config, r);
      var inserted := Await();
      if !inserted {
        return false, now;
      }
      var created: int := *;
      now := created;
      var metaId := db.t.nextId;
      var m := Meta(kind, confidence, 0, profile, created);
      StatementStep(start, InsertObservation(kind, profile, r, created), config);
      FreshId(start, config);
      InsertIsObserved(start, m, sourceIds);
      db.t := WithMeta(db.t, m);
      ghost var added := db.t;
      StepIsInv(start, added, config);
      ok := LinkSources(metaId, sourceIds);
      LinksAreObserved(start, added, db.t, metaId, kind, profile, sourceIds);
      JobStepTrans(start, added, db.t, config);
    }

    /** Depth-0 generation from the semantic rows created since the last run; None when a query threw. */
    method GenerateD0(profile: Id) returns (totalCreated: Option<nat>)
      requires Inv(db.t, config) && profile < db.t.nextId
      modifies db, this`trail
      ensures JobStep(old(db.t), db.t, config) && OnlyProfile(old(db.t), db.t, profile, 0, 0)
      ensures old(trail) <= trail
      ensures totalCreated.None? ==> trail == old(trail) && db.t == old(db.t)
      ensures totalCreated.Some? ==> totalCreated.value == Created(trail[|old(trail)|..])
      ensures totalCreated.Some? ==>
                Generated(trail[|old(trail)|..], lastReflectionAt, profile, old(db.t), db.t, config)
      ensures |RowsSince(old(db.t), profile, lastReflectionAt)| < config.minSemanticEntries ==>
                db.t == old(db.t) && trail == old(trail) && (totalCreated.None? || totalCreated == Some(0))
    {
      hide Inv, JobStep, OnlyProfile, Effect, RowsSince;
      ghost var start := db.t;
      ghost var attempted := trail;
      JobStepRefl(start, config);
      OnlyProfileRefl(start, profile, 0, 0);
      NothingCreated();
      assert trail[|attempted|..] == [];
      var selected := Await();
      if !selected {
        return None;
      }
      RecentAreRowsSince(start, profile, lastReflectionAt);
      var sourceIds := Enumerate(Recent(db.t, profile, lastReflectionAt));
      if |sourceIds| < config.minSemanticEntries {
        return Some(0);
      }
      var a := RunReflection(Insight, sourceIds, profile);
      ghost var s1 := db.t;
      StepIsInv(start, s1, config);
      StepKeepsSemantics(start, s1, config);
      NextIdGrows(start, s1, config);
      var b := RunReflection(Heuristic, sourceIds, profile);
      ghost var s2 := db.t;
      JobStepTrans(start, s1, s2, config);
      OnlyProfileTrans(start, s1, s2, profile, 0, 0, config);
      StepIsInv(start, s2, config);
      StepKeepsSemantics(start, s2, config);
      NextIdGrows(start, s2, config);
      var c := RunReflection(SelfAssessment, sourceIds, profile);
      JobStepTrans(start, s2, db.t, config);
      OnlyProfileTrans(start, s2, db.t, profile, 0, 0, config);
      ghost var x, y, z := trail[|attempted|], trail[|attempted| + 1], trail[|attempted| + 2];
      assert trail[|attempted|..] == [x, y, z];
      ThreeAttempts(x, y, z, 0, profile, start, s1, s2, db.t, config);
      totalCreated := Some(a + b + c);
    }

    /** The whole pipeline for one profile; None when a statement threw. A pass that gets to its end went through the
        whole pipeline and ends with exactly one cascade pass; what it reports is the sum of its attempts. */
    method RunForProfile(profile: Id) returns (totalCreated: Option<nat>)
      requires Inv(db.t, config) && profile < db.t.nextId && config.metaCondensationThreshold >= 1
      modifies db, this`trail
      ensures JobStep(old(db.t), db.t, config) && OnlyProfile(old(db.t), db.t, profile, 0, Deepest(config))
      ensures old(trail) <= trail
      ensures totalCreated.Some? ==> totalCreated.value == Created(trail[|old(trail)|..])
      ensures totalCreated.Some? ==> |db.t.metas| >= |old(db.t).metas| + totalCreated.value
      ensures totalCreated.Some? ==>
                ProfilePass(trail[|old(trail)|..], lastReflectionAt, profile, old(db.t), db.t, config)
    {
      hide Inv, JobStep, OnlyProfile, Pipeline, Created, Layered;
      ghost var start := db.t;
      ghost var attempted := trail;
      var created := GenerateAndCondense(profile);
      ghost var condensed := db.t;
      StepIsInv(start, condensed, config);
      if created.None? {
        return None;
      }
      InvIsLayered(condensed, config);
      PipelineGrowth(trail[|attempted|..], lastReflectionAt, profile, start, condensed, config);
      if config.contradictionCascade {
        var decayed;
        ghost var decays;
        decayed, decays := RunContradictionCascade(db, profile, config.maxMetaDepth);
        CascadeStep(condensed, decays, db.t, config);
        CascadeIsOneProfile(condensed, db.t, profile, config.maxMetaDepth, 0, Deepest(config));
        JobStepTrans(start, condensed, db.t, config);
        OnlyProfileTrans(start, condensed, db.t, profile, 0, Deepest(config), config);
        if decayed.None? {
          return None;
        }
      }
      return created;
    }

    /** Phases 1 to 3. */
    method GenerateAndCondense(profile: Id) returns (totalCreated: Option<nat>)
      requires Inv(db.t, config) && profile < db.t.nextId && config.metaCondensationThreshold >= 1
      modifies db, this`trail
      ensures JobStep(old(db.t), db.t, config) && OnlyProfile(old(db.t), db.t, profile, 0, Deepest(config))
      ensures old(trail) <= trail
      ensures totalCreated.Some? ==> totalCreated.value == Created(trail[|old(trail)|..])
      ensures totalCreated.Some? ==> Pipeline(trail[|old(trail)|..], lastReflectionAt, profile, old(db.t), db.t, config)
    {
      hide Inv, JobStep, OnlyProfile, Generated, CondensedLevels, Created;
      ghost var start := db.t;
      ghost var attempted := trail;
      var total := GenerateD0(profile);
      StepIsInv(start, db.t, config);
      OnlyProfileWidens(start, db.t, profile, 0, 0, Deepest(config));
      if total.None? {
        return None;
      }
      ghost var generated := db.t;
      ghost var generation := trail[|attempted|..];
      var rest := CondenseLevels(profile);
      JobStepTrans(start, generated, db.t, config);
      OnlyProfileTrans(start, generated, db.t, profile, 0, Deepest(config), config);
      if rest.None? {
        return None;
      }
      ghost var levels := trail[|attempted| + |generation|..];
      assert trail[|attempted|..] == generation + levels;
      CreatedAppend(generation, levels);
      assert Generated(generation, lastReflectionAt, profile, start, generated, config);
      return Some(total.value + rest.value);
    }

    /** Phases 2 and 3: level after level, until one reports nothing. */
    method CondenseLevels(profile: Id) returns (totalCreated: Option<nat>)
      requires Inv(db.t, config) && config.metaCondensationThreshold >= 1
      modifies db, this`trail
      ensures JobStep(old(db.t), db.t, config) && OnlyProfile(old(db.t), db.t, profile, 0, Deepest(config))
      ensures old(trail) <= trail
      ensures totalCreated.Some? ==> totalCreated.value == Created(trail[|old(trail)|..])
      ensures totalCreated.Some? ==> CondensedLevels(trail[|old(trail)|..], profile, old(db.t), db.t, config)
    {
      hide Inv, JobStep, OnlyProfile, IsLevel, AreLevels, Created, CondensedLevels;
      ghost var start := db.t;
      ghost var attempted := trail;
      JobStepRefl(start, config);
      OnlyProfileRefl(start, profile, 0, Deepest(config));
      var total: nat := 0;
      var depth := 1;
      ghost var part: seq<Attempt> := [];
      NothingCreated();
      NoLevels(profile, start, config);
      while depth <= config.maxMetaDepth
        invariant depth >= 1 && Inv(start, config) && JobStep(start, db.t, config) && Inv(db.t, config)
        invariant trail == attempted + part && total == Created(part) && depth - 1 <= Deepest(config)
        invariant AreLevels(part, depth - 1, profile, start, db.t, config)
        invariant depth >= 2 ==> |part| >= 3 && Created(part[|part| - 3..]) > 0
        invariant OnlyProfile(start, db.t, profile, 0, Deepest(config))
        decreases config.maxMetaDepth - depth
      {
        ghost var before := db.t;
        ghost var earlier := trail;
        var created := CondenseMeta(depth - 1, depth, profile);
        TrailPrefix(attempted, part, earlier, trail);
        JobStepTrans(start, before, db.t, config);
        OnlyProfileWidens(before, db.t, profile, depth, 0, Deepest(config));
        OnlyProfileTrans(start, before, db.t, profile, 0, Deepest(config), config);
        StepIsInv(start, db.t, config);
        if created.None? {
          return None;
        }
        ghost var level := trail[|earlier|..];
        LevelHasThree(level, depth, profile, before, db.t, config);
        NextLevel(part, depth - 1, level, profile, start, before, db.t, config);
        CreatedAppend(part, level);
        TrailGrows(attempted, part, earlier, trail);
        part := part + level;
        total := total + created.value;
        if created.value == 0 {
          LevelsStop(part, depth, profile, start, db.t, config);
          return Some(total);
        }
        depth := depth + 1;
      }
      LevelsEnd(part, depth - 1, profile, start, db.t, config);
      TrailGrows(attempted, part, trail, trail);
      return Some(total);
    }

    /** One reflection pass over all profiles, or None when a statement threw; does nothing while another one is
        running. Whatever happens, the flag is released. The time of the pass is recorded last; it stays as it was when
        anything before that threw. */
    method Run(now: int) returns (totalCreated: Option<nat>)
      requires Inv(db.t, config) && config.metaCondensationThreshold >= 1
      modifies this, db
      ensures JobStep(old(db.t), db.t, config) && old(trail) <= trail
      ensures old(running) || !config.enabled ==>
                totalCreated == Some(0) && db.t == old(db.t) && running == old(running)
      ensures !old(running) ==> !running
      ensures lastReflectionAt == if totalCreated.Some? && !old(running) && config.enabled then now
                                  else old(lastReflectionAt)
      ensures totalCreated.Some? ==> totalCreated.value == Created(trail[|old(trail)|..])
      ensures totalCreated.Some? ==> |db.t.metas| >= |old(db.t).metas| + totalCreated.value
      ensures totalCreated.Some? && !old(running) && config.enabled ==>
        PassOver(old(db.t).profiles.Keys, trail[|old(trail)|..], old(lastReflectionAt), old(db.t), db.t, config)
    {
      hide Inv, JobStep, Created, ProfilePasses;
      JobStepRefl(db.t, config);
      NothingCreated();
      assert trail[|old(trail)|..] == [];
      if running || !config.enabled {
        return Some(0);
      }
      running := true;
      ghost var start := db.t;
      var selected := Await();
      if !selected {
        running := false;
        return None;
      }
      var profiles := Enumerate(db.t.profiles.Keys);
      ProfilesUsed(start, profiles, config);
      totalCreated := RunForProfiles(profiles);
      if totalCreated.None? {
        running := false;
        return None;
      }
      var recorded := Await();
      if !recorded {
        running := false;
        return None;
      }
      lastReflectionAt := now;
      running := false;
    }

    /** The loop over the profiles; the first one that throws ends it. */
    method RunForProfiles(profiles: seq<Id>) returns (totalCreated: Option<nat>)
      requires Inv(db.t, config) && config.metaCondensationThreshold >= 1
      requires forall p :: p in profiles ==> p < db.t.nextId
      modifies db, this`trail
      ensures JobStep(old(db.t), db.t, config) && old(trail) <= trail
      ensures totalCreated.Some? ==> totalCreated.value == Created(trail[|old(trail)|..])
      ensures totalCreated.Some? ==> |db.t.metas| >= |old(db.t).metas| + totalCreated.value
      ensures totalCreated.Some? ==>
                ProfilePasses(trail[|old(trail)|..], lastReflectionAt, profiles, old(db.t), db.t, config)
    {
      hide Inv, JobStep, OnlyProfile, Created, ProfilePass, ProfilePasses;
      ghost var start := db.t;
      ghost var attempted := trail;
      JobStepRefl(start, config);
      NothingCreated();
      NoPasses(lastReflectionAt, start, config);
      var total: nat := 0;
      ghost var done: seq<Attempt> := [];
      for i := 0 to |profiles|
        invariant Inv(start, config) && JobStep(start, db.t, config) && Inv(db.t, config) && start.nextId <= db.t.nextId
        invariant trail == attempted + done && total == Created(done)
        invariant |db.t.metas| >= |start.metas| + total
        invariant ProfilePasses(done, lastReflectionAt, profiles[..i], start, db.t, config)
      {
        ghost var before := db.t;
        ghost var earlier := trail;
        assert profiles[i] in profiles;
        var created := RunForProfile(profiles[i]);
        JobStepTrans(start, before, db.t, config);
        StepIsInv(start, db.t, config);
        NextIdGrows(start, db.t, config);
        if created.None? {
          return None;
        }
        ghost var part := trail[|earlier|..];
        CreatedAppend(done, part);
        NextPass(done, part, lastReflectionAt, profiles[..i], profiles[i], start, before, db.t, config);
        assert profiles[..i + 1] == profiles[..i] + [profiles[i]];
        done := done + part;
        assert trail == attempted + done;
        total := total + created.value;
      }
      assert profiles[..|profiles|] == profiles;
      assert trail[|attempted|..] == done;
      return Some(total);
    }
  }

  // ---------- putting attempts together ----------

  lemma CondensationIsEffect(a: Attempt, cfg: ReflectionConfig)
    requires a.depth >= 1 && cfg.metaCondensationThreshold >= 1
    requires forall c :: c in a.sources <==> IsOpen(a.before, a.kind, a.depth - 1, a.profile, c)
    requires NoDuplicates(a.sources) && |a.sources| >= cfg.metaCondensationThreshold
    requires Condensed(a.before, a.after, a.kind, a.profile, a.depth, FloorOf(a.before, a.sources), a.sources)
    requires |a.after.metas| >= |a.before.metas| + a.created
    requires a.created > 0 ==>
               |a.after.metas| == |a.before.metas| + a.created && AllLinked(a.before, a.after, a.sources)
    ensures Effect(a, cfg)
  {
    hide Condensed, AllLinked, FloorOf, IsOpen;
  }

  lemma AllSourcedRefl(s: Tables, sourceIds: seq<Id>)
    ensures AllSourced(s, s, sourceIds)
  {}

  /** A stored reflection links the entry it adds to all sources. */
  lemma NextSourced(s: Tables, u: Tables, t: Tables, cfg: ReflectionConfig, kind: MetaKind, profile: Id,
                    sourceIds: seq<Id>,
                    r: Reflection, near: Option<Id>, similarity: real, now: int)
    requires AllSourced(s, u, sourceIds) && s.metas.Keys <= u.metas.Keys && (near.Some? ==> near.value in u.metas)
    requires t == AfterReflection(u, cfg, kind, profile, sourceIds, r, near, similarity, now)
    ensures AllSourced(s, t, sourceIds)
  {
    hide AllSourced, AfterComparison;
    ComparisonKeepsRows(u, near, similarity);
    var v := AfterComparison(u, near, similarity);
    SameSourced(s, u, v, sourceIds);
    if !(near.Some? && similarity > 0.85) {
      InsertSourced(s, v, Meta(kind, ReflectionConfidence(cfg, r), 0, profile, now), sourceIds);
    }
  }

  lemma ComparisonKeepsRows(t: Tables, near: Option<Id>, similarity: real)
    requires near.Some? ==> near.value in t.metas
    ensures var u := AfterComparison(t, near, similarity);
      u.metas.Keys == t.metas.Keys && u.metaSources == t.metaSources && u.nextId == t.nextId
  {}

  lemma SameSourced(s: Tables, u: Tables, v: Tables, sourceIds: seq<Id>)
    requires AllSourced(s, u, sourceIds) && v.metas.Keys == u.metas.Keys && v.metaSources == u.metaSources
    ensures AllSourced(s, v, sourceIds)
  {}

  lemma InsertSourced(s: Tables, v: Tables, m: Meta, sourceIds: seq<Id>)
    requires AllSourced(s, v, sourceIds)
    ensures AllSourced(s, WithSources(WithMeta(v, m), v.nextId, sourceIds), sourceIds)
  {
    forall x | x in sourceIds ensures (v.nextId, x) in SourceLinks(v.nextId, sourceIds) {}
  }

  lemma NextIdGrows(s: Tables, t: Tables, cfg: ReflectionConfig)
    requires JobStep(s, t, cfg)
    ensures s.nextId <= t.nextId
  {}

  lemma ProfilesUsed(t: Tables, profiles: seq<Id>, cfg: ReflectionConfig)
    requires Inv(t, cfg) && forall p :: p in profiles ==> p in t.profiles
    ensures forall p :: p in profiles ==> p < t.nextId
  {}

  lemma ThreeAttempts(x: Attempt, y: Attempt, z: Attempt, depth: int, profile: Id, s: Tables, u: Tables, w: Tables,
                      t: Tables, cfg: ReflectionConfig)
    requires IsAttempt(x, Insight, depth, profile, s, u, x.created) && Effect(x, cfg)
    requires IsAttempt(y, Heuristic, depth, profile, u, w, y.created) && Effect(y, cfg)
    requires IsAttempt(z, SelfAssessment, depth, profile, w, t, z.created) && Effect(z, cfg)
    ensures IsLevel([x, y, z], depth, profile, s, t, cfg) && Created([x, y, z]) == x.created + y.created + z.created
  {
    hide Effect;
    assert [x, y, z][..2] == [x, y] && [x, y][..1] == [x] && [x][..0] == [];
    assert Created([x]) == x.created && Created([x, y]) == Created([x]) + y.created;
  }

  lemma TrailPrefix(attempted: seq<Attempt>, part: seq<Attempt>, earlier: seq<Attempt>, trail: seq<Attempt>)
    requires earlier == attempted + part && earlier <= trail
    ensures attempted <= trail
  {}

  /** The attempts of one more step follow those made so far. */
  lemma TrailGrows(attempted: seq<Attempt>, part: seq<Attempt>, earlier: seq<Attempt>, trail: seq<Attempt>)
    requires earlier == attempted + part && earlier <= trail
    ensures trail == attempted + (part + trail[|earlier|..]) && trail[|attempted|..] == part + trail[|earlier|..]
    ensures earlier == trail ==> trail[|attempted|..] == part
  {}

  lemma NoLevels(profile: Id, s: Tables, cfg: ReflectionConfig)
    ensures AreLevels([], 0, profile, s, s, cfg)
  {}

  lemma LevelsStop(part: seq<Attempt>, top: nat, profile: Id, s: Tables, t: Tables, cfg: ReflectionConfig)
    requires 1 <= top <= Deepest(cfg) && AreLevels(part, top, profile, s, t, cfg) && |part| >= 3
    requires Created(part[|part| - 3..]) == 0
    ensures CondensedLevels(part, profile, s, t, cfg)
  {
    hide AreLevels, Created;
  }

  lemma LevelsEnd(part: seq<Attempt>, top: nat, profile: Id, s: Tables, t: Tables, cfg: ReflectionConfig)
    requires top == Deepest(cfg) && AreLevels(part, top, profile, s, t, cfg)
    ensures CondensedLevels(part, profile, s, t, cfg)
  {
    hide AreLevels, Created;
  }

  /** Every profile, in some order, went through its pipeline and its cascade pass, each from where the one before
      ended. */
  ghost predicate PassOver(profiles: set<Id>, trail: seq<Attempt>, since: int, s: Tables, t: Tables,
                           cfg: ReflectionConfig) {
    exists order: seq<Id> :: NoDuplicates(order) && (forall p :: p in order <==> p in profiles)
      && ProfilePasses(trail, since, order, s, t, cfg)
  }

  /** The deepest level a pass can create. */
  function Deepest(cfg: ReflectionConfig): int {
    if cfg.maxMetaDepth < 0 then 0 else cfg.maxMetaDepth
  }

  // ---------- reading off a step ----------

  lemma StepIsInv(s: Tables, t: Tables, cfg: ReflectionConfig)
    requires JobStep(s, t, cfg)
    ensures Inv(t, cfg)
  {}

  lemma StepGrows(s: Tables, t: Tables, cfg: ReflectionConfig)
    requires JobStep(s, t, cfg)
    ensures s.metaParents <= t.metaParents && s.metas.Keys <= t.metas.Keys
  {}

  lemma StepKeepsSemantics(s: Tables, t: Tables, cfg: ReflectionConfig)
    requires JobStep(s, t, cfg)
    ensures t.semantics == s.semantics
  {}

  lemma FreshId(t: Tables, cfg: ReflectionConfig)
    requires Inv(t, cfg)
    ensures t.nextId !in t.metas
  {}

  lemma InvIsLayered(t: Tables, cfg: ReflectionConfig)
    requires Inv(t, cfg)
    ensures Layered(t)
  {}

  /** The floor computed at the query still is the floor at the insert: nothing it depends on has changed. */
  lemma {:induction false} SameSum(s: Tables, t: Tables, rows: seq<Id>)
    requires forall c :: c in rows ==> Confidence(t, c) == Confidence(s, c)
    ensures SumConfidence(t, rows) == SumConfidence(s, rows)
  {
    if |rows| > 0 {
      SameSum(s, t, rows[..|rows| - 1]);
    }
  }

  lemma CondensationStep(start: Tables, t: Tables, kind: MetaKind, childIds: seq<Id>, profile: Id, depth: int,
                         r: Reflection, now: int, cfg: ReflectionConfig)
    requires Inv(t, cfg) && depth >= 1 && |childIds| >= 1
    requires forall c :: c in childIds ==> c in Alive(start, kind, depth - 1, profile)
    requires forall id :: id in start.metas ==> id in t.metas && t.metas[id] == start.metas[id]
    ensures JobStep(t, WithMeta(t, Meta(kind, CondensedConfidence(FloorOf(start, childIds), r), depth, profile, now)),
                    cfg)
  {
    hide Inv, JobStep;
    SameSum(start, t, childIds);
    StatementStep(t, InsertCondensation(kind, profile, depth, childIds, r, now), cfg);
  }

  lemma CondensedKeepsOld(s: Tables, t: Tables, kind: MetaKind, profile: Id, depth: int, floor: real, childIds: seq<Id>)
    requires Condensed(s, t, kind, profile, depth, floor, childIds)
    ensures forall id :: id in s.metas ==> id in t.metas && t.metas[id] == s.metas[id]
  {}

  lemma ChildrenReady(start: Tables, t: Tables, m: Meta, childIds: seq<Id>)
    requires t.nextId !in t.metas && forall id :: id in start.metas ==> id in t.metas && t.metas[id] == start.metas[id]
    requires forall c :: c in childIds ==> c in Alive(start, m.kind, m.depth - 1, m.profile)
    ensures var u := WithMeta(t, m);
      forall c :: c in childIds ==> GoodEdge(u, t.nextId, c) && u.metas[c].confidence >= LOW
  {
    var u := WithMeta(t, m);
    forall c | c in childIds ensures GoodEdge(u, t.nextId, c) && u.metas[c].confidence >= LOW {
      assert c in start.metas;
    }
  }

  lemma CondensedCapped(cfg: ReflectionConfig, floor: real, r: Reflection)
    ensures floor <= CondensedConfidence(floor, r) <= MaxReal(floor, 0.95)
    ensures Clamped(CondensedConfidence(floor, r), floor, 0.95, r.confidence)
  {
    ConfidencesAreClamped(cfg, floor, r);
  }

  /** One more entry with links to children. */
  lemma NextCondensed(start: Tables, before: Tables, after: Tables, m: Meta, floor: real, childIds: seq<Id>)
    requires Condensed(start, before, m.kind, m.profile, m.depth, floor, childIds) && floor <= m.confidence
    requires m.confidence <= MaxReal(floor, 0.95)
    requires before.nextId !in before.metas
    requires after == WithMeta(before, m).(metaParents := after.metaParents) && before.metaParents <= after.metaParents
    requires forall p, c :: (p, c) in after.metaParents && (p, c) !in before.metaParents ==>
               p == before.nextId && c in childIds
    ensures Condensed(start, after, m.kind, m.profile, m.depth, floor, childIds) && |after.metas| == |before.metas| + 1
    ensures AllLinked(start, before, childIds)
            && (forall c :: c in childIds ==> (before.nextId, c) in after.metaParents)
            ==> AllLinked(start, after, childIds)
  {}

  /** The cascade, cut off anywhere, is a step of the job too. */
  lemma CascadeStep(t: Tables, decays: seq<Id>, u: Tables, cfg: ReflectionConfig)
    requires Inv(t, cfg) && Decays(t, decays, u)
    ensures JobStep(t, u, cfg)
  {
    var log := DecaysRun(t, decays, u, cfg);
    ReachedByJob(t, log, u, cfg);
  }

  lemma CascadeIsOneProfile(t: Tables, u: Tables, profile: Id, maxDepth: int, lo: int, hi: int)
    requires Layered(t) && WithinPass(t, u, profile, maxDepth)
    ensures OnlyProfile(t, u, profile, lo, hi)
  {
    hide Layered, FinalLow, LowerChildren;
    forall id | id in t.metas && t.metas[id].profile != profile ensures u.metas[id] == t.metas[id] {
      assert u.metas[id] == t.metas[id].(confidence := u.metas[id].confidence);
    }
  }
}
