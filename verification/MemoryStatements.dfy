/** The statements with which the reflection job changes the meta tables, and what every sequence of them keeps. */
module MemoryStatements {
  import opened Wrappers
  import opened MemoryTables
  import opened MemoryTrace
  import opened MemoryCascade

  datatype ReflectionConfig = ReflectionConfig(
    enabled: bool,
    minSemanticEntries: int,
    confidenceThreshold: real,
    metaCondensationThreshold: int,
    maxMetaDepth: int,
    contradictionCascade: bool)

  /** One element of a parsed reply; the confidence may be missing. */
  datatype Reflection = Reflection(hasContent: bool, confidence: Option<real>)

  // ---------- what holds in every state, and from state to state ----------

  ghost predicate InBounds(cfg: ReflectionConfig, c: real) {
    MinReal(cfg.confidenceThreshold, 0.16) <= c <= MaxReal(cfg.confidenceThreshold, 0.95)
  }

  /** Confidences are in bounds; above depth 0 no configuration gets them over 0.95. */
  ghost predicate Bounded(t: Tables, cfg: ReflectionConfig) {
    forall id :: id in t.metas ==>
      InBounds(cfg, t.metas[id].confidence) && (t.metas[id].depth >= 1 ==> t.metas[id].confidence <= 0.95)
  }

  ghost predicate Inv(t: Tables, cfg: ReflectionConfig) {
    IdsUsed(t) && Layered(t) && Bounded(t, cfg)
  }

  /** An entry that is in both states keeps its place, and its confidence too once it is low. */
  ghost predicate KeepsEntry(s: Tables, t: Tables, id: Id)
    requires id in s.metas && id in t.metas
  {
    && t.metas[id] == s.metas[id].(confidence := t.metas[id].confidence)
    && (s.metas[id].confidence < LOW ==> t.metas[id].confidence == s.metas[id].confidence)
  }

  /** What every job does to the meta tables: ids are not reused, low entries are frozen, and no low entry
      gets a new parent. */
  ghost predicate Evolves(s: Tables, t: Tables) {
    && s.nextId <= t.nextId
    && (forall id :: id in s.metas && id in t.metas ==> KeepsEntry(s, t, id))
    && (forall id :: id in t.metas && id !in s.metas ==> id >= s.nextId)
    && (forall p, c :: (p, c) in t.metaParents && (p, c) !in s.metaParents && c in s.metas ==>
          s.metas[c].confidence >= LOW)
  }

  lemma EvolvesTrans(s: Tables, u: Tables, t: Tables)
    requires IdsUsed(s) && Layered(t) && Evolves(s, u) && Evolves(u, t)
    ensures Evolves(s, t)
  {
    forall id | id in s.metas && id in t.metas ensures KeepsEntry(s, t, id) {
      assert id in u.metas;
      assert KeepsEntry(s, u, id) && KeepsEntry(u, t, id);
    }
    forall p, c | (p, c) in t.metaParents && (p, c) !in s.metaParents && c in s.metas
      ensures s.metas[c].confidence >= LOW
    {
      assert GoodEdge(t, p, c);
      assert c in u.metas;
      assert KeepsEntry(s, u, c);
    }
  }

  /** Nothing but the meta tables changes. */
  ghost predicate OnlyMetas(s: Tables, t: Tables) {
    t == s.(metas := t.metas, metaParents := t.metaParents, metaSources := t.metaSources, nextId := t.nextId)
  }

  /** Entries and edges are only added, never removed. */
  ghost predicate Grows(s: Tables, t: Tables) {
    && s.metas.Keys <= t.metas.Keys
    && s.metaParents <= t.metaParents
    && s.metaSources <= t.metaSources
  }

  // ---------- the elementary updates ----------

  function WithMeta(t: Tables, m: Meta): Tables {
    t.(metas := t.metas[t.nextId := m], nextId := t.nextId + 1)
  }

  function WithConfidence(t: Tables, id: Id, c: real): Tables
    requires id in t.metas
  {
    t.(metas := t.metas[id := t.metas[id].(confidence := c)])
  }

  function WithParent(t: Tables, parent: Id, child: Id): Tables {
    t.(metaParents := t.metaParents + {(parent, child)})
  }

  function WithSource(t: Tables, meta: Id, semantic: Id): Tables {
    t.(metaSources := t.metaSources + {(meta, semantic)})
  }

  // ---------- confidences of new entries ----------

  function OrHalf(c: Option<real>): real {
    if c.None? then 0.5 else c.value
  }

  function ReflectionConfidence(cfg: ReflectionConfig, r: Reflection): real {
    MaxReal(cfg.confidenceThreshold, MinReal(0.9, OrHalf(r.confidence)))
  }

  function CondensedConfidence(floor: real, r: Reflection): real {
    MaxReal(floor, MinReal(0.95, OrHalf(r.confidence)))
  }

  lemma NewConfidencesInBounds(cfg: ReflectionConfig, r: Reflection, floor: real, c: real)
    ensures InBounds(cfg, ReflectionConfidence(cfg, r))
    ensures 0.25 <= floor <= 0.95 ==>
              InBounds(cfg, CondensedConfidence(floor, r)) && floor <= CondensedConfidence(floor, r) <= 0.95
    ensures InBounds(cfg, c) && c >= LOW ==>
              InBounds(cfg, ConfirmConfidence(c)) && InBounds(cfg, ContradictConfidence(c))
  {}

  function SumConfidence(t: Tables, rows: seq<Id>): real {
    if |rows| == 0 then 0.0 else SumConfidence(t, rows[..|rows| - 1]) + Confidence(t, rows[|rows| - 1])
  }

  lemma {:induction false} SumAtLeast(t: Tables, rows: seq<Id>)
    requires forall id :: id in rows ==> Confidence(t, id) >= LOW
    ensures SumConfidence(t, rows) >= LOW * (|rows| as real)
  {
    if |rows| != 0 {
      SumAtLeast(t, rows[..|rows| - 1]);
    }
  }

  /** The model's confidence, or one half when it gives none, moved into the range from `lo` to `hi`; `lo` wins when the
      range is empty. */
  ghost predicate Clamped(c: real, lo: real, hi: real, given: Option<real>) {
    var g := if given.None? then 0.5 else given.value;
    && (g < lo ==> c == lo)
    && (lo <= g <= hi ==> c == g)
    && (g >= lo && g > hi ==> c == if lo > hi then lo else hi)
  }

  lemma ConfidencesAreClamped(cfg: ReflectionConfig, floor: real, r: Reflection)
    ensures Clamped(ReflectionConfidence(cfg, r), cfg.confidenceThreshold, 0.9, r.confidence)
    ensures Clamped(CondensedConfidence(floor, r), floor, 0.95, r.confidence)
  {}

  // ---------- what the queries select ----------

  ghost predicate WithoutParent(t: Tables, id: Id) {
    forall p :: (p, id) !in t.metaParents
  }

  /** An entry of this kind, depth and profile that is at or above 0.2. */
  ghost predicate IsLive(t: Tables, kind: MetaKind, depth: int, profile: Id, id: Id) {
    && id in t.metas && t.metas[id].kind == kind && t.metas[id].depth == depth && t.metas[id].profile == profile
    && t.metas[id].confidence >= 0.2
  }

  /** ... that no entry condenses yet: no edge of the join table leads to it. */
  ghost predicate IsOpen(t: Tables, kind: MetaKind, depth: int, profile: Id, id: Id) {
    IsLive(t, kind, depth, profile, id) && WithoutParent(t, id)
  }

  ghost function OpenRows(t: Tables, kind: MetaKind, depth: int, profile: Id): set<Id> {
    set id | id in t.metas && IsOpen(t, kind, depth, profile, id)
  }

  lemma AliveIsLive(t: Tables, kind: MetaKind, depth: int, profile: Id)
    ensures forall id :: id in Alive(t, kind, depth, profile) <==> IsLive(t, kind, depth, profile, id)
  {}

  lemma UncondensedIsOpen(t: Tables, kind: MetaKind, depth: int, profile: Id)
    ensures forall id :: id in Uncondensed(t, kind, depth, profile) <==> IsOpen(t, kind, depth, profile, id)
    ensures Uncondensed(t, kind, depth, profile) == OpenRows(t, kind, depth, profile)
  {
    forall id ensures id in Uncondensed(t, kind, depth, profile) <==> IsOpen(t, kind, depth, profile, id) {
      forall p | (p, id) in t.metaParents ensures id !in Uncondensed(t, kind, depth, profile) {
        assert (p, id).1 == id;
      }
    }
  }

  /** Entries of one level that are above the threshold. */
  function Alive(t: Tables, kind: MetaKind, depth: int, profile: Id): set<Id> {
    set id | id in t.metas && t.metas[id].profile == profile && t.metas[id].kind == kind && t.metas[id].depth == depth
      && t.metas[id].confidence >= LOW
  }

  /** Entries that are still to be condensed. */
  function Uncondensed(t: Tables, kind: MetaKind, depth: int, profile: Id): set<Id> {
    Alive(t, kind, depth, profile) - (set e | e in t.metaParents :: e.1)
  }

  /** The floor of a condensation: the average confidence of what it condenses plus 0.05, at most 0.95. */
  function FloorOf(t: Tables, children: seq<Id>): real
    requires |children| >= 1
  {
    MinReal(0.95, SumConfidence(t, children) / (|children| as real) + 0.05)
  }

  lemma FloorInRange(t: Tables, children: seq<Id>)
    requires |children| >= 1 && forall c :: c in children ==> Confidence(t, c) >= LOW
    ensures 0.25 <= FloorOf(t, children) <= 0.95
  {
    SumAtLeast(t, children);
    AverageAtLeast(SumConfidence(t, children), |children|);
  }

  lemma {:induction false} SumBetween(t: Tables, rows: seq<Id>, lo: real, hi: real)
    requires forall c :: c in rows ==> lo <= Confidence(t, c) <= hi
    ensures lo * (|rows| as real) <= SumConfidence(t, rows) <= hi * (|rows| as real)
  {
    if |rows| != 0 {
      SumBetween(t, rows[..|rows| - 1], lo, hi);
    }
  }

  /** The average is over the sum of the single confidences, in any grouping. */
  lemma {:induction false} SumOfParts(t: Tables, a: seq<Id>, b: seq<Id>, id: Id)
    ensures SumConfidence(t, a + b) == SumConfidence(t, a) + SumConfidence(t, b)
    ensures id in t.metas ==> SumConfidence(t, [id]) == t.metas[id].confidence
    decreases |b|
  {
    assert [id][..0] == [];
    if |b| == 0 {
      assert a + b == a;
    } else {
      assert (a + b)[..|a + b| - 1] == a + b[..|b| - 1];
      SumOfParts(t, a, b[..|b| - 1], id);
    }
  }

  lemma QuotientBetween(sum: real, n: nat, lo: real, hi: real)
    requires n > 0 && lo * (n as real) <= sum <= hi * (n as real)
    ensures lo <= sum / (n as real) <= hi
  {
    var a := sum / (n as real);
    assert a * (n as real) == sum;
  }

  /** The floor lies 0.05 above the least and the greatest confidence of the children, up to 0.95. */
  lemma FloorBetween(t: Tables, children: seq<Id>, lo: real, hi: real)
    requires |children| >= 1 && forall c :: c in children ==> lo <= Confidence(t, c) <= hi
    ensures (if lo + 0.05 > 0.95 then 0.95 else lo + 0.05) <= FloorOf(t, children)
    ensures FloorOf(t, children) <= if hi + 0.05 > 0.95 then 0.95 else hi + 0.05
  {
    SumBetween(t, children, lo, hi);
    QuotientBetween(SumConfidence(t, children), |children|, lo, hi);
  }

  lemma AverageAtLeast(sum: real, n: nat)
    requires n > 0 && sum >= LOW * (n as real)
    ensures sum / (n as real) >= LOW
  {
    var a := sum / (n as real);
    assert a * (n as real) == sum;
  }

  // ---------- statements ----------

  datatype Statement =
    | InsertObservation(kind: MetaKind, profile: Id, reflection: Reflection, created: int)
    | InsertCondensation(kind: MetaKind, profile: Id, depth: int, children: seq<Id>, reflection: Reflection,
                         created: int)
    | Confirm(id: Id)
    | Contradict(id: Id)
    | Decay(id: Id)
    | LinkParent(parent: Id, child: Id)
    | LinkSource(meta: Id, semantic: Id)

  /** When the job issues the statement: what its queries select, and the comparisons it makes. */
  ghost predicate Guard(t: Tables, st: Statement) {
    match st
    case InsertObservation(_, profile, _, _) => profile < t.nextId
    case InsertCondensation(kind, profile, depth, children, _, _) =>
      depth >= 1 && |children| >= 1 && forall c :: c in children ==> c in Alive(t, kind, depth - 1, profile)
    case Confirm(id) => id in t.metas && t.metas[id].depth == 0 && t.metas[id].confidence >= LOW
    case Contradict(id) => id in t.metas && t.metas[id].depth == 0 && t.metas[id].confidence >= LOW
    case Decay(id) => DecayGuard(t, id)
    case LinkParent(parent, child) =>
      && parent in t.metas && t.metas[parent].depth >= 1
      && child in Alive(t, t.metas[parent].kind, t.metas[parent].depth - 1, t.metas[parent].profile)
    case LinkSource(meta, semantic) =>
      && meta in t.metas && t.metas[meta].depth == 0
      && semantic in t.semantics && t.semantics[semantic].profile == t.metas[meta].profile
  }

  ghost function Exec(t: Tables, st: Statement, cfg: ReflectionConfig): Tables
    requires Guard(t, st)
  {
    match st
    case InsertObservation(kind, profile, r, created) =>
      WithMeta(t, Meta(kind, ReflectionConfidence(cfg, r), 0, profile, created))
    case InsertCondensation(kind, profile, depth, children, r, created) =>
      WithMeta(t, Meta(kind, CondensedConfidence(FloorOf(t, children), r), depth, profile, created))
    case Confirm(id) => WithConfidence(t, id, ConfirmConfidence(t.metas[id].confidence))
    case Contradict(id) => WithConfidence(t, id, ContradictConfidence(t.metas[id].confidence))
    case Decay(id) => AfterDecay(t, id)
    case LinkParent(parent, child) => WithParent(t, parent, child)
    case LinkSource(meta, semantic) => WithSource(t, meta, semantic)
  }

  /** The statements, one after the other, lead from `s` to `t`. */
  ghost predicate Runs(s: Tables, log: seq<Statement>, t: Tables, cfg: ReflectionConfig)
    decreases |log|
  {
    if |log| == 0 then s == t else Guard(s, log[0]) && Runs(Exec(s, log[0], cfg), log[1..], t, cfg)
  }

  ghost predicate Reach(s: Tables, t: Tables, cfg: ReflectionConfig) {
    exists log :: Runs(s, log, t, cfg)
  }

  lemma {:induction false} RunsTrans(s: Tables, a: seq<Statement>, u: Tables, b: seq<Statement>, t: Tables,
                                     cfg: ReflectionConfig)
    requires Runs(s, a, u, cfg) && Runs(u, b, t, cfg)
    ensures Runs(s, a + b, t, cfg)
    decreases |a|
  {
    hide Guard, Exec;
    if |a| == 0 {
      assert a + b == b;
    } else {
      RunsTrans(Exec(s, a[0], cfg), a[1..], u, b, t, cfg);
      assert (a + b)[1..] == a[1..] + b;
    }
  }

  // ---------- what a statement keeps ----------

  lemma NewMetaKeeps(t: Tables, m: Meta, cfg: ReflectionConfig)
    requires Inv(t, cfg) && m.depth >= 0 && InBounds(cfg, m.confidence) && (m.depth >= 1 ==> m.confidence <= 0.95)
    ensures Keeps(t, WithMeta(t, m), cfg)
  {
    var u := WithMeta(t, m);
    forall p, c | (p, c) in u.metaParents ensures GoodEdge(u, p, c) { assert GoodEdge(t, p, c); }
    forall p, c | (p, c) in u.metaSources ensures GoodSource(u, p, c) { assert GoodSource(t, p, c); }
  }

  lemma NewConfidenceKeeps(t: Tables, id: Id, c: real, cfg: ReflectionConfig)
    requires Inv(t, cfg) && id in t.metas && t.metas[id].confidence >= LOW && InBounds(cfg, c)
    requires t.metas[id].depth >= 1 ==> c <= 0.95
    ensures Keeps(t, WithConfidence(t, id, c), cfg)
  {
    var u := WithConfidence(t, id, c);
    forall p, q | (p, q) in u.metaParents ensures GoodEdge(u, p, q) { assert GoodEdge(t, p, q); }
    forall p, q | (p, q) in u.metaSources ensures GoodSource(u, p, q) { assert GoodSource(t, p, q); }
  }

  lemma NewParentKeeps(t: Tables, parent: Id, child: Id, cfg: ReflectionConfig)
    requires Inv(t, cfg) && GoodEdge(t, parent, child) && t.metas[child].confidence >= LOW
    ensures Keeps(t, WithParent(t, parent, child), cfg)
  {
    var u := WithParent(t, parent, child);
    forall p, q | (p, q) in u.metaParents
      ensures GoodEdge(u, p, q)
    {
      assert (p, q) in t.metaParents ==> GoodEdge(t, p, q);
    }
    forall p, q | (p, q) in u.metaSources ensures GoodSource(u, p, q) { assert GoodSource(t, p, q); }
  }

  lemma NewSourceKeeps(t: Tables, meta: Id, semantic: Id, cfg: ReflectionConfig)
    requires Inv(t, cfg) && GoodSource(t, meta, semantic)
    ensures Keeps(t, WithSource(t, meta, semantic), cfg)
  {
    var u := WithSource(t, meta, semantic);
    forall p, q | (p, q) in u.metaParents ensures GoodEdge(u, p, q) { assert GoodEdge(t, p, q); }
    forall p, q | (p, q) in u.metaSources
      ensures GoodSource(u, p, q)
    {
      assert (p, q) in t.metaSources ==> GoodSource(t, p, q);
    }
  }

  /** The invariant after, and how the meta tables got there. */
  ghost predicate Keeps(s: Tables, t: Tables, cfg: ReflectionConfig) {
    Inv(t, cfg) && Evolves(s, t) && OnlyMetas(s, t) && Grows(s, t)
  }

  /** Every statement keeps the invariant, freezes low entries and adds no edge to one. */
  lemma StatementKeeps(t: Tables, st: Statement, cfg: ReflectionConfig)
    requires Inv(t, cfg) && Guard(t, st)
    ensures Keeps(t, Exec(t, st, cfg), cfg)
  {
    hide Layered, IdsUsed, Keeps, CondensedConfidence, ReflectionConfidence, ConfirmConfidence, ContradictConfidence,
         InBounds, FloorOf, DecayGuard;
    match st {
      case InsertObservation(kind, profile, r, created) =>
        NewConfidencesInBounds(cfg, r, 0.5, 0.0);
        NewMetaKeeps(t, Meta(kind, ReflectionConfidence(cfg, r), 0, profile, created), cfg);
      case InsertCondensation(kind, profile, depth, children, r, created) =>
        FloorInRange(t, children);
        NewConfidencesInBounds(cfg, r, FloorOf(t, children), 0.0);
        NewMetaKeeps(t, Meta(kind, CondensedConfidence(FloorOf(t, children), r), depth, profile, created), cfg);
      case Confirm(id) =>
        UpdatesInBounds(cfg, t.metas[id].confidence);
        NewConfidenceKeeps(t, id, ConfirmConfidence(t.metas[id].confidence), cfg);
      case Contradict(id) =>
        UpdatesInBounds(cfg, t.metas[id].confidence);
        NewConfidenceKeeps(t, id, ContradictConfidence(t.metas[id].confidence), cfg);
      case Decay(id) =>
        DecaysLiveEntry(t, id);
        UpdatesInBounds(cfg, t.metas[id].confidence);
        NewConfidenceKeeps(t, id, ContradictConfidence(t.metas[id].confidence), cfg);
      case LinkParent(parent, child) => NewParentKeeps(t, parent, child, cfg);
      case LinkSource(meta, semantic) => NewSourceKeeps(t, meta, semantic, cfg);
    }
  }

  lemma DecaysLiveEntry(t: Tables, id: Id)
    requires DecayGuard(t, id)
    ensures id in t.metas && t.metas[id].confidence >= LOW && t.metas[id].depth >= 1
  {}

  lemma UpdatesInBounds(cfg: ReflectionConfig, c: real)
    requires InBounds(cfg, c) && c >= LOW
    ensures InBounds(cfg, ConfirmConfidence(c)) && InBounds(cfg, ContradictConfidence(c))
    ensures ContradictConfidence(c) <= c
  {}

  lemma KeepsRefl(s: Tables, cfg: ReflectionConfig)
    requires Inv(s, cfg)
    ensures Keeps(s, s, cfg)
  {}

  lemma KeepsTrans(s: Tables, u: Tables, t: Tables, cfg: ReflectionConfig)
    requires Inv(s, cfg) && Keeps(s, u, cfg) && Keeps(u, t, cfg)
    ensures Keeps(s, t, cfg)
  {
    hide Layered, Bounded, IdsUsed;
    EvolvesTrans(s, u, t);
  }

  lemma KeepsIsInv(s: Tables, t: Tables, cfg: ReflectionConfig)
    requires Keeps(s, t, cfg)
    ensures Inv(t, cfg)
  {}

  lemma {:induction false} RunsKeep(s: Tables, log: seq<Statement>, t: Tables, cfg: ReflectionConfig)
    requires Inv(s, cfg) && Runs(s, log, t, cfg)
    ensures Keeps(s, t, cfg)
    decreases |log|
  {
    hide Inv, Keeps, Guard, Exec;
    if |log| == 0 {
      KeepsRefl(s, cfg);
    } else {
      var u := Exec(s, log[0], cfg);
      StatementKeeps(s, log[0], cfg);
      KeepsIsInv(s, u, cfg);
      RunsKeep(u, log[1..], t, cfg);
      KeepsTrans(s, u, t, cfg);
    }
  }

  // ---------- what the job does between two points ----------

  /** `t` is reached from `s` by statements of the job; so the invariant holds and low entries are frozen. */
  ghost predicate JobStep(s: Tables, t: Tables, cfg: ReflectionConfig) {
    Reach(s, t, cfg) && Keeps(s, t, cfg)
  }

  lemma ReachedByJob(s: Tables, log: seq<Statement>, t: Tables, cfg: ReflectionConfig)
    requires Inv(s, cfg) && Runs(s, log, t, cfg)
    ensures JobStep(s, t, cfg)
  {
    RunsKeep(s, log, t, cfg);
  }

  lemma JobStepRefl(s: Tables, cfg: ReflectionConfig)
    requires Inv(s, cfg)
    ensures JobStep(s, s, cfg)
  {
    hide Inv, Keeps;
    assert Runs(s, [], s, cfg);
    KeepsRefl(s, cfg);
  }

  lemma JobStepTrans(s: Tables, u: Tables, t: Tables, cfg: ReflectionConfig)
    requires Inv(s, cfg) && JobStep(s, u, cfg) && JobStep(u, t, cfg)
    ensures JobStep(s, t, cfg)
  {
    hide Inv, Keeps, Runs;
    KeepsTrans(s, u, t, cfg);
    var a :| Runs(s, a, u, cfg);
    var b :| Runs(u, b, t, cfg);
    RunsTrans(s, a, u, b, t, cfg);
  }

  /** A single statement is a step of the job. */
  lemma StatementStep(t: Tables, st: Statement, cfg: ReflectionConfig)
    requires Inv(t, cfg) && Guard(t, st)
    ensures JobStep(t, Exec(t, st, cfg), cfg)
  {
    hide Inv, Keeps, Guard, Exec;
    var u := Exec(t, st, cfg);
    assert [st][1..] == [];
    assert Runs(u, [], u, cfg);
    assert Runs(t, [st], u, cfg);
    StatementKeeps(t, st, cfg);
  }

  lemma NewParentStep(t: Tables, parent: Id, child: Id, cfg: ReflectionConfig)
    requires Inv(t, cfg) && GoodEdge(t, parent, child) && t.metas[child].confidence >= LOW
    ensures JobStep(t, WithParent(t, parent, child), cfg)
  {
    StatementStep(t, LinkParent(parent, child), cfg);
  }

  lemma NewSourceStep(t: Tables, meta: Id, semantic: Id, cfg: ReflectionConfig)
    requires Inv(t, cfg) && GoodSource(t, meta, semantic)
    ensures JobStep(t, WithSource(t, meta, semantic), cfg)
  {
    StatementStep(t, LinkSource(meta, semantic), cfg);
  }

  /** A cascade, cut off anywhere, is a sequence of decays. */
  lemma {:induction false} DecaysRun(s: Tables, ids: seq<Id>, t: Tables, cfg: ReflectionConfig)
    returns (log: seq<Statement>)
    requires Decays(s, ids, t)
    ensures Runs(s, log, t, cfg)
    decreases |ids|
  {
    hide DecayGuard, AfterDecay;
    if |ids| == 0 {
      log := [];
    } else {
      var rest := DecaysRun(AfterDecay(s, ids[0]), ids[1..], t, cfg);
      log := [Decay(ids[0])] + rest;
      assert log[1..] == rest;
    }
  }
}
