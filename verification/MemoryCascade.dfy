/** The confidence model and the upward contradiction cascade over the meta DAG. */
module MemoryCascade {
  import opened Wrappers
  import opened MemoryTables
  import opened MemoryTrace

  const LOW := 0.2

  function MinReal(a: real, b: real): real { if a < b then a else b }

  function MaxReal(a: real, b: real): real { if a > b then a else b }

  /** Confirmed entries approach 0.95. */
  function ConfirmConfidence(current: real): real {
    MinReal(0.95, current + (1.0 - current) * 0.1)
  }

  /** Contradicted entries lose a fifth, down to 0.1. */
  function ContradictConfidence(current: real): real {
    MaxReal(0.1, current * 0.8)
  }

  function Confidence(t: Tables, id: Id): real {
    if id in t.metas then t.metas[id].confidence else 0.0
  }

  function Depth(t: Tables, id: Id): int {
    if id in t.metas then t.metas[id].depth else 0
  }

  // ---------- the specification: one pass, by recursion on the depth ----------

  /** More than half of a nonempty set of children is below the threshold. */
  predicate Majority(children: set<Id>, low: set<Id>) {
    |children| > 0 && 2 * |low| > |children|
  }

  /** The confidence of an entry after one pass: decayed when it is still above the threshold and more than
      half of its children end the pass below it. */
  ghost function CascadeConfidence(t: Tables, profile: Id, maxDepth: int, id: Id): real
    requires Layered(t)
    decreases Depth(t, id), 1
  {
    var current := Confidence(t, id);
    if id in t.metas && t.metas[id].profile == profile && 1 <= t.metas[id].depth <= maxDepth && current >= LOW
      && Majority(Children(t, id), FinalLow(t, profile, maxDepth, id))
    then ContradictConfidence(current) else current
  }

  /** The tables after one pass. */
  ghost function CascadePass(t: Tables, profile: Id, maxDepth: int): (u: Tables)
    requires Layered(t)
    ensures SameShape(t, u)
    ensures forall id :: id in t.metas ==> Confidence(u, id) == CascadeConfidence(t, profile, maxDepth, id)
  {
    t.(metas := map id | id in t.metas :: t.metas[id].(confidence := CascadeConfidence(t, profile, maxDepth, id)))
  }

  /** The children that end the pass below the threshold. */
  ghost function FinalLow(t: Tables, profile: Id, maxDepth: int, id: Id): set<Id>
    requires Layered(t)
    decreases Depth(t, id), 0
  {
    set c | c in LowerChildren(t, id) && CascadeConfidence(t, profile, maxDepth, c) < LOW
  }

  /** Two states that differ in confidences only. */
  ghost predicate SameShape(t: Tables, u: Tables) {
    && u == t.(metas := u.metas)
    && u.metas.Keys == t.metas.Keys
    && forall id :: id in t.metas ==> u.metas[id] == t.metas[id].(confidence := u.metas[id].confidence)
  }

  lemma SameShapeLayered(t: Tables, u: Tables)
    requires SameShape(t, u) && Layered(t)
    ensures Layered(u)
  {
    forall p, c | (p, c) in u.metaParents ensures GoodEdge(u, p, c) {
      assert GoodEdge(t, p, c);
      assert u.metas[p] == t.metas[p].(confidence := u.metas[p].confidence);
      assert u.metas[c] == t.metas[c].(confidence := u.metas[c].confidence);
    }
    forall m, s | (m, s) in u.metaSources ensures GoodSource(u, m, s) {
      assert GoodSource(t, m, s);
      assert u.metas[m] == t.metas[m].(confidence := u.metas[m].confidence);
    }
    forall m | m in u.metas ensures u.metas[m].depth >= 0 {
      assert u.metas[m] == t.metas[m].(confidence := u.metas[m].confidence);
    }
  }

  // ---------- the job ----------

  /** The parents that a pass looks at on one level. */
  function ParentsAt(t: Tables, profile: Id, depth: int): set<Id> {
    set id | id in t.metas && t.metas[id].profile == profile && t.metas[id].depth == depth
      && t.metas[id].confidence >= LOW && Children(t, id) != {} :: id
  }

  /** The children of a parent whose confidence is currently low. */
  function LowNow(t: Tables, id: Id): set<Id> {
    set c | c in Children(t, id) && c in t.metas && t.metas[c].confidence < LOW
  }

  /** Every entry has either its confidence from before the pass or its confidence after it, by level:
      the levels below `depth` are done, and on level `depth` the entries of `done`. */
  ghost predicate Halfway(before: Tables, now: Tables, profile: Id, maxDepth: int, depth: int, done: set<Id>)
    requires Layered(before)
  {
    && SameShape(before, now)
    && forall id :: id in before.metas ==>
      now.metas[id].confidence ==
        if before.metas[id].depth < depth || id in done then CascadeConfidence(before, profile, maxDepth, id)
        else before.metas[id].confidence
  }

  /** A parent on the level being processed sees exactly the final confidences of its children. */
  lemma ParentSeesFinal(before: Tables, now: Tables, profile: Id, maxDepth: int, depth: int, done: set<Id>, id: Id)
    requires Layered(before) && Halfway(before, now, profile, maxDepth, depth, done)
    requires id in before.metas && before.metas[id].depth == depth
    ensures Children(now, id) == Children(before, id)
    ensures LowNow(now, id) == FinalLow(before, profile, maxDepth, id)
  {
    forall c | c in LowerChildren(before, id)
      ensures c in now.metas && now.metas[c].confidence == CascadeConfidence(before, profile, maxDepth, c)
    {
    }
  }

  /** Every entry has its confidence from before the pass or its final one. */
  ghost predicate WithinPass(before: Tables, now: Tables, profile: Id, maxDepth: int)
    requires Layered(before)
  {
    && SameShape(before, now)
    && forall id :: id in before.metas ==>
      now.metas[id].confidence == before.metas[id].confidence
      || now.metas[id].confidence == CascadeConfidence(before, profile, maxDepth, id)
  }

  /** When a pass decays an entry: it is above depth 0 and not low, and more than half its children are. */
  ghost predicate DecayGuard(t: Tables, id: Id): (guard: bool)
    ensures guard ==> id in t.metas
  {
    && id in t.metas && t.metas[id].depth >= 1 && t.metas[id].confidence >= LOW
    && Majority(Children(t, id), LowNow(t, id))
  }

  ghost function AfterDecay(t: Tables, id: Id): Tables
    requires id in t.metas
  {
    t.(metas := t.metas[id := t.metas[id].(confidence := ContradictConfidence(t.metas[id].confidence))])
  }

  /** The entries decay one after the other, each when the guard holds. */
  ghost predicate Decays(s: Tables, ids: seq<Id>, t: Tables)
    decreases |ids|
  {
    if |ids| == 0 then s == t else DecayGuard(s, ids[0]) && Decays(AfterDecay(s, ids[0]), ids[1..], t)
  }

  lemma {:induction false} DecaysConcat(s: Tables, a: seq<Id>, u: Tables, b: seq<Id>, t: Tables)
    requires Decays(s, a, u) && Decays(u, b, t)
    ensures Decays(s, a + b, t)
    decreases |a|
  {
    hide DecayGuard, AfterDecay;
    if |a| == 0 {
      assert a + b == b;
    } else {
      DecaysConcat(AfterDecay(s, a[0]), a[1..], u, b, t);
      assert (a + b)[1..] == a[1..] + b;
    }
  }

  lemma OneMoreDecay(s: Tables, ids: seq<Id>, t: Tables, id: Id)
    requires Decays(s, ids, t) && DecayGuard(t, id)
    ensures Decays(s, ids + [id], AfterDecay(t, id))
  {
    hide DecayGuard, AfterDecay;
    var u := AfterDecay(t, id);
    assert [id][1..] == [];
    assert Decays(u, [], u);
    assert Decays(t, [id], u);
    DecaysConcat(s, ids, t, [id], u);
  }

  /** The entries whose confidence is different. */
  function Changed(before: Tables, now: Tables): set<Id> {
    set id | id in before.metas && Confidence(now, id) != Confidence(before, id)
  }

  /** The entries that are not as they were. */
  ghost function RowsDifferent(s: Tables, t: Tables): set<Id> {
    set id | id in s.metas && id in t.metas && t.metas[id] != s.metas[id]
  }

  lemma ChangedAreDifferent(s: Tables, t: Tables)
    requires SameShape(s, t)
    ensures Changed(s, t) == RowsDifferent(s, t)
  {
    forall id | id in s.metas ensures id in Changed(s, t) <==> id in RowsDifferent(s, t) {
      assert t.metas[id] == s.metas[id].(confidence := t.metas[id].confidence);
    }
  }

  /** Any statement can throw. */
  method Awaited() returns (ok: bool)
  {
    ok := *;
  }

  /** One upward pass: level by level, each parent is compared with the current state of its children. The result
      is the number of decayed entries, or None when a statement threw part-way. */
  method RunContradictionCascade(db: Database, profile: Id, maxDepth: int)
    returns (totalDecayed: Option<nat>, ghost decays: seq<Id>)
    requires Layered(db.t)
    modifies db
    ensures Decays(old(db.t), decays, db.t)
    ensures totalDecayed.Some? ==> db.t == CascadePass(old(db.t), profile, maxDepth)
    ensures totalDecayed.Some? ==> FollowsPassRules(old(db.t), db.t, profile, maxDepth)
    ensures totalDecayed.Some? ==> totalDecayed.value == |RowsDifferent(old(db.t), db.t)|
    ensures WithinPass(old(db.t), db.t, profile, maxDepth)
  {
    hide CascadeConfidence, Layered, Changed, DecayGuard, AfterDecay, FollowsPassRule;
    var total := 0;
    decays := [];
    ghost var before := db.t;
    BeforePass(before, profile, maxDepth);
    var depth := 1;
    while depth <= maxDepth
      invariant 1 <= depth && (depth <= maxDepth + 1 || depth == 1)
      invariant Layered(before) && Halfway(before, db.t, profile, maxDepth, depth, {})
      invariant total == |Changed(before, db.t)| && Decays(before, decays, db.t)
      decreases maxDepth + 1 - depth
    {
      ghost var u := db.t;
      var decayed;
      ghost var more;
      decayed, more := CascadeLevel(db, profile, depth, before, maxDepth);
      DecaysConcat(before, decays, u, more, db.t);
      decays := decays + more;
      if decayed.None? {
        return None, decays;
      }
      total := total + decayed.value;
      depth := depth + 1;
    }
    AfterPass(before, db.t, profile, maxDepth, depth);
    HalfwayIsWithin(before, db.t, profile, maxDepth, depth, {});
    PassIffRules(before, db.t, profile, maxDepth);
    ChangedAreDifferent(before, db.t);
    return Some(total), decays;
  }

  lemma HalfwayIsWithin(before: Tables, now: Tables, profile: Id, maxDepth: int, depth: int, done: set<Id>)
    requires Layered(before) && Halfway(before, now, profile, maxDepth, depth, done)
    ensures WithinPass(before, now, profile, maxDepth)
  {
    hide CascadeConfidence, Layered;
  }

  lemma BeforePass(t: Tables, profile: Id, maxDepth: int)
    requires Layered(t)
    ensures Halfway(t, t, profile, maxDepth, 1, {}) && Changed(t, t) == {}
  {}

  lemma AfterPass(before: Tables, now: Tables, profile: Id, maxDepth: int, depth: int)
    requires Layered(before) && Halfway(before, now, profile, maxDepth, depth, {}) && depth > maxDepth
    ensures now == CascadePass(before, profile, maxDepth)
  {
    var u := CascadePass(before, profile, maxDepth);
    forall id | id in before.metas ensures now.metas[id] == u.metas[id] {
      assert now.metas[id] == before.metas[id].(confidence := now.metas[id].confidence);
      assert Confidence(u, id) == CascadeConfidence(before, profile, maxDepth, id);
    }
    assert now.metas == u.metas;
  }

  method CascadeLevel(db: Database, profile: Id, depth: int, ghost before: Tables, ghost maxDepth: int)
    returns (decayed: Option<nat>, ghost decays: seq<Id>)
    requires Layered(before) && 1 <= depth <= maxDepth
    requires Halfway(before, db.t, profile, maxDepth, depth, {})
    modifies db
    ensures Decays(old(db.t), decays, db.t)
    ensures decayed.Some? ==> Halfway(before, db.t, profile, maxDepth, depth + 1, {})
    ensures decayed.Some? ==> |Changed(before, db.t)| == |Changed(before, old(db.t))| + decayed.value
    ensures WithinPass(before, db.t, profile, maxDepth)
  {
    hide CascadeConfidence, Layered, Changed, WithinPass, DecayGuard, AfterDecay;
    var count := 0;
    decays := [];
    ghost var done: set<Id> := {};
    ghost var start := db.t;
    HalfwayIsWithin(before, db.t, profile, maxDepth, depth, done);
    var selected := Awaited();
    if !selected {
      return None, decays;
    }
    var parents := Enumerate(ParentsAt(db.t, profile, depth));
    ghost var all := ParentsAt(before, profile, depth);
    SameParents(before, db.t, profile, maxDepth, depth);
    for i := 0 to |parents|
      invariant Layered(before) && Halfway(before, db.t, profile, maxDepth, depth, done)
      invariant forall x :: x in done <==> x in parents[..i]
      invariant |Changed(before, db.t)| == |Changed(before, start)| + count && Decays(start, decays, db.t)
    {
      HalfwayIsWithin(before, db.t, profile, maxDepth, depth, done);
      var counted := Awaited();
      var updated := Awaited();
      if !counted || !updated {
        return None, decays;
      }
      var parent := parents[i];
      assert parent in all && parent !in done;
      ParentStep(before, db.t, profile, maxDepth, depth, done, parent);
      var total := |Children(db.t, parent)|;
      var low := |LowNow(db.t, parent)|;
      ghost var now := db.t;
      if total > 0 && 2 * low > total {
        var newConf := ContradictConfidence(db.t.metas[parent].confidence);
        db.t := db.t.(metas := db.t.metas[parent := db.t.metas[parent].(confidence := newConf)]);
        OneMoreChanged(before, now, db.t, parent);
        GuardedDecay(now, db.t, parent);
        OneMoreDecay(start, decays, now, parent);
        decays := decays + [parent];
        count := count + 1;
      }
      ParentDone(before, now, db.t, profile, maxDepth, depth, done, parent);
      done := done + {parent};
    }
    assert done == all;
    LevelDone(before, db.t, profile, maxDepth, depth, done);
    HalfwayIsWithin(before, db.t, profile, maxDepth, depth, done);
    return Some(count), decays;
  }

  lemma GuardedDecay(t: Tables, u: Tables, id: Id)
    requires id in t.metas && t.metas[id].depth >= 1 && t.metas[id].confidence >= LOW
    requires Majority(Children(t, id), LowNow(t, id))
    requires u == t.(metas := t.metas[id := t.metas[id].(confidence := ContradictConfidence(t.metas[id].confidence))])
    ensures DecayGuard(t, id) && u == AfterDecay(t, id)
  {}

  /** A decay always lowers the confidence of an entry that is not low. */
  lemma OneMoreChanged(before: Tables, now: Tables, next: Tables, id: Id)
    requires SameShape(before, now) && id in before.metas && before.metas[id].confidence >= LOW
    requires now.metas[id].confidence == before.metas[id].confidence
    requires id in next.metas && next.metas == now.metas[id := now.metas[id].(confidence := next.metas[id].confidence)]
    requires next.metas[id].confidence == ContradictConfidence(before.metas[id].confidence)
    ensures |Changed(before, next)| == |Changed(before, now)| + 1
  {
    assert Changed(before, next) == Changed(before, now) + {id};
  }

  lemma SameParents(before: Tables, now: Tables, profile: Id, maxDepth: int, depth: int)
    requires Layered(before) && Halfway(before, now, profile, maxDepth, depth, {})
    ensures ParentsAt(now, profile, depth) == ParentsAt(before, profile, depth)
  {
    hide CascadeConfidence, Layered;
    forall id | id in before.metas && before.metas[id].depth == depth ensures now.metas[id] == before.metas[id] {
      assert now.metas[id] == before.metas[id].(confidence := now.metas[id].confidence);
    }
  }

  lemma ParentDone(before: Tables, now: Tables, next: Tables, profile: Id, maxDepth: int, depth: int, done: set<Id>,
                   id: Id)
    requires Layered(before) && Halfway(before, now, profile, maxDepth, depth, done) && id in before.metas
    requires id in next.metas && next.metas == now.metas[id := now.metas[id].(confidence := next.metas[id].confidence)]
    requires next.metas[id].confidence == CascadeConfidence(before, profile, maxDepth, id)
    requires next == now.(metas := next.metas)
    ensures Halfway(before, next, profile, maxDepth, depth, done + {id})
  {
    hide CascadeConfidence, Layered;
  }

  lemma ParentStep(before: Tables, now: Tables, profile: Id, maxDepth: int, depth: int, done: set<Id>, id: Id)
    requires Layered(before) && Halfway(before, now, profile, maxDepth, depth, done)
    requires 1 <= depth <= maxDepth && id in ParentsAt(before, profile, depth) && id !in done
    ensures id in now.metas && now.metas[id].confidence == before.metas[id].confidence
    ensures CascadeConfidence(before, profile, maxDepth, id) ==
      if Majority(Children(now, id), LowNow(now, id)) then ContradictConfidence(before.metas[id].confidence)
      else before.metas[id].confidence
  {
    ParentSeesFinal(before, now, profile, maxDepth, depth, done, id);
  }

  lemma LevelDone(before: Tables, now: Tables, profile: Id, maxDepth: int, depth: int, done: set<Id>)
    requires Layered(before) && Halfway(before, now, profile, maxDepth, depth, done)
    requires done == ParentsAt(before, profile, depth)
    ensures Halfway(before, now, profile, maxDepth, depth + 1, {})
  {
    forall id | id in before.metas && before.metas[id].depth == depth && id !in done
      ensures CascadeConfidence(before, profile, maxDepth, id) == before.metas[id].confidence
    {
    }
  }

  // ---------- the pass, said over the join table ----------

  /** The children of an entry, by the edges. */
  ghost function ChildRows(t: Tables, id: Id): set<Id> {
    set c | c in t.metas && (id, c) in t.metaParents
  }

  ghost function LowChildRows(t: Tables, u: Tables, id: Id): set<Id> {
    set c | c in t.metas && c in u.metas && (id, c) in t.metaParents && u.metas[c].confidence < 0.2
  }

  /** An entry decays to four fifths, but not below 0.1, when it is of the profile, on a level from 1 to the deepest,
      at or above 0.2, and more of its children end the pass below 0.2 than not; every other entry keeps its
      confidence. */
  ghost predicate FollowsPassRule(t: Tables, u: Tables, profile: Id, maxDepth: int, id: Id)
    requires id in t.metas && id in u.metas
  {
    var m := t.metas[id];
    var low, live := |LowChildRows(t, u, id)|, |ChildRows(t, id) - LowChildRows(t, u, id)|;
    u.metas[id].confidence ==
      if m.profile == profile && 1 <= m.depth <= maxDepth && m.confidence >= 0.2 && low > live
      then (if m.confidence * 0.8 < 0.1 then 0.1 else m.confidence * 0.8) else m.confidence
  }

  ghost predicate FollowsPassRules(t: Tables, u: Tables, profile: Id, maxDepth: int) {
    SameShape(t, u) && forall id :: id in t.metas ==> FollowsPassRule(t, u, profile, maxDepth, id)
  }

  lemma ChildRowsAreChildren(t: Tables, id: Id)
    requires Layered(t)
    ensures ChildRows(t, id) == Children(t, id)
  {
    forall c ensures c in ChildRows(t, id) <==> c in Children(t, id) {
      if (id, c) in t.metaParents {
        assert GoodEdge(t, id, c);
        assert (id, c).0 == id && (id, c).1 == c;
      }
    }
  }

  lemma LowRowsAreFinal(t: Tables, u: Tables, profile: Id, maxDepth: int, id: Id)
    requires Layered(t) && SameShape(t, u) && id in t.metas
    requires forall c :: c in LowerChildren(t, id) ==>
               u.metas[c].confidence == CascadeConfidence(t, profile, maxDepth, c)
    ensures LowChildRows(t, u, id) == FinalLow(t, profile, maxDepth, id)
    ensures LowChildRows(t, u, id) <= ChildRows(t, id)
  {
    hide CascadeConfidence, Layered;
    ChildRowsAreChildren(t, id);
    assert LowerChildren(t, id) == ChildRows(t, id);
  }

  lemma MoreLowIffMajority(children: set<Id>, low: set<Id>)
    requires low <= children
    ensures |low| > |children - low| <==> Majority(children, low)
  {
    assert children == low + (children - low);
  }

  lemma RuleIsSpecification(t: Tables, u: Tables, profile: Id, maxDepth: int, id: Id)
    requires Layered(t) && SameShape(t, u) && id in t.metas
    requires forall c :: c in LowerChildren(t, id) ==>
               u.metas[c].confidence == CascadeConfidence(t, profile, maxDepth, c)
    ensures FollowsPassRule(t, u, profile, maxDepth, id)
       <==> u.metas[id].confidence == CascadeConfidence(t, profile, maxDepth, id)
  {
    ChildRowsAreChildren(t, id);
    LowRowsAreFinal(t, u, profile, maxDepth, id);
    MoreLowIffMajority(ChildRows(t, id), LowChildRows(t, u, id));
    hide Layered, LowerChildren, FinalLow, Majority, ChildRows, LowChildRows, Children;
  }

  lemma {:induction false} RulesGiveSpecification(t: Tables, u: Tables, profile: Id, maxDepth: int, id: Id)
    requires Layered(t) && FollowsPassRules(t, u, profile, maxDepth) && id in t.metas
    ensures u.metas[id].confidence == CascadeConfidence(t, profile, maxDepth, id)
    decreases t.metas[id].depth
  {
    forall c | c in LowerChildren(t, id) ensures u.metas[c].confidence == CascadeConfidence(t, profile, maxDepth, c) {
      RulesGiveSpecification(t, u, profile, maxDepth, c);
    }
    hide CascadeConfidence, FollowsPassRule, Layered, LowerChildren;
    RuleIsSpecification(t, u, profile, maxDepth, id);
  }

  /** A pass is determined by the rule, which asks for the confidences its children end with: exactly one state of
      the same entries and edges follows it, the one a pass leaves. */
  lemma PassIffRules(t: Tables, u: Tables, profile: Id, maxDepth: int)
    requires Layered(t)
    ensures FollowsPassRules(t, u, profile, maxDepth) <==> u == CascadePass(t, profile, maxDepth)
  {
    hide CascadeConfidence, FollowsPassRule, Layered, LowerChildren;
    var pass := CascadePass(t, profile, maxDepth);
    forall id | id in t.metas ensures FollowsPassRule(t, pass, profile, maxDepth, id) {
      ChildrenAreEntries(t, id);
      RuleIsSpecification(t, pass, profile, maxDepth, id);
    }
    if FollowsPassRules(t, u, profile, maxDepth) {
      forall id | id in t.metas ensures u.metas[id] == pass.metas[id] {
        RulesGiveSpecification(t, u, profile, maxDepth, id);
      }
      assert u.metas == pass.metas;
    }
  }

  lemma ChildrenAreEntries(t: Tables, id: Id)
    requires Layered(t)
    ensures forall c :: c in LowerChildren(t, id) ==> c in t.metas
  {}
}
