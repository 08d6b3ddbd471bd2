/** Repeated cascade passes without new entries: they settle level by level, and how many passes that takes. */
module MemoryStability {
  import opened MemoryTables
  import opened MemoryTrace
  import opened MemoryCascade
  import opened MemoryStatements

  ghost function Passes(t: Tables, profile: Id, maxDepth: int, n: nat): (u: Tables)
    requires Layered(t)
    ensures Layered(u) && SameShape(t, u)
  {
    if n == 0 then t
    else
      var before := Passes(t, profile, maxDepth, n - 1);
      var after := CascadePass(before, profile, maxDepth);
      SameShapeLayered(before, after);
      after
  }

  lemma {:induction false} PassesAdd(t: Tables, profile: Id, maxDepth: int, n: nat, m: nat)
    requires Layered(t)
    ensures Passes(Passes(t, profile, maxDepth, n), profile, maxDepth, m) == Passes(t, profile, maxDepth, n + m)
  {
    hide Layered, CascadePass, SameShape;
    if m != 0 {
      PassesAdd(t, profile, maxDepth, n, m - 1);
      assert n + m - 1 == n + (m - 1);
    }
  }

  /** Another pass leaves every entry of depth at most `d` alone. */
  ghost predicate StableBelow(t: Tables, profile: Id, maxDepth: int, d: int)
    requires Layered(t)
  {
    forall id :: id in t.metas && t.metas[id].depth <= d ==>
      CascadeConfidence(t, profile, maxDepth, id) == t.metas[id].confidence
  }

  /** A pass looks at nothing above the entry: equal confidences up to its depth give equal results. */
  lemma {:induction false} Congruent(t: Tables, u: Tables, profile: Id, maxDepth: int, id: Id)
    requires Layered(t) && Layered(u) && SameShape(t, u) && id in t.metas
    requires forall x :: x in t.metas && t.metas[x].depth <= t.metas[id].depth ==>
               t.metas[x].confidence == u.metas[x].confidence
    ensures CascadeConfidence(t, profile, maxDepth, id) == CascadeConfidence(u, profile, maxDepth, id)
    ensures FinalLow(t, profile, maxDepth, id) == FinalLow(u, profile, maxDepth, id)
    decreases Depth(t, id)
  {
    hide Layered;
    assert u.metas[id] == t.metas[id].(confidence := u.metas[id].confidence);
    forall c | c in LowerChildren(t, id)
      ensures CascadeConfidence(t, profile, maxDepth, c) == CascadeConfidence(u, profile, maxDepth, c)
    {
      Congruent(t, u, profile, maxDepth, c);
    }
    assert LowerChildren(t, id) == LowerChildren(u, id);
    assert FinalLow(t, profile, maxDepth, id) == FinalLow(u, profile, maxDepth, id);
    assert Children(t, id) == Children(u, id);
  }

  lemma StableStays(t: Tables, profile: Id, maxDepth: int, d: int)
    requires Layered(t) && StableBelow(t, profile, maxDepth, d)
    ensures Layered(CascadePass(t, profile, maxDepth))
    ensures StableBelow(CascadePass(t, profile, maxDepth), profile, maxDepth, d)
  {
    var u := CascadePass(t, profile, maxDepth);
    SameShapeLayered(t, u);
    hide Layered, CascadeConfidence, CascadePass;
    forall id | id in t.metas && t.metas[id].depth <= d
      ensures u.metas[id].depth == t.metas[id].depth && u.metas[id].confidence == t.metas[id].confidence
    {
      assert u.metas[id] == t.metas[id].(confidence := u.metas[id].confidence);
      assert Confidence(u, id) == CascadeConfidence(t, profile, maxDepth, id);
    }
    forall id | id in u.metas && u.metas[id].depth <= d
      ensures CascadeConfidence(u, profile, maxDepth, id) == u.metas[id].confidence
    {
      assert u.metas[id] == t.metas[id].(confidence := u.metas[id].confidence);
      Congruent(t, u, profile, maxDepth, id);
    }
  }

  lemma {:induction false} StableStaysLong(t: Tables, profile: Id, maxDepth: int, d: int, n: nat)
    requires Layered(t) && StableBelow(t, profile, maxDepth, d)
    ensures StableBelow(Passes(t, profile, maxDepth, n), profile, maxDepth, d)
  {
    hide Layered, CascadeConfidence, CascadePass, StableBelow;
    if n != 0 {
      StableStaysLong(t, profile, maxDepth, d, n - 1);
      StableStays(Passes(t, profile, maxDepth, n - 1), profile, maxDepth, d);
    }
  }

  // ---------- one level on top of a stable part ----------

  /** The entry is on a level that passes look at, and loses confidence as long as it is above the threshold. */
  ghost predicate Doomed(t: Tables, profile: Id, maxDepth: int, id: Id)
    requires Layered(t) && id in t.metas
  {
    && t.metas[id].profile == profile && 1 <= t.metas[id].depth <= maxDepth
    && Majority(Children(t, id), FinalLow(t, profile, maxDepth, id))
  }

  function DecaySteps(c: real, n: nat): real {
    if n == 0 then c
    else
      var p := DecaySteps(c, n - 1);
      if p >= LOW then ContradictConfidence(p) else p
  }

  lemma PassOnTop(t: Tables, profile: Id, maxDepth: int, id: Id)
    requires Layered(t) && id in t.metas && StableBelow(t, profile, maxDepth, t.metas[id].depth - 1)
    ensures var u := CascadePass(t, profile, maxDepth);
      && Layered(u) && id in u.metas && u.metas[id].depth == t.metas[id].depth
      && (Doomed(u, profile, maxDepth, id) <==> Doomed(t, profile, maxDepth, id))
      && u.metas[id].confidence ==
          var c := t.metas[id].confidence;
          if Doomed(t, profile, maxDepth, id) && c >= LOW then ContradictConfidence(c) else c
  {
    var u := CascadePass(t, profile, maxDepth);
    SameShapeLayered(t, u);
    hide Layered, CascadePass, FinalLow;
    assert u.metas[id] == t.metas[id].(confidence := u.metas[id].confidence);
    assert Confidence(u, id) == CascadeConfidence(t, profile, maxDepth, id);
    SameFinalLow(t, u, profile, maxDepth, id);
  }

  lemma SameFinalLow(t: Tables, u: Tables, profile: Id, maxDepth: int, id: Id)
    requires Layered(t) && Layered(u) && SameShape(t, u) && id in t.metas
    requires StableBelow(t, profile, maxDepth, t.metas[id].depth - 1) && u == CascadePass(t, profile, maxDepth)
    ensures FinalLow(t, profile, maxDepth, id) == FinalLow(u, profile, maxDepth, id)
  {
    hide Layered, CascadePass, CascadeConfidence;
    forall x | x in t.metas && t.metas[x].depth < t.metas[id].depth
      ensures t.metas[x].confidence == u.metas[x].confidence
    {
      assert Confidence(u, x) == CascadeConfidence(t, profile, maxDepth, x);
    }
    assert LowerChildren(t, id) == LowerChildren(u, id);
    forall c | c in LowerChildren(t, id)
      ensures CascadeConfidence(t, profile, maxDepth, c) == CascadeConfidence(u, profile, maxDepth, c)
    {
      Congruent(t, u, profile, maxDepth, c);
    }
  }

  lemma {:induction false} PassesOnTop(t: Tables, profile: Id, maxDepth: int, id: Id, n: nat)
    requires Layered(t) && id in t.metas && StableBelow(t, profile, maxDepth, t.metas[id].depth - 1)
    ensures var u := Passes(t, profile, maxDepth, n);
      && id in u.metas && u.metas[id].depth == t.metas[id].depth
      && (Doomed(u, profile, maxDepth, id) <==> Doomed(t, profile, maxDepth, id))
      && u.metas[id].confidence ==
          if Doomed(t, profile, maxDepth, id) then DecaySteps(t.metas[id].confidence, n) else t.metas[id].confidence
  {
    hide Layered, CascadePass, CascadeConfidence, Doomed, StableBelow, SameShape;
    if n != 0 {
      PassesOnTop(t, profile, maxDepth, id, n - 1);
      StableStaysLong(t, profile, maxDepth, t.metas[id].depth - 1, n - 1);
      PassOnTop(Passes(t, profile, maxDepth, n - 1), profile, maxDepth, id);
    }
  }

  // ---------- how long one entry can decay ----------

  function RealPower(b: real, n: nat): real {
    if n == 0 then 1.0 else b * RealPower(b, n - 1)
  }

  lemma {:induction false} DecayIsGeometric(c: real, n: nat)
    ensures DecaySteps(c, n) < LOW || DecaySteps(c, n) == c * RealPower(0.8, n)
  {
    if n != 0 {
      DecayIsGeometric(c, n - 1);
      assert 0.8 * (c * RealPower(0.8, n - 1)) == c * (0.8 * RealPower(0.8, n - 1));
    }
  }

  lemma {:induction false} RealPowerPositive(n: nat)
    ensures RealPower(0.8, n) > 0.0
  {
    if n != 0 {
      RealPowerPositive(n - 1);
    }
  }

  lemma DecayBelow(c: real, cap: real, n: nat)
    requires c <= cap && cap * RealPower(0.8, n) < LOW
    ensures DecaySteps(c, n) < LOW
  {
    hide RealPower;
    DecayIsGeometric(c, n);
    RealPowerPositive(n);
    assert c * RealPower(0.8, n) <= cap * RealPower(0.8, n);
  }

  // ---------- all levels ----------

  /** Only the entries that passes can decay are bounded: those above depth 0. */
  ghost predicate Capped(t: Tables, profile: Id, cap: real) {
    forall id :: id in t.metas && t.metas[id].profile == profile && t.metas[id].depth >= 1 ==>
      t.metas[id].confidence <= cap
  }

  lemma {:induction false} CappedStays(t: Tables, profile: Id, maxDepth: int, cap: real, n: nat)
    requires Layered(t) && Capped(t, profile, cap)
    ensures Capped(Passes(t, profile, maxDepth, n), profile, cap)
  {
    hide Layered, FinalLow, LowerChildren, SameShape;
    if n != 0 {
      CappedStays(t, profile, maxDepth, cap, n - 1);
      var p := Passes(t, profile, maxDepth, n - 1);
      var u := CascadePass(p, profile, maxDepth);
      forall id | id in u.metas && u.metas[id].profile == profile && u.metas[id].depth >= 1
        ensures u.metas[id].confidence <= cap
      {
        assert Confidence(u, id) == CascadeConfidence(p, profile, maxDepth, id);
        assert ContradictConfidence(p.metas[id].confidence) <= p.metas[id].confidence || p.metas[id].confidence < LOW;
      }
    }
  }

  /** `n` more passes settle one more level. */
  lemma SettleLevel(t: Tables, profile: Id, maxDepth: int, cap: real, n: nat, d: int)
    requires Layered(t) && Capped(t, profile, cap) && cap * RealPower(0.8, n) < LOW
    requires StableBelow(t, profile, maxDepth, d - 1)
    ensures StableBelow(Passes(t, profile, maxDepth, n), profile, maxDepth, d)
  {
    hide Layered, SameShape, RealPower, FinalLow;
    StableStaysLong(t, profile, maxDepth, d - 1, n);
    var u := Passes(t, profile, maxDepth, n);
    SameKeys(t, u);
    forall id | id in u.metas && u.metas[id].depth == d
      ensures CascadeConfidence(u, profile, maxDepth, id) == u.metas[id].confidence
    {
      SameEntry(t, u, id);
      PassesOnTop(t, profile, maxDepth, id, n);
      if Doomed(t, profile, maxDepth, id) {
        DecayBelow(t.metas[id].confidence, cap, n);
      }
    }
  }

  lemma SameKeys(t: Tables, u: Tables)
    requires SameShape(t, u)
    ensures t.metas.Keys == u.metas.Keys
  {}

  lemma SameEntry(t: Tables, u: Tables, id: Id)
    requires SameShape(t, u) && id in u.metas
    ensures id in t.metas && u.metas[id] == t.metas[id].(confidence := u.metas[id].confidence)
  {}

  lemma {:induction false} SettleLevels(t: Tables, profile: Id, maxDepth: int, cap: real, n: nat, d: nat)
    requires Layered(t) && Capped(t, profile, cap) && cap * RealPower(0.8, n) < LOW
    ensures StableBelow(Passes(t, profile, maxDepth, n * d), profile, maxDepth, d)
  {
    hide Layered, SameShape, RealPower, FinalLow, CascadePass, LowerChildren;
    if d == 0 {
      assert n * d == 0;
    } else {
      SettleLevels(t, profile, maxDepth, cap, n, d - 1);
      var m := n * (d - 1);
      assert n * d == m + n;
      CappedStays(t, profile, maxDepth, cap, m);
      SettleLevel(Passes(t, profile, maxDepth, m), profile, maxDepth, cap, n, d);
      PassesAdd(t, profile, maxDepth, m, n);
    }
  }

  /** When confidences start at most at `cap`, and `n` decays bring `cap` below the threshold, `n` passes per
      level settle the whole DAG: from then on passes change nothing. */
  lemma PassesSettle(t: Tables, profile: Id, maxDepth: nat, cap: real, n: nat)
    requires Layered(t) && Capped(t, profile, cap) && cap * RealPower(0.8, n) < LOW
    ensures var u := Passes(t, profile, maxDepth, n * maxDepth); CascadePass(u, profile, maxDepth) == u
  {
    hide Layered, SameShape, RealPower, FinalLow, LowerChildren;
    SettleLevels(t, profile, maxDepth, cap, n, maxDepth);
    var u := Passes(t, profile, maxDepth, n * maxDepth);
    var w := CascadePass(u, profile, maxDepth);
    forall id | id in u.metas ensures w.metas[id] == u.metas[id] {
      SameEntry(u, w, id);
      assert Confidence(w, id) == CascadeConfidence(u, profile, maxDepth, id);
    }
    assert w.metas == u.metas;
  }

  lemma SevenPowers()
    ensures RealPower(0.8, 7) == 0.2097152
  {
    assert RealPower(0.8, 2) == 0.64 && RealPower(0.8, 4) == 0.4096 && RealPower(0.8, 5) == 0.32768;
  }

  /** Seven passes per level settle every state the invariant allows, under every configuration: above depth 0 no
      confidence exceeds 0.95, and seven decays bring that below the threshold. */
  lemma SevenPassesSettle(t: Tables, cfg: ReflectionConfig, profile: Id, maxDepth: nat)
    requires Inv(t, cfg)
    ensures var u := Passes(t, profile, maxDepth, 7 * maxDepth); CascadePass(u, profile, maxDepth) == u
  {
    hide Layered, IdsUsed, CascadePass, RealPower;
    SevenPowers();
    PassesSettle(t, profile, maxDepth, 0.95, 7);
  }
}
