/** What passes of the reflection job do over time: entries are condensed once, rows are drawn on once, and duplicates
    confirm an entry step by step. */
module MemoryReflectionLaws {
  import opened Wrappers
  import opened MemoryTables
  import opened MemoryTrace
  import opened MemoryCascade
  import opened MemoryStatements
  import opened MemoryReflection
  import Personality

  // ---------- condensed once ----------

  /** The entries that got a parent in an attempt. */
  ghost predicate GotParent(a: Attempt, c: Id) {
    exists p :: (p, c) in a.after.metaParents && (p, c) !in a.before.metaParents
  }

  /** The attempt has condensed the entry before the other one begins, with any work of the job in between: the other
      one does not condense it again. */
  lemma CondensedOnce(a: Attempt, b: Attempt, cfg: ReflectionConfig, c: Id)
    requires Effect(a, cfg) && Effect(b, cfg) && a.depth >= 1 && b.depth >= 1 && JobStep(a.after, b.before, cfg)
    ensures !(GotParent(a, c) && GotParent(b, c))
  {
    ParentStays(a, b.before, cfg, c);
    WasWithoutParent(b, cfg, c);
  }

  lemma ParentStays(a: Attempt, t: Tables, cfg: ReflectionConfig, c: Id)
    requires JobStep(a.after, t, cfg)
    ensures GotParent(a, c) ==> !WithoutParent(t, c)
  {
    StepGrows(a.after, t, cfg);
    hide JobStep;
    if GotParent(a, c) {
      var p :| (p, c) in a.after.metaParents;
      assert (p, c) in t.metaParents;
    }
  }

  lemma WasWithoutParent(b: Attempt, cfg: ReflectionConfig, c: Id)
    requires Effect(b, cfg) && b.depth >= 1
    ensures GotParent(b, c) ==> WithoutParent(b.before, c)
  {
    EffectOverEdges(b, cfg);
    hide Effect;
  }

  /** Condensations one after the other, with any work of the job in between. */
  ghost predicate OneAfterAnother(attempts: seq<Attempt>, cfg: ReflectionConfig) {
    && (forall i :: 0 <= i < |attempts| ==> Effect(attempts[i], cfg) && attempts[i].depth >= 1)
    && (forall i, j :: 0 <= i < j < |attempts| ==> JobStep(attempts[i].after, attempts[j].before, cfg))
  }

  /** Over all of them no entry is condensed twice. */
  lemma NeverCondensedTwice(attempts: seq<Attempt>, cfg: ReflectionConfig, i: nat, j: nat, c: Id)
    requires OneAfterAnother(attempts, cfg) && i < j < |attempts|
    ensures !(GotParent(attempts[i], c) && GotParent(attempts[j], c))
  {
    assert Effect(attempts[i], cfg) && Effect(attempts[j], cfg);
    hide Effect, JobStep, GotParent;
    CondensedOnce(attempts[i], attempts[j], cfg, c);
  }

  // ---------- drawn on once ----------

  /** Two generations of one profile, the second since the time the first one recorded, draw on no common row, if the
      rows of the first were created no later than that time. */
  lemma RowsAreDrawnOnce(first: seq<Attempt>, second: seq<Attempt>, since: int, recorded: int, profile: Id, s: Tables,
                         t: Tables, a: Attempt, b: Attempt, x: Id)
    requires DrawOnRecent(first, since, profile, s) && DrawOnRecent(second, recorded, profile, t)
    requires forall y :: y in s.semantics && y in t.semantics ==> t.semantics[y] == s.semantics[y]
    requires forall y :: y in s.semantics && s.semantics[y].profile == profile ==> s.semantics[y].created <= recorded
    requires a in first && b in second
    ensures !(x in a.sources && x in b.sources)
  {
    assert x in a.sources ==> x in s.semantics && s.semantics[x].created <= recorded;
    assert x in b.sources ==> x in t.semantics && t.semantics[x].created > recorded;
  }

  // ---------- duplicates ----------

  /** Confidences of one entry over comparisons with replies that are similar to it. */
  ghost predicate Duplicates(states: seq<Tables>, id: Id) {
    forall i, j :: 0 <= i && j == i + 1 && j < |states| ==> ConfirmedIn(states[i], states[j], id)
  }

  ghost predicate ConfirmedIn(s: Tables, t: Tables, id: Id) {
    exists similarity :: similarity > 0.85 && Compared(s, t, Some(id), similarity)
  }

  lemma OneDuplicate(s: Tables, t: Tables, id: Id)
    requires ConfirmedIn(s, t, id)
    ensures id in s.metas && id in t.metas && t.metas[id] == s.metas[id].(confidence := t.metas[id].confidence)
    ensures var c, d := s.metas[id].confidence, t.metas[id].confidence;
      d == Personality.Grown(c, 1) && (c <= 0.95 ==> c <= d <= 0.95)
  {
    var c := s.metas[id].confidence;
    assert Personality.Power(0) == 1.0 && Personality.Power(1) == 0.9;
    assert 1.0 - (1.0 - c) * 0.9 == c + 0.1 * (1.0 - c);
  }

  /** After `n` duplicates an entry that began at `c` has the confidence min(0.95, 1 - (1 - c) 0.9^n); no duplicate
      lowers it. */
  lemma {:induction false} DuplicatesGrow(states: seq<Tables>, id: Id, n: nat)
    requires Duplicates(states, id) && n < |states| && id in states[0].metas
    requires 0.0 <= states[0].metas[id].confidence <= 0.95
    ensures id in states[n].metas
    ensures states[n].metas[id].confidence == Personality.Grown(states[0].metas[id].confidence, n)
    ensures states[0].metas[id].confidence <= states[n].metas[id].confidence <= 0.95
  {
    if n > 0 {
      var m := n - 1;
      DuplicatesGrow(states, id, m);
      assert ConfirmedIn(states[m], states[n], id);
      OneDuplicate(states[m], states[n], id);
      var c := states[0].metas[id].confidence;
      Personality.GrownStep(c, m);
      hide ConfirmedIn, Duplicates, Compared, Personality.Power;
      GrownOnce(Personality.Grown(c, m));
    }
  }

  lemma GrownOnce(c: real)
    ensures Personality.Grown(c, 1) == ConfirmConfidence(c)
  {
    assert Personality.Power(0) == 1.0 && Personality.Power(1) == 0.9;
    assert 1.0 - (1.0 - c) * 0.9 == c + (1.0 - c) * 0.1;
  }
}
