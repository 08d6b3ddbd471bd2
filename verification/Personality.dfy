/** Personality dimensions: each observation replaces the content, counts as evidence and raises the confidence. */
module Personality {
  import opened Wrappers
  import opened MemoryTables
  import opened MemoryCascade

  type Dimension = string

  datatype PersonalitySource = Declared | Onboarding | Inferred

  /** Entries about the user also record where the last observation came from. */
  datatype Entry = Entry(content: string, source: Option<PersonalitySource>, confidence: real, evidenceCount: nat)

  datatype AgentKey = AgentKey(profile: Id, dimension: Dimension)

  function Confirmed(e: Entry, content: string, source: Option<PersonalitySource>): Entry {
    Entry(content, source, ConfirmConfidence(e.confidence), e.evidenceCount + 1)
  }

  /** What an observation makes of the rows. */
  function Observed<K>(rows: map<K, Entry>, key: K, content: string, source: Option<PersonalitySource>,
                       initial: real): map<K, Entry> {
    rows[key := if key in rows then Confirmed(rows[key], content, source) else Entry(content, source, initial, 1)]
  }

  /** A later observation: new content and source, one more piece of evidence, and a tenth of the missing confidence
      up to 0.95. */
  function Again(e: Entry, content: string, source: Option<PersonalitySource>): Entry {
    var c := e.confidence + 0.1 * (1.0 - e.confidence);
    Entry(content, source, if c > 0.95 then 0.95 else c, e.evidenceCount + 1)
  }

  function InitialConfidence(source: PersonalitySource): real {
    if source == Declared || source == Onboarding then 0.7 else 0.3
  }

  class IdentityManager {
    var agentPersonality: map<AgentKey, Entry>
    var userPersonality: map<Dimension, Entry>

    constructor ()
      ensures agentPersonality == map[] && userPersonality == map[]
    {
      agentPersonality, userPersonality := map[], map[];
    }

    method ObserveAgentPersonality(profile: Id, dimension: Dimension, content: string) returns (e: Entry)
      modifies this`agentPersonality
      ensures agentPersonality == Observed(old(agentPersonality), AgentKey(profile, dimension), content, None, 0.8)
      ensures e == if AgentKey(profile, dimension) in old(agentPersonality)
                   then Again(old(agentPersonality)[AgentKey(profile, dimension)], content, None)
                   else Entry(content, None, 0.8, 1)
      ensures e == agentPersonality[AgentKey(profile, dimension)]
    {
      var key := AgentKey(profile, dimension);
      if key in agentPersonality {
        var existing := agentPersonality[key];
        e := Entry(content, None, ConfirmConfidence(existing.confidence), existing.evidenceCount + 1);
      } else {
        e := Entry(content, None, 0.8, 1);
      }
      agentPersonality := agentPersonality[key := e];
    }

    method DeleteAgentPersonality(profile: Id, dimension: Dimension) returns (found: bool)
      modifies this`agentPersonality
      ensures agentPersonality == old(agentPersonality) - {AgentKey(profile, dimension)}
      ensures found <==> AgentKey(profile, dimension) in old(agentPersonality)
    {
      var key := AgentKey(profile, dimension);
      found := key in agentPersonality;
      agentPersonality := agentPersonality - {key};
    }

    method ObserveUserPersonality(dimension: Dimension, content: string, source: PersonalitySource) returns (e: Entry)
      modifies this`userPersonality
      ensures userPersonality == Observed(old(userPersonality), dimension, content, Some(source),
                                          InitialConfidence(source))
      ensures e == if dimension in old(userPersonality) then Again(old(userPersonality)[dimension], content,
                                                                   Some(source))
                   else Entry(content, Some(source), if source == Inferred then 0.3 else 0.7, 1)
      ensures e == userPersonality[dimension]
    {
      if dimension in userPersonality {
        var existing := userPersonality[dimension];
        e := Entry(content, Some(source), ConfirmConfidence(existing.confidence), existing.evidenceCount + 1);
      } else {
        e := Entry(content, Some(source), InitialConfidence(source), 1);
      }
      userPersonality := userPersonality[dimension := e];
    }
  }

  // ---------- histories ----------

  datatype Op<K> = Observe(key: K, content: string, source: Option<PersonalitySource>, initial: real) | Delete(key: K)

  function After<K>(ops: seq<Op<K>>): map<K, Entry> {
    if |ops| == 0 then map[]
    else
      var before, op := After(ops[..|ops| - 1]), ops[|ops| - 1];
      if op.Observe? then Observed(before, op.key, op.content, op.source, op.initial) else before - {op.key}
  }

  /** The observations of a key since it was last deleted, in order. */
  function Since<K(==)>(ops: seq<Op<K>>, key: K): (r: seq<Op<K>>)
    ensures forall i :: 0 <= i < |r| ==> r[i].Observe?
  {
    if |ops| == 0 then []
    else
      var before, op := Since(ops[..|ops| - 1], key), ops[|ops| - 1];
      if op.key != key then before else if op.Observe? then before + [op] else []
  }

  function Power(n: nat): (r: real)
    ensures 0.0 < r <= 1.0
  {
    if n == 0 then 1.0 else 0.9 * Power(n - 1)
  }

  /** The confidence after a first observation and `n` more: asymptotic growth, capped at 0.95. */
  function Grown(initial: real, n: nat): real {
    if n == 0 then initial else MinReal(0.95, 1.0 - (1.0 - initial) * Power(n))
  }

  lemma GrownStep(initial: real, n: nat)
    requires 0.0 <= initial <= 0.95
    ensures ConfirmConfidence(Grown(initial, n)) == Grown(initial, n + 1)
    ensures Grown(initial, n) <= Grown(initial, n + 1) <= 0.95
  {
    var gap := (1.0 - initial) * Power(n);
    assert (1.0 - initial) * Power(n + 1) == 0.9 * gap;
    assert n == 0 ==> gap == 1.0 - initial;
    assert gap >= 0.0;
  }

  ghost predicate FairStart<K(!new)>(ops: seq<Op<K>>) {
    forall i :: 0 <= i < |ops| && ops[i].Observe? ==> 0.0 <= ops[i].initial <= 0.95
  }

  function EntryOf<K>(seen: seq<Op<K>>): Entry
    requires |seen| > 0 && seen[|seen| - 1].Observe? && seen[0].Observe?
  {
    Entry(seen[|seen| - 1].content, seen[|seen| - 1].source, Grown(seen[0].initial, |seen| - 1), |seen|)
  }

  /** After any history a dimension holds the content and source last observed, the number of observations since its
      last delete, and exactly the confidence that this number gives. */
  lemma {:induction false} EntryIsHistory<K(!new)>(ops: seq<Op<K>>, key: K)
    requires FairStart(ops)
    ensures key in After(ops) <==> |Since(ops, key)| > 0
    ensures |Since(ops, key)| > 0 ==>
              0.0 <= Since(ops, key)[0].initial <= 0.95 && After(ops)[key] == EntryOf(Since(ops, key))
  {
    if |ops| > 0 {
      var before, op := ops[..|ops| - 1], ops[|ops| - 1];
      EntryIsHistory(before, key);
      var seen := Since(before, key);
      if op.key == key && op.Observe? && |seen| > 0 {
        GrownStep(seen[0].initial, |seen| - 1);
      }
    }
  }
}
