/** Summaries and parents under a clone: copied links stay good, and unique inside every profile. */
module MemoryLinkLaws {
  import opened MemoryTables
  import opened MemoryProfiles
  import opened MemoryLinkage

  /** No row belongs to the profile. */
  ghost predicate Unowned(t: Tables, profile: Id) {
    forall x :: x in t.semantics ==> t.semantics[x].profile != profile
  }

  // ---------- clones ----------

  /** The id of the new profile is fresh, so no row belongs to it yet. */
  lemma CopyIsUnowned(s: Tables, t: Tables, source: Id, copy: Id, f: map<Id, Id>, g: map<Id, Id>, now: int)
    requires OwnersUsed(s) && IsClone(s, t, source, copy, f, g, now)
    ensures Unowned(s, copy)
  {}

  lemma OldLink(edges: set<(Id, Id)>, f: map<Id, Id>, x: Id, m: Id) returns (a: Id)
    requires (x, m) in MapFirst(edges, f)
    ensures (a, m) in edges && a in f && f[a] == x
  {
    var e :| e in edges && e.0 in f && (f[e.0], e.1) == (x, m);
    a := e.0;
    assert e == (a, m);
  }

  lemma OldEdge(edges: set<(Id, Id)>, f: map<Id, Id>, x: Id, y: Id) returns (a: Id, b: Id)
    requires (x, y) in MapEdges(edges, f, f)
    ensures (a, b) in edges && a in f && b in f && f[a] == x && f[b] == y
  {
    var e :| e in edges && e.0 in f && e.1 in f && (f[e.0], f[e.1]) == (x, y);
    a, b := e.0, e.1;
    assert e == (a, b);
  }

  /** A copied row has a fresh id, the new profile, and otherwise the contents of its original. */
  lemma CopyOf(s: Tables, t: Tables, source: Id, copy: Id, f: map<Id, Id>, g: map<Id, Id>, now: int, a: Id)
    requires IdsUsed(s) && IsClone(s, t, source, copy, f, g, now) && a in f
    ensures a in s.semantics && s.semantics[a].profile == source && f[a] !in s.semantics && f[a] in t.semantics
    ensures t.semantics[f[a]] == CloneSemantic(s.semantics[a], copy, now)
    ensures forall b :: b in f && f[b] == f[a] ==> b == a
  {}

  lemma KeptRows(s: Tables, t: Tables, source: Id, copy: Id, f: map<Id, Id>, g: map<Id, Id>, now: int)
    requires Unowned(s, copy) && IsClone(s, t, source, copy, f, g, now)
    ensures forall a :: a in s.semantics ==>
              a in t.semantics && t.semantics[a] == s.semantics[a] && s.semantics[a].profile != copy
    ensures t.messages == s.messages
  {}

  lemma LinkOfClone(s: Tables, t: Tables, source: Id, copy: Id, f: map<Id, Id>, g: map<Id, Id>, now: int, x: Id, m: Id)
    returns (a: Id)
    requires Linkage(s) && IdsUsed(s) && Unowned(s, copy) && IsClone(s, t, source, copy, f, g, now)
    requires (x, m) in t.summaryMessages
    ensures (a, m) in s.summaryMessages && GoodMessageLink(s, a, m) && GoodMessageLink(t, x, m)
    ensures if (x, m) in s.summaryMessages then a == x && t.semantics[x].profile != copy
            else a in f && f[a] == x && s.semantics[a].profile == source && t.semantics[x].profile == copy
  {
    KeptRows(s, t, source, copy, f, g, now);
    if (x, m) in s.summaryMessages {
      a := x;
      assert GoodMessageLink(s, x, m);
    } else {
      a := OldLink(s.summaryMessages, f, x, m);
      assert GoodMessageLink(s, a, m);
      CopyOf(s, t, source, copy, f, g, now, a);
    }
  }

  lemma EdgeOfClone(s: Tables, t: Tables, source: Id, copy: Id, f: map<Id, Id>, g: map<Id, Id>, now: int, x: Id, y: Id)
    returns (a: Id, b: Id)
    requires Linkage(s) && IdsUsed(s) && Unowned(s, copy) && IsClone(s, t, source, copy, f, g, now)
    requires (x, y) in t.summaryParents
    ensures (a, b) in s.summaryParents && GoodSummaryLink(t, x, y)
    ensures if (x, y) in s.summaryParents then a == x && b == y && y in s.semantics
            else a in f && b in f && f[a] == x && f[b] == y && y !in s.semantics
  {
    KeptRows(s, t, source, copy, f, g, now);
    if (x, y) in s.summaryParents {
      a, b := x, y;
      assert GoodSummaryLink(s, x, y);
    } else {
      a, b := OldEdge(s.summaryParents, f, x, y);
      assert GoodSummaryLink(s, a, b);
      CopyOf(s, t, source, copy, f, g, now, a);
      CopyOf(s, t, source, copy, f, g, now, b);
    }
  }

  lemma CloneKeepsLinkage(s: Tables, t: Tables, source: Id, copy: Id, f: map<Id, Id>, g: map<Id, Id>, now: int)
    requires Linkage(s) && IdsUsed(s) && IsClone(s, t, source, copy, f, g, now)
    ensures Linkage(t)
  {
    CopyIsUnowned(s, t, source, copy, f, g, now);
    CloneKeepsIds(s, t, source, copy, f, g, now);
    CloneKeepsOwners(s, t, source, copy, f, g, now);
    hide IsClone, OwnersUsed, IdsUsed, Unowned, GoodMessageLink, GoodSummaryLink;
    forall x, m | (x, m) in t.summaryMessages ensures GoodMessageLink(t, x, m) {
      var a := LinkOfClone(s, t, source, copy, f, g, now, x, m);
    }
    forall p, c | (p, c) in t.summaryParents ensures GoodSummaryLink(t, p, c) {
      var a, b := EdgeOfClone(s, t, source, copy, f, g, now, p, c);
    }
  }

  lemma CloneKeepsOwners(s: Tables, t: Tables, source: Id, copy: Id, f: map<Id, Id>, g: map<Id, Id>, now: int)
    requires OwnersUsed(s) && IsClone(s, t, source, copy, f, g, now)
    ensures OwnersUsed(t)
  {
    hide Injective;
    forall x | x in t.semantics && x !in s.semantics ensures t.semantics[x].profile == copy {
      assert x in f.Values;
      var a :| a in f && f[a] == x;
    }
    forall m | m in t.metas && m !in s.metas ensures t.metas[m].profile == copy {
      assert m in g.Values;
      var a :| a in g && g[a] == m;
    }
  }

  lemma CloneKeepsIds(s: Tables, t: Tables, source: Id, copy: Id, f: map<Id, Id>, g: map<Id, Id>, now: int)
    requires IdsUsed(s) && IsClone(s, t, source, copy, f, g, now)
    ensures forall id :: id in t.semantics ==> id < t.nextId
  {
    forall id | id in t.semantics && id !in s.semantics ensures id < t.nextId {
      assert id in f.Values;
      var a :| a in f && f[a] == id;
    }
  }

  /** A clone gives a message a second summary, but in the copy's profile. */
  lemma CloneKeepsOnePerProfile(s: Tables, t: Tables, source: Id, copy: Id, f: map<Id, Id>, g: map<Id, Id>, now: int)
    requires Linkage(s) && IdsUsed(s) && IsClone(s, t, source, copy, f, g, now) && OnePerProfile(s)
    ensures OnePerProfile(t)
  {
    CopyIsUnowned(s, t, source, copy, f, g, now);
    hide IsClone, Linkage, IdsUsed, Unowned;
    forall x, y, m | (x, m) in t.summaryMessages && (y, m) in t.summaryMessages && SameProfile(t, x, y) ensures x == y {
      var a := LinkOfClone(s, t, source, copy, f, g, now, x, m);
      var b := LinkOfClone(s, t, source, copy, f, g, now, y, m);
      assert SameProfile(s, a, b) by {
        if (x, m) in s.summaryMessages {
          OldProfile(s, t, source, copy, f, g, now, x);
          OldProfile(s, t, source, copy, f, g, now, y);
        }
      }
    }
    forall p, q, c | (p, c) in t.summaryParents && (q, c) in t.summaryParents ensures p == q {
      var a, x := EdgeOfClone(s, t, source, copy, f, g, now, p, c);
      var b, y := EdgeOfClone(s, t, source, copy, f, g, now, q, c);
      SameOriginal(s, t, source, copy, f, g, now, x, y);
    }
  }

  lemma OldProfile(s: Tables, t: Tables, source: Id, copy: Id, f: map<Id, Id>, g: map<Id, Id>, now: int, x: Id)
    requires Unowned(s, copy) && IsClone(s, t, source, copy, f, g, now)
    ensures x in s.semantics ==> x in t.semantics && t.semantics[x] == s.semantics[x]
  {}

  lemma SameOriginal(s: Tables, t: Tables, source: Id, copy: Id, f: map<Id, Id>, g: map<Id, Id>, now: int, x: Id, y: Id)
    requires IsClone(s, t, source, copy, f, g, now)
    ensures x in f && y in f && f[x] == f[y] ==> x == y
  {}

  /** Across profiles a clone keeps "one summary per message" exactly when no summary of the source covers a message. */
  lemma CloneUniqueIff(s: Tables, t: Tables, source: Id, copy: Id, f: map<Id, Id>, g: map<Id, Id>, now: int)
    requires Linkage(s) && IdsUsed(s) && IsClone(s, t, source, copy, f, g, now)
    ensures AtMostOne(t) <==>
              AtMostOne(s) && forall a, m :: (a, m) in s.summaryMessages && a in s.semantics ==>
                                s.semantics[a].profile != source
  {
    CopyIsUnowned(s, t, source, copy, f, g, now);
    if a, m :| (a, m) in s.summaryMessages && a in s.semantics && s.semantics[a].profile == source {
      CopiedLink(s, t, source, copy, f, g, now, a, m);
    } else {
      CloneParentsUnique(s, t, source, copy, f, g, now);
      forall a, b, m | AtMostOne(s) && (a, m) in t.summaryMessages && (b, m) in t.summaryMessages ensures a == b {
        var x := LinkOfClone(s, t, source, copy, f, g, now, a, m);
        var y := LinkOfClone(s, t, source, copy, f, g, now, b, m);
        assert x in s.semantics && y in s.semantics;
      }
      assert s.summaryMessages <= t.summaryMessages && s.summaryParents <= t.summaryParents;
    }
  }

  lemma CopiedLink(s: Tables, t: Tables, source: Id, copy: Id, f: map<Id, Id>, g: map<Id, Id>, now: int, a: Id, m: Id)
    requires IdsUsed(s) && IsClone(s, t, source, copy, f, g, now)
    requires (a, m) in s.summaryMessages && a in s.semantics && s.semantics[a].profile == source
    ensures !AtMostOne(t)
  {
    assert a in f;
    CopyOf(s, t, source, copy, f, g, now, a);
    var e := (a, m);
    assert e in s.summaryMessages && e.0 in f;
    assert (f[a], m) in MapFirst(s.summaryMessages, f);
    assert (a, m) in t.summaryMessages && (f[a], m) in t.summaryMessages;
  }

  lemma CloneParentsUnique(s: Tables, t: Tables, source: Id, copy: Id, f: map<Id, Id>, g: map<Id, Id>, now: int)
    requires Linkage(s) && IdsUsed(s) && IsClone(s, t, source, copy, f, g, now)
    ensures AtMostOne(s) ==> forall p, q, c :: (p, c) in t.summaryParents && (q, c) in t.summaryParents ==> p == q
  {
    CopyIsUnowned(s, t, source, copy, f, g, now);
    hide IsClone, Linkage, IdsUsed, Unowned;
    forall p, q, c | AtMostOne(s) && (p, c) in t.summaryParents && (q, c) in t.summaryParents ensures p == q {
      var a, x := EdgeOfClone(s, t, source, copy, f, g, now, p, c);
      var b, y := EdgeOfClone(s, t, source, copy, f, g, now, q, c);
      SameOriginal(s, t, source, copy, f, g, now, x, y);
    }
  }
}
