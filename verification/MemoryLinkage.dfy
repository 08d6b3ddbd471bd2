/** Summaries and their links: what they keep, and the inserts by which a consolidation pass adds them. */
module MemoryLinkage {
  import opened Wrappers
  import opened MemoryTables

  // ---------- what holds at every point ----------

  ghost predicate Linked(t: Tables, m: Id) {
    exists s :: (s, m) in t.summaryMessages
  }

  ghost predicate HasParent(t: Tables, s: Id) {
    exists p :: (p, s) in t.summaryParents
  }

  /** A message link joins a depth-0 summary to a message inside its time range. */
  ghost predicate GoodMessageLink(t: Tables, s: Id, m: Id) {
    && s in t.semantics && t.semantics[s].isSummary && t.semantics[s].depth == 0 && m in t.messages
    && t.semantics[s].earliest <= t.messages[m].timestamp <= t.semantics[s].latest
  }

  /** A condensation link joins a depth-1 summary to a depth-0 summary. */
  ghost predicate GoodSummaryLink(t: Tables, p: Id, c: Id) {
    && p in t.semantics && c in t.semantics && t.semantics[p].isSummary && t.semantics[c].isSummary
    && t.semantics[p].depth == 1 && t.semantics[c].depth == 0
  }

  /** Profile ids of rows and chats have been given out. */
  ghost predicate OwnersUsed(t: Tables) {
    && (forall x :: x in t.semantics ==> t.semantics[x].profile < t.nextId)
    && (forall m :: m in t.metas ==> t.metas[m].profile < t.nextId)
    && (forall c :: c in t.chats ==> t.chats[c] < t.nextId)
  }

  ghost predicate Linkage(t: Tables) {
    && OwnersUsed(t)
    && (forall id :: id in t.semantics ==> id < t.nextId)
    && (forall s, m :: (s, m) in t.summaryMessages ==> GoodMessageLink(t, s, m))
    && (forall p, c :: (p, c) in t.summaryParents ==> GoodSummaryLink(t, p, c))
  }

  /** Each message has at most one depth-0 summary, and each depth-0 summary at most one parent. */
  ghost predicate AtMostOne(t: Tables) {
    && (forall a, b, m :: (a, m) in t.summaryMessages && (b, m) in t.summaryMessages ==> a == b)
    && (forall p, q, c :: (p, c) in t.summaryParents && (q, c) in t.summaryParents ==> p == q)
  }

  ghost predicate SameProfile(t: Tables, a: Id, b: Id) {
    a in t.semantics && b in t.semantics && t.semantics[a].profile == t.semantics[b].profile
  }

  /** The same inside every profile: a deep clone copies the message links, so a message can have a summary per copy. */
  ghost predicate OnePerProfile(t: Tables) {
    && (forall a, b, m :: (a, m) in t.summaryMessages && (b, m) in t.summaryMessages && SameProfile(t, a, b) ==> a == b)
    && (forall p, q, c :: (p, c) in t.summaryParents && (q, c) in t.summaryParents ==> p == q)
  }

  /** The recorded range of a summary is exactly the time range of the messages linked to it. */
  ghost predicate ExactRange(t: Tables, s: Id) {
    && s in t.semantics
    && (exists m :: (s, m) in t.summaryMessages && m in t.messages
          && t.messages[m].timestamp == t.semantics[s].earliest)
    && (exists m :: (s, m) in t.summaryMessages && m in t.messages && t.messages[m].timestamp == t.semantics[s].latest)
    && (forall m :: (s, m) in t.summaryMessages ==>
          m in t.messages && t.semantics[s].earliest <= t.messages[m].timestamp <= t.semantics[s].latest)
  }

  // ---------- statements ----------

  /** The inserts of a pass: a summary or a fact, a link from a summary to a message, a link to a condensed summary. */
  datatype Insertion =
    | InsertRow(row: Semantic)
    | LinkMessage(summary: Id, message: Id)
    | LinkSummary(parent: Id, child: Id)

  function WithSummary(t: Tables, row: Semantic): Tables {
    t.(semantics := t.semantics[t.nextId := row], nextId := t.nextId + 1)
  }

  function WithMessageLink(t: Tables, s: Id, m: Id): Tables {
    t.(summaryMessages := t.summaryMessages + {(s, m)})
  }

  function WithSummaryLink(t: Tables, p: Id, c: Id): Tables {
    t.(summaryParents := t.summaryParents + {(p, c)})
  }

  /** When a pass issues the insert: links go to messages without a summary and to summaries without a parent. */
  ghost predicate MayInsert(t: Tables, i: Insertion) {
    match i
    case InsertRow(row) => row.profile < t.nextId
    case LinkMessage(s, m) => GoodMessageLink(t, s, m) && !Linked(t, m)
    case LinkSummary(p, c) => GoodSummaryLink(t, p, c) && !HasParent(t, c)
  }

  function Inserted(t: Tables, i: Insertion): Tables {
    match i
    case InsertRow(row) => WithSummary(t, row)
    case LinkMessage(s, m) => WithMessageLink(t, s, m)
    case LinkSummary(p, c) => WithSummaryLink(t, p, c)
  }

  /** The inserts, one after the other, lead from `s` to `t`. */
  ghost predicate Inserts(s: Tables, log: seq<Insertion>, t: Tables)
    decreases |log|
  {
    if |log| == 0 then s == t else MayInsert(s, log[0]) && Inserts(Inserted(s, log[0]), log[1..], t)
  }

  ghost predicate ByInserts(s: Tables, t: Tables) {
    exists log :: Inserts(s, log, t)
  }

  lemma {:induction false} InsertsTrans(s: Tables, a: seq<Insertion>, u: Tables, b: seq<Insertion>, t: Tables)
    requires Inserts(s, a, u) && Inserts(u, b, t)
    ensures Inserts(s, a + b, t)
    decreases |a|
  {
    hide MayInsert, Inserted;
    if |a| == 0 {
      assert a + b == b;
    } else {
      InsertsTrans(Inserted(s, a[0]), a[1..], u, b, t);
      assert (a + b)[1..] == a[1..] + b;
    }
  }

  lemma ByInsertsRefl(s: Tables)
    ensures ByInserts(s, s)
  {
    assert Inserts(s, [], s);
  }

  lemma ByInsertsTrans(s: Tables, u: Tables, t: Tables)
    requires ByInserts(s, u) && ByInserts(u, t)
    ensures ByInserts(s, t)
  {
    hide Inserts;
    var a :| Inserts(s, a, u);
    var b :| Inserts(u, b, t);
    InsertsTrans(s, a, u, b, t);
  }

  lemma OneInsert(t: Tables, i: Insertion)
    requires MayInsert(t, i)
    ensures ByInserts(t, Inserted(t, i))
  {
    hide MayInsert, Inserted;
    assert [i][1..] == [];
    assert Inserts(Inserted(t, i), [], Inserted(t, i));
    assert Inserts(t, [i], Inserted(t, i));
  }

  lemma NextInsert(s: Tables, t: Tables, i: Insertion)
    requires ByInserts(s, t) && MayInsert(t, i)
    ensures ByInserts(s, Inserted(t, i))
  {
    hide MayInsert, Inserted, ByInserts;
    OneInsert(t, i);
    ByInsertsTrans(s, t, Inserted(t, i));
  }

  // ---------- what a statement keeps ----------

  lemma InsertKeepsLinkage(t: Tables, i: Insertion)
    requires Linkage(t) && MayInsert(t, i)
    ensures Linkage(Inserted(t, i))
  {
    var u := Inserted(t, i);
    forall s, m | (s, m) in u.summaryMessages ensures GoodMessageLink(u, s, m) {
      assert (s, m) in t.summaryMessages ==> GoodMessageLink(t, s, m);
    }
    forall p, c | (p, c) in u.summaryParents ensures GoodSummaryLink(u, p, c) {
      assert (p, c) in t.summaryParents ==> GoodSummaryLink(t, p, c);
    }
  }

  /** Every single insert keeps one summary per message and one parent per summary. */
  lemma InsertKeepsUniqueness(t: Tables, i: Insertion)
    requires Linkage(t) && MayInsert(t, i)
    ensures AtMostOne(t) ==> AtMostOne(Inserted(t, i))
    ensures OnePerProfile(t) ==> OnePerProfile(Inserted(t, i))
  {
    match i {
      case InsertRow(row) =>
        forall a, b, m | (a, m) in t.summaryMessages && (b, m) in t.summaryMessages
          ensures SameProfile(Inserted(t, i), a, b) <==> SameProfile(t, a, b)
        {
          assert GoodMessageLink(t, a, m) && GoodMessageLink(t, b, m);
        }
      case LinkMessage(s, m) => NewLinkIsOnly(t, s, m);
      case LinkSummary(p, c) => NewParentIsOnly(t, p, c);
    }
  }

  lemma NewLinkIsOnly(t: Tables, s: Id, m: Id)
    requires !Linked(t, m)
    ensures forall a, b, n :: (a, n) in WithMessageLink(t, s, m).summaryMessages
                              && (b, n) in WithMessageLink(t, s, m).summaryMessages ==>
              a == b || ((a, n) in t.summaryMessages && (b, n) in t.summaryMessages)
  {
    assert forall a :: (a, m) !in t.summaryMessages;
  }

  lemma NewParentIsOnly(t: Tables, p: Id, c: Id)
    requires !HasParent(t, c)
    ensures forall a, b, n :: (a, n) in WithSummaryLink(t, p, c).summaryParents
                              && (b, n) in WithSummaryLink(t, p, c).summaryParents ==>
              a == b || ((a, n) in t.summaryParents && (b, n) in t.summaryParents)
  {
    assert forall a :: (a, c) !in t.summaryParents;
  }

  // ---------- what a whole pass does ----------

  /** Rows and links are only added, links only to new summaries, and a new link is the only one of its target. */
  ghost predicate Adds(s: Tables, t: Tables) {
    && t == s.(semantics := t.semantics, summaryMessages := t.summaryMessages, summaryParents := t.summaryParents,
               nextId := t.nextId)
    && s.nextId <= t.nextId
    && (forall id :: id in s.semantics ==> id in t.semantics && t.semantics[id] == s.semantics[id])
    && (forall id :: id in t.semantics && id !in s.semantics ==> s.nextId <= id < t.nextId)
    && LinksGrow(s.semantics.Keys, s.summaryMessages, t.summaryMessages)
    && LinksGrow(s.semantics.Keys, s.summaryParents, t.summaryParents)
  }

  ghost predicate LinksGrow(old_: set<Id>, a: set<(Id, Id)>, b: set<(Id, Id)>) {
    && a <= b
    && (forall x, m :: (x, m) in b && (x, m) !in a ==> x !in old_)
    && (forall x, y, m :: (x, m) in b && (x, m) !in a && (y, m) in b ==> x == y)
  }

  /** What the inserts of a pass have added when it ends or is cut off. */
  ghost predicate Grows(s: Tables, t: Tables) {
    Adds(s, t) && ByInserts(s, t)
  }

  lemma LinksGrowTrans(o: set<Id>, a: set<(Id, Id)>, p: set<Id>, b: set<(Id, Id)>, c: set<(Id, Id)>)
    requires o <= p && LinksGrow(o, a, b) && LinksGrow(p, b, c)
    ensures LinksGrow(o, a, c)
  {}

  lemma GrowsRefl(s: Tables)
    ensures Grows(s, s)
  {
    hide ByInserts;
    ByInsertsRefl(s);
  }

  lemma AddsTrans(s: Tables, u: Tables, t: Tables)
    requires Adds(s, u) && Adds(u, t)
    ensures Adds(s, t)
  {
    LinksGrowTrans(s.semantics.Keys, s.summaryMessages, u.semantics.Keys, u.summaryMessages, t.summaryMessages);
    LinksGrowTrans(s.semantics.Keys, s.summaryParents, u.semantics.Keys, u.summaryParents, t.summaryParents);
    hide LinksGrow;
  }

  lemma GrowsTrans(s: Tables, u: Tables, t: Tables)
    requires Grows(s, u) && Grows(u, t)
    ensures Grows(s, t)
  {
    hide Adds, ByInserts;
    AddsTrans(s, u, t);
    ByInsertsTrans(s, u, t);
  }

  /** Whatever point a pass is cut off at, uniqueness of summaries and parents is kept. */
  lemma GrowthKeepsUniqueness(s: Tables, t: Tables)
    requires Linkage(s) && Grows(s, t)
    ensures AtMostOne(s) ==> AtMostOne(t)
    ensures OnePerProfile(s) ==> OnePerProfile(t)
  {
    forall a, b, m | (a, m) in t.summaryMessages && (b, m) in t.summaryMessages
      && ((a, m) !in s.summaryMessages || (b, m) !in s.summaryMessages)
      ensures a == b
    {}
    forall p, q, c | (p, c) in t.summaryParents && (q, c) in t.summaryParents
      && ((p, c) !in s.summaryParents || (q, c) !in s.summaryParents)
      ensures p == q
    {}
    forall a, m | (a, m) in s.summaryMessages ensures a in s.semantics { assert GoodMessageLink(s, a, m); }
  }

  /** Every link that is new since `s` belongs to a summary whose range is exact. */
  ghost predicate NewLinksExact(s: Tables, t: Tables) {
    forall x, m :: (x, m) in t.summaryMessages && (x, m) !in s.summaryMessages ==> ExactRange(t, x)
  }

  lemma ExactLinksChain(s: Tables, u: Tables, t: Tables)
    requires Grows(s, u) && Grows(u, t) && NewLinksExact(s, u) && NewLinksExact(u, t)
    ensures NewLinksExact(s, t)
  {
    forall x, m | (x, m) in t.summaryMessages && (x, m) !in s.summaryMessages ensures ExactRange(t, x) {
      if (x, m) in u.summaryMessages {
        ExactRangeStays(u, t, x);
      }
    }
  }

  lemma ExactRangeStays(u: Tables, t: Tables, x: Id)
    requires Grows(u, t) && ExactRange(u, x)
    ensures ExactRange(t, x)
  {
    assert forall m :: (x, m) in t.summaryMessages ==> (x, m) in u.summaryMessages;
    var a :| (x, a) in u.summaryMessages && a in u.messages && u.messages[a].timestamp == u.semantics[x].earliest;
    var b :| (x, b) in u.summaryMessages && b in u.messages && u.messages[b].timestamp == u.semantics[x].latest;
    assert (x, a) in t.summaryMessages && (x, b) in t.summaryMessages;
  }

  lemma StaysLinked(u: Tables, t: Tables, m: Id)
    requires Linked(u, m) && u.summaryMessages <= t.summaryMessages
    ensures Linked(t, m)
  {
    var x :| (x, m) in u.summaryMessages;
    assert (x, m) in t.summaryMessages;
  }

  // ---------- elementary inserts ----------

  lemma NewRow(t: Tables, row: Semantic)
    requires Linkage(t) && row.profile < t.nextId
    ensures Linkage(WithSummary(t, row)) && Grows(t, WithSummary(t, row)) && t.nextId !in t.semantics
    ensures forall x, m :: (x, m) in t.summaryMessages ==> x != t.nextId
    ensures forall x, m :: (x, m) in t.summaryParents ==> x != t.nextId && m != t.nextId
  {
    InsertKeepsLinkage(t, InsertRow(row));
    OneInsert(t, InsertRow(row));
    hide ByInserts;
    forall x, m | (x, m) in t.summaryMessages ensures x != t.nextId { assert GoodMessageLink(t, x, m); }
    forall x, m | (x, m) in t.summaryParents ensures x != t.nextId && m != t.nextId { assert GoodSummaryLink(t, x, m); }
  }
}
