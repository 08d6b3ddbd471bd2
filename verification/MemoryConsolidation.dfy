/** The consolidation job: messages of ended sessions are summarised in chunks, summaries are condensed.
    Every awaited call can fail; a failure ends the pass where it stands. */
module MemoryConsolidation {
  import opened Numbers
  import opened Sets
  import opened Wrappers
  import opened MemoryTables
  import opened MemoryTrace
  import opened MemoryLinkage

  datatype ConsolidationConfig = ConsolidationConfig(minUnconsolidatedMessages: int, chunkSize: nat,
                                                     consolidationThreshold: int)

  // ---------- queries ----------

  ghost predicate Ascending(rows: seq<Id>, key: map<Id, int>) {
    forall i, j :: 0 <= i < j < |rows| ==> rows[i] in key && rows[j] in key && key[rows[i]] <= key[rows[j]]
  }

  /** The rows of a set in ascending order of a key. */
  method OrderBy(s: set<Id>, key: map<Id, int>) returns (rows: seq<Id>)
    requires s <= key.Keys
    ensures NoDuplicates(rows) && (forall x :: x in rows <==> x in s) && |rows| == |s|
    ensures Ascending(rows, key)
  {
    rows := [];
    var rest := s;
    while rest != {}
      invariant rest <= s && NoDuplicates(rows) && |rows| + |rest| == |s|
      invariant forall x :: x in s <==> x in rows || x in rest
      invariant forall x :: x in rows ==> x !in rest && forall y :: y in rest ==> key[x] <= key[y]
      invariant Ascending(rows, key)
      decreases |rest|
    {
      LeastExists(rest, key);
      var x :| x in rest && forall y :: y in rest ==> key[x] <= key[y];
      rows := rows + [x];
      rest := rest - {x};
    }
  }

  lemma {:induction false} LeastExists(s: set<Id>, key: map<Id, int>)
    requires s != {} && s <= key.Keys
    ensures exists x :: x in s && forall y :: y in s ==> key[x] <= key[y]
    decreases |s|
  {
    var z :| z in s;
    var r := s - {z};
    if r != {} {
      LeastExists(r, key);
      var x :| x in r && forall y :: y in r ==> key[x] <= key[y];
      if key[z] <= key[x] {
        assert forall y :: y in s ==> y == z || y in r;
      } else {
        assert forall y :: y in s ==> y == z || y in r;
      }
    } else {
      assert s == {z};
    }
  }

  function Flatten<T>(chunks: seq<seq<T>>): seq<T> {
    if |chunks| == 0 then [] else Flatten(chunks[..|chunks| - 1]) + chunks[|chunks| - 1]
  }

  /** Cuts a list into consecutive chunks of the given size; only the last may be shorter. */
  method ChunkArray<T>(arr: seq<T>, size: nat) returns (chunks: seq<seq<T>>)
    requires size >= 1
    ensures Flatten(chunks) == arr
    ensures forall k :: 0 <= k < |chunks| ==> 1 <= |chunks[k]| <= size
    ensures forall k :: 0 <= k < |chunks| - 1 ==> |chunks[k]| == size
  {
    chunks := [];
    var i := 0;
    while i < |arr|
      invariant 0 <= i && (i <= |arr| || (|chunks| > 0 && i < |arr| + size))
      invariant Flatten(chunks) == arr[..if i < |arr| then i else |arr|]
      invariant forall k :: 0 <= k < |chunks| ==> 1 <= |chunks[k]| <= size
      invariant forall k :: 0 <= k < |chunks| - 1 ==> |chunks[k]| == size
      invariant i < |arr| && |chunks| > 0 ==> |chunks[|chunks| - 1]| == size
    {
      ghost var before := chunks;
      var end := if i + size < |arr| then i + size else |arr|;
      chunks := chunks + [arr[i..end]];
      assert chunks[..|chunks| - 1] == before;
      i := i + size;
    }
  }

  lemma {:induction false} ChunkIsSlice<T>(chunks: seq<seq<T>>, k: nat)
    requires k < |chunks|
    ensures Flatten(chunks[..k]) + chunks[k] <= Flatten(chunks)
    ensures Flatten(chunks[..k + 1]) == Flatten(chunks[..k]) + chunks[k]
  {
    var n := |chunks| - 1;
    assert chunks[..k + 1][..k] == chunks[..k];
    if k < n {
      ChunkIsSlice(chunks[..n], k);
      assert chunks[..n][..k] == chunks[..k];
    }
  }

  // ---------- the job ----------

  /** Messages of a session that no summary covers yet. */
  function Unlinked(t: Tables, session: Id): set<Id> {
    var linked := set e | e in t.summaryMessages :: e.1;
    set m | m in t.messages && t.messages[m].session == Some(session) && m !in linked
  }

  function Timestamps(t: Tables): map<Id, int> {
    map m | m in t.messages :: t.messages[m].timestamp
  }

  /** What is true of the links of a summary being built from a chunk. */
  ghost predicate LinksOf(t: Tables, s: Id, ms: seq<Id>) {
    forall m :: (s, m) in t.summaryMessages <==> m in ms
  }

  ghost predicate InOrder(t: Tables, ms: seq<Id>) {
    forall i, j :: 0 <= i < j < |ms| ==> NoLater(t, ms[i], ms[j])
  }

  predicate NoLater(t: Tables, a: Id, b: Id) {
    a in t.messages && b in t.messages && t.messages[a].timestamp <= t.messages[b].timestamp
  }

  lemma ReadyToLink(t: Tables, row: Semantic, chunk: seq<Id>)
    requires Linkage(t) && row.isSummary && row.depth == 0 && row.profile < t.nextId && |chunk| >= 1
    requires InOrder(t, chunk)
    requires forall m :: m in chunk ==> m in t.messages
    requires row.earliest == t.messages[chunk[0]].timestamp && row.latest == t.messages[chunk[|chunk| - 1]].timestamp
    ensures LinksOf(WithSummary(t, row), t.nextId, [])
    ensures forall m :: m in chunk ==> GoodMessageLink(WithSummary(t, row), t.nextId, m)
  {
    NewRow(t, row);
    hide Linkage, Grows, Linked;
    forall m | m in chunk ensures GoodMessageLink(WithSummary(t, row), t.nextId, m) {
      var i :| 0 <= i < |chunk| && chunk[i] == m;
      assert i > 0 ==> NoLater(t, chunk[0], chunk[i]);
      assert i < |chunk| - 1 ==> NoLater(t, chunk[i], chunk[|chunk| - 1]);
    }
  }

  lemma StillUnlinked(s: Tables, t: Tables, chunk: seq<Id>)
    requires t.summaryMessages == s.summaryMessages && forall m :: m in chunk ==> !Linked(s, m)
    ensures forall m :: m in chunk ==> !Linked(t, m)
  {
    forall m | m in chunk ensures !Linked(t, m) {
      assert !Linked(s, m);
    }
  }

  lemma ProfileOfChat(t: Tables, chat: Id)
    requires Linkage(t) && chat in t.chats
    ensures t.chats[chat] < t.nextId
  {}

  lemma NextIdGrows(s: Tables, t: Tables)
    requires Grows(s, t)
    ensures s.nextId <= t.nextId
  {}

  lemma GrowsByLinks(s: Tables, u: Tables, t: Tables, summary: Id, chunk: seq<Id>)
    requires Grows(s, u) && summary !in s.semantics && u.summaryMessages == s.summaryMessages
    requires t == u.(summaryMessages := t.summaryMessages) && u.summaryMessages <= t.summaryMessages
    requires forall x, m :: (x, m) in t.summaryMessages && (x, m) !in u.summaryMessages ==> x == summary && m in chunk
    requires ByInserts(u, t) && forall m :: m in chunk ==> !Linked(s, m)
    ensures Grows(s, t)
  {
    ByInsertsTrans(s, u, t);
    hide ByInserts;
    forall x, m | (x, m) in s.summaryMessages ensures m !in chunk { assert Linked(s, m); }
  }

  /** The next message of the chunk is not linked yet, so its link may be inserted. */
  lemma NextLink(s: Tables, t: Tables, summary: Id, done: seq<Id>, m: Id)
    requires Linkage(t) && ByInserts(s, t) && t == s.(summaryMessages := t.summaryMessages)
    requires forall x, n :: (x, n) in t.summaryMessages && (x, n) !in s.summaryMessages ==> x == summary && n in done
    requires GoodMessageLink(s, summary, m) && !Linked(s, m) && m !in done
    ensures Linkage(WithMessageLink(t, summary, m)) && ByInserts(s, WithMessageLink(t, summary, m))
  {
    hide Linkage, ByInserts;
    assert !Linked(t, m) by {
      forall x ensures (x, m) !in t.summaryMessages {}
    }
    InsertKeepsLinkage(t, LinkMessage(summary, m));
    NextInsert(s, t, LinkMessage(summary, m));
  }

  /** The next open summary has no parent yet. */
  lemma NextChild(s: Tables, t: Tables, parent: Id, done: seq<Id>, c: Id)
    requires Linkage(t) && ByInserts(s, t) && t == s.(summaryParents := t.summaryParents)
    requires forall p, x :: (p, x) in t.summaryParents && (p, x) !in s.summaryParents ==> p == parent && x in done
    requires GoodSummaryLink(s, parent, c) && !HasParent(s, c) && c !in done
    ensures Linkage(WithSummaryLink(t, parent, c)) && ByInserts(s, WithSummaryLink(t, parent, c))
  {
    hide Linkage, ByInserts;
    assert !HasParent(t, c) by {
      forall p ensures (p, c) !in t.summaryParents {}
    }
    InsertKeepsLinkage(t, LinkSummary(parent, c));
    NextInsert(s, t, LinkSummary(parent, c));
  }

  /** The first and last message of an ordered chunk are its exact time range. */
  lemma ChunkRange(s: Tables, t: Tables, row: Semantic, chunk: seq<Id>)
    requires |chunk| >= 1 && LinksOf(t, s.nextId, chunk) && t.messages == s.messages
    requires s.nextId in t.semantics && t.semantics[s.nextId] == row
    requires forall m :: m in chunk ==> m in s.messages
    requires InOrder(s, chunk)
    requires row.earliest == s.messages[chunk[0]].timestamp && row.latest == s.messages[chunk[|chunk| - 1]].timestamp
    ensures ExactRange(t, s.nextId) && forall m :: m in chunk ==> Linked(t, m)
  {
    assert chunk[0] in chunk && chunk[|chunk| - 1] in chunk;
    assert (s.nextId, chunk[0]) in t.summaryMessages && (s.nextId, chunk[|chunk| - 1]) in t.summaryMessages;
  }

  lemma FactsKeepLinks(s: Tables, u: Tables, t: Tables, chunk: seq<Id>)
    requires Grows(u, t) && t == u.(semantics := t.semantics, nextId := t.nextId) && s.nextId in u.semantics
    requires ExactRange(u, s.nextId) && forall m :: m in chunk ==> Linked(u, m)
    requires forall x, m :: (x, m) in u.summaryMessages && (x, m) !in s.summaryMessages ==> x == s.nextId
    ensures NewLinksExact(s, t) && forall m :: m in chunk ==> Linked(t, m)
  {
    forall m | m in chunk ensures Linked(t, m) {
      assert Linked(u, m);
    }
  }

  // ---------- what a pass achieves ----------

  /** Every message of the session has a summary. */
  ghost predicate SessionCovered(t: Tables, session: Id) {
    forall m :: m in t.messages && t.messages[m].session == Some(session) ==> Linked(t, m)
  }

  predicate Ended(t: Tables, session: Id) {
    session in t.sessions && t.sessions[session].ended
  }

  ghost predicate AllEndedCovered(t: Tables) {
    forall session :: Ended(t, session) ==> SessionCovered(t, session)
  }

  /** The ended sessions with a message no summary covers. */
  function OpenSessions(t: Tables): set<Id> {
    set s | s in t.sessions && t.sessions[s].ended && Unlinked(t, s) != {}
  }

  /** The messages of ended sessions none of whose messages is covered. */
  function Unconsolidated(t: Tables): set<Id> {
    var linked := set e | e in t.summaryMessages :: e.1;
    var touched := set m | m in linked && m in t.messages :: t.messages[m].session;
    set m | m in t.messages && t.messages[m].session.Some? && Ended(t, t.messages[m].session.value)
      && t.messages[m].session !in touched
  }

  /** The depth-0 summaries of a session that have no parent. */
  function OpenSummaries(t: Tables, session: Id): set<Id> {
    var condensed := set e | e in t.summaryParents :: e.1;
    set s | s in t.semantics && t.semantics[s].isSummary && t.semantics[s].depth == 0
      && t.semantics[s].session == Some(session)
      && s !in condensed
  }

  function OpenOfChat(t: Tables, chat: Id): set<Id> {
    set session, s | session in t.sessions && t.sessions[session].chat == chat && s in OpenSummaries(t, session) :: s
  }

  function Earliest(t: Tables): map<Id, int> {
    map s | s in t.semantics :: t.semantics[s].earliest
  }

  function Candidates(t: Tables, threshold: int): set<Id> {
    set session | session in t.sessions && |OpenSummaries(t, session)| >= AtLeastOne(threshold)
  }

  /** No session is left with enough open summaries to condense. */
  ghost predicate Condensed(t: Tables, threshold: int) {
    forall session :: session in t.sessions ==> |OpenRows(t, session)| < AtLeastOne(threshold)
  }

  // ---------- the same, said over the tables ----------

  /** An ended session with a message that no summary covers. */
  lemma OpenSessionIff(t: Tables, session: Id)
    ensures session in OpenSessions(t) <==>
      Ended(t, session) && exists m :: m in t.messages && t.messages[m].session == Some(session) && !Linked(t, m)
  {
    forall m | m in t.messages && t.messages[m].session == Some(session)
      ensures m in Unlinked(t, session) <==> !Linked(t, m)
    {
      UnlinkedIsNotLinked(t, session, m);
    }
    if session in OpenSessions(t) {
      var m :| m in Unlinked(t, session);
      UnlinkedIsNotLinked(t, session, m);
    }
  }

  /** A message of an ended session none of whose messages has a summary. */
  lemma UnconsolidatedIff(t: Tables, m: Id)
    ensures m in Unconsolidated(t) <==>
      && m in t.messages && t.messages[m].session.Some? && Ended(t, t.messages[m].session.value)
      && forall n :: n in t.messages && t.messages[n].session == t.messages[m].session ==> !Linked(t, n)
  {
    forall n | n in t.messages ensures Linked(t, n) <==> exists e :: e in t.summaryMessages && e.1 == n {
      if Linked(t, n) {
        var x :| (x, n) in t.summaryMessages;
        assert (x, n).1 == n;
      }
      if e :| e in t.summaryMessages && e.1 == n {
        assert (e.0, n) in t.summaryMessages;
      }
    }
  }

  /** The summary comes from a session of the chat. */
  ghost predicate OfChat(t: Tables, chat: Id, c: Id) {
    && c in t.semantics && t.semantics[c].session.Some? && t.semantics[c].session.value in t.sessions
    && t.sessions[t.semantics[c].session.value].chat == chat
  }

  ghost predicate IsOpenSummary(t: Tables, c: Id) {
    c in t.semantics && t.semantics[c].isSummary && t.semantics[c].depth == 0 && !HasParent(t, c)
  }

  ghost function OpenRows(t: Tables, session: Id): set<Id> {
    set c | c in t.semantics && t.semantics[c].session == Some(session) && IsOpenSummary(t, c)
  }

  ghost function OpenRowsOfChat(t: Tables, chat: Id): set<Id> {
    set c | c in t.semantics && OfChat(t, chat, c) && IsOpenSummary(t, c)
  }

  lemma OpenSummariesAreRows(t: Tables, session: Id)
    ensures OpenSummaries(t, session) == OpenRows(t, session)
  {
    forall c ensures c in OpenSummaries(t, session) <==> c in OpenRows(t, session) {
      if HasParent(t, c) {
        var p :| (p, c) in t.summaryParents;
        assert (p, c).1 == c;
      }
      if e :| e in t.summaryParents && e.1 == c {
        assert (e.0, c) in t.summaryParents;
      }
    }
  }

  lemma OpenOfChatAreRows(t: Tables, chat: Id)
    ensures OpenOfChat(t, chat) == OpenRowsOfChat(t, chat)
  {
    forall session ensures OpenSummaries(t, session) == OpenRows(t, session) {
      OpenSummariesAreRows(t, session);
    }
    hide OpenSummaries, IsOpenSummary;
    forall c ensures c in OpenOfChat(t, chat) <==> c in OpenRowsOfChat(t, chat) {
      if c in OpenRowsOfChat(t, chat) {
        var session := t.semantics[c].session.value;
        assert session in t.sessions && c in OpenRows(t, session);
      }
    }
  }

  // ---------- whose rows and links they are ----------

  /** Every new row is of this session and profile, and every new link leads from one of them to a message of the
      session. */
  ghost predicate OnlyOfSession(s: Tables, t: Tables, session: Id, profile: Id) {
    && (forall x :: x in t.semantics && x !in s.semantics ==>
          t.semantics[x].session == Some(session) && t.semantics[x].profile == profile && t.semantics[x].depth == 0)
    && (forall x, m :: (x, m) in t.summaryMessages && (x, m) !in s.summaryMessages ==>
          x !in s.semantics && x in t.semantics && m in t.messages && t.messages[m].session == Some(session))
  }

  lemma OnlyOfSessionRefl(s: Tables, session: Id, profile: Id)
    ensures OnlyOfSession(s, s, session, profile)
  {}

  lemma OnlyOfSessionTrans(s: Tables, u: Tables, t: Tables, session: Id, profile: Id)
    requires Grows(s, u) && Grows(u, t) && OnlyOfSession(s, u, session, profile)
    requires OnlyOfSession(u, t, session, profile)
    ensures OnlyOfSession(s, t, session, profile)
  {
    hide ByInserts, LinksGrow;
  }

  lemma SummaryOfSession(s: Tables, t: Tables, row: Semantic, chunk: seq<Id>, session: Id)
    requires s.nextId !in s.semantics && row.session == Some(session) && row.depth == 0
    requires t == WithSummary(s, row).(summaryMessages := t.summaryMessages)
    requires forall x, m :: (x, m) in t.summaryMessages && (x, m) !in s.summaryMessages ==> x == s.nextId && m in chunk
    requires forall m :: m in chunk ==> m in s.messages && s.messages[m].session == Some(session)
    ensures OnlyOfSession(s, t, session, row.profile)
  {}

  lemma FactsOfSession(s: Tables, t: Tables, session: Id, profile: Id)
    requires t == s.(semantics := t.semantics, nextId := t.nextId)
    requires forall x :: x in t.semantics && x !in s.semantics ==>
               t.semantics[x].session == Some(session) && t.semantics[x].profile == profile && t.semantics[x].depth == 0
    ensures OnlyOfSession(s, t, session, profile)
  {}

  /** The row belongs to an ended session and to the profile of that session's chat. */
  ghost predicate RightfulRow(t: Tables, x: Id) {
    && x in t.semantics && t.semantics[x].session.Some? && Ended(t, t.semantics[x].session.value)
    && var chat := t.sessions[t.semantics[x].session.value].chat;
       chat in t.chats && t.semantics[x].profile == t.chats[chat]
  }

  /** Every new row of depth 0 is rightful, and every new link leads from a new row to a message of its own session. */
  ghost predicate Rightful(s: Tables, t: Tables) {
    && (forall x :: x in t.semantics && x !in s.semantics && t.semantics[x].depth == 0 ==> RightfulRow(t, x))
    && (forall x, m :: (x, m) in t.summaryMessages && (x, m) !in s.summaryMessages ==>
          && x !in s.semantics && x in t.semantics && m in t.messages
          && t.messages[m].session == t.semantics[x].session)
  }

  lemma RightfulRefl(s: Tables)
    ensures Rightful(s, s)
  {}

  lemma RightfulTrans(s: Tables, u: Tables, t: Tables)
    requires Grows(s, u) && Grows(u, t) && Rightful(s, u) && Rightful(u, t)
    ensures Rightful(s, t)
  {
    hide ByInserts, LinksGrow;
    forall x | x in t.semantics && x !in s.semantics && t.semantics[x].depth == 0 ensures RightfulRow(t, x) {
      assert x in u.semantics ==> RightfulRow(u, x);
    }
  }

  lemma SessionIsRightful(s: Tables, t: Tables, session: Id)
    requires Grows(s, t) && Ended(s, session)
    requires s.sessions[session].chat in s.chats ==> OnlyOfSession(s, t, session, s.chats[s.sessions[session].chat])
    requires s.sessions[session].chat !in s.chats ==> t == s
    ensures Rightful(s, t)
  {
    hide ByInserts, LinksGrow;
  }

  /** The depth-1 summary is of the profile of the chat, and everything it condenses is of the chat. */
  ghost predicate FromChat(t: Tables, p: Id, chat: Id) {
    && p in t.semantics && t.semantics[p].depth == 1 && chat in t.chats && t.semantics[p].profile == t.chats[chat]
    && forall c :: (p, c) in t.summaryParents ==> OfChat(t, chat, c)
  }

  ghost predicate ParentsFromChat(s: Tables, t: Tables, chat: Id) {
    forall p, c :: (p, c) in t.summaryParents && (p, c) !in s.summaryParents ==>
      p !in s.semantics && FromChat(t, p, chat)
  }

  /** The chat has a session that held enough open summaries. */
  ghost predicate ReadyParent(s: Tables, t: Tables, p: Id, threshold: int) {
    exists session :: session in s.sessions && |OpenRows(s, session)| >= AtLeastOne(threshold)
      && FromChat(t, p, s.sessions[session].chat)
  }

  ghost predicate ParentsReady(s: Tables, t: Tables, threshold: int) {
    forall p, c :: (p, c) in t.summaryParents && (p, c) !in s.summaryParents ==>
      p !in s.semantics && ReadyParent(s, t, p, threshold)
  }

  /** What a new depth-1 summary condenses all belongs to one chat, and the summary to that chat's profile. */
  ghost predicate ParentsOfOneChat(s: Tables, t: Tables) {
    forall p, c :: (p, c) in t.summaryParents && (p, c) !in s.summaryParents ==>
      p !in s.semantics && exists chat :: FromChat(t, p, chat)
  }

  lemma FromChatStays(u: Tables, t: Tables, p: Id, chat: Id)
    requires Grows(u, t) && FromChat(u, p, chat)
    ensures FromChat(t, p, chat)
  {
    hide ByInserts;
    forall c | (p, c) in t.summaryParents ensures OfChat(t, chat, c) {
      assert (p, c) in u.summaryParents;
      assert OfChat(u, chat, c);
    }
  }

  lemma NoParentsYet(s: Tables, threshold: int)
    ensures ParentsReady(s, s, threshold) && ParentsOfOneChat(s, s)
  {}

  lemma NothingFromChat(s: Tables, chat: Id)
    ensures ParentsFromChat(s, s, chat) && Rightful(s, s)
  {}

  /** One more chat is condensed. */
  lemma NextParents(s: Tables, u: Tables, t: Tables, session: Id, threshold: int)
    requires Grows(s, u) && Grows(u, t) && ParentsReady(s, u, threshold)
    requires session in s.sessions && |OpenRows(s, session)| >= AtLeastOne(threshold)
    requires ParentsFromChat(u, t, s.sessions[session].chat)
    ensures ParentsReady(s, t, threshold)
  {
    hide LinksGrow, ByInserts, FromChat, OpenRows;
    forall p, c | (p, c) in t.summaryParents && (p, c) !in s.summaryParents
      ensures p !in s.semantics && ReadyParent(s, t, p, threshold)
    {
      if (p, c) in u.summaryParents {
        var q :| q in s.sessions && |OpenRows(s, q)| >= AtLeastOne(threshold) && FromChat(u, p, s.sessions[q].chat);
        FromChatStays(u, t, p, s.sessions[q].chat);
      } else {
        assert FromChat(t, p, s.sessions[session].chat);
      }
    }
  }

  lemma NoParentsOfOneChat(s: Tables, t: Tables)
    requires t.summaryParents == s.summaryParents
    ensures ParentsOfOneChat(s, t)
  {}

  lemma ReadyIsOneChat(s: Tables, u: Tables, t: Tables, threshold: int)
    requires Grows(s, u) && Grows(u, t) && u.summaryParents == s.summaryParents && ParentsReady(u, t, threshold)
    ensures ParentsOfOneChat(s, t)
  {
    hide LinksGrow, ByInserts, FromChat, OpenRows;
    forall p, c | (p, c) in t.summaryParents && (p, c) !in s.summaryParents
      ensures p !in s.semantics && exists chat :: FromChat(t, p, chat)
    {
      assert ReadyParent(u, t, p, threshold);
    }
  }

  lemma ChildrenOfChat(s: Tables, t: Tables, parent: Id, row: Semantic, chat: Id, d0: seq<Id>)
    requires parent == s.nextId && Linkage(s) && chat in s.chats && row.depth == 1 && row.profile == s.chats[chat]
    requires forall c :: c in d0 ==> c in OpenRowsOfChat(s, chat)
    requires t == WithSummary(s, row).(summaryParents := t.summaryParents)
    requires forall p, c :: (p, c) in t.summaryParents && (p, c) !in s.summaryParents ==> p == parent && c in d0
    ensures ParentsFromChat(s, t, chat) && Rightful(s, t)
  {
    NoEdgesOfNewId(s);
    hide Linkage, IsOpenSummary;
    forall p, c | (p, c) in t.summaryParents && p == parent ensures OfChat(t, chat, c) {
      assert (p, c) !in s.summaryParents;
      assert OfChat(s, chat, c);
    }
  }

  lemma NoEdgesOfNewId(t: Tables)
    requires Linkage(t)
    ensures t.nextId !in t.semantics && forall c :: (t.nextId, c) !in t.summaryParents
  {
    forall c ensures (t.nextId, c) !in t.summaryParents {
      assert (t.nextId, c) in t.summaryParents ==> GoodSummaryLink(t, t.nextId, c);
    }
  }

  lemma GrowsFrame(s: Tables, t: Tables)
    requires Grows(s, t)
    ensures t.messages == s.messages && t.sessions == s.sessions && t.chats == s.chats
    ensures s.summaryMessages <= t.summaryMessages
  {}

  lemma UnlinkedIsNotLinked(t: Tables, session: Id, m: Id)
    requires m in t.messages && t.messages[m].session == Some(session)
    ensures m in Unlinked(t, session) <==> !Linked(t, m)
  {
    if Linked(t, m) {
      var x :| (x, m) in t.summaryMessages;
      assert (x, m).1 == m;
    }
  }

  lemma AllCovered(s: Tables, session: Id, messages: seq<Id>, t: Tables)
    requires forall m :: m in messages <==> m in Unlinked(s, session)
    requires t.messages == s.messages && s.summaryMessages <= t.summaryMessages
    requires forall m :: m in messages ==> Linked(t, m)
    ensures SessionCovered(t, session)
  {
    forall m | m in t.messages && t.messages[m].session == Some(session) ensures Linked(t, m) {
      UnlinkedIsNotLinked(s, session, m);
      if Linked(s, m) {
        StaysLinked(s, t, m);
      }
    }
  }

  /** The next chunk is in time order and none of its messages is linked yet. */
  lemma ChunkToDo(s: Tables, u: Tables, session: Id, messages: seq<Id>, chunks: seq<seq<Id>>, k: nat)
    requires k < |chunks| && Flatten(chunks) == messages && NoDuplicates(messages)
    requires forall m :: m in messages <==> m in Unlinked(s, session)
    requires u.messages == s.messages
    requires Ascending(messages, Timestamps(s))
    requires forall x, m :: (x, m) in u.summaryMessages && (x, m) !in s.summaryMessages ==> m in Flatten(chunks[..k])
    ensures NoDuplicates(chunks[k]) && InOrder(u, chunks[k])
    ensures forall m :: m in chunks[k] ==> m in u.messages && !Linked(u, m) && u.messages[m].session == Some(session)
  {
    var done, chunk := Flatten(chunks[..k]), chunks[k];
    ChunkIsSlice(chunks, k);
    PartOf(messages, done, chunk);
    hide Flatten, Unlinked, Ascending, Timestamps, InOrder, Linked, NoDuplicates;
    ChunkInOrder(s, u, messages, done, chunk);
    forall m | m in chunk ensures m in u.messages && !Linked(u, m) && u.messages[m].session == Some(session) {
      NotYetLinked(s, u, session, done, m);
    }
  }

  lemma PartOf<T>(whole: seq<T>, done: seq<T>, chunk: seq<T>)
    requires done + chunk <= whole && NoDuplicates(whole)
    ensures NoDuplicates(chunk) && forall x :: x in chunk ==> x in whole && x !in done
  {
    var n := |done|;
    assert forall i :: 0 <= i < |chunk| ==> whole[n + i] == (done + chunk)[n + i] == chunk[i];
    assert forall i :: 0 <= i < n ==> whole[i] == (done + chunk)[i] == done[i];
  }

  lemma ChunkInOrder(s: Tables, u: Tables, messages: seq<Id>, done: seq<Id>, chunk: seq<Id>)
    requires u.messages == s.messages && Ascending(messages, Timestamps(s)) && done + chunk <= messages
    ensures InOrder(u, chunk)
  {
    forall i, j | 0 <= i < j < |chunk| ensures NoLater(u, chunk[i], chunk[j]) {
      ChunkElement(messages, done, chunk, i);
      ChunkElement(messages, done, chunk, j);
      PairInOrder(s, u, messages, |done| + i, |done| + j);
    }
  }

  lemma ChunkElement<T>(whole: seq<T>, done: seq<T>, chunk: seq<T>, i: nat)
    requires done + chunk <= whole && i < |chunk|
    ensures |done| + i < |whole| && whole[|done| + i] == chunk[i]
  {
    assert whole[|done| + i] == (done + chunk)[|done| + i];
  }

  lemma PairInOrder(s: Tables, u: Tables, messages: seq<Id>, i: nat, j: nat)
    requires u.messages == s.messages && Ascending(messages, Timestamps(s)) && i < j < |messages|
    ensures NoLater(u, messages[i], messages[j])
  {
    var key := Timestamps(s);
    assert key[messages[i]] <= key[messages[j]];
  }

  lemma NotYetLinked(s: Tables, u: Tables, session: Id, done: seq<Id>, m: Id)
    requires m in Unlinked(s, session) && m !in done && u.messages == s.messages
    requires forall x, n :: (x, n) in u.summaryMessages && (x, n) !in s.summaryMessages ==> n in done
    ensures m in u.messages && !Linked(u, m) && u.messages[m].session == Some(session)
  {
    UnlinkedIsNotLinked(s, session, m);
    forall x ensures (x, m) !in u.summaryMessages {
      assert (x, m) in s.summaryMessages ==> Linked(s, m);
    }
  }

  lemma StaysCovered(u: Tables, t: Tables, session: Id)
    requires SessionCovered(u, session) && t.messages == u.messages && u.summaryMessages <= t.summaryMessages
    ensures SessionCovered(t, session)
  {
    forall m | m in t.messages && t.messages[m].session == Some(session) ensures Linked(t, m) {
      StaysLinked(u, t, m);
    }
  }

  lemma OpenAreSessions(t: Tables)
    ensures OpenSessions(t) <= t.sessions.Keys && forall s :: s in OpenSessions(t) ==> Ended(t, s)
  {}

  lemma EndedCovered(s: Tables, u: Tables, t: Tables, sessions: seq<Id>)
    requires Grows(s, u) && Grows(u, t)
    requires forall x :: x in sessions <==> x in OpenSessions(s)
    requires forall x :: x in sessions ==> SessionCovered(u, x)
    ensures AllEndedCovered(t)
  {
    GrowsFrame(s, u);
    GrowsFrame(u, t);
    hide Grows, SessionCovered;
    forall x | Ended(t, x) ensures SessionCovered(t, x) {
      if x in sessions {
        StaysCovered(u, t, x);
      } else {
        assert Unlinked(s, x) == {};
        AllCovered(s, x, [], t);
      }
    }
  }

  lemma FewOpen(t: Tables, chat: Id, bound: int)
    requires |OpenOfChat(t, chat)| < bound
    ensures forall session :: session in t.sessions && t.sessions[session].chat == chat ==>
              |OpenSummaries(t, session)| < bound
  {
    forall session | session in t.sessions && t.sessions[session].chat == chat
      ensures |OpenSummaries(t, session)| < bound
    {
      hide OpenSummaries;
      assert OpenSummaries(t, session) <= OpenOfChat(t, chat);
      SubsetSize(OpenSummaries(t, session), OpenOfChat(t, chat));
    }
  }

  lemma OpenHasNoParent(t: Tables, session: Id, s: Id)
    requires s in OpenSummaries(t, session)
    ensures !HasParent(t, s)
  {
    forall p ensures (p, s) !in t.summaryParents {
      assert (p, s).1 == s;
    }
  }

  lemma ChildrenReady(t: Tables, row: Semantic, chat: Id, d0: seq<Id>)
    requires Linkage(t) && row.isSummary && row.depth == 1
    requires forall s :: s in d0 <==> s in OpenOfChat(t, chat)
    ensures forall c :: c in d0 ==> GoodSummaryLink(WithSummary(t, row), t.nextId, c) && !HasParent(t, c)
  {
    hide HasParent;
    forall c | c in d0 ensures GoodSummaryLink(WithSummary(t, row), t.nextId, c) && !HasParent(t, c) {
      assert c in OpenOfChat(t, chat);
      var session :| session in t.sessions && c in OpenSummaries(t, session);
      OpenHasNoParent(t, session, c);
    }
  }

  lemma StillOpen(s: Tables, t: Tables, children: seq<Id>)
    requires t.summaryParents == s.summaryParents && forall c :: c in children ==> !HasParent(s, c)
    ensures forall c :: c in children ==> !HasParent(t, c)
  {
    forall c | c in children ensures !HasParent(t, c) {
      assert !HasParent(s, c);
    }
  }

  lemma GrowsByChildren(s: Tables, u: Tables, t: Tables, parent: Id, children: seq<Id>)
    requires Grows(s, u) && parent !in s.semantics && u.summaryParents == s.summaryParents
    requires t == u.(summaryParents := t.summaryParents) && u.summaryParents <= t.summaryParents
    requires forall p, c :: (p, c) in t.summaryParents && (p, c) !in u.summaryParents ==> p == parent && c in children
    requires ByInserts(u, t) && forall c :: c in children ==> !HasParent(s, c)
    ensures Grows(s, t)
  {
    ByInsertsTrans(s, u, t);
    hide ByInserts;
    forall p, c | (p, c) in s.summaryParents ensures c !in children { assert HasParent(s, c); }
  }

  /** Condensing adds no depth-0 summary, so the open ones only get fewer. */
  lemma OpenShrinks(s: Tables, t: Tables)
    requires s.summaryParents <= t.summaryParents
    requires forall x :: x in t.semantics && t.semantics[x].depth == 0 ==>
               x in s.semantics && s.semantics[x] == t.semantics[x]
    ensures forall session :: OpenSummaries(t, session) <= OpenSummaries(s, session)
  {
    forall session, x | x in OpenSummaries(t, session) ensures x in OpenSummaries(s, session) {
      OpenHasNoParent(t, session, x);
      forall e | e in s.summaryParents ensures e.1 != x {
        assert (e.0, e.1) in t.summaryParents;
      }
    }
  }

  /** A possible answer of the query: these summaries, ordered by where they start; ties come in any order. */
  ghost predicate IsAnswer(t: Tables, open: set<Id>, rows: seq<Id>) {
    NoDuplicates(rows) && (forall x :: x in rows <==> x in open) && Ascending(rows, Earliest(t))
  }

  /** The new depth-1 summary is linked to all open summaries; for the order in which the query returned them, it starts
      where the first one starts and ends where the last one ends. */
  ghost predicate CondensedInto(s: Tables, t: Tables, parent: Id, open: set<Id>, profile: Id) {
    && parent in t.semantics && t.semantics[parent].isSummary && t.semantics[parent].depth == 1
    && t.semantics[parent].profile == profile && t.semantics[parent].session == None
    && (forall c :: c in open ==> (parent, c) in t.summaryParents)
    && exists rows :: IsAnswer(s, open, rows)
         && Spans(s, rows, t.semantics[parent].earliest, t.semantics[parent].latest)
  }

  ghost predicate Spans(t: Tables, rows: seq<Id>, earliest: int, latest: int) {
    && |rows| >= 1 && rows[0] in t.semantics && rows[|rows| - 1] in t.semantics
    && earliest == t.semantics[rows[0]].earliest && latest == t.semantics[rows[|rows| - 1]].latest
  }

  /** The range covers the ranges of all these summaries. */
  ghost predicate Covers(t: Tables, earliest: int, latest: int, open: set<Id>) {
    forall c :: c in open ==> c in t.semantics && earliest <= t.semantics[c].earliest && t.semantics[c].latest <= latest
  }

  /** The open summaries with the greatest start: each of them can come last. */
  ghost predicate StartsLast(t: Tables, open: set<Id>, l: Id) {
    l in open && l in t.semantics
    && forall c :: c in open && c in t.semantics ==> t.semantics[c].earliest <= t.semantics[l].earliest
  }

  ghost predicate NoneEndsAfter(t: Tables, open: set<Id>, l: Id) {
    l in t.semantics && forall c :: c in open && c in t.semantics ==> t.semantics[c].latest <= t.semantics[l].latest
  }

  /** The range recorded for this answer covers all open summaries. */
  ghost predicate AnswerCovers(t: Tables, open: set<Id>, rows: seq<Id>) {
    forall earliest, latest :: Spans(t, rows, earliest, latest) ==> Covers(t, earliest, latest, open)
  }

  lemma AnswerEnds(t: Tables, open: set<Id>, rows: seq<Id>)
    requires open != {} && open <= t.semantics.Keys && IsAnswer(t, open, rows)
    ensures |rows| >= 1 && rows[0] in open && StartsLast(t, open, rows[|rows| - 1])
    ensures forall c :: c in open ==> t.semantics[rows[0]].earliest <= t.semantics[c].earliest
  {
    var x :| x in open;
    assert x in rows;
    var key, last := Earliest(t), |rows| - 1;
    assert rows[0] in rows && rows[last] in rows;
    forall c | c in open
      ensures t.semantics[rows[0]].earliest <= t.semantics[c].earliest <= t.semantics[rows[last]].earliest
    {
      var i :| 0 <= i < |rows| && rows[i] == c;
      assert i > 0 ==> key[rows[0]] <= key[rows[i]];
      assert i < last ==> key[rows[i]] <= key[rows[last]];
    }
  }

  /** For one answer: the range covers all open summaries exactly when none of them ends after the last row. */
  lemma AnswerCoversIff(t: Tables, open: set<Id>, rows: seq<Id>)
    requires open != {} && open <= t.semantics.Keys && IsAnswer(t, open, rows)
    ensures |rows| >= 1 && StartsLast(t, open, rows[|rows| - 1])
    ensures AnswerCovers(t, open, rows) <==> NoneEndsAfter(t, open, rows[|rows| - 1])
  {
    AnswerEnds(t, open, rows);
    hide IsAnswer, StartsLast;
    var earliest, latest := t.semantics[rows[0]].earliest, t.semantics[rows[|rows| - 1]].latest;
    assert Spans(t, rows, earliest, latest);
  }

  lemma {:induction false} AnswerExists(t: Tables, open: set<Id>) returns (rows: seq<Id>)
    requires open <= t.semantics.Keys
    ensures IsAnswer(t, open, rows)
    decreases |open|
  {
    if open == {} {
      rows := [];
    } else {
      var l := LastExists(t, open);
      rows := AnswerEndingIn(t, open, l);
    }
  }

  /** Every open summary with the greatest start is the last row of some answer. */
  lemma {:induction false} AnswerEndingIn(t: Tables, open: set<Id>, l: Id) returns (rows: seq<Id>)
    requires open <= t.semantics.Keys && StartsLast(t, open, l)
    ensures IsAnswer(t, open, rows) && |rows| >= 1 && rows[|rows| - 1] == l
    decreases |open|, 0
  {
    var front := AnswerExists(t, open - {l});
    rows := front + [l];
    var key := Earliest(t);
    forall i | 0 <= i < |front|
      ensures front[i] in open && front[i] != l && front[i] in key && key[front[i]] <= key[l]
    {
      assert front[i] in front;
    }
    AscendingThen(front, l, key);
  }

  lemma AscendingThen(front: seq<Id>, l: Id, key: map<Id, int>)
    requires Ascending(front, key) && l in key
    requires forall i :: 0 <= i < |front| ==> front[i] in key && key[front[i]] <= key[l]
    ensures Ascending(front + [l], key)
  {}

  lemma {:induction false} LastExists(t: Tables, open: set<Id>) returns (l: Id)
    requires open != {} && open <= t.semantics.Keys
    ensures StartsLast(t, open, l)
    decreases |open|
  {
    var x :| x in open;
    var rest := open - {x};
    l := x;
    if rest != {} {
      var m := LastExists(t, rest);
      l := if t.semantics[x].earliest < t.semantics[m].earliest then m else x;
      forall c | c in open ensures t.semantics[c].earliest <= t.semantics[l].earliest {
        assert c == x || c in rest;
      }
    } else {
      assert open == {x};
    }
  }

  /** Whatever order the query gives ties, the recorded range covers all open summaries: exactly when no open summary
      ends after any of those that start last. It can cover them exactly when none ends after one of those that start
      last. */
  lemma SpanCoversIff(t: Tables, open: set<Id>)
    requires open != {} && open <= t.semantics.Keys
    ensures (forall rows :: IsAnswer(t, open, rows) ==> AnswerCovers(t, open, rows))
       <==> (forall l :: StartsLast(t, open, l) ==> NoneEndsAfter(t, open, l))
    ensures (exists rows :: IsAnswer(t, open, rows) && AnswerCovers(t, open, rows))
       <==> (exists l :: StartsLast(t, open, l) && NoneEndsAfter(t, open, l))
  {
    hide IsAnswer, AnswerCovers, StartsLast, NoneEndsAfter;
    forall l | StartsLast(t, open, l)
      ensures exists rows :: IsAnswer(t, open, rows) && (AnswerCovers(t, open, rows) <==> NoneEndsAfter(t, open, l))
    {
      var rows := AnswerEndingIn(t, open, l);
      AnswerCoversIff(t, open, rows);
    }
    forall rows | IsAnswer(t, open, rows)
      ensures exists l :: StartsLast(t, open, l) && (AnswerCovers(t, open, rows) <==> NoneEndsAfter(t, open, l))
    {
      AnswerCoversIff(t, open, rows);
      var l := rows[|rows| - 1];
      assert StartsLast(t, open, l);
    }
  }

  /** The same for the summary a condensation has left, tied to the tables before it. */
  lemma CondensedCovers(s: Tables, t: Tables, parent: Id, open: set<Id>, profile: Id)
    requires open != {} && open <= s.semantics.Keys && CondensedInto(s, t, parent, open, profile)
    ensures (forall l :: StartsLast(s, open, l) ==> NoneEndsAfter(s, open, l)) ==>
              Covers(s, t.semantics[parent].earliest, t.semantics[parent].latest, open)
    ensures (forall l :: StartsLast(s, open, l) ==> !NoneEndsAfter(s, open, l)) ==>
              !Covers(s, t.semantics[parent].earliest, t.semantics[parent].latest, open)
  {
    var earliest, latest := t.semantics[parent].earliest, t.semantics[parent].latest;
    var rows :| IsAnswer(s, open, rows) && Spans(s, rows, earliest, latest);
    hide IsAnswer, StartsLast, NoneEndsAfter, Covers;
    AnswerCoversIff(s, open, rows);
    assert AnswerCovers(s, open, rows) <==> Covers(s, earliest, latest, open);
  }

  lemma ParentSpans(s: Tables, t: Tables, parent: Id, row: Semantic, chat: Id, d0: seq<Id>)
    requires parent in t.semantics && t.semantics[parent] == row && |d0| >= 1 && NoDuplicates(d0)
    requires forall x :: x in d0 <==> x in OpenOfChat(s, chat)
    requires Ascending(d0, Earliest(s))
    requires row.isSummary && row.depth == 1 && row.session == None
    requires d0[0] in s.semantics && d0[|d0| - 1] in s.semantics
    requires row.earliest == s.semantics[d0[0]].earliest && row.latest == s.semantics[d0[|d0| - 1]].latest
    requires forall c :: c in d0 ==> (parent, c) in t.summaryParents
    ensures CondensedInto(s, t, parent, OpenOfChat(s, chat), row.profile)
  {
    hide OpenOfChat, Ascending, Earliest, NoDuplicates;
    assert IsAnswer(s, OpenOfChat(s, chat), d0);
    assert Spans(s, d0, row.earliest, row.latest);
  }

  lemma ChatCondensed(s: Tables, t: Tables, chat: Id, d0: seq<Id>, parent: Id)
    requires t.sessions == s.sessions && forall session :: OpenSummaries(t, session) <= OpenSummaries(s, session)
    requires forall x :: x in d0 <==> x in OpenOfChat(s, chat)
    requires forall x :: x in d0 ==> (parent, x) in t.summaryParents
    ensures OpenOfChat(t, chat) == {}
  {
    forall x ensures x !in OpenOfChat(t, chat) {
      forall session | session in t.sessions && t.sessions[session].chat == chat
        ensures x !in OpenSummaries(t, session)
      {
        if x in OpenSummaries(s, session) {
          assert x in d0 && (parent, x).1 == x;
        }
      }
    }
  }

  class MemoryConsolidationJob {
    const db: Database
    const config: ConsolidationConfig
    var running: bool

    constructor (db: Database, config: ConsolidationConfig)
      ensures this.db == db && this.config == config && !running
    {
      this.db := db;
      this.config := config;
      running := false;
    }

    method Await() returns (ok: bool)
    {
      ok := *;
    }

    /** Facts extracted from a chunk: any rows a reply may hold; a failure in here is swallowed. */
    method ExtractFacts(session: Id, profile: Id)
      requires Linkage(db.t) && profile < db.t.nextId
      modifies db
      ensures Linkage(db.t) && Grows(old(db.t), db.t)
      ensures db.t == old(db.t).(semantics := db.t.semantics, nextId := db.t.nextId)
      ensures OnlyOfSession(old(db.t), db.t, session, profile)
    {
      hide Linkage, Grows;
      ghost var start := db.t;
      GrowsRefl(start);
      var replied: int := *;
      var count := if replied < 0 then 0 else replied;
      for i := 0 to count
        invariant Linkage(db.t) && Grows(start, db.t)
        invariant db.t == start.(semantics := db.t.semantics, nextId := db.t.nextId)
        invariant profile < db.t.nextId
        invariant OnlyOfSession(start, db.t, session, profile)
      {
        var ok := Await();
        if !ok {
          return;
        }
        var isSummary: bool := *;
        var now: int := *;
        var row := Semantic(isSummary, 0, profile, Some(session), 0, 0, now);
        NewRow(db.t, row);
        GrowsTrans(start, db.t, WithSummary(db.t, row));
        db.t := WithSummary(db.t, row);
      }
    }

    /** Links the messages of a chunk to its summary, one insert after the other. */
    method LinkMessages(summary: Id, chunk: seq<Id>) returns (ok: bool)
      requires Linkage(db.t) && NoDuplicates(chunk) && LinksOf(db.t, summary, [])
      requires forall m :: m in chunk ==> GoodMessageLink(db.t, summary, m) && !Linked(db.t, m)
      modifies db
      ensures Linkage(db.t) && db.t == old(db.t).(summaryMessages := db.t.summaryMessages)
      ensures ByInserts(old(db.t), db.t) && old(db.t).summaryMessages <= db.t.summaryMessages
      ensures forall x, m :: (x, m) in db.t.summaryMessages && (x, m) !in old(db.t).summaryMessages ==>
                x == summary && m in chunk
      ensures ok ==> LinksOf(db.t, summary, chunk)
    {
      hide Linkage, Linked, ByInserts;
      ghost var start := db.t;
      ByInsertsRefl(start);
      for i := 0 to |chunk|
        invariant Linkage(db.t) && db.t == start.(summaryMessages := db.t.summaryMessages)
        invariant ByInserts(start, db.t) && start.summaryMessages <= db.t.summaryMessages
        invariant forall x, m :: (x, m) in db.t.summaryMessages && (x, m) !in start.summaryMessages ==>
                    x == summary && m in chunk[..i]
        invariant LinksOf(db.t, summary, chunk[..i])
      {
        var sent := Await();
        if !sent {
          return false;
        }
        var m := chunk[i];
        assert m in chunk && m !in chunk[..i];
        assert GoodMessageLink(start, summary, m);
        NextLink(start, db.t, summary, chunk[..i], m);
        db.t := WithMessageLink(db.t, summary, m);
      }
      assert chunk[..|chunk|] == chunk;
      return true;
    }

    /** One chunk: summarise, insert the summary with the chunk's time range, link the messages. */
    method SummarizeChunk(session: Id, profile: Id, chunk: seq<Id>) returns (ok: bool)
      requires Linkage(db.t) && profile < db.t.nextId && NoDuplicates(chunk) && |chunk| >= 1
      requires forall m :: m in chunk ==>
                 m in db.t.messages && !Linked(db.t, m) && db.t.messages[m].session == Some(session)
      requires InOrder(db.t, chunk)
      modifies db
      ensures Linkage(db.t) && Grows(old(db.t), db.t) && db.t.summaryParents == old(db.t).summaryParents
      ensures forall x, m :: (x, m) in db.t.summaryMessages && (x, m) !in old(db.t).summaryMessages ==> m in chunk
      ensures OnlyOfSession(old(db.t), db.t, session, profile)
      ensures ok ==> NewLinksExact(old(db.t), db.t) && forall m :: m in chunk ==> Linked(db.t, m)
    {
      hide Linkage, Grows, ExactRange, Linked, LinksOf, OnlyOfSession;
      ghost var start := db.t;
      GrowsRefl(start);
      OnlyOfSessionRefl(start, session, profile);
      var summarized := Await();
      var embedded := Await();
      var inserted := Await();
      if !summarized || !embedded || !inserted {
        return false;
      }
      var now: int := *;
      var earliestAt := db.t.messages[chunk[0]].timestamp;
      var latestAt := db.t.messages[chunk[|chunk| - 1]].timestamp;
      var row := Semantic(true, 0, profile, Some(session), earliestAt, latestAt, now);
      var summary := db.t.nextId;
      NewRow(start, row);
      db.t := WithSummary(db.t, row);
      ghost var stored := db.t;
      ReadyToLink(start, row, chunk);
      StillUnlinked(start, stored, chunk);
      ok := LinkMessages(summary, chunk);
      ghost var linked := db.t;
      GrowsByLinks(start, stored, linked, summary, chunk);
      SummaryOfSession(start, linked, row, chunk, session);
      if !ok {
        return false;
      }
      ChunkRange(start, linked, row, chunk);
      ExtractFacts(session, profile);
      GrowsTrans(start, linked, db.t);
      OnlyOfSessionTrans(start, linked, db.t, session, profile);
      FactsKeepLinks(start, linked, db.t, chunk);
    }

    /** One session: its uncovered messages in time order, cut into chunks, one summary per chunk. */
    method ConsolidateSession(session: Id, chat: Id) returns (ok: bool)
      requires Linkage(db.t) && config.chunkSize >= 1
      modifies db
      ensures Linkage(db.t) && Grows(old(db.t), db.t) && db.t.summaryParents == old(db.t).summaryParents
      ensures chat in db.t.chats ==> OnlyOfSession(old(db.t), db.t, session, db.t.chats[chat])
      ensures chat !in db.t.chats ==> db.t == old(db.t)
      ensures ok ==> NewLinksExact(old(db.t), db.t) && SessionCovered(db.t, session)
    {
      hide Linkage, Grows, ExactRange, Linked, OnlyOfSession;
      ghost var start := db.t;
      GrowsRefl(start);
      if chat in start.chats {
        OnlyOfSessionRefl(start, session, start.chats[chat]);
      }
      var queried := Await();
      if !queried {
        return false;
      }
      var messages := OrderBy(Unlinked(db.t, session), Timestamps(db.t));
      if |messages| == 0 {
        AllCovered(start, session, messages, start);
        return true;
      }
      var found := Await();
      if !found || chat !in db.t.chats {
        return false;
      }
      var profile := db.t.chats[chat];
      ProfileOfChat(db.t, chat);
      var chunks := ChunkArray(messages, config.chunkSize);
      for k := 0 to |chunks|
        invariant Linkage(db.t) && Grows(start, db.t) && db.t.messages == start.messages && NewLinksExact(start, db.t)
        invariant profile < db.t.nextId && db.t.chats == start.chats && OnlyOfSession(start, db.t, session, profile)
        invariant db.t.summaryParents == start.summaryParents
        invariant forall m :: m in Flatten(chunks[..k]) ==> Linked(db.t, m)
        invariant forall x, m :: (x, m) in db.t.summaryMessages && (x, m) !in start.summaryMessages ==>
                    m in Flatten(chunks[..k])
      {
        ghost var before := db.t;
        ChunkToDo(start, before, session, messages, chunks, k);
        ok := SummarizeChunk(session, profile, chunks[k]);
        OnlyOfSessionTrans(start, before, db.t, session, profile);
        GrowsTrans(start, before, db.t);
        GrowsFrame(before, db.t);
        if !ok {
          return false;
        }
        NextIdGrows(before, db.t);
        ExactLinksChain(start, before, db.t);
        ChunkIsSlice(chunks, k);
        forall m | m in Flatten(chunks[..k]) ensures Linked(db.t, m) { StaysLinked(before, db.t, m); }
      }
      assert chunks[..|chunks|] == chunks;
      GrowsFrame(start, db.t);
      AllCovered(start, session, messages, db.t);
      return true;
    }

    /** Condenses all open depth-0 summaries of a chat into one depth-1 summary, if they reach the threshold. */
    method CondenseSummaries(chat: Id) returns (ok: bool)
      requires Linkage(db.t)
      modifies db
      ensures Linkage(db.t) && Grows(old(db.t), db.t) && db.t.summaryMessages == old(db.t).summaryMessages
      ensures forall session :: OpenSummaries(db.t, session) <= OpenSummaries(old(db.t), session)
      ensures ParentsFromChat(old(db.t), db.t, chat) && Rightful(old(db.t), db.t)
      ensures |OpenRowsOfChat(old(db.t), chat)| < config.consolidationThreshold ==> db.t == old(db.t)
      ensures ok && |OpenRowsOfChat(old(db.t), chat)| >= AtLeastOne(config.consolidationThreshold) ==>
        chat in db.t.chats && CondensedInto(old(db.t), db.t, old(db.t).nextId, OpenRowsOfChat(old(db.t), chat),
                                            db.t.chats[chat])
      ensures ok ==> forall session :: session in db.t.sessions && db.t.sessions[session].chat == chat ==>
                                         |OpenSummaries(db.t, session)| < AtLeastOne(config.consolidationThreshold)
    {
      hide Linkage, Grows, HasParent, OpenRowsOfChat, ParentsFromChat, Rightful;
      ghost var start := db.t;
      GrowsRefl(start);
      NothingFromChat(start, chat);
      OpenOfChatAreRows(start, chat);
      var queried := Await();
      if !queried || chat !in db.t.chats {
        return false;
      }
      var profile := db.t.chats[chat];
      ProfileOfChat(db.t, chat);
      var d0 := OrderBy(OpenOfChat(db.t, chat), Earliest(db.t));
      if |d0| < config.consolidationThreshold {
        FewOpen(start, chat, AtLeastOne(config.consolidationThreshold));
        return true;
      }
      var summarized := Await();
      var embedded := Await();
      var inserted := Await();
      // With no row at all the range is not a number, which the insert refuses.
      if !summarized || !embedded || !inserted || |d0| == 0 {
        return false;
      }
      var now: int := *;
      assert d0[0] in d0 && d0[|d0| - 1] in d0;
      var row := Semantic(true, 1, profile, None, db.t.semantics[d0[0]].earliest, db.t.semantics[d0[|d0| - 1]].latest,
                          now);
      var parent := db.t.nextId;
      NewRow(start, row);
      db.t := WithSummary(db.t, row);
      ghost var stored := db.t;
      ChildrenReady(start, row, chat, d0);
      StillOpen(start, stored, d0);
      ok := LinkChildren(parent, d0);
      GrowsByChildren(start, stored, db.t, parent, d0);
      ChildrenOfChat(start, db.t, parent, row, chat, d0);
      GrowsFrame(start, db.t);
      OpenShrinks(start, db.t);
      if ok {
        ParentSpans(start, db.t, parent, row, chat, d0);
        ChatCondensed(start, db.t, chat, d0, parent);
        FewOpen(db.t, chat, AtLeastOne(config.consolidationThreshold));
      }
    }

    method LinkChildren(parent: Id, children: seq<Id>) returns (ok: bool)
      requires Linkage(db.t) && NoDuplicates(children)
      requires forall c :: c in children ==> GoodSummaryLink(db.t, parent, c) && !HasParent(db.t, c)
      modifies db
      ensures Linkage(db.t) && db.t == old(db.t).(summaryParents := db.t.summaryParents)
      ensures ByInserts(old(db.t), db.t) && old(db.t).summaryParents <= db.t.summaryParents
      ensures forall p, c :: (p, c) in db.t.summaryParents && (p, c) !in old(db.t).summaryParents ==>
                p == parent && c in children
      ensures ok ==> forall c :: c in children ==> (parent, c) in db.t.summaryParents
    {
      hide Linkage, HasParent, ByInserts;
      ghost var start := db.t;
      ByInsertsRefl(start);
      for i := 0 to |children|
        invariant Linkage(db.t) && db.t == start.(summaryParents := db.t.summaryParents)
        invariant ByInserts(start, db.t) && start.summaryParents <= db.t.summaryParents
        invariant forall p, c :: (p, c) in db.t.summaryParents && (p, c) !in start.summaryParents ==>
                    p == parent && c in children[..i]
        invariant forall c :: c in children[..i] ==> (parent, c) in db.t.summaryParents
      {
        var sent := Await();
        if !sent {
          return false;
        }
        var child := children[i];
        assert child in children && child !in children[..i];
        NextChild(start, db.t, parent, children[..i], child);
        db.t := WithSummaryLink(db.t, parent, child);
      }
      assert children[..|children|] == children;
      return true;
    }

    /** Condenses every chat with a session that holds enough open summaries. */
    method CondenseIfReady() returns (ok: bool)
      requires Linkage(db.t)
      modifies db
      ensures Linkage(db.t) && Grows(old(db.t), db.t) && db.t.summaryMessages == old(db.t).summaryMessages
      ensures ParentsReady(old(db.t), db.t, config.consolidationThreshold) && Rightful(old(db.t), db.t)
      ensures ok ==> Condensed(db.t, config.consolidationThreshold)
    {
      hide Linkage, Grows, OpenSummaries, OpenOfChat, ParentsReady, ParentsFromChat, Rightful, OpenRows;
      ghost var start := db.t;
      GrowsRefl(start);
      NoParentsYet(start, config.consolidationThreshold);
      RightfulRefl(start);
      var queried := Await();
      if !queried {
        return false;
      }
      var candidates := Enumerate(Candidates(db.t, config.consolidationThreshold));
      for i := 0 to |candidates|
        invariant Linkage(db.t) && Grows(start, db.t) && db.t.sessions == start.sessions
        invariant db.t.summaryMessages == start.summaryMessages
        invariant ParentsReady(start, db.t, config.consolidationThreshold) && Rightful(start, db.t)
        invariant forall session :: OpenSummaries(db.t, session) <= OpenSummaries(start, session)
        invariant forall session :: session in candidates[..i] ==>
                    |OpenSummaries(db.t, session)| < AtLeastOne(config.consolidationThreshold)
      {
        ghost var before := db.t;
        var session := candidates[i];
        assert session in candidates;
        ok := CondenseSummaries(db.t.sessions[session].chat);
        OpenSummariesAreRows(start, session);
        NextParents(start, before, db.t, session, config.consolidationThreshold);
        RightfulTrans(start, before, db.t);
        GrowsTrans(start, before, db.t);
        GrowsFrame(before, db.t);
        if !ok {
          return false;
        }
        forall s | s in candidates[..i + 1]
          ensures |OpenSummaries(db.t, s)| < AtLeastOne(config.consolidationThreshold)
        {
          SubsetSize(OpenSummaries(db.t, s), OpenSummaries(before, s));
        }
      }
      assert candidates[..|candidates|] == candidates;
      forall s | s in db.t.sessions ensures |OpenRows(db.t, s)| < AtLeastOne(config.consolidationThreshold) {
        OpenSummariesAreRows(db.t, s);
        SubsetSize(OpenSummaries(db.t, s), OpenSummaries(start, s));
      }
      return true;
    }

    /** The sessions one after the other; the first failure ends the pass. */
    method ConsolidateSessions(sessions: seq<Id>) returns (ok: bool)
      requires Linkage(db.t) && config.chunkSize >= 1 && forall s :: s in sessions ==> Ended(db.t, s)
      modifies db
      ensures Linkage(db.t) && Grows(old(db.t), db.t) && db.t.summaryParents == old(db.t).summaryParents
      ensures Rightful(old(db.t), db.t)
      ensures ok ==> NewLinksExact(old(db.t), db.t) && forall s :: s in sessions ==> SessionCovered(db.t, s)
    {
      hide Linkage, Grows, ExactRange, SessionCovered, Rightful, OnlyOfSession;
      ghost var start := db.t;
      GrowsRefl(start);
      RightfulRefl(start);
      for i := 0 to |sessions|
        invariant Linkage(db.t) && Grows(start, db.t) && db.t.sessions == start.sessions && NewLinksExact(start, db.t)
        invariant db.t.summaryParents == start.summaryParents && Rightful(start, db.t)
        invariant forall s :: s in sessions[..i] ==> SessionCovered(db.t, s)
      {
        ghost var before := db.t;
        assert sessions[i] in sessions;
        ok := ConsolidateSession(sessions[i], db.t.sessions[sessions[i]].chat);
        GrowsFrame(before, db.t);
        SessionIsRightful(before, db.t, sessions[i]);
        RightfulTrans(start, before, db.t);
        GrowsTrans(start, before, db.t);
        if !ok {
          return false;
        }
        ExactLinksChain(start, before, db.t);
        forall s | s in sessions[..i] ensures SessionCovered(db.t, s) { StaysCovered(before, db.t, s); }
      }
      assert sessions[..|sessions|] == sessions;
      return true;
    }

    /** A consolidation pass: the number of sessions processed, or None when an awaited call threw.
        However it ends, uniqueness is kept and the running flag is released. A pass that gets past the message
        threshold and to its end has covered every message of the ended sessions. */
    method Run() returns (r: Option<nat>)
      requires Linkage(db.t) && config.chunkSize >= 1
      modifies this, db
      ensures Linkage(db.t) && Grows(old(db.t), db.t) && running == old(running)
      ensures AtMostOne(old(db.t)) ==> AtMostOne(db.t)
      ensures OnePerProfile(old(db.t)) ==> OnePerProfile(db.t)
      ensures old(running) ==> db.t == old(db.t) && r == Some(0)
      ensures Rightful(old(db.t), db.t) && ParentsOfOneChat(old(db.t), db.t)
      ensures |Unconsolidated(old(db.t))| < config.minUnconsolidatedMessages ==> db.t == old(db.t)
      ensures r.Some? && !running && |Unconsolidated(old(db.t))| >= config.minUnconsolidatedMessages ==>
                && r.value == |OpenSessions(old(db.t))|
                && NewLinksExact(old(db.t), db.t) && AllEndedCovered(db.t)
                   && Condensed(db.t, config.consolidationThreshold)
    {
      hide Linkage, Grows, AtMostOne, OnePerProfile, NewLinksExact, AllEndedCovered, Condensed, SessionCovered,
           OpenSessions, Rightful, ParentsOfOneChat;
      ghost var start := db.t;
      GrowsRefl(start);
      RightfulRefl(start);
      NoParentsYet(start, config.consolidationThreshold);
      if running {
        return Some(0);
      }
      running := true;
      r := Pass();
      GrowthKeepsUniqueness(start, db.t);
      running := false;
    }

    /** The body of `Run` inside its try block. */
    method Pass() returns (r: Option<nat>)
      requires Linkage(db.t) && config.chunkSize >= 1
      modifies db
      ensures Linkage(db.t) && Grows(old(db.t), db.t)
      ensures Rightful(old(db.t), db.t) && ParentsOfOneChat(old(db.t), db.t)
      ensures |Unconsolidated(old(db.t))| < config.minUnconsolidatedMessages ==> db.t == old(db.t)
      ensures r.Some? && |Unconsolidated(old(db.t))| >= config.minUnconsolidatedMessages ==>
                && r.value == |OpenSessions(old(db.t))|
                && NewLinksExact(old(db.t), db.t) && AllEndedCovered(db.t)
                   && Condensed(db.t, config.consolidationThreshold)
    {
      hide Linkage, Grows, AllEndedCovered, Condensed, SessionCovered, OpenSessions, ExactRange, Unconsolidated,
           Rightful, ParentsOfOneChat, ParentsReady;
      ghost var start := db.t;
      GrowsRefl(start);
      RightfulRefl(start);
      NoParentsYet(start, config.consolidationThreshold);
      var counted := Await();
      if !counted {
        return None;
      }
      if |Unconsolidated(db.t)| < config.minUnconsolidatedMessages {
        return Some(0);
      }
      var selected := Await();
      if !selected {
        return None;
      }
      OpenAreSessions(db.t);
      var sessions := Enumerate(OpenSessions(db.t));
      var consolidated := ConsolidateSessions(sessions);
      NoParentsOfOneChat(start, db.t);
      if !consolidated {
        return None;
      }
      ghost var covered := db.t;
      var recorded := Await();
      if !recorded {
        return None;
      }
      var condensed := CondenseIfReady();
      ReadyIsOneChat(start, covered, db.t, config.consolidationThreshold);
      RightfulTrans(start, covered, db.t);
      GrowsTrans(start, covered, db.t);
      if !condensed {
        return None;
      }
      ExactLinksChain(start, covered, db.t);
      EndedCovered(start, covered, db.t, sessions);
      return Some(|sessions|);
    }
  }
}
