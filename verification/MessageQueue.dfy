/** The persistent message queue: every operation is one atomic update of the queue's rows. */
module MessageQueues {
  import opened Sets
  import opened Wrappers

  type RowId = nat
  type ChatId = nat

  datatype Status = Pending | Processing | Completed | DeadLetter

  datatype Row = Row(chat: ChatId, status: Status, attempts: int, maxAttempts: int, createdAt: int, updatedAt: int)

  type Rows = map<RowId, Row>

  // ---------- what each statement does to the rows ----------

  predicate IsPending(rows: Rows, chat: ChatId, id: RowId) {
    id in rows && rows[id].status == Pending && rows[id].chat == chat
  }

  ghost predicate HasPending(rows: Rows, chat: ChatId) {
    exists id :: IsPending(rows, chat, id)
  }

  /** `id` is a pending row of the chat, and none of the chat's pending rows is older. */
  ghost predicate OldestPending(rows: Rows, chat: ChatId, id: RowId) {
    IsPending(rows, chat, id)
    && forall other :: IsPending(rows, chat, other) ==> rows[id].createdAt <= rows[other].createdAt
  }

  function Taken(row: Row, now: int): Row {
    row.(status := Processing, attempts := row.attempts + 1, updatedAt := now)
  }

  function Done(row: Row, now: int): Row {
    row.(status := Completed, updatedAt := now)
  }

  function GivenBack(row: Row, now: int): Row {
    row.(status := if row.attempts >= row.maxAttempts then DeadLetter else Pending, updatedAt := now)
  }

  function Retried(row: Row, now: int): Row {
    row.(status := Pending, attempts := 0, updatedAt := now)
  }

  function Recovered(rows: Rows, now: int): Rows {
    map id | id in rows :: if rows[id].status == Processing then rows[id].(status := Pending, updatedAt := now)
                           else rows[id]
  }

  function Purged(rows: Rows, cutoff: int): Rows {
    map id | id in rows && !(rows[id].status == Completed && rows[id].updatedAt < cutoff) :: rows[id]
  }

  /** At most one row changes, and of it only the status and the time of the change. */
  ghost predicate OnlyStatusChanges(before: Rows, after: Rows, id: RowId) {
    && after.Keys == before.Keys
    && (forall other :: other in before && other != id ==> after[other] == before[other])
    && (id in before ==> after[id] == before[id].(status := after[id].status, updatedAt := after[id].updatedAt))
  }

  class MessageQueue {
    var rows: Rows
    var nextId: RowId

    constructor ()
      ensures rows == map[] && nextId == 0
    {
      rows := map[];
      nextId := 0;
    }

    method Enqueue(chat: ChatId, maxAttempts: int, now: int) returns (id: RowId)
      modifies this
      ensures id == old(nextId) && nextId == id + 1
      ensures rows == old(rows)[id := Row(chat, Pending, 0, maxAttempts, now, now)]
      ensures IsPending(rows, chat, id)
      ensures forall other :: other in old(rows) && other != id ==> other in rows && rows[other] == old(rows)[other]
    {
      id := nextId;
      rows := rows[id := Row(chat, Pending, 0, maxAttempts, now, now)];
      nextId := id + 1;
    }

    /** Takes the oldest pending row of the chat, or nothing exactly when the chat has none. */
    method DequeueForChat(chat: ChatId, now: int) returns (r: Option<RowId>)
      modifies this`rows
      ensures r.None? ==> rows == old(rows) && forall id :: !IsPending(rows, chat, id)
      ensures r.Some? ==> OldestPending(old(rows), chat, r.value)
                          && rows == old(rows)[r.value := Taken(old(rows)[r.value], now)]
      ensures r.Some? ==> var row := old(rows)[r.value];
        rows[r.value] == Row(row.chat, Processing, row.attempts + 1, row.maxAttempts, row.createdAt, now)
      ensures forall id :: id in old(rows) && r != Some(id) ==> id in rows && rows[id] == old(rows)[id]
    {
      r := None;
      var rest := rows.Keys;
      while rest != {}
        invariant rest <= rows.Keys && rows == old(rows)
        invariant r.Some? ==> IsPending(rows, chat, r.value)
        invariant forall id :: id in rows && id !in rest && IsPending(rows, chat, id) ==>
                    r.Some? && rows[r.value].createdAt <= rows[id].createdAt
        decreases |rest|
      {
        var id :| id in rest;
        rest := rest - {id};
        if IsPending(rows, chat, id) && (r.None? || rows[id].createdAt < rows[r.value].createdAt) {
          r := Some(id);
        }
      }
      if r.Some? {
        rows := rows[r.value := Taken(rows[r.value], now)];
      }
    }

    method Acknowledge(id: RowId, now: int)
      modifies this`rows
      ensures rows == if id in old(rows) then old(rows)[id := Done(old(rows)[id], now)] else old(rows)
      ensures OnlyStatusChanges(old(rows), rows, id) && (id in rows ==> rows[id].status == Completed)
    {
      if id in rows {
        rows := rows[id := Done(rows[id], now)];
      }
    }

    method Fail(id: RowId, now: int)
      modifies this`rows
      ensures rows == if id in old(rows) then old(rows)[id := GivenBack(old(rows)[id], now)] else old(rows)
      ensures OnlyStatusChanges(old(rows), rows, id)
      ensures id in rows ==> (rows[id].status == DeadLetter <==> rows[id].attempts >= rows[id].maxAttempts)
      ensures id in rows ==> rows[id].status == DeadLetter || rows[id].status == Pending
    {
      if id in rows {
        rows := rows[id := GivenBack(rows[id], now)];
      }
    }

    method RecoverStuckMessages(now: int)
      modifies this`rows
      ensures rows == Recovered(old(rows), now)
      ensures rows.Keys == old(rows).Keys && forall id :: id in rows ==> rows[id].status != Processing
      ensures forall id :: id in rows && old(rows)[id].status == Processing ==>
        rows[id] == old(rows)[id].(status := Pending, updatedAt := now)
      ensures forall id :: id in rows && old(rows)[id].status != Processing ==> rows[id] == old(rows)[id]
    {
      rows := Recovered(rows, now);
    }

    method PurgeCompleted(olderThan: int, now: int) returns (count: nat)
      modifies this`rows
      ensures rows == Purged(old(rows), now - olderThan) && count == |old(rows)| - |rows|
      ensures forall id :: id in rows <==>
                id in old(rows) && (old(rows)[id].status != Completed || old(rows)[id].updatedAt >= now - olderThan)
      ensures forall id :: id in rows ==> rows[id] == old(rows)[id]
    {
      var before := rows;
      rows := Purged(rows, now - olderThan);
      assert rows.Keys <= before.Keys;
      SubsetSize(rows.Keys, before.Keys);
      count := |before| - |rows|;
    }

    method RetryDeadLetter(id: RowId, now: int) returns (found: bool)
      modifies this`rows
      ensures found <==> id in old(rows) && old(rows)[id].status == DeadLetter
      ensures rows == if found then old(rows)[id := Retried(old(rows)[id], now)] else old(rows)
      ensures found ==> var row := old(rows)[id];
        rows[id] == Row(row.chat, Pending, 0, row.maxAttempts, row.createdAt, now)
    {
      found := id in rows && rows[id].status == DeadLetter;
      if found {
        rows := rows[id := Retried(rows[id], now)];
      }
    }

    /** The chats with a pending row, each once. */
    method PendingChatIds() returns (chats: seq<ChatId>)
      ensures forall chat :: chat in chats <==> exists id :: IsPending(rows, chat, id)
      ensures forall i, j :: 0 <= i < j < |chats| ==> chats[i] != chats[j]
    {
      chats := [];
      var rest := rows.Keys;
      while rest != {}
        invariant rest <= rows.Keys
        invariant forall i, j :: 0 <= i < j < |chats| ==> chats[i] != chats[j]
        invariant forall chat :: chat in chats ==> exists id :: IsPending(rows, chat, id)
        invariant forall id :: id in rows && id !in rest && rows[id].status == Pending ==> rows[id].chat in chats
        decreases |rest|
      {
        var id :| id in rest;
        rest := rest - {id};
        if rows[id].status == Pending && rows[id].chat !in chats {
          assert IsPending(rows, rows[id].chat, id);
          chats := chats + [rows[id].chat];
        }
      }
    }
  }

  // ---------- laws of single rows ----------

  /** The failure budget of a row: a row is always tried once. */
  function Budget(maxAttempts: int): int {
    if maxAttempts < 1 then 1 else maxAttempts
  }

  /** Attempts stay within the budget plus the crash recoveries since the row's last reset, with room for one more
      while it is pending; a dead letter has used up its attempts. */
  ghost predicate RowOk(row: Row, recoveries: nat) {
    && 0 <= row.attempts <= Budget(row.maxAttempts) + recoveries
    && (row.status == Pending ==> row.attempts < Budget(row.maxAttempts) + recoveries)
    && (row.status == DeadLetter ==> row.attempts >= row.maxAttempts)
  }

  ghost predicate RowsOk(rows: Rows, recoveries: map<RowId, nat>) {
    forall id :: id in rows ==> id in recoveries && RowOk(rows[id], recoveries[id])
  }

  /** The recovery counts after a restart. */
  function Bumped(rows: Rows, recoveries: map<RowId, nat>): map<RowId, nat> {
    map id | id in recoveries :: if id in rows && rows[id].status == Processing then recoveries[id] + 1
                                 else recoveries[id]
  }
}
