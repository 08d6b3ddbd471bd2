/** The orchestrator's methods, cut at their awaits. Each segment is one step of the step system, so every
    interleaving of segments is one of its runs. */
module FlowHelmOrchestrators {
  import opened Wrappers
  import opened MessageQueues
  import opened OrchestratorSteps
  import OrchestratorRuns

  class FlowHelmOrchestrator {
    const queue: MessageQueue
    const maxConcurrentContainers: nat

    var activeTasks: map<ChatId, RowId>
    var processingCount: int
    var stopping: bool

    // The runtime's side: suspended calls of processQueueItem, and calls awaiting dequeueForChat.
    var suspended: map<TaskId, Task>
    var nextTask: TaskId
    var requests: multiset<ChatId>

    ghost var recoveries: map<RowId, nat>

    constructor (limit: nat)
      ensures fresh(queue) && maxConcurrentContainers == limit && Abs() == OrchestratorRuns.Initial()
    {
      queue := new MessageQueue();
      maxConcurrentContainers := limit;
      activeTasks, processingCount, stopping := map[], 0, false;
      suspended, nextTask, requests, recoveries := map[], 0, multiset{}, map[];
    }

    ghost function Abs(): State
      reads this, queue
    {
      State(queue.rows, queue.nextId, recoveries, suspended, nextTask, requests, activeTasks, processingCount, stopping)
    }

    predicate Admitted(chat: ChatId)
      reads this
    {
      chat !in activeTasks && |activeTasks| < maxConcurrentContainers
    }

    /** A channel enqueues a message. */
    method Receive(chat: ChatId, maxAttempts: int, now: int)
      modifies this`recoveries, queue
      ensures Step(old(Abs()), Arrive(chat, maxAttempts), Abs(), maxConcurrentContainers, now)
    {
      var id := queue.Enqueue(chat, maxAttempts, now);
      recoveries := recoveries[id := 0];
    }

    /** Called by the listener. */
    method OnNotification(chat: ChatId)
      modifies this`requests
      ensures Step(old(Abs()), Notify(chat, false), Abs(), maxConcurrentContainers, 0)
      ensures requests == if !stopping && chat !in activeTasks && |activeTasks| < maxConcurrentContainers
                          then old(requests) + multiset{chat} else old(requests)
    {
      if !stopping {
        OnNewMessage(chat);
      }
    }

    /** Up to the await: the two checks, then the dequeue is sent. */
    method OnNewMessage(chat: ChatId)
      modifies this`requests
      ensures Step(old(Abs()), Notify(chat, true), Abs(), maxConcurrentContainers, 0)
      ensures requests == if chat !in activeTasks && |activeTasks| < maxConcurrentContainers
                          then old(requests) + multiset{chat} else old(requests)
    {
      if chat in activeTasks {
        return;
      }
      if |activeTasks| >= maxConcurrentContainers {
        return;
      }
      requests := requests + multiset{chat};
    }

    /** The dequeue sent by `OnNewMessage` or `DrainChat` runs in the database, or throws. */
    method DequeueAnswered(chat: ChatId, now: int) returns (ghost action: Action)
      requires chat in requests
      modifies this`requests, this`suspended, this`nextTask, queue`rows
      ensures Step(old(Abs()), action, Abs(), maxConcurrentContainers, now)
      ensures action == FetchThrows(chat) || (action.Fetch? && action.fetching == chat)
      ensures requests == old(requests) - multiset{chat}
      ensures action.Fetch? && action.found.Some? ==>
        && OldestPending(old(queue.rows), chat, action.found.value)
        && queue.rows[action.found.value].status == Processing
        && suspended == old(suspended)[old(nextTask) := Task(chat, action.found.value, Fetched, 0)]
      ensures action.FetchThrows? || action.found.None? ==> queue.rows == old(queue.rows) && suspended == old(suspended)
    {
      requests := requests - multiset{chat};
      var sent: bool := *;
      if !sent {
        return FetchThrows(chat);
      }
      var item := queue.DequeueForChat(chat, now);
      action := Fetch(chat, item);
      if item.Some? {
        suspended := suspended[nextTask := Task(chat, item.value, Fetched, 0)];
        nextTask := nextTask + 1;
      }
    }

    /** The head of `processQueueItem`: the task registers itself. */
    method ProcessQueueItem(task: TaskId)
      requires task in suspended && suspended[task].phase == Fetched
      modifies this`activeTasks, this`processingCount, this`suspended
      ensures Step(old(Abs()), Register(task), Abs(), maxConcurrentContainers, 0)
      ensures activeTasks == old(activeTasks)[old(suspended)[task].chat := old(suspended)[task].row]
      ensures processingCount == old(processingCount) + 1
      ensures suspended == old(suspended)[task := old(suspended)[task].(phase := Working)]
    {
      var item := suspended[task];
      activeTasks := activeTasks[item.chat := item.row];
      processingCount := processingCount + 1;
      suspended := suspended[task := item.(phase := Working)];
    }

    /** The try block: the agent or anything before it throws, or its result is acknowledged, which can throw too. */
    method Execute(task: TaskId, now: int) returns (ghost action: Action)
      requires task in suspended && suspended[task].phase == Working
      modifies this`suspended, queue`rows
      ensures Step(old(Abs()), action, Abs(), maxConcurrentContainers, now)
      ensures action == Throw(task) || action == Acknowledge(task)
      ensures action.Throw? ==> queue.rows == old(queue.rows) && suspended[task].phase == Failing
      ensures action.Acknowledge? ==> suspended[task].phase == Settled
      ensures action.Acknowledge? ==>
                (old(suspended)[task].row in queue.rows ==> queue.rows[old(suspended)[task].row].status == Completed)
    {
      var item := suspended[task];
      var succeeded: bool := *;
      var acknowledged: bool := *;
      if !succeeded || !acknowledged {
        suspended := suspended[task := item.(phase := Failing)];
        return Throw(task);
      }
      queue.Acknowledge(item.row, now);
      suspended := suspended[task := item.(phase := Settled, settlements := item.settlements + 1)];
      action := Acknowledge(task);
    }

    /** The catch block. `fail` can throw as well; that is swallowed. */
    method HandleTaskFailure(task: TaskId, now: int) returns (ghost action: Action)
      requires task in suspended && suspended[task].phase == Failing
      modifies this`suspended, queue`rows
      ensures Step(old(Abs()), action, Abs(), maxConcurrentContainers, now)
      ensures action == FailThrows(task) || action == Fail(task)
      ensures action.FailThrows? ==> queue.rows == old(queue.rows) && suspended[task].phase == GaveUp
      ensures action.Fail? ==> suspended[task].phase == Settled
      ensures action.Fail? ==>
                (old(suspended)[task].row in queue.rows ==> GivenUpOrBack(queue.rows[old(suspended)[task].row]))
    {
      var item := suspended[task];
      var sent: bool := *;
      if !sent {
        suspended := suspended[task := item.(phase := GaveUp)];
        return FailThrows(task);
      }
      queue.Fail(item.row, now);
      suspended := suspended[task := item.(phase := Settled, settlements := item.settlements + 1)];
      action := Fail(task);
    }

    /** The finally block: the task unregisters, and the chat is drained unless the orchestrator is stopping. */
    method FinishTask(task: TaskId)
      requires task in suspended && (suspended[task].phase == Settled || suspended[task].phase == GaveUp)
      modifies this`activeTasks, this`processingCount, this`suspended, this`requests
      ensures Step(old(Abs()), Finish(task), Abs(), maxConcurrentContainers, 0)
      ensures activeTasks == old(activeTasks) - {old(suspended)[task].chat}
      ensures processingCount == old(processingCount) - 1 && suspended == old(suspended) - {task}
      ensures requests == if stopping then old(requests) else old(requests) + multiset{old(suspended)[task].chat}
    {
      var chat := suspended[task].chat;
      activeTasks := activeTasks - {chat};
      processingCount := processingCount - 1;
      suspended := suspended - {task};
      if !stopping {
        DrainChat(chat);
      }
    }

    /** Up to the await: sends a dequeue without any check. */
    method DrainChat(chat: ChatId)
      modifies this`requests
      ensures requests == old(requests) + multiset{chat}
    {
      requests := requests + multiset{chat};
    }

    /** Sends a dequeue for each chat with a pending row, unless that chat is active or the limit is reached. */
    method DrainPendingMessages()
      modifies this`requests
      ensures forall chat :: requests[chat] == old(requests)[chat] + OneIf(HasPending(queue.rows, chat)
                                                                           && Admitted(chat))
    {
      var chats := queue.PendingChatIds();
      hide IsPending, Step, Requested;
      ghost var start := requests;
      NoneRequested(start, activeTasks, maxConcurrentContainers);
      for i := 0 to |chats|
        invariant Requested(start, requests, chats[..i], activeTasks, maxConcurrentContainers)
      {
        ghost var before := requests;
        OnNewMessage(chats[i]);
        NextRequested(start, before, requests, chats, i, activeTasks, maxConcurrentContainers);
      }
      assert chats[..|chats|] == chats;
      RequestedOnce(start, requests, chats, activeTasks, maxConcurrentContainers);
      forall chat ensures HasPending(queue.rows, chat) <==> chat in chats {}
    }

    method StopAccepting()
      modifies this`stopping
      ensures Step(old(Abs()), Stop, Abs(), maxConcurrentContainers, 0)
    {
      stopping := true;
    }

    /** A new process after a crash at any moment: memory is gone, rows in processing go back to pending. */
    method Restart(now: int)
      modifies this, queue`rows
      ensures Step(old(Abs()), Action.Restart, Abs(), maxConcurrentContainers, now)
      ensures activeTasks == map[] && suspended == map[] && requests == multiset{} && processingCount == 0 && !stopping
      ensures queue.rows.Keys == old(queue.rows).Keys && forall id :: id in queue.rows ==>
        queue.rows[id] == if old(queue.rows)[id].status == Processing
                          then old(queue.rows)[id].(status := Pending, updatedAt := now) else old(queue.rows)[id]
    {
      activeTasks, processingCount, stopping := map[], 0, false;
      suspended, requests := map[], multiset{};
      recoveries := Bumped(queue.rows, recoveries);
      queue.RecoverStuckMessages(now);
    }

    method RetryDeadLetter(id: RowId, now: int) returns (found: bool)
      modifies this`recoveries, queue`rows
      ensures Step(old(Abs()), Action.RetryDeadLetter(id), Abs(), maxConcurrentContainers, now)
    {
      found := queue.RetryDeadLetter(id, now);
      if found {
        recoveries := recoveries[id := 0];
      }
    }

    method PurgeCompleted(olderThan: int, now: int) returns (count: nat)
      modifies queue`rows
      ensures Step(old(Abs()), Purge(now - olderThan), Abs(), maxConcurrentContainers, now)
    {
      count := queue.PurgeCompleted(olderThan, now);
    }

    /** After a restart every chat with a pending row has exactly one dequeue in flight: no message is orphaned. */
    method StartUp(now: int)
      requires maxConcurrentContainers >= 1 && Inv(Abs())
      modifies this, queue`rows
      ensures Inv(Abs()) && activeTasks == map[] && suspended == map[]
      ensures forall chat :: requests[chat] == OneIf(HasPending(queue.rows, chat))
      ensures forall id :: id in queue.rows ==> queue.rows[id].status != Processing
    {
      ghost var before := Abs();
      Restart(now);
      ghost var restarted := Abs();
      StepKeepsInv(before, Action.Restart, restarted, maxConcurrentContainers, now);
      hide Inv;
      DrainPendingMessages();
      QuietKeeps(restarted, Abs());
    }
  }

  function OneIf(b: bool): nat {
    if b then 1 else 0
  }

  /** One more dequeue is in flight for each of these chats that may have one. */
  ghost predicate Requested(start: multiset<ChatId>, now: multiset<ChatId>, chats: seq<ChatId>,
                            active: map<ChatId, RowId>, limit: nat) {
    forall c: ChatId :: RequestedFor(start, now, chats, active, limit, c)
  }

  ghost predicate RequestedFor(start: multiset<ChatId>, now: multiset<ChatId>, chats: seq<ChatId>,
                               active: map<ChatId, RowId>, limit: nat, c: ChatId) {
    now[c] == start[c] + OneIf(c in chats && c !in active && |active| < limit)
  }

  lemma NoneRequested(start: multiset<ChatId>, active: map<ChatId, RowId>, limit: nat)
    ensures Requested(start, start, [], active, limit)
  {}

  lemma RequestedOnce(start: multiset<ChatId>, now: multiset<ChatId>, chats: seq<ChatId>, active: map<ChatId, RowId>,
                      limit: nat)
    requires Requested(start, now, chats, active, limit)
    ensures forall c :: now[c] == start[c] + OneIf(c in chats && c !in active && |active| < limit)
  {
    forall c: ChatId ensures now[c] == start[c] + OneIf(c in chats && c !in active && |active| < limit) {
      assert RequestedFor(start, now, chats, active, limit, c);
    }
  }

  lemma NextRequested(start: multiset<ChatId>, before: multiset<ChatId>, after: multiset<ChatId>, chats: seq<ChatId>,
                      i: nat, active: map<ChatId, RowId>, limit: nat)
    requires i < |chats| && forall j, k :: 0 <= j < k < |chats| ==> chats[j] != chats[k]
    requires Requested(start, before, chats[..i], active, limit)
    requires after == if chats[i] !in active && |active| < limit then before + multiset{chats[i]} else before
    ensures Requested(start, after, chats[..i + 1], active, limit)
  {
    assert chats[i] !in chats[..i];
    var longer := chats[..i + 1];
    forall c: ChatId ensures RequestedFor(start, after, longer, active, limit, c) {
      assert c in longer <==> c in chats[..i] || c == chats[i];
      assert RequestedFor(start, before, chats[..i], active, limit, c);
    }
  }

  /** A dead letter once the attempts are used up, pending otherwise. */
  predicate GivenUpOrBack(row: Row) {
    row.status == if row.attempts >= row.maxAttempts then DeadLetter else Pending
  }
}
