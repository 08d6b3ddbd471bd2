/** The orchestrator as a step system: between two awaits the event loop runs one segment of code at a time, and a
    crash can come between any two segments. */
module OrchestratorSteps {
  import opened Wrappers
  import opened MessageQueues

  type TaskId = nat

  /** Where a task is suspended. Fetched: its row is taken but `processQueueItem` has not run yet. Working: registered,
      anywhere before its acknowledge. Failing: something threw and `fail` is under way. Settled: its acknowledge or
      fail went through. GaveUp: its `fail` threw too. */
  datatype Phase = Fetched | Working | Failing | Settled | GaveUp

  datatype Task = Task(chat: ChatId, row: RowId, phase: Phase, settlements: nat)

  /** Queue rows with their crash recoveries, suspended tasks, dequeue requests in flight, and the orchestrator's
      own fields. */
  datatype State = State(rows: Rows, nextRow: RowId, recoveries: map<RowId, nat>,
                         tasks: map<TaskId, Task>, nextTask: TaskId, requests: multiset<ChatId>,
                         active: map<ChatId, RowId>, processing: int, stopping: bool)

  datatype Action =
    | Arrive(arriving: ChatId, maxAttempts: int)
    | Notify(notified: ChatId, atStart: bool)
    | Fetch(fetching: ChatId, found: Option<RowId>)
    | FetchThrows(fetching: ChatId)
    | Register(task: TaskId)
    | Acknowledge(task: TaskId)
    | Throw(task: TaskId)
    | Fail(task: TaskId)
    | FailThrows(task: TaskId)
    | Finish(task: TaskId)
    | Stop
    | Restart
    | RetryDeadLetter(row: RowId)
    | Purge(cutoff: int)

  function InPhase(s: State, task: TaskId, phase: Phase): bool {
    task in s.tasks && s.tasks[task].phase == phase
  }

  predicate PassesChecks(s: State, chat: ChatId, limit: nat) {
    chat !in s.active && |s.active| < limit
  }

  function Moved(s: State, task: TaskId, phase: Phase): State
    requires task in s.tasks
  {
    s.(tasks := s.tasks[task := s.tasks[task].(phase := phase)])
  }

  function Settle(s: State, task: TaskId): State
    requires task in s.tasks
  {
    s.(tasks := s.tasks[task := s.tasks[task].(phase := Settled, settlements := s.tasks[task].settlements + 1)])
  }

  function WithRow(s: State, id: RowId, row: Row): State {
    s.(rows := s.rows[id := row])
  }

  function AfterArrive(s: State, chat: ChatId, maxAttempts: int, now: int): State {
    s.(rows := s.rows[s.nextRow := Row(chat, Pending, 0, maxAttempts, now, now)], nextRow := s.nextRow + 1,
       recoveries := s.recoveries[s.nextRow := 0])
  }

  function AfterNotify(s: State, chat: ChatId, atStart: bool, limit: nat): State {
    if (atStart || !s.stopping) && PassesChecks(s, chat, limit) then s.(requests := s.requests + multiset{chat}) else s
  }

  function AfterFetch(s: State, chat: ChatId, found: RowId, now: int): State
    requires found in s.rows
  {
    s.(rows := s.rows[found := Taken(s.rows[found], now)], requests := s.requests - multiset{chat},
       tasks := s.tasks[s.nextTask := Task(chat, found, Fetched, 0)], nextTask := s.nextTask + 1)
  }

  function AfterRegister(s: State, task: TaskId): State
    requires task in s.tasks
  {
    Moved(s, task, Working).(active := s.active[s.tasks[task].chat := s.tasks[task].row],
                             processing := s.processing + 1)
  }

  function AfterFinish(s: State, task: TaskId): State
    requires task in s.tasks
  {
    var chat := s.tasks[task].chat;
    s.(tasks := s.tasks - {task}, active := s.active - {chat}, processing := s.processing - 1,
       requests := if s.stopping then s.requests else s.requests + multiset{chat})
  }

  function AfterRestart(s: State, now: int): State {
    State(Recovered(s.rows, now), s.nextRow, Bumped(s.rows, s.recoveries), map[], s.nextTask, multiset{}, map[], 0,
          false)
  }

  /** `t` follows from `s` by the action at time `now`; `limit` is the configured container limit. */
  ghost predicate Step(s: State, a: Action, t: State, limit: nat, now: int) {
    match a
    case Arrive(chat, maxAttempts) => t == AfterArrive(s, chat, maxAttempts, now)
    case Notify(chat, atStart) => t == AfterNotify(s, chat, atStart, limit)
    case Fetch(chat, found) =>
      && chat in s.requests
      && (found.None? ==> (forall id :: !IsPending(s.rows, chat, id))
                          && t == s.(requests := s.requests - multiset{chat}))
      && (found.Some? ==> OldestPending(s.rows, chat, found.value) && t == AfterFetch(s, chat, found.value, now))
    case FetchThrows(chat) => chat in s.requests && t == s.(requests := s.requests - multiset{chat})
    case Register(task) => InPhase(s, task, Fetched) && t == AfterRegister(s, task)
    case Acknowledge(task) =>
      InPhase(s, task, Working) && t == if s.tasks[task].row in s.rows
                                        then WithRow(Settle(s, task), s.tasks[task].row,
                                                     Done(s.rows[s.tasks[task].row], now))
                                        else Settle(s, task)
    case Throw(task) => InPhase(s, task, Working) && t == Moved(s, task, Failing)
    case Fail(task) =>
      InPhase(s, task, Failing) && t == if s.tasks[task].row in s.rows
                                        then WithRow(Settle(s, task), s.tasks[task].row,
                                                     GivenBack(s.rows[s.tasks[task].row], now))
                                        else Settle(s, task)
    case FailThrows(task) => InPhase(s, task, Failing) && t == Moved(s, task, GaveUp)
    case Finish(task) => (InPhase(s, task, Settled) || InPhase(s, task, GaveUp)) && t == AfterFinish(s, task)
    case Stop => t == s.(stopping := true)
    case Restart => t == AfterRestart(s, now)
    case RetryDeadLetter(id) =>
      t == if id in s.rows && s.rows[id].status == DeadLetter
           then WithRow(s, id, Retried(s.rows[id], now)).(recoveries := s.recoveries[id := 0]) else s
    case Purge(cutoff) => t == s.(rows := Purged(s.rows, cutoff))
  }

  // ---------- the invariant ----------

  predicate Holding(task: Task) {
    task.phase.Fetched? || task.phase.Working? || task.phase.Failing?
  }

  function Registered(s: State): set<TaskId> {
    set t | t in s.tasks && !s.tasks[t].phase.Fetched?
  }

  /** The task holds a row of its chat that is in processing. */
  ghost predicate HoldsItsRow(s: State, t: TaskId)
    requires t in s.tasks
  {
    var task := s.tasks[t];
    task.row in s.rows && s.rows[task.row].status == Processing && s.rows[task.row].chat == task.chat
  }

  ghost predicate NamesRunningTask(s: State, chat: ChatId, row: RowId) {
    exists t :: t in s.tasks && !s.tasks[t].phase.Fetched? && s.tasks[t].chat == chat && s.tasks[t].row == row
  }

  ghost predicate HoldersDistinct(s: State) {
    forall t, u :: t in s.tasks && u in s.tasks && Holding(s.tasks[t]) && Holding(s.tasks[u]) ==>
      (s.tasks[t].row == s.tasks[u].row ==> t == u)
  }

  ghost predicate HoldersOk(s: State) {
    HoldersDistinct(s) && forall t :: t in s.tasks && Holding(s.tasks[t]) ==> HoldsItsRow(s, t)
  }

  ghost predicate IdsOk(s: State) {
    (forall id :: id in s.rows ==> id < s.nextRow) && (forall t :: t in s.tasks ==> t < s.nextTask)
  }

  ghost predicate CountOk(s: State) {
    s.processing == |Registered(s)|
  }

  ghost predicate ActiveOk(s: State) {
    forall chat :: chat in s.active ==> NamesRunningTask(s, chat, s.active[chat])
  }

  ghost predicate SettlementsOk(s: State) {
    forall t :: t in s.tasks ==> s.tasks[t].settlements == if s.tasks[t].phase.Settled? then 1 else 0
  }

  /** Tasks that run or are about to hold pairwise distinct rows of their chats in processing; the counter counts the
      registered tasks; every active entry names a registered task of that chat; no task settles its row twice; and
      the row laws hold. */
  ghost predicate Inv(s: State) {
    IdsOk(s) && HoldersOk(s) && CountOk(s) && ActiveOk(s) && SettlementsOk(s) && RowsOk(s.rows, s.recoveries)
  }

  // ---------- every step keeps it ----------

  lemma NamesKept(s: State, t: State, chat: ChatId, row: RowId)
    requires NamesRunningTask(s, chat, row)
    requires forall x :: x in s.tasks && !s.tasks[x].phase.Fetched? && s.tasks[x].chat == chat ==>
      x in t.tasks && !t.tasks[x].phase.Fetched? && t.tasks[x].chat == chat && t.tasks[x].row == s.tasks[x].row
    ensures NamesRunningTask(t, chat, row)
  {
    var x :| x in s.tasks && !s.tasks[x].phase.Fetched? && s.tasks[x].chat == chat && s.tasks[x].row == row;
    assert x in t.tasks;
  }

  /** No task is added, dropped, fetched or registered. */
  ghost predicate SameTasks(s: State, t: State) {
    && t.tasks.Keys == s.tasks.Keys && t.active == s.active && t.processing == s.processing
    && forall x :: x in s.tasks ==>
         t.tasks[x].row == s.tasks[x].row && t.tasks[x].chat == s.tasks[x].chat
         && t.tasks[x].phase.Fetched? == s.tasks[x].phase.Fetched?
  }

  lemma SameTasksKeep(s: State, t: State)
    requires CountOk(s) && ActiveOk(s) && SameTasks(s, t)
    ensures CountOk(t) && ActiveOk(t)
  {
    assert Registered(t) == Registered(s);
    forall chat | chat in t.active ensures NamesRunningTask(t, chat, t.active[chat]) {
      NamesKept(s, t, chat, s.active[chat]);
    }
  }

  /** Every holder of the new state was a holder of the same row, which has not moved. */
  lemma HoldersKeep(s: State, t: State)
    requires HoldersOk(s)
    requires forall x :: x in t.tasks && Holding(t.tasks[x]) ==>
      && x in s.tasks && Holding(s.tasks[x]) && t.tasks[x].row == s.tasks[x].row && t.tasks[x].chat == s.tasks[x].chat
      && (s.tasks[x].row in s.rows && s.rows[s.tasks[x].row].status == Processing ==>
            s.tasks[x].row in t.rows && t.rows[s.tasks[x].row] == s.rows[s.tasks[x].row])
    ensures HoldersOk(t)
  {
    forall x | x in t.tasks && Holding(t.tasks[x]) ensures HoldsItsRow(t, x) {
      assert HoldsItsRow(s, x);
    }
  }

  /** Steps that touch no task and no row in processing. */
  lemma OutsideStepKeeps(s: State, t: State)
    requires Inv(s) && t.tasks == s.tasks && t.nextTask == s.nextTask && t.active == s.active
    requires t.processing == s.processing
    requires s.nextRow <= t.nextRow && (forall id :: id in t.rows ==> id < t.nextRow) && RowsOk(t.rows, t.recoveries)
    requires forall id :: id in s.rows && s.rows[id].status == Processing ==> id in t.rows && t.rows[id] == s.rows[id]
    ensures Inv(t)
  {
    hide RowsOk, Registered, NamesRunningTask;
    SameTasksKeep(s, t);
    HoldersKeep(s, t);
  }

  lemma FetchHolders(s: State, t: State, chat: ChatId, found: RowId, now: int)
    requires IdsOk(s) && HoldersOk(s) && IsPending(s.rows, chat, found) && t == AfterFetch(s, chat, found, now)
    ensures HoldersOk(t)
  {
    forall x | x in t.tasks && Holding(t.tasks[x])
      ensures HoldsItsRow(t, x) && (x in s.tasks ==> t.tasks[x].row != found)
    {
      assert x in s.tasks ==> HoldsItsRow(s, x);
    }
  }

  lemma FetchKeeps(s: State, t: State, chat: ChatId, found: RowId, now: int)
    requires Inv(s) && IsPending(s.rows, chat, found) && t == AfterFetch(s, chat, found, now)
    ensures Inv(t)
  {
    FetchHolders(s, t, chat, found, now);
    FetchActive(s, t, chat, found, now);
    hide HoldersOk, ActiveOk;
    assert Registered(t) == Registered(s);
  }

  lemma FetchActive(s: State, t: State, chat: ChatId, found: RowId, now: int)
    requires IdsOk(s) && ActiveOk(s) && found in s.rows && t == AfterFetch(s, chat, found, now)
    ensures ActiveOk(t)
  {
    hide NamesRunningTask;
    forall c | c in t.active ensures NamesRunningTask(t, c, t.active[c]) {
      NamesKept(s, t, c, s.active[c]);
    }
  }

  lemma RegisterCount(s: State, t: State, task: TaskId)
    requires CountOk(s) && InPhase(s, task, Fetched) && t == AfterRegister(s, task)
    ensures CountOk(t)
  {
    assert Registered(t) == Registered(s) + {task};
  }

  lemma RegisterActive(s: State, t: State, task: TaskId)
    requires ActiveOk(s) && InPhase(s, task, Fetched) && t == AfterRegister(s, task)
    ensures ActiveOk(t)
  {
    forall c | c in t.active ensures NamesRunningTask(t, c, t.active[c]) {
      if c == s.tasks[task].chat {
        assert task in t.tasks && t.tasks[task].chat == c;
      } else {
        NamesKept(s, t, c, s.active[c]);
      }
    }
  }

  lemma RegisterKeeps(s: State, t: State, task: TaskId)
    requires Inv(s) && InPhase(s, task, Fetched) && t == AfterRegister(s, task)
    ensures Inv(t)
  {
    RegisterCount(s, t, task);
    RegisterActive(s, t, task);
    hide CountOk, ActiveOk, RowsOk;
    HoldersKeep(s, t);
  }

  lemma MoveKeeps(s: State, t: State, task: TaskId, phase: Phase)
    requires Inv(s) && task in s.tasks && !s.tasks[task].phase.Fetched? && Holding(s.tasks[task])
    requires !phase.Fetched? && !phase.Settled? && t == Moved(s, task, phase)
    ensures Inv(t)
  {
    hide RowsOk, NamesRunningTask, Registered, CountOk, ActiveOk;
    SameTasksKeep(s, t);
    HoldersKeep(s, t);
  }

  /** A task that lets go of its row, which leaves processing. */
  lemma SettleKeeps(s: State, t: State, task: TaskId, row: Row)
    requires Inv(s) && task in s.tasks && !s.tasks[task].phase.Fetched? && Holding(s.tasks[task])
    requires s.tasks[task].row in s.rows
    requires t == WithRow(Settle(s, task), s.tasks[task].row, row) && RowsOk(t.rows, t.recoveries)
    ensures Inv(t)
  {
    hide RowsOk, NamesRunningTask, Registered, CountOk, ActiveOk;
    SameTasksKeep(s, t);
    HoldersKeep(s, t);
  }

  lemma FinishActive(s: State, t: State, task: TaskId)
    requires ActiveOk(s) && task in s.tasks && t == AfterFinish(s, task)
    ensures ActiveOk(t)
  {
    forall c | c in t.active ensures NamesRunningTask(t, c, t.active[c]) {
      NamesKept(s, t, c, s.active[c]);
    }
  }

  lemma FinishKeeps(s: State, t: State, task: TaskId)
    requires Inv(s) && task in s.tasks && !s.tasks[task].phase.Fetched? && !Holding(s.tasks[task])
    requires t == AfterFinish(s, task)
    ensures Inv(t)
  {
    assert Registered(t) == Registered(s) - {task};
    FinishActive(s, t, task);
    hide ActiveOk, RowsOk;
    HoldersKeep(s, t);
  }

  lemma RestartKeeps(s: State, t: State, now: int)
    requires Inv(s) && t == AfterRestart(s, now)
    ensures Inv(t)
  {
    assert Registered(t) == {};
  }

  lemma HolderHasRow(s: State, task: TaskId)
    requires HoldersOk(s) && task in s.tasks && Holding(s.tasks[task])
    ensures s.tasks[task].row in s.rows && s.rows[s.tasks[task].row].status == Processing
    ensures s.rows[s.tasks[task].row].chat == s.tasks[task].chat
  {
    assert HoldsItsRow(s, task);
  }

  lemma RowChangeOk(rows: Rows, recoveries: map<RowId, nat>, id: RowId, row: Row)
    requires RowsOk(rows, recoveries) && id in recoveries && RowOk(row, recoveries[id])
    ensures RowsOk(rows[id := row], recoveries)
  {}

  predicate TouchesTask(a: Action) {
    a.Register? || a.Acknowledge? || a.Throw? || a.Fail? || a.FailThrows? || a.Finish?
  }

  lemma TaskStepKeepsInv(s: State, a: Action, t: State, limit: nat, now: int)
    requires Inv(s) && Step(s, a, t, limit, now) && TouchesTask(a)
    ensures Inv(t)
  {
    hide HoldersOk, CountOk, ActiveOk, IdsOk, SettlementsOk;
    var task := a.task;
    match a {
      case Register(_) => RegisterKeeps(s, t, task);
      case Acknowledge(_) =>
        HolderHasRow(s, task);
        RowChangeOk(s.rows, s.recoveries, s.tasks[task].row, Done(s.rows[s.tasks[task].row], now));
        SettleKeeps(s, t, task, Done(s.rows[s.tasks[task].row], now));
      case Throw(_) => MoveKeeps(s, t, task, Failing);
      case Fail(_) =>
        HolderHasRow(s, task);
        RowChangeOk(s.rows, s.recoveries, s.tasks[task].row, GivenBack(s.rows[s.tasks[task].row], now));
        SettleKeeps(s, t, task, GivenBack(s.rows[s.tasks[task].row], now));
      case FailThrows(_) => MoveKeeps(s, t, task, GaveUp);
      case Finish(_) => FinishKeeps(s, t, task);
    }
  }

  lemma ArriveKeeps(s: State, t: State, chat: ChatId, maxAttempts: int, now: int)
    requires Inv(s) && t == AfterArrive(s, chat, maxAttempts, now)
    ensures Inv(t)
  {
    hide HoldersOk, CountOk, ActiveOk, SettlementsOk;
    OutsideStepKeeps(s, t);
  }

  lemma RetryKeeps(s: State, t: State, id: RowId, now: int)
    requires Inv(s) && id in s.rows && s.rows[id].status == DeadLetter
    requires t == WithRow(s, id, Retried(s.rows[id], now)).(recoveries := s.recoveries[id := 0])
    ensures Inv(t)
  {
    hide HoldersOk, CountOk, ActiveOk, SettlementsOk;
    OutsideStepKeeps(s, t);
  }

  lemma PurgeKeeps(s: State, t: State, cutoff: int)
    requires Inv(s) && t == s.(rows := Purged(s.rows, cutoff))
    ensures Inv(t)
  {
    hide HoldersOk, CountOk, ActiveOk, SettlementsOk;
    OutsideStepKeeps(s, t);
  }

  lemma QuietKeeps(s: State, t: State)
    requires Inv(s) && t == s.(requests := t.requests, stopping := t.stopping)
    ensures Inv(t)
  {
    hide HoldersOk, CountOk, ActiveOk, SettlementsOk, RowsOk;
    OutsideStepKeeps(s, t);
  }

  /** Every step, at every moment and under every interleaving, keeps the invariant. */
  lemma StepKeepsInv(s: State, a: Action, t: State, limit: nat, now: int)
    requires Inv(s) && Step(s, a, t, limit, now)
    ensures Inv(t)
  {
    hide Inv;
    if TouchesTask(a) {
      TaskStepKeepsInv(s, a, t, limit, now);
    } else {
      match a {
        case Arrive(chat, maxAttempts) => ArriveKeeps(s, t, chat, maxAttempts, now);
        case Fetch(chat, found) =>
          if found.Some? { FetchKeeps(s, t, chat, found.value, now); } else { QuietKeeps(s, t); }
        case Restart => RestartKeeps(s, t, now);
        case RetryDeadLetter(id) =>
          if id in s.rows && s.rows[id].status == DeadLetter { RetryKeeps(s, t, id, now); } else { QuietKeeps(s, t); }
        case Purge(cutoff) => PurgeKeeps(s, t, cutoff);
        case _ => QuietKeeps(s, t);
      }
    }
  }
}
