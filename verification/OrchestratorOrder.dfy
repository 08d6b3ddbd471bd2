/** One task per chat, the container limit, and finishing in arrival order: when the orchestrator keeps them, and
    when not. */
module OrchestratorOrder {
  import opened Wrappers
  import opened MessageQueues
  import opened OrchestratorSteps
  import opened OrchestratorRuns
  import opened Sets

  // ---------- one task per chat ----------

  function TasksOf(s: State, chat: ChatId): set<TaskId> {
    set t | t in s.tasks && s.tasks[t].chat == chat
  }

  /** Dequeue requests in flight plus tasks of the chat. */
  function Load(s: State, chat: ChatId): nat {
    s.requests[chat] + |TasksOf(s, chat)|
  }

  /** The action is a notification of this chat that gets past both checks. */
  predicate Admits(s: State, a: Action, chat: ChatId, limit: nat) {
    a.Notify? && a.notified == chat && (a.atStart || !s.stopping) && PassesChecks(s, chat, limit)
  }

  lemma SameTasksOf(s: State, t: State, chat: ChatId)
    requires s.tasks.Keys == t.tasks.Keys && forall x :: x in s.tasks ==> t.tasks[x].chat == s.tasks[x].chat
    ensures TasksOf(t, chat) == TasksOf(s, chat)
  {}

  lemma FetchLoad(s: State, t: State, chat: ChatId, c: ChatId, found: RowId, now: int)
    requires IdsOk(s) && found in s.rows && chat in s.requests && t == AfterFetch(s, chat, found, now)
    ensures Load(t, c) == Load(s, c)
  {
    if c == chat {
      assert TasksOf(t, c) == TasksOf(s, c) + {s.nextTask};
    } else {
      assert TasksOf(t, c) == TasksOf(s, c);
    }
  }

  lemma FinishLoad(s: State, t: State, task: TaskId, c: ChatId)
    requires task in s.tasks && t == AfterFinish(s, task)
    ensures Load(t, c) <= Load(s, c)
  {
    if c == s.tasks[task].chat {
      assert task in TasksOf(s, c) && TasksOf(t, c) == TasksOf(s, c) - {task};
    } else {
      assert TasksOf(t, c) == TasksOf(s, c);
    }
  }

  /** Steps other than a notification, a fetch that finds a row, the end of a task and a restart. */
  lemma OtherLoad(s: State, a: Action, t: State, limit: nat, now: int, chat: ChatId)
    requires Step(s, a, t, limit, now) && !a.Notify? && !a.Finish? && !a.Restart? && (a.Fetch? ==> a.found.None?)
    ensures Load(t, chat) <= Load(s, chat)
  {
    OtherFrame(s, a, t, limit, now);
    hide Step;
    SameTasksOf(s, t, chat);
  }

  lemma OtherFrame(s: State, a: Action, t: State, limit: nat, now: int)
    requires Step(s, a, t, limit, now) && !a.Notify? && !a.Finish? && !a.Restart? && (a.Fetch? ==> a.found.None?)
    ensures t.requests <= s.requests && t.tasks.Keys == s.tasks.Keys
    ensures forall x :: x in s.tasks ==> t.tasks[x].chat == s.tasks[x].chat
  {
    if TouchesTask(a) {
      TaskFrame(s, a, t, limit, now);
    } else {
      QueueFrame(s, a, t, limit, now);
    }
    hide Step;
  }

  lemma TaskFrame(s: State, a: Action, t: State, limit: nat, now: int)
    requires Step(s, a, t, limit, now) && TouchesTask(a) && !a.Finish?
    ensures t.requests == s.requests && t.tasks.Keys == s.tasks.Keys
    ensures forall x :: x in s.tasks ==> t.tasks[x].chat == s.tasks[x].chat
  {
    hide GivenBack, Done;
  }

  lemma QueueFrame(s: State, a: Action, t: State, limit: nat, now: int)
    requires Step(s, a, t, limit, now) && !TouchesTask(a) && !a.Notify? && !a.Restart? && (a.Fetch? ==> a.found.None?)
    ensures t.requests <= s.requests && t.tasks == s.tasks
  {
    hide Purged, Retried;
    if a.Fetch? || a.FetchThrows? {
      assert t.requests == s.requests - multiset{a.fetching};
    }
  }

  lemma NotifyLoad(s: State, t: State, c: ChatId, atStart: bool, limit: nat, chat: ChatId)
    requires t == AfterNotify(s, c, atStart, limit)
    ensures Load(t, chat) == Load(s, chat) + if Admits(s, Notify(c, atStart), chat, limit) then 1 else 0
  {
    assert TasksOf(t, chat) == TasksOf(s, chat);
  }

  /** Only an admitted notification raises the load of a chat, and it always does. */
  lemma LoadStep(s: State, a: Action, t: State, limit: nat, now: int, chat: ChatId)
    requires Inv(s) && Step(s, a, t, limit, now)
    ensures Admits(s, a, chat, limit) ==> Load(t, chat) == Load(s, chat) + 1
    ensures !Admits(s, a, chat, limit) ==> Load(t, chat) <= Load(s, chat)
  {
    hide HoldersOk, CountOk, ActiveOk, SettlementsOk, RowsOk, Load, TasksOf;
    if a.Notify? {
      NotifyLoad(s, t, a.notified, a.atStart, limit, chat);
    } else if a.Fetch? && a.found.Some? {
      FetchLoad(s, t, a.fetching, chat, a.found.value, now);
    } else if a.Finish? {
      FinishLoad(s, t, a.task, chat);
    } else if a.Restart? {
      RestartLoad(s, t, now, chat);
    } else {
      OtherLoad(s, a, t, limit, now, chat);
    }
  }

  lemma RestartLoad(s: State, t: State, now: int, chat: ChatId)
    requires t == AfterRestart(s, now)
    ensures Load(t, chat) == 0
  {
    assert TasksOf(t, chat) == {};
  }

  /** A step keeps "at most one request or task of the chat" exactly when it does not admit a notification of a chat
      that already has one: the check the code does not make. */
  lemma OneTaskPerChatIff(s: State, a: Action, t: State, limit: nat, now: int, chat: ChatId)
    requires Inv(s) && Step(s, a, t, limit, now) && Load(s, chat) <= 1
    ensures Load(t, chat) <= 1 <==> !(Admits(s, a, chat, limit) && Load(s, chat) == 1)
  {
    LoadStep(s, a, t, limit, now, chat);
  }

  // ---------- the container limit ----------

  /** All dequeue requests in flight plus all tasks. */
  function TotalLoad(s: State): nat {
    |s.requests| + |s.tasks|
  }

  /** The action is a notification that gets past both checks. */
  predicate AdmitsAny(s: State, a: Action, limit: nat) {
    a.Notify? && Admits(s, a, a.notified, limit)
  }

  lemma FetchTotal(s: State, t: State, chat: ChatId, found: RowId, now: int)
    requires IdsOk(s) && found in s.rows && chat in s.requests && t == AfterFetch(s, chat, found, now)
    ensures TotalLoad(t) == TotalLoad(s)
  {
    assert s.nextTask !in s.tasks;
    assert |t.tasks| == |s.tasks| + 1;
  }

  lemma FinishTotal(s: State, t: State, task: TaskId)
    requires task in s.tasks && t == AfterFinish(s, task)
    ensures TotalLoad(t) <= TotalLoad(s)
  {
    assert s.tasks.Keys == t.tasks.Keys + {task};
    assert |t.tasks.Keys| == |s.tasks.Keys| - 1;
  }

  lemma SameTotal(s: State, t: State)
    requires t.requests <= s.requests && t.tasks.Keys == s.tasks.Keys
    ensures TotalLoad(t) <= TotalLoad(s)
  {
    assert s.requests == t.requests + (s.requests - t.requests);
    assert |t.tasks.Keys| == |s.tasks.Keys|;
  }

  /** Only an admitted notification raises the total, and it always does. */
  lemma TotalStep(s: State, a: Action, t: State, limit: nat, now: int)
    requires Inv(s) && Step(s, a, t, limit, now)
    ensures AdmitsAny(s, a, limit) ==> TotalLoad(t) == TotalLoad(s) + 1
    ensures !AdmitsAny(s, a, limit) ==> TotalLoad(t) <= TotalLoad(s)
  {
    hide HoldersOk, CountOk, ActiveOk, SettlementsOk, RowsOk, TotalLoad;
    if a.Notify? {
      NotifyTotal(s, t, a.notified, a.atStart, limit);
    } else if a.Fetch? && a.found.Some? {
      FetchTotal(s, t, a.fetching, a.found.value, now);
    } else if a.Finish? {
      FinishTotal(s, t, a.task);
    } else if a.Restart? {
      RestartTotal(s, t, now);
    } else {
      OtherTotal(s, a, t, limit, now);
    }
  }

  lemma OtherTotal(s: State, a: Action, t: State, limit: nat, now: int)
    requires Step(s, a, t, limit, now) && !a.Notify? && !a.Finish? && !a.Restart? && (a.Fetch? ==> a.found.None?)
    ensures TotalLoad(t) <= TotalLoad(s)
  {
    OtherFrame(s, a, t, limit, now);
    hide Step;
    SameTotal(s, t);
  }

  lemma NotifyTotal(s: State, t: State, c: ChatId, atStart: bool, limit: nat)
    requires t == AfterNotify(s, c, atStart, limit)
    ensures TotalLoad(t) == TotalLoad(s) + if AdmitsAny(s, Notify(c, atStart), limit) then 1 else 0
  {}

  lemma RestartTotal(s: State, t: State, now: int)
    requires t == AfterRestart(s, now)
    ensures TotalLoad(t) == 0
  {}

  /** A step keeps the container limit exactly when it does not admit a notification while the limit is used up by tasks
      and requests: the check counts registered chats instead. */
  lemma ContainerLimitIff(s: State, a: Action, t: State, limit: nat, now: int)
    requires Inv(s) && Step(s, a, t, limit, now) && TotalLoad(s) <= limit
    ensures TotalLoad(t) <= limit <==> !(AdmitsAny(s, a, limit) && TotalLoad(s) == limit)
  {
    TotalStep(s, a, t, limit, now);
  }

  /** Over a run that never admits a notification at the limit, at most `limit` tasks are registered at any moment. */
  lemma {:induction false} ContainerLimitOverRuns(states: seq<State>, actions: seq<Action>, times: seq<int>,
                                                  limit: nat, i: nat)
    requires IsRun(states, actions, times, limit) && i < |states|
    requires forall k :: 0 <= k < |actions| && AdmitsAny(states[k], actions[k], limit) ==> TotalLoad(states[k]) < limit
    ensures states[i].processing <= TotalLoad(states[i]) <= limit
  {
    RunKeepsInv(states, actions, times, limit, i);
    RegisteredAreTasks(states[i]);
    if i > 0 {
      var h := i - 1;
      ContainerLimitOverRuns(states, actions, times, limit, h);
      RunKeepsInv(states, actions, times, limit, h);
      hide Inv, Step;
      assert Step(states[h], actions[h], states[h + 1], limit, times[h]);
      ContainerLimitIff(states[h], actions[h], states[i], limit, times[h]);
    }
  }

  lemma RegisteredAreTasks(s: State)
    requires CountOk(s)
    ensures s.processing <= TotalLoad(s)
  {
    SubsetSize(Registered(s), s.tasks.Keys);
    assert |s.tasks.Keys| == |s.tasks|;
  }

  // ---------- a run with two tasks of one chat ----------

  function TwoRows(): State {
    AfterArrive(AfterArrive(Initial(), 0, 3, 0), 0, 3, 0)
  }

  lemma TwoNotifications(s: State)
    requires s == TwoRows()
    ensures Step(s, Notify(0, false), s.(requests := multiset{0}), 1, 0)
    ensures Step(s.(requests := multiset{0}), Notify(0, false), s.(requests := multiset{0, 0}), 1, 0)
  {
    assert multiset{} + multiset{0} == multiset{0};
    assert multiset{0} + multiset{0} == multiset{0, 0};
  }

  lemma TwoFetches(s: State) returns (t: State, u: State)
    requires s == TwoRows().(requests := multiset{0, 0})
    ensures Step(s, Fetch(0, Some(0)), t, 1, 0) && Step(t, Fetch(0, Some(1)), u, 1, 0)
    ensures u.tasks == map[0 := Task(0, 0, Fetched, 0), 1 := Task(0, 1, Fetched, 0)] && u.processing == 0
  {
    var row := Row(0, Pending, 0, 3, 0, 0);
    assert s.rows == map[0 := row, 1 := row];
    t := AfterFetch(s, 0, 0, 0);
    assert IsPending(s.rows, 0, 0) && 0 in s.requests;
    assert t.rows == map[0 := Taken(row, 0), 1 := row] && t.requests == multiset{0};
    u := AfterFetch(t, 0, 1, 0);
    assert IsPending(t.rows, 0, 1) && 0 in t.requests;
  }

  lemma TwoRegistrations(s: State) returns (t: State, u: State)
    requires s.tasks == map[0 := Task(0, 0, Fetched, 0), 1 := Task(0, 1, Fetched, 0)] && s.processing == 0
    ensures Step(s, Register(0), t, 1, 0) && Step(t, Register(1), u, 1, 0)
    ensures u.tasks == map[0 := Task(0, 0, Working, 0), 1 := Task(0, 1, Working, 0)] && u.processing == 2
  {
    hide Step;
    t := OneRegistration(s, 0);
    assert t.tasks == map[0 := Task(0, 0, Working, 0), 1 := Task(0, 1, Fetched, 0)];
    u := OneRegistration(t, 1);
  }

  lemma OneRegistration(s: State, task: TaskId) returns (t: State)
    requires InPhase(s, task, Fetched)
    ensures Step(s, Register(task), t, 1, 0) && t.processing == s.processing + 1
    ensures t.tasks == s.tasks[task := s.tasks[task].(phase := Working)]
  {
    t := AfterRegister(s, task);
  }

  /** Two notifications that both arrive before the first task registers: one chat ends up with two working tasks,
      under a container limit of one. */
  lemma OneTaskPerChatFails() returns (states: seq<State>, actions: seq<Action>, times: seq<int>)
    ensures IsRun(states, actions, times, 1) && |states| == 9
    ensures states[8].tasks == map[0 := Task(0, 0, Working, 0), 1 := Task(0, 1, Working, 0)]
    ensures states[8].processing == 2
  {
    var s1 := AfterArrive(Initial(), 0, 3, 0);
    var s2 := TwoRows();
    states, actions, times := [Initial()], [], [];
    assert IsRun(states, actions, times, 1);
    states, actions, times := Extended(states, actions, times, 1, Arrive(0, 3), s1, 0);
    states, actions, times := Extended(states, actions, times, 1, Arrive(0, 3), s2, 0);
    hide Step, IsRun, TwoRows;
    TwoNotifications(s2);
    states, actions, times := Extended(states, actions, times, 1, Notify(0, false), s2.(requests := multiset{0}), 0);
    states, actions, times := Extended(states, actions, times, 1, Notify(0, false), s2.(requests := multiset{0, 0}), 0);
    var t, u := TwoFetches(s2.(requests := multiset{0, 0}));
    states, actions, times := Extended(states, actions, times, 1, Fetch(0, Some(0)), t, 0);
    states, actions, times := Extended(states, actions, times, 1, Fetch(0, Some(1)), u, 0);
    t, u := TwoRegistrations(u);
    states, actions, times := Extended(states, actions, times, 1, Register(0), t, 0);
    states, actions, times := Extended(states, actions, times, 1, Register(1), u, 0);
  }

  lemma Extended(states: seq<State>, actions: seq<Action>, times: seq<int>, limit: nat, a: Action, t: State, now: int)
    returns (states': seq<State>, actions': seq<Action>, times': seq<int>)
    requires IsRun(states, actions, times, limit) && |states| >= 1 && Step(states[|states| - 1], a, t, limit, now)
    ensures IsRun(states', actions', times', limit)
    ensures |states'| == |states| + 1 && states'[|states|] == t
    ensures forall k :: 0 <= k < |states| ==> states'[k] == states[k]
  {
    states', actions', times' := states + [t], actions + [a], times + [now];
    hide Step;
  }

  // ---------- rows in processing ----------

  ghost predicate HasHolder(s: State, id: RowId) {
    exists t :: t in s.tasks && Holding(s.tasks[t]) && s.tasks[t].row == id
  }

  /** Every row of the chat that is in processing is held by a task. */
  ghost predicate ProcessingHeld(s: State, chat: ChatId) {
    forall id :: id in s.rows && s.rows[id].chat == chat && s.rows[id].status == Processing ==> HasHolder(s, id)
  }

  lemma HolderKept(s: State, t: State, id: RowId)
    requires HasHolder(s, id)
    requires forall x :: x in s.tasks && Holding(s.tasks[x]) && s.tasks[x].row == id ==>
      x in t.tasks && Holding(t.tasks[x]) && t.tasks[x].row == id
    ensures HasHolder(t, id)
  {
    var x :| x in s.tasks && Holding(s.tasks[x]) && s.tasks[x].row == id;
    assert x in t.tasks;
  }

  /** A task of the chat has its `fail` throw. */
  predicate LosesRow(s: State, a: Action, chat: ChatId) {
    a.FailThrows? && a.task in s.tasks && s.tasks[a.task].chat == chat
  }

  /** A row gets stuck in processing only when the `fail` of its task throws, and only until the next restart. */
  lemma ProcessingStaysHeld(s: State, a: Action, t: State, limit: nat, now: int, chat: ChatId)
    requires Inv(s) && Step(s, a, t, limit, now) && !LosesRow(s, a, chat)
    ensures ProcessingHeld(s, chat) || a.Restart? ==> ProcessingHeld(t, chat)
  {
    if ProcessingHeld(s, chat) || a.Restart? {
      hide CountOk, ActiveOk, SettlementsOk, RowsOk, HoldersOk, ProcessingHeld;
      if a.Fetch? && a.found.Some? {
        FetchStaysHeld(s, t, a.fetching, a.found.value, now, chat);
      } else if a.Acknowledge? || a.Fail? {
        SettleStaysHeld(s, t, a.task, chat);
      } else if TouchesTask(a) {
        TaskStaysHeld(s, a, t, limit, now, chat);
      } else {
        OthersStayHeld(s, a, t, limit, now, chat);
      }
    }
  }

  lemma FetchStaysHeld(s: State, t: State, c: ChatId, found: RowId, now: int, chat: ChatId)
    requires IdsOk(s) && found in s.rows && t == AfterFetch(s, c, found, now) && ProcessingHeld(s, chat)
    ensures ProcessingHeld(t, chat)
  {
    forall id | id in t.rows && t.rows[id].chat == chat && t.rows[id].status == Processing ensures HasHolder(t, id) {
      if id == found {
        assert s.nextTask in t.tasks && Holding(t.tasks[s.nextTask]);
      } else {
        HolderKept(s, t, id);
      }
    }
  }

  lemma SettleStaysHeld(s: State, t: State, task: TaskId, chat: ChatId)
    requires task in s.tasks && ProcessingHeld(s, chat)
    requires t.tasks == Settle(s, task).tasks
    requires (s.tasks[task].row in t.rows ==> t.rows[s.tasks[task].row].status != Processing)
    requires forall id :: id in t.rows ==> id in s.rows && (id != s.tasks[task].row ==> t.rows[id] == s.rows[id])
    ensures ProcessingHeld(t, chat)
  {
    forall id | id in t.rows && t.rows[id].chat == chat && t.rows[id].status == Processing ensures HasHolder(t, id) {
      HolderKept(s, t, id);
    }
  }

  lemma TaskStaysHeld(s: State, a: Action, t: State, limit: nat, now: int, chat: ChatId)
    requires Inv(s) && Step(s, a, t, limit, now) && !LosesRow(s, a, chat) && ProcessingHeld(s, chat)
    requires a.Register? || a.Throw? || a.FailThrows? || a.Finish?
    ensures ProcessingHeld(t, chat)
  {
    hide CountOk, ActiveOk, SettlementsOk, RowsOk, IdsOk;
    forall id | id in t.rows && t.rows[id].chat == chat && t.rows[id].status == Processing ensures HasHolder(t, id) {
      assert a.FailThrows? ==> HoldsItsRow(s, a.task);
      HolderKept(s, t, id);
    }
  }

  lemma OthersStayHeld(s: State, a: Action, t: State, limit: nat, now: int, chat: ChatId)
    requires Step(s, a, t, limit, now) && (ProcessingHeld(s, chat) || a.Restart?)
    requires !TouchesTask(a) && !(a.Fetch? && a.found.Some?)
    ensures ProcessingHeld(t, chat)
  {
    if !a.Restart? {
      forall id | id in t.rows && t.rows[id].chat == chat && t.rows[id].status == Processing ensures HasHolder(t, id) {
        HolderKept(s, t, id);
      }
    }
  }

  // ---------- arrival order ----------

  predicate Of(rows: Rows, id: RowId, chat: ChatId) {
    id in rows && rows[id].chat == chat
  }

  predicate Over(row: Row) {
    row.status == Completed || row.status == DeadLetter
  }

  /** The order two rows of a chat have to keep: finished, then in processing, then pending; never two in processing. */
  predicate Rightly(a: Row, b: Row) {
    && (Over(a) && !Over(b) ==> a.createdAt <= b.createdAt)
    && (a.status == Processing ==> b.status != Processing && (b.status == Pending ==> a.createdAt <= b.createdAt))
  }

  /** At most one row of the chat is in processing; it is no younger than a pending one; and no finished row of the
      chat is younger than an unfinished one. */
  ghost predicate InArrivalOrder(rows: Rows, chat: ChatId) {
    forall a, b :: Of(rows, a, chat) && Of(rows, b, chat) && a != b ==> Rightly(rows[a], rows[b])
  }

  /** No row of the chat that is finished or in processing, other than `id` itself, is younger than `time`. */
  ghost predicate NoneYounger(rows: Rows, chat: ChatId, id: RowId, time: int) {
    forall x: RowId :: Of(rows, x, chat) && x != id && rows[x].status != Pending ==> rows[x].createdAt <= time
  }

  /** Enqueued no earlier than the chat's rows that are finished or in processing; fetched only with none of the chat's
      rows in processing; and no dead letter retried that is older than such a row. */
  ghost predicate Orderly(s: State, a: Action, now: int, chat: ChatId) {
    && (a.Arrive? && a.arriving == chat ==> NoneYounger(s.rows, chat, s.nextRow, now))
    && (a.Fetch? && a.fetching == chat && a.found.Some? ==> forall id: RowId :: Of(s.rows, id, chat) ==>
                                                              s.rows[id].status != Processing)
    && (a.RetryDeadLetter? && Of(s.rows, a.row, chat) && s.rows[a.row].status == DeadLetter ==>
          NoneYounger(s.rows, chat, a.row, s.rows[a.row].createdAt))
  }

  /** One row changes; the order holds if the new row stands rightly to all others. */
  lemma RowChangeInOrder(rows: Rows, id: RowId, row: Row, chat: ChatId)
    requires InArrivalOrder(rows, chat) && id in rows && row.chat == rows[id].chat
    requires forall x :: Of(rows, x, chat) && x != id && row.chat == chat ==>
               Rightly(rows[x], row) && Rightly(row, rows[x])
    ensures InArrivalOrder(rows[id := row], chat)
  {
    var after := rows[id := row];
    forall a, b | Of(after, a, chat) && Of(after, b, chat) && a != b ensures Rightly(after[a], after[b]) {
      assert Of(rows, a, chat) && Of(rows, b, chat);
    }
  }

  /** A row leaves processing. */
  lemma SettleInOrder(rows: Rows, id: RowId, row: Row, chat: ChatId)
    requires InArrivalOrder(rows, chat) && id in rows && rows[id].status == Processing
    requires row.chat == rows[id].chat && row.createdAt == rows[id].createdAt && row.status != Processing
    ensures InArrivalOrder(rows[id := row], chat)
  {
    forall x | Of(rows, x, chat) && x != id && row.chat == chat ensures Rightly(rows[x], row) && Rightly(row, rows[x]) {
      assert Of(rows, id, chat);
      assert Rightly(rows[x], rows[id]) && Rightly(rows[id], rows[x]);
    }
    RowChangeInOrder(rows, id, row, chat);
  }

  lemma FetchInOrder(rows: Rows, c: ChatId, found: RowId, now: int, chat: ChatId)
    requires InArrivalOrder(rows, chat) && OldestPending(rows, c, found)
    requires c == chat ==> forall id: RowId :: Of(rows, id, chat) ==> rows[id].status != Processing
    ensures InArrivalOrder(rows[found := Taken(rows[found], now)], chat)
  {
    var row := Taken(rows[found], now);
    forall x | Of(rows, x, chat) && x != found && row.chat == chat
      ensures Rightly(rows[x], row) && Rightly(row, rows[x])
    {
      assert Of(rows, found, chat);
      assert Rightly(rows[x], rows[found]);
      assert rows[x].status == Pending ==> IsPending(rows, chat, x);
    }
    RowChangeInOrder(rows, found, row, chat);
  }

  /** A row is added. */
  lemma ArriveInOrder(rows: Rows, id: RowId, row: Row, chat: ChatId)
    requires InArrivalOrder(rows, chat) && id !in rows && row.status == Pending
    ensures InArrivalOrder(rows[id := row], chat) <==> (row.chat == chat ==> NoneYounger(rows, chat, id, row.createdAt))
  {
    var after := rows[id := row];
    if row.chat == chat ==> NoneYounger(rows, chat, id, row.createdAt) {
      forall a: RowId, b: RowId | Of(after, a, chat) && Of(after, b, chat) && a != b
        ensures Rightly(after[a], after[b])
      {
        assert a != id ==> Of(rows, a, chat);
        assert b != id ==> Of(rows, b, chat);
      }
    } else {
      var x: RowId :| Of(rows, x, chat) && x != id && rows[x].status != Pending && rows[x].createdAt > row.createdAt;
      assert Of(after, x, chat) && Of(after, id, chat) && !Rightly(after[x], after[id]);
    }
  }

  /** A dead letter becomes pending again. */
  lemma RetryInOrder(rows: Rows, id: RowId, now: int, chat: ChatId)
    requires InArrivalOrder(rows, chat) && id in rows && rows[id].status == DeadLetter
    ensures InArrivalOrder(rows[id := Retried(rows[id], now)], chat) <==>
      (rows[id].chat == chat ==> NoneYounger(rows, chat, id, rows[id].createdAt))
  {
    var row := Retried(rows[id], now);
    var after := rows[id := row];
    if row.chat == chat ==> NoneYounger(rows, chat, id, row.createdAt) {
      RowChangeInOrder(rows, id, row, chat);
    } else {
      var x: RowId :| Of(rows, x, chat) && x != id && rows[x].status != Pending && rows[x].createdAt > row.createdAt;
      assert Of(after, x, chat) && Of(after, id, chat) && !Rightly(after[x], after[id]);
    }
  }

  lemma RestartInOrder(rows: Rows, now: int, chat: ChatId)
    requires InArrivalOrder(rows, chat)
    ensures InArrivalOrder(Recovered(rows, now), chat)
  {
    var after := Recovered(rows, now);
    forall a, b | Of(after, a, chat) && Of(after, b, chat) && a != b ensures Rightly(after[a], after[b]) {
      assert Of(rows, a, chat) && Of(rows, b, chat);
      assert Rightly(rows[a], rows[b]);
    }
  }

  lemma FewerInOrder(rows: Rows, after: Rows, chat: ChatId)
    requires InArrivalOrder(rows, chat) && forall x :: Of(after, x, chat) ==> Of(rows, x, chat) && after[x] == rows[x]
    ensures InArrivalOrder(after, chat)
  {}

  lemma FetchBreaksOrder(rows: Rows, c: ChatId, found: RowId, now: int, chat: ChatId)
    requires OldestPending(rows, c, found) && c == chat
    requires exists id: RowId :: Of(rows, id, chat) && rows[id].status == Processing
    ensures !InArrivalOrder(rows[found := Taken(rows[found], now)], chat)
  {
    var after := rows[found := Taken(rows[found], now)];
    var x: RowId :| Of(rows, x, chat) && rows[x].status == Processing;
    assert Of(after, x, chat) && Of(after, found, chat) && !Rightly(after[x], after[found]);
  }

  /** A step keeps a chat in order exactly when it is orderly. */
  lemma OrderlyStepIff(s: State, a: Action, t: State, limit: nat, now: int, chat: ChatId)
    requires Inv(s) && Step(s, a, t, limit, now) && InArrivalOrder(s.rows, chat)
    ensures InArrivalOrder(t.rows, chat) <==> Orderly(s, a, now, chat)
  {
    hide CountOk, ActiveOk, SettlementsOk, RowsOk, HoldersOk, InArrivalOrder, NoneYounger;
    if a.Arrive? {
      ArriveInOrder(s.rows, s.nextRow, t.rows[s.nextRow], chat);
    } else if a.Fetch? && a.found.Some? {
      FetchOrderIff(s.rows, a.fetching, a.found.value, now, chat);
    } else if a.RetryDeadLetter? && a.row in s.rows && s.rows[a.row].status == DeadLetter {
      RetryInOrder(s.rows, a.row, now, chat);
    } else {
      OtherStepInOrder(s, a, t, limit, now, chat);
    }
  }

  lemma FetchOrderIff(rows: Rows, c: ChatId, found: RowId, now: int, chat: ChatId)
    requires InArrivalOrder(rows, chat) && OldestPending(rows, c, found)
    ensures InArrivalOrder(rows[found := Taken(rows[found], now)], chat) <==>
      (c == chat ==> forall id: RowId :: Of(rows, id, chat) ==> rows[id].status != Processing)
  {
    hide InArrivalOrder, OldestPending;
    if c == chat && exists id: RowId :: Of(rows, id, chat) && rows[id].status == Processing {
      FetchBreaksOrder(rows, c, found, now, chat);
    } else {
      FetchInOrder(rows, c, found, now, chat);
    }
  }

  lemma OtherStepInOrder(s: State, a: Action, t: State, limit: nat, now: int, chat: ChatId)
    requires Inv(s) && Step(s, a, t, limit, now) && InArrivalOrder(s.rows, chat)
    requires !a.Arrive? && !(a.Fetch? && a.found.Some?)
    requires !(a.RetryDeadLetter? && a.row in s.rows && s.rows[a.row].status == DeadLetter)
    ensures InArrivalOrder(t.rows, chat)
  {
    hide CountOk, ActiveOk, SettlementsOk, RowsOk, HoldersOk, InArrivalOrder;
    if a.Acknowledge? || a.Fail? {
      HolderHasRow(s, a.task);
      SettleInOrder(s.rows, s.tasks[a.task].row, t.rows[s.tasks[a.task].row], chat);
    } else if a.Restart? {
      RestartInOrder(s.rows, now, chat);
    } else {
      FewerInOrder(s.rows, t.rows, chat);
    }
  }

  // ---------- runs ----------

  /** Over a whole run the chat is in order in every state exactly when every step is orderly. */
  lemma OrderlyRunIff(states: seq<State>, actions: seq<Action>, times: seq<int>, limit: nat, chat: ChatId)
    requires IsRun(states, actions, times, limit)
    ensures (forall i :: 0 <= i < |states| ==> InArrivalOrder(states[i].rows, chat))
       <==> (forall k :: 0 <= k < |actions| ==> Orderly(states[k], actions[k], times[k], chat))
  {
    assert |states| == |actions| + 1 && |times| == |actions|;
    hide IsRun, InArrivalOrder, Orderly;
    forall k | 0 <= k < |actions| && (forall i :: 0 <= i < |states| ==> InArrivalOrder(states[i].rows, chat))
      ensures Orderly(states[k], actions[k], times[k], chat)
    {
      OrderlyOnRun(states, actions, times, limit, chat, k);
    }
    forall i | 0 <= i < |states| && (forall k :: 0 <= k < |actions| ==> Orderly(states[k], actions[k], times[k], chat))
      ensures InArrivalOrder(states[i].rows, chat)
    {
      OrderlyRunInOrder(states, actions, times, limit, chat, i);
    }
  }

  lemma OrderlyOnRun(states: seq<State>, actions: seq<Action>, times: seq<int>, limit: nat, chat: ChatId, k: nat)
    requires IsRun(states, actions, times, limit) && k < |actions|
    ensures k + 1 < |states|
    ensures InArrivalOrder(states[k].rows, chat) ==>
              (InArrivalOrder(states[k + 1].rows, chat) <==> Orderly(states[k], actions[k], times[k], chat))
  {
    RunKeepsInv(states, actions, times, limit, k);
    hide Inv, Step, InArrivalOrder, Orderly;
    if InArrivalOrder(states[k].rows, chat) {
      OrderlyStepIff(states[k], actions[k], states[k + 1], limit, times[k], chat);
    }
  }

  lemma {:induction false} OrderlyRunInOrder(states: seq<State>, actions: seq<Action>, times: seq<int>, limit: nat,
                                             chat: ChatId, i: nat)
    requires IsRun(states, actions, times, limit) && i < |states|
    requires forall k :: 0 <= k < |actions| ==> Orderly(states[k], actions[k], times[k], chat)
    ensures InArrivalOrder(states[i].rows, chat)
  {
    assert |states| == |actions| + 1 && |times| == |actions|;
    if i > 0 {
      hide IsRun, InArrivalOrder, Orderly;
      OrderlyRunInOrder(states, actions, times, limit, chat, i - 1);
      OrderlyOnRun(states, actions, times, limit, chat, i - 1);
    } else {
      assert states[0] == Initial();
    }
  }

  /** Besides non-overlapping tasks: the clock does not go back behind a finished row, no dead letter older than such a
      row is retried, and no `fail` of the chat's tasks throws. */
  ghost predicate Steady(s: State, a: Action, now: int, chat: ChatId) {
    && (a.Arrive? && a.arriving == chat ==> NoneYounger(s.rows, chat, s.nextRow, now))
    && (a.RetryDeadLetter? && Of(s.rows, a.row, chat) && s.rows[a.row].status == DeadLetter ==>
          NoneYounger(s.rows, chat, a.row, s.rows[a.row].createdAt))
    && !LosesRow(s, a, chat)
  }

  lemma NoneInProcessing(s: State, chat: ChatId)
    requires HoldersOk(s) && TasksOf(s, chat) == {} && ProcessingHeld(s, chat)
    ensures forall id: RowId :: Of(s.rows, id, chat) ==> s.rows[id].status != Processing
  {
    hide HasHolder, HoldersOk, TasksOf;
    forall id | Of(s.rows, id, chat) ensures s.rows[id].status != Processing {
      HolderIsTask(s, id, chat);
    }
  }

  lemma HolderIsTask(s: State, id: RowId, chat: ChatId)
    requires HoldersOk(s) && Of(s.rows, id, chat)
    ensures HasHolder(s, id) ==> TasksOf(s, chat) != {}
  {
    if HasHolder(s, id) {
      var x :| x in s.tasks && Holding(s.tasks[x]) && s.tasks[x].row == id;
      assert HoldsItsRow(s, x);
      assert x in TasksOf(s, chat);
    }
  }

  /** A dequeue that finds a row starts a task, so it finds the chat without one if the chat never has two. */
  lemma FetchFindsChatIdle(s: State, t: State, chat: ChatId, found: RowId, now: int)
    requires IdsOk(s) && found in s.rows && t == AfterFetch(s, chat, found, now) && |TasksOf(t, chat)| <= 1
    ensures TasksOf(s, chat) == {}
  {
    assert s.nextTask !in TasksOf(s, chat);
    assert TasksOf(t, chat) == TasksOf(s, chat) + {s.nextTask};
  }

  lemma SteadyKeeps(s: State, a: Action, t: State, limit: nat, now: int, chat: ChatId)
    requires Inv(s) && Step(s, a, t, limit, now) && Steady(s, a, now, chat) && |TasksOf(t, chat)| <= 1
    requires ProcessingHeld(s, chat) && InArrivalOrder(s.rows, chat)
    ensures ProcessingHeld(t, chat) && InArrivalOrder(t.rows, chat)
  {
    hide ProcessingHeld, InArrivalOrder, LosesRow, HoldersOk, NoneYounger, TasksOf;
    ProcessingStaysHeld(s, a, t, limit, now, chat);
    if a.Fetch? && a.fetching == chat && a.found.Some? {
      FetchFindsChatIdle(s, t, chat, a.found.value, now);
      NoneInProcessing(s, chat);
    }
    OrderlyStepIff(s, a, t, limit, now, chat);
  }

  /** A chat whose tasks never overlap finishes its rows in the order they arrived, crashes included: whenever one of
      its rows is finished and another is not, the finished one is not the younger. */
  lemma {:induction false} NonOverlappingChatsFinishInOrder(states: seq<State>, actions: seq<Action>, times: seq<int>,
                                                            limit: nat, chat: ChatId, i: nat)
    requires IsRun(states, actions, times, limit) && i < |states|
    requires forall k :: 0 <= k < |states| ==> |TasksOf(states[k], chat)| <= 1
    requires forall k :: 0 <= k < |actions| ==> Steady(states[k], actions[k], times[k], chat)
    ensures ProcessingHeld(states[i], chat) && InArrivalOrder(states[i].rows, chat)
  {
    if i > 0 {
      var h := i - 1;
      NonOverlappingChatsFinishInOrder(states, actions, times, limit, chat, h);
      RunKeepsInv(states, actions, times, limit, h);
      hide Inv, Step, Steady, TasksOf, ProcessingHeld, InArrivalOrder;
      assert Step(states[h], actions[h], states[h + 1], limit, times[h]);
      assert Steady(states[h], actions[h], times[h], chat);
      SteadyKeeps(states[h], actions[h], states[i], limit, times[h], chat);
    }
  }

  // ---------- a run in which a row is overtaken ----------

  /** Chat 0 with an older and a younger row; at most one task. */
  function Overtaking(older: Status, younger: Status, tasks: map<TaskId, Task>, requests: multiset<ChatId>,
                      active: map<ChatId, RowId>): State {
    State(map[0 := Row(0, older, if older == Pending then 0 else 1, 3, 0, 1),
              1 := Row(0, younger, if younger == Pending then 0 else 1, 3, 1, 1)],
          2, map[0 := 0, 1 := 0], tasks,
          if younger == Pending then (if older == Pending then 0 else 1) else 2, requests, active, |active|, false)
  }

  lemma OlderFetched(s: State) returns (t: State)
    requires s.rows == map[0 := Row(0, Pending, 0, 3, 0, 0), 1 := Row(0, Pending, 0, 3, 1, 1)] && s.nextRow == 2
    requires s.recoveries == map[0 := 0, 1 := 0] && s.tasks == map[] && s.nextTask == 0 && s.requests == multiset{0}
    requires s.active == map[] && s.processing == 0 && !s.stopping
    ensures t == Overtaking(Processing, Pending, map[0 := Task(0, 0, Fetched, 0)], multiset{}, map[])
    ensures Step(s, Fetch(0, Some(0)), t, 1, 1)
  {
    t := AfterFetch(s, 0, 0, 1);
    assert IsPending(s.rows, 0, 0) && 0 in s.requests;
    assert forall other: RowId :: IsPending(s.rows, 0, other) ==> other == 0 || other == 1;
    assert t.rows == Overtaking(Processing, Pending, map[], multiset{}, map[]).rows;
    assert t.requests == multiset{};
  }

  lemma OlderRegistersAndThrows() returns (u: State, v: State, w: State)
    ensures var s := Overtaking(Processing, Pending, map[0 := Task(0, 0, Fetched, 0)], multiset{}, map[]);
      Step(s, Register(0), u, 1, 1) && Step(u, Throw(0), v, 1, 1) && Step(v, FailThrows(0), w, 1, 1)
    ensures u.tasks == map[0 := Task(0, 0, Working, 0)] && v.tasks == map[0 := Task(0, 0, Failing, 0)]
    ensures w == Overtaking(Processing, Pending, map[0 := Task(0, 0, GaveUp, 0)], multiset{}, map[0 := 0])
  {
    var s := Overtaking(Processing, Pending, map[0 := Task(0, 0, Fetched, 0)], multiset{}, map[]);
    u := AfterRegister(s, 0);
    assert u.tasks == map[0 := Task(0, 0, Working, 0)];
    v := Moved(u, 0, Failing);
    assert v.tasks == map[0 := Task(0, 0, Failing, 0)];
    w := Moved(v, 0, GaveUp);
    assert w.tasks == map[0 := Task(0, 0, GaveUp, 0)];
  }

  lemma OlderFinishes() returns (t: State)
    ensures t == Overtaking(Processing, Pending, map[], multiset{0}, map[])
    ensures Step(Overtaking(Processing, Pending, map[0 := Task(0, 0, GaveUp, 0)], multiset{}, map[0 := 0]), Finish(0),
                 t, 1, 1)
  {
    var s := Overtaking(Processing, Pending, map[0 := Task(0, 0, GaveUp, 0)], multiset{}, map[0 := 0]);
    t := AfterFinish(s, 0);
    assert t.tasks == map[] && t.active == map[];
    assert multiset{} + multiset{0} == multiset{0};
  }

  lemma YoungerFetched() returns (t: State)
    ensures Step(Overtaking(Processing, Pending, map[], multiset{0}, map[]), Fetch(0, Some(1)), t, 1, 1)
    ensures t.tasks == map[1 := Task(0, 1, Fetched, 0)]
    ensures t.rows == map[0 := Row(0, Processing, 1, 3, 0, 1), 1 := Row(0, Processing, 1, 3, 1, 1)]
  {
    var s := Overtaking(Processing, Pending, map[], multiset{0}, map[]);
    assert IsPending(s.rows, 0, 1) && 0 in s.requests;
    assert forall other: RowId :: IsPending(s.rows, 0, other) ==> other == 1;
    t := AfterFetch(s, 0, 1, 1);
    assert t.tasks == map[1 := Task(0, 1, Fetched, 0)];
  }

  lemma YoungerCompletes(t: State) returns (u: State, w: State)
    requires t.tasks == map[1 := Task(0, 1, Fetched, 0)]
    requires t.rows == map[0 := Row(0, Processing, 1, 3, 0, 1), 1 := Row(0, Processing, 1, 3, 1, 1)]
    ensures Step(t, Register(1), u, 1, 1) && Step(u, Acknowledge(1), w, 1, 1)
    ensures u.tasks == map[1 := Task(0, 1, Working, 0)] && w.tasks == map[1 := Task(0, 1, Settled, 1)]
    ensures w.rows == map[0 := Row(0, Processing, 1, 3, 0, 1), 1 := Row(0, Completed, 1, 3, 1, 1)]
  {
    u := AfterRegister(t, 1);
    assert u.tasks == map[1 := Task(0, 1, Working, 0)];
    w := WithRow(Settle(u, 1), 1, Done(u.rows[1], 1));
    assert w.tasks == map[1 := Task(0, 1, Settled, 1)];
  }

  lemma OneTask(s: State, id: TaskId, task: Task)
    ensures s.tasks == map[id := task] || s.tasks == map[] ==> |TasksOf(s, 0)| <= 1
  {
    if s.tasks == map[id := task] || s.tasks == map[] {
      SubsetSize(TasksOf(s, 0), {id});
    }
  }

  lemma BothArrive() returns (s1: State, s2: State, s3: State)
    ensures Step(Initial(), Arrive(0, 3), s1, 1, 0) && Step(s1, Arrive(0, 3), s2, 1, 1)
    ensures Step(s2, Notify(0, false), s3, 1, 1)
    ensures s1.tasks == map[] && s2.tasks == map[] && s3.tasks == map[]
    ensures s3.rows == map[0 := Row(0, Pending, 0, 3, 0, 0), 1 := Row(0, Pending, 0, 3, 1, 1)] && s3.nextRow == 2
    ensures s3.recoveries == map[0 := 0, 1 := 0] && s3.nextTask == 0 && s3.requests == multiset{0}
    ensures s3.active == map[] && s3.processing == 0 && !s3.stopping
  {
    s1 := AfterArrive(Initial(), 0, 3, 0);
    s2 := AfterArrive(s1, 0, 3, 1);
    s3 := AfterNotify(s2, 0, false, 1);
    assert multiset{} + multiset{0} == multiset{0};
    assert s2.rows == map[0 := Row(0, Pending, 0, 3, 0, 0), 1 := Row(0, Pending, 0, 3, 1, 1)];
    assert s2.recoveries == map[0 := 0, 1 := 0];
  }

  /** The chat never has two tasks. */
  ghost predicate Alone(states: seq<State>) {
    forall k :: 0 <= k < |states| ==> |TasksOf(states[k], 0)| <= 1
  }

  lemma ExtendedAlone(states: seq<State>, actions: seq<Action>, times: seq<int>, a: Action, t: State, now: int,
                      id: TaskId, task: Task)
    returns (states': seq<State>, actions': seq<Action>, times': seq<int>)
    requires IsRun(states, actions, times, 1) && Alone(states) && |states| >= 1
    requires Step(states[|states| - 1], a, t, 1, now)
    requires t.tasks == map[id := task] || t.tasks == map[]
    ensures IsRun(states', actions', times', 1) && Alone(states') && |states'| == |states| + 1 && states'[|states|] == t
  {
    OneTask(t, id, task);
    hide Step, IsRun, TasksOf;
    states', actions', times' := Extended(states, actions, times, 1, a, t, now);
  }

  /** The older row is taken and lost. */
  lemma LostRow() returns (states: seq<State>, actions: seq<Action>, times: seq<int>)
    ensures IsRun(states, actions, times, 1) && Alone(states) && |states| == 9
    ensures states[8] == Overtaking(Processing, Pending, map[], multiset{0}, map[])
  {
    var s1, s2, s3 := BothArrive();
    var s4 := OlderFetched(s3);
    var s5, s6, s7 := OlderRegistersAndThrows();
    var s8 := OlderFinishes();
    states, actions, times := [Initial()], [], [];
    assert IsRun(states, actions, times, 1);
    var task := Task(0, 0, Fetched, 0);
    OneTask(Initial(), 0, task);
    assert Alone(states);
    LostTasks();
    hide Step, IsRun, Overtaking, Alone;
    states, actions, times := ExtendedAlone(states, actions, times, Arrive(0, 3), s1, 0, 0, task);
    states, actions, times := ExtendedAlone(states, actions, times, Arrive(0, 3), s2, 1, 0, task);
    states, actions, times := ExtendedAlone(states, actions, times, Notify(0, false), s3, 1, 0, task);
    states, actions, times := ExtendedAlone(states, actions, times, Fetch(0, Some(0)), s4, 1, 0, task);
    states, actions, times := ExtendedAlone(states, actions, times, Register(0), s5, 1, 0, Task(0, 0, Working, 0));
    states, actions, times := ExtendedAlone(states, actions, times, Throw(0), s6, 1, 0, Task(0, 0, Failing, 0));
    states, actions, times := ExtendedAlone(states, actions, times, FailThrows(0), s7, 1, 0, Task(0, 0, GaveUp, 0));
    states, actions, times := ExtendedAlone(states, actions, times, Finish(0), s8, 1, 0, task);
  }

  lemma LostTasks()
    ensures Overtaking(Processing, Pending, map[0 := Task(0, 0, Fetched, 0)], multiset{},
                       map[]).tasks == map[0 := Task(0, 0, Fetched, 0)]
    ensures Overtaking(Processing, Pending, map[0 := Task(0, 0, GaveUp, 0)], multiset{},
                       map[0 := 0]).tasks == map[0 := Task(0, 0, GaveUp, 0)]
    ensures Overtaking(Processing, Pending, map[], multiset{0}, map[]).tasks == map[]
  {}

  /** A `fail` that throws leaves the older row in processing; the chat goes on and finishes the younger one first,
      although its tasks never overlap. */
  lemma OvertakenAfterLostRow() returns (states: seq<State>, actions: seq<Action>, times: seq<int>)
    ensures IsRun(states, actions, times, 1) && Alone(states) && |states| == 12 && !InArrivalOrder(states[11].rows, 0)
  {
    states, actions, times := LostRow();
    var s9 := YoungerFetched();
    var s10, s11 := YoungerCompletes(s9);
    Overtaken(s11);
    hide Step, IsRun, Overtaking, Alone, InArrivalOrder;
    states, actions, times := ExtendedAlone(states, actions, times, Fetch(0, Some(1)), s9, 1, 1,
                                            Task(0, 1, Fetched, 0));
    states, actions, times := ExtendedAlone(states, actions, times, Register(1), s10, 1, 1, Task(0, 1, Working, 0));
    states, actions, times := ExtendedAlone(states, actions, times, Acknowledge(1), s11, 1, 1, Task(0, 1, Settled, 1));
  }

  lemma Overtaken(s: State)
    requires s.rows == map[0 := Row(0, Processing, 1, 3, 0, 1), 1 := Row(0, Completed, 1, 3, 1, 1)]
    ensures !InArrivalOrder(s.rows, 0)
  {
    assert Of(s.rows, 0, 0) && Of(s.rows, 1, 0) && !Rightly(s.rows[1], s.rows[0]);
  }

  /** A notification of the chat is admitted only while the chat has neither a task nor a request. */
  ghost predicate AdmittedWhenIdle(states: seq<State>, actions: seq<Action>, limit: nat, chat: ChatId)
    requires |states| == |actions| + 1
  {
    forall k :: 0 <= k < |actions| ==> (Admits(states[k], actions[k], chat, limit) ==> Load(states[k], chat) == 0)
  }

  lemma {:induction false} SerialLoad(states: seq<State>, actions: seq<Action>, times: seq<int>, limit: nat,
                                      chat: ChatId, i: nat)
    requires IsRun(states, actions, times, limit) && AdmittedWhenIdle(states, actions, limit, chat) && i < |states|
    ensures Load(states[i], chat) <= 1
  {
    if i == 0 {
      assert TasksOf(states[0], chat) == {};
    } else {
      var h := i - 1;
      SerialLoad(states, actions, times, limit, chat, h);
      RunKeepsInv(states, actions, times, limit, h);
      hide Inv, Step;
      assert Step(states[h], actions[h], states[h + 1], limit, times[h]);
      LoadStep(states[h], actions[h], states[i], limit, times[h], chat);
    }
  }

  /** In particular when its notifications are admitted only while it is idle. */
  lemma SerialChatsFinishInOrder(states: seq<State>, actions: seq<Action>, times: seq<int>, limit: nat, chat: ChatId,
                                 i: nat)
    requires IsRun(states, actions, times, limit) && AdmittedWhenIdle(states, actions, limit, chat) && i < |states|
    requires forall k :: 0 <= k < |actions| ==> Steady(states[k], actions[k], times[k], chat)
    ensures Load(states[i], chat) <= 1 && InArrivalOrder(states[i].rows, chat)
  {
    hide IsRun, InArrivalOrder, TasksOf;
    forall k | 0 <= k < |states| ensures Load(states[k], chat) <= 1 && |TasksOf(states[k], chat)| <= 1 {
      SerialLoad(states, actions, times, limit, chat, k);
    }
    NonOverlappingChatsFinishInOrder(states, actions, times, limit, chat, i);
  }
}
