/** Is a pending row always going to be served? Only while a task, a dequeue or a notification of its chat is under
    way. */
module OrchestratorServing {
  import opened Wrappers
  import opened MessageQueues
  import opened OrchestratorSteps
  import opened OrchestratorRuns
  import opened OrchestratorOrder

  /** Notifications of the chat that are still to be delivered: one for each arrival, and after a restart the look of
      the start-up scan at a chat with pending rows. */
  ghost function Outstanding(n: nat, a: Action, t: State, chat: ChatId): nat {
    match a
    case Arrive(c, _) => if c == chat then n + 1 else n
    case Notify(c, _) => if c == chat && n > 0 then n - 1 else n
    case Restart => if HasPending(t.rows, chat) then 1 else 0
    case _ => n
  }

  /** A pending row of the chat has a task, a dequeue or a notification that will look after it. */
  ghost predicate Served(s: State, n: nat, chat: ChatId) {
    HasPending(s.rows, chat) ==> Load(s, chat) > 0 || n > 0
  }

  /** The last one looking after the chat goes without taking a row: a notification that is dropped by the limit or
      by stopping, a dequeue that throws, a task that ends while stopping; or a dead letter is retried with nobody
      there. */
  ghost predicate Orphans(s: State, a: Action, n: nat, chat: ChatId, limit: nat) {
    match a
    case Notify(c, atStart) =>
      c == chat && HasPending(s.rows, chat) && Load(s, chat) == 0 && n == 1 && !Admits(s, a, chat, limit)
    case FetchThrows(c) => c == chat && HasPending(s.rows, chat) && Load(s, chat) == 1 && n == 0
    case Finish(task) =>
      s.stopping && task in TasksOf(s, chat) && HasPending(s.rows, chat) && Load(s, chat) == 1 && n == 0
    case RetryDeadLetter(id) =>
      id in s.rows && s.rows[id].chat == chat && s.rows[id].status == DeadLetter && Load(s, chat) == 0 && n == 0
    case _ => false
  }

  // ---------- single steps ----------

  lemma SameLoad(s: State, t: State, chat: ChatId)
    requires t.requests == s.requests && t.tasks.Keys == s.tasks.Keys
    requires forall x :: x in s.tasks ==> t.tasks[x].chat == s.tasks[x].chat
    ensures Load(t, chat) == Load(s, chat)
  {
    SameTasksOf(s, t, chat);
  }

  lemma RequestGone(s: State, t: State, c: ChatId, chat: ChatId)
    requires c in s.requests && t == s.(requests := s.requests - multiset{c})
    ensures Load(t, chat) == Load(s, chat) - if c == chat then 1 else 0
  {
    SameTasksOf(s, t, chat);
  }

  lemma FinishedLoad(s: State, t: State, task: TaskId, chat: ChatId)
    requires task in s.tasks && t == AfterFinish(s, task)
    ensures Load(t, chat) == Load(s, chat) - if s.stopping && task in TasksOf(s, chat) then 1 else 0
  {
    if task in TasksOf(s, chat) {
      assert TasksOf(t, chat) == TasksOf(s, chat) - {task};
    } else {
      assert TasksOf(t, chat) == TasksOf(s, chat);
    }
  }

  lemma SameRows(s: State, t: State, chat: ChatId)
    requires forall id :: IsPending(t.rows, chat, id) <==> IsPending(s.rows, chat, id)
    ensures HasPending(t.rows, chat) <==> HasPending(s.rows, chat)
  {}

  /** Rows and dequeues as they were: what a notification does when it is not admitted. */
  lemma NotifyServes(s: State, c: ChatId, atStart: bool, t: State, limit: nat, now: int, chat: ChatId, n: nat)
    requires Step(s, Notify(c, atStart), t, limit, now) && Served(s, n, chat)
    ensures Served(t, Outstanding(n, Notify(c, atStart), t, chat), chat) <==>
              !Orphans(s, Notify(c, atStart), n, chat, limit)
  {
    hide Load, HasPending;
    NotifyLoad(s, t, c, atStart, limit, chat);
    assert t.rows == s.rows;
  }

  lemma FetchServes(s: State, c: ChatId, found: Option<RowId>, t: State, limit: nat, now: int, chat: ChatId, n: nat)
    requires Inv(s) && Step(s, Fetch(c, found), t, limit, now) && Served(s, n, chat)
    ensures Served(t, n, chat)
  {
    if found.Some? {
      FetchLoad(s, t, c, chat, found.value, now);
      hide Inv, Load, OldestPending;
      assert forall id :: IsPending(t.rows, chat, id) ==> IsPending(s.rows, chat, id);
    } else {
      RequestGone(s, t, c, chat);
      hide Inv, Load;
      assert forall id :: !IsPending(t.rows, c, id);
    }
  }

  /** A task that gives its row back is still there. */
  lemma SettleServes(s: State, a: Action, t: State, limit: nat, now: int, chat: ChatId, n: nat)
    requires Inv(s) && Step(s, a, t, limit, now) && Served(s, n, chat) && (a.Acknowledge? || a.Fail?)
    ensures Served(t, n, chat)
  {
    HolderHasRow(s, a.task);
    hide Inv, Load;
    SameLoad(s, t, chat);
    if chat == s.tasks[a.task].chat {
      TaskLoads(s, a.task);
    } else {
      assert forall id :: IsPending(t.rows, chat, id) ==> IsPending(s.rows, chat, id);
    }
  }

  lemma TaskLoads(s: State, task: TaskId)
    requires task in s.tasks
    ensures Load(s, s.tasks[task].chat) > 0
  {
    assert task in TasksOf(s, s.tasks[task].chat);
  }

  lemma RetryServes(s: State, id: RowId, t: State, limit: nat, now: int, chat: ChatId, n: nat)
    requires Step(s, RetryDeadLetter(id), t, limit, now) && Served(s, n, chat)
    ensures Served(t, n, chat) <==> !Orphans(s, RetryDeadLetter(id), n, chat, limit)
  {
    hide Load;
    SameLoad(s, t, chat);
    if id in s.rows && s.rows[id].chat == chat && s.rows[id].status == DeadLetter {
      assert IsPending(t.rows, chat, id);
    } else {
      SameRows(s, t, chat);
    }
  }

  lemma ArriveServes(s: State, c: ChatId, maxAttempts: int, t: State, limit: nat, now: int, chat: ChatId, n: nat)
    requires Step(s, Arrive(c, maxAttempts), t, limit, now) && Served(s, n, chat)
    ensures Served(t, Outstanding(n, Arrive(c, maxAttempts), t, chat), chat)
  {
    hide Load;
    SameLoad(s, t, chat);
    if c != chat {
      assert forall id :: IsPending(t.rows, chat, id) ==> IsPending(s.rows, chat, id) || id == s.nextRow;
      assert !IsPending(t.rows, chat, s.nextRow);
    }
  }

  lemma LeavingServes(s: State, a: Action, t: State, limit: nat, now: int, chat: ChatId, n: nat)
    requires Step(s, a, t, limit, now) && Served(s, n, chat) && (a.FetchThrows? || a.Finish?)
    ensures Served(t, n, chat) <==> !Orphans(s, a, n, chat, limit)
  {
    if a.FetchThrows? {
      RequestGone(s, t, a.fetching, chat);
    } else {
      FinishedLoad(s, t, a.task, chat);
    }
    hide Load, HasPending;
    assert t.rows == s.rows;
  }

  /** Steps that neither add a pending row nor drop anybody who looks after one. */
  lemma QuietServes(s: State, a: Action, t: State, limit: nat, now: int, chat: ChatId, n: nat)
    requires Step(s, a, t, limit, now) && Served(s, n, chat)
    requires a.Register? || a.Throw? || a.FailThrows? || a.Stop? || a.Purge?
    ensures Served(t, n, chat)
  {
    SameLoad(s, t, chat);
    hide Load;
    assert forall id :: IsPending(t.rows, chat, id) ==> IsPending(s.rows, chat, id);
  }

  /** A step leaves a pending row of the chat to nobody exactly when it is one of these. */
  lemma ServedStepIff(s: State, a: Action, t: State, limit: nat, now: int, chat: ChatId, n: nat)
    requires Inv(s) && Step(s, a, t, limit, now) && Served(s, n, chat)
    ensures Served(t, Outstanding(n, a, t, chat), chat) <==> !Orphans(s, a, n, chat, limit)
  {
    hide Inv, Load, Served, Step;
    match a {
      case Arrive(c, maxAttempts) => ArriveServes(s, c, maxAttempts, t, limit, now, chat, n);
      case Notify(c, atStart) => NotifyServes(s, c, atStart, t, limit, now, chat, n);
      case Fetch(c, found) => FetchServes(s, c, found, t, limit, now, chat, n);
      case FetchThrows(_) => LeavingServes(s, a, t, limit, now, chat, n);
      case Finish(_) => LeavingServes(s, a, t, limit, now, chat, n);
      case Acknowledge(_) => SettleServes(s, a, t, limit, now, chat, n);
      case Fail(_) => SettleServes(s, a, t, limit, now, chat, n);
      case RetryDeadLetter(id) => RetryServes(s, id, t, limit, now, chat, n);
      case Restart => ScanServes(t, chat);
      case _ => QuietServes(s, a, t, limit, now, chat, n);
    }
  }

  lemma ScanServes(t: State, chat: ChatId)
    ensures Served(t, if HasPending(t.rows, chat) then 1 else 0, chat)
  {}

  // ---------- runs ----------

  /** Notifications of the chat outstanding in state `i` of a run. */
  ghost function OutstandingAt(states: seq<State>, actions: seq<Action>, chat: ChatId, i: nat): nat
    requires i < |states| && |states| == |actions| + 1
  {
    if i == 0 then 0 else Outstanding(OutstandingAt(states, actions, chat, i - 1), actions[i - 1], states[i], chat)
  }

  ghost predicate ServedAt(states: seq<State>, actions: seq<Action>, chat: ChatId, i: nat)
    requires i < |states| && |states| == |actions| + 1
  {
    Served(states[i], OutstandingAt(states, actions, chat, i), chat)
  }

  ghost predicate OrphansAt(states: seq<State>, actions: seq<Action>, chat: ChatId, limit: nat, k: nat)
    requires k < |actions| && |states| == |actions| + 1
  {
    Orphans(states[k], actions[k], OutstandingAt(states, actions, chat, k), chat, limit)
  }

  lemma ServedOnRun(states: seq<State>, actions: seq<Action>, times: seq<int>, limit: nat, chat: ChatId, k: nat)
    requires IsRun(states, actions, times, limit) && k < |actions| && ServedAt(states, actions, chat, k)
    ensures ServedAt(states, actions, chat, k + 1) <==> !OrphansAt(states, actions, chat, limit, k)
  {
    RunKeepsInv(states, actions, times, limit, k);
    hide Inv, Step, Served, Orphans, Outstanding;
    ServedStepIff(states[k], actions[k], states[k + 1], limit, times[k], chat, OutstandingAt(states, actions, chat, k));
  }

  lemma {:induction false} ServedUpTo(states: seq<State>, actions: seq<Action>, times: seq<int>, limit: nat,
                                      chat: ChatId, i: nat)
    requires IsRun(states, actions, times, limit) && i < |states|
    requires forall k: nat :: k < |actions| ==> !OrphansAt(states, actions, chat, limit, k)
    ensures ServedAt(states, actions, chat, i)
  {
    if i > 0 {
      hide IsRun, OrphansAt, ServedAt;
      ServedUpTo(states, actions, times, limit, chat, i - 1);
      ServedOnRun(states, actions, times, limit, chat, i - 1);
    } else {
      NothingPending(chat);
    }
  }

  lemma NothingPending(chat: ChatId)
    ensures !HasPending(Initial().rows, chat)
  {}

  /** Over a whole run every pending row of the chat is looked after in every state, exactly when no step orphans
      one. */
  lemma PendingIsServedIff(states: seq<State>, actions: seq<Action>, times: seq<int>, limit: nat, chat: ChatId)
    requires IsRun(states, actions, times, limit)
    ensures (forall i: nat :: i < |states| ==> ServedAt(states, actions, chat, i))
       <==> (forall k: nat :: k < |actions| ==> !OrphansAt(states, actions, chat, limit, k))
  {
    assert |states| == |actions| + 1;
    hide IsRun, OrphansAt, ServedAt;
    forall k: nat | k < |actions| && (forall i: nat :: i < |states| ==> ServedAt(states, actions, chat, i))
      ensures !OrphansAt(states, actions, chat, limit, k)
    {
      ServedOnRun(states, actions, times, limit, chat, k);
    }
    forall i: nat | i < |states| && (forall k: nat :: k < |actions| ==> !OrphansAt(states, actions, chat, limit, k))
      ensures ServedAt(states, actions, chat, i)
    {
      ServedUpTo(states, actions, times, limit, chat, i);
    }
  }

  // ---------- orphans stay ----------

  /** A row with nobody looking after its chat stays as it is until a notification of the chat is admitted; a restart
      alone does not help, its scan is such a notification. */
  lemma OrphanStays(s: State, a: Action, t: State, limit: nat, now: int, chat: ChatId, id: RowId)
    requires Inv(s) && Step(s, a, t, limit, now) && Load(s, chat) == 0 && IsPending(s.rows, chat, id)
    requires !Admits(s, a, chat, limit)
    ensures Load(t, chat) == 0 && IsPending(t.rows, chat, id)
  {
    LoadStep(s, a, t, limit, now, chat);
    NoRequest(s, chat);
    hide Inv, Load, Admits, Step;
    PendingKept(s, a, t, limit, now, chat, id);
  }

  lemma NoRequest(s: State, chat: ChatId)
    requires Load(s, chat) == 0
    ensures chat !in s.requests
  {}

  /** Only a dequeue of its chat takes a pending row. */
  lemma PendingKept(s: State, a: Action, t: State, limit: nat, now: int, chat: ChatId, id: RowId)
    requires Inv(s) && Step(s, a, t, limit, now) && IsPending(s.rows, chat, id) && chat !in s.requests
    ensures IsPending(t.rows, chat, id)
  {
    if a.Acknowledge? || a.Fail? {
      HolderHasRow(s, a.task);
      hide Inv;
    } else {
      OtherPendingKept(s, a, t, limit, now, chat, id);
    }
  }

  lemma OtherPendingKept(s: State, a: Action, t: State, limit: nat, now: int, chat: ChatId, id: RowId)
    requires Inv(s) && Step(s, a, t, limit, now) && IsPending(s.rows, chat, id) && chat !in s.requests
    requires !a.Acknowledge? && !a.Fail?
    ensures IsPending(t.rows, chat, id)
  {
    FreshRow(s);
    hide Inv;
    if TouchesTask(a) {
      TaskStepKeepsRows(s, a, t, limit, now);
      hide Step;
    }
  }

  lemma TaskStepKeepsRows(s: State, a: Action, t: State, limit: nat, now: int)
    requires Step(s, a, t, limit, now) && TouchesTask(a) && !a.Acknowledge? && !a.Fail?
    ensures t.rows == s.rows
  {}

  lemma FreshRow(s: State)
    requires Inv(s)
    ensures s.nextRow !in s.rows
  {}

  lemma {:induction false} OrphanStaysOverRuns(states: seq<State>, actions: seq<Action>, times: seq<int>, limit: nat,
                                               chat: ChatId, id: RowId,
                                               i: nat, j: nat)
    requires IsRun(states, actions, times, limit) && i <= j < |states|
    requires Load(states[i], chat) == 0 && IsPending(states[i].rows, chat, id)
    requires forall k :: i <= k < j ==> !Admits(states[k], actions[k], chat, limit)
    ensures Load(states[j], chat) == 0 && IsPending(states[j].rows, chat, id)
    decreases j - i
  {
    if i < j {
      var h := j - 1;
      OrphanStaysOverRuns(states, actions, times, limit, chat, id, i, h);
      RunKeepsInv(states, actions, times, limit, h);
      hide Inv, Step, Load, IsPending, Admits;
      assert Step(states[h], actions[h], states[h + 1], limit, times[h]);
      OrphanStays(states[h], actions[h], states[j], limit, times[h], chat, id);
    }
  }

  // ---------- a row nobody will look after ----------

  /** Chat 0 has been served, chat 1 has one row. */
  function Waiting(first: Status, tasks: map<TaskId, Task>, requests: multiset<ChatId>,
                   active: map<ChatId, RowId>): State {
    State(map[0 := Row(0, first, 1, 3, 0, 0), 1 := Row(1, Pending, 0, 3, 0, 0)], 2, map[0 := 0, 1 := 0],
          tasks, 1, requests, active, |active|, false)
  }

  lemma FirstChatStarts() returns (s1: State, s2: State, s3: State, s4: State)
    ensures Step(Initial(), Arrive(0, 3), s1, 1, 0) && Step(s1, Notify(0, false), s2, 1, 0)
    ensures Step(s2, Fetch(0, Some(0)), s3, 1, 0) && Step(s3, Register(0), s4, 1, 0)
    ensures s4 == State(map[0 := Row(0, Processing, 1, 3, 0, 0)], 1, map[0 := 0], map[0 := Task(0, 0, Working, 0)], 1,
                        multiset{}, map[0 := 0], 1, false)
  {
    s1 := AfterArrive(Initial(), 0, 3, 0);
    s2 := AfterNotify(s1, 0, false, 1);
    assert multiset{} + multiset{0} == multiset{0};
    assert s1.rows == map[0 := Row(0, Pending, 0, 3, 0, 0)] && s1.recoveries == map[0 := 0];
    s3 := AfterFetch(s2, 0, 0, 0);
    assert IsPending(s2.rows, 0, 0) && 0 in s2.requests;
    assert s3.requests == multiset{};
    s4 := AfterRegister(s3, 0);
    assert s4.tasks == map[0 := Task(0, 0, Working, 0)];
  }

  /** The limit is used up by chat 0, so the notification of chat 1 is dropped. */
  lemma SecondChatIsDropped(s: State)
    requires s == State(map[0 := Row(0, Processing, 1, 3, 0, 0)], 1, map[0 := 0], map[0 := Task(0, 0, Working, 0)], 1,
                        multiset{}, map[0 := 0], 1, false)
    ensures var t := Waiting(Processing, map[0 := Task(0, 0, Working, 0)], multiset{}, map[0 := 0]);
      Step(s, Arrive(1, 3), t, 1, 0) && Step(t, Notify(1, false), t, 1, 0) && Orphans(t, Notify(1, false), 1, 1, 1)
  {
    var t := AfterArrive(s, 1, 3, 0);
    assert t == Waiting(Processing, map[0 := Task(0, 0, Working, 0)], multiset{}, map[0 := 0]);
    assert IsPending(t.rows, 1, 1);
    assert TasksOf(t, 1) == {};
  }

  lemma FirstChatSettles() returns (u: State)
    ensures var s := Waiting(Processing, map[0 := Task(0, 0, Working, 0)], multiset{}, map[0 := 0]);
      Step(s, Acknowledge(0), u, 1, 0)
    ensures u == Waiting(Completed, map[0 := Task(0, 0, Settled, 1)], multiset{}, map[0 := 0])
  {
    var s := Waiting(Processing, map[0 := Task(0, 0, Working, 0)], multiset{}, map[0 := 0]);
    u := WithRow(Settle(s, 0), 0, Done(s.rows[0], 0));
    assert u == Waiting(Completed, map[0 := Task(0, 0, Settled, 1)], multiset{}, map[0 := 0]);
  }

  lemma FirstChatEnds() returns (v: State)
    ensures var u := Waiting(Completed, map[0 := Task(0, 0, Settled, 1)], multiset{}, map[0 := 0]);
      Step(u, Finish(0), v, 1, 0)
    ensures v == Waiting(Completed, map[], multiset{0}, map[])
  {
    var u := Waiting(Completed, map[0 := Task(0, 0, Settled, 1)], multiset{}, map[0 := 0]);
    v := AfterFinish(u, 0);
    assert multiset{} + multiset{0} == multiset{0};
    assert v.tasks == map[] && v.active == map[];
  }

  lemma DrainFindsNothing()
    ensures Step(Waiting(Completed, map[], multiset{0}, map[]), Fetch(0, None),
                 Waiting(Completed, map[], multiset{}, map[]), 1, 0)
  {
    assert multiset{0} - multiset{0} == multiset{};
  }

  /** No crash, no stop, and nothing throws. */
  predicate Calm(a: Action) {
    !a.Restart? && !a.Stop? && !a.FetchThrows? && !a.Throw?
  }

  ghost predicate IsCalmRun(states: seq<State>, actions: seq<Action>, times: seq<int>, limit: nat) {
    IsRun(states, actions, times, limit) && forall k :: 0 <= k < |actions| ==> Calm(actions[k])
  }

  lemma ExtendedCalmly(states: seq<State>, actions: seq<Action>, times: seq<int>, limit: nat, a: Action, t: State)
    returns (states': seq<State>, actions': seq<Action>, times': seq<int>)
    requires IsCalmRun(states, actions, times, limit) && Step(states[|states| - 1], a, t, limit, 0) && Calm(a)
    ensures IsCalmRun(states', actions', times', limit)
    ensures |states'| == |states| + 1 && states'[|states|] == t
  {
    states', actions', times' := states + [t], actions + [a], times + [0];
    hide Step, Calm;
  }

  lemma EmptyRun(limit: nat)
    ensures IsCalmRun([Initial()], [], [], limit)
  {}

  lemma RunUntilDropped() returns (states: seq<State>, actions: seq<Action>, times: seq<int>)
    ensures IsCalmRun(states, actions, times, 1) && |states| == 7
    ensures states[6] == Waiting(Processing, map[0 := Task(0, 0, Working, 0)], multiset{}, map[0 := 0])
  {
    hide Step, Waiting, IsCalmRun, TasksOf, Orphans;
    var s1, s2, s3, s4 := FirstChatStarts();
    SecondChatIsDropped(s4);
    var t := Waiting(Processing, map[0 := Task(0, 0, Working, 0)], multiset{}, map[0 := 0]);
    EmptyRun(1);
    hide Initial;
    states, actions, times := ExtendedCalmly([Initial()], [], [], 1, Arrive(0, 3), s1);
    states, actions, times := ExtendedCalmly(states, actions, times, 1, Notify(0, false), s2);
    states, actions, times := ExtendedCalmly(states, actions, times, 1, Fetch(0, Some(0)), s3);
    states, actions, times := ExtendedCalmly(states, actions, times, 1, Register(0), s4);
    states, actions, times := ExtendedCalmly(states, actions, times, 1, Arrive(1, 3), t);
    states, actions, times := ExtendedCalmly(states, actions, times, 1, Notify(1, false), t);
  }

  lemma NobodyLeft(s: State)
    requires s == Waiting(Completed, map[], multiset{}, map[])
    ensures IsPending(s.rows, 1, 1) && Load(s, 1) == 0
    ensures s.tasks == map[] && s.requests == multiset{} && s.active == map[] && !s.stopping
  {
    assert TasksOf(s, 1) == {};
  }

  /** A run, without crash or failure, that ends with everything idle and a pending row that nobody will look after: its
      notification came while another chat used up the limit, and a finished task looks at its own chat only. */
  lemma PendingRowIsOrphaned() returns (states: seq<State>, actions: seq<Action>, times: seq<int>)
    ensures IsCalmRun(states, actions, times, 1) && |states| == 10
    ensures states[9].tasks == map[] && states[9].requests == multiset{} && states[9].active == map[]
    ensures !states[9].stopping
    ensures IsPending(states[9].rows, 1, 1) && Load(states[9], 1) == 0
  {
    hide Step, Waiting, Initial, IsCalmRun, Load;
    states, actions, times := RunUntilDropped();
    var u := FirstChatSettles();
    var v := FirstChatEnds();
    DrainFindsNothing();
    var last := Waiting(Completed, map[], multiset{}, map[]);
    NobodyLeft(last);
    states, actions, times := ExtendedCalmly(states, actions, times, 1, Acknowledge(0), u);
    states, actions, times := ExtendedCalmly(states, actions, times, 1, Finish(0), v);
    states, actions, times := ExtendedCalmly(states, actions, times, 1, Fetch(0, None), last);
  }
}
