/** What holds over whole runs of the queue and its orchestrator, with crashes anywhere. */
module OrchestratorRuns {
  import opened Wrappers
  import opened MessageQueues
  import opened OrchestratorSteps

  function Initial(): State {
    State(map[], 0, map[], map[], 0, multiset{}, map[], 0, false)
  }

  ghost predicate IsRun(states: seq<State>, actions: seq<Action>, times: seq<int>, limit: nat) {
    && |states| == |actions| + 1 && |times| == |actions| && states[0] == Initial()
    && forall i :: 0 <= i < |actions| ==> Step(states[i], actions[i], states[i + 1], limit, times[i])
  }

  lemma {:induction false} RunKeepsInv(states: seq<State>, actions: seq<Action>, times: seq<int>, limit: nat, i: nat)
    requires IsRun(states, actions, times, limit) && i < |states|
    ensures Inv(states[i])
  {
    if i == 0 {
      assert Registered(Initial()) == {};
    } else {
      RunKeepsInv(states, actions, times, limit, i - 1);
      hide Inv, Step;
      StepKeepsInv(states[i - 1], actions[i - 1], states[i], limit, times[i - 1]);
    }
  }

  /** Two tasks that run or are about to never share a row, their rows are in processing, the counter is the number
      of registered tasks, and every active entry names one of them, of that chat. */
  lemma RunningTasksAreExclusive(states: seq<State>, actions: seq<Action>, times: seq<int>, limit: nat, i: nat)
    requires IsRun(states, actions, times, limit) && i < |states|
    ensures var s := states[i];
      && s.processing == |Registered(s)|
      && (forall t :: t in s.tasks && Holding(s.tasks[t]) ==> HoldsItsRow(s, t))
      && (forall t, u :: t in s.tasks && u in s.tasks && t != u && Holding(s.tasks[t]) && Holding(s.tasks[u]) ==>
            s.tasks[t].row != s.tasks[u].row)
      && (forall chat :: chat in s.active ==> NamesRunningTask(s, chat, s.active[chat]))
      && (forall t :: t in s.tasks ==> s.tasks[t].settlements <= 1)
  {
    RunKeepsInv(states, actions, times, limit, i);
  }

  // ---------- no row is lost ----------

  lemma StepLosesOnlyCompleted(s: State, a: Action, t: State, limit: nat, now: int, id: RowId)
    requires Inv(s) && Step(s, a, t, limit, now) && id in s.rows && id !in t.rows
    ensures a.Purge? && s.rows[id].status == Completed
  {
    hide Inv;
  }

  /** A row that is gone was completed first: only `purgeCompleted` removes rows, and only completed ones. */
  lemma {:induction false} NoRowIsLost(states: seq<State>, actions: seq<Action>, times: seq<int>, limit: nat, i: nat,
                                       j: nat, id: RowId)
    returns (k: nat)
    requires IsRun(states, actions, times, limit) && i <= j < |states| && id in states[i].rows && id !in states[j].rows
    ensures i <= k < j && actions[k].Purge? && id in states[k].rows && states[k].rows[id].status == Completed
    decreases j - i
  {
    var h := j - 1;
    RunKeepsInv(states, actions, times, limit, h);
    hide Inv, Step;
    assert Step(states[h], actions[h], states[h + 1], limit, times[h]);
    if id in states[h].rows {
      StepLosesOnlyCompleted(states[h], actions[h], states[j], limit, times[h], id);
      k := h;
    } else {
      k := NoRowIsLost(states, actions, times, limit, i, h, id);
    }
  }

  // ---------- attempts ----------

  /** A row is tried at most its budget plus once per crash recovery since its last reset; a dead letter has used up
      its attempts. */
  lemma AttemptsAreBounded(states: seq<State>, actions: seq<Action>, times: seq<int>, limit: nat, i: nat, id: RowId)
    requires IsRun(states, actions, times, limit) && i < |states| && id in states[i].rows
    ensures id in states[i].recoveries
    ensures states[i].rows[id].attempts <= Budget(states[i].rows[id].maxAttempts) + states[i].recoveries[id]
    ensures states[i].rows[id].status == DeadLetter ==> states[i].rows[id].attempts >= states[i].rows[id].maxAttempts
  {
    RunKeepsInv(states, actions, times, limit, i);
    assert RowOk(states[i].rows[id], states[i].recoveries[id]);
  }

  ghost predicate AllArriveWith(actions: seq<Action>, m: int) {
    forall k :: 0 <= k < |actions| && actions[k].Arrive? ==> actions[k].maxAttempts == m
  }

  /** With `m` attempts per message no row is ever tried more than `m` times plus its crash recoveries. */
  ghost predicate AttemptsWithin(m: int) {
    forall states: seq<State>, actions: seq<Action>, times: seq<int>, limit: nat, i: int, id: RowId ::
      IsRun(states, actions, times, limit) && AllArriveWith(actions, m) && 0 <= i < |states| && id in states[i].rows
      ==> id in states[i].recoveries && states[i].rows[id].attempts <= m + states[i].recoveries[id]
  }

  lemma {:induction false} RowsKeepLimit(states: seq<State>, actions: seq<Action>, times: seq<int>, limit: nat, m: int,
                                         i: nat)
    requires IsRun(states, actions, times, limit) && AllArriveWith(actions, m) && i < |states|
    ensures forall id :: id in states[i].rows ==> states[i].rows[id].maxAttempts == m
  {
    if i > 0 {
      var h := i - 1;
      RowsKeepLimit(states, actions, times, limit, m, h);
      hide Step;
      assert Step(states[h], actions[h], states[h + 1], limit, times[h]);
      StepKeepsLimit(states[h], actions[h], states[i], limit, times[h], m);
    }
  }

  lemma StepKeepsLimit(s: State, a: Action, t: State, limit: nat, now: int, m: int)
    requires Step(s, a, t, limit, now) && (a.Arrive? ==> a.maxAttempts == m)
    requires forall id :: id in s.rows ==> s.rows[id].maxAttempts == m
    ensures forall id :: id in t.rows ==> t.rows[id].maxAttempts == m
  {
    if TouchesTask(a) {
      TaskStepKeepsLimit(s, a, t, limit, now, m);
    } else {
      QueueStepKeepsLimit(s, a, t, limit, now, m);
    }
    hide Step;
  }

  lemma TaskStepKeepsLimit(s: State, a: Action, t: State, limit: nat, now: int, m: int)
    requires Step(s, a, t, limit, now) && TouchesTask(a)
    requires forall id :: id in s.rows ==> s.rows[id].maxAttempts == m
    ensures forall id :: id in t.rows ==> t.rows[id].maxAttempts == m
  {}

  lemma QueueStepKeepsLimit(s: State, a: Action, t: State, limit: nat, now: int, m: int)
    requires Step(s, a, t, limit, now) && !TouchesTask(a) && (a.Arrive? ==> a.maxAttempts == m)
    requires forall id :: id in s.rows ==> s.rows[id].maxAttempts == m
    ensures forall id :: id in t.rows ==> t.rows[id].maxAttempts == m
  {}

  function OneMessage(m: int): (run: (seq<State>, seq<Action>, seq<int>)) {
    var s1 := AfterArrive(Initial(), 0, m, 0);
    var s2 := s1.(requests := multiset{0});
    ([Initial(), s1, s2, AfterFetch(s2, 0, 0, 0)], [Arrive(0, m), Notify(0, false), Fetch(0, Some(0))], [0, 0, 0])
  }

  lemma OneMessageRuns(m: int)
    ensures var (states, actions, times) := OneMessage(m);
      IsRun(states, actions, times, 1) && AllArriveWith(actions, m) && 0 in states[3].rows
      && states[3].rows[0].attempts == 1
      && 0 in states[3].recoveries && states[3].recoveries[0] == 0
  {
    var s1 := AfterArrive(Initial(), 0, m, 0);
    var s2 := AfterNotify(s1, 0, false, 1);
    assert multiset{} + multiset{0} == multiset{0};
    assert s1.rows[0] == Row(0, Pending, 0, m, 0, 0);
    assert IsPending(s2.rows, 0, 0);
  }

  /** The bound by `max_attempts` itself is met exactly when `max_attempts` is at least 1. */
  lemma AttemptsWithinIff(m: int)
    ensures AttemptsWithin(m) <==> m >= 1
  {
    if m >= 1 {
      forall states: seq<State>, actions: seq<Action>, times: seq<int>, limit: nat, i: int, id: RowId |
        IsRun(states, actions, times, limit) && AllArriveWith(actions, m) && 0 <= i < |states| && id in states[i].rows
        ensures id in states[i].recoveries && states[i].rows[id].attempts <= m + states[i].recoveries[id]
      {
        hide IsRun, Inv;
        AttemptsAreBounded(states, actions, times, limit, i, id);
        RowsKeepLimit(states, actions, times, limit, m, i);
      }
    } else {
      OneMessageRuns(m);
      hide IsRun, AllArriveWith, OneMessage;
      var (states, actions, times) := OneMessage(m);
      assert IsRun(states, actions, times, 1);
    }
  }
}
