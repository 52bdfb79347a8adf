/** Task states, their transitions, and the propagation of one change to the tasks that
    depend on it. */
module Workflow {
  import opened Wrappers
  import opened Reachability
  import opened Dag
  import P = Planner

  datatype TaskState =
    Pending | Ready | Running | AwaitingIntegration | Integrating | Blocked | Failed | Completed | Superseded

  datatype Task = Task(id: int, position: int, deps: seq<int>, operation: P.Operation)

  type States = map<int, TaskState>

  predicate CanTransition(from: TaskState, to: TaskState) {
    from == to ||
    match from
    case Pending => to == Ready || to == Blocked
    case Ready => to == Running
    case Running => to == AwaitingIntegration || to == Completed || to == Failed || to == Blocked
    case AwaitingIntegration => to == Integrating || to == Ready
    case Integrating => to == Completed || to == Ready || to == Failed || to == Blocked
    case Blocked => to == Ready
    case Failed => to == Ready
    case Completed => to == Ready
    case Superseded => false
  }

  /** The states a task can be sent to, as they are offered. */
  function AllowedTargets(from: TaskState): seq<TaskState> {
    match from
    case Pending => [Ready, Blocked]
    case Ready => [Running]
    case Running => [AwaitingIntegration, Completed, Failed, Blocked]
    case AwaitingIntegration => [Integrating, Ready]
    case Integrating => [Completed, Ready, Failed, Blocked]
    case Blocked => [Ready]
    case Failed => [Ready]
    case Completed => [Ready]
    case Superseded => []
  }

  /** What is offered is what is permitted, beside staying as it is. */
  lemma OfferedIsPermitted(from: TaskState, to: TaskState)
    ensures CanTransition(from, to) <==> from == to || to in AllowedTargets(from)
  {}

  function NextStateForDependent(depStates: seq<TaskState>): (s: TaskState)
    ensures s == Blocked || s == Ready || s == Pending
  {
    if exists i :: 0 <= i < |depStates| && (depStates[i] == Failed || depStates[i] == Blocked) then Blocked
    else if forall i :: 0 <= i < |depStates| ==> depStates[i] == Completed || depStates[i] == Superseded then Ready
    else Pending
  }

  // ---- The tasks of one run ---------------------------------------------------------------

  predicate WellFormedTasks(tasks: seq<Task>) {
    && (forall i, j :: 0 <= i < j < |tasks| ==> tasks[i].id != tasks[j].id)
    && (forall t, d :: t in tasks && d in t.deps ==> d in TaskIds(tasks))
  }

  function TaskIds(tasks: seq<Task>): set<int> {
    set t | t in tasks :: t.id
  }

  /** `b` depends directly on `a` and was not Completed. */
  ghost predicate OpenDependent(tasks: seq<Task>, states: States, a: int, b: int) {
    exists t :: t in tasks && t.id == b && a in t.deps && b in states && states[b] != Completed
  }

  ghost function Towards(tasks: seq<Task>, states: States): Step {
    (a, b) => OpenDependent(tasks, states, a, b)
  }

  /** The tasks whose state a change of `id` reopens to question: those that depend on it, at
      any distance, through tasks that were not Completed. */
  ghost predicate Affected(tasks: seq<Task>, states: States, id: int, b: int) {
    b != id && Reaches(Towards(tasks, states), id, b)
  }

  /** The state of `d` as the propagation sees it when the tasks in `done` have been decided. */
  function Seen(before: States, after: States, id: int, done: seq<int>, d: int): TaskState
    requires d in before && d in after
  {
    if d == id || d in done then after[d] else before[d]
  }

  function DepStates(deps: seq<int>, before: States, after: States, id: int, done: seq<int>): seq<TaskState>
    requires forall d :: d in deps ==> d in before && d in after
  {
    seq(|deps|, i requires 0 <= i < |deps| => Seen(before, after, id, done, deps[i]))
  }

  /** `order` decides each of its tasks once, from its dependencies as decided so far. */
  ghost predicate Decided(tasks: seq<Task>, before: States, after: States, id: int, order: seq<int>) {
    && NoRepeats(order) && id !in order
    && before.Keys == after.Keys == TaskIds(tasks)
    && (forall x :: x in before && x != id && x !in order ==> after[x] == before[x])
    && (forall i, t {:trigger DecidedFrom(before, after, id, order[..i], t)} ::
          0 <= i < |order| && t in tasks && t.id == order[i] ==> DecidedFrom(before, after, id, order[..i], t))
  }

  /** The task got the state its dependencies called for once the tasks in `done` were decided. */
  predicate DecidedFrom(before: States, after: States, id: int, done: seq<int>, t: Task) {
    && (forall d :: d in t.deps ==> d in before && d in after) && t.id in after
    && after[t.id] == NextStateForDependent(DepStates(t.deps, before, after, id, done))
  }

  /** The tasks of `order` whose state came out different, in that order. */
  function Changed(before: States, after: States, order: seq<int>): (r: seq<int>)
    requires forall x :: x in order ==> x in before && x in after
    ensures forall x :: x in r <==> x in order && before[x] != after[x]
  {
    if order == [] then []
    else
      var last := |order| - 1;
      var x := order[last];
      Changed(before, after, order[..last]) + (assert x in order; if before[x] != after[x] then [x] else [])
  }

  lemma {:induction false} ChangedKeepsOrder(before: States, after: States, order: seq<int>)
    requires forall x :: x in order ==> x in before && x in after
    requires NoRepeats(order)
    ensures NoRepeats(Changed(before, after, order))
  {
    if order != [] {
      var last := |order| - 1;
      ChangedKeepsOrder(before, after, order[..last]);
      assert order[last] !in order[..last];
    }
  }

  /** The current states of a task's dependencies. */
  function Current(deps: seq<int>, states: States): (r: seq<TaskState>)
    requires forall d :: d in deps ==> d in states
  {
    seq(|deps|, k requires 0 <= k < |deps| => var d := deps[k]; assert d in deps; states[d])
  }

  /** A task decided after every one of its dependencies that is itself decided agrees with the
      final states of its dependencies. */
  lemma DecidedInOrderIsSettled(tasks: seq<Task>, before: States, after: States, id: int, order: seq<int>,
                                i: nat, t: Task)
    requires Decided(tasks, before, after, id, order)
    requires i < |order| && t in tasks && t.id == order[i]
    requires forall d :: d in t.deps && d in order ==> d in order[..i]
    ensures forall d :: d in t.deps ==> d in after
    ensures after[t.id] == NextStateForDependent(Current(t.deps, after))
  {
    DecidedAt(tasks, before, after, id, order, i, t);
    var seen := DepStates(t.deps, before, after, id, order[..i]);
    assert seen == Current(t.deps, after);
  }

  // ---- The order of the decisions ----------------------------------------------------------

  /** The open dependents of `changed` among `tasks` that have not been visited, in list order,
      and everything visited once they have been. */
  function Meet(tasks: seq<Task>, before: States, changed: int, visited: set<int>): (seq<int>, set<int>) {
    if tasks == [] then ([], visited)
    else
      var t := tasks[0];
      if changed !in t.deps || t.id in visited then Meet(tasks[1..], before, changed, visited)
      else
        var (found, all) := Meet(tasks[1..], before, changed, visited + {t.id});
        (if t.id in before && before[t.id] == Completed then found else [t.id] + found, all)
  }

  /** The tasks decided from here on: the last task of the frontier is expanded first. */
  function VisitFrom(tasks: seq<Task>, before: States, frontier: seq<int>, visited: set<int>): seq<int>
    decreases |TaskIds(tasks) - visited|, |frontier|
  {
    if frontier == [] then []
    else
      var last := |frontier| - 1;
      var (found, all) := Meet(tasks, before, frontier[last], visited);
      MeetVisits(tasks, before, frontier[last], visited);
      FewerUnvisited(tasks, visited, all);
      found + VisitFrom(tasks, before, frontier[..last] + found, all)
  }

  /** The order in which a change of `id` has its affected tasks decided. */
  function VisitOrder(tasks: seq<Task>, before: States, id: int): seq<int> {
    VisitFrom(tasks, before, [id], {id})
  }

  lemma {:induction false} MeetVisits(tasks: seq<Task>, before: States, changed: int, visited: set<int>)
    ensures visited <= Meet(tasks, before, changed, visited).1 <= visited + TaskIds(tasks)
    ensures Meet(tasks, before, changed, visited).1 == visited ==> Meet(tasks, before, changed, visited).0 == []
  {
    if tasks != [] {
      var t := tasks[0];
      assert tasks == [t] + tasks[1..] && t in tasks;
      MeetVisits(tasks[1..], before, changed, if changed !in t.deps then visited else visited + {t.id});
      assert t.id in visited ==> visited + {t.id} == visited;
    }
  }

  lemma FewerUnvisited(tasks: seq<Task>, visited: set<int>, all: set<int>)
    requires visited <= all <= visited + TaskIds(tasks)
    ensures all != visited ==> |TaskIds(tasks) - all| < |TaskIds(tasks) - visited|
  {
    if all != visited {
      var x :| x in all && x !in visited;
      SubsetCount(TaskIds(tasks) - all, TaskIds(tasks) - visited - {x});
    }
  }

  /** One of `deps` is the marked task or was decided before. */
  ghost predicate HasEarlier(deps: seq<int>, id: int, done: seq<int>) {
    exists d :: d in deps && (d == id || d in done)
  }

  /** Each task of `order` depends on the marked task or on one before it. */
  ghost predicate Rooted(tasks: seq<Task>, id: int, order: seq<int>) {
    forall i, t {:trigger HasEarlier(t.deps, id, order[..i])} ::
      0 <= i < |order| && t in tasks && t.id == order[i] ==> HasEarlier(t.deps, id, order[..i])
  }

  /** What marking `id` has done by the time it has decided `order`, complete or not. */
  ghost predicate Marking(
    tasks: seq<Task>, before: States, after: States, id: int, target: TaskState, order: seq<int>)
  {
    && id in before && id in after && CanTransition(before[id], target) && after[id] == target
    && Decided(tasks, before, after, id, order) && Rooted(tasks, id, order)
    && order <= VisitOrder(tasks, before, id)
    && forall b :: b in order ==> Affected(tasks, before, id, b)
  }

  /** `id` was marked and exactly the affected tasks were decided, in the visiting order. */
  ghost predicate Marked(tasks: seq<Task>, before: States, after: States, id: int, target: TaskState, order: seq<int>) {
    && Marking(tasks, before, after, id, target, order)
    && order == VisitOrder(tasks, before, id)
    && forall b :: Affected(tasks, before, id, b) ==> b in order
  }

  // ---- Marking a task ------------------------------------------------------------------------

  datatype MarkError = TaskNotFound | InvalidTransition | WriteFailed

  /** Every dependent of `x` has been visited. */
  predicate Settled(tasks: seq<Task>, x: int, visited: set<int>) {
    forall t :: t in tasks && x in t.deps ==> t.id in visited
  }

  lemma OfTheRun(tasks: seq<Task>, t: Task)
    requires WellFormedTasks(tasks) && t in tasks
    ensures t.id in TaskIds(tasks)
    ensures forall d :: d in t.deps ==> d in TaskIds(tasks)
  {}

  lemma SameTask(tasks: seq<Task>, t: Task, u: Task)
    requires WellFormedTasks(tasks) && t in tasks && u in tasks && t.id == u.id
    ensures t == u
  {}

  /** The decisions so far and the list of changed tasks kept beside them. */
  ghost predicate Propagating(tasks: seq<Task>, before: States, after: States, id: int, order: seq<int>,
                              updated: seq<int>) {
    && Decided(tasks, before, after, id, order)
    && id in after
    && (forall x :: x in order ==> x in before && x in after)
    && updated == [id] + Changed(before, after, order)
  }

  lemma {:induction false} ChangedElsewhere(before: States, after: States, after': States, order: seq<int>)
    requires forall x :: x in order ==> x in before && x in after && x in after' && after'[x] == after[x]
    ensures Changed(before, after', order) == Changed(before, after, order)
  {
    if order != [] {
      var last := |order| - 1;
      var x := order[last];
      assert x in order;
      ChangedElsewhere(before, after, after', order[..last]);
    }
  }

  /** Deciding one more task keeps the earlier decisions. */
  lemma DecideNext(tasks: seq<Task>, before: States, after: States, id: int, order: seq<int>, t: Task, next: TaskState)
    requires WellFormedTasks(tasks) && Decided(tasks, before, after, id, order)
    requires t in tasks && t.id != id && t.id !in order
    requires forall d :: d in t.deps ==> d in after
    requires next == NextStateForDependent(Current(t.deps, after))
    ensures Decided(tasks, before, after[t.id := next], id, order + [t.id])
  {
    hide NextStateForDependent, WellFormedTasks;
    var after', order' := after[t.id := next], order + [t.id];
    forall i, u | 0 <= i < |order'| && u in tasks && u.id == order'[i]
      ensures DecidedFrom(before, after', id, order'[..i], u)
    {
      if i < |order| {
        assert DecidedFrom(before, after, id, order[..i], u);
        assert order'[..i] == order[..i] && order[i] == u.id;
        assert DepStates(u.deps, before, after', id, order'[..i]) == DepStates(u.deps, before, after, id, order[..i]);
      } else {
        SameTask(tasks, t, u);
        assert order'[..i] == order;
        assert DepStates(u.deps, before, after', id, order) == Current(t.deps, after);
      }
    }
  }

  lemma PropagateNext(tasks: seq<Task>, before: States, after: States, id: int, order: seq<int>, updated: seq<int>,
                      t: Task, next: TaskState)
    requires WellFormedTasks(tasks) && Propagating(tasks, before, after, id, order, updated)
    requires t in tasks && t.id != id && t.id !in order
    requires forall d :: d in t.deps ==> d in after
    requires next == NextStateForDependent(Current(t.deps, after))
    ensures t.id in before && t.id in after && after[t.id] == before[t.id]
    ensures Propagating(tasks, before, after[t.id := next], id, order + [t.id],
                        if next != before[t.id] then updated + [t.id] else updated)
  {
    hide NextStateForDependent, WellFormedTasks, Current, Decided;
    DecideNext(tasks, before, after, id, order, t, next);
    UndecidedIsUnchanged(tasks, before, after, id, order, t);
    ChangedByOneMore(before, after, order, t.id, next);
  }

  lemma UndecidedIsUnchanged(tasks: seq<Task>, before: States, after: States, id: int, order: seq<int>, t: Task)
    requires Decided(tasks, before, after, id, order)
    requires t in tasks && t.id != id && t.id !in order
    ensures t.id in before && t.id in after && after[t.id] == before[t.id]
  {
    hide DepStates, NextStateForDependent;
  }

  lemma ChangedByOneMore(before: States, after: States, order: seq<int>, x: int, next: TaskState)
    requires forall y :: y in order ==> y in before && y in after
    requires x !in order && x in before
    ensures forall y :: y in order + [x] ==> y in before && y in after[x := next]
    ensures Changed(before, after[x := next], order + [x])
            == Changed(before, after, order) + if before[x] != next then [x] else []
  {
    var order' := order + [x];
    assert order'[..|order|] == order && order'[|order|] == x;
    ChangedElsewhere(before, after, after[x := next], order);
  }

  /** Everything affected has been decided once the decided tasks have no unvisited dependent. */
  lemma NothingAffectedIsLeft(tasks: seq<Task>, before: States, id: int, order: seq<int>, visited: set<int>, b: int)
    requires forall x :: (x == id || x in order) ==> Settled(tasks, x, visited)
    requires forall x :: x in visited ==> x == id || x in order || (x in before && before[x] == Completed)
    requires Affected(tasks, before, id, b)
    ensures b in order
  {
    ClosedSetHolds(Towards(tasks, before), id, {id} + Elements(order), b);
  }

  /** What the propagation knows: the decided tasks are affected, and everything visited is the
      marked task, decided, or Completed. */
  ghost predicate Explored(tasks: seq<Task>, before: States, id: int, order: seq<int>, visited: set<int>,
                           frontier: seq<int>) {
    && id in visited && id !in order && NoRepeats(order)
    && visited <= TaskIds(tasks)
    && (forall x :: x in order ==> x in visited && Affected(tasks, before, id, x))
    && (forall x :: x in visited ==> x == id || x in order || (x in before && before[x] == Completed))
    && (forall x :: x in frontier ==> x == id || x in order)
  }

  lemma VisitOpenDependent(tasks: seq<Task>, before: States, id: int, order: seq<int>, visited: set<int>,
                           frontier: seq<int>, a: int, t: Task)
    requires Explored(tasks, before, id, order, visited, frontier)
    requires a == id || a in order
    requires t in tasks && a in t.deps && t.id !in visited
    requires t.id in before && before[t.id] != Completed
    ensures Explored(tasks, before, id, order + [t.id], visited + {t.id}, frontier + [t.id])
  {
    assert Towards(tasks, before)(a, t.id);
    if a == id {
      ReachesByStep(Towards(tasks, before), id, t.id);
    } else {
      ReachesFurther(Towards(tasks, before), id, a, t.id);
    }
  }

  lemma PopFrontier(tasks: seq<Task>, before: States, id: int, order: seq<int>, visited: set<int>, frontier: seq<int>)
    requires Explored(tasks, before, id, order, visited, frontier) && frontier != []
    ensures frontier[|frontier| - 1] == id || frontier[|frontier| - 1] in order
    ensures Explored(tasks, before, id, order, visited, frontier[..|frontier| - 1])
  {
    hide Affected;
    var x := frontier[|frontier| - 1];
    assert x in frontier;
  }

  /** With nothing left to expand, the decided tasks are exactly the affected ones. */
  lemma ExploredIsAffected(tasks: seq<Task>, before: States, id: int, order: seq<int>, visited: set<int>)
    requires Explored(tasks, before, id, order, visited, [])
    requires Rested(tasks, id, order, visited, [])
    ensures forall b :: b in order <==> Affected(tasks, before, id, b)
  {
    forall b | Affected(tasks, before, id, b)
      ensures b in order
    {
      NothingAffectedIsLeft(tasks, before, id, order, visited, b);
    }
  }

  lemma VisitCompleted(tasks: seq<Task>, before: States, id: int, order: seq<int>, visited: set<int>,
                       frontier: seq<int>, t: Task)
    requires Explored(tasks, before, id, order, visited, frontier)
    requires t in tasks && t.id in before && before[t.id] == Completed
    ensures Explored(tasks, before, id, order, visited + {t.id}, frontier)
  {}

  lemma PropagationStarts(tasks: seq<Task>, before: States, id: int, target: TaskState)
    requires id in before && before.Keys == TaskIds(tasks)
    ensures Propagating(tasks, before, before[id := target], id, [], [id])
    ensures Explored(tasks, before, id, [], {id}, [id])
    ensures Rested(tasks, id, [], {id}, [id])
  {
    assert id in [id];
  }

  /** Every decided task outside the frontier has had its dependents visited; `changed` has had
      those among the first `k` tasks. */
  ghost predicate Swept(tasks: seq<Task>, k: nat, changed: int, id: int, order: seq<int>, visited: set<int>,
                        frontier: seq<int>)
    requires k <= |tasks|
  {
    && Settled(tasks[..k], changed, visited)
    && forall x :: (x == id || x in order) && x !in frontier && x != changed ==> Settled(tasks, x, visited)
  }

  ghost predicate Rested(tasks: seq<Task>, id: int, order: seq<int>, visited: set<int>, frontier: seq<int>) {
    forall x :: (x == id || x in order) && x !in frontier ==> Settled(tasks, x, visited)
  }

  lemma SweepStarts(tasks: seq<Task>, id: int, order: seq<int>, visited: set<int>, frontier: seq<int>)
    requires frontier != [] && Rested(tasks, id, order, visited, frontier)
    ensures Swept(tasks, 0, frontier[|frontier| - 1], id, order, visited, frontier[..|frontier| - 1])
  {
    assert frontier == frontier[..|frontier| - 1] + [frontier[|frontier| - 1]];
  }

  lemma SweepEnds(tasks: seq<Task>, changed: int, id: int, order: seq<int>, visited: set<int>, frontier: seq<int>)
    requires Swept(tasks, |tasks|, changed, id, order, visited, frontier)
    ensures Rested(tasks, id, order, visited, frontier)
  {
    assert tasks[..|tasks|] == tasks;
  }

  lemma SweepPasses(tasks: seq<Task>, k: nat, changed: int, id: int, order: seq<int>, visited: set<int>,
                    visited': set<int>, frontier: seq<int>)
    requires k < |tasks| && Swept(tasks, k, changed, id, order, visited, frontier)
    requires visited <= visited' && (changed in tasks[k].deps ==> tasks[k].id in visited')
    ensures Swept(tasks, k + 1, changed, id, order, visited', frontier)
  {
    assert tasks[..k + 1] == tasks[..k] + [tasks[k]];
  }

  lemma SweepPushes(tasks: seq<Task>, k: nat, changed: int, id: int, order: seq<int>, visited: set<int>,
                    frontier: seq<int>, x: int)
    requires k <= |tasks| && Swept(tasks, k, changed, id, order, visited, frontier)
    ensures Swept(tasks, k, changed, id, order + [x], visited, frontier + [x])
  {
    assert x in frontier + [x];
  }

  lemma VisitShrinks(tasks: seq<Task>, visited: set<int>, x: int)
    requires x in TaskIds(tasks) && x !in visited
    ensures |TaskIds(tasks) - (visited + {x})| < |TaskIds(tasks) - visited|
  {
    assert TaskIds(tasks) - visited == TaskIds(tasks) - (visited + {x}) + {x};
  }

  lemma UpdatedOnce(tasks: seq<Task>, before: States, after: States, id: int, order: seq<int>, updated: seq<int>)
    requires Propagating(tasks, before, after, id, order, updated)
    ensures Decided(tasks, before, after, id, order)
    ensures forall x :: x in order ==> x in before && x in after
    ensures updated == [id] + Changed(before, after, order) && NoRepeats(updated)
  {
    hide DepStates, NextStateForDependent;
    ChangedKeepsOrder(before, after, order);
  }

  // ---- The whole propagation loop -----------------------------------------------------------

  /** The variables of the propagation loop, with the order in which tasks were decided. */
  datatype Sweep = Sweep(states: States, order: seq<int>, updated: seq<int>, visited: set<int>, frontier: seq<int>)

  ghost predicate BetweenSweeps(tasks: seq<Task>, before: States, id: int, target: TaskState, s: Sweep) {
    && Explored(tasks, before, id, s.order, s.visited, s.frontier)
    && Propagating(tasks, before, s.states, id, s.order, s.updated)
    && Rested(tasks, id, s.order, s.visited, s.frontier)
    && Rooted(tasks, id, s.order)
    && VisitOrder(tasks, before, id) == s.order + VisitFrom(tasks, before, s.frontier, s.visited)
    && s.states.Keys == TaskIds(tasks) && id in s.states && s.states[id] == target
  }

  /** The tasks still to be decided when `changed` has been expanded over the first `k` tasks. */
  function Ahead(
    tasks: seq<Task>, before: States, frontier: seq<int>, visited: set<int>, changed: int, k: nat): seq<int>
    requires k <= |tasks|
  {
    var (found, all) := Meet(tasks[k..], before, changed, visited);
    found + VisitFrom(tasks, before, frontier + found, all)
  }

  /** One more task is met: passed over, completed before, or decided next. */
  lemma AheadStep(tasks: seq<Task>, before: States, frontier: seq<int>, visited: set<int>, changed: int, k: nat)
    requires k < |tasks|
    ensures changed !in tasks[k].deps || tasks[k].id in visited ==>
      Ahead(tasks, before, frontier, visited, changed, k) == Ahead(tasks, before, frontier, visited, changed, k + 1)
    ensures changed in tasks[k].deps && tasks[k].id !in visited && tasks[k].id in before
            && before[tasks[k].id] == Completed ==>
      Ahead(tasks, before, frontier, visited, changed, k)
      == Ahead(tasks, before, frontier, visited + {tasks[k].id}, changed, k + 1)
    ensures changed in tasks[k].deps && tasks[k].id !in visited && tasks[k].id in before
            && before[tasks[k].id] != Completed ==>
      Ahead(tasks, before, frontier, visited, changed, k)
      == [tasks[k].id] + Ahead(tasks, before, frontier + [tasks[k].id], visited + {tasks[k].id}, changed, k + 1)
  {
    hide VisitFrom;
    var t := tasks[k];
    assert tasks[k..][0] == t && tasks[k..][1..] == tasks[k + 1..];
    var (found, all) := Meet(tasks[k + 1..], before, changed, visited + {t.id});
    assert frontier + ([t.id] + found) == frontier + [t.id] + found;
  }

  lemma AheadStarts(tasks: seq<Task>, before: States, frontier: seq<int>, visited: set<int>)
    requires frontier != []
    ensures VisitFrom(tasks, before, frontier, visited)
            == Ahead(tasks, before, frontier[..|frontier| - 1], visited, frontier[|frontier| - 1], 0)
  {
    assert tasks[0..] == tasks;
  }

  lemma AheadEnds(tasks: seq<Task>, before: States, frontier: seq<int>, visited: set<int>, changed: int)
    ensures Ahead(tasks, before, frontier, visited, changed, |tasks|) == VisitFrom(tasks, before, frontier, visited)
  {
    assert tasks[|tasks|..] == [] && frontier + [] == frontier;
  }

  lemma RootedNext(tasks: seq<Task>, id: int, order: seq<int>, t: Task, changed: int)
    requires WellFormedTasks(tasks) && Rooted(tasks, id, order)
    requires t in tasks && changed in t.deps && (changed == id || changed in order)
    ensures Rooted(tasks, id, order + [t.id])
  {
    hide WellFormedTasks;
    var more := order + [t.id];
    forall i, u | 0 <= i < |more| && u in tasks && u.id == more[i]
      ensures HasEarlier(u.deps, id, more[..i])
    {
      if i < |order| {
        assert more[..i] == order[..i];
      } else {
        SameTask(tasks, t, u);
        assert more[..i] == order;
      }
    }
  }

  /** The dependents of `changed` among the first `k` tasks have been dealt with. */
  ghost predicate InSweep(
    tasks: seq<Task>, before: States, id: int, target: TaskState, s: Sweep, changed: int, k: nat)
  {
    && k <= |tasks|
    && Explored(tasks, before, id, s.order, s.visited, s.frontier)
    && Propagating(tasks, before, s.states, id, s.order, s.updated)
    && Swept(tasks, k, changed, id, s.order, s.visited, s.frontier)
    && (changed == id || changed in s.order)
    && Rooted(tasks, id, s.order)
    && VisitOrder(tasks, before, id) == s.order + Ahead(tasks, before, s.frontier, s.visited, changed, k)
    && s.states.Keys == TaskIds(tasks) && id in s.states && s.states[id] == target
  }

  function Unvisited(tasks: seq<Task>, visited: set<int>): nat {
    |TaskIds(tasks) - visited|
  }

  lemma Begin(tasks: seq<Task>, before: States, id: int, target: TaskState)
    requires before.Keys == TaskIds(tasks) && id in before
    ensures BetweenSweeps(tasks, before, id, target, Sweep(before[id := target], [], [id], {id}, [id]))
  {
    hide Explored, Propagating, Rested, VisitFrom;
    PropagationStarts(tasks, before, id, target);
    assert [] + VisitFrom(tasks, before, [id], {id}) == VisitFrom(tasks, before, [id], {id});
  }

  lemma Pop(tasks: seq<Task>, before: States, id: int, target: TaskState, s: Sweep)
    requires BetweenSweeps(tasks, before, id, target, s) && s.frontier != []
    ensures InSweep(tasks, before, id, target, s.(frontier := s.frontier[..|s.frontier| - 1]),
                    s.frontier[|s.frontier| - 1], 0)
  {
    hide Explored, Propagating, Rested, Swept, VisitFrom, VisitOrder, Ahead, Rooted;
    AheadStarts(tasks, before, s.frontier, s.visited);
    PopFrontier(tasks, before, id, s.order, s.visited, s.frontier);
    SweepStarts(tasks, id, s.order, s.visited, s.frontier);
  }

  lemma Skip(tasks: seq<Task>, before: States, id: int, target: TaskState, s: Sweep, changed: int, k: nat)
    requires k < |tasks| && InSweep(tasks, before, id, target, s, changed, k)
    requires changed !in tasks[k].deps || tasks[k].id in s.visited
    ensures InSweep(tasks, before, id, target, s, changed, k + 1)
  {
    hide Explored, Propagating, Swept, VisitFrom, VisitOrder, Ahead, Rooted;
    AheadStep(tasks, before, s.frontier, s.visited, changed, k);
    SweepPasses(tasks, k, changed, id, s.order, s.visited, s.visited, s.frontier);
  }

  lemma Leave(tasks: seq<Task>, before: States, id: int, target: TaskState, s: Sweep, changed: int, k: nat)
    requires k < |tasks| && InSweep(tasks, before, id, target, s, changed, k)
    requires tasks[k].id !in s.visited && tasks[k].id in before && before[tasks[k].id] == Completed
    requires changed in tasks[k].deps
    ensures InSweep(tasks, before, id, target, s.(visited := s.visited + {tasks[k].id}), changed, k + 1)
    ensures Unvisited(tasks, s.visited + {tasks[k].id}) < Unvisited(tasks, s.visited)
  {
    hide Explored, Propagating, Swept, VisitFrom, VisitOrder, Ahead, Rooted;
    AheadStep(tasks, before, s.frontier, s.visited, changed, k);
    VisitShrinks(tasks, s.visited, tasks[k].id);
    SweepPasses(tasks, k, changed, id, s.order, s.visited, s.visited + {tasks[k].id}, s.frontier);
    VisitCompleted(tasks, before, id, s.order, s.visited, s.frontier, tasks[k]);
  }

  lemma Decide(tasks: seq<Task>, before: States, id: int, target: TaskState, s: Sweep, changed: int, k: nat,
               next: TaskState)
    requires WellFormedTasks(tasks) && before.Keys == TaskIds(tasks)
    requires k < |tasks| && InSweep(tasks, before, id, target, s, changed, k)
    requires tasks[k].id !in s.visited && tasks[k].id in before && before[tasks[k].id] != Completed
    requires changed in tasks[k].deps
    requires forall d :: d in tasks[k].deps ==> d in s.states
    requires next == NextStateForDependent(Current(tasks[k].deps, s.states))
    ensures var x := tasks[k].id;
      var s' := Sweep(s.states[x := next], s.order + [x], if next != before[x] then s.updated + [x] else s.updated,
                      s.visited + {x}, s.frontier + [x]);
      && InSweep(tasks, before, id, target, s', changed, k + 1)
      && Unvisited(tasks, s'.visited) < Unvisited(tasks, s.visited)
      && x in s.states && s.states[x] == before[x]
  {
    hide Propagating, Swept, NextStateForDependent, Current, WellFormedTasks, TaskIds, Affected, NoRepeats, VisitFrom,
         VisitOrder, Ahead, Rooted;
    var t := tasks[k];
    AheadStep(tasks, before, s.frontier, s.visited, changed, k);
    RootedNext(tasks, id, s.order, t, changed);
    VisitShrinks(tasks, s.visited, t.id);
    SweepPasses(tasks, k, changed, id, s.order, s.visited, s.visited + {t.id}, s.frontier);
    SweepPushes(tasks, k + 1, changed, id, s.order, s.visited + {t.id}, s.frontier, t.id);
    VisitOpenDependent(tasks, before, id, s.order, s.visited, s.frontier, changed, t);
    PropagateNext(tasks, before, s.states, id, s.order, s.updated, t, next);
  }

  lemma EndSweep(tasks: seq<Task>, before: States, id: int, target: TaskState, s: Sweep, changed: int)
    requires InSweep(tasks, before, id, target, s, changed, |tasks|)
    ensures BetweenSweeps(tasks, before, id, target, s)
  {
    hide Explored, Propagating, Swept, Rested, VisitFrom, VisitOrder, Ahead, Rooted;
    AheadEnds(tasks, before, s.frontier, s.visited, changed);
    SweepEnds(tasks, changed, id, s.order, s.visited, s.frontier);
  }

  /** With a permitted target the loop's state is a marking at any time, complete at the end. */
  lemma StillMarking(tasks: seq<Task>, before: States, id: int, target: TaskState, s: Sweep)
    requires id in before && CanTransition(before[id], target)
    requires BetweenSweeps(tasks, before, id, target, s)
             || exists changed, k :: InSweep(tasks, before, id, target, s, changed, k)
    ensures Marking(tasks, before, s.states, id, target, s.order)
    ensures s.states.Keys == TaskIds(tasks)
  {
    hide CanTransition, Decided, Affected, VisitFrom, VisitOrder, Ahead, Rooted, Changed, Swept, Rested;
    if !BetweenSweeps(tasks, before, id, target, s) {
      var changed, k :| InSweep(tasks, before, id, target, s, changed, k);
    }
  }

  lemma Finish(tasks: seq<Task>, before: States, id: int, target: TaskState, s: Sweep)
    requires id in before && CanTransition(before[id], target)
    requires BetweenSweeps(tasks, before, id, target, s) && s.frontier == []
    ensures Marked(tasks, before, s.states, id, target, s.order) && s.states.Keys == TaskIds(tasks)
    ensures forall x :: x in s.order ==> x in before && x in s.states
    ensures s.updated == [id] + Changed(before, s.states, s.order) && NoRepeats(s.updated)
  {
    hide CanTransition, Explored, Propagating, Rested, Affected, Decided, Changed, VisitOrder, Rooted;
    StillMarking(tasks, before, id, target, s);
    ExploredIsAffected(tasks, before, id, s.order, s.visited);
    UpdatedOnce(tasks, before, s.states, id, s.order, s.updated);
    assert s.order + [] == s.order;
  }

  /** Deciding dependents neither completes a task nor undoes a completed one. */
  lemma PropagationKeepsCompleted(tasks: seq<Task>, before: States, after: States, id: int, order: seq<int>)
    requires Decided(tasks, before, after, id, order)
    requires forall b :: b in order ==> Affected(tasks, before, id, b)
    ensures forall x :: x in before && x != id ==> (after[x] == Completed <==> before[x] == Completed)
  {
    hide DepStates, Affected;
    forall x | x in before && x != id
      ensures after[x] == Completed <==> before[x] == Completed
    {
      if x in order {
        var i :| 0 <= i < |order| && order[i] == x;
        AffectedIsOpen(tasks, before, id, x);
        var t :| t in tasks && t.id == x;
        DecidedAt(tasks, before, after, id, order, i, t);
      }
    }
  }

  lemma AffectedIsOpen(tasks: seq<Task>, before: States, id: int, b: int)
    requires Affected(tasks, before, id, b)
    ensures b in before && before[b] != Completed
    ensures exists t :: t in tasks && t.id == b
  {
    var step := Towards(tasks, before);
    var p :| |p| >= 2 && p[0] == id && p[|p| - 1] == b && IsWalk(step, p);
    var i := |p| - 2;
    assert step(p[i], p[i + 1]);
  }

  // ---- A propagation that leaves disagreement ------------------------------------------------

  const CAUSE := Task(1, 0, [], P.Implement)
  const WAITING := Task(3, 1, [1, 2], P.Implement)
  const BETWEEN := Task(2, 2, [1], P.Implement)
  const BLOCKED_RUN: States := map[1 := Failed, 2 := Blocked, 3 := Blocked]

  lemma VisitsOfTheCause()
    ensures [3, 2] <= VisitOrder([CAUSE, WAITING, BETWEEN], BLOCKED_RUN, 1)
  {
    var tasks := [CAUSE, WAITING, BETWEEN];
    assert tasks[1..] == [WAITING, BETWEEN] && [WAITING, BETWEEN][1..] == [BETWEEN] && [BETWEEN][1..] == [];
    var one, two := {1} + {3}, {1} + {3} + {2};
    assert Meet([], BLOCKED_RUN, 1, two) == ([], two);
    assert Meet([BETWEEN], BLOCKED_RUN, 1, one) == ([2] + [], two);
    assert Meet([WAITING, BETWEEN], BLOCKED_RUN, 1, {1}) == ([3] + ([2] + []), two);
    assert Meet(tasks, BLOCKED_RUN, 1, {1}).0 == [3, 2];
  }

  /** The propagation need not end in agreement: with a blocked task listed before the blocked
      dependency it waits for, reopening their common cause leaves the first one blocked although
      none of its dependencies is failed or blocked any more. */
  lemma ReopeningMayLeaveATaskBlocked(after: States, order: seq<int>)
    requires Marked([CAUSE, WAITING, BETWEEN], BLOCKED_RUN, after, 1, Ready, order)
    ensures 2 in after && 3 in after
    ensures after[3] == Blocked && NextStateForDependent(Current(WAITING.deps, after)) == Pending
  {
    hide VisitOrder, NextStateForDependent, Affected, Rooted, CanTransition;
    var tasks := [CAUSE, WAITING, BETWEEN];
    VisitsOfTheCause();
    assert order[0] == 3 && order[1] == 2;
    assert tasks[1] in tasks && tasks[2] in tasks;
    DecidedAt(tasks, BLOCKED_RUN, after, 1, order, 0, WAITING);
    DecidedAt(tasks, BLOCKED_RUN, after, 1, order, 1, BETWEEN);
    hide Decided;
    var seen := DepStates(WAITING.deps, BLOCKED_RUN, after, 1, order[..0]);
    BlockedDependency(seen, 1);
    var seenBetween := DepStates(BETWEEN.deps, BLOCKED_RUN, after, 1, order[..1]);
    OpenDependency(seenBetween, 0);
    var current := Current(WAITING.deps, after);
    assert current[0] == Ready && current[1] == Pending;
    OpenDependency(current, 0);
  }

  lemma BlockedDependency(depStates: seq<TaskState>, i: nat)
    requires i < |depStates| && depStates[i] == Blocked
    ensures NextStateForDependent(depStates) == Blocked
  {}

  lemma OpenDependency(depStates: seq<TaskState>, i: nat)
    requires forall j :: 0 <= j < |depStates| ==> depStates[j] != Failed && depStates[j] != Blocked
    requires i < |depStates| && depStates[i] != Completed && depStates[i] != Superseded
    ensures NextStateForDependent(depStates) == Pending
  {}

  lemma DecidedAt(tasks: seq<Task>, before: States, after: States, id: int, order: seq<int>, i: nat, t: Task)
    requires Decided(tasks, before, after, id, order) && i < |order| && t in tasks && t.id == order[i]
    ensures forall d :: d in t.deps ==> d in before && d in after
    ensures t.id in after && after[t.id] == NextStateForDependent(DepStates(t.deps, before, after, id, order[..i]))
  {
    assert DecidedFrom(before, after, id, order[..i], t);
  }

  class TaskBoard {
    const tasks: seq<Task>
    /** Every write is made and everything brought in is integrated. */
    const reliable: bool
    var states: States

    ghost predicate Valid()
      reads this
    {
      WellFormedTasks(tasks) && states.Keys == TaskIds(tasks)
    }

    /** Whether the next write fails. */
    method Lost() returns (lost: bool)
      ensures reliable ==> !lost
    {
      lost := *;
      if reliable { lost := false; }
    }

    /** Moves a task to `target` and re-decides exactly the affected tasks, once each, in the
        visiting order; `r` names the marked task and those whose state changed. A write that
        fails leaves what was decided up to then. */
    method MarkTask(id: int, target: TaskState) returns (r: Result<seq<int>, MarkError>, ghost order: seq<int>)
      requires Valid()
      modifies this`states
      ensures Valid()
      ensures r == Err(TaskNotFound) <==> id !in old(states)
      ensures r == Err(InvalidTransition) <==> id in old(states) && !CanTransition(old(states)[id], target)
      ensures r == Err(TaskNotFound) || r == Err(InvalidTransition) ==> states == old(states)
      ensures reliable ==> r != Err(WriteFailed)
      ensures r == Err(WriteFailed) ==>
        states == old(states) || Marking(tasks, old(states), states, id, target, order)
      ensures r.Ok? ==> Marked(tasks, old(states), states, id, target, order)
      ensures r.Ok? ==> (forall x :: x in order ==> x in old(states) && x in states)
                        && r.value == [id] + Changed(old(states), states, order) && NoRepeats(r.value)
    {
      hide CanTransition, NextStateForDependent, Decided, Affected, Changed, Current, WellFormedTasks, NoRepeats,
           TaskIds, InSweep, BetweenSweeps, Unvisited, Marking, Marked;
      order := [];
      if id !in states { return Err(TaskNotFound), order; }
      if !CanTransition(states[id], target) { return Err(InvalidTransition), order; }
      var lost := Lost();
      if lost { return Err(WriteFailed), order; }
      ghost var before := states;
      Begin(tasks, before, id, target);
      states := states[id := target];
      var updated := [id];
      var listed := states;
      var stateOf := listed[id := target];
      var visited := {id};
      var frontier := [id];
      while frontier != []
        invariant BetweenSweeps(tasks, before, id, target, Sweep(states, order, updated, visited, frontier))
        invariant stateOf == states && id in visited && states.Keys == before.Keys
        decreases Unvisited(tasks, visited), |frontier|
      {
        ghost var s0 := Sweep(states, order, updated, visited, frontier);
        Pop(tasks, before, id, target, s0);
        var changed := frontier[|frontier| - 1];
        frontier := frontier[..|frontier| - 1];
        for k := 0 to |tasks|
          invariant InSweep(tasks, before, id, target, Sweep(states, order, updated, visited, frontier), changed, k)
          invariant stateOf == states && id in visited && states.Keys == before.Keys
          invariant (visited == s0.visited && |frontier| < |s0.frontier|)
                    || Unvisited(tasks, visited) < Unvisited(tasks, s0.visited)
        {
          var dependent := tasks[k];
          ghost var s := Sweep(states, order, updated, visited, frontier);
          OfTheRun(tasks, dependent);
          if changed !in dependent.deps || dependent.id in visited {
            Skip(tasks, before, id, target, s, changed, k);
            continue;
          }
          visited := visited + {dependent.id};
          if listed[dependent.id] == Completed {
            Leave(tasks, before, id, target, s, changed, k);
            continue;
          }
          lost := Lost();
          if lost {
            StillMarking(tasks, before, id, target, s);
            return Err(WriteFailed), order;
          }
          var next := NextStateForDependent(Current(dependent.deps, stateOf));
          Decide(tasks, before, id, target, s, changed, k, next);
          if next != listed[dependent.id] {
            states := states[dependent.id := next];
            stateOf := stateOf[dependent.id := next];
            updated := updated + [dependent.id];
          }
          assert states == s.states[dependent.id := next];
          frontier := frontier + [dependent.id];
          order := order + [dependent.id];
        }
        EndSweep(tasks, before, id, target, Sweep(states, order, updated, visited, frontier), changed);
      }
      ghost var last := Sweep(states, order, updated, visited, frontier);
      lost := Lost();
      if lost {
        StillMarking(tasks, before, id, target, last);
        return Err(WriteFailed), order;
      }
      Finish(tasks, before, id, target, last);
      r := Ok(updated);
    }
  }
}
