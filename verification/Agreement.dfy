/** When a marked change leaves every affected task in agreement with its dependencies. */
module Agreement {
  import opened Reachability
  import opened Dag
  import opened Workflow

  /** A dependency in this state blocks its dependents. */
  predicate Blocking(s: TaskState) {
    s == Failed || s == Blocked
  }

  predicate Done(s: TaskState) {
    s == Completed || s == Superseded
  }

  /** The task's state is the one its dependencies call for. */
  predicate Agrees(t: Task, states: States) {
    && t.id in states && (forall d :: d in t.deps ==> d in states)
    && states[t.id] == NextStateForDependent(Current(t.deps, states))
  }

  /** Every task affected by a change of `id` from the states `before` agrees in `states`. */
  ghost predicate AffectedAgree(tasks: seq<Task>, before: States, id: int, states: States) {
    forall t {:trigger Agrees(t, states)} ::
      t in tasks && Affected(tasks, before, id, t.id) ==> Agrees(t, states)
  }

  /** The dependency graph of a run. */
  function RunGraph(tasks: seq<Task>): seq<Node<int>> {
    seq(|tasks|, k requires 0 <= k < |tasks| => Node(tasks[k].id, tasks[k].deps))
  }

  // ---- The condition ---------------------------------------------------------------------------

  /** A dependency outside the change blocks the task, whatever the change decides. */
  ghost predicate BlockedFromOutside(tasks: seq<Task>, before: States, id: int, x: int) {
    exists t, d :: t in tasks && t.id == x && d in t.deps && d != id && !Affected(tasks, before, id, d)
      && d in before && Blocking(before[d])
  }

  ghost function WithinAffected(tasks: seq<Task>, before: States, id: int): Step {
    (a, b) => Affected(tasks, before, id, a) && Affected(tasks, before, id, b) && OpenDependent(tasks, before, a, b)
  }

  /** The affected task stays blocked: it, or an affected task it rests on, is blocked from outside. */
  ghost predicate StaysBlocked(tasks: seq<Task>, before: States, id: int, x: int) {
    && Affected(tasks, before, id, x)
    && (BlockedFromOutside(tasks, before, id, x)
        || exists y :: Affected(tasks, before, id, y) && BlockedFromOutside(tasks, before, id, y)
                       && Reaches(WithinAffected(tasks, before, id), y, x))
  }

  ghost predicate ComesBefore(order: seq<int>, d: int, x: int) {
    exists i :: 0 <= i < |order| && order[i] == x && d in order[..i]
  }

  /** Every affected task that can be freed is visited after all affected tasks it depends on. */
  ghost predicate FreedInOrder(tasks: seq<Task>, before: States, id: int) {
    forall t, d {:trigger ComesBefore(VisitOrder(tasks, before, id), d, t.id)} ::
      t in tasks && Affected(tasks, before, id, t.id) && !StaysBlocked(tasks, before, id, t.id)
      && d in t.deps && Affected(tasks, before, id, d)
      ==> ComesBefore(VisitOrder(tasks, before, id), d, t.id)
  }

  /** The change reopens a failed or blocked task. */
  predicate Reopens(from: TaskState, to: TaskState) {
    Blocking(from) && !Blocking(to)
  }

  // ---- What a decision means ----------------------------------------------------------------

  ghost predicate Blocks(deps: seq<int>, states: States) {
    exists d :: d in deps && d in states && Blocking(states[d])
  }

  ghost predicate AllDone(deps: seq<int>, states: States) {
    forall d :: d in deps ==> d in states && Done(states[d])
  }

  lemma NextMeaning(deps: seq<int>, states: States)
    requires forall d :: d in deps ==> d in states
    ensures NextStateForDependent(Current(deps, states)) == Blocked <==> Blocks(deps, states)
    ensures NextStateForDependent(Current(deps, states)) == Ready <==> AllDone(deps, states)
  {
    var current := Current(deps, states);
    if Blocks(deps, states) {
      var d :| d in deps && d in states && Blocking(states[d]);
      var i :| 0 <= i < |deps| && deps[i] == d;
      assert current[i] == states[d];
    }
    forall i | 0 <= i < |deps|
      ensures deps[i] in deps && current[i] == states[deps[i]]
    {
      var d := deps[i];
      assert d in deps;
    }
    if AllDone(deps, states) {
      forall i | 0 <= i < |current|
        ensures Done(current[i])
      {
        var d := deps[i];
        assert d in deps;
      }
    } else {
      var d :| d in deps && !Done(states[d]);
      var i :| 0 <= i < |deps| && deps[i] == d;
      assert current[i] == states[d];
    }
  }

  /** The states the propagation saw when it decided the task at `i`. */
  function SeenAt(before: States, after: States, id: int, done: seq<int>): States {
    map x | x in before && x in after :: Seen(before, after, id, done, x)
  }

  /** The task at `i` of the order, and what its decision means. */
  lemma DecisionAt(tasks: seq<Task>, before: States, after: States, id: int, target: TaskState, order: seq<int>, i: nat)
    returns (t: Task)
    requires Marking(tasks, before, after, id, target, order) && i < |order|
    ensures t in tasks && t.id == order[i] && Affected(tasks, before, id, t.id)
    ensures t.id in before && t.id in after && HasEarlier(t.deps, id, order[..i])
    ensures forall d :: d in t.deps ==> d in before && d in after
    ensures after[t.id] == Blocked <==> Blocks(t.deps, SeenAt(before, after, id, order[..i]))
    ensures after[t.id] == Ready <==> AllDone(t.deps, SeenAt(before, after, id, order[..i]))
    ensures after[t.id] == Blocked || after[t.id] == Ready || after[t.id] == Pending
  {
    hide Affected, CanTransition, VisitOrder, HasEarlier, NextStateForDependent, Blocks, AllDone;
    var x := order[i];
    assert x in order;
    AffectedIsOpen(tasks, before, id, x);
    t :| t in tasks && t.id == x;
    DecidedAt(tasks, before, after, id, order, i, t);
    var seen := SeenAt(before, after, id, order[..i]);
    assert DepStates(t.deps, before, after, id, order[..i]) == Current(t.deps, seen);
    NextMeaning(t.deps, seen);
  }

  /** What agreement means for an affected task. */
  lemma AgreementMeans(tasks: seq<Task>, before: States, id: int, states: States, t: Task)
    requires t in tasks && Affected(tasks, before, id, t.id) && Agrees(t, states)
    ensures t.id in states && (forall d :: d in t.deps ==> d in states)
    ensures Blocking(states[t.id]) <==> Blocks(t.deps, states)
    ensures states[t.id] == Ready <==> AllDone(t.deps, states)
    ensures !Done(states[t.id])
  {
    NextMeaning(t.deps, states);
  }

  lemma AgreementFrom(t: Task, states: States)
    requires t.id in states && forall d :: d in t.deps ==> d in states
    requires states[t.id] == Blocked || states[t.id] == Ready || states[t.id] == Pending
    requires states[t.id] == Blocked <==> Blocks(t.deps, states)
    requires states[t.id] == Ready <==> AllDone(t.deps, states)
    ensures Agrees(t, states)
  {
    NextMeaning(t.deps, states);
  }

  /** Where a state shown to a decision came from. */
  lemma SeenFrom(tasks: seq<Task>, before: States, after: States, id: int, target: TaskState, order: seq<int>, i: nat,
                 d: int)
    requires Marking(tasks, before, after, id, target, order) && i <= |order| && d in before && d in after
    ensures var seen := SeenAt(before, after, id, order[..i]);
      && d in seen
      && (d == id || d in order[..i] ==> seen[d] == after[d])
      && (d != id && d !in order[..i] ==> seen[d] == before[d])
      && (d != id && d !in order ==> after[d] == before[d])
  {
    hide Affected, CanTransition, VisitOrder, DepStates, NextStateForDependent;
  }

  // ---- A change that blocks, and one that leaves the marked task as blocking as it was ------

  /** When the marked task ends failed or blocked, so does every task decided. */
  lemma {:induction false} BlockingSpreads(tasks: seq<Task>, before: States, after: States, id: int, target: TaskState,
                                           order: seq<int>, n: nat)
    requires Marking(tasks, before, after, id, target, order) && n <= |order| && Blocking(target)
    ensures forall i :: 0 <= i < n ==> order[i] in after && after[order[i]] == Blocked
    decreases n
  {
    hide Marking;
    if n > 0 {
      BlockingSpreads(tasks, before, after, id, target, order, n - 1);
      BlockingReaches(tasks, before, after, id, target, order, n - 1);
    }
  }

  lemma BlockingReaches(tasks: seq<Task>, before: States, after: States, id: int, target: TaskState, order: seq<int>,
                        i: nat)
    requires Marking(tasks, before, after, id, target, order) && i < |order| && Blocking(target)
    requires forall j :: 0 <= j < i ==> order[j] in after && after[order[j]] == Blocked
    ensures order[i] in after && after[order[i]] == Blocked
  {
    hide Marking, Blocks, AllDone, Affected, SeenAt;
    var t := DecisionAt(tasks, before, after, id, target, order, i);
    var d :| d in t.deps && (d == id || d in order[..i]);
    if d != id {
      var j :| 0 <= j < i && order[j] == d;
    }
    SeenFrom(tasks, before, after, id, target, order, i, d);
    MarkedState(tasks, before, after, id, target, order);
    BlocksBy(t.deps, SeenAt(before, after, id, order[..i]), d);
  }

  lemma MarkedState(tasks: seq<Task>, before: States, after: States, id: int, target: TaskState, order: seq<int>)
    requires Marking(tasks, before, after, id, target, order)
    ensures id in before && id in after && after[id] == target && id !in order
    ensures before.Keys == after.Keys
  {}

  lemma BlocksBy(deps: seq<int>, states: States, d: int)
    requires d in deps && d in states && Blocking(states[d])
    ensures Blocks(deps, states)
  {}

  /** When the marked task blocks its dependents after exactly if before, so does every task
      decided, if they agreed with their dependencies before. */
  lemma {:induction false} BlockingIsKept(tasks: seq<Task>, before: States, after: States, id: int, target: TaskState,
                                          order: seq<int>, n: nat)
    requires Marking(tasks, before, after, id, target, order) && n <= |order|
    requires AffectedAgree(tasks, before, id, before) && (Blocking(before[id]) <==> Blocking(target))
    ensures forall i :: 0 <= i < n ==>
      order[i] in before && order[i] in after && (Blocking(after[order[i]]) <==> Blocking(before[order[i]]))
    decreases n
  {
    hide Marking, AffectedAgree, Blocking;
    if n > 0 {
      BlockingIsKept(tasks, before, after, id, target, order, n - 1);
      BlockingIsKeptAt(tasks, before, after, id, target, order, n - 1);
    }
  }

  lemma BlockingIsKeptAt(tasks: seq<Task>, before: States, after: States, id: int, target: TaskState, order: seq<int>,
                         i: nat)
    requires Marking(tasks, before, after, id, target, order) && i < |order|
    requires AffectedAgree(tasks, before, id, before) && (Blocking(before[id]) <==> Blocking(target))
    requires forall j :: 0 <= j < i ==>
      order[j] in before && order[j] in after && (Blocking(after[order[j]]) <==> Blocking(before[order[j]]))
    ensures order[i] in before && order[i] in after
    ensures Blocking(after[order[i]]) <==> Blocking(before[order[i]])
  {
    var t := DecisionAt(tasks, before, after, id, target, order, i);
    AgreementMeans(tasks, before, id, before, t);
    hide Marking, Affected, AffectedAgree, AllDone;
    MarkedState(tasks, before, after, id, target, order);
    var seen := SeenAt(before, after, id, order[..i]);
    forall d | d in t.deps
      ensures d in seen && d in before && (Blocking(seen[d]) <==> Blocking(before[d]))
    {
      SeenFrom(tasks, before, after, id, target, order, i, d);
      if d in order[..i] {
        var j :| 0 <= j < i && order[j] == d;
      }
    }
    assert Blocks(t.deps, seen) <==> Blocks(t.deps, before);
  }

  // ---- A change that reopens ------------------------------------------------------------------

  /** If the affected tasks agreed and the marked task blocked them, they were all Blocked. */
  lemma {:induction false} AllWereBlocked(tasks: seq<Task>, before: States, after: States, id: int, target: TaskState,
                                          order: seq<int>, n: nat)
    requires Marking(tasks, before, after, id, target, order) && n <= |order|
    requires AffectedAgree(tasks, before, id, before) && Blocking(before[id])
    ensures forall i :: 0 <= i < n ==> order[i] in before && Blocking(before[order[i]])
    decreases n
  {
    MarkedState(tasks, before, after, id, target, order);
    hide Marking, AffectedAgree;
    if n > 0 {
      AllWereBlocked(tasks, before, after, id, target, order, n - 1);
      WasBlocked(tasks, before, after, id, target, order, n - 1);
    }
  }

  lemma WasBlocked(tasks: seq<Task>, before: States, after: States, id: int, target: TaskState, order: seq<int>, i: nat)
    requires Marking(tasks, before, after, id, target, order) && i < |order|
    requires AffectedAgree(tasks, before, id, before) && id in before && Blocking(before[id])
    requires forall j :: 0 <= j < i ==> order[j] in before && Blocking(before[order[j]])
    ensures order[i] in before && Blocking(before[order[i]])
  {
    hide Marking, Affected, AllDone, Agrees, CanTransition, Blocks, SeenAt;
    var t := DecisionAt(tasks, before, after, id, target, order, i);
    AgreementMeans(tasks, before, id, before, t);
    hide AffectedAgree;
    var d :| d in t.deps && (d == id || d in order[..i]);
    if d != id {
      var j :| 0 <= j < i && order[j] == d;
    }
    BlocksBy(t.deps, before, d);
  }

  /** A task that depends on one that stays blocked stays blocked too. */
  lemma BlockingStays(tasks: seq<Task>, before: States, id: int, t: Task, d: int)
    requires StaysBlocked(tasks, before, id, d) && t in tasks && d in t.deps && Affected(tasks, before, id, t.id)
    ensures StaysBlocked(tasks, before, id, t.id)
  {
    hide BlockedFromOutside, Affected;
    AffectedIsOpen(tasks, before, id, t.id);
    var step := WithinAffected(tasks, before, id);
    assert step(d, t.id);
    if BlockedFromOutside(tasks, before, id, d) {
      ReachesByStep(step, d, t.id);
    } else {
      var y :| Affected(tasks, before, id, y) && BlockedFromOutside(tasks, before, id, y) && Reaches(step, y, d);
      ReachesFurther(step, y, d, t.id);
    }
  }

  /** A task not blocked from outside stays blocked because of one it depends on. */
  lemma BlockedByAnother(tasks: seq<Task>, before: States, id: int, x: int) returns (z: int)
    requires StaysBlocked(tasks, before, id, x) && !BlockedFromOutside(tasks, before, id, x)
    ensures StaysBlocked(tasks, before, id, z) && OpenDependent(tasks, before, z, x)
  {
    hide BlockedFromOutside, Affected, OpenDependent;
    var step := WithinAffected(tasks, before, id);
    var y :| Affected(tasks, before, id, y) && BlockedFromOutside(tasks, before, id, y) && Reaches(step, y, x);
    var p :| |p| >= 2 && p[0] == y && p[|p| - 1] == x && IsWalk(step, p);
    var k := |p| - 2;
    z := p[k];
    assert step(p[k], p[k + 1]);
    if k > 0 {
      var q := p[..k + 1];
      forall j | 0 <= j < |q| - 1
        ensures step(q[j], q[j + 1])
      {
        assert step(p[j], p[j + 1]);
      }
      assert IsWalk(step, q);
      assert Reaches(step, y, z);
    }
  }

  /** The task ends blocking its dependents exactly if it stays blocked. */
  ghost predicate EndsAsForeseen(tasks: seq<Task>, before: States, after: States, id: int, x: int) {
    x in after && (Blocking(after[x]) <==> StaysBlocked(tasks, before, id, x))
  }

  /** In a reopening whose freed tasks are visited in order, exactly those that stay blocked end
      Blocked. */
  lemma {:induction false} FreedOnes(tasks: seq<Task>, before: States, after: States, id: int, target: TaskState,
                                     order: seq<int>, n: nat)
    requires WellFormedTasks(tasks) && Marked(tasks, before, after, id, target, order) && n <= |order|
    requires AffectedAgree(tasks, before, id, before) && Reopens(before[id], target)
    requires FreedInOrder(tasks, before, id)
    ensures forall i :: 0 <= i < n ==>
      EndsAsForeseen(tasks, before, after, id, order[i])
    decreases n
  {
    hide *;
    forall i | 0 <= i < n
      ensures EndsAsForeseen(tasks, before, after, id, order[i])
    {
      FreedOnes(tasks, before, after, id, target, order, i);
      FreedOne(tasks, before, after, id, target, order, i);
    }
  }

  lemma FreedOne(tasks: seq<Task>, before: States, after: States, id: int, target: TaskState, order: seq<int>, i: nat)
    requires WellFormedTasks(tasks) && Marked(tasks, before, after, id, target, order) && i < |order|
    requires AffectedAgree(tasks, before, id, before) && Reopens(before[id], target)
    requires FreedInOrder(tasks, before, id)
    requires forall j :: 0 <= j < i ==>
      EndsAsForeseen(tasks, before, after, id, order[j])
    ensures EndsAsForeseen(tasks, before, after, id, order[i])
  {
    hide Marking, Affected, AffectedAgree, AllDone, Blocks, StaysBlocked, FreedInOrder, WellFormedTasks, VisitOrder;
    AllWereBlocked(tasks, before, after, id, target, order, |order|);
    var t := DecisionAt(tasks, before, after, id, target, order, i);
    if StaysBlocked(tasks, before, id, t.id) {
      KeptBlocked(tasks, before, after, id, target, order, i, t);
    } else {
      Freed(tasks, before, after, id, target, order, i, t);
    }
  }

  lemma KeptBlocked(tasks: seq<Task>, before: States, after: States, id: int, target: TaskState, order: seq<int>,
                    i: nat, t: Task)
    requires WellFormedTasks(tasks) && Marked(tasks, before, after, id, target, order)
    requires i < |order| && t in tasks && t.id == order[i] && StaysBlocked(tasks, before, id, t.id)
    requires forall d :: d in t.deps ==> d in before && d in after
    requires forall j :: 0 <= j < |order| ==> order[j] in before && Blocking(before[order[j]])
    requires forall j :: 0 <= j < i ==>
      EndsAsForeseen(tasks, before, after, id, order[j])
    ensures Blocks(t.deps, SeenAt(before, after, id, order[..i]))
  {
    hide Affected, Blocks, SeenAt, Decided, Rooted, VisitOrder, CanTransition;
    var seen := SeenAt(before, after, id, order[..i]);
    if BlockedFromOutside(tasks, before, id, t.id) {
      var u, d :| u in tasks && u.id == t.id && d in u.deps && d != id && !Affected(tasks, before, id, d)
        && d in before && Blocking(before[d]);
      SameTask(tasks, t, u);
      SeenFrom(tasks, before, after, id, target, order, i, d);
      assert d !in order[..i];
      BlocksBy(t.deps, seen, d);
    } else {
      var z := BlockedByAnother(tasks, before, id, t.id);
      var u :| u in tasks && u.id == t.id && z in u.deps;
      SameTask(tasks, t, u);
      SeenFrom(tasks, before, after, id, target, order, i, z);
      assert z in order;
      var j :| 0 <= j < |order| && order[j] == z;
      if z in order[..i] {
        var k :| 0 <= k < i && order[k] == z;
      }
      AffectedIsAnother(tasks, before, id, z);
      BlocksBy(t.deps, seen, z);
    }
  }

  lemma AffectedIsAnother(tasks: seq<Task>, before: States, id: int, x: int)
    ensures Affected(tasks, before, id, x) ==> x != id
  {}

  lemma Freed(tasks: seq<Task>, before: States, after: States, id: int, target: TaskState, order: seq<int>,
              i: nat, t: Task)
    requires Marked(tasks, before, after, id, target, order) && !Blocking(target)
    requires i < |order| && t in tasks && t.id == order[i] && Affected(tasks, before, id, t.id)
    requires !StaysBlocked(tasks, before, id, t.id) && FreedInOrder(tasks, before, id)
    requires forall d :: d in t.deps ==> d in before && d in after
    requires forall j :: 0 <= j < i ==>
      EndsAsForeseen(tasks, before, after, id, order[j])
    ensures !Blocks(t.deps, SeenAt(before, after, id, order[..i]))
    ensures forall d :: d in t.deps && d in order ==> d in order[..i]
  {
    hide Affected, StaysBlocked, SeenAt, Rooted, VisitOrder, CanTransition, DepStates, NextStateForDependent;
    var seen := SeenAt(before, after, id, order[..i]);
    forall d | d in t.deps
      ensures d in seen && !Blocking(seen[d]) && (d in order ==> d in order[..i])
    {
      SeenFrom(tasks, before, after, id, target, order, i, d);
      if d == id {
        MarkedState(tasks, before, after, id, target, order);
      } else if Affected(tasks, before, id, d) {
        if StaysBlocked(tasks, before, id, d) {
          BlockingStays(tasks, before, id, t, d);
        }
        EarlierInOrder(order, d, t.id, i);
        var j :| 0 <= j < i && order[j] == d;
      } else {
        NotFromOutside(tasks, before, id, t, d);
      }
    }
  }

  lemma NotFromOutside(tasks: seq<Task>, before: States, id: int, t: Task, d: int)
    requires t in tasks && d in t.deps && d != id && d in before
    requires Affected(tasks, before, id, t.id) && !Affected(tasks, before, id, d)
    requires !StaysBlocked(tasks, before, id, t.id)
    ensures !Blocking(before[d])
  {
    hide Affected;
    assert Blocking(before[d]) ==> BlockedFromOutside(tasks, before, id, t.id);
  }

  lemma EarlierInOrder(order: seq<int>, d: int, x: int, i: nat)
    requires NoRepeats(order) && ComesBefore(order, d, x) && i < |order| && order[i] == x
    ensures d in order[..i]
  {
    var j :| 0 <= j < |order| && order[j] == x && d in order[..j];
    assert j == i;
  }

  // ---- Agreement after the change --------------------------------------------------------------

  /** A decided task agrees at the end if its dependencies block it, and are all done, at the end
      exactly if they were when it was decided. */
  lemma StillAgrees(tasks: seq<Task>, before: States, after: States, id: int, target: TaskState, order: seq<int>,
                    i: nat, t: Task)
    requires WellFormedTasks(tasks) && Marking(tasks, before, after, id, target, order) && i < |order|
    requires t in tasks && t.id == order[i]
    requires Blocks(t.deps, SeenAt(before, after, id, order[..i])) <==> Blocks(t.deps, after)
    requires AllDone(t.deps, SeenAt(before, after, id, order[..i])) <==> AllDone(t.deps, after)
    ensures Agrees(t, after)
  {
    hide Marking, Blocks, AllDone, SeenAt, Affected, Agrees;
    var u := DecisionAt(tasks, before, after, id, target, order, i);
    SameTask(tasks, t, u);
    AgreementFrom(t, after);
  }

  /** The tasks decided are the affected ones. */
  lemma PlaceInOrder(tasks: seq<Task>, before: States, after: States, id: int, target: TaskState, order: seq<int>,
                     x: int) returns (i: nat)
    requires Marked(tasks, before, after, id, target, order) && Affected(tasks, before, id, x)
    ensures i < |order| && order[i] == x
  {
    assert x in order;
    i :| 0 <= i < |order| && order[i] == x;
  }

  lemma AgreesWhenBlocking(tasks: seq<Task>, before: States, after: States, id: int, target: TaskState,
                           order: seq<int>, i: nat, t: Task)
    requires WellFormedTasks(tasks) && Marking(tasks, before, after, id, target, order) && i < |order|
    requires t in tasks && t.id == order[i] && Blocking(target)
    ensures Agrees(t, after)
  {
    hide Marking, Affected, Agrees;
    BlockingSpreads(tasks, before, after, id, target, order, |order|);
    var u := DecisionAt(tasks, before, after, id, target, order, i);
    SameTask(tasks, t, u);
    MarkedState(tasks, before, after, id, target, order);
    var d :| d in t.deps && (d == id || d in order[..i]);
    if d in order[..i] {
      var j :| 0 <= j < i && order[j] == d;
    }
    SeenFrom(tasks, before, after, id, target, order, i, d);
    StillAgrees(tasks, before, after, id, target, order, i, t);
  }

  lemma AgreesWhenKept(tasks: seq<Task>, before: States, after: States, id: int, target: TaskState,
                       order: seq<int>, i: nat, t: Task)
    requires WellFormedTasks(tasks) && Marking(tasks, before, after, id, target, order) && i < |order|
    requires t in tasks && t.id == order[i]
    requires AffectedAgree(tasks, before, id, before) && (Blocking(before[id]) <==> Blocking(target))
    ensures Agrees(t, after)
  {
    hide Affected, Agrees, WellFormedTasks, Marking;
    BlockingIsKept(tasks, before, after, id, target, order, |order|);
    var u := DecisionAt(tasks, before, after, id, target, order, i);
    SameTask(tasks, t, u);
    var seen := SeenAt(before, after, id, order[..i]);
    MarkedState(tasks, before, after, id, target, order);
    forall d | d in t.deps
      ensures d in seen && (Blocking(seen[d]) <==> Blocking(after[d])) && (Done(seen[d]) <==> Done(after[d]))
    {
      SeenFrom(tasks, before, after, id, target, order, i, d);
      if d != id && d in order {
        var j :| 0 <= j < |order| && order[j] == d;
        var v := DecisionAt(tasks, before, after, id, target, order, j);
        assert Agrees(v, before);
        AgreementMeans(tasks, before, id, before, v);
      }
    }
    StillAgrees(tasks, before, after, id, target, order, i, t);
  }

  lemma AgreesWhenFreedInOrder(tasks: seq<Task>, before: States, after: States, id: int, target: TaskState,
                               order: seq<int>, i: nat, t: Task)
    requires WellFormedTasks(tasks) && Marked(tasks, before, after, id, target, order) && i < |order|
    requires t in tasks && t.id == order[i]
    requires AffectedAgree(tasks, before, id, before) && Reopens(before[id], target)
    requires FreedInOrder(tasks, before, id)
    ensures Agrees(t, after)
  {
    hide Affected, Agrees, WellFormedTasks, Marking, FreedInOrder, AffectedAgree, StaysBlocked;
    FreedOnes(tasks, before, after, id, target, order, |order|);
    AllWereBlocked(tasks, before, after, id, target, order, |order|);
    MarkedState(tasks, before, after, id, target, order);
    var u := DecisionAt(tasks, before, after, id, target, order, i);
    SameTask(tasks, t, u);
    var seen := SeenAt(before, after, id, order[..i]);
    if StaysBlocked(tasks, before, id, t.id) {
      KeptBlocked(tasks, before, after, id, target, order, i, t);
      BlockedAtTheEnd(tasks, before, after, id, target, order, t);
    } else {
      Freed(tasks, before, after, id, target, order, i, t);
      AgreesOnceDecided(tasks, before, after, id, target, order, i, t);
      return;
    }
    StillAgrees(tasks, before, after, id, target, order, i, t);
  }

  lemma AgreesOnceDecided(tasks: seq<Task>, before: States, after: States, id: int, target: TaskState, order: seq<int>,
                          i: nat, t: Task)
    requires Marking(tasks, before, after, id, target, order) && i < |order|
    requires t in tasks && t.id == order[i] && t.id in after
    requires forall d :: d in t.deps && d in order ==> d in order[..i]
    ensures Agrees(t, after)
  {
    hide Affected, CanTransition, VisitOrder, Rooted;
    DecidedInOrderIsSettled(tasks, before, after, id, order, i, t);
  }

  lemma BlockedAtTheEnd(tasks: seq<Task>, before: States, after: States, id: int, target: TaskState, order: seq<int>,
                        t: Task)
    requires WellFormedTasks(tasks) && Marked(tasks, before, after, id, target, order)
    requires t in tasks && StaysBlocked(tasks, before, id, t.id)
    requires forall j :: 0 <= j < |order| ==>
      EndsAsForeseen(tasks, before, after, id, order[j])
    ensures Blocks(t.deps, after)
  {
    hide Affected, Decided, Rooted, VisitOrder, CanTransition, Blocks;
    if BlockedFromOutside(tasks, before, id, t.id) {
      var u, d :| u in tasks && u.id == t.id && d in u.deps && d != id && !Affected(tasks, before, id, d)
        && d in before && Blocking(before[d]);
      SameTask(tasks, t, u);
      MarkedState(tasks, before, after, id, target, order);
      SeenFrom(tasks, before, after, id, target, order, 0, d);
      BlocksBy(t.deps, after, d);
    } else {
      var z := BlockedByAnother(tasks, before, id, t.id);
      var u :| u in tasks && u.id == t.id && z in u.deps;
      SameTask(tasks, t, u);
      var j := PlaceInOrder(tasks, before, after, id, target, order, z);
      BlocksBy(t.deps, after, z);
    }
  }

  // ---- Disagreement, when freed tasks are visited too early ---------------------------------

  /** With agreement after a reopening, only tasks that stay blocked are still blocked: the others
      would have to wait for each other in a circle. */
  lemma NoBlockedRing(tasks: seq<Task>, before: States, after: States, id: int, target: TaskState, order: seq<int>,
                      x: int)
    requires WellFormedTasks(tasks) && Marked(tasks, before, after, id, target, order)
    requires !HasCycle(RunGraph(tasks)) && !Blocking(target)
    requires AffectedAgree(tasks, before, id, after)
    requires Affected(tasks, before, id, x) && x in after && Blocking(after[x])
    ensures StaysBlocked(tasks, before, id, x)
  {
    hide HasCycle, Affected, StaysBlocked, Marked, Agrees, WaitsIn;
    var ring := set y | y in after && Affected(tasks, before, id, y) && Blocking(after[y])
                        && !StaysBlocked(tasks, before, id, y);
    if ring != {} {
      forall y | y in ring
        ensures WaitsIn(RunGraph(tasks), ring, y)
      {
        var d := WaitsForAnother(tasks, before, after, id, target, order, y);
        WaitsFor(tasks, ring, y, d);
      }
      StuckHasCycle(RunGraph(tasks), ring);
    }
    assert x !in ring;
  }

  lemma WaitsFor(tasks: seq<Task>, ring: set<int>, y: int, d: int)
    requires d in ring && exists t :: t in tasks && t.id == y && d in t.deps
    ensures WaitsIn(RunGraph(tasks), ring, y)
  {
    var t :| t in tasks && t.id == y && d in t.deps;
    var k :| 0 <= k < |tasks| && tasks[k] == t;
    var node := RunGraph(tasks)[k];
    assert node in RunGraph(tasks) && node.id == y && d in node.deps;
    assert Edge(RunGraph(tasks), d, y);
  }

  lemma WaitsForAnother(tasks: seq<Task>, before: States, after: States, id: int, target: TaskState, order: seq<int>,
                        y: int) returns (d: int)
    requires WellFormedTasks(tasks) && Marked(tasks, before, after, id, target, order) && !Blocking(target)
    requires AffectedAgree(tasks, before, id, after) && Affected(tasks, before, id, y)
    requires y in after && Blocking(after[y]) && !StaysBlocked(tasks, before, id, y)
    ensures d in after && Affected(tasks, before, id, d) && Blocking(after[d]) && !StaysBlocked(tasks, before, id, d)
    ensures exists t :: t in tasks && t.id == y && d in t.deps
  {
    hide Affected, StaysBlocked, Decided, Rooted, VisitOrder, CanTransition;
    AffectedIsOpen(tasks, before, id, y);
    var t :| t in tasks && t.id == y;
    AgreementMeans(tasks, before, id, after, t);
    d :| d in t.deps && d in after && Blocking(after[d]);
    MarkedState(tasks, before, after, id, target, order);
    SeenFrom(tasks, before, after, id, target, order, 0, d);
    if Affected(tasks, before, id, d) {
      if StaysBlocked(tasks, before, id, d) {
        BlockingStays(tasks, before, id, t, d);
      }
    } else {
      NotFromOutside(tasks, before, id, t, d);
    }
  }

  /** With agreement before and after a reopening, the freed tasks were visited in order. */
  lemma AgreementMeansInOrder(tasks: seq<Task>, before: States, after: States, id: int, target: TaskState,
                              order: seq<int>)
    requires WellFormedTasks(tasks) && Marked(tasks, before, after, id, target, order)
    requires !HasCycle(RunGraph(tasks)) && Reopens(before[id], target)
    requires AffectedAgree(tasks, before, id, before) && AffectedAgree(tasks, before, id, after)
    ensures FreedInOrder(tasks, before, id)
  {
    hide HasCycle, Affected, StaysBlocked, AffectedAgree, Decided, Rooted, CanTransition, VisitOrder, WellFormedTasks;
    AllWereBlocked(tasks, before, after, id, target, order, |order|);
    forall t, d | t in tasks && Affected(tasks, before, id, t.id) && !StaysBlocked(tasks, before, id, t.id)
                  && d in t.deps && Affected(tasks, before, id, d)
      ensures ComesBefore(order, d, t.id)
    {
      var i := PlaceInOrder(tasks, before, after, id, target, order, t.id);
      var j := PlaceInOrder(tasks, before, after, id, target, order, d);
      if d !in order[..i] {
        VisitedTooEarly(tasks, before, after, id, target, order, i, t, d);
        NoBlockedRing(tasks, before, after, id, target, order, t.id);
      }
    }
  }

  lemma VisitedTooEarly(tasks: seq<Task>, before: States, after: States, id: int, target: TaskState, order: seq<int>,
                        i: nat, t: Task, d: int)
    requires WellFormedTasks(tasks) && Marked(tasks, before, after, id, target, order)
    requires i < |order| && t in tasks && t.id == order[i] && d in t.deps && d !in order[..i]
    requires Affected(tasks, before, id, d) && d in before && Blocking(before[d])
    ensures t.id in after && after[t.id] == Blocked
  {
    hide Affected, Marking, VisitOrder, WellFormedTasks;
    AffectedIsAnother(tasks, before, id, d);
    var u := DecisionAt(tasks, before, after, id, target, order, i);
    SameTask(tasks, t, u);
    SeenFrom(tasks, before, after, id, target, order, i, d);
    BlocksBy(t.deps, SeenAt(before, after, id, order[..i]), d);
  }

  // ---- The theorem ------------------------------------------------------------------------------

  /** Marking a task of a run without cycles whose affected tasks agree with their dependencies
      leaves them in agreement, except that a reopened task must have the tasks it frees visited
      after what they depend on. Everything in the condition is known before the call. */
  lemma MarkingKeepsAgreementExactly(tasks: seq<Task>, before: States, after: States, id: int, target: TaskState,
                                     order: seq<int>)
    requires WellFormedTasks(tasks) && !HasCycle(RunGraph(tasks))
    requires Marked(tasks, before, after, id, target, order)
    requires AffectedAgree(tasks, before, id, before)
    ensures AffectedAgree(tasks, before, id, after) <==>
            !Reopens(before[id], target) || FreedInOrder(tasks, before, id)
  {
    hide WellFormedTasks, HasCycle, Affected, Agrees, Marked, FreedInOrder;
    MarkedIsMarking(tasks, before, after, id, target, order);
    MarkedState(tasks, before, after, id, target, order);
    if !Reopens(before[id], target) || FreedInOrder(tasks, before, id) {
      forall t | t in tasks && Affected(tasks, before, id, t.id)
        ensures Agrees(t, after)
      {
        var i := PlaceInOrder(tasks, before, after, id, target, order, t.id);
        if Blocking(target) {
          AgreesWhenBlocking(tasks, before, after, id, target, order, i, t);
        } else if Blocking(before[id]) {
          AgreesWhenFreedInOrder(tasks, before, after, id, target, order, i, t);
        } else {
          AgreesWhenKept(tasks, before, after, id, target, order, i, t);
        }
      }
    } else if AffectedAgree(tasks, before, id, after) {
      AgreementMeansInOrder(tasks, before, after, id, target, order);
    }
  }

  lemma MarkedIsMarking(tasks: seq<Task>, before: States, after: States, id: int, target: TaskState, order: seq<int>)
    requires Marked(tasks, before, after, id, target, order)
    ensures Marking(tasks, before, after, id, target, order)
  {}

  /** A task marked failed or blocked takes every affected task with it, whatever held before, and
      all of them agree. */
  lemma BlockingReachesEveryAffected(tasks: seq<Task>, before: States, after: States, id: int, target: TaskState,
                                     order: seq<int>)
    requires WellFormedTasks(tasks) && Marked(tasks, before, after, id, target, order) && Blocking(target)
    ensures forall x :: Affected(tasks, before, id, x) ==> x in after && after[x] == Blocked
    ensures AffectedAgree(tasks, before, id, after)
  {
    hide WellFormedTasks, Affected, Agrees, Marked;
    MarkedIsMarking(tasks, before, after, id, target, order);
    BlockingSpreads(tasks, before, after, id, target, order, |order|);
    forall x | Affected(tasks, before, id, x)
      ensures x in after && after[x] == Blocked
    {
      var i := PlaceInOrder(tasks, before, after, id, target, order, x);
    }
    forall t | t in tasks && Affected(tasks, before, id, t.id)
      ensures Agrees(t, after)
    {
      var i := PlaceInOrder(tasks, before, after, id, target, order, t.id);
      AgreesWhenBlocking(tasks, before, after, id, target, order, i, t);
    }
  }

  /** No affected task depends on two of the tasks that the change touches. */
  ghost predicate OneWayIn(tasks: seq<Task>, before: States, id: int) {
    forall t, d, e :: t in tasks && Affected(tasks, before, id, t.id) && d in t.deps && e in t.deps
                      && (d == id || Affected(tasks, before, id, d)) && (e == id || Affected(tasks, before, id, e))
      ==> d == e
  }

  /** Where no affected task can be reached in two ways, reopening keeps agreement. */
  lemma OneWayInKeepsAgreement(tasks: seq<Task>, before: States, after: States, id: int, target: TaskState,
                               order: seq<int>)
    requires WellFormedTasks(tasks) && Marked(tasks, before, after, id, target, order)
    requires AffectedAgree(tasks, before, id, before) && OneWayIn(tasks, before, id)
    requires Reopens(before[id], target)
    ensures FreedInOrder(tasks, before, id) && AffectedAgree(tasks, before, id, after)
  {
    hide WellFormedTasks, Affected, Agrees, StaysBlocked, Decided, VisitOrder, CanTransition, AffectedAgree;
    forall t, d | t in tasks && Affected(tasks, before, id, t.id) && d in t.deps && Affected(tasks, before, id, d)
      ensures ComesBefore(order, d, t.id)
    {
      var i := PlaceInOrder(tasks, before, after, id, target, order, t.id);
      assert HasEarlier(t.deps, id, order[..i]);
      var e :| e in t.deps && (e == id || e in order[..i]);
      AffectedIsAnother(tasks, before, id, d);
    }
    assert FreedInOrder(tasks, before, id);
    hide FreedInOrder;
    forall t | t in tasks && Affected(tasks, before, id, t.id)
      ensures Agrees(t, after)
    {
      var i := PlaceInOrder(tasks, before, after, id, target, order, t.id);
      AgreesWhenFreedInOrder(tasks, before, after, id, target, order, i, t);
    }
    assert AffectedAgree(tasks, before, id, after) by { AgreeAll(tasks, before, id, after); }
  }

  lemma AgreeAll(tasks: seq<Task>, before: States, id: int, states: States)
    requires forall t :: t in tasks && Affected(tasks, before, id, t.id) ==> Agrees(t, states)
    ensures AffectedAgree(tasks, before, id, states)
  {}

  ghost predicate Cyclic(tasks: seq<Task>) {
    HasCycle(RunGraph(tasks))
  }

  // ---- A run in step ---------------------------------------------------------------------------

  /** Every open task other than `id` is in the state its dependencies call for. */
  ghost predicate InStepBut(tasks: seq<Task>, states: States, id: int) {
    states.Keys == TaskIds(tasks)
    && forall t {:trigger Agrees(t, states)} ::
         t in tasks && t.id != id && t.id in states && states[t.id] != Completed ==> Agrees(t, states)
  }

  /** Every open task is in the state its dependencies call for. */
  ghost predicate InStep(tasks: seq<Task>, states: States) {
    states.Keys == TaskIds(tasks)
    && forall t {:trigger Agrees(t, states)} ::
         t in tasks && t.id in states && states[t.id] != Completed ==> Agrees(t, states)
  }

  lemma InStepForAll(tasks: seq<Task>, states: States, id: int)
    requires WellFormedTasks(tasks)
    ensures InStep(tasks, states) ==> InStepBut(tasks, states, id)
    ensures InStepBut(tasks, states, id) && id in states && states[id] == Completed ==> InStep(tasks, states)
  {
    hide Agrees;
  }

  /** A marked change that reopens nothing leaves the tasks other than the marked one in step. */
  lemma MarkingStaysInStep(tasks: seq<Task>, before: States, after: States, id: int, target: TaskState,
                           order: seq<int>)
    requires WellFormedTasks(tasks) && !HasCycle(RunGraph(tasks))
    requires Marked(tasks, before, after, id, target, order) && !Reopens(before[id], target)
    requires InStepBut(tasks, before, id)
    ensures InStepBut(tasks, after, id)
  {
    hide HasCycle, Affected, Agrees, Decided, Rooted, VisitOrder, CanTransition;
    MarkedIsMarking(tasks, before, after, id, target, order);
    MarkedState(tasks, before, after, id, target, order);
    forall t | t in tasks && Affected(tasks, before, id, t.id)
      ensures Agrees(t, before)
    {
      AffectedIsAnother(tasks, before, id, t.id);
      AffectedIsOpen(tasks, before, id, t.id);
    }
    MarkingKeepsAgreementExactly(tasks, before, after, id, target, order);
    forall t | t in tasks && t.id != id && t.id in after && after[t.id] != Completed
      ensures Agrees(t, after)
    {
      if !Affected(tasks, before, id, t.id) {
        UnaffectedStaysInStep(tasks, before, after, id, target, order, t);
      }
    }
  }

  lemma UnaffectedStaysInStep(tasks: seq<Task>, before: States, after: States, id: int, target: TaskState,
                              order: seq<int>, t: Task)
    requires WellFormedTasks(tasks) && Marking(tasks, before, after, id, target, order)
    requires t in tasks && t.id != id && !Affected(tasks, before, id, t.id) && t.id in after
    requires after[t.id] != Completed && InStepBut(tasks, before, id)
    ensures Agrees(t, after)
  {
    hide Affected, Rooted, VisitOrder, CanTransition, DecidedFrom, NextStateForDependent;
    assert t.id !in order;
    assert before[t.id] == after[t.id] && Agrees(t, before);
    forall d | d in t.deps
      ensures d in after && d in before && after[d] == before[d]
    {
      if d == id || d in order {
        DependentIsAffected(tasks, before, id, d, t);
      }
    }
    assert Current(t.deps, before) == Current(t.deps, after);
  }

  lemma DependentIsAffected(tasks: seq<Task>, before: States, id: int, d: int, t: Task)
    requires t in tasks && d in t.deps && t.id != id && t.id in before && before[t.id] != Completed
    requires d == id || Affected(tasks, before, id, d)
    ensures Affected(tasks, before, id, t.id)
  {
    var step := Towards(tasks, before);
    assert step(d, t.id);
    if d == id {
      ReachesByStep(step, id, t.id);
    } else {
      ReachesFurther(step, id, d, t.id);
    }
  }

  /** In a run without cycles that is in step, either some task is Ready or all are Completed. */
  lemma NothingReadyIsAllDone(tasks: seq<Task>, states: States)
    requires WellFormedTasks(tasks) && !HasCycle(RunGraph(tasks)) && InStep(tasks, states)
    requires forall t :: t in tasks ==> states[t.id] != Ready
    ensures forall t :: t in tasks ==> states[t.id] == Completed
  {
    hide HasCycle, WaitsIn, Agrees;
    var open := set x | x in states && states[x] != Completed;
    if open != {} {
      forall x | x in open
        ensures WaitsIn(RunGraph(tasks), open, x)
      {
        var t :| t in tasks && t.id == x;
        var d := OpenDependency(tasks, states, t);
        WaitsFor(tasks, open, x, d);
      }
      StuckHasCycle(RunGraph(tasks), open);
    }
    forall t | t in tasks
      ensures states[t.id] == Completed
    {
      assert t.id !in open;
    }
  }

  lemma OpenDependency(tasks: seq<Task>, states: States, t: Task) returns (d: int)
    requires InStep(tasks, states) && t in tasks && t.id in states
    requires states[t.id] != Completed && states[t.id] != Ready
    ensures d in t.deps && d in states && states[d] != Completed
  {
    assert Agrees(t, states);
    NextMeaning(t.deps, states);
    d :| d in t.deps && !Done(states[d]);
  }

  /** A run starts in step: a task is Ready exactly if it depends on nothing. */
  lemma FreshRunIsInStep(tasks: seq<Task>, states: States)
    requires WellFormedTasks(tasks) && states.Keys == TaskIds(tasks)
    requires forall t :: t in tasks ==> states[t.id] == if t.deps == [] then Ready else Pending
    ensures InStep(tasks, states)
  {
    forall t | t in tasks && t.id in states && states[t.id] != Completed
      ensures Agrees(t, states)
    {
      OfTheRun(tasks, t);
      forall d | d in t.deps
        ensures states[d] == Ready || states[d] == Pending
      {
        var u :| u in tasks && u.id == d;
      }
      NextMeaning(t.deps, states);
      if t.deps != [] {
        assert t.deps[0] in t.deps && !Done(states[t.deps[0]]);
      }
    }
  }
}
