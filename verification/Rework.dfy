/** Which of the tasks that a rework sets back are ever done again. */
module Rework {
  import opened Wrappers
  import opened Reachability
  import opened Scheduler
  import W = Workflow
  import P = Planner
  import A = Agreement

  /** The task to which the review hands the work back. */
  ghost function SeedOf(tasks: seq<W.Task>, id: int): (seed: Option<int>)
  {
    var found := FindReworkSeed(tasks, Ancestry(tasks, id));
    if found.Some? then Some(found.value.id) else None
  }

  /** The rework sets the task back: it was Completed, the review rests on it, and it is not the
      one to be done again at once. */
  ghost predicate Unwound(tasks: seq<W.Task>, id: int, before: W.States, x: int) {
    Ancestor(tasks, id, x) && x in before && before[x] == W.Completed && Some(x) != SeedOf(tasks, id)
  }

  /** Once nothing the review rests on is Completed, a change of the seed re-decides exactly the
      tasks that rest on it. */
  lemma RedecidedIfRestingOnSeed(tasks: seq<W.Task>, id: int, after: W.States, seed: int, x: int)
    requires after.Keys == W.TaskIds(tasks) && x != seed && Ancestor(tasks, id, x)
    requires forall a :: Ancestor(tasks, id, a) && a in after ==> after[a] != W.Completed
    ensures W.Affected(tasks, after, seed, x) <==> Ancestor(tasks, x, seed)
  {
    hide W.OpenDependent, DependsOn;
    if W.Affected(tasks, after, seed, x) {
      AffectedRestsOn(tasks, after, seed, x);
    }
    if Ancestor(tasks, x, seed) {
      var p :| |p| >= 2 && p[0] == x && p[|p| - 1] == seed && IsWalk(Needs(tasks), p);
      OpenWalkBack(tasks, id, after, p);
    }
  }

  /** A walk along dependencies of the review, gone back along open dependents. */
  lemma {:induction false} OpenWalkBack(tasks: seq<W.Task>, id: int, after: W.States, p: seq<int>)
    requires after.Keys == W.TaskIds(tasks) && |p| >= 2 && Ancestor(tasks, id, p[0]) && IsWalk(Needs(tasks), p)
    requires forall a :: Ancestor(tasks, id, a) && a in after ==> after[a] != W.Completed
    ensures Reaches(W.Towards(tasks, after), p[|p| - 1], p[0])
    decreases |p|
  {
    var step := W.Towards(tasks, after);
    assert Needs(tasks)(p[0], p[0 + 1]);
    var t :| t in tasks && t.id == p[0] && p[1] in t.deps;
    assert step(p[1], p[0]);
    if |p| == 2 {
      ReachesByStep(step, p[1], p[0]);
    } else {
      var rest := p[1..];
      forall i | 0 <= i < |rest| - 1
        ensures Needs(tasks)(rest[i], rest[i + 1])
      {
        assert Needs(tasks)(p[i + 1], p[i + 1 + 1]);
      }
      ReachesFurther(Needs(tasks), id, p[0], p[1]);
      OpenWalkBack(tasks, id, after, rest);
      ReachesFurther(step, p[|p| - 1], p[1], p[0]);
    }
  }

  /** The tasks set back are all decided again with the task to rework, as documented, exactly if
      each of them rests on it. */
  lemma UnwoundAreRedecidedExactly(tasks: seq<W.Task>, id: int, before: W.States, after: W.States, attempts: Attempts)
    requires before.Keys == after.Keys == W.TaskIds(tasks) && ReworkStarted(tasks, id, after, attempts)
    ensures SeedOf(tasks, id).Some?
    ensures var seed := SeedOf(tasks, id).value;
      (forall x :: Unwound(tasks, id, before, x) ==> W.Affected(tasks, after, seed, x))
      <==> (forall x :: Unwound(tasks, id, before, x) ==> Ancestor(tasks, x, seed))
  {
    hide Ancestor, W.Affected, FindReworkSeed;
    var seed := SeedOf(tasks, id).value;
    forall x | Unwound(tasks, id, before, x)
      ensures W.Affected(tasks, after, seed, x) <==> Ancestor(tasks, x, seed)
    {
      RedecidedIfRestingOnSeed(tasks, id, after, seed, x);
    }
  }

  /** Everything the task rests on is at rest. */
  ghost predicate RestsAbove(tasks: seq<W.Task>, states: W.States, x: int) {
    forall y :: Ancestor(tasks, x, y) && y in states ==> Resting(states[y])
  }

  /** If no other task is ever handed work back, a task set back is stranded exactly if it does not
      rest on the task to rework. */
  lemma StrandedExactly(tasks: seq<W.Task>, id: int, before: W.States, x: int)
    requires before.Keys == W.TaskIds(tasks) && Unwound(tasks, id, before, x) && RestsAbove(tasks, before, x)
    requires SeedOf(tasks, id).Some? && forall y :: IsSeed(tasks, y) <==> Some(y) == SeedOf(tasks, id)
    ensures Stranded(tasks, id, before, x) <==> !Ancestor(tasks, x, SeedOf(tasks, id).value)
  {
    hide Ancestor, IsSeed, SeedOf;
    var seed := SeedOf(tasks, id).value;
    if Ancestor(tasks, x, seed) {
      SeedIsKnown(tasks, id);
      assert IsSeed(tasks, seed);
    }
  }

  lemma SeedIsKnown(tasks: seq<W.Task>, id: int)
    requires SeedOf(tasks, id).Some?
    ensures SeedOf(tasks, id).value in W.TaskIds(tasks)
  {}

  // ---- A run that a request for changes leaves unable to complete ------------------------

  const ADVICE := W.Task(1, 0, [], P.Advisory)
  const WORK := W.Task(2, 1, [1], P.Implement)
  const REVIEW := W.Task(3, 2, [2], P.Review)
  const REVIEWED: W.States := map[1 := W.Completed, 2 := W.Completed, 3 := W.Running]

  /** The advice is left behind when the review sends the work back, and does not rest on it. */
  lemma AdviceIsStranded()
    ensures Stranded([ADVICE, WORK, REVIEW], 3, REVIEWED, 1)
  {
    var tasks := [ADVICE, WORK, REVIEW];
    var needs := Needs(tasks);
    assert tasks[1] in tasks && tasks[2] in tasks;
    assert needs(3, 2) && needs(2, 1);
    ReachesByStep(needs, 3, 2);
    ReachesFurther(needs, 3, 2, 1);
    AdviceRestsOnNothing();
    AdviceIsNoSeed();
  }

  lemma AdviceRestsOnNothing()
    ensures forall y :: !Ancestor([ADVICE, WORK, REVIEW], 1, y)
  {
    var needs := Needs([ADVICE, WORK, REVIEW]);
    forall y
      ensures !Ancestor([ADVICE, WORK, REVIEW], 1, y)
    {
      if Reaches(needs, 1, y) {
        ClosedSetHolds(needs, 1, {}, y);
      }
    }
  }

  lemma AdviceIsNoSeed()
    ensures !IsSeed([ADVICE, WORK, REVIEW], 1)
  {
    hide Ancestry;
  }

  /** A run with a stalled task never completes, whatever executions, restarts and retries it
      lives through. */
  method StalledRunNeverCompletes(run: Run, events: seq<Event>, ghost x: int) returns (r: Result<RunEnd, Stop>)
    requires run.Valid() && Stalled(run.board.tasks, run.board.states, x)
    modifies run`attempts, run.board`states
    ensures run.Valid() && Stalled(run.board.tasks, run.board.states, x)
    ensures r != Ok(RunCompleted)
  {
    hide Stalled, Sound, W.WellFormedTasks;
    run.LiveThrough(events);
    ghost var picks, looks, found;
    r, picks, looks, found := run.ExecuteActiveRun();
  }

  /** Such is the run of the advice, once its review has sent the work back. */
  method AdvisedRunNeverCompletes(run: Run, events: seq<Event>)
    returns (sent: Result<bool, Stop>, r: Result<RunEnd, Stop>)
    requires run.Valid() && run.board.tasks == [ADVICE, WORK, REVIEW] && run.board.states == REVIEWED
    modifies run`attempts, run.board`states
    ensures sent == Ok(true) ==> r != Ok(RunCompleted)
  {
    hide Stalled, Stranded, Sound, W.WellFormedTasks, Unreworkable, ReworkStarted, UnwindsAncestry;
    AdviceIsStranded();
    assert run.board.tasks[2] in run.board.tasks;
    sent := run.ReworkAfterReview(REVIEW);
    if sent == Ok(true) {
      r := StalledRunNeverCompletes(run, events, 1);
    } else {
      r := Ok(RunFailed);
    }
  }

  // ---- A run in which nothing goes wrong ---------------------------------------------------

  /** A fresh run of a plan without cycles or planner tasks completes when every write is made, every
      agent succeeds, every reviewer approves and nobody cancels. */
  method SmoothRunCompletes(board: W.TaskBoard) returns (run: Run, r: Result<RunEnd, Stop>)
    requires board.Valid() && !A.Cyclic(board.tasks)
    requires forall t :: t in board.tasks ==>
      t.operation != P.Planning && board.states[t.id] == if t.deps == [] then W.Ready else W.Pending
    modifies board`states
    ensures run.board == board && run.Valid()
    ensures board.reliable && run.agreeable ==> r == Ok(RunCompleted) && AllCompleted(board.tasks, board.states)
  {
    hide W.WellFormedTasks, A.InStep, A.Cyclic, Sound, Stalled, History, Earned;
    forall x | x in board.states
      ensures board.states[x] != W.Completed
    {
      var t :| t in board.tasks && t.id == x;
    }
    A.FreshRunIsInStep(board.tasks, board.states);
    run := new Run(board);
    ghost var picks, looks, found;
    r, picks, looks, found := run.ExecuteActiveRun();
  }

  // ---- Tasks without attempts left ---------------------------------------------------------

  /** The task is not done and may not be attempted again. */
  predicate Exhausted(states: W.States, attempts: Attempts, x: int) {
    x in states && x in attempts && states[x] != W.Completed && |attempts[x]| == MAX_TASK_ATTEMPTS
  }

  /** A run with such a task never completes either, stalled or not. */
  method ExhaustedRunNeverCompletes(run: Run, events: seq<Event>, ghost x: int) returns (r: Result<RunEnd, Stop>)
    requires run.Valid() && Exhausted(run.board.states, run.attempts, x)
    modifies run`attempts, run.board`states
    ensures run.Valid() && Exhausted(run.board.states, run.attempts, x)
    ensures r != Ok(RunCompleted)
  {
    hide Stalled, Earned, W.WellFormedTasks;
    run.LiveThrough(events);
    ghost var picks, looks, found;
    r, picks, looks, found := run.ExecuteActiveRun();
  }

  /** So the absence of stalled tasks does not make a run completable. */
  lemma NothingStalledIsNotEnough(attempt: Attempt)
    ensures var (states, attempts) := (map[2 := W.Failed], map[2 := [attempt, attempt, attempt]]);
      Exhausted(states, attempts, 2) && forall x :: !Stalled([WORK], states, x)
  {
    hide Ancestor, IsSeed;
  }
}
