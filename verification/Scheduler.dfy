/** Executing the tasks of one run: attempts, reviews, rework, retries and restarts. */
module Scheduler {
  import opened Wrappers
  import opened Reachability
  import W = Workflow
  import P = Planner
  import A = Agreement

  const MAX_TASK_ATTEMPTS: nat := 3

  datatype Decision = Approve | RequestChanges

  datatype AttemptStatus = Running | Reviewing | Approved | ChangesRequested | Failed | Interrupted | Cancelled

  /** What a specialized reviewer answered, with how many findings remain after reading it. */
  datatype Verdict = Verdict(decision: Decision, findings: nat)

  datatype Attempt = Attempt(status: AttemptStatus, review: Option<Decision>)

  type Attempts = map<int, seq<Attempt>>

  // ---- What a run keeps -------------------------------------------------------------------

  function Latest(attempts: seq<Attempt>): Attempt
    requires attempts != []
  {
    attempts[|attempts| - 1]
  }

  predicate NeedsReviewer(op: P.Operation) {
    op == P.Implement || op == P.Verify || op == P.PostProcess
  }

  /** The latest attempt was approved, and by a reviewer where the operation calls for one. */
  predicate Earned(op: P.Operation, attempts: seq<Attempt>) {
    && attempts != []
    && Latest(attempts).status == Approved
    && (NeedsReviewer(op) ==> Latest(attempts).review == Some(Approve))
  }

  ghost predicate Sound(tasks: seq<W.Task>, states: W.States, attempts: Attempts) {
    && attempts.Keys == states.Keys == W.TaskIds(tasks)
    && (forall x :: x in attempts ==> |attempts[x]| <= MAX_TASK_ATTEMPTS)
    && (forall t :: t in tasks && states[t.id] == W.Completed ==> Earned(t.operation, attempts[t.id]))
  }

  /** The attempts the tasks may still make. */
  function Budget(tasks: seq<W.Task>, attempts: Attempts): nat
    requires forall t :: t in tasks ==> t.id in attempts && |attempts[t.id]| <= MAX_TASK_ATTEMPTS
  {
    if tasks == [] then 0
    else MAX_TASK_ATTEMPTS - |attempts[tasks[0].id]| + Budget(tasks[1..], attempts)
  }

  lemma {:induction false} BudgetDrops(tasks: seq<W.Task>, a: Attempts, b: Attempts)
    requires forall t :: t in tasks ==> t.id in a && t.id in b && |a[t.id]| <= |b[t.id]| <= MAX_TASK_ATTEMPTS
    ensures Budget(tasks, b) <= Budget(tasks, a)
    ensures (exists t :: t in tasks && |a[t.id]| < |b[t.id]|) ==> Budget(tasks, b) < Budget(tasks, a)
  {
    if tasks != [] {
      assert tasks == [tasks[0]] + tasks[1..];
      assert tasks[0] in tasks;
      BudgetDrops(tasks[1..], a, b);
    }
  }

  // ---- The ancestry of a review ----------------------------------------------------------

  /** `a` depends directly on `b`. */
  ghost predicate DependsOn(tasks: seq<W.Task>, a: int, b: int) {
    exists t :: t in tasks && t.id == a && b in t.deps
  }

  ghost function Needs(tasks: seq<W.Task>): Step {
    (a, b) => DependsOn(tasks, a, b)
  }

  ghost predicate Ancestor(tasks: seq<W.Task>, id: int, a: int) {
    Reaches(Needs(tasks), id, a)
  }

  /** Everything `id` or a collected task depends on is collected or about to be. */
  ghost predicate Closing(tasks: seq<W.Task>, id: int, ancestors: set<int>, frontier: seq<int>) {
    && (forall y :: DependsOn(tasks, id, y) ==> y in ancestors || y in frontier)
    && (forall x, y :: x in ancestors && DependsOn(tasks, x, y) ==> y in ancestors || y in frontier)
    && (forall x :: x in ancestors || x in frontier ==> x in W.TaskIds(tasks) && Ancestor(tasks, id, x))
  }

  lemma ClosingStarts(tasks: seq<W.Task>, task: W.Task)
    requires W.WellFormedTasks(tasks) && task in tasks
    ensures Closing(tasks, task.id, {}, task.deps)
  {
    forall y | y in task.deps
      ensures Ancestor(tasks, task.id, y)
    {
      assert Needs(tasks)(task.id, y);
      ReachesByStep(Needs(tasks), task.id, y);
    }
    forall y | DependsOn(tasks, task.id, y)
      ensures y in task.deps
    {
      var t :| t in tasks && t.id == task.id && y in t.deps;
      W.SameTask(tasks, t, task);
    }
  }

  lemma ClosingSkips(tasks: seq<W.Task>, id: int, ancestors: set<int>, frontier: seq<int>)
    requires Closing(tasks, id, ancestors, frontier) && frontier != []
    requires frontier[|frontier| - 1] in ancestors
    ensures Closing(tasks, id, ancestors, frontier[..|frontier| - 1])
  {
    hide DependsOn, Ancestor;
    var x := frontier[|frontier| - 1];
    assert frontier == frontier[..|frontier| - 1] + [x];
  }

  lemma ClosingCollects(tasks: seq<W.Task>, id: int, ancestors: set<int>, frontier: seq<int>, t: W.Task)
    requires W.WellFormedTasks(tasks)
    requires Closing(tasks, id, ancestors, frontier) && frontier != []
    requires t in tasks && t.id == frontier[|frontier| - 1]
    ensures Closing(tasks, id, ancestors + {t.id}, frontier[..|frontier| - 1] + t.deps)
  {
    hide Reaches;
    var rest := frontier[..|frontier| - 1];
    assert frontier == rest + [t.id];
    assert t.id in frontier;
    forall y | y in t.deps
      ensures y in W.TaskIds(tasks) && Ancestor(tasks, id, y)
    {
      assert Needs(tasks)(t.id, y);
      ReachesFurther(Needs(tasks), id, t.id, y);
    }
    forall y | DependsOn(tasks, t.id, y)
      ensures y in t.deps
    {
      var u :| u in tasks && u.id == t.id && y in u.deps;
      W.SameTask(tasks, t, u);
    }
  }

  lemma ClosingIsAncestry(tasks: seq<W.Task>, id: int, ancestors: set<int>)
    requires Closing(tasks, id, ancestors, [])
    ensures forall a :: a in ancestors <==> Ancestor(tasks, id, a)
  {
    forall a | Ancestor(tasks, id, a)
      ensures a in ancestors
    {
      ClosedSetHolds(Needs(tasks), id, ancestors, a);
    }
  }

  /** Collects every task `task` depends on, at any distance. */
  method TransitiveAncestors(task: W.Task, tasks: seq<W.Task>) returns (ancestors: set<int>)
    requires W.WellFormedTasks(tasks) && task in tasks
    ensures forall a :: a in ancestors <==> Ancestor(tasks, task.id, a)
    ensures ancestors <= W.TaskIds(tasks)
  {
    hide Closing, W.WellFormedTasks, Ancestor;
    ancestors := {};
    var frontier := task.deps;
    ClosingStarts(tasks, task);
    while frontier != []
      invariant Closing(tasks, task.id, ancestors, frontier)
      invariant ancestors <= W.TaskIds(tasks)
      decreases |W.TaskIds(tasks) - ancestors|, |frontier|
    {
      var id := frontier[|frontier| - 1];
      var rest := frontier[..|frontier| - 1];
      if id in ancestors {
        ClosingSkips(tasks, task.id, ancestors, frontier);
        frontier := rest;
        continue;
      }
      assert id in W.TaskIds(tasks) by {
        FrontierIsKnown(tasks, task.id, ancestors, frontier);
      }
      var ancestor :| ancestor in tasks && ancestor.id == id;
      ClosingCollects(tasks, task.id, ancestors, frontier, ancestor);
      W.VisitShrinks(tasks, ancestors, id);
      ancestors := ancestors + {id};
      frontier := rest + ancestor.deps;
    }
    assert frontier == [];
    ClosingIsAncestry(tasks, task.id, ancestors);
  }

  lemma FrontierIsKnown(tasks: seq<W.Task>, id: int, ancestors: set<int>, frontier: seq<int>)
    requires Closing(tasks, id, ancestors, frontier) && frontier != []
    ensures frontier[|frontier| - 1] in W.TaskIds(tasks)
  {
    var x := frontier[|frontier| - 1];
    assert x in frontier;
  }

  // ---- The task to rework ------------------------------------------------------------------

  /** The later tasks of `op` in `among` have a lower position than task `i`. */
  predicate OthersAfter(tasks: seq<W.Task>, i: nat, among: set<int>, op: P.Operation)
    requires i < |tasks|
  {
    forall j :: i < j < |tasks| && tasks[j].id in among && tasks[j].operation == op
      ==> tasks[j].position < tasks[i].position
  }

  /** The last of the tasks with the highest position among those of `op` in `among`. */
  function Deepest(tasks: seq<W.Task>, among: set<int>, op: P.Operation): (r: Option<W.Task>)
    ensures r == None <==> forall t :: t in tasks ==> !(t.id in among && t.operation == op)
    ensures r.Some? ==> r.value in tasks && r.value.id in among && r.value.operation == op
    ensures r.Some? ==> forall t :: t in tasks && t.id in among && t.operation == op ==> t.position <= r.value.position
    ensures r.Some? ==> exists i :: 0 <= i < |tasks| && tasks[i] == r.value && OthersAfter(tasks, i, among, op)
  {
    if tasks == [] then None
    else
      var last := tasks[|tasks| - 1];
      assert tasks == tasks[..|tasks| - 1] + [last];
      var before := Deepest(tasks[..|tasks| - 1], among, op);
      if last.id in among && last.operation == op && (before.None? || before.value.position <= last.position)
      then Some(last) else before
  }

  function FindReworkSeed(tasks: seq<W.Task>, ancestors: set<int>): Option<W.Task> {
    var implementation := Deepest(tasks, ancestors, P.Implement);
    if implementation.Some? then implementation else Deepest(tasks, ancestors, P.Verify)
  }

  // ---- Running the tasks -----------------------------------------------------------------

  datatype Stop =
    | AgentConfiguration | PolicyViolation | OutputLimit | RetryLimit | InvalidTransition | Environment
    | PlannerTask | NoSuchTask

  /** How one agent process ended. */
  datatype AgentRun = LaunchFailed(configuration: bool) | Stopped(cancelled: bool, success: bool, truncated: bool)

  /** The agent ran to its end, successfully, with its whole output captured. */
  predicate Succeeded(agentRun: AgentRun) {
    agentRun.Stopped? && agentRun.success && !agentRun.cancelled && !agentRun.truncated
  }

  /** The agent could not even be started because of its configuration. */
  predicate Misconfigured(agentRun: AgentRun) {
    agentRun.LaunchFailed? && agentRun.configuration
  }

  /** The review agent ran to its end and its answer, if it can be read, approves. */
  predicate Approves(reviewRun: AgentRun, verdict: Option<Decision>) {
    Succeeded(reviewRun) && verdict == Some(Approve)
  }

  /** What the stage in which the worker agent runs leads to. */
  datatype Stage = Produced | TryAgain | Leave(result: Result<bool, Stop>)

  /** What the end of the worker agent leads to after `number` attempts when every write is made. */
  function EndOfWork(agentRun: AgentRun, violation: bool, number: nat): Stage {
    if agentRun.Stopped? && agentRun.truncated then Leave(Err(OutputLimit))
    else if violation then Leave(Err(PolicyViolation))
    else if agentRun.Stopped? && agentRun.cancelled then Leave(Ok(false))
    else if Succeeded(agentRun) then Produced
    else if Misconfigured(agentRun) then Leave(Err(AgentConfiguration))
    else if number < MAX_TASK_ATTEMPTS then TryAgain else Leave(Ok(false))
  }

  /** What the end of the Reviewer's run leads to when every write is made. */
  function EndOfReview(reviewRun: AgentRun, verdict: Option<Decision>, number: nat): Stage {
    if reviewRun.Stopped? && reviewRun.cancelled then Leave(Ok(false))
    else if reviewRun.Stopped? && reviewRun.success && reviewRun.truncated then Leave(Err(OutputLimit))
    else if Misconfigured(reviewRun) then Leave(Err(AgentConfiguration))
    else if Approves(reviewRun, verdict) then Leave(Ok(true))
    else if number < MAX_TASK_ATTEMPTS then TryAgain else Leave(Ok(false))
  }

  /** The work was cancelled, or no attempt is left. */
  predicate GivenUp(attempts: seq<Attempt>) {
    attempts != [] && (Latest(attempts).status == Cancelled || |attempts| == MAX_TASK_ATTEMPTS)
  }

  predicate SameButLatest(a: seq<Attempt>, b: seq<Attempt>) {
    0 < |a| == |b| && a[..|a| - 1] == b[..|b| - 1]
  }

  /** `b` keeps every attempt of `a`; of the attempts it adds, only the latest may be approved. */
  ghost predicate Extends(a: seq<Attempt>, b: seq<Attempt>) {
    a <= b && forall i :: |a| <= i < |b| - 1 ==> b[i].status != Approved
  }

  /** `b` keeps every attempt of `a` and adds none that was approved. */
  ghost predicate Unapproved(a: seq<Attempt>, b: seq<Attempt>) {
    a <= b && forall i :: |a| <= i < |b| ==> b[i].status != Approved
  }

  lemma NothingYet(id: int, states: W.States, attempts: Attempts)
    requires id in attempts
    ensures Confined(id, states, attempts, states, attempts) && Unapproved(attempts[id], attempts[id])
    ensures OneMore(attempts[id], attempts[id])
    ensures attempts[id] != [] ==> SameButLatest(attempts[id], attempts[id])
  {}

  /** `b` is `a`, with one more attempt at most. */
  predicate OneMore(a: seq<Attempt>, b: seq<Attempt>) {
    a <= b && |b| <= |a| + 1
  }

  /** The attempt added to `a` was not approved and leaves room for another. */
  predicate Refused(a: seq<Attempt>, b: seq<Attempt>) {
    |b| == |a| + 1 && Latest(b).status != Approved && |b| < MAX_TASK_ATTEMPTS
  }

  lemma AttemptEnds(a: seq<Attempt>, b: seq<Attempt>, c: seq<Attempt>)
    requires b == a + [Attempt(Running, None)] && SameButLatest(b, c)
    ensures c != [] && |c| == |a| + 1 && OneMore(a, c)
    ensures Latest(c).status != Approved && |c| < MAX_TASK_ATTEMPTS ==> Refused(a, c)
  {}

  lemma UnapprovedExtends(a: seq<Attempt>, b: seq<Attempt>, c: seq<Attempt>)
    requires Unapproved(a, b) && OneMore(b, c)
    ensures |a| <= |b| <= |c| && Extends(a, c)
    ensures Refused(b, c) ==> Unapproved(a, c) && |b| < |c| < MAX_TASK_ATTEMPTS
  {}

  lemma ClosesTwice(a: seq<Attempt>, b: seq<Attempt>, c: seq<Attempt>)
    requires SameButLatest(a, b) && SameButLatest(b, c)
    ensures SameButLatest(a, c)
  {}

  lemma ConfinedTwice(id: int, s1: W.States, a1: Attempts, s2: W.States, a2: Attempts, s3: W.States, a3: Attempts)
    requires Confined(id, s1, a1, s2, a2) && Confined(id, s2, a2, s3, a3)
    ensures Confined(id, s1, a1, s3, a3)
  {}

  datatype RunEnd = RunCompleted | RunFailed | RunCancelled

  /** From `a` to `b`, only `id` may have become or stopped being Completed, and only it may
      have gained attempts. */
  ghost predicate Confined(id: int, statesA: W.States, attemptsA: Attempts, statesB: W.States, attemptsB: Attempts) {
    && statesA.Keys == statesB.Keys && attemptsA.Keys == attemptsB.Keys
    && (forall x :: x in statesA && x != id ==> (statesA[x] == W.Completed <==> statesB[x] == W.Completed))
    && (forall x :: x in attemptsA && x != id ==> attemptsA[x] == attemptsB[x])
  }

  /** Changing one task's state and attempts keeps the run sound if the task earned its state. */
  lemma ConfinedStaysSound(tasks: seq<W.Task>, id: int, statesA: W.States, attemptsA: Attempts, statesB: W.States,
                           attemptsB: Attempts)
    requires Sound(tasks, statesA, attemptsA) && Confined(id, statesA, attemptsA, statesB, attemptsB)
    requires id in statesB && |attemptsB[id]| <= MAX_TASK_ATTEMPTS
    requires statesB[id] == W.Completed ==> forall t :: t in tasks && t.id == id ==> Earned(t.operation, attemptsB[id])
    ensures Sound(tasks, statesB, attemptsB)
  {
    hide Earned;
  }

  /** From `a` to `b` no task other than the review became Completed, and only tasks of the
      review's ancestry stopped being so. */
  ghost predicate UnwindsAncestry(tasks: seq<W.Task>, id: int, a: W.States, b: W.States) {
    && a.Keys == b.Keys && id in a
    && (forall x :: x in a && x != id && b[x] == W.Completed ==> a[x] == W.Completed)
    && (forall x :: x in a && x != id && a[x] == W.Completed && !Ancestor(tasks, id, x) ==> b[x] == W.Completed)
  }

  function SetBack(states: W.States, ids: set<int>): W.States {
    map x | x in states :: if x in ids && states[x] == W.Completed then W.Pending else states[x]
  }

  ghost function Ancestry(tasks: seq<W.Task>, id: int): set<int> {
    set a | a in W.TaskIds(tasks) && Ancestor(tasks, id, a)
  }

  /** The review depends on no implementation or verification task with attempts left. */
  ghost predicate Unreworkable(tasks: seq<W.Task>, id: int, attempts: Attempts) {
    var seed := FindReworkSeed(tasks, Ancestry(tasks, id));
    seed.None? || seed.value.id !in attempts || |attempts[seed.value.id]| >= MAX_TASK_ATTEMPTS
  }

  /** No task the review rests on is Completed any more, and the task to rework can run. */
  ghost predicate ReworkStarted(tasks: seq<W.Task>, id: int, states: W.States, attempts: Attempts) {
    && (forall a :: Ancestor(tasks, id, a) && a in states ==> states[a] != W.Completed)
    && !Unreworkable(tasks, id, attempts)
    && var seed := FindReworkSeed(tasks, Ancestry(tasks, id)).value;
       seed.id in states && states[seed.id] == W.Ready
  }

  /** The task that a review sends its work back to: the implementation it rests on that has the
      highest position, the last one listed among equals; a verification likewise if it rests on no
      implementation. */
  ghost predicate IsReworkSeed(tasks: seq<W.Task>, id: int, t: W.Task) {
    && Ancestor(tasks, id, t.id)
    && (t.operation == P.Implement
        || (t.operation == P.Verify
            && forall u :: u in tasks && u.operation == P.Implement ==> !Ancestor(tasks, id, u.id)))
    && exists i :: 0 <= i < |tasks| && tasks[i] == t && NoneDeeper(tasks, id, i)
  }

  ghost predicate NoneDeeper(tasks: seq<W.Task>, id: int, i: nat)
    requires i < |tasks|
  {
    forall j :: 0 <= j < |tasks| && tasks[j].operation == tasks[i].operation && Ancestor(tasks, id, tasks[j].id) ==>
      tasks[j].position < tasks[i].position || (tasks[j].position == tasks[i].position && j <= i)
  }

  /** The search for it finds exactly that task. */
  lemma SeedIsDeepest(tasks: seq<W.Task>, id: int, t: W.Task)
    ensures FindReworkSeed(tasks, Ancestry(tasks, id)) == Some(t) <==> IsReworkSeed(tasks, id, t)
  {
    hide Ancestor, Deepest;
    var among := Ancestry(tasks, id);
    assert forall u :: u in tasks ==> (u.id in among <==> Ancestor(tasks, id, u.id));
    DeepestIsOne(tasks, id, P.Implement, t);
    DeepestIsOne(tasks, id, P.Verify, t);
  }

  lemma DeepestIsOne(tasks: seq<W.Task>, id: int, op: P.Operation, t: W.Task)
    ensures Deepest(tasks, Ancestry(tasks, id), op) == Some(t) <==>
            Ancestor(tasks, id, t.id) && t.operation == op
            && exists i :: 0 <= i < |tasks| && tasks[i] == t && NoneDeeper(tasks, id, i)
    ensures Deepest(tasks, Ancestry(tasks, id), op) == None <==>
            forall u :: u in tasks && u.operation == op ==> !Ancestor(tasks, id, u.id)
  {
    hide Ancestor, Deepest;
    var among := Ancestry(tasks, id);
    assert forall u :: u in tasks ==> (u.id in among <==> Ancestor(tasks, id, u.id));
    var found := Deepest(tasks, among, op);
    if found.Some? {
      var i :| 0 <= i < |tasks| && tasks[i] == found.value && OthersAfter(tasks, i, among, op);
      assert NoneDeeper(tasks, id, i);
      if j :| 0 <= j < |tasks| && tasks[j] == t && NoneDeeper(tasks, id, j) && Ancestor(tasks, id, t.id)
              && t.operation == op
      {
        assert tasks[i] in tasks && tasks[j] in tasks;
        assert i == j;
      }
    } else if j :| 0 <= j < |tasks| && tasks[j] == t {
      assert t in tasks;
    }
  }

  /** In terms of that task: the rework is refused, and is started. */
  lemma ReworkOfSeed(tasks: seq<W.Task>, id: int, states: W.States, attempts: Attempts)
    requires attempts.Keys == W.TaskIds(tasks)
    ensures Unreworkable(tasks, id, attempts) <==>
            forall t :: IsReworkSeed(tasks, id, t) ==> t.id in attempts && |attempts[t.id]| >= MAX_TASK_ATTEMPTS
    ensures ReworkStarted(tasks, id, states, attempts) ==>
            exists t :: IsReworkSeed(tasks, id, t) && t.id in states && states[t.id] == W.Ready
  {
    hide Ancestor, FindReworkSeed, IsReworkSeed, Ancestry;
    var seed := FindReworkSeed(tasks, Ancestry(tasks, id));
    forall t
      ensures seed == Some(t) <==> IsReworkSeed(tasks, id, t)
    {
      SeedIsDeepest(tasks, id, t);
    }
    if seed.Some? {
      assert seed.value in tasks by { SeedIsTask(tasks, id); }
      assert IsReworkSeed(tasks, id, seed.value);
    }
  }

  lemma SeedIsTask(tasks: seq<W.Task>, id: int)
    requires FindReworkSeed(tasks, Ancestry(tasks, id)).Some?
    ensures FindReworkSeed(tasks, Ancestry(tasks, id)).value in tasks
  {}

  ghost predicate SeedIsCompleted(tasks: seq<W.Task>, id: int, states: W.States) {
    forall t :: IsReworkSeed(tasks, id, t) ==> t.id in states && states[t.id] == W.Completed
  }

  lemma NothingUnwound(tasks: seq<W.Task>, id: int, states: W.States)
    requires id in states
    ensures UnwindsAncestry(tasks, id, states, states)
  {}

  lemma KeptOutside(states: W.States, ids: set<int>, x: int)
    requires x in states && x !in ids
    ensures SetBack(states, ids).Keys == states.Keys && SetBack(states, ids)[x] == states[x]
  {}

  lemma StaysAsItWas(states: W.States, ids: set<int>, x: int)
    requires x in states && states[x] != W.Completed
    ensures SetBack(states, ids).Keys == states.Keys && SetBack(states, ids)[x] == states[x]
  {}

  /** Setting some of the ancestry back, then marking the review and the seed, completely or not. */
  lemma ReworkEffect(tasks: seq<W.Task>, id: int, seed: int, done: set<int>, attempts: Attempts, s0: W.States,
                     s1: W.States, s2: W.States)
    requires Sound(tasks, s0, attempts) && id in s0 && seed in s0 && seed != id
    requires Ancestor(tasks, id, seed) && done <= Ancestry(tasks, id) - {seed}
    requires s0[id] != W.Completed
    requires Confined(id, SetBack(s0, done), attempts, s1, attempts) && s1[id] != W.Completed
    requires s2 == s1 || Confined(seed, s1, attempts, s2, attempts)
    requires s2.Keys == s0.Keys && (s2[seed] == W.Completed ==> s1[seed] == W.Completed)
    ensures Sound(tasks, s2, attempts) && UnwindsAncestry(tasks, id, s0, s2)
    ensures done == Ancestry(tasks, id) - {seed} ==>
      forall a :: Ancestor(tasks, id, a) && a in s2 && a != seed ==> s2[a] != W.Completed
    ensures s2[id] != W.Completed
  {
    hide Earned, Ancestor;
  }

  predicate OthersAttempts(id: int, a: Attempts, b: Attempts) {
    a.Keys == b.Keys && forall x :: x in a && x != id ==> a[x] == b[x]
  }

  /** A review that lets the run go on either approved and completed, touching nothing else, or
      asked for changes and started the rework. */
  ghost predicate Settles(tasks: seq<W.Task>, id: int, statesA: W.States, attemptsA: Attempts, statesB: W.States,
                          attemptsB: Attempts) {
    && id in attemptsB && id in statesB && attemptsB[id] != []
    && if Latest(attemptsB[id]).status == Approved
       then statesB[id] == W.Completed && Confined(id, statesA, attemptsA, statesB, attemptsB)
       else Latest(attemptsB[id]).status == ChangesRequested && ReworkStarted(tasks, id, statesB, attemptsB)
            && statesB[id] != W.Completed
  }

  lemma ApprovedIsConfined(tasks: seq<W.Task>, id: int, statesA: W.States, attemptsA: Attempts, statesB: W.States,
                           attemptsB: Attempts)
    ensures Settles(tasks, id, statesA, attemptsA, statesB, attemptsB) && Latest(attemptsB[id]).status == Approved
            ==> Confined(id, statesA, attemptsA, statesB, attemptsB)
  {}

  lemma ConfinedUnwinds(tasks: seq<W.Task>, id: int, s0: W.States, a0: Attempts, s1: W.States, a1: Attempts)
    requires Confined(id, s0, a0, s1, a1) && id in s0
    ensures UnwindsAncestry(tasks, id, s0, s1) && OthersAttempts(id, a0, a1)
  {}

  lemma SettlesAfter(tasks: seq<W.Task>, id: int, s0: W.States, a0: Attempts, s1: W.States, a1: Attempts,
                     s2: W.States, a2: Attempts)
    requires Confined(id, s0, a0, s1, a1)
    requires UnwindsAncestry(tasks, id, s1, s2) && OthersAttempts(id, a1, a2)
    ensures UnwindsAncestry(tasks, id, s0, s2) && OthersAttempts(id, a0, a2)
    ensures Settles(tasks, id, s1, a1, s2, a2) ==> Settles(tasks, id, s0, a0, s2, a2)
  {
    hide ReworkStarted, Ancestor;
  }

  lemma SameTaskOperation(tasks: seq<W.Task>, task: W.Task)
    requires W.WellFormedTasks(tasks) && task in tasks
    ensures forall t :: t in tasks && t.id == task.id ==> t.operation == task.operation
  {}

  lemma SeedIsAnotherTask(tasks: seq<W.Task>, review: W.Task, ancestors: set<int>)
    requires W.WellFormedTasks(tasks) && review in tasks && review.operation == P.Review
    ensures var seed := FindReworkSeed(tasks, ancestors);
      seed.Some? ==> seed.value in tasks && seed.value.id in W.TaskIds(tasks) && seed.value.id in ancestors
                     && seed.value.id != review.id
  {}

  // ---- Tasks that a rework leaves behind --------------------------------------------------

  /** Neither running nor failed: nothing will change such a task by itself. */
  predicate Resting(state: W.TaskState) {
    state == W.Pending || state == W.Completed || state == W.Superseded
  }

  /** Some review would hand its work back to this task. */
  ghost predicate IsSeed(tasks: seq<W.Task>, x: int) {
    exists r :: r in tasks && r.operation == P.Review
                && FindReworkSeed(tasks, Ancestry(tasks, r.id)).Some?
                && FindReworkSeed(tasks, Ancestry(tasks, r.id)).value.id == x
  }

  lemma SeedOfReview(tasks: seq<W.Task>, review: W.Task, seed: int)
    requires review in tasks && review.operation == P.Review
    requires FindReworkSeed(tasks, Ancestry(tasks, review.id)).Some?
    requires FindReworkSeed(tasks, Ancestry(tasks, review.id)).value.id == seed
    ensures IsSeed(tasks, seed)
  {}

  /** The task and everything it rests on are at rest, and no review hands work back to them. */
  ghost predicate AtRest(tasks: seq<W.Task>, states: W.States, x: int) {
    x in states && forall y :: (y == x || Ancestor(tasks, x, y)) && y in states ==>
      Resting(states[y]) && !IsSeed(tasks, y)
  }

  /** The task waits, and nothing it waits for will ever move. */
  ghost predicate Stalled(tasks: seq<W.Task>, states: W.States, x: int) {
    AtRest(tasks, states, x) && states[x] == W.Pending
  }

  /** What was stalled in `a` is stalled in `b`. */
  ghost predicate KeepsStalled(tasks: seq<W.Task>, a: W.States, b: W.States) {
    forall x :: Stalled(tasks, a, x) ==> Stalled(tasks, b, x)
  }

  /** The task moves by itself or is one that a review hands work back to. */
  ghost predicate MayMove(tasks: seq<W.Task>, states: W.States, id: int) {
    id in states && (!Resting(states[id]) || IsSeed(tasks, id))
  }

  /** From `a` to `b` only `id` and tasks that rest on it changed. */
  ghost predicate ChangedBelow(tasks: seq<W.Task>, id: int, a: W.States, b: W.States) {
    a.Keys == b.Keys && forall x :: x in a && x != id && a[x] != b[x] ==> Ancestor(tasks, x, id)
  }

  lemma AncestorsOfAncestors(tasks: seq<W.Task>, x: int, y: int, z: int)
    requires Ancestor(tasks, x, y) && Ancestor(tasks, y, z)
    ensures Ancestor(tasks, x, z)
  {
    ReachesOn(Needs(tasks), x, y, z);
  }

  /** A change of a task that may move leaves everything at rest as it was. */
  lemma MovingLeavesRest(tasks: seq<W.Task>, id: int, a: W.States, b: W.States, x: int)
    requires ChangedBelow(tasks, id, a, b) && MayMove(tasks, a, id) && AtRest(tasks, a, x)
    ensures AtRest(tasks, b, x) && a[x] == b[x]
  {
    hide Ancestor, IsSeed, Resting;
    assert x != id && !Ancestor(tasks, x, id);
    forall y | (y == x || Ancestor(tasks, x, y)) && y in b
      ensures Resting(b[y]) && !IsSeed(tasks, y) && a[y] == b[y]
    {
      if y != x && Ancestor(tasks, y, id) {
        AncestorsOfAncestors(tasks, x, y, id);
      }
    }
  }

  lemma MovingKeepsStalled(tasks: seq<W.Task>, id: int, a: W.States, b: W.States)
    requires ChangedBelow(tasks, id, a, b) && MayMove(tasks, a, id)
    ensures KeepsStalled(tasks, a, b)
  {
    hide AtRest, MayMove, ChangedBelow;
    forall x | Stalled(tasks, a, x)
      ensures Stalled(tasks, b, x)
    {
      MovingLeavesRest(tasks, id, a, b, x);
    }
  }

  /** A change reaches only tasks that rest on the changed one. */
  lemma MarkingChangesBelow(tasks: seq<W.Task>, a: W.States, b: W.States, id: int, target: W.TaskState,
                            order: seq<int>)
    requires W.Marking(tasks, a, b, id, target, order)
    ensures ChangedBelow(tasks, id, a, b)
  {
    hide Ancestor, W.Affected, W.VisitOrder, W.Rooted, W.CanTransition, W.DecidedFrom;
    forall x | x in a && x != id && a[x] != b[x]
      ensures Ancestor(tasks, x, id)
    {
      assert x in order;
      AffectedRestsOn(tasks, a, id, x);
    }
  }

  lemma AffectedRestsOn(tasks: seq<W.Task>, states: W.States, id: int, x: int)
    requires W.Affected(tasks, states, id, x)
    ensures Ancestor(tasks, x, id)
  {
    ReachesBack(W.Towards(tasks, states), Needs(tasks), id, x);
  }

  /** Setting completed tasks back leaves everything at rest. */
  lemma SettingBackKeepsRest(tasks: seq<W.Task>, states: W.States, ids: set<int>)
    ensures forall x :: AtRest(tasks, states, x) ==> AtRest(tasks, SetBack(states, ids), x)
    ensures KeepsStalled(tasks, states, SetBack(states, ids))
  {
    hide Ancestor, IsSeed;
  }

  lemma RestartKeepsStalled(tasks: seq<W.Task>, a: W.States, b: W.States)
    requires PartlyRestarted(a, b)
    ensures KeepsStalled(tasks, a, b)
  {
    hide Ancestor, IsSeed;
    forall x | Stalled(tasks, a, x)
      ensures Stalled(tasks, b, x)
    {
      assert forall y :: y in a && Resting(a[y]) ==> b[y] == a[y];
    }
  }

  /** The review's ancestor was Completed and stays behind when its ancestry is unwound: it is at
      rest, and so rests on no task that the rework sets going. */
  ghost predicate Stranded(tasks: seq<W.Task>, id: int, states: W.States, x: int) {
    Ancestor(tasks, id, x) && AtRest(tasks, states, x) && states[x] == W.Completed
  }

  lemma UnwoundIsStalled(tasks: seq<W.Task>, id: int, states: W.States, ids: set<int>, seed: int)
    requires ids == Ancestry(tasks, id) - {seed} && IsSeed(tasks, seed) && states.Keys == W.TaskIds(tasks)
    ensures forall x :: Stranded(tasks, id, states, x) ==> Stalled(tasks, SetBack(states, ids), x)
  {
    hide Ancestor, IsSeed;
    SettingBackKeepsRest(tasks, states, ids);
    forall x | Stranded(tasks, id, states, x)
      ensures Stalled(tasks, SetBack(states, ids), x)
    {
      assert x in W.TaskIds(tasks) && x != seed;
    }
  }

  /** A stalled task is not completed. */
  lemma StalledIsNotCompleted(tasks: seq<W.Task>, states: W.States, x: int)
    requires Stalled(tasks, states, x) && states.Keys == W.TaskIds(tasks)
    ensures !AllCompleted(tasks, states)
  {
    hide Ancestor, IsSeed;
    var t :| t in tasks && t.id == x;
  }

  lemma MovesItself(tasks: seq<W.Task>, states: W.States, id: int)
    requires id in states && states[id] == W.Running
    ensures MayMove(tasks, states, id)
  {}

  lemma SeedMayMove(tasks: seq<W.Task>, states: W.States, id: int)
    requires id in states && IsSeed(tasks, id)
    ensures MayMove(tasks, states, id)
  {}

  lemma KeepsStalledThrice(tasks: seq<W.Task>, a: W.States, b: W.States, c: W.States, d: W.States)
    requires KeepsStalled(tasks, a, b) && KeepsStalled(tasks, b, c) && KeepsStalled(tasks, c, d)
    ensures KeepsStalled(tasks, a, d)
    ensures forall x :: Stalled(tasks, b, x) ==> Stalled(tasks, d, x)
  {
    hide Stalled;
  }

  lemma NothingStirs(tasks: seq<W.Task>, id: int, states: W.States)
    ensures KeepsStalled(tasks, states, states) && StaysInStep(tasks, id, states, states)
  {}

  // ---- A run in step --------------------------------------------------------------------------

  /** The tasks other than `id` stay in step with their dependencies. */
  ghost predicate StaysInStep(tasks: seq<W.Task>, id: int, a: W.States, b: W.States) {
    !A.Cyclic(tasks) && A.InStepBut(tasks, a, id) ==> A.InStepBut(tasks, b, id)
  }

  lemma MarkingInStep(tasks: seq<W.Task>, a: W.States, b: W.States, id: int, target: W.TaskState, order: seq<int>)
    requires W.WellFormedTasks(tasks) && W.Marked(tasks, a, b, id, target, order) && !A.Reopens(a[id], target)
    ensures StaysInStep(tasks, id, a, b)
  {
    hide W.WellFormedTasks, W.Marked, A.InStepBut, A.Reopens;
    if !A.Cyclic(tasks) && A.InStepBut(tasks, a, id) {
      A.MarkingStaysInStep(tasks, a, b, id, target, order);
    }
  }

  // ---- Choosing the next task, and what a whole execution keeps --------------------------

  predicate AllCompleted(tasks: seq<W.Task>, states: W.States)
    requires forall t :: t in tasks ==> t.id in states
  {
    forall t :: t in tasks ==> states[t.id] == W.Completed
  }

  predicate Before(t: W.Task, u: W.Task) {
    t.position < u.position || (t.position == u.position && t.id <= u.id)
  }

  /** The Ready task with the lowest position, the lowest id among equals. */
  function FirstReady(tasks: seq<W.Task>, states: W.States): (r: Option<W.Task>)
    requires forall t :: t in tasks ==> t.id in states
    ensures r == None <==> forall t :: t in tasks ==> states[t.id] != W.Ready
    ensures r.Some? ==> r.value in tasks && states[r.value.id] == W.Ready
    ensures r.Some? ==> forall t :: t in tasks && states[t.id] == W.Ready ==>
      r.value.position < t.position || (r.value.position == t.position && r.value.id <= t.id)
  {
    if tasks == [] then None
    else
      var first := tasks[0];
      assert tasks == [first] + tasks[1..] && first in tasks;
      var rest := FirstReady(tasks[1..], states);
      if states[first.id] == W.Ready && (rest.None? || Before(first, rest.value)) then Some(first) else rest
  }

  /** A task chosen for execution, with the states it was chosen from, the result, and the states
      it left. */
  datatype Pick = Pick(states: W.States, task: W.Task, result: Result<bool, Stop>, after: W.States)

  /** The executions lead from one state of the run to the other, one after the other, each changing
      what its task may; all but the last let the run go on. */
  ghost predicate Traces(tasks: seq<W.Task>, picks: seq<Pick>, from: W.States, to: W.States) {
    && (if picks == [] then from == to else picks[0].states == from && picks[|picks| - 1].after == to)
    && (forall i :: 0 <= i < |picks| - 1 ==> picks[i].result == Ok(true) && picks[i].after == picks[i + 1].states)
    && (forall i :: 0 <= i < |picks| ==> Executes(tasks, picks[i]))
  }

  ghost predicate Executes(tasks: seq<W.Task>, pick: Pick) {
    var id := pick.task.id;
    && UnwindsAncestry(tasks, id, pick.states, pick.after) && id in pick.after
    && (pick.result == Ok(true) && pick.task.operation != P.Review ==> pick.after[id] == W.Completed)
    && (pick.result == Ok(false) ==> pick.after[id] != W.Completed)
  }

  /** The last execution, if there was one, let the run go on. */
  predicate WentOn(picks: seq<Pick>) {
    picks != [] ==> picks[|picks| - 1].result == Ok(true)
  }

  /** The last execution gave up. */
  predicate GaveUp(picks: seq<Pick>) {
    picks != [] && picks[|picks| - 1].result == Ok(false)
  }

  /** The last execution ended in the error. */
  predicate EndedIn(picks: seq<Pick>, error: Stop) {
    picks != [] && picks[|picks| - 1].result == Err(error)
  }

  lemma LastResult(picks: seq<Pick>, pick: Pick)
    ensures WentOn(picks + [pick]) <==> pick.result == Ok(true)
    ensures GaveUp(picks + [pick]) <==> pick.result == Ok(false)
    ensures forall e :: EndedIn(picks + [pick], e) <==> pick.result == Err(e)
  {}

  lemma NothingWentWrong()
    ensures WentOn([])
  {}

  lemma ExecutesTask(tasks: seq<W.Task>, pick: Pick)
    requires UnwindsAncestry(tasks, pick.task.id, pick.states, pick.after) && pick.task.id in pick.after
    requires pick.result == Ok(true) && pick.task.operation != P.Review ==> pick.after[pick.task.id] == W.Completed
    requires pick.result == Ok(false) ==> pick.after[pick.task.id] != W.Completed
    ensures Executes(tasks, pick)
  {}

  lemma NoneReady(tasks: seq<W.Task>, states: W.States)
    requires forall t :: t in tasks ==> t.id in states
    requires FirstReady(tasks, states) == None
    ensures forall t :: t in tasks ==> states[t.id] != W.Ready
  {}

  lemma FirstIsReady(tasks: seq<W.Task>, states: W.States, task: W.Task)
    requires forall t :: t in tasks ==> t.id in states
    requires FirstReady(tasks, states) == Some(task)
    ensures task in tasks && states[task.id] == W.Ready
  {}

  lemma GoesOnWith(tasks: seq<W.Task>, states: W.States, attempts: Attempts, task: W.Task)
    requires CanGoOn(tasks, states, attempts) && task in tasks && task.id in states && states[task.id] == W.Ready
    ensures task.id in attempts && |attempts[task.id]| < MAX_TASK_ATTEMPTS && task.operation != P.Planning
  {}

  lemma TracesNothing(tasks: seq<W.Task>, states: W.States)
    ensures Traces(tasks, [], states, states)
  {}

  lemma TracesOneMore(tasks: seq<W.Task>, picks: seq<Pick>, from: W.States, pick: Pick)
    requires Traces(tasks, picks, from, pick.states) && WentOn(picks) && Executes(tasks, pick)
    ensures Traces(tasks, picks + [pick], from, pick.after)
  {
    hide Executes;
    var more := picks + [pick];
    forall i | 0 <= i < |more| - 1
      ensures more[i].result == Ok(true) && more[i].after == more[i + 1].states
    {
      assert more[i] == picks[i];
      if i + 1 < |picks| { assert more[i + 1] == picks[i + 1]; }
    }
  }

  /** Every chosen task was the first Ready one. */
  ghost predicate AllFirst(tasks: seq<W.Task>, picks: seq<Pick>) {
    forall i :: 0 <= i < |picks| ==>
      (forall t :: t in tasks ==> t.id in picks[i].states)
      && FirstReady(tasks, picks[i].states) == Some(picks[i].task)
  }

  ghost predicate OnlyPicked(picks: seq<Pick>, a: Attempts, b: Attempts) {
    forall x :: x in b && (forall i :: 0 <= i < |picks| ==> picks[i].task.id != x) ==> x in a && b[x] == a[x]
  }

  lemma NothingPicked(tasks: seq<W.Task>, states: W.States, attempts: Attempts)
    requires attempts.Keys == states.Keys
    ensures AllFirst(tasks, []) && OnlyPicked([], attempts, attempts)
    ensures NothingForFree(states, attempts, states, attempts)
  {}

  lemma PickOne(tasks: seq<W.Task>, picks: seq<Pick>, pick: Pick, a: Attempts, b: Attempts, c: Attempts)
    requires AllFirst(tasks, picks) && OnlyPicked(picks, a, b) && OthersAttempts(pick.task.id, b, c)
    requires forall t :: t in tasks ==> t.id in pick.states
    requires FirstReady(tasks, pick.states) == Some(pick.task)
    ensures AllFirst(tasks, picks + [pick]) && OnlyPicked(picks + [pick], a, c)
  {
    hide FirstReady;
    var (states, task) := (pick.states, pick.task);
    var more := picks + [pick];
    forall x | x in c && (forall i :: 0 <= i < |more| ==> more[i].task.id != x)
      ensures x in a && c[x] == a[x]
    {
      assert more[|picks|].task == task;
      assert forall i :: 0 <= i < |picks| ==> picks[i].task.id == more[i].task.id;
    }
  }

  /** The run is in step, every task can be executed and none that is open has used up its attempts. */
  ghost predicate CanGoOn(tasks: seq<W.Task>, states: W.States, attempts: Attempts) {
    && A.InStep(tasks, states) && attempts.Keys == states.Keys
    && forall t :: t in tasks && t.id in states ==>
         t.operation != P.Planning && (states[t.id] != W.Completed ==> |attempts[t.id]| < MAX_TASK_ATTEMPTS)
  }

  /** Completing a task leaves the run able to go on. */
  lemma CompletingGoesOn(tasks: seq<W.Task>, task: W.Task, s0: W.States, a0: Attempts, s1: W.States, a1: Attempts)
    requires W.WellFormedTasks(tasks) && task in tasks && !A.Cyclic(tasks) && CanGoOn(tasks, s0, a0)
    requires Confined(task.id, s0, a0, s1, a1) && StaysInStep(tasks, task.id, s0, s1)
    requires task.id in s1 && s1[task.id] == W.Completed
    ensures CanGoOn(tasks, s1, a1)
  {
    hide A.InStep, A.InStepBut, W.WellFormedTasks, A.Cyclic;
    A.InStepForAll(tasks, s0, task.id);
    A.InStepForAll(tasks, s1, task.id);
  }

  /** A run that can go on has a Ready task or is Completed. */
  lemma GoingOnIsPossible(tasks: seq<W.Task>, states: W.States, attempts: Attempts)
    requires W.WellFormedTasks(tasks) && !A.Cyclic(tasks) && CanGoOn(tasks, states, attempts)
    requires forall t :: t in tasks ==> t.id in states && states[t.id] != W.Ready
    ensures AllCompleted(tasks, states)
  {
    hide A.InStep, W.WellFormedTasks;
    A.NothingReadyIsAllDone(tasks, states);
  }

  /** No attempt was rewritten, and a task newly Completed was attempted anew. */
  ghost predicate NothingForFree(statesA: W.States, attemptsA: Attempts, statesB: W.States, attemptsB: Attempts) {
    && statesA.Keys == statesB.Keys && attemptsA.Keys == attemptsB.Keys == statesA.Keys
    && (forall x :: x in attemptsA ==> attemptsA[x] <= attemptsB[x])
    && (forall x :: x in statesA && statesB[x] == W.Completed && statesA[x] != W.Completed
          ==> |attemptsA[x]| < |attemptsB[x]|)
  }

  lemma StillNothingForFree(tasks: seq<W.Task>, id: int, s0: W.States, a0: Attempts, s1: W.States, a1: Attempts,
                            s2: W.States, a2: Attempts)
    requires NothingForFree(s0, a0, s1, a1)
    requires UnwindsAncestry(tasks, id, s1, s2) && OthersAttempts(id, a1, a2)
    requires id in a1 && id in a2 && id in s2 && a1[id] <= a2[id]
    requires s2[id] == W.Completed ==> |a1[id]| < |a2[id]|
    ensures NothingForFree(s0, a0, s2, a2)
  {
    hide Ancestor;
  }

  lemma CompletedIsEarned(tasks: seq<W.Task>, states: W.States, attempts: Attempts)
    requires Sound(tasks, states, attempts) && states.Keys == W.TaskIds(tasks) && AllCompleted(tasks, states)
    ensures forall t :: t in tasks ==> t.id in attempts && Earned(t.operation, attempts[t.id])
  {
    hide Earned;
  }

  /** What the executions so far have made of the run. */
  ghost predicate History(tasks: seq<W.Task>, picks: seq<Pick>, s0: W.States, a0: Attempts, s1: W.States,
                          a1: Attempts) {
    && AllFirst(tasks, picks) && OnlyPicked(picks, a0, a1)
    && Traces(tasks, picks, s0, s1) && NothingForFree(s0, a0, s1, a1)
  }

  lemma NoHistory(tasks: seq<W.Task>, states: W.States, attempts: Attempts)
    requires attempts.Keys == states.Keys
    ensures History(tasks, [], states, attempts, states, attempts)
  {
    NothingPicked(tasks, states, attempts);
  }

  lemma OneMoreExecution(tasks: seq<W.Task>, picks: seq<Pick>, pick: Pick, s0: W.States, a0: Attempts, a1: Attempts,
                         a2: Attempts)
    requires History(tasks, picks, s0, a0, pick.states, a1) && WentOn(picks) && Executes(tasks, pick)
    requires forall t :: t in tasks ==> t.id in pick.states
    requires FirstReady(tasks, pick.states) == Some(pick.task)
    requires OthersAttempts(pick.task.id, a1, a2) && pick.task.id in a1 && pick.task.id in a2
    requires a1[pick.task.id] <= a2[pick.task.id]
    requires pick.after[pick.task.id] == W.Completed ==> |a1[pick.task.id]| < |a2[pick.task.id]|
    ensures History(tasks, picks + [pick], s0, a0, pick.after, a2)
  {
    hide FirstReady, AllFirst, OnlyPicked, Traces, NothingForFree, OthersAttempts, WentOn, UnwindsAncestry;
    PickOne(tasks, picks, pick, a0, a1, a2);
    TracesOneMore(tasks, picks, s0, pick);
    StillNothingForFree(tasks, pick.task.id, s0, a0, pick.states, a1, pick.after, a2);
  }

  function SpendableAttempts(tasks: seq<W.Task>, attempts: Attempts): nat {
    if forall t :: t in tasks ==> t.id in attempts && |attempts[t.id]| <= MAX_TASK_ATTEMPTS
    then Budget(tasks, attempts) else 0
  }

  lemma AttemptsWereSpent(tasks: seq<W.Task>, task: W.Task, a: Attempts, b: Attempts)
    requires task in tasks && OthersAttempts(task.id, a, b)
    requires forall t :: t in tasks ==> t.id in a && t.id in b && |b[t.id]| <= MAX_TASK_ATTEMPTS
    requires |a[task.id]| < |b[task.id]|
    ensures SpendableAttempts(tasks, b) < SpendableAttempts(tasks, a)
  {
    BudgetDrops(tasks, a, b);
  }

  // ---- Restarts ----------------------------------------------------------------------------

  /** No task lost attempts, and a task newly Completed was attempted anew. */
  ghost predicate NeverForFree(statesA: W.States, attemptsA: Attempts, statesB: W.States, attemptsB: Attempts) {
    && statesA.Keys == statesB.Keys && attemptsA.Keys == attemptsB.Keys == statesA.Keys
    && (forall x :: x in attemptsA ==> |attemptsA[x]| <= |attemptsB[x]|)
    && (forall x :: x in statesA && statesB[x] == W.Completed && statesA[x] != W.Completed
          ==> |attemptsA[x]| < |attemptsB[x]|)
  }

  lemma NeverForFreeTwice(s0: W.States, a0: Attempts, s1: W.States, a1: Attempts, s2: W.States, a2: Attempts)
    requires NeverForFree(s0, a0, s1, a1) && NeverForFree(s1, a1, s2, a2)
    ensures NeverForFree(s0, a0, s2, a2)
  {}

  datatype Event = Execute | Restart | Retry(id: int)

  function Interrupt(attempts: seq<Attempt>): (r: seq<Attempt>)
    ensures |r| == |attempts|
  {
    seq(|attempts|, i requires 0 <= i < |attempts| =>
      if attempts[i].status == Running || attempts[i].status == Reviewing
      then attempts[i].(status := Interrupted) else attempts[i])
  }

  function InterruptAll(attempts: Attempts): (r: Attempts)
    ensures r.Keys == attempts.Keys
    ensures forall x :: x in attempts ==> |r[x]| == |attempts[x]|
  {
    map x | x in attempts :: Interrupt(attempts[x])
  }

  function AfterRestart(state: W.TaskState): W.TaskState {
    match state
    case Running => W.Failed
    case Integrating => W.AwaitingIntegration
    case _ => state
  }

  function FailRunning(states: W.States): W.States {
    map x | x in states :: if states[x] == W.Running then W.Failed else states[x]
  }

  function RequeueIntegrating(states: W.States): W.States {
    map x | x in states :: if states[x] == W.Integrating then W.AwaitingIntegration else states[x]
  }

  function Restarted(states: W.States): W.States {
    map x | x in states :: AfterRestart(states[x])
  }

  /** From `a` to `b` exactly the attempts that were open have become interrupted. */
  predicate NothingOpen(a: Attempts, b: Attempts) {
    && a.Keys == b.Keys
    && forall x :: x in a ==> |b[x]| == |a[x]| && forall i :: 0 <= i < |a[x]| ==>
         && b[x][i].status != Running && b[x][i].status != Reviewing && b[x][i].review == a[x][i].review
         && (if a[x][i].status == Running || a[x][i].status == Reviewing then b[x][i].status == Interrupted
             else b[x][i] == a[x][i])
  }

  /** From `a` to `b` exactly the running tasks have failed and the integrating ones wait again. */
  predicate NothingUnderWay(a: W.States, b: W.States) {
    && a.Keys == b.Keys
    && forall x :: x in a ==>
         if a[x] == W.Running then b[x] == W.Failed
         else if a[x] == W.Integrating then b[x] == W.AwaitingIntegration
         else b[x] == a[x]
  }

  lemma RestartSettles(states: W.States, attempts: Attempts)
    ensures NothingOpen(attempts, InterruptAll(attempts)) && NothingUnderWay(states, Restarted(states))
  {}

  /** What a restart has done to the states when it stops between two statements or ends. */
  predicate PartlyRestarted(a: W.States, b: W.States) {
    b == a || b == FailRunning(a) || b == Restarted(a)
  }

  lemma RestartInSteps(states: W.States)
    ensures RequeueIntegrating(FailRunning(states)) == Restarted(states)
    ensures FailRunning(states).Keys == Restarted(states).Keys == states.Keys
  {
    var a, b := RequeueIntegrating(FailRunning(states)), Restarted(states);
    assert a.Keys == b.Keys;
    assert forall x :: x in states ==> a[x] == b[x];
  }

  lemma InterruptedStaysSound(tasks: seq<W.Task>, a: W.States, b: W.States, attempts: Attempts)
    requires Sound(tasks, a, attempts) && PartlyRestarted(a, b)
    ensures Sound(tasks, b, InterruptAll(attempts)) && b.Keys == a.Keys
    ensures forall x :: x in a ==> (b[x] == W.Completed <==> a[x] == W.Completed)
  {
    RestartCompletesNothing(a, b);
    hide PartlyRestarted, Earned, Interrupt;
    forall t | t in tasks && b[t.id] == W.Completed
      ensures Earned(t.operation, InterruptAll(attempts)[t.id])
    {
      InterruptKeepsEarned(t.operation, attempts[t.id]);
    }
  }

  lemma RestartCompletesNothing(a: W.States, b: W.States)
    requires PartlyRestarted(a, b)
    ensures b.Keys == a.Keys && forall x :: x in a ==> (b[x] == W.Completed <==> a[x] == W.Completed)
  {}

  lemma InterruptKeepsEarned(op: P.Operation, attempts: seq<Attempt>)
    requires Earned(op, attempts)
    ensures Earned(op, Interrupt(attempts))
  {}

  class Run {
    const board: W.TaskBoard
    /** Every agent succeeds, every reviewer approves, and nobody cancels. */
    const agreeable: bool
    var attempts: Attempts

    constructor (board: W.TaskBoard)
      requires board.Valid()
      requires forall x :: x in board.states ==> board.states[x] != W.Completed
      ensures Valid() && this.board == board
      ensures forall x :: x in attempts ==> attempts[x] == []
    {
      this.board := board;
      attempts := map x | x in board.states :: [];
    }

    ghost predicate Valid()
      reads this, board
    {
      board.Valid() && attempts.Keys == board.states.Keys && Sound(board.tasks, board.states, attempts)
    }

    /** The review approved and is Completed. */
    predicate Passed(id: int)
      reads this, board
    {
      && id in board.states && board.states[id] == W.Completed
      && id in attempts && attempts[id] != [] && Latest(attempts[id]).status == Approved
    }

    // ---- What the outside decides ----------------------------------------------------------

    method RunAgent() returns (agentRun: AgentRun, violation: bool)
      ensures agreeable ==> Succeeded(agentRun) && !violation
    {
      agentRun, violation := *, *;
      if agreeable { agentRun, violation := Stopped(false, true, false), false; }
    }

    method RunReviewer() returns (reviewRun: AgentRun, verdict: Option<Decision>)
      ensures agreeable ==> Approves(reviewRun, verdict)
    {
      reviewRun, verdict := *, *;
      if agreeable { reviewRun, verdict := Stopped(false, true, false), Some(Approve); }
    }

    method ReadVerdict() returns (verdict: Option<Verdict>)
      ensures agreeable ==> verdict.Some? && verdict.value.decision == Approve
    {
      verdict := *;
      if agreeable { verdict := Some(Verdict(Approve, 0)); }
    }

    method LookForCancel() returns (cancelled: bool)
      ensures agreeable ==> !cancelled
    {
      cancelled := *;
      if agreeable { cancelled := false; }
    }

    // ---- One task's transitions ------------------------------------------------------------

    /** One transition of one task with its propagation, which may stop at any write: no other
        task is completed or undone. */
    method Mark(id: int, target: W.TaskState) returns (r: Result<(), Stop>)
      requires board.Valid() && id in board.states
      modifies board`states
      ensures MayMove(board.tasks, old(board.states), id) ==>
        KeepsStalled(board.tasks, old(board.states), board.states)
      ensures board.Valid() && id in board.states
      ensures r == Err(InvalidTransition) <==> !W.CanTransition(old(board.states)[id], target)
      ensures r.Ok? || r == Err(InvalidTransition) || r == Err(Environment)
      ensures r == Err(InvalidTransition) ==> board.states == old(board.states)
      ensures r.Ok? ==> board.states[id] == target
      ensures board.states[id] == old(board.states)[id] || board.states[id] == target
      ensures Confined(id, old(board.states), attempts, board.states, attempts)
      ensures board.reliable ==> r != Err(Environment)
      ensures r.Ok? && !A.Reopens(old(board.states)[id], target) ==>
        StaysInStep(board.tasks, id, old(board.states), board.states)
    {
      hide Stalled, W.CanTransition, W.WellFormedTasks, W.Affected, W.Decided, W.Changed, W.VisitOrder, W.Rooted;
      var marked, order := board.MarkTask(id, target);
      if marked.Ok? || board.states != old(board.states) {
        assert marked.Ok? || marked.error.WriteFailed?;
        assert W.Marking(board.tasks, old(board.states), board.states, id, target, order);
        W.PropagationKeepsCompleted(board.tasks, old(board.states), board.states, id, order);
        MarkingChangesBelow(board.tasks, old(board.states), board.states, id, target, order);
        if marked.Ok? && !A.Reopens(old(board.states)[id], target) {
          MarkingInStep(board.tasks, old(board.states), board.states, id, target, order);
        }
        if MayMove(board.tasks, old(board.states), id) {
          MovingKeepsStalled(board.tasks, id, old(board.states), board.states);
        }
      }
      r := match marked
        case Ok(_) => Ok(())
        case Err(WriteFailed) => Err(Environment)
        case Err(_) => Err(InvalidTransition);
    }

    /** Opens the next attempt of a Ready task and marks the task Running. */
    method StartAttempt(id: int) returns (r: Result<nat, Stop>)
      requires Valid() && id in board.states && board.states[id] == W.Ready
      requires |attempts[id]| < MAX_TASK_ATTEMPTS
      modifies this`attempts, board`states
      ensures KeepsStalled(board.tasks, old(board.states), board.states)
      ensures Valid() && id in board.states && board.states[id] != W.Completed
      ensures Confined(id, old(board.states), old(attempts), board.states, attempts)
      ensures attempts[id] == old(attempts[id]) || attempts[id] == old(attempts[id]) + [Attempt(Running, None)]
      ensures OneMore(old(attempts[id]), attempts[id])
      ensures r.Ok? ==> attempts[id] == old(attempts[id]) + [Attempt(Running, None)]
      ensures r.Ok? ==> board.states[id] == W.Running && r.value == |attempts[id]| == |old(attempts[id])| + 1
      ensures board.reliable ==> r.Ok?
      ensures r.Ok? ==> StaysInStep(board.tasks, id, old(board.states), board.states)
    {
      hide Stalled, KeepsStalled, StaysInStep, Earned;
      NothingStirs(board.tasks, id, board.states);
      if !board.reliable { if * { return Err(Environment); } }
      attempts := attempts[id := attempts[id] + [Attempt(Running, None)]];
      ConfinedStaysSound(board.tasks, id, old(board.states), old(attempts), board.states, attempts);
      if !board.reliable { if * { return Err(Environment); } }
      var marked := Mark(id, W.Running);
      ConfinedStaysSound(board.tasks, id, old(board.states), old(attempts), board.states, attempts);
      if marked.Err? { return Err(marked.error); }
      r := Ok(|attempts[id]|);
    }

    /** Closes the latest attempt of a Running task and moves the task on; the process may die
        between the writes. */
    method Finish(id: int, status: AttemptStatus, review: Option<Decision>, target: W.TaskState)
      returns (r: Result<(), Stop>)
      requires Valid() && id in board.states && board.states[id] == W.Running && attempts[id] != []
      requires target == W.Failed || target == W.Completed
      requires target == W.Completed ==>
        forall t :: t in board.tasks && t.id == id ==> Earned(t.operation, [Attempt(status, review)])
      modifies this`attempts, board`states
      ensures KeepsStalled(board.tasks, old(board.states), board.states)
      ensures Valid() && id in board.states
      ensures Confined(id, old(board.states), old(attempts), board.states, attempts)
      ensures SameButLatest(old(attempts[id]), attempts[id])
      ensures r.Ok? ==> board.states[id] == target && Latest(attempts[id]) == Attempt(status, review)
      ensures r.Err? ==> r.error == Environment && (board.states[id] == W.Running || board.states[id] == target)
      ensures board.reliable ==> r.Ok?
      ensures r.Ok? ==> StaysInStep(board.tasks, id, old(board.states), board.states)
    {
      hide Stalled, KeepsStalled, StaysInStep;
      NothingStirs(board.tasks, id, board.states);
      if !board.reliable { if * { return Err(Environment); } }
      var last := |attempts[id]| - 1;
      attempts := attempts[id := attempts[id][..last] + [Attempt(status, review)]];
      ConfinedStaysSound(board.tasks, id, old(board.states), old(attempts), board.states, attempts);
      if !board.reliable { if * { return Err(Environment); } }
      r := Mark(id, target);
      ConfinedStaysSound(board.tasks, id, old(board.states), old(attempts), board.states, attempts);
    }

    /** After a failed attempt: Ready again unless it was the last one. */
    method Reopen(id: int, number: nat) returns (again: Result<bool, Stop>)
      requires Valid() && id in board.states && board.states[id] == W.Failed
      modifies board`states
      ensures KeepsStalled(board.tasks, old(board.states), board.states)
      ensures Valid() && id in board.states
      ensures Confined(id, old(board.states), attempts, board.states, attempts)
      ensures again.Ok? ==> (again.value <==> number < MAX_TASK_ATTEMPTS)
      ensures again.Ok? ==> board.states[id] == if again.value then W.Ready else W.Failed
      ensures again.Err? ==> again.error == Environment && (board.states[id] == W.Failed || board.states[id] == W.Ready)
      ensures board.reliable ==> again.Ok?
    {
      hide Stalled;
      if number >= MAX_TASK_ATTEMPTS { return Ok(false); }
      var marked := Mark(id, W.Ready);
      ConfinedStaysSound(board.tasks, id, old(board.states), attempts, board.states, attempts);
      again := if marked.Ok? then Ok(true) else Err(marked.error);
    }

    /** Ends the attempt as failed and reopens the task while attempts remain. */
    method FailAttempt(id: int, status: AttemptStatus, review: Option<Decision>) returns (stage: Stage)
      requires Valid() && id in board.states && board.states[id] == W.Running && attempts[id] != []
      requires status != Approved
      modifies this`attempts, board`states
      ensures KeepsStalled(board.tasks, old(board.states), board.states)
      ensures Valid() && id in board.states
      ensures Confined(id, old(board.states), old(attempts), board.states, attempts)
      ensures SameButLatest(old(attempts[id]), attempts[id])
      ensures board.states[id] != W.Completed && stage != Produced
      ensures stage == TryAgain ==> |attempts[id]| < MAX_TASK_ATTEMPTS
      ensures stage == TryAgain ==> board.states[id] == W.Ready && Latest(attempts[id]) == Attempt(status, review)
      ensures stage == TryAgain || stage == Leave(Ok(false)) || stage == Leave(Err(Environment))
      ensures stage == Leave(Ok(false)) ==> board.states[id] == W.Failed && |attempts[id]| == MAX_TASK_ATTEMPTS
                                            && Latest(attempts[id]) == Attempt(status, review)
      ensures board.reliable ==> stage == if |attempts[id]| < MAX_TASK_ATTEMPTS then TryAgain else Leave(Ok(false))
    {
      hide Stalled;
      var finished := Finish(id, status, review, W.Failed);
      if finished.Err? { return Leave(Err(finished.error)); }
      var again := Reopen(id, |attempts[id]|);
      stage := match again
        case Ok(true) => TryAgain
        case Ok(false) => Leave(Ok(false))
        case Err(error) => Leave(Err(error));
    }

    /** Ends the attempt without approval and stops the task with `result`. */
    method CloseAndLeave(id: int, status: AttemptStatus, result: Result<bool, Stop>) returns (stage: Stage)
      requires Valid() && id in board.states && board.states[id] == W.Running && attempts[id] != []
      requires status != Approved && result != Err(Environment)
      modifies this`attempts, board`states
      ensures KeepsStalled(board.tasks, old(board.states), board.states)
      ensures Valid() && id in board.states && board.states[id] != W.Completed
      ensures Confined(id, old(board.states), old(attempts), board.states, attempts)
      ensures SameButLatest(old(attempts[id]), attempts[id])
      ensures stage == Leave(result) || stage == Leave(Err(Environment))
      ensures stage == Leave(result) ==> board.states[id] == W.Failed && Latest(attempts[id]) == Attempt(status, None)
      ensures board.reliable ==> stage == Leave(result)
    {
      hide Stalled;
      var finished := Finish(id, status, None, W.Failed);
      stage := Leave(if finished.Ok? then result else Err(finished.error));
    }

    /** The worker agent runs once; the attempt stays open only if it produced something. */
    method WorkStage(id: int, agentRun: AgentRun, violation: bool) returns (stage: Stage)
      requires Valid() && id in board.states && board.states[id] == W.Running && attempts[id] != []
      modifies this`attempts, board`states
      ensures KeepsStalled(board.tasks, old(board.states), board.states)
      ensures Valid() && id in board.states
      ensures Confined(id, old(board.states), old(attempts), board.states, attempts)
      ensures SameButLatest(old(attempts[id]), attempts[id])
      ensures board.states[id] != W.Completed
      ensures stage == Produced ==> board.states == old(board.states) && attempts == old(attempts)
      ensures stage == Produced ==> Succeeded(agentRun) && !violation
      ensures Succeeded(agentRun) && !violation ==> stage == Produced || stage == Leave(Err(Environment))
      ensures stage == TryAgain ==> board.states[id] == W.Ready && |attempts[id]| < MAX_TASK_ATTEMPTS
                                    && Latest(attempts[id]).status == Failed && !violation && !Misconfigured(agentRun)
      ensures stage.Leave? && stage.result.Ok? ==> stage.result == Ok(false) && board.states[id] == W.Failed
      ensures stage == Leave(Ok(false)) ==> GivenUp(attempts[id])
      ensures stage == Leave(Ok(false)) ==>
        !violation && if agentRun.Stopped? && agentRun.cancelled then Latest(attempts[id]).status == Cancelled
                      else |attempts[id]| == MAX_TASK_ATTEMPTS && Latest(attempts[id]).status == Failed
      ensures stage == Leave(Err(OutputLimit)) ==> agentRun.Stopped? && agentRun.truncated
      ensures stage == Leave(Err(PolicyViolation)) ==> violation
      ensures stage == Leave(Err(AgentConfiguration)) ==> Misconfigured(agentRun)
      ensures stage.Leave? && stage.result.Err? && stage.result.error != Environment ==> board.states[id] == W.Failed
      ensures board.reliable ==> stage == EndOfWork(agentRun, violation, |attempts[id]|)
    {
      hide Stalled;
      if agentRun.Stopped? && agentRun.truncated {
        stage := CloseAndLeave(id, Failed, Err(OutputLimit));
        return;
      }
      if !board.reliable { if * { return Leave(Err(Environment)); } }
      if violation {
        stage := CloseAndLeave(id, Failed, Err(PolicyViolation));
        return;
      }
      if agentRun.Stopped? && agentRun.cancelled {
        stage := CloseAndLeave(id, Cancelled, Ok(false));
        return;
      }
      if agentRun.Stopped? && agentRun.success { return Produced; }
      if agentRun.LaunchFailed? && agentRun.configuration {
        stage := CloseAndLeave(id, Failed, Err(AgentConfiguration));
        return;
      }
      stage := FailAttempt(id, Failed, None);
    }

    /** The attempt waits for its reviewer. */
    method OpenReview(id: int)
      requires Valid() && id in board.states && board.states[id] == W.Running && attempts[id] != []
      modifies this`attempts
      ensures Valid() && id in attempts
      ensures Confined(id, board.states, old(attempts), board.states, attempts)
      ensures SameButLatest(old(attempts[id]), attempts[id])
      ensures Latest(attempts[id]) == Latest(old(attempts[id])).(status := Reviewing)
    {
      var last := |attempts[id]| - 1;
      attempts := attempts[id := attempts[id][..last] + [attempts[id][last].(status := Reviewing)]];
      ConfinedStaysSound(board.tasks, id, board.states, old(attempts), board.states, attempts);
    }

    /** Approved work is integrated before the approval is recorded. */
    method IntegrateAndAccept(id: int) returns (stage: Stage)
      requires Valid() && id in board.states && board.states[id] == W.Running && attempts[id] != []
      modifies this`attempts, board`states
      ensures KeepsStalled(board.tasks, old(board.states), board.states)
      ensures Valid() && id in board.states
      ensures Confined(id, old(board.states), old(attempts), board.states, attempts)
      ensures SameButLatest(old(attempts[id]), attempts[id])
      ensures stage == Leave(Ok(true)) || stage == Leave(Err(Environment))
      ensures stage == Leave(Ok(true)) ==> board.states[id] == W.Completed
                                           && Latest(attempts[id]) == Attempt(Approved, Some(Approve))
      ensures board.reliable ==> stage == Leave(Ok(true))
      ensures stage == Leave(Ok(true)) ==> StaysInStep(board.tasks, id, old(board.states), board.states)
    {
      hide Stalled;
      NothingYet(id, board.states, attempts);
      if !board.reliable { if * { return Leave(Err(Environment)); } }
      var finished := Finish(id, Approved, Some(Approve), W.Completed);
      stage := Leave(if finished.Ok? then Ok(true) else Err(finished.error));
    }

    /** Closes the review that the Reviewer's run has ended; an approval is integrated before it is
        recorded. */
    method CloseReview(id: int, reviewRun: AgentRun, verdict: Option<Decision>) returns (stage: Stage)
      requires Valid() && id in board.states && board.states[id] == W.Running && attempts[id] != []
      modifies this`attempts, board`states
      ensures KeepsStalled(board.tasks, old(board.states), board.states)
      ensures Valid() && id in board.states
      ensures Confined(id, old(board.states), old(attempts), board.states, attempts)
      ensures SameButLatest(old(attempts[id]), attempts[id])
      ensures stage != Produced
      ensures stage == TryAgain ==> board.states[id] == W.Ready && |attempts[id]| < MAX_TASK_ATTEMPTS
                                    && Latest(attempts[id]) == Attempt(ChangesRequested, Some(RequestChanges))
      ensures stage == Leave(Ok(true)) ==> board.states[id] == W.Completed
                                           && Latest(attempts[id]) == Attempt(Approved, Some(Approve))
      ensures stage == Leave(Ok(false)) ==> board.states[id] == W.Failed
      ensures board.states[id] == W.Completed ==> Approves(reviewRun, verdict)
      ensures Approves(reviewRun, verdict) ==> stage == Leave(Ok(true)) || stage == Leave(Err(Environment))
      ensures stage == TryAgain ==> !(reviewRun.Stopped? && reviewRun.cancelled) && !Misconfigured(reviewRun)
      ensures stage == Leave(Ok(false)) ==>
        if reviewRun.Stopped? && reviewRun.cancelled then Latest(attempts[id]).status == Cancelled
        else |attempts[id]| == MAX_TASK_ATTEMPTS
             && Latest(attempts[id]) == Attempt(ChangesRequested, Some(RequestChanges))
      ensures stage == Leave(Err(OutputLimit)) ==> reviewRun.Stopped? && reviewRun.success && reviewRun.truncated
      ensures stage == Leave(Err(AgentConfiguration)) ==> Misconfigured(reviewRun)
      ensures board.reliable ==> stage == EndOfReview(reviewRun, verdict, |attempts[id]|)
      ensures stage == Leave(Ok(true)) ==> StaysInStep(board.tasks, id, old(board.states), board.states)
    {
      hide Stalled, KeepsStalled, StaysInStep, Confined, SameButLatest, Sound, GivenUp, Earned, W.WellFormedTasks,
           W.CanTransition;
      NothingStirs(board.tasks, id, board.states);
      var decision := if reviewRun.Stopped? && reviewRun.success && verdict.Some? then verdict.value
                      else RequestChanges;
      var lost: bool := *;
      if lost && !board.reliable {
        NothingYet(id, board.states, attempts);
        stage := Leave(Err(Environment));
      } else if reviewRun.Stopped? && reviewRun.cancelled {
        stage := CloseAndLeave(id, Cancelled, Ok(false));
      } else if reviewRun.Stopped? && reviewRun.success && reviewRun.truncated {
        stage := CloseAndLeave(id, Failed, Err(OutputLimit));
      } else if reviewRun.LaunchFailed? && reviewRun.configuration {
        stage := CloseAndLeave(id, Failed, Err(AgentConfiguration));
      } else if decision == Approve {
        stage := IntegrateAndAccept(id);
      } else {
        stage := FailAttempt(id, ChangesRequested, Some(RequestChanges));
      }
    }

    /** The final Reviewer judges what the worker agent produced; an approval is integrated
        before it is recorded. */
    method FinalReview(id: int, reviewRun: AgentRun, verdict: Option<Decision>) returns (stage: Stage)
      requires Valid() && id in board.states && board.states[id] == W.Running && attempts[id] != []
      modifies this`attempts, board`states
      ensures KeepsStalled(board.tasks, old(board.states), board.states)
      ensures Valid() && id in board.states
      ensures Confined(id, old(board.states), old(attempts), board.states, attempts)
      ensures SameButLatest(old(attempts[id]), attempts[id])
      ensures stage != Produced
      ensures stage == TryAgain ==> board.states[id] == W.Ready && |attempts[id]| < MAX_TASK_ATTEMPTS
                                    && Latest(attempts[id]) == Attempt(ChangesRequested, Some(RequestChanges))
      ensures stage == Leave(Ok(true)) ==> board.states[id] == W.Completed
                                           && Latest(attempts[id]) == Attempt(Approved, Some(Approve))
      ensures stage == Leave(Ok(false)) ==> board.states[id] == W.Failed
      ensures board.states[id] == W.Completed ==> Approves(reviewRun, verdict)
      ensures Approves(reviewRun, verdict) ==> stage == Leave(Ok(true)) || stage == Leave(Err(Environment))
      ensures stage == TryAgain ==> !(reviewRun.Stopped? && reviewRun.cancelled) && !Misconfigured(reviewRun)
      ensures stage == Leave(Ok(false)) ==>
        if reviewRun.Stopped? && reviewRun.cancelled then Latest(attempts[id]).status == Cancelled
        else |attempts[id]| == MAX_TASK_ATTEMPTS
             && Latest(attempts[id]) == Attempt(ChangesRequested, Some(RequestChanges))
      ensures stage == Leave(Err(OutputLimit)) ==> reviewRun.Stopped? && reviewRun.success && reviewRun.truncated
      ensures stage == Leave(Err(AgentConfiguration)) ==> Misconfigured(reviewRun)
      ensures board.reliable ==> stage == EndOfReview(reviewRun, verdict, |attempts[id]|)
      ensures stage == Leave(Ok(true)) ==> StaysInStep(board.tasks, id, old(board.states), board.states)
    {
      hide Stalled, KeepsStalled, StaysInStep, Confined, SameButLatest, Sound, Earned, Approves, EndOfReview,
           W.WellFormedTasks, W.CanTransition;
      OpenReview(id);
      ghost var s1, a1 := board.states, attempts;
      stage := CloseReview(id, reviewRun, verdict);
      ConfinedTwice(id, old(board.states), old(attempts), s1, a1, board.states, attempts);
      ClosesTwice(old(attempts[id]), a1[id], attempts[id]);
    }

    /** One turn of the implementation loop. */
    method ImplementOnce(id: int) returns (stage: Stage)
      requires Valid() && id in board.states && board.states[id] == W.Ready
      requires |attempts[id]| < MAX_TASK_ATTEMPTS
      modifies this`attempts, board`states
      ensures KeepsStalled(board.tasks, old(board.states), board.states)
      ensures Valid() && id in board.states
      ensures Confined(id, old(board.states), old(attempts), board.states, attempts)
      ensures OneMore(old(attempts[id]), attempts[id]) && stage != Produced
      ensures board.states[id] == W.Completed ==> |old(attempts[id])| < |attempts[id]|
      ensures stage == TryAgain ==> board.states[id] == W.Ready && Refused(old(attempts[id]), attempts[id])
      ensures stage == Leave(Ok(true)) ==> board.states[id] == W.Completed && |old(attempts[id])| < |attempts[id]|
                                           && Latest(attempts[id]) == Attempt(Approved, Some(Approve))
      ensures stage == Leave(Ok(false)) ==> board.states[id] == W.Failed && GivenUp(attempts[id])
      ensures board.reliable ==> stage != Leave(Err(Environment))
      ensures board.reliable && agreeable ==> stage == Leave(Ok(true))
      ensures stage == Leave(Ok(true)) ==> StaysInStep(board.tasks, id, old(board.states), board.states)
    {
      hide Stalled, Sound, Confined, SameButLatest, OneMore, Refused, Earned, W.CanTransition, W.WellFormedTasks;
      var started := StartAttempt(id);
      ghost var s1, a1 := board.states, attempts;
      if started.Err? { return Leave(Err(started.error)); }
      var agentRun, violation := RunAgent();
      stage := WorkStage(id, agentRun, violation);
      if stage == Produced {
        var reviewRun, verdict := RunReviewer();
        stage := FinalReview(id, reviewRun, verdict);
      }
      ConfinedTwice(id, old(board.states), old(attempts), s1, a1, board.states, attempts);
      AttemptEnds(old(attempts[id]), a1[id], attempts[id]);
    }

    /** Works on an implementation, verification or post-processing task until its reviewer
        approves, the run must stop, or its attempts are used up. */
    method ExecuteImplementation(id: int) returns (r: Result<bool, Stop>)
      requires Valid() && id in board.states && board.states[id] == W.Ready
      modifies this`attempts, board`states
      ensures KeepsStalled(board.tasks, old(board.states), board.states)
      ensures Valid() && id in board.states
      ensures Confined(id, old(board.states), old(attempts), board.states, attempts)
      ensures Extends(old(attempts[id]), attempts[id])
      ensures board.states[id] == W.Completed ==> |old(attempts[id])| < |attempts[id]|
      ensures r == Ok(true) ==> board.states[id] == W.Completed && |old(attempts[id])| < |attempts[id]|
                                && Latest(attempts[id]) == Attempt(Approved, Some(Approve))
      ensures r == Ok(false) ==> if |old(attempts[id])| >= MAX_TASK_ATTEMPTS then board.states[id] == W.Ready
                                 else board.states[id] == W.Failed && GivenUp(attempts[id])
      ensures board.reliable ==> r != Err(Environment)
      ensures board.reliable && agreeable && |old(attempts[id])| < MAX_TASK_ATTEMPTS ==>
        r == Ok(true) && StaysInStep(board.tasks, id, old(board.states), board.states)
    {
      hide Stalled, Confined, Extends, Unapproved, OneMore, Refused, Sound, W.WellFormedTasks, Earned, W.CanTransition;
      NothingYet(id, board.states, attempts);
      while true
        invariant Valid() && id in board.states && board.states[id] == W.Ready
        invariant KeepsStalled(board.tasks, old(board.states), board.states)
        invariant Confined(id, old(board.states), old(attempts), board.states, attempts)
        invariant Unapproved(old(attempts[id]), attempts[id])
        invariant attempts[id] == old(attempts[id]) || |attempts[id]| < MAX_TASK_ATTEMPTS
        invariant board.reliable && agreeable ==> board.states == old(board.states) && attempts == old(attempts)
        decreases MAX_TASK_ATTEMPTS - |attempts[id]|
      {
        ghost var s1, a1 := board.states, attempts;
        UnapprovedExtends(old(attempts[id]), attempts[id], attempts[id]);
        if |attempts[id]| + 1 > MAX_TASK_ATTEMPTS { return Ok(false); }
        var stage := ImplementOnce(id);
        ConfinedTwice(id, old(board.states), old(attempts), s1, a1, board.states, attempts);
        UnapprovedExtends(old(attempts[id]), a1[id], attempts[id]);
        if stage.Leave? { return stage.result; }
      }
    }

    /** Advice needs no reviewer: what the agent produced is stored and completes the task. */
    method AcceptAdvice(id: int) returns (r: Result<bool, Stop>)
      requires Valid() && id in board.states && board.states[id] == W.Running && attempts[id] != []
      requires forall t :: t in board.tasks && t.id == id ==> !NeedsReviewer(t.operation)
      modifies this`attempts, board`states
      ensures KeepsStalled(board.tasks, old(board.states), board.states)
      ensures Valid() && id in board.states
      ensures Confined(id, old(board.states), old(attempts), board.states, attempts)
      ensures SameButLatest(old(attempts[id]), attempts[id])
      ensures r == Ok(true) || r == Err(Environment)
      ensures r == Ok(true) ==> board.states[id] == W.Completed && Latest(attempts[id]) == Attempt(Approved, None)
      ensures board.reliable ==> r == Ok(true)
      ensures r == Ok(true) ==> StaysInStep(board.tasks, id, old(board.states), board.states)
    {
      hide Stalled, Sound, W.WellFormedTasks;
      NothingYet(id, board.states, attempts);
      if !board.reliable { if * { return Err(Environment); } }
      var finished := Finish(id, Approved, None, W.Completed);
      r := if finished.Ok? then Ok(true) else Err(finished.error);
    }

    /** One turn of the advisory loop. */
    method AdviseOnce(id: int) returns (stage: Stage)
      requires Valid() && id in board.states && board.states[id] == W.Ready
      requires |attempts[id]| < MAX_TASK_ATTEMPTS
      requires forall t :: t in board.tasks && t.id == id ==> !NeedsReviewer(t.operation)
      modifies this`attempts, board`states
      ensures KeepsStalled(board.tasks, old(board.states), board.states)
      ensures Valid() && id in board.states
      ensures Confined(id, old(board.states), old(attempts), board.states, attempts)
      ensures OneMore(old(attempts[id]), attempts[id]) && stage != Produced
      ensures board.states[id] == W.Completed ==> |old(attempts[id])| < |attempts[id]|
      ensures stage == TryAgain ==> board.states[id] == W.Ready && Refused(old(attempts[id]), attempts[id])
      ensures stage == Leave(Ok(true)) ==> board.states[id] == W.Completed && |old(attempts[id])| < |attempts[id]|
                                           && Latest(attempts[id]) == Attempt(Approved, None)
      ensures stage == Leave(Ok(false)) ==> board.states[id] == W.Failed && GivenUp(attempts[id])
      ensures board.reliable ==> stage != Leave(Err(Environment))
      ensures board.reliable && agreeable ==> stage == Leave(Ok(true))
      ensures stage == Leave(Ok(true)) ==> StaysInStep(board.tasks, id, old(board.states), board.states)
    {
      hide Stalled;
      hide Sound, Confined, SameButLatest, OneMore, Refused, GivenUp, NeedsReviewer, W.CanTransition, W.WellFormedTasks;
      var started := StartAttempt(id);
      ghost var s1, a1 := board.states, attempts;
      if started.Err? { return Leave(Err(started.error)); }
      var agentRun, violation := RunAgent();
      stage := WorkStage(id, agentRun, violation);
      if stage == Produced {
        var r := AcceptAdvice(id);
        stage := Leave(r);
      }
      ConfinedTwice(id, old(board.states), old(attempts), s1, a1, board.states, attempts);
      AttemptEnds(old(attempts[id]), a1[id], attempts[id]);
    }

    /** Works on an advisory task until its agent succeeds; no reviewer is involved. */
    method ExecuteAdvisory(id: int) returns (r: Result<bool, Stop>)
      requires Valid() && id in board.states && board.states[id] == W.Ready
      requires forall t :: t in board.tasks && t.id == id ==> t.operation == P.Advisory
      modifies this`attempts, board`states
      ensures KeepsStalled(board.tasks, old(board.states), board.states)
      ensures Valid() && id in board.states
      ensures Confined(id, old(board.states), old(attempts), board.states, attempts)
      ensures Extends(old(attempts[id]), attempts[id])
      ensures board.states[id] == W.Completed ==> |old(attempts[id])| < |attempts[id]|
      ensures r == Ok(true) ==> board.states[id] == W.Completed && |old(attempts[id])| < |attempts[id]|
                                && Latest(attempts[id]) == Attempt(Approved, None)
      ensures r == Ok(false) ==> if |old(attempts[id])| >= MAX_TASK_ATTEMPTS then board.states[id] == W.Ready
                                 else board.states[id] == W.Failed && GivenUp(attempts[id])
      ensures board.reliable ==> r != Err(Environment)
      ensures board.reliable && agreeable && |old(attempts[id])| < MAX_TASK_ATTEMPTS ==>
        r == Ok(true) && StaysInStep(board.tasks, id, old(board.states), board.states)
    {
      hide Stalled, Confined, Extends, Unapproved, OneMore, Refused, Sound, W.WellFormedTasks, Earned, W.CanTransition;
      NothingYet(id, board.states, attempts);
      while true
        invariant Valid() && id in board.states && board.states[id] == W.Ready
        invariant KeepsStalled(board.tasks, old(board.states), board.states)
        invariant Confined(id, old(board.states), old(attempts), board.states, attempts)
        invariant Unapproved(old(attempts[id]), attempts[id])
        invariant attempts[id] == old(attempts[id]) || |attempts[id]| < MAX_TASK_ATTEMPTS
        invariant board.reliable && agreeable ==> board.states == old(board.states) && attempts == old(attempts)
        decreases MAX_TASK_ATTEMPTS - |attempts[id]|
      {
        ghost var s1, a1 := board.states, attempts;
        UnapprovedExtends(old(attempts[id]), attempts[id], attempts[id]);
        if |attempts[id]| + 1 > MAX_TASK_ATTEMPTS { return Ok(false); }
        var stage := AdviseOnce(id);
        ConfinedTwice(id, old(board.states), old(attempts), s1, a1, board.states, attempts);
        UnapprovedExtends(old(attempts[id]), a1[id], attempts[id]);
        if stage.Leave? { return stage.result; }
      }
    }

    // ---- Reviews that send work back ------------------------------------------------------

    /** Sets the Completed tasks among `ids` back to Pending, one write each, in any order; a write
        that fails leaves the rest as they were. */
    method Unwind(ids: set<int>) returns (ok: bool, ghost done: set<int>)
      requires board.Valid() && ids <= board.states.Keys
      modifies board`states
      ensures KeepsStalled(board.tasks, old(board.states), board.states)
      ensures board.Valid()
      ensures done <= ids && board.states == SetBack(old(board.states), done)
      ensures ok ==> done == ids
      ensures board.reliable ==> ok
    {
      hide Stalled;
      var listed := board.states;
      var left := ids;
      while left != {}
        invariant left <= ids && board.states == SetBack(listed, ids - left)
      {
        var ancestor :| ancestor in left;
        if listed[ancestor] == W.Completed {
          if !board.reliable {
            if * {
              SettingBackKeepsRest(board.tasks, listed, ids - left);
              return false, ids - left;
            }
          }
          board.states := board.states[ancestor := W.Pending];
        }
        left := left - {ancestor};
      }
      ok, done := true, ids;
      assert ids - left == ids;
      SettingBackKeepsRest(board.tasks, listed, ids);
    }

    /** Unwinds the review's ancestry, has the review wait, and hands the work back to `seed`. */
    method HandBack(review: W.Task, seed: W.Task, ancestors: set<int>) returns (r: Result<(), Stop>)
      requires Valid() && review in board.tasks && board.states[review.id] == W.Running
      requires ancestors == Ancestry(board.tasks, review.id) && seed.id in ancestors && seed.id != review.id
      requires IsSeed(board.tasks, seed.id)
      modifies board`states
      ensures KeepsStalled(board.tasks, old(board.states), board.states)
      ensures Valid() && seed.id in old(board.states) && seed.id in board.states
      ensures UnwindsAncestry(board.tasks, review.id, old(board.states), board.states)
      ensures board.states[review.id] != W.Completed
      ensures r.Ok? ==> board.states[seed.id] == W.Ready
                        && forall a :: a in ancestors && a in board.states ==> board.states[a] != W.Completed
      ensures r.Ok? ==> forall x :: Stranded(board.tasks, review.id, old(board.states), x) ==>
        Stalled(board.tasks, board.states, x)
      ensures r.Err? ==> r.error == InvalidTransition || r.error == Environment
      ensures board.reliable ==> r != Err(Environment)
      ensures board.reliable && old(board.states)[seed.id] == W.Completed ==> r.Ok?
    {
      hide Stalled, Stranded, IsSeed, W.WellFormedTasks, Earned, Ancestor, Sound, UnwindsAncestry, SetBack, StaysInStep,
           A.Reopens, KeepsStalled, MayMove;
      var complete, done := Unwind(ancestors - {seed.id});
      if complete { UnwoundIsStalled(board.tasks, review.id, old(board.states), done, seed.id); }
      StaysAsItWas(old(board.states), done, review.id);
      KeptOutside(old(board.states), done, seed.id);
      NothingYet(review.id, board.states, attempts);
      ghost var unwound := board.states;
      NothingStirs(board.tasks, review.id, unwound);
      MovesItself(board.tasks, unwound, review.id);
      if complete { r := Mark(review.id, W.Blocked); } else { r := Err(Environment); }
      ghost var marked := board.states;
      NothingStirs(board.tasks, seed.id, marked);
      SeedMayMove(board.tasks, marked, seed.id);
      if r.Ok? { r := Mark(seed.id, W.Ready); }
      KeepsStalledThrice(board.tasks, old(board.states), unwound, marked, board.states);
      ReworkEffect(board.tasks, review.id, seed.id, done, attempts, old(board.states), marked, board.states);
    }

    /** Unwinds the review's ancestry and hands the work back to its deepest implementation. */
    method ReworkAfterReview(review: W.Task) returns (r: Result<bool, Stop>)
      requires Valid() && review in board.tasks && board.states[review.id] == W.Running
      requires review.operation == P.Review
      modifies board`states
      ensures KeepsStalled(board.tasks, old(board.states), board.states)
      ensures Valid()
      ensures UnwindsAncestry(board.tasks, review.id, old(board.states), board.states)
      ensures board.states[review.id] != W.Completed
      ensures r == Ok(false) <==> Unreworkable(board.tasks, review.id, attempts)
      ensures r == Ok(false) ==> board.states == old(board.states)
      ensures r == Ok(false) <==> forall t :: IsReworkSeed(board.tasks, review.id, t) ==>
        t.id in attempts && |attempts[t.id]| >= MAX_TASK_ATTEMPTS
      ensures r == Ok(true) ==> ReworkStarted(board.tasks, review.id, board.states, attempts)
      ensures r == Ok(true) ==>
        exists t :: IsReworkSeed(board.tasks, review.id, t) && t.id in board.states && board.states[t.id] == W.Ready
      ensures board.reliable && SeedIsCompleted(board.tasks, review.id, old(board.states)) ==> r.Ok?
      ensures r.Err? ==> r.error == InvalidTransition || r.error == Environment
      ensures r == Ok(true) ==> forall x :: Stranded(board.tasks, review.id, old(board.states), x) ==>
        Stalled(board.tasks, board.states, x)
      ensures board.reliable ==> r != Err(Environment)
    {
      hide Stalled, Stranded, IsSeed, IsReworkSeed, KeepsStalled, W.WellFormedTasks, Earned, Ancestor, FindReworkSeed,
           Sound, UnwindsAncestry;
      ReworkOfSeed(board.tasks, review.id, board.states, attempts);
      NothingUnwound(board.tasks, review.id, board.states);
      NothingStirs(board.tasks, review.id, board.states);
      var ancestors := TransitiveAncestors(review, board.tasks);
      assert ancestors == Ancestry(board.tasks, review.id);
      var seed := FindReworkSeed(board.tasks, ancestors);
      if seed.None? { return Ok(false); }
      SeedIsAnotherTask(board.tasks, review, ancestors);
      if |attempts[seed.value.id]| >= MAX_TASK_ATTEMPTS { return Ok(false); }
      SeedOfReview(board.tasks, review, seed.value.id);
      SeedIsDeepest(board.tasks, review.id, seed.value);
      var handed := HandBack(review, seed.value, ancestors);
      r := if handed.Ok? then Ok(true) else Err(handed.error);
      ReworkOfSeed(board.tasks, review.id, board.states, attempts);
    }

    /** Records that the review asked for changes and sends the work back, or gives up. */
    method RequestRework(review: W.Task, recorded: Option<Decision>) returns (r: Result<bool, Stop>)
      requires Valid() && review in board.tasks && board.states[review.id] == W.Running
      requires review.operation == P.Review && attempts[review.id] != []
      modifies this`attempts, board`states
      ensures KeepsStalled(board.tasks, old(board.states), board.states)
      ensures Valid() && review.id in board.states && board.states[review.id] != W.Completed
      ensures UnwindsAncestry(board.tasks, review.id, old(board.states), board.states)
      ensures OthersAttempts(review.id, old(attempts), attempts)
      ensures SameButLatest(old(attempts[review.id]), attempts[review.id])
      ensures r != Ok(false)
      ensures r == Ok(true) ==> ReworkStarted(board.tasks, review.id, board.states, attempts)
                                && Latest(attempts[review.id]) == Attempt(ChangesRequested, recorded)
      ensures r == Err(RetryLimit) ==> Unreworkable(board.tasks, review.id, attempts)
                                       && board.states[review.id] == W.Failed
                                       && Confined(review.id, old(board.states), old(attempts), board.states, attempts)
      ensures board.reliable ==> r != Err(Environment)
    {
      hide Stalled, W.WellFormedTasks, W.CanTransition, Ancestor, Unreworkable, ReworkStarted, Earned, IsSeed;
      assert |attempts[review.id]| <= MAX_TASK_ATTEMPTS;
      hide Sound;
      var id := review.id;
      var last := |attempts[id]| - 1;
      attempts := attempts[id := attempts[id][..last] + [Attempt(ChangesRequested, recorded)]];
      ConfinedStaysSound(board.tasks, id, old(board.states), old(attempts), board.states, attempts);
      if !board.reliable { if * { return Err(Environment); } }
      r := ReworkAfterReview(review);
      if r != Ok(false) { return; }
      var failed := Mark(id, W.Failed);
      ConfinedStaysSound(board.tasks, id, old(board.states), old(attempts), board.states, attempts);
      r := Err(if failed.Ok? then RetryLimit else failed.error);
    }

    /** The review's agent has answered, unreadably if there is no verdict: an approval completes
        the review, anything else sends work back. */
    method Judge(review: W.Task, verdict: Option<Verdict>) returns (r: Result<bool, Stop>)
      requires Valid() && review in board.tasks && board.states[review.id] == W.Running
      requires review.operation == P.Review && attempts[review.id] != []
      modifies this`attempts, board`states
      ensures KeepsStalled(board.tasks, old(board.states), board.states)
      ensures Valid() && review.id in board.states
      ensures UnwindsAncestry(board.tasks, review.id, old(board.states), board.states)
      ensures OthersAttempts(review.id, old(attempts), attempts)
      ensures SameButLatest(old(attempts[review.id]), attempts[review.id])
      ensures r != Ok(false)
      ensures r == Ok(true) ==>
        Settles(board.tasks, review.id, old(board.states), old(attempts), board.states, attempts)
      ensures board.states[review.id] == W.Completed ==> verdict.Some? && verdict.value.decision == Approve
      ensures r == Ok(true) ==>
        Latest(attempts[review.id]) ==
          if verdict.None? then Attempt(ChangesRequested, Some(Approve))
          else Attempt(if verdict.value.decision == Approve then Approved else ChangesRequested,
                       Some(if verdict.value.findings == 0 then Approve else RequestChanges))
      ensures r == Err(RetryLimit) ==> Unreworkable(board.tasks, review.id, attempts)
      ensures board.reliable ==> r != Err(Environment)
      ensures board.reliable && verdict.Some? && verdict.value.decision == Approve ==>
        r == Ok(true) && Passed(review.id)
      ensures r == Ok(true) && Latest(attempts[review.id]).status == Approved ==>
        StaysInStep(board.tasks, review.id, old(board.states), board.states)
    {
      hide Stalled, W.WellFormedTasks, Ancestor, ReworkStarted, Sound, Unreworkable;
      var id := review.id;
      if !board.reliable { if * { return Err(Environment); } }
      var decision := if verdict.Some? then verdict.value.decision else RequestChanges;
      var findings := if verdict.Some? then verdict.value.findings else 0;
      var recorded := Some(if findings == 0 then Approve else RequestChanges);
      if decision == Approve {
        SameTaskOperation(board.tasks, review);
        var finished := Finish(id, Approved, recorded, W.Completed);
        r := if finished.Ok? then Ok(true) else Err(finished.error);
      } else {
        r := RequestRework(review, recorded);
      }
    }

    /** One turn of a review. */
    method ReviewOnce(review: W.Task) returns (stage: Stage)
      requires Valid() && review in board.tasks && board.states[review.id] == W.Ready
      requires review.operation == P.Review && |attempts[review.id]| < MAX_TASK_ATTEMPTS
      modifies this`attempts, board`states
      ensures KeepsStalled(board.tasks, old(board.states), board.states)
      ensures Valid() && review.id in board.states
      ensures UnwindsAncestry(board.tasks, review.id, old(board.states), board.states)
      ensures OthersAttempts(review.id, old(attempts), attempts)
      ensures OneMore(old(attempts[review.id]), attempts[review.id]) && stage != Produced
      ensures board.states[review.id] == W.Completed ==> |old(attempts[review.id])| < |attempts[review.id]|
      ensures stage == TryAgain ==> board.states[review.id] == W.Ready
                                    && Refused(old(attempts[review.id]), attempts[review.id])
                                    && Confined(review.id, old(board.states), old(attempts), board.states, attempts)
      ensures stage == Leave(Ok(true)) ==> |old(attempts[review.id])| < |attempts[review.id]|
      ensures stage == Leave(Ok(true)) ==>
        Settles(board.tasks, review.id, old(board.states), old(attempts), board.states, attempts)
      ensures stage == Leave(Ok(false)) ==> board.states[review.id] == W.Failed && GivenUp(attempts[review.id])
      ensures board.reliable ==> stage != Leave(Err(Environment))
      ensures board.reliable && agreeable ==> stage == Leave(Ok(true)) && Passed(review.id)
      ensures board.reliable && agreeable ==> StaysInStep(board.tasks, review.id, old(board.states), board.states)
    {
      hide Stalled;
      hide W.WellFormedTasks, Sound, Earned, SameButLatest, OneMore, Refused, Confined, UnwindsAncestry, OthersAttempts,
           Settles, W.CanTransition;
      var id := review.id;
      var started := StartAttempt(id);
      ghost var s1, a1 := board.states, attempts;
      ConfinedUnwinds(board.tasks, id, old(board.states), old(attempts), board.states, attempts);
      if started.Err? { return Leave(Err(started.error)); }
      var agentRun, violation := RunAgent();
      stage := WorkStage(id, agentRun, violation);
      ConfinedTwice(id, old(board.states), old(attempts), s1, a1, board.states, attempts);
      ConfinedUnwinds(board.tasks, id, old(board.states), old(attempts), board.states, attempts);
      if stage == Produced {
        var verdict := ReadVerdict();
        var r := Judge(review, verdict);
        SettlesAfter(board.tasks, id, old(board.states), old(attempts), s1, a1, board.states, attempts);
        stage := Leave(r);
      }
      AttemptEnds(old(attempts[id]), a1[id], attempts[id]);
    }

    /** Reviews the work a review task depends on until the review approves, sends work back, or
        can go no further. */
    method ExecuteReview(review: W.Task) returns (r: Result<bool, Stop>)
      requires Valid() && review in board.tasks && board.states[review.id] == W.Ready
      requires review.operation == P.Review
      modifies this`attempts, board`states
      ensures KeepsStalled(board.tasks, old(board.states), board.states)
      ensures Valid() && review.id in board.states
      ensures UnwindsAncestry(board.tasks, review.id, old(board.states), board.states)
      ensures OthersAttempts(review.id, old(attempts), attempts)
      ensures Extends(old(attempts[review.id]), attempts[review.id])
      ensures board.states[review.id] == W.Completed ==> |old(attempts[review.id])| < |attempts[review.id]|
      ensures r == Ok(true) ==> |old(attempts[review.id])| < |attempts[review.id]|
      ensures r == Ok(true) ==>
        Settles(board.tasks, review.id, old(board.states), old(attempts), board.states, attempts)
      ensures r == Ok(false) ==> if |old(attempts[review.id])| >= MAX_TASK_ATTEMPTS
                                 then board.states[review.id] == W.Ready
                                 else board.states[review.id] == W.Failed && GivenUp(attempts[review.id])
      ensures board.reliable ==> r != Err(Environment)
      ensures board.reliable && agreeable && |old(attempts[review.id])| < MAX_TASK_ATTEMPTS ==>
        r == Ok(true) && Passed(review.id)
      ensures board.reliable && agreeable && |old(attempts[review.id])| < MAX_TASK_ATTEMPTS ==>
        StaysInStep(board.tasks, review.id, old(board.states), board.states)
    {
      hide Stalled;
      hide W.WellFormedTasks, Sound, Earned, OneMore, Refused, Confined, UnwindsAncestry, OthersAttempts, Extends,
           Unapproved, Settles, W.CanTransition;
      var id := review.id;
      NothingYet(id, board.states, attempts);
      ConfinedUnwinds(board.tasks, id, old(board.states), old(attempts), board.states, attempts);
      UnapprovedExtends(old(attempts[id]), attempts[id], attempts[id]);
      if !board.reliable { if * { return Err(Environment); } }
      while true
        invariant Valid() && id in board.states && board.states[id] == W.Ready
        invariant KeepsStalled(board.tasks, old(board.states), board.states)
        invariant Confined(id, old(board.states), old(attempts), board.states, attempts)
        invariant Unapproved(old(attempts[id]), attempts[id])
        invariant attempts[id] == old(attempts[id]) || |attempts[id]| < MAX_TASK_ATTEMPTS
        invariant board.reliable && agreeable ==> board.states == old(board.states) && attempts == old(attempts)
        decreases MAX_TASK_ATTEMPTS - |attempts[id]|
      {
        ghost var s1, a1 := board.states, attempts;
        ConfinedUnwinds(board.tasks, id, old(board.states), old(attempts), board.states, attempts);
        NothingYet(id, board.states, attempts);
        UnapprovedExtends(old(attempts[id]), attempts[id], attempts[id]);
        if |attempts[id]| + 1 > MAX_TASK_ATTEMPTS { return Ok(false); }
        var stage := ReviewOnce(review);
        SettlesAfter(board.tasks, id, old(board.states), old(attempts), s1, a1, board.states, attempts);
        UnapprovedExtends(old(attempts[id]), a1[id], attempts[id]);
        if stage.Leave? { return stage.result; }
        ConfinedTwice(id, old(board.states), old(attempts), s1, a1, board.states, attempts);
      }
    }

    // ---- The scheduler loop ------------------------------------------------------------------

    /** Executes one Ready task by its operation. */
    method ExecuteTask(task: W.Task) returns (r: Result<bool, Stop>)
      requires Valid() && task in board.tasks && board.states[task.id] == W.Ready
      modifies this`attempts, board`states
      ensures KeepsStalled(board.tasks, old(board.states), board.states)
      ensures Valid() && task.id in board.states && board.states.Keys == old(board.states).Keys
      ensures UnwindsAncestry(board.tasks, task.id, old(board.states), board.states)
      ensures OthersAttempts(task.id, old(attempts), attempts)
      ensures old(attempts[task.id]) <= attempts[task.id]
      ensures board.states[task.id] == W.Completed ==> |old(attempts[task.id])| < |attempts[task.id]|
      ensures r == Ok(true) ==> |old(attempts[task.id])| < |attempts[task.id]|
      ensures r == Ok(true) && task.operation == P.Review ==>
        Settles(board.tasks, task.id, old(board.states), old(attempts), board.states, attempts)
      ensures r == Ok(true) && task.operation != P.Review ==> board.states[task.id] == W.Completed
      ensures r == Ok(false) ==> board.states[task.id] != W.Completed
      ensures board.reliable ==> r != Err(Environment)
      ensures task.operation == P.Planning ==>
        r == Err(PlannerTask) && board.states == old(board.states) && attempts == old(attempts)
      ensures r == Ok(false) ==> if |old(attempts[task.id])| >= MAX_TASK_ATTEMPTS then board.states[task.id] == W.Ready
                         else board.states[task.id] == W.Failed && GivenUp(attempts[task.id])
      ensures
        board.reliable && agreeable && |old(attempts[task.id])| < MAX_TASK_ATTEMPTS && task.operation != P.Planning ==>
        r == Ok(true) && board.states[task.id] == W.Completed
        && Confined(task.id, old(board.states), old(attempts), board.states, attempts)
        && StaysInStep(board.tasks, task.id, old(board.states), board.states)
    {
      hide Stalled, W.WellFormedTasks, Sound, Confined, UnwindsAncestry, OthersAttempts, Settles, W.CanTransition;
      var id := task.id;
      NothingYet(id, board.states, attempts);
      SameTaskOperation(board.tasks, task);
      match task.operation {
        case Planning =>
          r := Err(PlannerTask);
          ConfinedUnwinds(board.tasks, id, old(board.states), old(attempts), board.states, attempts);
        case Advisory =>
          r := ExecuteAdvisory(id);
          ConfinedUnwinds(board.tasks, id, old(board.states), old(attempts), board.states, attempts);
        case Implement =>
          r := ExecuteImplementation(id);
          ConfinedUnwinds(board.tasks, id, old(board.states), old(attempts), board.states, attempts);
        case Verify =>
          r := ExecuteImplementation(id);
          ConfinedUnwinds(board.tasks, id, old(board.states), old(attempts), board.states, attempts);
        case PostProcess =>
          r := ExecuteImplementation(id);
          ConfinedUnwinds(board.tasks, id, old(board.states), old(attempts), board.states, attempts);
        case Review =>
          r := ExecuteReview(task);
          ApprovedIsConfined(board.tasks, id, old(board.states), old(attempts), board.states, attempts);
      }
    }

    /** Executes Ready tasks, first by position, until all are Completed or the run must stop; `looks`
        counts the looks at the flag for cancelling, and `found` is what the last one found. */
    method ExecuteActiveRun()
      returns (r: Result<RunEnd, Stop>, ghost picks: seq<Pick>, ghost looks: nat, ghost found: bool)
      requires Valid()
      modifies this`attempts, board`states
      ensures KeepsStalled(board.tasks, old(board.states), board.states)
      ensures History(board.tasks, picks, old(board.states), old(attempts), board.states, attempts)
      ensures |picks| <= SpendableAttempts(board.tasks, old(attempts)) + 1
      ensures Valid() && board.states.Keys == old(board.states).Keys
      ensures looks == |picks| + (if r.Ok? then 1 else 0) && (found <==> r == Ok(RunCancelled))
      ensures r == Ok(RunCompleted) ==> AllCompleted(board.tasks, board.states) && WentOn(picks)
      ensures r == Ok(RunCompleted) ==>
        forall t :: t in board.tasks ==> t.id in attempts && Earned(t.operation, attempts[t.id])
      ensures r == Ok(RunFailed) ==> !AllCompleted(board.tasks, board.states)
      ensures r == Ok(RunFailed) ==>
        GaveUp(picks) || (WentOn(picks) && forall t :: t in board.tasks ==> board.states[t.id] != W.Ready)
      ensures r.Err? ==> EndedIn(picks, r.error)
      ensures board.reliable ==> r != Err(Environment)
      ensures agreeable ==> r != Ok(RunCancelled)
      ensures board.reliable && agreeable && old(GoesOn()) ==> r == Ok(RunCompleted)
      ensures (exists x :: Stalled(board.tasks, old(board.states), x)) ==> r != Ok(RunCompleted)
    {
      hide Stalled;
      hide W.WellFormedTasks, Earned, Sound, SpendableAttempts, FirstReady, History, CanGoOn, A.Cyclic, WentOn, GaveUp,
           EndedIn;
      picks, looks, found := [], 0, false;
      NoHistory(board.tasks, board.states, attempts);
      NothingWentWrong();
      ghost var goesOn := board.reliable && agreeable && GoesOn();
      while true
        invariant Valid() && board.states.Keys == old(board.states).Keys
        invariant KeepsStalled(board.tasks, old(board.states), board.states)
        invariant |picks| + SpendableAttempts(board.tasks, attempts) <= SpendableAttempts(board.tasks, old(attempts))
        invariant History(board.tasks, picks, old(board.states), old(attempts), board.states, attempts)
        invariant WentOn(picks) && (goesOn ==> GoesOn())
        invariant looks == |picks| && !found
        decreases SpendableAttempts(board.tasks, attempts)
      {
        var cancelled := LookForCancel();
        looks, found := looks + 1, cancelled;
        if cancelled { return Ok(RunCancelled), picks, looks, found; }
        if AllCompleted(board.tasks, board.states) {
          forall x | Stalled(board.tasks, board.states, x)
            ensures false
          {
            StalledIsNotCompleted(board.tasks, board.states, x);
          }
          CompletedIsEarned(board.tasks, board.states, attempts);
          return Ok(RunCompleted), picks, looks, found;
        }
        var next := FirstReady(board.tasks, board.states);
        if next.None? {
          NoneReady(board.tasks, board.states);
          if goesOn { GoingOnIsPossible(board.tasks, board.states, attempts); }
          return Ok(RunFailed), picks, looks, found;
        }
        var executed, pick := ExecutePicked(next.value, picks, old(board.states), old(attempts), goesOn);
        LastResult(picks, pick);
        picks := picks + [pick];
        if executed.Err? { return Err(executed.error), picks, looks, found; }
        if !executed.value {
          cancelled := LookForCancel();
          looks, found := looks + 1, cancelled;
          if cancelled { return Ok(RunCancelled), picks, looks, found; }
          return Ok(RunFailed), picks, looks, found;
        }
      }
    }

    /** Executes the chosen task, as one more of the executions `picks` since the start. */
    method ExecutePicked(task: W.Task, ghost picks: seq<Pick>, ghost s0: W.States, ghost a0: Attempts,
                         ghost goesOn: bool)
      returns (executed: Result<bool, Stop>, ghost pick: Pick)
      requires Valid() && FirstReady(board.tasks, board.states) == Some(task)
      requires History(board.tasks, picks, s0, a0, board.states, attempts) && WentOn(picks)
      requires goesOn ==> board.reliable && agreeable && GoesOn()
      modifies this`attempts, board`states
      ensures Valid() && board.states.Keys == old(board.states).Keys
      ensures KeepsStalled(board.tasks, old(board.states), board.states)
      ensures History(board.tasks, picks + [pick], s0, a0, board.states, attempts) && pick.result == executed
      ensures executed == Ok(true) ==>
        SpendableAttempts(board.tasks, attempts) < SpendableAttempts(board.tasks, old(attempts))
      ensures executed == Ok(false) ==> !AllCompleted(board.tasks, board.states)
      ensures board.reliable ==> executed != Err(Environment)
      ensures goesOn ==> executed == Ok(true) && GoesOn()
    {
      hide Stalled, KeepsStalled, W.WellFormedTasks, UnwindsAncestry, Settles, Earned, SpendableAttempts, FirstReady,
           History, Executes, Confined, StaysInStep, CanGoOn, A.Cyclic, OthersAttempts;
      FirstIsReady(board.tasks, board.states, task);
      if goesOn { GoesOnWith(board.tasks, board.states, attempts, task); }
      executed := ExecuteTask(task);
      pick := Pick(old(board.states), task, executed, board.states);
      ExecutesTask(board.tasks, pick);
      OneMoreExecution(board.tasks, picks, pick, s0, a0, old(attempts), attempts);
      if goesOn { CompletingGoesOn(board.tasks, task, old(board.states), old(attempts), board.states, attempts); }
      if executed == Ok(true) { AttemptsWereSpent(board.tasks, task, old(attempts), attempts); }
    }

    /** Nothing but the outside keeps the run from completing. */
    ghost predicate GoesOn()
      reads this, board
    {
      !A.Cyclic(board.tasks) && CanGoOn(board.tasks, board.states, attempts)
    }

    // ---- Retries and restarts -----------------------------------------------------------------

    /** Makes a failed or blocked task Ready again while it has attempts left. */
    method PrepareRetry(id: int) returns (r: Result<(), Stop>)
      requires Valid()
      modifies board`states
      ensures KeepsStalled(board.tasks, old(board.states), board.states)
      ensures Valid()
      ensures r.Ok? ==> id in old(board.states)
                        && (old(board.states)[id] == W.Failed || old(board.states)[id] == W.Blocked)
                        && |attempts[id]| < MAX_TASK_ATTEMPTS && board.states[id] == W.Ready
      ensures r.Err? && r.error != Environment ==> board.states == old(board.states)
      ensures r == Err(Environment) ==> id in old(board.states) && id in board.states
                                        && (board.states[id] == old(board.states)[id] || board.states[id] == W.Ready)
      ensures r == Err(NoSuchTask) <==> id !in old(board.states)
      ensures r == Err(InvalidTransition) <==>
        id in old(board.states) && old(board.states)[id] != W.Failed && old(board.states)[id] != W.Blocked
      ensures r == Err(RetryLimit) <==>
        id in old(board.states) && (old(board.states)[id] == W.Failed || old(board.states)[id] == W.Blocked)
        && |attempts[id]| >= MAX_TASK_ATTEMPTS
      ensures Confined(id, old(board.states), attempts, board.states, attempts)
      ensures board.reliable ==> r != Err(Environment)
    {
      hide Stalled, W.WellFormedTasks, Earned;
      if id !in board.states { return Err(NoSuchTask); }
      if board.states[id] != W.Failed && board.states[id] != W.Blocked { return Err(InvalidTransition); }
      if |attempts[id]| >= MAX_TASK_ATTEMPTS { return Err(RetryLimit); }
      if !board.reliable { if * { return Err(Environment); } }
      r := Mark(id, W.Ready);
      ConfinedStaysSound(board.tasks, id, old(board.states), attempts, board.states, attempts);
      if r.Ok? {
        if !board.reliable { if * { r := Err(Environment); } }
      }
    }

    /** Start-up after the process died: open attempts are interrupted, then running tasks fail
        and integrating ones wait again, one statement each; a failure leaves the later ones out. */
    method ReconcileInterrupted() returns (ok: bool)
      requires Valid()
      modifies this`attempts, board`states
      ensures KeepsStalled(board.tasks, old(board.states), board.states)
      ensures Valid()
      ensures attempts == old(attempts) || attempts == InterruptAll(old(attempts))
      ensures ok ==> attempts == InterruptAll(old(attempts))
      ensures ok ==> board.states == Restarted(old(board.states))
      ensures ok ==> NothingOpen(old(attempts), attempts) && NothingUnderWay(old(board.states), board.states)
      ensures PartlyRestarted(old(board.states), board.states) && board.states.Keys == old(board.states).Keys
      ensures forall x :: x in board.states ==>
        (board.states[x] == W.Completed <==> old(board.states)[x] == W.Completed)
      ensures board.reliable ==> ok
    {
      hide Stalled, Sound, W.WellFormedTasks, InterruptAll, FailRunning, RequeueIntegrating, Restarted, NothingOpen,
           NothingUnderWay;
      RestartSettles(board.states, attempts);
      if !board.reliable { if * { return false; } }
      attempts := InterruptAll(attempts);
      RestartInSteps(board.states);
      InterruptedStaysSound(board.tasks, old(board.states), board.states, old(attempts));
      RestartKeepsStalled(board.tasks, old(board.states), board.states);
      if !board.reliable { if * { return false; } }
      board.states := FailRunning(board.states);
      InterruptedStaysSound(board.tasks, old(board.states), board.states, old(attempts));
      RestartKeepsStalled(board.tasks, old(board.states), board.states);
      if !board.reliable { if * { return false; } }
      board.states := RequeueIntegrating(board.states);
      InterruptedStaysSound(board.tasks, old(board.states), board.states, old(attempts));
      RestartKeepsStalled(board.tasks, old(board.states), board.states);
      ok := true;
    }

    method Undergo(event: Event)
      requires Valid()
      modifies this`attempts, board`states
      ensures KeepsStalled(board.tasks, old(board.states), board.states)
      ensures Valid() && NeverForFree(old(board.states), old(attempts), board.states, attempts)
    {
      hide Stalled, Sound, W.WellFormedTasks;
      match event
      case Execute => var _, _, _, _ := ExecuteActiveRun();
      case Restart => var _ := ReconcileInterrupted();
      case Retry(id) => var _ := PrepareRetry(id);
    }

    /** Any history of executions, restarts and retries keeps the run sound, and completes no
        task that it did not attempt anew. */
    method LiveThrough(events: seq<Event>)
      requires Valid()
      modifies this`attempts, board`states
      ensures KeepsStalled(board.tasks, old(board.states), board.states)
      ensures Valid() && NeverForFree(old(board.states), old(attempts), board.states, attempts)
    {
      hide Stalled, Sound, W.WellFormedTasks;
      for i := 0 to |events|
        invariant Valid() && NeverForFree(old(board.states), old(attempts), board.states, attempts)
        invariant KeepsStalled(board.tasks, old(board.states), board.states)
      {
        ghost var s, a := board.states, attempts;
        Undergo(events[i]);
        NeverForFreeTwice(old(board.states), old(attempts), s, a, board.states, attempts);
      }
    }
  }
}
