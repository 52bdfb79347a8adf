/** Accepting, normalizing and numbering the plan a planner agent returns. */
module Planner {
  import opened Wrappers
  import opened Strings
  import opened Dag
  import Sorting

  const MAX_TASKS: nat := 50

  datatype Operation = Planning | Advisory | Implement | Verify | PostProcess | Review

  datatype PlannedTask = PlannedTask(
    id: string, title: string, objective: string, dependencies: seq<string>,
    acceptanceCriteria: seq<string>, role: Option<string>, operation: Option<Operation>)

  datatype Plan = Plan(objective: string, tasks: seq<PlannedTask>)

  datatype PlanError =
    | NoTasks | TooManyTasks | EmptyField(task: string) | DuplicateId(task: string)
    | SelfDependency(task: string) | UnknownDependency(task: string) | Cyclic | PlannerTask(task: string)

  predicate Blank(s: string) {
    Trim(s) == ""
  }

  predicate FieldsFilled(t: PlannedTask) {
    && !Blank(t.id) && !Blank(t.title) && !Blank(t.objective)
    && t.acceptanceCriteria != []
    && forall c :: c in t.acceptanceCriteria ==> !Blank(c)
  }

  predicate ForThePlanner(t: PlannedTask) {
    t.role == Some("planner") || t.operation == Some(Planning)
  }

  /** The dependency graph of a plan, as the check reads it. */
  function Graph(tasks: seq<PlannedTask>): (nodes: seq<Node<string>>)
    ensures |nodes| == |tasks|
    ensures forall k :: 0 <= k < |tasks| ==> nodes[k] == Node(Trim(tasks[k].id), tasks[k].dependencies)
  {
    seq(|tasks|, k requires 0 <= k < |tasks| => Node(Trim(tasks[k].id), tasks[k].dependencies))
  }

  /** The graphs that can be scheduled: known dependencies, none on itself, none named twice,
      and no cycle. */
  ghost predicate Schedulable<Id(!new)>(nodes: seq<Node<Id>>) {
    KnownDeps(nodes) && NoSelfLoop(nodes) && NoRepeatedDeps(nodes) && !HasCycle(nodes)
  }

  ghost predicate Acceptable(plan: Plan) {
    && 0 < |plan.tasks| <= MAX_TASKS
    && (forall t :: t in plan.tasks ==> FieldsFilled(t) && !ForThePlanner(t))
    && UniqueIds(Graph(plan.tasks))
    && Schedulable(Graph(plan.tasks))
  }

  /** Something the task must have is missing or only white space, or the task is the planner's. */
  predicate Lacks(t: PlannedTask) {
    || OnlyWhitespace(t.id) || OnlyWhitespace(t.title) || OnlyWhitespace(t.objective)
    || t.acceptanceCriteria == [] || (exists c :: c in t.acceptanceCriteria && OnlyWhitespace(c))
    || t.role == Some("planner") || t.operation == Some(Planning)
  }

  /** A plan is acceptable exactly if it has 1 to 50 tasks that lack nothing, with distinct ids, and
      its graph can be scheduled. */
  lemma AcceptableMeans(plan: Plan)
    ensures Acceptable(plan) <==>
            && 1 <= |plan.tasks| <= 50 && (forall t :: t in plan.tasks ==> !Lacks(t))
            && UniqueIds(Graph(plan.tasks)) && Schedulable(Graph(plan.tasks))
  {
    hide UniqueIds, Schedulable, Graph, OnlyWhitespace, Trim;
    forall s: string
      ensures Blank(s) <==> OnlyWhitespace(s)
    {
      var before, after := TrimmedEnds(s);
    }
  }

  /** Accepts exactly the acceptable plans; a refusal names a reason that holds. */
  method ValidatePlan(plan: Plan) returns (r: Result<(), PlanError>)
    ensures r.Ok? <==> Acceptable(plan)
    ensures r == Err(NoTasks) ==> plan.tasks == []
    ensures r == Err(TooManyTasks) ==> |plan.tasks| > MAX_TASKS
    ensures r == Err(Cyclic) ==> HasCycle(Graph(plan.tasks)) || !NoRepeatedDeps(Graph(plan.tasks))
    ensures r.Err? && r.error.EmptyField? ==> exists t :: t in plan.tasks && !FieldsFilled(t)
    ensures r.Err? && r.error.DuplicateId? ==> !UniqueIds(Graph(plan.tasks))
    ensures r.Err? && r.error.SelfDependency? ==> !NoSelfLoop(Graph(plan.tasks))
    ensures r.Err? && r.error.UnknownDependency? ==> !KnownDeps(Graph(plan.tasks))
    ensures r.Err? && r.error.PlannerTask? ==> exists t :: t in plan.tasks && ForThePlanner(t)
  {
    hide FieldsFilled, ForThePlanner, HasCycle, NoRepeatedDeps, KnownDeps, NoSelfLoop, UniqueIds;
    var tasks, nodes := plan.tasks, Graph(plan.tasks);
    if tasks == [] {
      return Err(NoTasks);
    }
    if |tasks| > MAX_TASKS {
      return Err(TooManyTasks);
    }
    var fault := CheckFields(tasks);
    if fault.Some? {
      return Err(fault.value);
    }
    fault := CheckDependencies(tasks);
    if fault.Some? {
      return Err(fault.value);
    }
    var ok := AllSchedulable(nodes);
    if !ok {
      return Err(Cyclic);
    }
    fault := CheckRoles(tasks);
    if fault.Some? {
      return Err(fault.value);
    }
    return Ok(());
  }

  /** Every field filled and every trimmed id used once. */
  method CheckFields(tasks: seq<PlannedTask>) returns (fault: Option<PlanError>)
    ensures fault == None <==> (forall t :: t in tasks ==> FieldsFilled(t)) && UniqueIds(Graph(tasks))
    ensures fault.Some? ==> fault.value.EmptyField? || fault.value.DuplicateId?
    ensures fault.Some? && fault.value.EmptyField? ==> exists t :: t in tasks && !FieldsFilled(t)
    ensures fault.Some? && fault.value.DuplicateId? ==> !UniqueIds(Graph(tasks))
  {
    hide FieldsFilled, Trim;
    var seen: set<string> := {};
    for n := 0 to |tasks|
      invariant forall k :: 0 <= k < n ==> FieldsFilled(tasks[k])
      invariant seen == set k | 0 <= k < n :: Trim(tasks[k].id)
      invariant forall i, j :: 0 <= i < j < n ==> Trim(tasks[i].id) != Trim(tasks[j].id)
    {
      if !FieldsFilled(tasks[n]) {
        return Some(EmptyField(tasks[n].id));
      }
      if Trim(tasks[n].id) in seen {
        var m :| 0 <= m < n && Trim(tasks[m].id) == Trim(tasks[n].id);
        assert Graph(tasks)[m].id == Graph(tasks)[n].id;
        return Some(DuplicateId(tasks[n].id));
      }
      seen := seen + {Trim(tasks[n].id)};
    }
    return None;
  }

  /** Every dependency known and none on the task itself. */
  method CheckDependencies(tasks: seq<PlannedTask>) returns (fault: Option<PlanError>)
    ensures fault == None <==> KnownDeps(Graph(tasks)) && NoSelfLoop(Graph(tasks))
    ensures fault.Some? ==> fault.value.SelfDependency? || fault.value.UnknownDependency?
    ensures fault.Some? && fault.value.SelfDependency? ==> !NoSelfLoop(Graph(tasks))
    ensures fault.Some? && fault.value.UnknownDependency? ==> !KnownDeps(Graph(tasks))
  {
    hide Trim, Ids;
    var nodes := Graph(tasks);
    var seen := Ids(nodes);
    for n := 0 to |tasks|
      invariant forall k :: 0 <= k < n ==> !NamesUnknown(nodes[k].deps, seen) && nodes[k].id !in nodes[k].deps
    {
      for m := 0 to |tasks[n].dependencies|
        invariant forall j :: 0 <= j < m ==> nodes[n].deps[j] in seen && nodes[n].deps[j] != nodes[n].id
      {
        var dep := tasks[n].dependencies[m];
        assert nodes[n] in nodes && dep in nodes[n].deps;
        if dep == Trim(tasks[n].id) {
          return Some(SelfDependency(tasks[n].id));
        }
        if dep !in seen {
          return Some(UnknownDependency(tasks[n].id));
        }
      }
    }
    DependenciesChecked(nodes);
    return None;
  }

  predicate NamesUnknown<Id(==)>(deps: seq<Id>, ids: set<Id>) {
    exists d :: d in deps && d !in ids
  }

  lemma DependenciesChecked<Id(!new)>(nodes: seq<Node<Id>>)
    requires forall k :: 0 <= k < |nodes| ==> !NamesUnknown(nodes[k].deps, Ids(nodes)) && nodes[k].id !in nodes[k].deps
    ensures KnownDeps(nodes) && NoSelfLoop(nodes)
  {
    hide Ids;
    forall n | n in nodes
      ensures n.id !in n.deps && forall d :: d in n.deps ==> d in Ids(nodes)
    {
      var k :| 0 <= k < |nodes| && nodes[k] == n;
    }
  }

  method CheckRoles(tasks: seq<PlannedTask>) returns (fault: Option<PlanError>)
    ensures fault == None <==> forall t :: t in tasks ==> !ForThePlanner(t)
    ensures fault.Some? ==> fault.value.PlannerTask?
  {
    hide ForThePlanner;
    for n := 0 to |tasks|
      invariant forall k :: 0 <= k < n ==> !ForThePlanner(tasks[k])
    {
      if ForThePlanner(tasks[n]) {
        return Some(PlannerTask(tasks[n].id));
      }
    }
    return None;
  }

  // ---- Normalizing ---------------------------------------------------------------------------

  /** Neighbours that are equal become one. */
  function Dedup(s: seq<string>): (r: seq<string>)
    ensures forall x :: x in r <==> x in s
    ensures s != [] ==> r != [] && r[0] == s[0]
  {
    if |s| < 2 then s
    else if s[0] == s[1] then Dedup(s[1..])
    else [s[0]] + Dedup(s[1..])
  }

  function NormalizedTask(t: PlannedTask): PlannedTask {
    PlannedTask(Trim(t.id), Trim(t.title), Trim(t.objective), Dedup(Sorting.Sort(Leq, t.dependencies)),
                t.acceptanceCriteria, if t.role == Some("") then None else t.role, t.operation)
  }

  function NormalizedPlan(plan: Plan): Plan {
    Plan(plan.objective, seq(|plan.tasks|, k requires 0 <= k < |plan.tasks| => NormalizedTask(plan.tasks[k])))
  }

  method NormalizePlan(plan: Plan) returns (r: Plan)
    ensures r == NormalizedPlan(plan)
  {
    var tasks := plan.tasks;
    for n := 0 to |tasks|
      invariant |tasks| == |plan.tasks|
      invariant forall k :: 0 <= k < |tasks| ==>
        tasks[k] == if k < n then NormalizedTask(plan.tasks[k]) else plan.tasks[k]
    {
      var task := tasks[n];
      task := task.(id := Trim(task.id), title := Trim(task.title), objective := Trim(task.objective));
      task := task.(dependencies := Sorting.Sort(Leq, task.dependencies));
      task := task.(dependencies := Dedup(task.dependencies));
      if task.role == Some("") {
        task := task.(role := None);
      }
      tasks := tasks[n := task];
    }
    r := plan.(tasks := tasks);
  }

  /** What normalizing makes of a task: white space around its texts goes, dependencies are the same,
      in strict order, an empty role is none, and everything else stays. */
  lemma NormalizedFields(t: PlannedTask)
    ensures var n := NormalizedTask(t);
      && n.id == Trim(t.id) && n.title == Trim(t.title) && n.objective == Trim(t.objective)
      && (forall d :: d in n.dependencies <==> d in t.dependencies)
      && Sorting.Sorted(Leq, n.dependencies) && NoRepeats(n.dependencies)
      && n.acceptanceCriteria == t.acceptanceCriteria && n.operation == t.operation
      && (n.role == None <==> t.role == None || t.role == Some("")) && (n.role.Some? ==> n.role == t.role)
  {
    hide Trim, Sorting.Sorted;
    LeqOrders();
    var sorted := Sorting.Sort(Leq, t.dependencies);
    Sorting.SortSorts(Leq, t.dependencies);
    DedupOfSorted(sorted);
    DedupKeepsSorted(sorted);
    assert forall d :: d in sorted <==> d in multiset(sorted);
    assert forall d :: d in t.dependencies <==> d in multiset(t.dependencies);
  }

  lemma LeqOrders()
    ensures Sorting.IsOrder(Leq)
  {
    LeqIsOrder();
  }

  lemma {:induction false} DedupOfSorted(s: seq<string>)
    requires Sorting.Sorted(Leq, s)
    ensures NoRepeats(Dedup(s))
  {
    LeqIsOrder();
    if |s| >= 2 {
      DedupOfSorted(s[1..]);
      if s[0] != s[1] {
        assert forall x :: x in s[1..] ==> Leq(s[1], x) && x != s[0];
        assert s[0] !in Dedup(s[1..]);
      }
    }
  }

  lemma {:induction false} DedupKeepsSorted(s: seq<string>)
    requires Sorting.Sorted(Leq, s)
    ensures Sorting.Sorted(Leq, Dedup(s))
  {
    if |s| >= 2 {
      DedupKeepsSorted(s[1..]);
      if s[0] != s[1] {
        var rest := Dedup(s[1..]);
        forall i | 0 <= i < |rest|
          ensures Leq(s[0], rest[i])
        {
          assert rest[i] in s[1..];
        }
        Sorting.SortedCons(Leq, s[0], rest);
      }
    }
  }

  lemma {:induction false} DedupOfDistinct(s: seq<string>)
    requires NoRepeats(s)
    ensures Dedup(s) == s
  {
    if |s| >= 2 {
      DedupOfDistinct(s[1..]);
    }
  }

  /** Normalizing a normalized plan changes nothing. */
  lemma NormalizingTwiceIsNormalizing(plan: Plan)
    ensures NormalizedPlan(NormalizedPlan(plan)) == NormalizedPlan(plan)
  {
    hide Trim, Dedup, Sorting.Sort;
    forall k | 0 <= k < |plan.tasks|
      ensures NormalizedTask(NormalizedTask(plan.tasks[k])) == NormalizedTask(plan.tasks[k])
    {
      var t := plan.tasks[k];
      TrimTwice(t.id);
      TrimTwice(t.title);
      TrimTwice(t.objective);
      var sorted := Sorting.Sort(Leq, t.dependencies);
      LeqOrders();
      Sorting.SortSorts(Leq, t.dependencies);
      DedupOfSorted(sorted);
      DedupKeepsSorted(sorted);
      Sorting.SortOfSorted(Leq, Dedup(sorted));
      DedupOfDistinct(Dedup(sorted));
    }
  }

  // ---- What acceptance survives -----------------------------------------------------------------

  /** Two graphs with the same ids whose tasks name the same dependencies. */
  ghost predicate SameEdges<Id(!new)>(a: seq<Node<Id>>, b: seq<Node<Id>>) {
    && |a| == |b|
    && forall k :: 0 <= k < |a| ==> a[k].id == b[k].id && forall d :: d in a[k].deps <==> d in b[k].deps
  }

  lemma SameEdgesSchedulable<Id(!new)>(a: seq<Node<Id>>, b: seq<Node<Id>>)
    requires SameEdges(a, b) && KnownDeps(a) && NoSelfLoop(a) && !HasCycle(a)
    ensures KnownDeps(b) && NoSelfLoop(b) && !HasCycle(b)
  {
    assert Ids(b) == Ids(a) by { SameIds(a, b); SameIds(b, a); }
    forall n, d | n in b && d in n.deps
      ensures d in Ids(b) && n.id != d
    {
      var k :| 0 <= k < |b| && b[k] == n;
      assert a[k] in a && d in a[k].deps;
    }
    if HasCycle(b) {
      var p: seq<Id> :| |p| >= 2 && p[0] == p[|p| - 1] && IsPath(b, p);
      forall i | 0 <= i < |p| - 1
        ensures Edge(a, p[i], p[i + 1])
      {
        assert Edge(b, p[i], p[i + 1]);
        var n :| n in b && n.id == p[i + 1] && p[i] in n.deps;
        var k :| 0 <= k < |b| && b[k] == n;
        assert a[k] in a;
      }
      assert IsPath(a, p);
    }
  }

  lemma SameIds<Id(!new)>(a: seq<Node<Id>>, b: seq<Node<Id>>)
    requires |a| == |b| && forall k :: 0 <= k < |a| ==> a[k].id == b[k].id
    ensures Ids(a) <= Ids(b)
  {
    forall n | n in a
      ensures n.id in Ids(b)
    {
      var k :| 0 <= k < |a| && a[k] == n;
      assert b[k] in b;
    }
  }

  /** Normalizing an accepted plan leaves it acceptable. */
  lemma NormalizedPlanStaysAcceptable(plan: Plan)
    requires Acceptable(plan)
    ensures Acceptable(NormalizedPlan(plan))
  {
    hide Trim, KnownDeps, NoSelfLoop, HasCycle, NoRepeats, FieldsFilled, ForThePlanner, NormalizedTask;
    var tasks, after := plan.tasks, NormalizedPlan(plan).tasks;
    var a, b := Graph(tasks), Graph(after);
    forall k | 0 <= k < |tasks|
      ensures FieldsFilled(after[k]) && !ForThePlanner(after[k])
      ensures b[k].id == a[k].id && NoRepeats(b[k].deps) && forall d :: d in a[k].deps <==> d in b[k].deps
    {
      assert tasks[k] in tasks;
      NormalizedTaskKeeps(tasks[k]);
    }
    SameEdgesSchedulable(a, b);
  }

  lemma NormalizedTaskKeeps(t: PlannedTask)
    requires FieldsFilled(t) && !ForThePlanner(t)
    ensures var n := NormalizedTask(t);
            && FieldsFilled(n) && !ForThePlanner(n) && Trim(n.id) == Trim(t.id)
            && NoRepeats(n.dependencies) && forall d :: d in t.dependencies <==> d in n.dependencies
  {
    TrimTwice(t.id);
    TrimTwice(t.title);
    TrimTwice(t.objective);
    LeqOrders();
    Sorting.SortSorts(Leq, t.dependencies);
    DedupOfSorted(Sorting.Sort(Leq, t.dependencies));
  }

  /** A plan that names one dependency twice is refused, although normalizing it would drop
      the repetition. */
  lemma RepeatedDependencyIsRefused(plan: Plan, t: PlannedTask)
    requires t in plan.tasks && !NoRepeats(t.dependencies)
    ensures !Acceptable(plan)
    ensures NoRepeats(NormalizedTask(t).dependencies)
  {
    var k :| 0 <= k < |plan.tasks| && plan.tasks[k] == t;
    assert Graph(plan.tasks)[k] in Graph(plan.tasks);
    LeqOrders();
    Sorting.SortSorts(Leq, t.dependencies);
    DedupOfSorted(Sorting.Sort(Leq, t.dependencies));
  }

  // ---- The tasks of a run --------------------------------------------------------------------------

  datatype DagError = DependsOnItself | DependsOnUnknown | HasACycle

  /** The check of a run's task rows, whose ids are unique keys. */
  method ValidateTaskDag(tasks: seq<Node<int>>) returns (r: Result<(), DagError>)
    requires UniqueIds(tasks)
    ensures r.Ok? <==> Schedulable(tasks)
    ensures r == Err(DependsOnItself) ==> !NoSelfLoop(tasks)
    ensures r == Err(DependsOnUnknown) ==> !KnownDeps(tasks)
    ensures r == Err(HasACycle) ==> HasCycle(tasks) || !NoRepeatedDeps(tasks)
  {
    hide HasCycle, NoRepeatedDeps, Ids;
    var ids := Ids(tasks);
    for n := 0 to |tasks|
      invariant forall k :: 0 <= k < n ==> !NamesUnknown(tasks[k].deps, ids) && tasks[k].id !in tasks[k].deps
    {
      assert tasks[n] in tasks;
      if tasks[n].id in tasks[n].deps {
        return Err(DependsOnItself);
      }
      if NamesUnknown(tasks[n].deps, ids) {
        return Err(DependsOnUnknown);
      }
    }
    DependenciesChecked(tasks);
    var ok := AllSchedulable(tasks);
    return if ok then Ok(()) else Err(HasACycle);
  }

  /** The graph with every id replaced by its number. */
  function Renumbered(nodes: seq<Node<string>>, number: map<string, int>): seq<Node<int>>
    requires forall n :: n in nodes ==> n.id in number && forall d :: d in n.deps ==> d in number
  {
    seq(|nodes|, k requires 0 <= k < |nodes| =>
      Node(number[nodes[k].id], seq(|nodes[k].deps|, j requires 0 <= j < |nodes[k].deps| => number[nodes[k].deps[j]])))
  }

  ghost predicate Injective(number: map<string, int>) {
    forall a, b :: a in number && b in number && number[a] == number[b] ==> a == b
  }

  /** The rows made from a schedulable plan by giving each task a distinct number pass the
      run's own check. */
  lemma RenumberingStaysSchedulable(nodes: seq<Node<string>>, number: map<string, int>)
    requires UniqueIds(nodes) && Schedulable(nodes) && Injective(number)
    requires number.Keys == Ids(nodes)
    ensures forall n :: n in nodes ==> n.id in number && forall d :: d in n.deps ==> d in number
    ensures UniqueIds(Renumbered(nodes, number)) && Schedulable(Renumbered(nodes, number))
  {
    assert forall n :: n in nodes ==> n.id in number && forall d :: d in n.deps ==> d in number;
    var rows := Renumbered(nodes, number);
    forall r | r in rows
      ensures r.id !in r.deps && NoRepeats(r.deps) && forall d :: d in r.deps ==> d in Ids(rows)
    {
      var k :| 0 <= k < |rows| && rows[k] == r;
      RowKeeps(nodes, number, k);
    }
    if HasCycle(rows) {
      var p: seq<int> :| |p| >= 2 && p[0] == p[|p| - 1] && IsPath(rows, p);
      NamedCycle(nodes, number, p);
    }
  }

  /** An accepted plan, normalized and numbered, passes the check of the run's rows. */
  lemma AcceptedPlanPassesRunCheck(plan: Plan, number: map<string, int>)
    requires Acceptable(plan) && Injective(number)
    requires number.Keys == Ids(Graph(NormalizedPlan(plan).tasks))
    ensures var nodes := Graph(NormalizedPlan(plan).tasks);
            && (forall n :: n in nodes ==> n.id in number && forall d :: d in n.deps ==> d in number)
            && UniqueIds(Renumbered(nodes, number)) && Schedulable(Renumbered(nodes, number))
  {
    hide Schedulable, Injective, UniqueIds, FieldsFilled, Ids, Graph;
    NormalizedPlanStaysAcceptable(plan);
    RenumberingStaysSchedulable(Graph(NormalizedPlan(plan).tasks), number);
  }

  lemma RowKeeps(nodes: seq<Node<string>>, number: map<string, int>, k: nat)
    requires KnownDeps(nodes) && NoSelfLoop(nodes) && NoRepeatedDeps(nodes) && Injective(number)
    requires number.Keys == Ids(nodes) && k < |nodes|
    requires forall n :: n in nodes ==> n.id in number && forall d :: d in n.deps ==> d in number
    ensures var rows := Renumbered(nodes, number);
            var r := rows[k];
            r.id !in r.deps && NoRepeats(r.deps) && forall d :: d in r.deps ==> d in Ids(rows)
  {
    var rows, n := Renumbered(nodes, number), nodes[k];
    assert n in nodes && NoRepeats(n.deps);
    forall j | 0 <= j < |n.deps|
      ensures rows[k].deps[j] in Ids(rows) && rows[k].deps[j] != rows[k].id
    {
      assert n.deps[j] in n.deps && n.deps[j] in Ids(nodes);
      var m :| m in nodes && m.id == n.deps[j];
      var i :| 0 <= i < |nodes| && nodes[i] == m;
      assert rows[i] in rows;
    }
  }

  lemma NamedCycle(nodes: seq<Node<string>>, number: map<string, int>, p: seq<int>)
    requires Injective(number) && number.Keys == Ids(nodes)
    requires forall n :: n in nodes ==> n.id in number && forall d :: d in n.deps ==> d in number
    requires |p| >= 2 && p[0] == p[|p| - 1] && IsPath(Renumbered(nodes, number), p)
    ensures HasCycle(nodes)
  {
    hide Edge, Injective, Ids, Renumbered;
    var rows := Renumbered(nodes, number);
    var q := seq(|p|, i requires 0 <= i < |p| => if Named(number, p[i]) then Name(number, p[i]) else "");
    forall i | 0 <= i < |q| - 1
      ensures Edge(nodes, q[i], q[i + 1])
    {
      assert Edge(rows, p[i], p[i + 1]);
      NamedEdge(nodes, number, p[i], p[i + 1]);
    }
    assert |q| >= 2 && q[0] == q[|q| - 1];
  }

  lemma NamedEdge(nodes: seq<Node<string>>, number: map<string, int>, x: int, y: int)
    requires Injective(number)
    requires forall n :: n in nodes ==> n.id in number && forall d :: d in n.deps ==> d in number
    requires Edge(Renumbered(nodes, number), x, y)
    ensures Named(number, x) && Named(number, y) && Edge(nodes, Name(number, x), Name(number, y))
  {
    var rows := Renumbered(nodes, number);
    var r :| r in rows && r.id == y && x in r.deps;
    var k :| 0 <= k < |rows| && rows[k] == r;
    var j :| 0 <= j < |r.deps| && r.deps[j] == x;
    var n := nodes[k];
    assert n in nodes && n.deps[j] in n.deps;
    assert number[n.deps[j]] == x && number[n.id] == y;
    assert Name(number, x) == n.deps[j] && Name(number, y) == n.id;
  }

  ghost predicate Named(number: map<string, int>, x: int) {
    exists a :: a in number && number[a] == x
  }

  ghost function Name(number: map<string, int>, x: int): (a: string)
    requires Named(number, x)
    ensures a in number && number[a] == x
  {
    var a :| a in number && number[a] == x; a
  }
}
