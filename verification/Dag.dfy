/** Dependency graphs and the check that they can be scheduled. */
module Dag {
  /** One task of a graph with the ids it depends on. */
  datatype Node<Id> = Node(id: Id, deps: seq<Id>)

  function Ids<Id>(nodes: seq<Node<Id>>): set<Id> {
    set n | n in nodes :: n.id
  }

  ghost predicate UniqueIds<Id>(nodes: seq<Node<Id>>) {
    forall i, j :: 0 <= i < j < |nodes| ==> nodes[i].id != nodes[j].id
  }

  ghost predicate KnownDeps<Id>(nodes: seq<Node<Id>>) {
    forall n, d :: n in nodes && d in n.deps ==> d in Ids(nodes)
  }

  ghost predicate NoSelfLoop<Id>(nodes: seq<Node<Id>>) {
    forall n :: n in nodes ==> n.id !in n.deps
  }

  ghost predicate NoRepeats<T>(s: seq<T>) {
    forall i, j :: 0 <= i < j < |s| ==> s[i] != s[j]
  }

  ghost predicate NoRepeatedDeps<Id>(nodes: seq<Node<Id>>) {
    forall n :: n in nodes ==> NoRepeats(n.deps)
  }

  /** `b` depends directly on `a`. */
  ghost predicate Edge<Id>(nodes: seq<Node<Id>>, a: Id, b: Id) {
    exists n :: n in nodes && n.id == b && a in n.deps
  }

  /** Each element of `p` depends directly on the one before it. */
  ghost predicate IsPath<Id>(nodes: seq<Node<Id>>, p: seq<Id>) {
    forall i :: 0 <= i < |p| - 1 ==> Edge(nodes, p[i], p[i + 1])
  }

  ghost predicate HasCycle<Id(!new)>(nodes: seq<Node<Id>>) {
    exists p: seq<Id> :: |p| >= 2 && p[0] == p[|p| - 1] && IsPath(nodes, p)
  }

  // ---- Sets behind sequences ---------------------------------------------------------------

  function Elements<T>(s: seq<T>): set<T> {
    set x | x in s
  }

  /** A sequence has at least as many places as elements, and as many only without repeats. */
  lemma {:induction false} ElementCount<T>(s: seq<T>)
    ensures |Elements(s)| <= |s|
    ensures |Elements(s)| == |s| <==> NoRepeats(s)
  {
    if s == [] {
      assert Elements(s) == {};
    } else {
      var last := |s| - 1;
      ElementCount(s[..last]);
      assert s == s[..last] + [s[last]];
      assert Elements(s) == Elements(s[..last]) + {s[last]};
      if s[last] in s[..last] {
        var i :| 0 <= i < last && s[..last][i] == s[last];
        assert s[i] == s[last];
      }
    }
  }

  lemma {:induction false} SubsetCount<T>(a: set<T>, b: set<T>)
    requires a <= b
    ensures |a| <= |b| && (|a| == |b| ==> a == b)
  {
    assert b == a + (b - a);
  }

  lemma {:induction false} IdCount<Id>(nodes: seq<Node<Id>>)
    requires UniqueIds(nodes)
    ensures |Ids(nodes)| == |nodes|
  {
    if nodes == [] {
      assert Ids(nodes) == {};
    } else {
      var last := |nodes| - 1;
      IdCount(nodes[..last]);
      assert nodes == nodes[..last] + [nodes[last]];
      assert Ids(nodes) == Ids(nodes[..last]) + {nodes[last].id};
    }
  }

  // ---- Cycles and topological orders ----------------------------------------------------------

  /** Every element of `order` comes after everything it depends on. */
  ghost predicate Topological<Id(!new)>(nodes: seq<Node<Id>>, order: seq<Id>) {
    forall i, a :: 0 <= i < |order| && Edge(nodes, a, order[i]) ==> a in order[..i]
  }

  /** Along a path into a topological order, positions grow. */
  lemma {:induction false} PathClimbs<Id(!new)>(nodes: seq<Node<Id>>, order: seq<Id>, p: seq<Id>, at: nat)
    returns (first: nat)
    requires Topological(nodes, order) && IsPath(nodes, p) && p != []
    requires at < |order| && order[at] == p[|p| - 1]
    ensures first < |order| && order[first] == p[0] && first + |p| - 1 <= at
    decreases |p|
  {
    if |p| == 1 {
      first := at;
    } else {
      var init := p[..|p| - 1];
      assert Edge(nodes, p[|p| - 2], p[|p| - 1]);
      assert p[|p| - 2] in order[..at];
      var k :| 0 <= k < at && order[k] == p[|p| - 2];
      assert forall i :: 0 <= i < |init| - 1 ==> Edge(nodes, p[i], p[i + 1]);
      first := PathClimbs(nodes, order, init, k);
    }
  }

  lemma TopologicalHasNoCycle<Id(!new)>(nodes: seq<Node<Id>>, order: seq<Id>)
    requires Topological(nodes, order) && NoRepeats(order)
    requires forall id :: id in Ids(nodes) ==> id in order
    ensures !HasCycle(nodes)
  {
    if HasCycle(nodes) {
      var p: seq<Id> :| |p| >= 2 && p[0] == p[|p| - 1] && IsPath(nodes, p);
      assert Edge(nodes, p[|p| - 2], p[|p| - 2 + 1]);
      EdgeEndsInGraph(nodes, p[|p| - 2], p[|p| - 1]);
      var at :| 0 <= at < |order| && order[at] == p[|p| - 1];
      var first := PathClimbs(nodes, order, p, at);
      assert false;
    }
  }

  lemma EdgeEndsInGraph<Id>(nodes: seq<Node<Id>>, a: Id, b: Id)
    requires Edge(nodes, a, b)
    ensures b in Ids(nodes)
  {
    var n :| n in nodes && n.id == b && a in n.deps;
    assert n.id in Ids(nodes);
  }

  /** `x` depends directly on a member of `stuck`. */
  ghost predicate WaitsIn<Id(!new)>(nodes: seq<Node<Id>>, stuck: set<Id>, x: Id) {
    exists y :: y in stuck && Edge(nodes, y, x)
  }

  /** A path of any length can be traced backwards inside a set whose members all wait in it. */
  lemma {:induction false} TraceBack<Id(!new)>(nodes: seq<Node<Id>>, stuck: set<Id>, start: Id, length: nat)
    returns (p: seq<Id>)
    requires start in stuck && forall x :: x in stuck ==> WaitsIn(nodes, stuck, x)
    ensures |p| == length + 1 && IsPath(nodes, p) && forall i :: 0 <= i < |p| ==> p[i] in stuck
  {
    hide Edge, IsPath;
    if length == 0 {
      assert IsPath(nodes, [start]) by { PathOfOne(nodes, start); }
      p := [start];
    } else {
      var tail := TraceBack(nodes, stuck, start, length - 1);
      assert WaitsIn(nodes, stuck, tail[0]);
      var y :| y in stuck && Edge(nodes, y, tail[0]);
      p := [y] + tail;
      PathPrepend(nodes, y, tail);
    }
  }

  lemma PathOfOne<Id(!new)>(nodes: seq<Node<Id>>, x: Id)
    ensures IsPath(nodes, [x])
  {
  }

  lemma PathPrepend<Id(!new)>(nodes: seq<Node<Id>>, y: Id, tail: seq<Id>)
    requires tail != [] && IsPath(nodes, tail) && Edge(nodes, y, tail[0])
    ensures IsPath(nodes, [y] + tail)
  {
    hide Edge;
    var p := [y] + tail;
    forall i | 0 <= i < |p| - 1
      ensures Edge(nodes, p[i], p[i + 1])
    {
      if i > 0 {
        assert p[i] == tail[i - 1] && p[i + 1] == tail[i - 1 + 1];
      }
    }
  }

  lemma StuckHasCycle<Id(!new)>(nodes: seq<Node<Id>>, stuck: set<Id>)
    requires stuck != {} && forall x :: x in stuck ==> WaitsIn(nodes, stuck, x)
    ensures HasCycle(nodes)
  {
    hide Edge, WaitsIn;
    var start :| start in stuck;
    var p := TraceBack(nodes, stuck, start, |stuck|);
    RepeatIn(p, stuck);
    var i, j :| 0 <= i < j < |p| && p[i] == p[j];
    var q := p[i..j + 1];
    forall k | 0 <= k < |q| - 1
      ensures Edge(nodes, q[k], q[k + 1])
    {
      assert Edge(nodes, p[i + k], p[i + k + 1]);
    }
    assert |q| >= 2 && q[0] == q[|q| - 1] && IsPath(nodes, q);
  }

  /** A sequence longer than the set its elements come from repeats one. */
  lemma RepeatIn<T>(p: seq<T>, s: set<T>)
    requires |p| > |s| && forall i :: 0 <= i < |p| ==> p[i] in s
    ensures exists i, j :: 0 <= i < j < |p| && p[i] == p[j]
  {
    ElementCount(p);
    SubsetCount(Elements(p), s);
    assert !NoRepeats(p);
  }

  // ---- Kahn's algorithm ---------------------------------------------------------------------------

  /** The distinct dependencies already done. */
  ghost function Satisfied<Id>(deps: seq<Id>, done: set<Id>): set<Id> {
    set d | d in deps && d in done
  }

  lemma SatisfiedCount<Id>(deps: seq<Id>, done: set<Id>)
    ensures |Satisfied(deps, done)| <= |deps|
    ensures |Satisfied(deps, done)| == |deps| <==> NoRepeats(deps) && forall d :: d in deps ==> d in done
  {
    ElementCount(deps);
    SubsetCount(Satisfied(deps, done), Elements(deps));
    if Satisfied(deps, done) == Elements(deps) {
      assert forall d :: d in deps ==> d in Satisfied(deps, done) by {
        assert forall d :: d in deps ==> d in Elements(deps);
      }
    }
    if forall d :: d in deps ==> d in done {
      assert Satisfied(deps, done) == Elements(deps);
    }
  }

  lemma SatisfiedGrows<Id>(deps: seq<Id>, done: set<Id>, id: Id)
    requires id !in done
    ensures |Satisfied(deps, done + {id})| == |Satisfied(deps, done)| + if id in deps then 1 else 0
  {
    if id in deps {
      assert Satisfied(deps, done + {id}) == Satisfied(deps, done) + {id};
    } else {
      assert Satisfied(deps, done + {id}) == Satisfied(deps, done);
    }
  }

  /** The counters once the nodes before `upto` know that `id` is done and the others only know
      of `done`. */
  ghost predicate Counted<Id>(nodes: seq<Node<Id>>, indegree: map<Id, nat>, done: set<Id>, id: Id, upto: nat) {
    && indegree.Keys == Ids(nodes)
    && (forall k :: 0 <= k < |nodes| ==> (
          && nodes[k].id in indegree
          && indegree[nodes[k].id] + |Satisfied(nodes[k].deps, if k < upto then done + {id} else done)|
             == |nodes[k].deps|))
  }

  /** The queue holds exactly the nodes whose counter is zero and which are not done. */
  ghost predicate Queued<Id>(indegree: map<Id, nat>, queue: seq<Id>, done: set<Id>) {
    && NoRepeats(queue)
    && (forall x :: x in indegree ==> (indegree[x] == 0 <==> x in queue || x in done))
    && (forall x :: x in queue ==> x in indegree && x !in done)
  }

  lemma QueuePop<Id>(indegree: map<Id, nat>, queue: seq<Id>, done: set<Id>)
    requires Queued(indegree, queue, done) && queue != []
    ensures var id := queue[|queue| - 1];
            && id in indegree && indegree[id] == 0 && id !in done
            && Queued(indegree, queue[..|queue| - 1], done + {id})
  {
    var id, rest := queue[|queue| - 1], queue[..|queue| - 1];
    assert queue == rest + [id];
    assert id in queue;
    assert id !in rest;
  }

  lemma QueuePush<Id>(indegree: map<Id, nat>, queue: seq<Id>, done: set<Id>, x: Id)
    requires Queued(indegree, queue, done) && x in indegree && indegree[x] >= 1
    ensures var lower := indegree[x := indegree[x] - 1];
            Queued(lower, if lower[x] == 0 then queue + [x] else queue, done)
  {
    assert x !in queue && x !in done;
  }

  lemma CounterOf<Id>(nodes: seq<Node<Id>>, indegree: map<Id, nat>, done: set<Id>, id: Id, n: Node<Id>)
    requires Counted(nodes, indegree, done, id, 0) && n in nodes
    ensures n.id in indegree
    ensures indegree[n.id] == 0 <==> NoRepeats(n.deps) && forall d :: d in n.deps ==> d in done
  {
    SatisfiedCount(n.deps, done);
  }

  lemma CountedNext<Id>(nodes: seq<Node<Id>>, indegree: map<Id, nat>, done: set<Id>, id: Id, j: nat)
    requires UniqueIds(nodes) && j < |nodes| && id !in done && Counted(nodes, indegree, done, id, j)
    ensures id in nodes[j].deps ==>
              && nodes[j].id in indegree && indegree[nodes[j].id] >= 1
              && Counted(nodes, indegree[nodes[j].id := indegree[nodes[j].id] - 1], done, id, j + 1)
    ensures id !in nodes[j].deps ==> Counted(nodes, indegree, done, id, j + 1)
  {
    hide Satisfied, Ids;
    var deps := nodes[j].deps;
    SatisfiedGrows(deps, done, id);
    SatisfiedCount(deps, done + {id});
    assert nodes[j].id in indegree;
  }

  lemma CountedKeys<Id>(nodes: seq<Node<Id>>, indegree: map<Id, nat>, done: set<Id>, id: Id)
    requires Counted(nodes, indegree, done, id, 0)
    ensures indegree.Keys == Ids(nodes)
  {
  }

  lemma CountedRestart<Id>(nodes: seq<Node<Id>>, indegree: map<Id, nat>, done: set<Id>, id: Id, next: Id)
    requires Counted(nodes, indegree, done, id, |nodes|)
    ensures Counted(nodes, indegree, done + {id}, next, 0)
  {
  }

  lemma TopologicalNext<Id(!new)>(nodes: seq<Node<Id>>, indegree: map<Id, nat>, order: seq<Id>, id: Id)
    requires UniqueIds(nodes) && Topological(nodes, order) && NoRepeats(order) && id !in order
    requires Counted(nodes, indegree, Elements(order), id, 0) && id in indegree && indegree[id] == 0
    ensures Topological(nodes, order + [id]) && NoRepeats(order + [id])
    ensures Elements(order + [id]) == Elements(order) + {id}
  {
    hide Counted;
    var next := order + [id];
    forall i, a | 0 <= i < |next| && Edge(nodes, a, next[i])
      ensures a in next[..i]
    {
      if i < |order| {
        assert a in order[..i] && next[..i] == order[..i];
      } else {
        var n :| n in nodes && n.id == id && a in n.deps;
        CounterOf(nodes, indegree, Elements(order), id, n);
        assert a in Elements(order) && next[..i] == order;
      }
    }
  }

  lemma NothingOrdered<Id(!new)>(nodes: seq<Node<Id>>)
    ensures Topological(nodes, []) && NoRepeats<Id>([]) && Elements<Id>([]) == {}
  {
  }

  method InitialCounts<Id(==)>(nodes: seq<Node<Id>>) returns (indegree: map<Id, nat>)
    requires UniqueIds(nodes)
    ensures forall id :: Counted(nodes, indegree, {}, id, 0)
  {
    indegree := map[];
    for n := 0 to |nodes|
      invariant indegree.Keys == set k | 0 <= k < n :: nodes[k].id
      invariant forall k :: 0 <= k < n ==> nodes[k].id in indegree && indegree[nodes[k].id] == |nodes[k].deps|
    {
      indegree := indegree[nodes[n].id := |nodes[n].deps|];
    }
    assert indegree.Keys == Ids(nodes);
    assert forall k :: 0 <= k < |nodes| ==> Satisfied(nodes[k].deps, {}) == {};
  }

  /** The nodes without dependencies, in no particular order. */
  method InitialQueue<Id(==)>(indegree: map<Id, nat>) returns (queue: seq<Id>)
    ensures Queued(indegree, queue, {})
  {
    queue := [];
    var left := indegree.Keys;
    while left != {}
      invariant left <= indegree.Keys && NoRepeats(queue)
      invariant forall x :: x in queue <==> x in indegree.Keys - left && indegree[x] == 0
      decreases left
    {
      var id :| id in left;
      left := left - {id};
      if indegree[id] == 0 {
        queue := queue + [id];
      }
    }
  }

  /** Kahn's algorithm: whether every task can be scheduled after what it depends on. The order
      in which ready tasks are first met is the hash map's; it does not matter. A dependency
      named twice is counted twice and met once, so such a task is never scheduled. */
  method AllSchedulable<Id(==,!new)>(nodes: seq<Node<Id>>) returns (ok: bool)
    requires UniqueIds(nodes) && KnownDeps(nodes)
    ensures ok <==> NoRepeatedDeps(nodes) && !HasCycle(nodes)
  {
    hide Satisfied, Counted, Queued, Topological, HasCycle, KnownDeps, NoRepeatedDeps, UniqueIds, NoRepeats, Ids;
    var indegree := InitialCounts(nodes);
    var queue := InitialQueue(indegree);
    var visited := 0;
    ghost var order: seq<Id> := [];
    NothingOrdered(nodes);
    while queue != []
      invariant Queued(indegree, queue, Elements(order))
      invariant forall next :: Counted(nodes, indegree, Elements(order), next, 0)
      invariant Topological(nodes, order) && NoRepeats(order) && visited == |order|
      invariant forall x :: x in order ==> x in Ids(nodes)
      decreases |nodes| - visited
    {
      var id := queue[|queue| - 1];
      CountedKeys(nodes, indegree, Elements(order), id);
      ghost var done := Elements(order);
      QueuePop(indegree, queue, done);
      queue := queue[..|queue| - 1];
      TopologicalNext(nodes, indegree, order, id);
      order := order + [id];
      OrderedAreFew(nodes, order);
      visited := visited + 1;
      for j := 0 to |nodes|
        invariant Counted(nodes, indegree, done, id, j)
        invariant Queued(indegree, queue, done + {id})
      {
        CountedNext(nodes, indegree, done, id, j);
        if id in nodes[j].deps {
          QueuePush(indegree, queue, done + {id}, nodes[j].id);
          indegree := indegree[nodes[j].id := indegree[nodes[j].id] - 1];
          if indegree[nodes[j].id] == 0 {
            queue := queue + [nodes[j].id];
          }
        }
      }
      forall next
        ensures Counted(nodes, indegree, Elements(order), next, 0)
      {
        CountedRestart(nodes, indegree, done, id, next);
      }
    }
    ok := visited == |nodes|;
    Verdict(nodes, indegree, order);
  }

  lemma OrderedAreFew<Id(!new)>(nodes: seq<Node<Id>>, order: seq<Id>)
    requires UniqueIds(nodes) && NoRepeats(order) && forall x :: x in order ==> x in Ids(nodes)
    ensures |order| <= |nodes|
  {
    ElementCount(order);
    IdCount(nodes);
    SubsetCount(Elements(order), Ids(nodes));
  }

  /** When the queue is empty, all nodes are ordered exactly when the graph has no cycle and no
      repeated dependency. */
  lemma Verdict<Id(!new)>(nodes: seq<Node<Id>>, indegree: map<Id, nat>, order: seq<Id>)
    requires UniqueIds(nodes) && KnownDeps(nodes)
    requires forall next :: Counted(nodes, indegree, Elements(order), next, 0)
    requires Queued(indegree, [], Elements(order)) && Topological(nodes, order) && NoRepeats(order)
    requires forall x :: x in order ==> x in Ids(nodes)
    ensures |order| == |nodes| <==> NoRepeatedDeps(nodes) && !HasCycle(nodes)
  {
    hide Counted, Topological, HasCycle, NoRepeats, KnownDeps, Queued;
    var done := Elements(order);
    ElementCount(order);
    IdCount(nodes);
    SubsetCount(done, Ids(nodes));
    forall n | n in nodes
      ensures n.id in done <==> NoRepeats(n.deps) && forall d :: d in n.deps ==> d in done
    {
      CounterOf(nodes, indegree, done, n.id, n);
      DoneIffZero(indegree, done, n.id);
    }
    if |order| == |nodes| {
      assert forall n :: n in nodes ==> n.id in Ids(nodes);
      TopologicalHasNoCycle(nodes, order);
    } else if NoRepeatedDeps(nodes) {
      LeftoverHasCycle(nodes, done);
    }
  }

  lemma DoneIffZero<Id>(indegree: map<Id, nat>, done: set<Id>, x: Id)
    requires Queued(indegree, [], done) && x in indegree
    ensures indegree[x] == 0 <==> x in done
  {
  }

  lemma LeftoverHasCycle<Id(!new)>(nodes: seq<Node<Id>>, done: set<Id>)
    requires KnownDeps(nodes) && done != Ids(nodes) && done <= Ids(nodes)
    requires forall n :: n in nodes && n.id !in done ==> exists d :: d in n.deps && d !in done
    ensures HasCycle(nodes)
  {
    hide KnownDeps, WaitsIn, HasCycle;
    var stuck := Ids(nodes) - done;
    assert Ids(nodes) == stuck + done;
    forall x | x in stuck
      ensures WaitsIn(nodes, stuck, x)
    {
      LeftoverNodeWaits(nodes, done, x);
    }
    StuckHasCycle(nodes, stuck);
  }

  lemma LeftoverNodeWaits<Id(!new)>(nodes: seq<Node<Id>>, done: set<Id>, x: Id)
    requires KnownDeps(nodes) && x in Ids(nodes) && x !in done
    requires forall n :: n in nodes && n.id !in done ==> exists d :: d in n.deps && d !in done
    ensures WaitsIn(nodes, Ids(nodes) - done, x)
  {
    hide KnownDeps, WaitsIn;
    var n :| n in nodes && n.id == x;
    LeftoverWaits(nodes, done, n);
  }

  lemma LeftoverWaits<Id(!new)>(nodes: seq<Node<Id>>, done: set<Id>, n: Node<Id>)
    requires KnownDeps(nodes) && n in nodes && exists d :: d in n.deps && d !in done
    ensures WaitsIn(nodes, Ids(nodes) - done, n.id)
  {
    var d :| d in n.deps && d !in done;
    assert Edge(nodes, d, n.id);
  }
}
