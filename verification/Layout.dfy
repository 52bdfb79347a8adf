/** Placing the task graph of a run in columns by dependency depth. */
module Layout {
  import opened Dag

  const NODE_WIDTH: nat := 210
  const NODE_HEIGHT: nat := 44
  const LEVEL_GAP: nat := 70
  const VERTICAL_GAP: nat := 16

  /** A task as the layout reads it: its id and its dependencies. */
  type Task = Node<int>

  datatype NodePosition = NodePosition(id: int, x: int, y: int, level: nat)

  datatype GraphEdge = GraphEdge(source: int, target: int)

  datatype GraphLayout = GraphLayout(nodes: seq<NodePosition>, edges: seq<GraphEdge>, width: int, height: int)

  // ---- Depth -----------------------------------------------------------------------------------

  ghost predicate PathTo(tasks: seq<Task>, p: seq<int>, id: int) {
    p != [] && p[|p| - 1] == id && IsPath(tasks, p)
  }

  /** The longest dependency path that ends at `id` has `n` edges. A dependency outside the list
      starts a path like any other. */
  ghost predicate IsDepth(tasks: seq<Task>, id: int, n: nat) {
    && (exists p :: PathTo(tasks, p, id) && |p| == n + 1)
    && (forall p :: PathTo(tasks, p, id) ==> |p| <= n + 1)
  }

  lemma DepthIsUnique(tasks: seq<Task>, id: int, m: nat, n: nat)
    requires IsDepth(tasks, id, m) && IsDepth(tasks, id, n)
    ensures m == n
  {}

  lemma PathExtends(tasks: seq<Task>, p: seq<int>, id: int, target: int)
    requires PathTo(tasks, p, id) && Edge(tasks, id, target)
    ensures PathTo(tasks, p + [target], target)
  {
    var q := p + [target];
    forall i | 0 <= i < |q| - 1
      ensures Edge(tasks, q[i], q[i + 1])
    {
      if i < |p| - 1 {
        assert q[i] == p[i] && q[i + 1] == p[i + 1];
      } else {
        assert q[i] == id && q[i + 1] == target;
      }
    }
  }

  lemma PathShortens(tasks: seq<Task>, p: seq<int>, id: int)
    requires PathTo(tasks, p, id) && |p| >= 2
    ensures Edge(tasks, p[|p| - 2], id) && PathTo(tasks, p[..|p| - 1], p[|p| - 2])
  {
    var i := |p| - 2;
    assert Edge(tasks, p[i], p[i + 1]);
    var q := p[..|p| - 1];
    forall j | 0 <= j < |q| - 1
      ensures Edge(tasks, q[j], q[j + 1])
    {
      assert Edge(tasks, p[j], p[j + 1]);
    }
  }

  /** A task is strictly deeper than what it depends on. */
  lemma EdgeDescends(tasks: seq<Task>, source: int, target: int, m: nat, n: nat)
    requires Edge(tasks, source, target) && IsDepth(tasks, source, m) && IsDepth(tasks, target, n)
    ensures m < n
  {
    var p :| PathTo(tasks, p, source) && |p| == m + 1;
    PathExtends(tasks, p, source, target);
  }

  /** An id without dependencies has depth zero. */
  lemma RootHasDepthZero(tasks: seq<Task>, id: int)
    requires forall a :: !Edge(tasks, a, id)
    ensures IsDepth(tasks, id, 0)
  {
    assert PathTo(tasks, [id], id);
    forall p | PathTo(tasks, p, id)
      ensures |p| <= 1
    {
      if |p| >= 2 {
        PathShortens(tasks, p, id);
      }
    }
  }

  /** `max` is one more than the depth of the deepest of the dependencies, or zero. */
  ghost predicate DeepestOf(tasks: seq<Task>, deps: seq<int>, max: nat) {
    && (forall d :: d in deps ==> exists m: nat :: IsDepth(tasks, d, m) && m + 1 <= max)
    && (max > 0 ==> exists d :: d in deps && IsDepth(tasks, d, max - 1))
  }

  lemma DepthFromDependencies(tasks: seq<Task>, t: Task, max: nat)
    requires UniqueIds(tasks) && t in tasks && DeepestOf(tasks, t.deps, max)
    ensures IsDepth(tasks, t.id, max)
  {
    if max == 0 {
      assert PathTo(tasks, [t.id], t.id);
    } else {
      var d :| d in t.deps && IsDepth(tasks, d, max - 1);
      var p :| PathTo(tasks, p, d) && |p| == max;
      assert Edge(tasks, d, t.id);
      PathExtends(tasks, p, d, t.id);
      assert |p + [t.id]| == max + 1;
    }
    forall p | PathTo(tasks, p, t.id)
      ensures |p| <= max + 1
    {
      if |p| >= 2 {
        PathShortens(tasks, p, t.id);
        var n :| n in tasks && n.id == t.id && p[|p| - 2] in n.deps;
        OneTask(tasks, n, t);
        var d := p[|p| - 2];
        var m: nat :| IsDepth(tasks, d, m) && m + 1 <= max;
        assert |p[..|p| - 1]| <= m + 1;
      }
    }
  }

  lemma OneTask(tasks: seq<Task>, t: Task, u: Task)
    requires UniqueIds(tasks) && t in tasks && u in tasks && t.id == u.id
    ensures t == u
  {
    var i, j :| 0 <= i < |tasks| && 0 <= j < |tasks| && tasks[i] == t && tasks[j] == u;
    assert i == j;
  }

  // ---- Why the recursion ends ------------------------------------------------------------

  /** The ids the recursion is inside of, the current one first: each depends on the one before
      it, none repeats, and all but the current one are known. */
  ghost predicate Trail(tasks: seq<Task>, id: int, trail: seq<int>) {
    && trail != [] && trail[0] == id
    && IsPath(tasks, trail) && NoRepeats(trail)
    && forall i :: 1 <= i < |trail| ==> trail[i] in Ids(tasks)
  }

  lemma TrailIsShort(tasks: seq<Task>, id: int, trail: seq<int>)
    requires Trail(tasks, id, trail)
    ensures |trail| <= |Ids(tasks)| + 1
  {
    var tail := trail[1..];
    assert forall i :: 0 <= i < |tail| ==> tail[i] == trail[i + 1];
    assert NoRepeats(tail);
    ElementCount(tail);
    forall x | x in Elements(tail)
      ensures x in Ids(tasks)
    {
      var i :| 0 <= i < |tail| && tail[i] == x;
      assert trail[i + 1] == x;
    }
    SubsetCount(Elements(tail), Ids(tasks));
  }

  lemma TrailGrows(tasks: seq<Task>, id: int, trail: seq<int>, d: int)
    requires !HasCycle(tasks) && Trail(tasks, id, trail) && id in Ids(tasks) && Edge(tasks, d, id)
    ensures Trail(tasks, d, [d] + trail)
  {
    var longer := [d] + trail;
    forall i | 0 <= i < |longer| - 1
      ensures Edge(tasks, longer[i], longer[i + 1])
    {
      if i > 0 {
        assert longer[i] == trail[i - 1] && longer[i + 1] == trail[i - 1 + 1];
      }
    }
    if d in trail {
      var j :| 0 <= j < |trail| && trail[j] == d;
      ClosedTrail(tasks, longer, j + 1);
    }
    assert forall i :: 1 <= i < |longer| ==> longer[i] == trail[i - 1];
  }

  lemma ClosedTrail(tasks: seq<Task>, p: seq<int>, j: nat)
    requires IsPath(tasks, p) && 0 < j < |p| && p[j] == p[0]
    ensures HasCycle(tasks)
  {
    var q := p[..j + 1];
    forall i | 0 <= i < |q| - 1
      ensures Edge(tasks, q[i], q[i + 1])
    {
      assert Edge(tasks, p[i], p[i + 1]);
    }
  }

  lemma UnknownHasDepthZero(tasks: seq<Task>, id: int)
    requires id !in Ids(tasks)
    ensures IsDepth(tasks, id, 0)
  {
    RootHasDepthZero(tasks, id);
  }

  ghost predicate Indexes(byId: map<int, Task>, tasks: seq<Task>) {
    byId.Keys == Ids(tasks) && forall id :: id in byId ==> byId[id].id == id && byId[id] in tasks
  }

  /** The memo map of levels, filled on demand. */
  class Levels {
    const tasks: seq<Task>
    const byId: map<int, Task>
    var level: map<int, nat>

    constructor (tasks: seq<Task>)
      ensures Valid() && this.tasks == tasks && level == map[]
    {
      this.tasks := tasks;
      level := map[];
      var index: map<int, Task> := map[];
      for i := 0 to |tasks|
        invariant Indexes(index, tasks[..i])
      {
        assert tasks[..i + 1] == tasks[..i] + [tasks[i]];
        index := index[tasks[i].id := tasks[i]];
      }
      assert tasks[..|tasks|] == tasks;
      byId := index;
    }

    ghost predicate Valid()
      reads this
    {
      && Indexes(byId, tasks)
      && forall id :: id in level ==> id in byId && IsDepth(tasks, id, level[id])
    }

    /** The level of `id` is its depth, whether remembered or computed. */
    method AssignLevel(id: int, ghost trail: seq<int>) returns (n: nat)
      requires Valid() && UniqueIds(tasks) && !HasCycle(tasks)
      requires Trail(tasks, id, trail)
      modifies this`level
      ensures Valid() && IsDepth(tasks, id, n)
      ensures old(level).Keys <= level.Keys
      ensures id in byId ==> id in level
      decreases |Ids(tasks)| + 1 - |trail|
    {
      hide IsDepth, HasCycle, UniqueIds, Trail;
      TrailIsShort(tasks, id, trail);
      if id in level { return level[id]; }
      if id !in byId {
        UnknownHasDepthZero(tasks, id);
        return 0;
      }
      var task := byId[id];
      n := 0;
      NoDependencies(tasks);
      for i := 0 to |task.deps|
        invariant Valid() && DeepestOf(tasks, task.deps[..i], n)
        invariant old(level).Keys <= level.Keys
      {
        var dep := task.deps[i];
        assert Edge(tasks, dep, id);
        TrailGrows(tasks, id, trail, dep);
        var m := AssignLevel(dep, [dep] + trail);
        DeeperBy(tasks, task.deps[..i], n, dep, m);
        assert task.deps[..i + 1] == task.deps[..i] + [dep];
        n := if m + 1 > n then m + 1 else n;
      }
      assert task.deps[..|task.deps|] == task.deps;
      DepthFromDependencies(tasks, task, n);
      level := level[id := n];
    }
  }

  lemma NoDependencies(tasks: seq<Task>)
    ensures DeepestOf(tasks, [], 0)
  {}

  lemma DeeperBy(tasks: seq<Task>, deps: seq<int>, max: nat, d: int, m: nat)
    requires DeepestOf(tasks, deps, max) && IsDepth(tasks, d, m)
    ensures DeepestOf(tasks, deps + [d], if m + 1 > max then m + 1 else max)
  {
    hide IsDepth;
    var deps', max' := deps + [d], if m + 1 > max then m + 1 else max;
    forall e | e in deps'
      ensures exists k: nat :: IsDepth(tasks, e, k) && k + 1 <= max'
    {
      if e in deps {
        var k: nat :| IsDepth(tasks, e, k) && k + 1 <= max;
      } else {
        assert e == d && IsDepth(tasks, d, m);
      }
    }
    if m + 1 > max {
      assert d in deps' && IsDepth(tasks, d, max' - 1);
    } else {
      var e :| e in deps && IsDepth(tasks, e, max - 1);
      assert e in deps';
    }
  }

  // ---- Columns ---------------------------------------------------------------------------------

  /** The ids of one level, in their order in the list. */
  function OfLevel(ids: seq<int>, level: map<int, nat>, l: nat): seq<int> {
    if ids == [] then []
    else
      var id := ids[|ids| - 1];
      OfLevel(ids[..|ids| - 1], level, l) + if id in level && level[id] == l then [id] else []
  }

  lemma {:induction false} OfLevelMembers(ids: seq<int>, level: map<int, nat>, l: nat)
    ensures forall id :: id in OfLevel(ids, level, l) <==> id in ids && id in level && level[id] == l
    ensures NoRepeats(ids) ==> NoRepeats(OfLevel(ids, level, l))
  {
    if ids != [] {
      var rest, id := ids[..|ids| - 1], ids[|ids| - 1];
      assert ids == rest + [id];
      OfLevelMembers(rest, level, l);
      if NoRepeats(ids) {
        assert id !in rest;
      }
    }
  }

  ghost predicate Bucketed(ids: seq<int>, level: map<int, nat>, order: seq<nat>, buckets: map<nat, seq<int>>) {
    && NoRepeats(order)
    && (forall l :: l in order <==> l in buckets)
    && (forall id :: id in ids ==> id in level && level[id] in buckets)
    && Filled(ids, level, buckets)
  }

  /** Each bucket holds the ids of its level. */
  ghost predicate Filled(ids: seq<int>, level: map<int, nat>, buckets: map<nat, seq<int>>) {
    forall l :: l in buckets ==> buckets[l] != [] && buckets[l] == OfLevel(ids, level, l)
  }

  lemma EmptyWithoutMembers(s: seq<int>)
    ensures (forall x :: x !in s) <==> s == []
  {
    if s != [] {
      var x := s[0];
      assert x in s;
    }
  }

  lemma PutInBucket(ids: seq<int>, level: map<int, nat>, order: seq<nat>, buckets: map<nat, seq<int>>, id: int)
    requires Bucketed(ids, level, order, buckets) && id in level
    ensures var l := level[id];
      Bucketed(ids + [id], level, if l in buckets then order else order + [l],
               buckets[l := (if l in buckets then buckets[l] else []) + [id]])
  {
    hide Filled, NoRepeats;
    var l := level[id];
    assert forall x :: x in ids + [id] <==> x in ids || x == id;
    if l !in buckets { NewLevel(order, l); }
    PutKeepsFilled(ids, level, buckets, id);
  }

  lemma NewLevel(order: seq<nat>, l: nat)
    requires NoRepeats(order) && l !in order
    ensures NoRepeats(order + [l])
  {}

  lemma PutKeepsFilled(ids: seq<int>, level: map<int, nat>, buckets: map<nat, seq<int>>, id: int)
    requires Filled(ids, level, buckets) && id in level
    requires forall x :: x in ids ==> x in level && level[x] in buckets
    ensures var l := level[id];
      Filled(ids + [id], level, buckets[l := (if l in buckets then buckets[l] else []) + [id]])
  {
    var l := level[id];
    OfLevelGrows(ids, level, id);
    if l !in buckets {
      OfLevelMembers(ids, level, l);
      EmptyWithoutMembers(OfLevel(ids, level, l));
    }
    hide OfLevel;
  }

  lemma OfLevelGrows(ids: seq<int>, level: map<int, nat>, id: int)
    requires id in level
    ensures OfLevel(ids + [id], level, level[id]) == OfLevel(ids, level, level[id]) + [id]
    ensures forall l :: l != level[id] ==> OfLevel(ids + [id], level, l) == OfLevel(ids, level, l)
  {
    assert (ids + [id])[..|ids|] == ids;
  }

  function Placed(id: int, l: nat, k: nat): NodePosition {
    NodePosition(id, l * (NODE_WIDTH + LEVEL_GAP), k * (NODE_HEIGHT + VERTICAL_GAP), l)
  }

  function Column(ids: seq<int>, l: nat): seq<NodePosition> {
    seq(|ids|, k requires 0 <= k < |ids| => Placed(ids[k], l, k))
  }

  function Columns(order: seq<nat>, buckets: map<nat, seq<int>>): seq<NodePosition>
    requires forall l :: l in order ==> l in buckets
  {
    if order == [] then []
    else
      var l := order[|order| - 1];
      Columns(order[..|order| - 1], buckets) + (assert l in order; Column(buckets[l], l))
  }

  /** Where a node of the columns stands. */
  ghost predicate Stands(n: NodePosition, order: seq<nat>, buckets: map<nat, seq<int>>) {
    && n.level in order && n.level in buckets
    && exists k :: 0 <= k < |buckets[n.level]| && n == Placed(buckets[n.level][k], n.level, k)
  }

  lemma {:induction false} ColumnsStand(order: seq<nat>, buckets: map<nat, seq<int>>)
    requires forall l :: l in order ==> l in buckets
    ensures forall i :: 0 <= i < |Columns(order, buckets)| ==> Stands(Columns(order, buckets)[i], order, buckets)
    ensures forall l, k :: l in order && 0 <= k < |buckets[l]| ==>
      Placed(buckets[l][k], l, k) in Columns(order, buckets)
  {
    if order != [] {
      var rest, last := order[..|order| - 1], order[|order| - 1];
      assert order == rest + [last];
      ColumnsStand(rest, buckets);
      var column := Column(buckets[last], last);
      assert forall k :: 0 <= k < |column| ==> column[k] == Placed(buckets[last][k], last, k) && column[k] in column;
    }
  }

  /** Two nodes are in different columns, or one is below the other and for another task. */
  predicate Apart(a: NodePosition, b: NodePosition) {
    a.level != b.level || (a.id != b.id && a.y + NODE_HEIGHT + VERTICAL_GAP <= b.y)
  }

  ghost predicate AllApart(nodes: seq<NodePosition>) {
    forall i, j :: 0 <= i < j < |nodes| ==> Apart(nodes[i], nodes[j])
  }

  lemma {:induction false} ColumnsApart(order: seq<nat>, buckets: map<nat, seq<int>>)
    requires forall l :: l in order ==> l in buckets && NoRepeats(buckets[l])
    requires NoRepeats(order)
    ensures AllApart(Columns(order, buckets))
  {
    if order != [] {
      var rest, last := order[..|order| - 1], order[|order| - 1];
      assert order == rest + [last];
      assert last !in rest;
      ColumnsApart(rest, buckets);
      ColumnsStand(rest, buckets);
      var column := Column(buckets[last], last);
      assert forall i, j :: 0 <= i < j < |column| ==> Apart(column[i], column[j]);
    }
  }

  // ---- Edges -------------------------------------------------------------------------------------

  function EdgesOf(tasks: seq<Task>): seq<GraphEdge> {
    if tasks == [] then []
    else EdgesOf(tasks[..|tasks| - 1]) + EdgesInto(tasks[|tasks| - 1].deps, tasks[|tasks| - 1].id)
  }

  function EdgesInto(deps: seq<int>, id: int): seq<GraphEdge> {
    seq(|deps|, i requires 0 <= i < |deps| => GraphEdge(deps[i], id))
  }

  lemma {:induction false} EdgesAreEdges(tasks: seq<Task>)
    ensures forall e :: e in EdgesOf(tasks) <==> Edge(tasks, e.source, e.target)
  {
    if tasks != [] {
      var rest, t := tasks[..|tasks| - 1], tasks[|tasks| - 1];
      assert tasks == rest + [t];
      EdgesAreEdges(rest);
      EdgesIntoMembers(t.deps, t.id);
      forall e
        ensures e in EdgesOf(tasks) <==> Edge(tasks, e.source, e.target)
      {
        assert e in EdgesOf(tasks) <==> e in EdgesOf(rest) || e in EdgesInto(t.deps, t.id);
        assert t in tasks;
      }
    }
  }

  lemma EdgesIntoMembers(deps: seq<int>, id: int)
    ensures forall e :: e in EdgesInto(deps, id) <==> e.target == id && e.source in deps
  {
    forall e: GraphEdge | e.target == id && e.source in deps
      ensures e in EdgesInto(deps, id)
    {
      var i :| 0 <= i < |deps| && deps[i] == e.source;
      assert EdgesInto(deps, id)[i] == e;
    }
  }

  // ---- The layout ----------------------------------------------------------------------------

  predicate Overlap(a: NodePosition, b: NodePosition) {
    && a.x < b.x + NODE_WIDTH && b.x < a.x + NODE_WIDTH
    && a.y < b.y + NODE_HEIGHT && b.y < a.y + NODE_HEIGHT
  }

  predicate Inside(n: NodePosition, width: int, height: int) {
    0 <= n.x && n.x + NODE_WIDTH <= width && 0 <= n.y && n.y + NODE_HEIGHT <= height
  }

  /** Every task stands once, in the column of its depth. */
  ghost predicate PlacesEveryTask(tasks: seq<Task>, nodes: seq<NodePosition>) {
    && (forall t :: t in tasks ==> exists n :: n in nodes && n.id == t.id)
    && (forall n :: n in nodes ==> n.id in Ids(tasks) && IsDepth(tasks, n.id, n.level))
    && (forall i, j :: 0 <= i < j < |nodes| ==> nodes[i].id != nodes[j].id)
  }

  ghost predicate FreeOfOverlap(nodes: seq<NodePosition>) {
    forall i, j :: 0 <= i < j < |nodes| ==> !Overlap(nodes[i], nodes[j])
  }

  /** The reported size is no larger than the nodes need, and one node's when there are none. */
  ghost predicate Tight(nodes: seq<NodePosition>, width: int, height: int) {
    if nodes == [] then width == NODE_WIDTH && height == NODE_HEIGHT
    else
      && (exists n :: n in nodes && n.x + NODE_WIDTH == width)
      && (exists n :: n in nodes && n.y + NODE_HEIGHT == height)
  }

  /** The size is that of the last column and of the fullest one. */
  ghost predicate Fits(order: seq<nat>, buckets: map<nat, seq<int>>, width: int, height: int)
    requires forall l :: l in order ==> l in buckets
  {
    if order == [] then width == NODE_WIDTH && height == NODE_HEIGHT
    else
      && (exists l :: l in order && l * (NODE_WIDTH + LEVEL_GAP) + NODE_WIDTH == width)
      && (exists l :: l in order && |buckets[l]| * (NODE_HEIGHT + VERTICAL_GAP) - VERTICAL_GAP == height)
  }

  lemma FitsTightly(order: seq<nat>, buckets: map<nat, seq<int>>, width: int, height: int)
    requires forall l :: l in order ==> l in buckets && buckets[l] != []
    requires Fits(order, buckets, width, height)
    ensures Tight(Columns(order, buckets), width, height)
  {
    ColumnsStand(order, buckets);
    var nodes := Columns(order, buckets);
    if order != [] {
      var last :| last in order && last * (NODE_WIDTH + LEVEL_GAP) + NODE_WIDTH == width;
      assert Placed(buckets[last][0], last, 0) in nodes;
      var full :| full in order && |buckets[full]| * (NODE_HEIGHT + VERTICAL_GAP) - VERTICAL_GAP == height;
      var k := |buckets[full]| - 1;
      assert Placed(buckets[full][k], full, k) in nodes;
    }
  }

  /** An edge between two placed tasks runs to a column further right. */
  predicate RunsForward(e: GraphEdge, a: NodePosition, b: NodePosition) {
    a.id == e.source && b.id == e.target ==> a.level < b.level && a.x + NODE_WIDTH < b.x
  }

  // ---- What the columns have to do with the tasks ----------------------------------------

  lemma BucketsKnown(ids: seq<int>, level: map<int, nat>, order: seq<nat>, buckets: map<nat, seq<int>>)
    requires Bucketed(ids, level, order, buckets) && NoRepeats(ids)
    ensures NoRepeats(order) && forall l :: l in order ==> l in buckets && buckets[l] != [] && NoRepeats(buckets[l])
    ensures forall l, id :: l in order && id in buckets[l] ==> id in ids && id in level && level[id] == l
    ensures forall id :: id in ids ==> id in level && level[id] in order && id in buckets[level[id]]
  {
    forall l | l in order
      ensures l in buckets && NoRepeats(buckets[l])
      ensures forall id :: id in buckets[l] <==> id in ids && id in level && level[id] == l
    {
      OfLevelMembers(ids, level, l);
    }
  }

  /** A node of the columns is a task of that level, inside the extent. */
  lemma NodeOfColumns(ids: seq<int>, level: map<int, nat>, order: seq<nat>, buckets: map<nat, seq<int>>,
                      width: int, height: int, n: NodePosition)
    requires Bucketed(ids, level, order, buckets) && NoRepeats(ids) && Covers(order, buckets, width, height)
    requires Stands(n, order, buckets)
    ensures n.id in ids && n.id in level && level[n.id] == n.level && Inside(n, width, height)
    ensures n.x == n.level * (NODE_WIDTH + LEVEL_GAP)
  {
    hide Bucketed, NoRepeats;
    BucketsKnown(ids, level, order, buckets);
    var k :| 0 <= k < |buckets[n.level]| && n == Placed(buckets[n.level][k], n.level, k);
    assert n.id in buckets[n.level];
    var i :| 0 <= i < |order| && order[i] == n.level;
    assert n.level * (NODE_WIDTH + LEVEL_GAP) + NODE_WIDTH <= width;
  }

  lemma NodesAreApart(ids: seq<int>, level: map<int, nat>, order: seq<nat>, buckets: map<nat, seq<int>>,
                      nodes: seq<NodePosition>)
    requires AllApart(nodes)
    requires forall n :: n in nodes ==>
      n.id in level && level[n.id] == n.level && n.x == n.level * (NODE_WIDTH + LEVEL_GAP)
    ensures FreeOfOverlap(nodes)
    ensures forall i, j :: 0 <= i < j < |nodes| ==> nodes[i].id != nodes[j].id
  {
    forall i, j | 0 <= i < j < |nodes|
      ensures !Overlap(nodes[i], nodes[j]) && nodes[i].id != nodes[j].id
    {
      assert Apart(nodes[i], nodes[j]) && nodes[i] in nodes && nodes[j] in nodes;
    }
  }

  lemma IdsDiffer(tasks: seq<Task>)
    requires UniqueIds(tasks)
    ensures NoRepeats(IdList(tasks))
    ensures forall id :: id in IdList(tasks) <==> id in Ids(tasks)
  {
    forall id | id in Ids(tasks)
      ensures id in IdList(tasks)
    {
      var t :| t in tasks && t.id == id;
      var i :| 0 <= i < |tasks| && tasks[i] == t;
      assert IdList(tasks)[i] == id;
    }
    forall id | id in IdList(tasks)
      ensures id in Ids(tasks)
    {
      var i :| 0 <= i < |tasks| && IdList(tasks)[i] == id;
      assert tasks[i] in tasks;
    }
  }

  ghost predicate KnowsDepths(tasks: seq<Task>, level: map<int, nat>) {
    forall id :: id in level ==> IsDepth(tasks, id, level[id])
  }

  lemma LayoutIsSound(tasks: seq<Task>, level: map<int, nat>, order: seq<nat>, buckets: map<nat, seq<int>>,
                      width: int, height: int)
    requires UniqueIds(tasks) && KnowsDepths(tasks, level)
    requires Bucketed(IdList(tasks), level, order, buckets) && Covers(order, buckets, width, height)
    ensures forall l :: l in order ==> l in buckets
    ensures var nodes := Columns(order, buckets);
      && PlacesEveryTask(tasks, nodes) && FreeOfOverlap(nodes)
      && (forall n :: n in nodes ==> Inside(n, width, height))
      && (forall e, a, b :: e in EdgesOf(tasks) && a in nodes && b in nodes ==> RunsForward(e, a, b))
  {
    hide Bucketed, Covers, IsDepth, UniqueIds, Columns, EdgesOf, Stands, Apart, FreeOfOverlap, NoRepeats, Edge, Inside,
         AllApart;
    var ids := IdList(tasks);
    IdsDiffer(tasks);
    BucketsKnown(ids, level, order, buckets);
    var nodes := Columns(order, buckets);
    ColumnsStand(order, buckets);
    ColumnsApart(order, buckets);
    forall n | n in nodes
      ensures n.id in ids && n.id in level && level[n.id] == n.level && Inside(n, width, height)
      ensures n.x == n.level * (NODE_WIDTH + LEVEL_GAP)
    {
      NodeOfColumns(ids, level, order, buckets, width, height, n);
    }
    NodesAreApart(ids, level, order, buckets, nodes);
    forall t | t in tasks
      ensures exists n :: n in nodes && n.id == t.id
    {
      TaskHasNode(ids, level, order, buckets, t.id);
    }
    forall e, a, b | e in EdgesOf(tasks) && a in nodes && b in nodes
      ensures RunsForward(e, a, b)
    {
      EdgesAreEdges(tasks);
      if a.id == e.source && b.id == e.target {
        EdgeDescends(tasks, a.id, b.id, a.level, b.level);
      }
    }
  }

  lemma TaskHasNode(ids: seq<int>, level: map<int, nat>, order: seq<nat>, buckets: map<nat, seq<int>>, id: int)
    requires Bucketed(ids, level, order, buckets) && NoRepeats(ids) && id in ids
    ensures forall l :: l in order ==> l in buckets
    ensures exists n :: n in Columns(order, buckets) && n.id == id
  {
    hide Bucketed, NoRepeats;
    BucketsKnown(ids, level, order, buckets);
    ColumnsStand(order, buckets);
    var l := level[id];
    var k :| 0 <= k < |buckets[l]| && buckets[l][k] == id;
    assert Placed(buckets[l][k], l, k) in Columns(order, buckets);
  }

  /** A column stands at its level's place, its tasks from the top down in list order. */
  ghost predicate InColumns(tasks: seq<Task>, nodes: seq<NodePosition>) {
    && (forall n :: n in nodes ==> n.x == n.level * (NODE_WIDTH + LEVEL_GAP))
    && forall i, j, a, b ::
         (0 <= i < j < |tasks| && a in nodes && b in nodes && a.level == b.level
          && a.id == tasks[i].id && b.id == tasks[j].id)
         ==> a.y < b.y
  }

  lemma {:induction false} OfLevelInOrder(ids: seq<int>, level: map<int, nat>, l: nat, i: nat, j: nat)
    requires i < j < |ids| && ids[i] in level && ids[j] in level && level[ids[i]] == level[ids[j]] == l
    ensures exists k, m :: 0 <= k < m < |OfLevel(ids, level, l)|
                           && OfLevel(ids, level, l)[k] == ids[i] && OfLevel(ids, level, l)[m] == ids[j]
  {
    var rest := ids[..|ids| - 1];
    var before := OfLevel(rest, level, l);
    if j == |ids| - 1 {
      OfLevelMembers(rest, level, l);
      assert rest[i] in rest;
      var k :| 0 <= k < |before| && before[k] == ids[i];
      assert OfLevel(ids, level, l)[|before|] == ids[j];
      assert OfLevel(ids, level, l)[k] == ids[i];
    } else {
      OfLevelInOrder(rest, level, l, i, j);
      var k, m :| 0 <= k < m < |before| && before[k] == rest[i] && before[m] == rest[j];
      assert OfLevel(ids, level, l)[k] == ids[i] && OfLevel(ids, level, l)[m] == ids[j];
    }
  }

  /** Of two tasks in one column the earlier one in the list stands above the other. */
  lemma EarlierStandsAbove(ids: seq<int>, level: map<int, nat>, order: seq<nat>, buckets: map<nat, seq<int>>,
                           i: nat, j: nat, a: NodePosition, b: NodePosition)
    requires Bucketed(ids, level, order, buckets) && NoRepeats(ids) && i < j < |ids|
    requires Stands(a, order, buckets) && Stands(b, order, buckets) && a.level == b.level
    requires a.id == ids[i] && b.id == ids[j]
    ensures a.y < b.y
  {
    hide OfLevel;
    BucketsKnown(ids, level, order, buckets);
    var l := a.level;
    var k :| 0 <= k < |buckets[l]| && a == Placed(buckets[l][k], l, k);
    var m :| 0 <= m < |buckets[l]| && b == Placed(buckets[l][m], l, m);
    assert buckets[l][k] in buckets[l] && buckets[l][m] in buckets[l];
    OfLevelInOrder(ids, level, l, i, j);
    var x, y :| 0 <= x < y < |buckets[l]| && buckets[l][x] == ids[i] && buckets[l][y] == ids[j];
    assert x == k && y == m;
  }

  lemma ColumnsInOrder(tasks: seq<Task>, level: map<int, nat>, order: seq<nat>, buckets: map<nat, seq<int>>)
    requires UniqueIds(tasks) && Bucketed(IdList(tasks), level, order, buckets)
    ensures forall l :: l in order ==> l in buckets
    ensures InColumns(tasks, Columns(order, buckets))
  {
    hide Bucketed, NoRepeats, UniqueIds, Columns;
    var ids := IdList(tasks);
    IdsDiffer(tasks);
    BucketsKnown(ids, level, order, buckets);
    ColumnsStand(order, buckets);
    var nodes := Columns(order, buckets);
    forall i, j, a, b | 0 <= i < j < |tasks| && a in nodes && b in nodes && a.level == b.level
                        && a.id == tasks[i].id && b.id == tasks[j].id
      ensures a.y < b.y
    {
      EarlierStandsAbove(ids, level, order, buckets, i, j, a, b);
    }
  }

  method ComputeLayout(tasks: seq<Task>) returns (layout: GraphLayout)
    requires UniqueIds(tasks) && !HasCycle(tasks)
    ensures PlacesEveryTask(tasks, layout.nodes) && FreeOfOverlap(layout.nodes)
    ensures forall n :: n in layout.nodes ==> Inside(n, layout.width, layout.height)
    ensures Tight(layout.nodes, layout.width, layout.height)
    ensures layout.edges == EdgesOf(tasks)
    ensures forall e, a, b :: e in layout.edges && a in layout.nodes && b in layout.nodes ==> RunsForward(e, a, b)
    ensures InColumns(tasks, layout.nodes)
  {
    hide InColumns;
    hide IsDepth, HasCycle, UniqueIds, Bucketed, Columns, EdgesOf, Stands, Apart, PlacesEveryTask, FreeOfOverlap, Edge,
         Tight, Fits, Covers;
    var levels := new Levels(tasks);
    for i := 0 to |tasks|
      invariant levels.Valid() && levels.tasks == tasks
      invariant forall j :: 0 <= j < i ==> tasks[j].id in levels.level
    {
      StartOfTrail(tasks, tasks[i].id);
      assert tasks[i] in tasks && tasks[i].id in levels.byId;
      ghost var filled := levels.level;
      var _ := levels.AssignLevel(tasks[i].id, [tasks[i].id]);
      forall j | 0 <= j <= i
        ensures tasks[j].id in levels.level
      {
        assert j < i ==> tasks[j].id in filled.Keys;
      }
    }
    var level := levels.level;

    var order, buckets := BucketsByLevel(tasks, level);
    IdsDiffer(tasks);
    BucketsKnown(IdList(tasks), level, order, buckets);
    var nodes := PlaceColumns(order, buckets);
    var edges := CollectEdges(tasks);
    var width, height := Extent(order, buckets);
    LayoutIsSound(tasks, level, order, buckets, width, height);
    FitsTightly(order, buckets, width, height);
    ColumnsInOrder(tasks, level, order, buckets);
    layout := GraphLayout(nodes, edges, width, height);
  }

  lemma StartOfTrail(tasks: seq<Task>, id: int)
    ensures Trail(tasks, id, [id])
  {}

  function IdList(tasks: seq<Task>): seq<int> {
    seq(|tasks|, i requires 0 <= i < |tasks| => tasks[i].id)
  }

  method BucketsByLevel(tasks: seq<Task>, level: map<int, nat>) returns (order: seq<nat>, buckets: map<nat, seq<int>>)
    requires forall i :: 0 <= i < |tasks| ==> tasks[i].id in level
    ensures Bucketed(IdList(tasks), level, order, buckets)
  {
    hide Bucketed;
    order, buckets := [], map[];
    NoBuckets(level);
    assert IdList(tasks[..0]) == [];
    for i := 0 to |tasks|
      invariant Bucketed(IdList(tasks[..i]), level, order, buckets)
    {
      var id := tasks[i].id;
      var l := level[id];
      PutInBucket(IdList(tasks[..i]), level, order, buckets, id);
      assert IdList(tasks[..i + 1]) == IdList(tasks[..i]) + [id];
      if l !in buckets { order := order + [l]; }
      buckets := buckets[l := (if l in buckets then buckets[l] else []) + [id]];
    }
    assert tasks[..|tasks|] == tasks;
  }

  lemma NoBuckets(level: map<int, nat>)
    ensures Bucketed([], level, [], map[])
  {}

  method PlaceColumns(order: seq<nat>, buckets: map<nat, seq<int>>) returns (nodes: seq<NodePosition>)
    requires forall l :: l in order ==> l in buckets
    ensures nodes == Columns(order, buckets)
  {
    nodes := [];
    for i := 0 to |order|
      invariant nodes == Columns(order[..i], buckets)
    {
      var l: nat := order[i];
      assert l in order;
      assert order[..i + 1][..i] == order[..i];
      var ids := buckets[l];
      for k := 0 to |ids|
        invariant nodes == Columns(order[..i], buckets) + Column(ids, l)[..k]
      {
        nodes := nodes + [NodePosition(ids[k], l * (NODE_WIDTH + LEVEL_GAP), k * (NODE_HEIGHT + VERTICAL_GAP), l)];
      }
      assert Column(ids, l)[..|ids|] == Column(ids, l);
    }
    assert order[..|order|] == order;
  }

  method CollectEdges(tasks: seq<Task>) returns (edges: seq<GraphEdge>)
    ensures edges == EdgesOf(tasks)
  {
    edges := [];
    for i := 0 to |tasks|
      invariant edges == EdgesOf(tasks[..i])
    {
      assert tasks[..i + 1][..i] == tasks[..i];
      var task := tasks[i];
      for k := 0 to |task.deps|
        invariant edges == EdgesOf(tasks[..i]) + EdgesInto(task.deps, task.id)[..k]
      {
        edges := edges + [GraphEdge(task.deps[k], task.id)];
      }
      assert EdgesInto(task.deps, task.id)[..|task.deps|] == EdgesInto(task.deps, task.id);
    }
    assert tasks[..|tasks|] == tasks;
  }

  ghost predicate Covers(order: seq<nat>, buckets: map<nat, seq<int>>, width: int, height: int) {
    forall i :: 0 <= i < |order| ==>
      && order[i] * (NODE_WIDTH + LEVEL_GAP) + NODE_WIDTH <= width
      && (order[i] in buckets ==> |buckets[order[i]]| * (NODE_HEIGHT + VERTICAL_GAP) - VERTICAL_GAP <= height)
  }

  method Extent(order: seq<nat>, buckets: map<nat, seq<int>>) returns (width: int, height: int)
    requires forall l :: l in order ==> l in buckets && buckets[l] != []
    ensures Covers(order, buckets, width, height) && Fits(order, buckets, width, height)
  {
    var maxNodes, maxLevel := 1, 0;
    for i := 0 to |order|
      invariant maxNodes >= 1 && maxLevel >= 0
      invariant forall j :: 0 <= j < i ==>
        order[j] <= maxLevel && (order[j] in buckets ==> |buckets[order[j]]| <= maxNodes)
      invariant i == 0 ==> maxNodes == 1 && maxLevel == 0
      invariant i > 0 ==> exists l :: l in order && l == maxLevel
      invariant i > 0 ==> exists l :: l in order && |buckets[l]| == maxNodes
    {
      assert order[i] in order;
      if |buckets[order[i]]| > maxNodes { maxNodes := |buckets[order[i]]|; }
      if order[i] > maxLevel { maxLevel := order[i]; }
    }
    width := (if maxLevel > 0 then maxLevel * (NODE_WIDTH + LEVEL_GAP) else 0) + NODE_WIDTH;
    height := maxNodes * (NODE_HEIGHT + VERTICAL_GAP) - VERTICAL_GAP;
  }
}
