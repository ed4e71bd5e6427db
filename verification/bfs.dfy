/**
 The `BFS` class: a breadth-first search that records a snapshot of its
 state at every transition, together with the BFS tree (`parent`) and each
 reached node's distance from the start (`level`).

 As for the depth-first search, a run is the list of records the generator
 yields; `Advance` is one iteration of the `while self.queue` loop (or its
 exit) and `Drive` repeats it until the engine reports completion. The
 front of the queue is its first element.
 */
module Bfs {
  import opened Wrappers
  import opened NodeOrder
  import opened Seqs
  import opened Graphs
  import opened Records

  /** A `queue_update` step also lists the neighbours it enqueued (`added_neighbors`). */
  datatype Action = Visit | QueueUpdate(added: seq<Node>) | Complete

  /** One recorded snapshot (the step dict without its display message). */
  datatype Step = Step(
    number: nat,
    action: Action,
    current: Option<Node>,
    visited: set<Node>,
    visitOrder: seq<Node>,
    queue: seq<Node>,
    level: map<Node, nat>,
    foundTarget: bool)

  /** What the generator yields: the start-node error, or a step. */
  datatype Record = StartMissing(start: Node) | Snapshot(step: Step)

  /**
   The fields of a `BFS` object. `parent` and `level` are Python dicts,
   whose iteration order is the order keys were inserted; both always get
   their keys together, and `order` is that common insertion order.
   */
  datatype Engine = Engine(
    graph: Graph,
    visited: set<Node>,
    visitOrder: seq<Node>,
    queue: seq<Node>,
    parent: map<Node, Option<Node>>,
    level: map<Node, nat>,
    order: seq<Node>,
    steps: seq<Step>,
    currentStep: nat,
    isComplete: bool)

  /** `BFS(graph)` */
  function New(g: Graph): (e: Engine)
    ensures e == Reset(e)
  {
    Engine(g, {}, [], [], map[], map[], [], [], 0, false)
  }

  /** `reset`: every field but the graph back to its initial value. */
  function Reset(e: Engine): (r: Engine)
    ensures r.graph == e.graph
    ensures r.visited == {} && r.visitOrder == [] && r.queue == []
    ensures r.parent == map[] && r.level == map[] && r.order == []
    ensures r.steps == [] && r.currentStep == 0 && !r.isComplete
  {
    Engine(e.graph, {}, [], [], map[], map[], [], [], 0, false)
  }

  /** The generator between two iterations: the object, `step_count`, and what has been yielded. */
  datatype Frame = Frame(engine: Engine, count: nat, yielded: seq<Record>)

  /**
   What keeps the loop well defined: the graph is valid, the search stays on
   its nodes, and every queued node is marked visited and has a level.
   */
  predicate Sane(f: Frame) {
    var e := f.engine;
    && e.graph.Valid()
    && e.visited <= e.graph.Nodes()
    && (forall x | x in e.queue :: x in e.graph.adj && x in e.visited && x in e.level)
  }

  /**
   The loop over the sorted neighbours `ns` of the node `n` just dequeued:
   each one not yet visited is marked visited, gets `n` as parent and the
   level after `n`'s, and is enqueued (and so inserted into the dicts).
   Returns the object and `added_neighbors`.
   */
  function Discover(e: Engine, n: Node, ns: seq<Node>): (r: (Engine, seq<Node>))
    requires n in e.visited && n in e.level
    ensures r.0.graph == e.graph && r.0.visitOrder == e.visitOrder && r.0.isComplete == e.isComplete
    ensures r.0.queue == e.queue + r.1
    ensures forall m :: m in r.1 <==> m in ns && m !in e.visited
    ensures forall m :: m in r.0.visited <==> m in e.visited || m in r.1
    ensures forall m :: m in r.0.level <==> m in e.level || m in r.1
    decreases |ns|
  {
    if ns == [] then (e, [])
    else
      var m := ns[0];
      if m in e.visited then Discover(e, n, ns[1..])
      else
        var e1 := e.(visited := e.visited + {m}, parent := e.parent[m := Some(n)],
                     level := e.level[m := e.level[n] + 1], queue := e.queue + [m], order := e.order + [m]);
        var r := Discover(e1, n, ns[1..]);
        (r.0, [m] + r.1)
  }

  /** The loop exit: the `complete` step, numbered one past the counter. */
  function Finish(f: Frame, target: Option<Node>): (r: Frame)
    requires f.engine.queue == []
    ensures r.engine.isComplete && r.count == f.count
    ensures r.engine.graph == f.engine.graph && r.engine.visited == f.engine.visited
    ensures |r.engine.steps| > 0
    ensures r.engine.steps == f.engine.steps + [Last(r.engine.steps)]
    ensures Last(r.engine.steps).action == Complete
    ensures Last(r.engine.steps).number == f.count + 1
    ensures Last(r.engine.steps).foundTarget <==> !Truthy(target) || target.value in f.engine.visited
  {
    var e := f.engine;
    var st := Step(f.count + 1, Complete, None, e.visited, e.visitOrder, [], e.level,
                   FoundAtEnd(target, e.visited));
    Frame(e.(steps := e.steps + [st], isComplete := true), f.count, f.yielded + [Snapshot(st)])
  }

  /** The neighbours of `n` in the order the search examines them, smallest id first. */
  function Neighbours(g: Graph, n: Node): (r: seq<Node>)
    requires g.Valid() && n in g.adj
    ensures forall m :: m in r <==> g.HasEdge(n, m)
    ensures forall m | m in r :: m in g.adj
  {
    SortAscending(g.adj[n])
  }

  /** Records the queue after the neighbour loop of `n` when it added something. */
  function Enqueued(f: Frame, n: Node, e1: Engine, added: seq<Node>): Frame {
    if added != [] then
      var qu := Step(f.count + 1, QueueUpdate(added), Some(n), e1.visited, e1.visitOrder, e1.queue, e1.level, false);
      Frame(e1.(steps := e1.steps + [qu]), f.count + 1, f.yielded + [Snapshot(qu)])
    else
      Frame(e1, f.count, f.yielded)
  }

  /**
   The rest of an iteration that did not find the target: enqueue the
   unvisited neighbours of the node `n` just visited, and record the queue
   when something was added.
   */
  function Explore(f: Frame, n: Node): (r: Frame)
    requires Sane(f) && n in f.engine.graph.adj && n in f.engine.visited && n in f.engine.level
    ensures Sane(r)
    ensures r.engine.graph == f.engine.graph && r.engine.visitOrder == f.engine.visitOrder
    ensures r.engine.isComplete == f.engine.isComplete
    ensures |r.engine.graph.Nodes() - r.engine.visited| < |f.engine.graph.Nodes() - f.engine.visited|
         || (r.engine.visited == f.engine.visited && r.engine.queue == f.engine.queue)
  {
    var e := f.engine;
    var d := Discover(e, n, Neighbours(e.graph, n));
    assert forall m | m in d.0.queue :: m in e.graph.adj && m in d.0.visited && m in d.0.level;
    if d.1 != [] then
      assert d.0.visited <= e.graph.Nodes();
      FewerLeft(e.graph.Nodes(), e.visited, d.0.visited, d.1[0]);
      Enqueued(f, n, d.0, d.1)
    else
      assert d.0.visited == e.visited && d.0.queue == e.queue;
      Enqueued(f, n, d.0, d.1)
  }

  /** Dequeuing the front node and recording its visit: the first half of an iteration. */
  function Dequeue(f: Frame, target: Option<Node>): Frame
    requires f.engine.queue != []
  {
    var e, n := f.engine, f.engine.queue[0];
    var order := e.visitOrder + [n];
    var st := Step(f.count + 1, Visit, Some(n), e.visited, order, e.queue[1..], e.level, Sought(target, n));
    Frame(e.(queue := e.queue[1..], visitOrder := order, steps := e.steps + [st]), f.count + 1, f.yielded + [Snapshot(st)])
  }

  /** One iteration with a non-empty queue: dequeue, then stop if it was the target, else go on to its neighbours. */
  function Expand(f: Frame, target: Option<Node>): (r: Frame)
    requires Sane(f) && !f.engine.isComplete && f.engine.queue != []
    ensures Sane(r)
    ensures r.engine.graph == f.engine.graph
    ensures r.engine.visitOrder == f.engine.visitOrder + [f.engine.queue[0]]
    ensures r.engine.isComplete <==> Sought(target, f.engine.queue[0])
    ensures r.engine.isComplete
         || |r.engine.graph.Nodes() - r.engine.visited| < |f.engine.graph.Nodes() - f.engine.visited|
         || (r.engine.visited == f.engine.visited && |r.engine.queue| < |f.engine.queue|)
  {
    var n := f.engine.queue[0];
    var popped := Dequeue(f, target);
    if Sought(target, n) then popped.(engine := popped.engine.(isComplete := true))
    else Explore(popped, n)
  }

  /** One iteration of the search loop, or its exit when the queue is empty. */
  function Advance(f: Frame, target: Option<Node>): (r: Frame)
    requires Sane(f) && !f.engine.isComplete
    ensures Sane(r) && r.engine.graph == f.engine.graph
    ensures r.engine.isComplete
         || |r.engine.graph.Nodes() - r.engine.visited| < |f.engine.graph.Nodes() - f.engine.visited|
         || (r.engine.visited == f.engine.visited && |r.engine.queue| < |f.engine.queue|)
  {
    if f.engine.queue == [] then Finish(f, target) else Expand(f, target)
  }

  /** The rest of the loop: iterate until the engine is complete. */
  function Drive(f: Frame, target: Option<Node>): (r: Frame)
    requires Sane(f)
    ensures Sane(r) && r.engine.isComplete && r.engine.graph == f.engine.graph
    decreases !f.engine.isComplete, |f.engine.graph.Nodes() - f.engine.visited|, |f.engine.queue|
  {
    if f.engine.isComplete then f else Drive(Advance(f, target), target)
  }

  /** A finished call of `search`: the object afterwards and every record it yielded. */
  datatype Run = Run(engine: Engine, yielded: seq<Record>)

  /** The object after `search` has reset it and enqueued the start node, at level 0 with no parent. */
  function Seeded(e: Engine, start: Node): (r: Engine)
    ensures r.graph == e.graph && r.queue == [start] && r.visited == {start} && r.order == [start]
    ensures r.parent == map[start := None] && r.level == map[start := 0]
    ensures r.visitOrder == [] && r.steps == [] && !r.isComplete
  {
    Reset(e).(queue := [start], visited := {start}, parent := map[start := None],
              level := map[start := 0], order := [start])
  }

  /**
   `search(start, target)`, consumed to the end: reset, then either the
   start-node error or the loop from a queue holding just the start node.
   */
  function Search(e: Engine, start: Node, target: Option<Node>): (r: Run)
    requires e.graph.Valid()
    ensures r.engine.graph == e.graph
    ensures !e.graph.HasNode(start) ==> r == Run(Reset(e), [StartMissing(start)])
    ensures e.graph.HasNode(start) ==> r.engine.isComplete
  {
    if !e.graph.HasNode(start) then Run(Reset(e), [StartMissing(start)])
    else
      var f := Drive(Frame(Seeded(e, start), 0, []), target);
      Run(f.engine, f.yielded)
  }

  // ---------------------------------------------------------------------------
  // Queries on the object after a run

  /**
   The parent links are consistent with the levels: a node without a parent
   is at level 0, and a parent is itself a key one level lower. This is what
   makes the walk up the parent links end.
   */
  predicate Linked(e: Engine) {
    forall m | m in e.parent ::
      && m in e.level
      && (e.parent[m].None? ==> e.level[m] == 0)
      && (e.parent[m].Some? ==>
            e.parent[m].value in e.parent && e.parent[m].value in e.level
            && e.level[m] == e.level[e.parent[m].value] + 1)
  }

  /** The `while current is not None` walk of `get_path_to_node`: `n`, its parent, and so on up to a root. */
  function Ancestry(e: Engine, n: Node): (r: seq<Node>)
    requires Linked(e) && n in e.parent
    ensures |r| == e.level[n] + 1 && r[0] == n
    ensures forall x | x in r :: x in e.parent
    ensures e.parent[Last(r)].None?
    ensures forall i | 0 <= i < |r| - 1 :: e.parent[r[i]] == Some(r[i + 1])
    decreases e.level[n]
  {
    match e.parent[n]
    case None => [n]
    case Some(p) => [n] + Ancestry(e, p)
  }

  /**
   `get_path_to_node(n)`: the walk up from `n`, reversed so that it runs
   from a root down to `n`; `None` when `n` was not visited or has no parent
   entry.
   */
  function PathTo(e: Engine, n: Node): (r: Option<seq<Node>>)
    requires Linked(e)
    ensures r.Some? <==> n in e.visited && n in e.parent
    ensures r.Some? ==> |r.value| == e.level[n] + 1 && Last(r.value) == n
    ensures r.Some? ==> r.value[0] in e.parent && e.parent[r.value[0]].None?
    ensures r.Some? ==> forall i | 0 < i < |r.value| :: r.value[i] in e.parent && e.parent[r.value[i]] == Some(r.value[i - 1])
  {
    if n !in e.visited || n !in e.parent then None
    else Some(Reverse(Ancestry(e, n)))
  }

  /** `get_shortest_distance(n)` */
  function ShortestDistance(e: Engine, n: Node): (r: Option<nat>)
    ensures r.Some? <==> n in e.level
    ensures r.Some? ==> r.value == e.level[n]
  {
    if n in e.level then Some(e.level[n]) else None
  }

  /**
   `get_nodes_at_level(k)`: the keys of `level` at level `k`, in insertion
   order (`order`, skipping anything that is not a key).
   */
  function NodesAtLevel(e: Engine, k: int): (r: seq<Node>)
    ensures forall m :: m in r <==> m in e.order && m in e.level && e.level[m] == k
    ensures |r| <= |e.order|
  {
    AtLevel(e.order, e.level, k)
  }

  function AtLevel(xs: seq<Node>, level: map<Node, nat>, k: int): (r: seq<Node>)
    ensures forall m :: m in r <==> m in xs && m in level && level[m] == k
    ensures |r| <= |xs|
  {
    if xs == [] then []
    else if xs[0] in level && level[xs[0]] == k then [xs[0]] + AtLevel(xs[1..], level, k)
    else AtLevel(xs[1..], level, k)
  }

  /** The largest level, or 0 when no node has one (`max(level.values()) if level else 0`). */
  function MaxLevel(level: map<Node, nat>): (r: nat)
    ensures forall m | m in level :: level[m] <= r
    ensures level != map[] ==> exists m | m in level :: level[m] == r
    ensures level == map[] ==> r == 0
    decreases |level|
  {
    if level == map[] then 0
    else
      var m := Least(level.Keys);
      var rest := MaxLevel(level - {m});
      var r := if level[m] < rest then rest else level[m];
      assert forall x | x in level && x != m :: x in level - {m};
      r
  }

  /** `get_statistics()`, without the constant `algorithm` entry; `levelCounts[k]` is `level_counts[k]`. */
  datatype Statistics = Statistics(
    totalNodes: nat,
    visitedNodes: nat,
    unvisitedNodes: int,
    visitOrder: seq<Node>,
    totalSteps: nat,
    maxLevel: nat,
    levelCounts: seq<nat>,
    completionRate: real)

  function GetStatistics(e: Engine): (r: Statistics)
    ensures r.totalNodes == |e.graph.Nodes()| && r.visitedNodes == |e.visited|
    ensures r.visitedNodes + r.unvisitedNodes == r.totalNodes
    ensures r.totalSteps == |e.steps| && r.visitOrder == e.visitOrder
    ensures forall m | m in e.level :: e.level[m] <= r.maxLevel
    ensures |r.levelCounts| == r.maxLevel + 1
    ensures forall k | 0 <= k <= r.maxLevel :: r.levelCounts[k] == |NodesAtLevel(e, k)|
  {
    var total := |e.graph.Nodes()|;
    var seen := |e.visited|;
    var top := MaxLevel(e.level);
    Statistics(total, seen, total - seen, e.visitOrder, |e.steps|, top,
               seq(top + 1, k requires 0 <= k <= top => |NodesAtLevel(e, k)|),
               CompletionRate(seen, total))
  }

  /** `get_step(i)` */
  function GetStep(e: Engine, i: int): (r: Option<Step>)
    ensures r.Some? <==> 0 <= i < |e.steps|
    ensures r.Some? ==> r.value == e.steps[i]
  {
    StepAt(e.steps, i)
  }

  /** `is_node_visited(n)` */
  predicate IsNodeVisited(e: Engine, n: Node) {
    n in e.visited
  }

  /** `get_visit_time(n)`: when `n` was dequeued, counting from 1. */
  function GetVisitTime(e: Engine, n: Node): (r: Option<nat>)
    ensures r.Some? <==> n in e.visitOrder
    ensures r.Some? ==> 1 <= r.value <= |e.visitOrder| && e.visitOrder[r.value - 1] == n
  {
    VisitTime(e.visitOrder, n)
  }

  /** `get_node_level(n)` */
  function GetNodeLevel(e: Engine, n: Node): (r: Option<nat>)
    ensures r.Some? <==> n in e.level
    ensures r.Some? ==> r.value == e.level[n]
  {
    if n in e.level then Some(e.level[n]) else None
  }

  /** `get_parent(n)`: `None` both for a node without an entry and for the start node. */
  function GetParent(e: Engine, n: Node): (r: Option<Node>)
    ensures r.Some? <==> n in e.parent && e.parent[n].Some?
    ensures r.Some? ==> e.parent[n] == r
  {
    if n in e.parent then e.parent[n] else None
  }

  /**
   `get_tree_edges()`: a `(parent, child)` pair for each key of `parent`
   that has a parent, in insertion order.
   */
  function TreeEdges(e: Engine): (r: seq<(Node, Node)>)
    ensures forall p, c :: (p, c) in r <==> c in e.order && c in e.parent && e.parent[c] == Some(p)
  {
    EdgesOf(e.order, e.parent)
  }

  function EdgesOf(xs: seq<Node>, parent: map<Node, Option<Node>>): (r: seq<(Node, Node)>)
    ensures forall p, c :: (p, c) in r <==> c in xs && c in parent && parent[c] == Some(p)
    ensures |r| <= |xs|
  {
    if xs == [] then []
    else if xs[0] in parent && parent[xs[0]].Some? then [(parent[xs[0]].value, xs[0])] + EdgesOf(xs[1..], parent)
    else EdgesOf(xs[1..], parent)
  }
}
