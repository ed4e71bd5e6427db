/**
 The `DFS` class: a depth-first search that records a snapshot of its state
 at every transition, for the GUI to replay.

 The Python `search` is a generator; here a run is the sequence of records
 it yields, computed eagerly. The loop body is `Advance`, one iteration of
 the `while self.stack` loop (or its exit), and `Drive` repeats it until
 the engine reports completion.
 */
module Dfs {
  import opened Wrappers
  import opened NodeOrder
  import opened Seqs
  import opened Graphs
  import opened Records

  datatype Action = Visit | StackUpdate | Complete

  /** One recorded snapshot (the step dict without its display message). */
  datatype Step = Step(
    number: nat,
    action: Action,
    current: Option<Node>,
    visited: set<Node>,
    visitOrder: seq<Node>,
    stack: seq<Node>,
    currentPath: seq<Node>,
    foundTarget: bool)

  /** What the generator yields: the start-node error, or a step. */
  datatype Record = StartMissing(start: Node) | Snapshot(step: Step)

  /** The fields of a `DFS` object. The top of the stack is its last element. */
  datatype Engine = Engine(
    graph: Graph,
    visited: set<Node>,
    visitOrder: seq<Node>,
    currentPath: seq<Node>,
    stack: seq<Node>,
    steps: seq<Step>,
    currentStep: nat,
    isComplete: bool)

  /** `DFS(graph)` */
  function New(g: Graph): (e: Engine)
    ensures e == Reset(e)
  {
    Engine(g, {}, [], [], [], [], 0, false)
  }

  /** `reset`: every field but the graph back to its initial value. */
  function Reset(e: Engine): (r: Engine)
    ensures r.graph == e.graph
    ensures r.visited == {} && r.visitOrder == [] && r.currentPath == [] && r.stack == []
    ensures r.steps == [] && r.currentStep == 0 && !r.isComplete
  {
    Engine(e.graph, {}, [], [], [], [], 0, false)
  }

  /** The generator between two iterations: the object, `step_count`, and what has been yielded. */
  datatype Frame = Frame(engine: Engine, count: nat, yielded: seq<Record>)

  /** What keeps the loop well defined: the graph is valid and the search stays on its nodes. */
  predicate Sane(f: Frame) {
    var e := f.engine;
    && e.graph.Valid()
    && e.visited <= e.graph.Nodes()
    && (forall x | x in e.stack :: x in e.graph.adj)
  }

  /** The unvisited neighbours of `n`, largest id first: what the push loop appends. */
  function Pushes(g: Graph, n: Node, visited: set<Node>): (r: seq<Node>)
    requires n in g.adj
    ensures forall m :: m in r <==> g.HasEdge(n, m) && m !in visited
  {
    Without(SortDescending(g.adj[n]), visited)
  }

  /** In a valid graph every pushed neighbour is a node. */
  lemma PushesAreNodes(g: Graph, n: Node, visited: set<Node>)
    requires g.Valid() && n in g.adj
    ensures forall m | m in Pushes(g, n, visited) :: m in g.adj
  {
    var r := Pushes(g, n, visited);
    forall m | m in r
      ensures m in g.adj
    {
      EdgeEnds(g, n, m);
    }
  }

  /** Pushed in descending order, so the smallest unvisited neighbour ends on top. */
  lemma PushesDescending(g: Graph, n: Node, visited: set<Node>)
    requires n in g.adj
    ensures Descending(Pushes(g, n, visited))
  {
    SortDescendingDescending(g.adj[n]);
    DescendingWithout(SortDescending(g.adj[n]), visited);
  }

  lemma {:induction false} DescendingWithout(xs: seq<Node>, drop: set<Node>)
    requires Descending(xs)
    ensures Descending(Without(xs, drop))
    decreases |xs|
  {
    if xs != [] {
      DescendingWithout(xs[1..], drop);
      var rest := Without(xs[1..], drop);
      if xs[0] !in drop {
        forall j | 0 < j < |[xs[0]] + rest|
          ensures Below(([xs[0]] + rest)[j], xs[0])
        {
          assert rest[j - 1] in rest;
          var k :| 1 <= k < |xs| && xs[k] == rest[j - 1];
        }
      }
    }
  }

  /** The loop exit: the `complete` step, numbered one past the counter. */
  function Finish(f: Frame, target: Option<Node>): (r: Frame)
    requires f.engine.stack == []
    ensures r.engine.isComplete && r.count == f.count
    ensures r.engine.graph == f.engine.graph && r.engine.visited == f.engine.visited
    ensures |r.engine.steps| > 0
    ensures r.engine.steps == f.engine.steps + [Last(r.engine.steps)]
    ensures Last(r.engine.steps).action == Complete
    ensures Last(r.engine.steps).number == f.count + 1
    ensures Last(r.engine.steps).foundTarget <==> !Truthy(target) || target.value in f.engine.visited
  {
    var e := f.engine;
    var st := Step(f.count + 1, Complete, None, e.visited, e.visitOrder, [], e.currentPath,
                   FoundAtEnd(target, e.visited));
    Frame(e.(steps := e.steps + [st], isComplete := true), f.count, f.yielded + [Snapshot(st)])
  }

  /**
   Visiting a node just popped: record it, stop if it is the target,
   otherwise push its unvisited neighbours and record the stack when it is
   not empty.
   */
  function VisitNode(f: Frame, n: Node, target: Option<Node>): (r: Frame)
    requires Sane(f) && !f.engine.isComplete && n in f.engine.graph.adj && n !in f.engine.visited
    ensures Sane(r)
    ensures r.engine.graph == f.engine.graph
    ensures r.engine.visited == f.engine.visited + {n}
    ensures r.engine.visitOrder == f.engine.visitOrder + [n]
    ensures r.engine.isComplete <==> Sought(target, n)
  {
    var e := f.engine;
    var visited := e.visited + {n};
    var order := e.visitOrder + [n];
    var path := e.currentPath + [n];
    var found := Sought(target, n);
    var st := Step(f.count, Visit, Some(n), visited, order, e.stack, path, found);
    var e1 := e.(visited := visited, visitOrder := order, currentPath := path, steps := e.steps + [st]);
    if found then
      Frame(e1.(isComplete := true), f.count, f.yielded + [Snapshot(st)])
    else
      PushesAreNodes(e.graph, n, visited);
      var stack := e.stack + Pushes(e.graph, n, visited);
      if stack != [] then
        var su := Step(f.count + 1, StackUpdate, Some(n), visited, order, stack, path, false);
        Frame(e1.(stack := stack, steps := e1.steps + [su]), f.count + 1,
              f.yielded + [Snapshot(st), Snapshot(su)])
      else
        Frame(e1.(stack := stack), f.count, f.yielded + [Snapshot(st)])
  }

  /** One iteration of the search loop, or its exit when the stack is empty. */
  function Advance(f: Frame, target: Option<Node>): (r: Frame)
    requires Sane(f) && !f.engine.isComplete
    ensures Sane(r) && r.engine.graph == f.engine.graph
    ensures r.engine.isComplete
         || |r.engine.graph.Nodes() - r.engine.visited| < |f.engine.graph.Nodes() - f.engine.visited|
         || (r.engine.visited == f.engine.visited && |r.engine.stack| < |f.engine.stack|)
  {
    var e := f.engine;
    if e.stack == [] then Finish(f, target)
    else
      var n := Last(e.stack);
      var popped := f.(engine := e.(stack := e.stack[..|e.stack| - 1]), count := f.count + 1);
      if n in e.visited then popped
      else
        assert e.graph.Nodes() - (e.visited + {n}) < e.graph.Nodes() - e.visited;
        VisitNode(popped, n, target)
  }

  /** The rest of the loop: iterate until the engine is complete. */
  function Drive(f: Frame, target: Option<Node>): (r: Frame)
    requires Sane(f)
    ensures Sane(r) && r.engine.isComplete && r.engine.graph == f.engine.graph
    decreases !f.engine.isComplete, |f.engine.graph.Nodes() - f.engine.visited|, |f.engine.stack|
  {
    if f.engine.isComplete then f else Drive(Advance(f, target), target)
  }

  /** A finished call of `search`: the object afterwards and every record it yielded. */
  datatype Run = Run(engine: Engine, yielded: seq<Record>)

  /**
   `search(start, target)`, consumed to the end: reset, then either the
   start-node error or the loop from a stack holding just the start node.
   */
  function Search(e: Engine, start: Node, target: Option<Node>): (r: Run)
    requires e.graph.Valid()
    ensures r.engine.graph == e.graph
    ensures !e.graph.HasNode(start) ==> r == Run(Reset(e), [StartMissing(start)])
    ensures e.graph.HasNode(start) ==> r.engine.isComplete
  {
    var clean := Reset(e);
    if !clean.graph.HasNode(start) then Run(clean, [StartMissing(start)])
    else
      var f := Drive(Frame(clean.(stack := [start]), 0, []), target);
      Run(f.engine, f.yielded)
  }

  // ---------------------------------------------------------------------------
  // Queries on the object after a run

  /**
   `get_path_to_node(n)`: the visit order up to `n`; `None` when `n` was not
   visited. (A depth-first visit order is not a path in general; this is
   what the class returns.)
   */
  function PathTo(e: Engine, n: Node): (r: Option<seq<Node>>)
    ensures r.Some? ==> n in e.visited
    ensures r.Some? ==> r.value <= e.visitOrder && 0 < |r.value| && Last(r.value) == n
    ensures n in e.visited && n in e.visitOrder ==> r.Some?
  {
    if n !in e.visited then None else PrefixThrough(e.visitOrder, n)
  }

  /** `get_statistics()`, without the constant `algorithm` entry. */
  datatype Statistics = Statistics(
    totalNodes: nat,
    visitedNodes: nat,
    unvisitedNodes: int,
    visitOrder: seq<Node>,
    totalSteps: nat,
    completionRate: real)

  function GetStatistics(e: Engine): (r: Statistics)
    ensures r.totalNodes == |e.graph.Nodes()| && r.visitedNodes == |e.visited|
    ensures r.visitedNodes + r.unvisitedNodes == r.totalNodes
    ensures r.totalSteps == |e.steps| && r.visitOrder == e.visitOrder
  {
    var total := |e.graph.Nodes()|;
    var seen := |e.visited|;
    Statistics(total, seen, total - seen, e.visitOrder, |e.steps|, CompletionRate(seen, total))
  }

  /** `get_step(i)` */
  function GetStep(e: Engine, i: int): (r: Option<Step>)
    ensures r.Some? <==> 0 <= i < |e.steps|
    ensures r.Some? ==> r.value == e.steps[i]
  {
    StepAt(e.steps, i)
  }

  /** `is_node_visited(n)` */
  predicate IsNodeVisited(e: Engine, n: Node) {
    n in e.visited
  }

  /** `get_visit_time(n)` */
  function GetVisitTime(e: Engine, n: Node): (r: Option<nat>)
    ensures r.Some? <==> n in e.visitOrder
    ensures r.Some? ==> 1 <= r.value <= |e.visitOrder| && e.visitOrder[r.value - 1] == n
  {
    VisitTime(e.visitOrder, n)
  }
}
