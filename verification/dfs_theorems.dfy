/**
 What a finished depth-first `search` guarantees, stated about `Search`
 itself: the records it yields, their numbering, how the run ends, the
 `found_target` flag, and which nodes it visits.
 */
module DfsTheorems {
  import opened Wrappers
  import opened NodeOrder
  import opened Seqs
  import opened Graphs
  import opened Records
  import opened Dfs
  import opened DfsProofs
  import opened DfsLoop

  /** The generator state at the end of a search whose start node exists. */
  function Final(e: Engine, start: Node, target: Option<Node>): Frame
    requires e.graph.Valid() && e.graph.HasNode(start)
  {
    Drive(Begin(e, start), target)
  }

  lemma FinalInv(e: Engine, start: Node, target: Option<Node>)
    requires e.graph.Valid() && e.graph.HasNode(start)
    ensures Inv(Final(e, start, target), start, target)
    ensures Search(e, start, target) == Run(Final(e, start, target).engine, Final(e, start, target).yielded)
  {
    BeginInv(e, start, target);
    DriveInv(Begin(e, start), start, target);
  }

  /** `search` resets first: what an earlier run left in the object does not matter. */
  lemma SearchIgnoresEarlierRuns(e1: Engine, e2: Engine, start: Node, target: Option<Node>)
    requires e1.graph == e2.graph && e1.graph.Valid()
    ensures Search(e1, start, target) == Search(e2, start, target)
  {
    assert Reset(e1) == Reset(e2);
  }

  /**
   Each step is yielded as soon as it is recorded, so the generator's output
   is exactly the step list; and each step's copies of the search state are
   consistent snapshots of the final state.
   */
  lemma SearchRecords(e: Engine, start: Node, target: Option<Node>)
    requires e.graph.Valid() && e.graph.HasNode(start)
    ensures var r := Search(e, start, target);
      && r.yielded == Snapshots(r.engine.steps)
      && |r.engine.steps| > 0
      && NoDup(r.engine.visitOrder) && Elems(r.engine.visitOrder) == r.engine.visited
      && r.engine.currentPath == r.engine.visitOrder
      && forall i | 0 <= i < |r.engine.steps| ::
           Coherent(r.engine.steps[i]) && r.engine.steps[i].visitOrder <= r.engine.visitOrder
  {
    FinalInv(e, start, target);
  }

  /**
   Step numbers start at 1 and strictly increase; a `complete` step is
   numbered one past the counter, which went on ticking for each stale
   entry left on the stack the step before it showed.
   */
  lemma SearchNumbering(e: Engine, start: Node, target: Option<Node>)
    requires e.graph.Valid() && e.graph.HasNode(start)
    ensures var s := Search(e, start, target).engine.steps;
      && (forall i | 0 <= i < |s| :: 1 <= s[i].number)
      && (forall i, j | 0 <= i < j < |s| :: s[i].number < s[j].number)
      && (s != [] && Last(s).action == Complete ==>
            |s| >= 2 && Last(s).number == s[|s| - 2].number + |s[|s| - 2].stack| + 1)
  {
    FinalRun(e, start, target);
    FinalNumbered(e, start, target);
    CompleteNumber(e, start, target);
  }

  lemma CompleteNumber(e: Engine, start: Node, target: Option<Node>)
    requires e.graph.Valid() && e.graph.HasNode(start)
    ensures var s := Search(e, start, target).engine.steps;
      s != [] && Last(s).action == Complete ==>
        |s| >= 2 && Last(s).number == s[|s| - 2].number + |s[|s| - 2].stack| + 1
  {
    FinalInv(e, start, target);
  }

  lemma FinalRun(e: Engine, start: Node, target: Option<Node>)
    requires e.graph.Valid() && e.graph.HasNode(start)
    ensures Search(e, start, target) == Run(Final(e, start, target).engine, Final(e, start, target).yielded)
  {
  }

  lemma FinalNumbered(e: Engine, start: Node, target: Option<Node>)
    requires e.graph.Valid() && e.graph.HasNode(start)
    ensures Numbered(Final(e, start, target))
  {
    FinalInv(e, start, target);
  }

  /**
   The run ends on its only terminal step: either the visit that found the
   target or a `complete` step, which then reports the final visited set and
   an empty stack.
   */
  lemma SearchEnds(e: Engine, start: Node, target: Option<Node>)
    requires e.graph.Valid() && e.graph.HasNode(start)
    ensures var r := Search(e, start, target); var s := r.engine.steps;
      && r.engine.isComplete && |s| > 0
      && Terminal(Last(s)) && (forall i | 0 <= i < |s| - 1 :: !Terminal(s[i]))
      && (Last(s).action == Complete ==>
            Last(s).current.None? && Last(s).stack == [] && r.engine.stack == []
            && Last(s).visited == r.engine.visited && Last(s).visitOrder == r.engine.visitOrder)
      && (Last(s).action != Complete ==> Last(s).action == Visit && Last(s).foundTarget)
  {
    FinalInv(e, start, target);
    var s := Search(e, start, target).engine.steps;
    assert Terminal(Last(s));
    assert !Last(s).action.StackUpdate? by {
      assert UpdateAt(e.graph, s, |s| - 1);
    }
  }

  /**
   The last step's `found_target` is true exactly when there is no target or
   the target was visited; a `complete` step is reached with a target only
   when the target was never visited, so it reports false then.
   */
  lemma SearchFoundFlag(e: Engine, start: Node, target: Option<Node>)
    requires e.graph.Valid() && e.graph.HasNode(start)
    ensures var r := Search(e, start, target); var s := r.engine.steps;
      && |s| > 0
      && (Last(s).foundTarget <==> !Truthy(target) || target.value in r.engine.visited)
      && (Last(s).action == Complete ==> (Last(s).foundTarget <==> !Truthy(target)))
  {
    FinalInv(e, start, target);
    SearchEnds(e, start, target);
    var r := Search(e, start, target);
    var s := r.engine.steps;
    if Last(s).action == Visit {
      assert Last(s).current.value in r.engine.visited by {
        assert Last(s).visitOrder <= r.engine.visitOrder;
        assert Last(s).current.value in Last(s).visitOrder;
      }
    }
  }

  /** Every visited node is reachable from the start. */
  lemma SearchSound(e: Engine, start: Node, target: Option<Node>)
    requires e.graph.Valid() && e.graph.HasNode(start)
    ensures Search(e, start, target).engine.visited <= Component(e.graph, start)
  {
    FinalInv(e, start, target);
  }

  /** A search that runs to the `complete` step visits the start's whole component. */
  lemma SearchCovers(e: Engine, start: Node, target: Option<Node>)
    requires e.graph.Valid() && e.graph.HasNode(start)
    ensures var r := Search(e, start, target);
      |r.engine.steps| > 0 && Last(r.engine.steps).action == Complete ==>
        r.engine.visited == Component(e.graph, start)
  {
    FinalInv(e, start, target);
    SearchEnds(e, start, target);
    var r := Search(e, start, target);
    var g := e.graph;
    if Last(r.engine.steps).action == Complete {
      CoversOf(g, start, r.engine.visited, r.engine.stack);
    }
  }

  /** Reachable visited nodes that leave no edge unexplored, with the stack empty, make up the start's component. */
  lemma CoversOf(g: Graph, start: Node, visited: set<Node>, stack: seq<Node>)
    requires g.Valid() && stack == [] && (start in visited || start in stack)
    requires forall v | v in visited :: Reachable(g, start, v)
    requires Closed(g, visited, stack)
    ensures visited == Component(g, start)
  {
    forall v | v in visited
      ensures v in Component(g, start)
    {
      ReachableIsNode(g, start, v);
    }
    ClosedIsComponent(g, start, visited);
  }

  /** With a target, the search stops on it exactly when it is reachable from the start. */
  lemma SearchFindsReachable(e: Engine, start: Node, target: Option<Node>)
    requires e.graph.Valid() && e.graph.HasNode(start) && Truthy(target)
    ensures var s := Search(e, start, target).engine.steps;
      |s| > 0 &&
      (target.value in Component(e.graph, start) <==>
        Last(s).action == Visit && Last(s).foundTarget && Last(s).current == target)
  {
    FinalInv(e, start, target);
    SearchEnds(e, start, target);
    SearchFoundFlag(e, start, target);
    SearchSound(e, start, target);
    SearchCovers(e, start, target);
    var f := Final(e, start, target);
    var s := f.engine.steps;
    if Last(s).action == Visit && Last(s).foundTarget {
      assert VisitsWellFormed(f, target);
      assert Sought(target, Last(s).current.value);
    }
  }

  /**
   Each `stack_update` step follows a visit of the same node and shows the
   stack with that node's unvisited neighbours pushed, largest id first; a
   visit that did not find the target is followed by one exactly when that
   stack is not empty.
   */
  lemma SearchStackUpdates(e: Engine, start: Node, target: Option<Node>)
    requires e.graph.Valid() && e.graph.HasNode(start)
    ensures var s := Search(e, start, target).engine.steps;
      && (forall i | 0 <= i < |s| :: UpdateAt(e.graph, s, i))
      && (forall i | 0 <= i < |s| - 1 :: UpdateAfter(e.graph, s, i))
  {
    FinalInv(e, start, target);
  }

  /** Each visit step names the node it visits, last in its visit order, and flags it iff it is the target. */
  lemma SearchVisits(e: Engine, start: Node, target: Option<Node>)
    requires e.graph.Valid() && e.graph.HasNode(start)
    ensures var s := Search(e, start, target).engine.steps;
      forall i | 0 <= i < |s| && s[i].action == Visit ::
        && s[i].current.Some? && e.graph.HasNode(s[i].current.value)
        && |s[i].visitOrder| > 0 && Last(s[i].visitOrder) == s[i].current.value
        && (s[i].foundTarget <==> Sought(target, s[i].current.value))
  {
    FinalInv(e, start, target);
  }

  /**
   Last in, first out: the run begins by visiting the start node; every
   later visit directly follows a `stack_update` and takes the topmost entry
   of that step's stack not yet visited, the visited entries above it popped
   without a step; and the visit steps name the visit order, one per node.
   */
  lemma SearchPops(e: Engine, start: Node, target: Option<Node>)
    requires e.graph.Valid() && e.graph.HasNode(start)
    ensures var r := Search(e, start, target).engine; var s := r.steps;
      && 0 < |s| && s[0].action == Visit
      && (forall i | 0 <= i < |s| :: PopAt(s, i, start))
      && VisitNodes(s) == r.visitOrder
  {
    FinalInv(e, start, target);
  }

  /**
   A visit that pops as `PoppedFrom` says splits the previous step's stack
   into the visit's own stack, the node visited, and entries already
   visited, one counter tick each.
   */
  lemma PoppedSplit(u: Step, v: Step)
    requires v.current.Some? && PoppedFrom(u, v)
    ensures var d := u.stack[|v.stack| + 1..];
      && u.stack == v.stack + [v.current.value] + d
      && Elems(d) <= u.visited
      && v.number == u.number + 1 + |d|
  {
    var m, d := |v.stack|, u.stack[|v.stack| + 1..];
    assert u.stack == u.stack[..m] + [u.stack[m]] + d;
    forall x | x in d
      ensures x in u.visited
    {
      var j :| 0 <= j < |d| && d[j] == x;
      assert d[j] == u.stack[m + 1 + j];
    }
  }

  /** After a run, a node has a path and a visit time exactly when it was visited. */
  lemma SearchQueries(e: Engine, start: Node, target: Option<Node>, n: Node)
    requires e.graph.Valid() && e.graph.HasNode(start)
    ensures var r := Search(e, start, target).engine;
      && (PathTo(r, n).Some? <==> IsNodeVisited(r, n))
      && (GetVisitTime(r, n).Some? <==> IsNodeVisited(r, n))
      && (PathTo(r, n).Some? ==> |PathTo(r, n).value| == GetVisitTime(r, n).value)
  {
    FinalInv(e, start, target);
    var r := Search(e, start, target).engine;
    PrefixMatchesVisitTime(r.visitOrder, n);
    assert n in r.visited <==> n in r.visitOrder;
  }

  /**
   `get_statistics()` after a run: the visited count is the length of the
   visit order and the number of visit steps, the unvisited count is the
   number of nodes never visited, and the completion rate is 100 exactly
   when every node was visited.
   */
  lemma SearchStatistics(e: Engine, start: Node, target: Option<Node>)
    requires e.graph.Valid() && e.graph.HasNode(start)
    ensures var r := Search(e, start, target).engine; var st := GetStatistics(r);
      && st.visitedNodes == |r.visitOrder| == |VisitNodes(r.steps)|
      && st.unvisitedNodes == |e.graph.Nodes() - r.visited|
      && (st.completionRate == 100.0 <==> r.visited == e.graph.Nodes())
  {
    SearchRecords(e, start, target);
    SearchSound(e, start, target);
    SearchPops(e, start, target);
    var r := Search(e, start, target).engine;
    NoDupCardinality(r.visitOrder);
    SubsetCounts(e.graph.Nodes(), r.visited);
  }

  /** Without a target, a search from a node of a connected graph visits every node: 100% completion. */
  lemma SearchCompletesConnected(e: Engine, start: Node, target: Option<Node>)
    requires e.graph.Valid() && e.graph.HasNode(start) && !Truthy(target)
    requires Component(e.graph, start) == e.graph.Nodes()
    ensures var r := Search(e, start, target).engine;
      r.visited == e.graph.Nodes() && GetStatistics(r).completionRate == 100.0
  {
    FinalInv(e, start, target);
    SearchEnds(e, start, target);
    SearchCovers(e, start, target);
  }
}
