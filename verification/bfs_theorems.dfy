/**
 What a finished breadth-first `search` guarantees, stated about `Search`
 itself: the records it yields and their numbering, how the run ends, the
 `found_target` flag, which nodes it reaches, the BFS tree and levels, and
 what the queries answer afterwards.
 */
module BfsTheorems {
  import opened Wrappers
  import opened NodeOrder
  import opened Seqs
  import opened Graphs
  import opened Records
  import opened Bfs
  import opened BfsProofs
  import opened BfsLoop

  /** The generator state at the end of a search whose start node exists. */
  function Final(e: Engine, start: Node, target: Option<Node>): Frame
    requires e.graph.Valid() && e.graph.HasNode(start)
  {
    Drive(Begin(e, start), target)
  }

  lemma FinalInv(e: Engine, start: Node, target: Option<Node>)
    requires e.graph.Valid() && e.graph.HasNode(start)
    ensures Holds(Final(e, start, target), start, target)
    ensures Search(e, start, target) == Run(Final(e, start, target).engine, Final(e, start, target).yielded)
  {
    BeginInv(e, start, target);
    DriveInv(Begin(e, start), start, target);
  }

  /** `search` resets first: what an earlier run left in the object does not matter. */
  lemma SearchIgnoresEarlierRuns(e1: Engine, e2: Engine, start: Node, target: Option<Node>)
    requires e1.graph == e2.graph && e1.graph.Valid()
    ensures Search(e1, start, target) == Search(e2, start, target)
  {
    assert Reset(e1) == Reset(e2);
  }

  /**
   Each step is yielded as soon as it is recorded, so the generator's output
   is exactly the step list. No node is enqueued twice: the dict keys, in
   insertion order, are the dequeued nodes and then the rest of the queue,
   without repetition, and they are exactly the visited set. Each step's
   copies of the state are snapshots consistent with the final state.
   */
  lemma SearchRecords(e: Engine, start: Node, target: Option<Node>)
    requires e.graph.Valid() && e.graph.HasNode(start)
    ensures var r := Search(e, start, target).engine;
      && Search(e, start, target).yielded == Snapshots(r.steps)
      && |r.steps| > 0
      && r.order == r.visitOrder + r.queue && NoDup(r.order) && Elems(r.order) == r.visited
      && r.level.Keys == r.visited && r.parent.Keys == r.visited
      && forall i | 0 <= i < |r.steps| :: AgreesWith(r.steps[i], r)
  {
    FinalInv(e, start, target);
  }

  /** Steps are numbered 1, 2, 3, ... without gaps. */
  lemma SearchNumbering(e: Engine, start: Node, target: Option<Node>)
    requires e.graph.Valid() && e.graph.HasNode(start)
    ensures var s := Search(e, start, target).engine.steps;
      forall i | 0 <= i < |s| :: s[i].number == i + 1
  {
    FinalInv(e, start, target);
  }

  /**
   The run ends on its only terminal step: either the visit that found the
   target or a `complete` step, which then reports the final visited set
   and levels and an empty queue.
   */
  lemma SearchEnds(e: Engine, start: Node, target: Option<Node>)
    requires e.graph.Valid() && e.graph.HasNode(start)
    ensures var r := Search(e, start, target); var s := r.engine.steps;
      && r.engine.isComplete && |s| > 0
      && Terminal(Last(s)) && (forall i | 0 <= i < |s| - 1 :: !Terminal(s[i]))
      && (Last(s).action == Complete ==>
            Last(s).current.None? && Last(s).queue == [] && r.engine.queue == []
            && Last(s).visited == r.engine.visited && Last(s).visitOrder == r.engine.visitOrder
            && Last(s).level == r.engine.level)
      && (Last(s).action != Complete ==> Last(s).action == Visit && Last(s).foundTarget)
      && (Last(s).action == Visit ==>
            && Last(s).current.Some? && Last(s).visitOrder == r.engine.visitOrder
            && |r.engine.visitOrder| > 0 && Last(r.engine.visitOrder) == Last(s).current.value)
  {
    FinalInv(e, start, target);
    var s := Search(e, start, target).engine.steps;
    assert Last(s).action == Complete ==> Last(s).queue == [] by {
      if Last(s).action == Complete {
        assert s[|s| - 1].action == Complete;
      }
    }
    assert !Last(s).action.QueueUpdate? by {
      assert UpdateAt(e.graph, s, |s| - 1);
    }
    assert VisitAt(e.graph, s, |s| - 1, start, target);
  }

  /**
   The last step's `found_target` is true exactly when there is no target or
   the target was reached; a `complete` step is reached with a target only
   when the target was never reached, so it reports false then.
   */
  lemma SearchFoundFlag(e: Engine, start: Node, target: Option<Node>)
    requires e.graph.Valid() && e.graph.HasNode(start)
    ensures var r := Search(e, start, target); var s := r.engine.steps;
      && |s| > 0
      && (Last(s).foundTarget <==> !Truthy(target) || target.value in r.engine.visited)
      && (Last(s).action == Complete ==> (Last(s).foundTarget <==> !Truthy(target)))
  {
    FinalInv(e, start, target);
    SearchEnds(e, start, target);
    var r := Search(e, start, target);
    var s := r.engine.steps;
    if Last(s).action == Visit {
      assert VisitAt(e.graph, s, |s| - 1, start, target);
      assert AgreesWith(s[|s| - 1], r.engine);
    } else {
      assert s[|s| - 1].action == Complete;
    }
  }

  /** Every reached node is reachable from the start. */
  lemma SearchSound(e: Engine, start: Node, target: Option<Node>)
    requires e.graph.Valid() && e.graph.HasNode(start)
    ensures Search(e, start, target).engine.visited <= Component(e.graph, start)
  {
    FinalInv(e, start, target);
  }

  /**
   Every node whose neighbours the search examined is closed: its
   neighbours were all reached, at most one level further down. That is
   every dequeued node, except a target the run stopped on.
   */
  lemma SearchClosed(e: Engine, start: Node, target: Option<Node>)
    requires e.graph.Valid() && e.graph.HasNode(start)
    ensures var r := Search(e, start, target).engine;
      && Done(r) <= |r.visitOrder|
      && (|r.steps| > 0 && Last(r.steps).action == Complete ==> Done(r) == |r.visitOrder|)
      && (forall i | 0 <= i < Done(r) :: Closed(r, r.visitOrder[i]))
      && forall i | 0 <= i < Done(r) :: i < |r.order| && r.order[i] == r.visitOrder[i]
  {
    FinalInv(e, start, target);
  }

  /**
   The BFS tree: the start node is the root, first inserted, at level 0
   without a parent; every other reached node has as parent a dequeued
   neighbour one level up. So the parent links are consistent with the
   levels, which is what `get_path_to_node` relies on.
   */
  lemma SearchTree(e: Engine, start: Node, target: Option<Node>)
    requires e.graph.Valid() && e.graph.HasNode(start)
    ensures var r := Search(e, start, target).engine;
      && start in r.visited && start in r.level && start in r.parent
      && r.level[start] == 0 && r.parent[start].None? && |r.order| > 0 && r.order[0] == start
      && (forall m | m in r.parent && r.parent[m].None? :: m == start)
      && (forall m | m in r.parent && r.parent[m].Some? ::
            r.parent[m].value in r.visitOrder && e.graph.HasEdge(r.parent[m].value, m))
      && (forall m | m in r.parent && r.parent[m].Some? ::
            m in r.level && r.parent[m].value in r.level && r.level[m] == r.level[r.parent[m].value] + 1)
      && Linked(r)
  {
    FinalInv(e, start, target);
    var r := Search(e, start, target).engine;
    assert forall m | m in r.parent :: TreeLink(r, start, m);
  }

  /** A search that runs to the `complete` step reaches the start's whole component. */
  lemma SearchCovers(e: Engine, start: Node, target: Option<Node>)
    requires e.graph.Valid() && e.graph.HasNode(start)
    ensures var r := Search(e, start, target);
      |r.engine.steps| > 0 && Last(r.engine.steps).action == Complete ==>
        r.engine.visited == Component(e.graph, start)
  {
    SearchEnds(e, start, target);
    SearchRecords(e, start, target);
    SearchClosed(e, start, target);
    SearchTree(e, start, target);
    SearchSound(e, start, target);
    var r := Search(e, start, target).engine;
    var g := e.graph;
    if Last(r.steps).action == Complete {
      NeighboursReached(r);
      ClosedIsComponent(g, start, r.visited);
    }
  }

  /** Once the queue is empty and every dequeued node is closed, the reached set holds all its neighbours. */
  lemma NeighboursReached(r: Engine)
    requires r.queue == [] && r.order == r.visitOrder + r.queue && Elems(r.order) == r.visited
    requires Done(r) == |r.visitOrder| && forall i | 0 <= i < Done(r) :: Closed(r, r.visitOrder[i])
    ensures forall a, b | a in r.visited && r.graph.HasEdge(a, b) :: b in r.visited
  {
    forall a, b | a in r.visited && r.graph.HasEdge(a, b)
      ensures b in r.visited
    {
      var i :| 0 <= i < |r.order| && r.order[i] == a;
      assert Closed(r, r.visitOrder[i]);
    }
  }

  /** Without a target the search always runs to the `complete` step, having reached the start's whole component. */
  lemma SearchWithoutTarget(e: Engine, start: Node, target: Option<Node>)
    requires e.graph.Valid() && e.graph.HasNode(start) && !Truthy(target)
    ensures var r := Search(e, start, target).engine;
      && |r.steps| > 0 && Last(r.steps).action == Complete && Last(r.steps).foundTarget
      && r.visited == Component(e.graph, start)
  {
    SearchEnds(e, start, target);
    SearchFoundFlag(e, start, target);
    SearchCovers(e, start, target);
    var s := Search(e, start, target).engine.steps;
    assert Last(s).action != Visit by {
      SearchVisits(e, start, target);
      assert VisitAt(e.graph, s, |s| - 1, start, target);
    }
  }

  /** Without a target, a search from a node of a connected graph reaches every node: 100% completion. */
  lemma SearchCompletesConnected(e: Engine, start: Node, target: Option<Node>)
    requires e.graph.Valid() && e.graph.HasNode(start) && !Truthy(target)
    requires Component(e.graph, start) == e.graph.Nodes()
    ensures var r := Search(e, start, target).engine;
      r.visited == e.graph.Nodes() && GetStatistics(r).completionRate == 100.0
  {
    SearchWithoutTarget(e, start, target);
  }

  /** With a target, the search stops on it exactly when it is reachable from the start. */
  lemma SearchFindsReachable(e: Engine, start: Node, target: Option<Node>)
    requires e.graph.Valid() && e.graph.HasNode(start) && Truthy(target)
    ensures var s := Search(e, start, target).engine.steps;
      |s| > 0 &&
      (target.value in Component(e.graph, start) <==>
        Last(s).action == Visit && Last(s).foundTarget && Last(s).current == target)
  {
    FinalInv(e, start, target);
    SearchEnds(e, start, target);
    SearchFoundFlag(e, start, target);
    SearchSound(e, start, target);
    SearchCovers(e, start, target);
    var s := Search(e, start, target).engine.steps;
    if Last(s).action == Visit {
      assert VisitAt(e.graph, s, |s| - 1, start, target);
    }
  }

  /**
   Each `queue_update` step follows a visit of the same node that did not
   find the target and shows its queue with that node's unvisited
   neighbours appended, smallest id first; a visit that did not find the
   target is followed by one exactly when that node had an unvisited
   neighbour.
   */
  lemma SearchQueueUpdates(e: Engine, start: Node, target: Option<Node>)
    requires e.graph.Valid() && e.graph.HasNode(start)
    ensures var s := Search(e, start, target).engine.steps;
      && (forall i | 0 <= i < |s| :: UpdateAt(e.graph, s, i))
      && (forall i | 0 <= i < |s| - 1 :: UpdateAfter(e.graph, s, i))
  {
    FinalInv(e, start, target);
  }

  /**
   The first step visits the start node; every later visit dequeues the
   front of the queue the previous step showed. Each visit names a node of
   the graph, last in its visit order, and flags it iff it is the target.
   */
  lemma SearchVisits(e: Engine, start: Node, target: Option<Node>)
    requires e.graph.Valid() && e.graph.HasNode(start)
    ensures var s := Search(e, start, target).engine.steps;
      forall i | 0 <= i < |s| :: VisitAt(e.graph, s, i, start, target)
  {
    FinalInv(e, start, target);
  }

  /** Levels never decrease along the dict insertion order. */
  lemma SearchInsertionLevels(e: Engine, start: Node, target: Option<Node>)
    requires e.graph.Valid() && e.graph.HasNode(start)
    ensures var r := Search(e, start, target).engine;
      && (forall i, j | 0 <= i < j < |r.order| :: LevelLe(r.level, r.order[i], r.order[j]))
      && StopBound(r)
  {
    FinalInv(e, start, target);
  }

  /**
   Levels never decrease along the dict insertion order; and if the run
   stopped on the target before examining its neighbours, every node
   still queued is at most one level below it.
   */
  lemma SearchLayers(e: Engine, start: Node, target: Option<Node>)
    requires e.graph.Valid() && e.graph.HasNode(start)
    ensures var r := Search(e, start, target).engine;
      && (forall i, j | 0 <= i < j < |r.order| :: LevelLe(r.level, r.order[i], r.order[j]))
      && (Done(r) < |r.order| ==>
            forall j | Done(r) <= j < |r.order| ::
              r.order[j] in r.level && r.order[Done(r)] in r.level
              && r.level[r.order[j]] <= r.level[r.order[Done(r)]] + 1)
  {
    SearchEnds(e, start, target);
    SearchRecords(e, start, target);
    SearchInsertionLevels(e, start, target);
    LayersOf(Search(e, start, target).engine);
  }

  /** The layering of an engine whose insertion order is sorted by level and which keeps the stop bound. */
  lemma LayersOf(r: Engine)
    requires forall i, j | 0 <= i < j < |r.order| :: LevelLe(r.level, r.order[i], r.order[j])
    requires StopBound(r) && r.isComplete && |r.steps| > 0 && r.order == r.visitOrder + r.queue
    requires Last(r.steps).action == Visit ==> |r.visitOrder| > 0
    requires Last(r.steps).action != Visit ==> r.queue == []
    ensures Done(r) < |r.order| ==>
      forall j | Done(r) <= j < |r.order| ::
        r.order[j] in r.level && r.order[Done(r)] in r.level
        && r.level[r.order[j]] <= r.level[r.order[Done(r)]] + 1
  {
    if Last(r.steps).action == Visit {
      FrontierBound(r);
    }
  }

  /** The frontier a run that stopped on the target leaves behind, from the sorted levels and the stop bound. */
  lemma FrontierBound(r: Engine)
    requires forall i, j | 0 <= i < j < |r.order| :: LevelLe(r.level, r.order[i], r.order[j])
    requires StopBound(r) && r.isComplete && |r.steps| > 0 && Last(r.steps).action == Visit
    requires 0 < |r.visitOrder| && r.order == r.visitOrder + r.queue
    ensures forall j | |r.visitOrder| - 1 <= j < |r.order| ::
      r.order[j] in r.level && r.order[|r.visitOrder| - 1] in r.level
      && r.level[r.order[j]] <= r.level[r.order[|r.visitOrder| - 1]] + 1
  {
    assert r.order[|r.visitOrder| - 1] == Last(r.visitOrder);
    forall j | |r.visitOrder| - 1 <= j < |r.order|
      ensures r.order[j] in r.level && r.level[r.order[j]] <= r.level[Last(r.order)]
    {
      if j < |r.order| - 1 {
        assert LevelLe(r.level, r.order[j], r.order[|r.order| - 1]);
      }
    }
  }

  /** Nodes are dequeued in order of their level: the visit order never goes back up the tree. */
  lemma SearchLevelsSorted(e: Engine, start: Node, target: Option<Node>)
    requires e.graph.Valid() && e.graph.HasNode(start)
    ensures var r := Search(e, start, target).engine;
      forall i, j | 0 <= i < j < |r.visitOrder| ::
        r.visitOrder[i] in r.level && r.visitOrder[j] in r.level
        && r.level[r.visitOrder[i]] <= r.level[r.visitOrder[j]]
  {
    SearchRecords(e, start, target);
    SearchInsertionLevels(e, start, target);
    var r := Search(e, start, target).engine;
    SortedPrefix(r.order, r.visitOrder, r.queue, r.level);
    forall i, j | 0 <= i < j < |r.visitOrder|
      ensures r.visitOrder[i] in r.level && r.visitOrder[j] in r.level
        && r.level[r.visitOrder[i]] <= r.level[r.visitOrder[j]]
    {
      assert LevelLe(r.level, r.visitOrder[i], r.visitOrder[j]);
    }
  }

  /** A prefix of a list sorted by level is sorted by level. */
  lemma {:induction false} SortedPrefix(order: seq<Node>, front: seq<Node>, back: seq<Node>, level: map<Node, nat>)
    requires order == front + back
    requires forall i, j | 0 <= i < j < |order| :: LevelLe(level, order[i], order[j])
    ensures forall i, j | 0 <= i < j < |front| :: LevelLe(level, front[i], front[j])
  {
    forall i, j | 0 <= i < j < |front|
      ensures LevelLe(level, front[i], front[j])
    {
      assert order[i] == front[i] && order[j] == front[j];
      assert LevelLe(level, order[i], order[j]);
    }
  }

  // ---------------------------------------------------------------------------
  // Levels are shortest distances

  /**
   The heart of breadth-first search: given a prefix of the insertion order
   whose nodes are closed, non-decreasing levels along that order, and
   every node after the prefix at most one level below its first node, no
   walk from the start reaches a node in fewer steps than its level.
   */
  lemma WalkBound(r: Engine, start: Node, d: nat, p: seq<Node>)
    requires forall x | x in r.visited :: x in r.order
    requires r.level.Keys == r.visited && start in r.visited && r.level[start] == 0
    requires d <= |r.order| && forall i | 0 <= i < d :: Closed(r, r.order[i])
    requires forall i, j | 0 <= i < j < |r.order| :: LevelLe(r.level, r.order[i], r.order[j])
    requires d < |r.order| ==>
      forall j | d <= j < |r.order| ::
        r.order[j] in r.level && r.order[d] in r.level && r.level[r.order[j]] <= r.level[r.order[d]] + 1
    requires IsWalk(r.graph, p) && p[0] == start && Last(p) in r.visited
    ensures r.level[Last(p)] <= |p| - 1
  {
    var k := 0;
    while k < |p| - 1 && exists i | 0 <= i < d :: r.order[i] == p[k]
      invariant 0 <= k < |p| && p[k] in r.visited && r.level[p[k]] <= k
    {
      var i :| 0 <= i < d && r.order[i] == p[k];
      assert Closed(r, r.order[i]);
      assert r.graph.HasEdge(p[k], p[k + 1]);
      k := k + 1;
    }
    if k < |p| - 1 {
      // p[k] is reached but not closed: it sits at or after position d.
      var j :| 0 <= j < |r.order| && r.order[j] == p[k];
      assert d <= j;
      assert r.level[r.order[d]] <= r.level[p[k]] by {
        if d < j {
          assert LevelLe(r.level, r.order[d], r.order[j]);
        }
      }
      var jm :| 0 <= jm < |r.order| && r.order[jm] == Last(p);
      if jm < d {
        assert LevelLe(r.level, r.order[jm], r.order[d]);
      }
    }
  }

  /** No walk from the start reaches a node in fewer steps than the level the search gave it. */
  lemma SearchLevelsMinimal(e: Engine, start: Node, target: Option<Node>)
    requires e.graph.Valid() && e.graph.HasNode(start)
    ensures var r := Search(e, start, target).engine;
      forall p | IsWalk(e.graph, p) && p[0] == start && Last(p) in r.level :: r.level[Last(p)] <= |p| - 1
  {
    SearchRecords(e, start, target);
    SearchTree(e, start, target);
    SearchClosed(e, start, target);
    SearchLayers(e, start, target);
    LevelsMinimal(Search(e, start, target).engine, start);
  }

  /** `WalkBound` for every walk, with the examined prefix as the closed part. */
  lemma LevelsMinimal(r: Engine, start: Node)
    requires r.order == r.visitOrder + r.queue && Elems(r.order) == r.visited && r.level.Keys == r.visited
    requires start in r.visited && start in r.level && r.level[start] == 0
    requires Done(r) <= |r.visitOrder|
    requires forall i | 0 <= i < Done(r) :: Closed(r, r.visitOrder[i])
    requires forall i | 0 <= i < Done(r) :: i < |r.order| && r.order[i] == r.visitOrder[i]
    requires forall i, j | 0 <= i < j < |r.order| :: LevelLe(r.level, r.order[i], r.order[j])
    requires Done(r) < |r.order| ==>
      forall j | Done(r) <= j < |r.order| ::
        r.order[j] in r.level && r.order[Done(r)] in r.level
        && r.level[r.order[j]] <= r.level[r.order[Done(r)]] + 1
    ensures forall p | IsWalk(r.graph, p) && p[0] == start && Last(p) in r.level :: r.level[Last(p)] <= |p| - 1
  {
    assert forall x | x in r.visited :: x in r.order;
    assert forall i | 0 <= i < Done(r) :: Closed(r, r.order[i]);
    forall p | IsWalk(r.graph, p) && p[0] == start && Last(p) in r.level
      ensures r.level[Last(p)] <= |p| - 1
    {
      WalkBound(r, start, Done(r), p);
    }
  }

  /**
   `get_path_to_node(n)` after a run: a path exactly for the reached nodes,
   running from the start to `n` along edges of the graph, with as many
   steps as `n`'s level.
   */
  lemma SearchPaths(e: Engine, start: Node, target: Option<Node>, n: Node)
    requires e.graph.Valid() && e.graph.HasNode(start)
    ensures var r := Search(e, start, target).engine;
      && Linked(r)
      && (PathTo(r, n).Some? <==> n in r.visited)
      && (PathTo(r, n).Some? ==>
            && IsWalk(e.graph, PathTo(r, n).value)
            && PathTo(r, n).value[0] == start && Last(PathTo(r, n).value) == n
            && |PathTo(r, n).value| == r.level[n] + 1)
  {
    SearchRecords(e, start, target);
    SearchTree(e, start, target);
    var r := Search(e, start, target).engine;
    if PathTo(r, n).Some? {
      var w := PathTo(r, n).value;
      forall i | 0 <= i < |w| - 1
        ensures e.graph.HasEdge(w[i], w[i + 1])
      {
        assert r.parent[w[i + 1]] == Some(w[i]);
      }
    }
  }

  /**
   `get_shortest_distance(n)` after a run: defined exactly for the reached
   nodes, and then the length of a shortest walk from the start: some walk
   has that many steps and none has fewer. A run that reached the
   `complete` step gives a distance exactly to the nodes reachable from the
   start.
   */
  lemma SearchShortestDistance(e: Engine, start: Node, target: Option<Node>, n: Node)
    requires e.graph.Valid() && e.graph.HasNode(start)
    ensures var r := Search(e, start, target).engine; var d := ShortestDistance(r, n);
      && (d.Some? <==> n in r.visited)
      && (d.Some? ==> exists w :: IsWalk(e.graph, w) && w[0] == start && Last(w) == n && |w| == d.value + 1)
      && (d.Some? ==> forall w | IsWalk(e.graph, w) && w[0] == start && Last(w) == n :: d.value <= |w| - 1)
      && (|r.steps| > 0 && Last(r.steps).action == Complete ==> (d.Some? <==> n in Component(e.graph, start)))
  {
    SearchRecords(e, start, target);
    SearchPaths(e, start, target, n);
    SearchLevelsMinimal(e, start, target);
    SearchSound(e, start, target);
    SearchCovers(e, start, target);
    DistanceOf(Search(e, start, target).engine, e.graph, start, n);
  }

  /** The distance query of an engine whose path and levels have the properties a finished run gives them. */
  lemma DistanceOf(r: Engine, g: Graph, start: Node, n: Node)
    requires r.graph == g && r.level.Keys == r.visited && Linked(r)
    requires PathTo(r, n).Some? <==> n in r.visited
    requires PathTo(r, n).Some? ==>
      && IsWalk(g, PathTo(r, n).value)
      && PathTo(r, n).value[0] == start && Last(PathTo(r, n).value) == n
      && |PathTo(r, n).value| == r.level[n] + 1
    requires forall p | IsWalk(g, p) && p[0] == start && Last(p) in r.level :: r.level[Last(p)] <= |p| - 1
    requires |r.steps| > 0 && Last(r.steps).action == Complete ==> r.visited == Component(g, start)
    ensures var d := ShortestDistance(r, n);
      && (d.Some? <==> n in r.visited)
      && (d.Some? ==> exists w :: IsWalk(g, w) && w[0] == start && Last(w) == n && |w| == d.value + 1)
      && (d.Some? ==> forall w | IsWalk(g, w) && w[0] == start && Last(w) == n :: d.value <= |w| - 1)
      && (|r.steps| > 0 && Last(r.steps).action == Complete ==> (d.Some? <==> n in Component(g, start)))
  {
    if n in r.visited {
      var w := PathTo(r, n).value;
      assert IsWalk(g, w) && w[0] == start && Last(w) == n;
    }
  }

  /**
   The per-node queries after a run: a node has a level exactly when it was
   reached, and a parent exactly when it was reached and is not the start;
   the parent is a neighbour one level up. A visit time means the node was
   reached, and after a run that reached the `complete` step every reached
   node has one.
   */
  lemma SearchQueries(e: Engine, start: Node, target: Option<Node>, n: Node)
    requires e.graph.Valid() && e.graph.HasNode(start)
    ensures var r := Search(e, start, target).engine;
      && (GetNodeLevel(r, n).Some? <==> IsNodeVisited(r, n))
      && (GetParent(r, n).Some? <==> IsNodeVisited(r, n) && n != start)
      && (GetParent(r, n).Some? ==>
            && e.graph.HasEdge(GetParent(r, n).value, n)
            && GetNodeLevel(r, GetParent(r, n).value).Some?
            && GetNodeLevel(r, n).value == GetNodeLevel(r, GetParent(r, n).value).value + 1)
      && (GetVisitTime(r, n).Some? ==> IsNodeVisited(r, n))
      && (|r.steps| > 0 && Last(r.steps).action == Complete ==> (GetVisitTime(r, n).Some? <==> IsNodeVisited(r, n)))
  {
    SearchRecords(e, start, target);
    SearchTree(e, start, target);
    SearchEnds(e, start, target);
    var r := Search(e, start, target).engine;
    assert n in r.visitOrder ==> n in r.order;
    if |r.steps| > 0 && Last(r.steps).action == Complete {
      assert r.order == r.visitOrder;
    }
  }

  /**
   Listing the tree edges of a duplicate-free key list in which only the
   root lacks a parent leaves out exactly the root.
   */
  lemma {:induction false} EdgesOfCount(xs: seq<Node>, parent: map<Node, Option<Node>>, root: Node)
    requires NoDup(xs) && forall x | x in xs :: x in parent && (parent[x].None? <==> x == root)
    ensures |EdgesOf(xs, parent)| == |xs| - (if root in xs then 1 else 0)
  {
    if xs != [] {
      EdgesOfCount(xs[1..], parent, root);
      assert root in xs <==> root == xs[0] || root in xs[1..];
      assert xs[0] !in xs[1..];
    }
  }

  /**
   `get_tree_edges()` after a run: one edge per reached node other than the
   start, each joining a node to a neighbour one level further down.
   */
  lemma SearchTreeEdges(e: Engine, start: Node, target: Option<Node>)
    requires e.graph.Valid() && e.graph.HasNode(start)
    ensures var r := Search(e, start, target).engine;
      && |TreeEdges(r)| == |r.visited| - 1
      && forall p, c | (p, c) in TreeEdges(r) ::
           e.graph.HasEdge(p, c) && p in r.level && c in r.level && r.level[c] == r.level[p] + 1
  {
    SearchRecords(e, start, target);
    SearchTree(e, start, target);
    var r := Search(e, start, target).engine;
    EdgesOfCount(r.order, r.parent, start);
    NoDupCardinality(r.order);
  }

  /** The `level_counts` list for the nodes `xs`, levels 0 to `top`. */
  function LevelCounts(xs: seq<Node>, level: map<Node, nat>, top: nat): (r: seq<nat>)
    ensures |r| == top + 1
    ensures forall k | 0 <= k <= top :: r[k] == |AtLevel(xs, level, k)|
  {
    seq(top + 1, k requires 0 <= k <= top => |AtLevel(xs, level, k)|)
  }

  /** Counting nodes level by level counts every node once. */
  lemma {:induction false} LevelCountsTotal(xs: seq<Node>, level: map<Node, nat>, top: nat)
    requires forall x | x in xs :: x in level && level[x] <= top
    ensures Sum(LevelCounts(xs, level, top)) == |xs|
  {
    var c := LevelCounts(xs, level, top);
    if xs == [] {
      SumZeros(c);
    } else {
      var rest := LevelCounts(xs[1..], level, top);
      LevelCountsTotal(xs[1..], level, top);
      var j := level[xs[0]];
      assert c == rest[j := rest[j] + 1];
      SumBump(rest, j);
    }
  }

  /**
   `get_statistics()` after a run: the level counts add up to the number of
   reached nodes; only the start is at level 0; the deepest level is that
   of the last node inserted, since levels never decrease along the
   insertion order. The unvisited count is the number of nodes never
   reached, and the completion rate is 100 exactly when all were reached.
   */
  lemma SearchStatistics(e: Engine, start: Node, target: Option<Node>)
    requires e.graph.Valid() && e.graph.HasNode(start)
    ensures var r := Search(e, start, target).engine; var st := GetStatistics(r);
      && Sum(st.levelCounts) == st.visitedNodes
      && st.levelCounts[0] == 1
      && |r.order| > 0 && Last(r.order) in r.level && st.maxLevel == r.level[Last(r.order)]
      && st.unvisitedNodes == |e.graph.Nodes() - r.visited|
      && (st.completionRate == 100.0 <==> r.visited == e.graph.Nodes())
  {
    SearchRecords(e, start, target);
    SearchTree(e, start, target);
    SearchInsertionLevels(e, start, target);
    SearchSound(e, start, target);
    StatisticsOf(Search(e, start, target).engine, start);
    SubsetCounts(e.graph.Nodes(), Search(e, start, target).engine.visited);
  }

  /** The statistics of a finished object, from its bookkeeping, its tree and its sorted levels. */
  lemma StatisticsOf(r: Engine, start: Node)
    requires NoDup(r.order) && Elems(r.order) == r.visited && r.level.Keys == r.visited && r.parent.Keys == r.visited
    requires |r.order| > 0 && r.order[0] == start && start in r.level && r.level[start] == 0
    requires forall m | m in r.parent && r.parent[m].None? :: m == start
    requires Linked(r)
    requires forall i, j | 0 <= i < j < |r.order| :: LevelLe(r.level, r.order[i], r.order[j])
    ensures var st := GetStatistics(r);
      && Sum(st.levelCounts) == st.visitedNodes
      && st.levelCounts[0] == 1
      && Last(r.order) in r.level && st.maxLevel == r.level[Last(r.order)]
  {
    var st := GetStatistics(r);
    assert st.levelCounts == LevelCounts(r.order, r.level, st.maxLevel);
    LevelCountsTotal(r.order, r.level, st.maxLevel);
    NoDupCardinality(r.order);
    StartAlone(r, start);
    DeepestLast(r.level, r.order);
  }

  /** With levels non-decreasing along `order`, the deepest level is that of its last node. */
  lemma DeepestLast(level: map<Node, nat>, order: seq<Node>)
    requires |order| > 0 && forall m | m in level :: m in order
    requires forall x | x in order :: x in level
    requires forall i, j | 0 <= i < j < |order| :: LevelLe(level, order[i], order[j])
    ensures Last(order) in level && MaxLevel(level) == level[Last(order)]
  {
    forall m | m in level
      ensures level[m] <= level[Last(order)]
    {
      var i :| 0 <= i < |order| && order[i] == m;
      if i < |order| - 1 {
        assert LevelLe(level, order[i], order[|order| - 1]);
      }
    }
  }

  /** Only the root of a tree of levels sits at level 0. */
  lemma StartAlone(r: Engine, start: Node)
    requires NoDup(r.order) && |r.order| > 0 && r.order[0] == start
    requires forall x | x in r.order :: x in r.level && x in r.parent
    requires start in r.level && r.level[start] == 0
    requires forall m | m in r.parent && r.parent[m].None? :: m == start
    requires Linked(r)
    ensures |AtLevel(r.order, r.level, 0)| == 1
  {
    assert r.order == [start] + r.order[1..];
    assert forall x | x in r.order[1..] :: x != start;
    NoneAtLevel0(r.order[1..], r, start);
  }

  lemma {:induction false} NoneAtLevel0(xs: seq<Node>, r: Engine, start: Node)
    requires forall x | x in xs :: x in r.parent && x != start
    requires forall m | m in r.parent && r.parent[m].None? :: m == start
    requires Linked(r)
    ensures AtLevel(xs, r.level, 0) == []
  {
    if xs != [] {
      NoneAtLevel0(xs[1..], r, start);
    }
  }
}
