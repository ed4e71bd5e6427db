/**
 What a breadth-first run records, proved as invariants of the search
 loop: each predicate below holds of every generator state `Drive` passes
 through, so it holds of the finished run.
 */
module BfsProofs {
  import opened Wrappers
  import opened NodeOrder
  import opened Seqs
  import opened Graphs
  import opened Records
  import opened Bfs

  /** The records yielded for a list of steps. */
  function Snapshots(steps: seq<Step>): (r: seq<Record>)
    ensures |r| == |steps|
    ensures forall i | 0 <= i < |steps| :: r[i] == Snapshot(steps[i])
  {
    seq(|steps|, i requires 0 <= i < |steps| => Snapshot(steps[i]))
  }

  /** The neighbours of `n` not in `visited`: what a visit of `n` enqueues. */
  function Fresh(g: Graph, n: Node, visited: set<Node>): set<Node>
    requires n in g.adj
  {
    set m | m in g.adj[n] && m !in visited
  }

  /** The object after marking `m` as reached from `n`: one iteration of the neighbour loop that adds `m`. */
  function Adopt(e: Engine, n: Node, m: Node): Engine
    requires n in e.level
  {
    e.(visited := e.visited + {m}, parent := e.parent[m := Some(n)],
       level := e.level[m := e.level[n] + 1], queue := e.queue + [m], order := e.order + [m])
  }

  /**
   The neighbour loop leaves the steps alone, inserts the added nodes into
   the dicts in the order it adds them, and adds no node twice.
   */
  lemma {:induction false} DiscoverBook(e: Engine, n: Node, ns: seq<Node>)
    requires n in e.visited && n in e.level
    ensures var r := Discover(e, n, ns);
      && r.0.order == e.order + r.1 && NoDup(r.1)
      && forall m :: m in r.0.parent <==> m in e.parent || m in r.1
    decreases |ns|
  {
    if ns != [] {
      var m := ns[0];
      if m in e.visited {
        DiscoverBook(e, n, ns[1..]);
      } else {
        var e1 := Adopt(e, n, m);
        DiscoverBook(e1, n, ns[1..]);
        var r1 := Discover(e1, n, ns[1..]);
        assert Discover(e, n, ns) == (r1.0, [m] + r1.1);
        assert m !in r1.1;
        assert e.order + ([m] + r1.1) == e.order + [m] + r1.1;
      }
    }
  }

  /** The neighbour loop records nothing. */
  lemma {:induction false} DiscoverKeepsSteps(e: Engine, n: Node, ns: seq<Node>)
    requires n in e.visited && n in e.level
    ensures Discover(e, n, ns).0.steps == e.steps && Discover(e, n, ns).0.currentStep == e.currentStep
    decreases |ns|
  {
    if ns != [] {
      if ns[0] in e.visited {
        DiscoverKeepsSteps(e, n, ns[1..]);
      } else {
        DiscoverKeepsSteps(Adopt(e, n, ns[0]), n, ns[1..]);
      }
    }
  }

  /** Each added node gets `n` as parent and the level after `n`'s; other entries stay as they were. */
  lemma {:induction false} DiscoverLinks(e: Engine, n: Node, ns: seq<Node>)
    requires n in e.visited && n in e.level
    ensures var r := Discover(e, n, ns);
      && (forall m | m in r.1 :: m in r.0.level && m in r.0.parent && r.0.level[m] == e.level[n] + 1 && r.0.parent[m] == Some(n))
      && (forall m | m in e.level && m !in r.1 :: m in r.0.level && r.0.level[m] == e.level[m])
      && (forall m | m in e.parent && m !in r.1 :: m in r.0.parent && r.0.parent[m] == e.parent[m])
    decreases |ns|
  {
    if ns != [] {
      var m := ns[0];
      if m in e.visited {
        DiscoverLinks(e, n, ns[1..]);
      } else {
        var e1 := Adopt(e, n, m);
        DiscoverLinks(e1, n, ns[1..]);
        DiscoverBook(e1, n, ns[1..]);
        var r1 := Discover(e1, n, ns[1..]);
        assert Discover(e, n, ns) == (r1.0, [m] + r1.1);
        assert m !in r1.1;
      }
    }
  }

  /** `added_neighbors` lists the neighbours not yet visited, smallest id first. */
  lemma {:induction false} DiscoverAscending(e: Engine, n: Node, ns: seq<Node>)
    requires n in e.visited && n in e.level && Ascending(ns)
    ensures Ascending(Discover(e, n, ns).1)
    decreases |ns|
  {
    if ns != [] {
      var m := ns[0];
      assert Ascending(ns[1..]);
      if m in e.visited {
        DiscoverAscending(e, n, ns[1..]);
      } else {
        var e1 := Adopt(e, n, m);
        var rest := Discover(e1, n, ns[1..]).1;
        assert Discover(e, n, ns).1 == [m] + rest;
        DiscoverAscending(e1, n, ns[1..]);
        forall x | x in rest
          ensures Below(m, x)
        {
          var k :| 0 <= k < |ns[1..]| && ns[1..][k] == x;
          assert ns[k + 1] == x;
        }
        AscendingCons(m, rest);
      }
    }
  }

  lemma AscendingCons(m: Node, rest: seq<Node>)
    requires Ascending(rest) && forall x | x in rest :: Below(m, x)
    ensures Ascending([m] + rest)
  {
    forall i, j | 0 <= i < j < |[m] + rest|
      ensures Below(([m] + rest)[i], ([m] + rest)[j])
    {
      assert ([m] + rest)[j] == rest[j - 1];
      if i > 0 {
        assert ([m] + rest)[i] == rest[i - 1];
      }
    }
  }

  lemma DiscoverAdds(g: Graph, e: Engine, n: Node)
    requires g.Valid() && n in g.adj && n in e.visited && n in e.level
    ensures Discover(e, n, Neighbours(g, n)).1 == SortAscending(Fresh(g, n, e.visited))
  {
    SortAscendingAscending(g.adj[n]);
    DiscoverAscending(e, n, Neighbours(g, n));
    AscendingUnique(Discover(e, n, Neighbours(g, n)).1, Fresh(g, n, e.visited));
  }

  /** Ends the run: the `complete` step, or the visit that found the target. */
  predicate Terminal(st: Step) {
    st.action == Complete || st.foundTarget
  }

  // ---------------------------------------------------------------------------
  // The loop invariant, piece by piece

  /**
   The dict bookkeeping: the keys of `parent` and `level`, in insertion
   order, are the nodes dequeued so far followed by the queue; no node is
   enqueued twice; and `visited` is exactly that set of keys.
   */
  predicate Bookkept(e: Engine) {
    && e.order == e.visitOrder + e.queue
    && NoDup(e.order)
    && Elems(e.order) == e.visited
    && e.level.Keys == e.visited && e.parent.Keys == e.visited
  }

  /** Level `a` is at most level `b`, both being keys. */
  predicate LevelLe(level: map<Node, nat>, a: Node, b: Node) {
    a in level && b in level && level[a] <= level[b]
  }

  /**
   Levels never decrease along the insertion order, and the last node
   inserted is at most one level below the front of the queue.
   */
  predicate Sorted(e: Engine) {
    && (forall i, j | 0 <= i < j < |e.order| :: LevelLe(e.level, e.order[i], e.order[j]))
    && (e.queue != [] && |e.order| > 0 ==>
          Last(e.order) in e.level && e.queue[0] in e.level && e.level[Last(e.order)] <= e.level[e.queue[0]] + 1)
  }

  /** The parent link of `m`: none for the start node, otherwise a dequeued neighbour one level up. */
  predicate TreeLink(e: Engine, start: Node, m: Node)
    requires m in e.parent
  {
    && (e.parent[m].None? ==> m == start)
    && (e.parent[m].Some? ==>
          && e.parent[m].value in e.visitOrder && e.graph.HasEdge(e.parent[m].value, m)
          && e.parent[m].value in e.level && m in e.level
          && e.level[m] == e.level[e.parent[m].value] + 1)
  }

  /** The start node is the root: first inserted, level 0, no parent; every other key links to its parent. */
  predicate Tree(e: Engine, start: Node) {
    && |e.order| > 0 && e.order[0] == start
    && start in e.parent && e.parent[start].None?
    && start in e.level && e.level[start] == 0
    && (forall m | m in e.parent :: TreeLink(e, start, m))
  }

  /**
   A step is a snapshot of the object `e` or of an earlier state: its visit
   order is a prefix of the current one, its visited set and levels are
   contained in the current ones (a level never changes once set), and it
   has a level for exactly its visited nodes.
   */
  predicate AgreesWith(st: Step, e: Engine) {
    && st.visitOrder <= e.visitOrder
    && st.visited <= e.visited
    && st.level.Keys == st.visited
    && Elems(st.visitOrder) <= st.visited
    && (forall m | m in st.level :: m in e.level && e.level[m] == st.level[m])
  }

  /** Every step agrees with the object. */
  predicate SnapshotsAgree(e: Engine) {
    forall i | 0 <= i < |e.steps| :: AgreesWith(e.steps[i], e)
  }

  /** The steps are numbered 1, 2, 3, ... without gaps, and the counter is the number of the last one. */
  predicate Numbered(f: Frame) {
    var s := f.engine.steps;
    && (forall i | 0 <= i < |s| :: s[i].number == i + 1)
    && (!f.engine.isComplete ==> f.count == |s|)
  }

  /**
   Step `i`, if a visit, names a node of the graph, last in its visit order,
   flags it exactly when it is the target, and (FIFO) is the front of the
   queue the previous step showed; the first step visits the start node.
   */
  predicate VisitAt(g: Graph, s: seq<Step>, i: nat, start: Node, target: Option<Node>)
    requires i < |s|
  {
    s[i].action == Visit ==>
      && s[i].current.Some? && s[i].current.value in g.adj
      && |s[i].visitOrder| > 0 && Last(s[i].visitOrder) == s[i].current.value
      && (s[i].foundTarget <==> Sought(target, s[i].current.value))
      && s[i].level.Keys == s[i].visited && s[i].current.value in s[i].visited
      && (i == 0 ==> s[i].current.value == start && s[i].queue == [] && s[i].visitOrder == [start])
      && (0 < i ==>
            && s[i - 1].queue != [] && s[i].current.value == s[i - 1].queue[0]
            && s[i].queue == s[i - 1].queue[1..]
            && s[i].visited == s[i - 1].visited && s[i].level == s[i - 1].level
            && s[i].visitOrder == s[i - 1].visitOrder + [s[i].current.value])
  }

  /**
   Step `i`, if a `queue_update`, follows a visit of the same node that did
   not find the target, and adds to its queue exactly that node's unvisited
   neighbours, smallest id first.
   */
  predicate UpdateAt(g: Graph, s: seq<Step>, i: nat)
    requires i < |s|
  {
    s[i].action.QueueUpdate? ==>
      && 0 < i && s[i - 1].action == Visit && !s[i - 1].foundTarget
      && s[i - 1].current.Some? && s[i - 1].current.value in g.adj
      && s[i].action.added == SortAscending(Fresh(g, s[i - 1].current.value, s[i - 1].visited))
      && s[i].action.added != []
      && s[i].queue == s[i - 1].queue + s[i].action.added
      && s[i].visited == s[i - 1].visited + Elems(s[i].action.added)
      && s[i].current == s[i - 1].current && !s[i].foundTarget
      && s[i].visitOrder == s[i - 1].visitOrder
  }

  /** If step `i` is a visit that did not find the target, a `queue_update` follows iff it had unvisited neighbours. */
  predicate UpdateAfter(g: Graph, s: seq<Step>, i: nat)
    requires i + 1 < |s|
  {
    s[i].action == Visit && !s[i].foundTarget && s[i].current.Some? && s[i].current.value in g.adj ==>
      (s[i + 1].action.QueueUpdate? <==> Fresh(g, s[i].current.value, s[i].visited) != {})
  }

  predicate Updates(g: Graph, s: seq<Step>, start: Node, target: Option<Node>) {
    && (forall i | 0 <= i < |s| :: VisitAt(g, s, i, start, target))
    && (forall i | 0 <= i < |s| :: UpdateAt(g, s, i))
    && (forall i | 0 <= i < |s| - 1 :: UpdateAfter(g, s, i))
  }

  /** The last step is a visit that did not find the target. */
  predicate AwaitsUpdate(g: Graph, s: seq<Step>) {
    |s| > 0 && Last(s).action == Visit && !Last(s).foundTarget
    && Last(s).current.Some? && Last(s).current.value in g.adj
  }

  /**
   The steps follow the loop: visits in FIFO order, and a `queue_update`
   exactly after each visit that enqueued something; a visit recorded last
   either found the target or enqueued nothing.
   */
  predicate StepsFollow(f: Frame, start: Node, target: Option<Node>) {
    var s, g := f.engine.steps, f.engine.graph;
    && Updates(g, s, start, target)
    && (AwaitsUpdate(g, s) ==> Fresh(g, Last(s).current.value, Last(s).visited) == {})
    && (|s| == 0 ==> f.engine.queue == [start] && f.engine.visitOrder == [])
    && (|s| > 0 && !Terminal(Last(s)) ==>
          Last(s).queue == f.engine.queue && Last(s).visited == f.engine.visited
          && Last(s).level == f.engine.level && Last(s).visitOrder == f.engine.visitOrder)
  }

  /**
   Until the run ends no step is terminal and the target has not been
   dequeued; once it ends, exactly the last step is terminal, and a final
   `complete` step reports the object's state with an empty queue.
   */
  predicate Shaped(f: Frame, target: Option<Node>) {
    var e, s := f.engine, f.engine.steps;
    && (!e.isComplete ==> (forall i | 0 <= i < |s| :: !Terminal(s[i])) && !(Truthy(target) && target.value in e.visitOrder))
    && (e.isComplete ==> |s| > 0 && Terminal(Last(s)) && forall i | 0 <= i < |s| - 1 :: !Terminal(s[i]))
    && (e.isComplete && |s| > 0 && Last(s).action == Visit ==> Last(s).visitOrder == e.visitOrder)
    && (forall i | 0 <= i < |s| && s[i].action == Complete ::
          && i == |s| - 1 && e.isComplete && e.queue == []
          && s[i].current.None? && s[i].queue == []
          && s[i].visited == e.visited && s[i].visitOrder == e.visitOrder && s[i].level == e.level
          && s[i].foundTarget == FoundAtEnd(target, e.visited)
          && (!Truthy(target) || target.value !in e.visited))
  }

  /** How many dequeued nodes have had their neighbours examined: all but a target that ended the run. */
  function Done(e: Engine): nat {
    if e.isComplete && |e.steps| > 0 && Last(e.steps).action == Visit && |e.visitOrder| > 0
    then |e.visitOrder| - 1 else |e.visitOrder|
  }

  /** Every neighbour of `u` has been reached, at most one level below `u`. */
  ghost predicate Closed(e: Engine, u: Node) {
    && u in e.level
    && forall v | e.graph.HasEdge(u, v) :: v in e.visited && v in e.level && e.level[v] <= e.level[u] + 1
  }

  /** Everything reached is reachable from the start; each node whose neighbours were examined is closed. */
  ghost predicate Explores(f: Frame, start: Node) {
    var e, g := f.engine, f.engine.graph;
    && start in g.adj
    && (forall v | v in e.visited :: Reachable(g, start, v))
    && Done(e) <= |e.visitOrder|
    && (forall i | 0 <= i < Done(e) :: Closed(e, e.visitOrder[i]))
  }

  /**
   A run that stopped on the target left every queued node at most one
   level below the target (a fact about the queue when the target was at
   its front).
   */
  predicate StopBound(e: Engine) {
    e.isComplete && |e.steps| > 0 && Last(e.steps).action == Visit && |e.visitOrder| > 0 && |e.order| > 0 ==>
      && Last(e.order) in e.level && Last(e.visitOrder) in e.level
      && e.level[Last(e.order)] <= e.level[Last(e.visitOrder)] + 1
  }

  ghost predicate Inv(f: Frame, start: Node, target: Option<Node>) {
    && Sane(f)
    && f.yielded == Snapshots(f.engine.steps)
    && Bookkept(f.engine)
    && Sorted(f.engine)
    && Tree(f.engine, start)
    && SnapshotsAgree(f.engine)
    && Numbered(f)
    && StepsFollow(f, start, target)
    && Shaped(f, target)
    && Explores(f, start)
    && StopBound(f.engine)
  }
}
