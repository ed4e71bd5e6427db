/**
 The runs the sample fixtures are meant to show, derived from the general
 results: the depth-first order on the sample graph, a breadth-first
 distance on it, and full searches of the maze.
 */
module Scenarios {
  import opened Wrappers
  import opened NodeOrder
  import opened Seqs
  import opened Graphs
  import opened Records
  import opened Fixtures
  import Dfs
  import Bfs
  import DfsTheorems
  import BfsTheorems

  /**
   The neighbours of a node of the sample graph, read off the two halves of
   its edge list (each half small enough to evaluate on its own).
   */
  lemma SampleNeighbours(n: Node)
    requires n in SampleGraphNodes()
    ensures n in SampleGraph().adj
    ensures SampleGraph().adj[n] == JoinedTo(SampleGraphEdges()[..4], n) + JoinedTo(SampleGraphEdges()[4..], n)
  {
    FromListsNeighbours(SampleGraphNodes(), SampleGraphEdges(), n);
    JoinedToSplit(SampleGraphEdges(), 4, n);
  }

  lemma SampleNeighboursA()
    ensures "A" in SampleGraph().adj && SampleGraph().adj["A"] == {"B", "C"}
  {
    SampleNeighbours("A");
    SampleJoinedA();
  }

  lemma SampleJoinedA()
    ensures JoinedTo(SampleGraphEdges()[..4], "A") == {"B", "C"}
    ensures JoinedTo(SampleGraphEdges()[4..], "A") == {}
  {
  }

  lemma SampleNeighboursB()
    ensures "B" in SampleGraph().adj && SampleGraph().adj["B"] == {"A", "D", "E"}
  {
    SampleNeighbours("B");
    SampleJoinedB();
  }

  lemma SampleJoinedB()
    ensures JoinedTo(SampleGraphEdges()[..4], "B") == {"A", "D", "E"}
    ensures JoinedTo(SampleGraphEdges()[4..], "B") == {}
  {
  }

  lemma SampleNeighboursC()
    ensures "C" in SampleGraph().adj && SampleGraph().adj["C"] == {"A", "E", "F"}
  {
    SampleNeighbours("C");
    SampleJoinedC();
  }

  lemma SampleJoinedC()
    ensures JoinedTo(SampleGraphEdges()[..4], "C") == {"A"}
    ensures JoinedTo(SampleGraphEdges()[4..], "C") == {"E", "F"}
  {
  }

  lemma SampleNeighboursD()
    ensures "D" in SampleGraph().adj && SampleGraph().adj["D"] == {"B", "E"}
  {
    SampleNeighbours("D");
    SampleJoinedD();
  }

  lemma SampleJoinedD()
    ensures JoinedTo(SampleGraphEdges()[..4], "D") == {"B"}
    ensures JoinedTo(SampleGraphEdges()[4..], "D") == {"E"}
  {
  }

  lemma SampleNeighboursE()
    ensures "E" in SampleGraph().adj && SampleGraph().adj["E"] == {"B", "C", "D", "F"}
  {
    SampleNeighbours("E");
    SampleJoinedE();
  }

  lemma SampleJoinedE()
    ensures JoinedTo(SampleGraphEdges()[..4], "E") == {"B"}
    ensures JoinedTo(SampleGraphEdges()[4..], "E") == {"C", "D", "F"}
  {
  }

  // ---------------------------------------------------------------------------
  // Depth-first search of the sample graph

  /** A descending listing of the unvisited neighbours is what the push loop appends. */
  lemma PushesAre(g: Graph, n: Node, visited: set<Node>, xs: seq<Node>)
    requires n in g.adj && Descending(xs)
    requires forall x :: x in xs <==> x in g.adj[n] && x !in visited
    ensures Dfs.Pushes(g, n, visited) == xs
  {
    Dfs.PushesDescending(g, n, visited);
    DescendingUnique(Dfs.Pushes(g, n, visited), xs);
  }

  /** The generator state between iterations, field by field. */
  predicate DfsAt(f: Dfs.Frame, g: Graph, visited: set<Node>, order: seq<Node>, stack: seq<Node>) {
    && Dfs.Sane(f) && f.engine.graph == g && !f.engine.isComplete
    && f.engine.visited == visited && f.engine.visitOrder == order && f.engine.stack == stack
  }

  /**
   One loop iteration that pops a fresh node `n` other than the target and
   pushes `pushes`; the lists afterwards are named by the caller.
   */
  lemma DfsVisitStep(f: Dfs.Frame, g: Graph, target: Option<Node>, visited: set<Node>, order: seq<Node>,
                     stack: seq<Node>, rest: seq<Node>, n: Node, pushes: seq<Node>,
                     visited': set<Node>, order': seq<Node>, stack': seq<Node>)
    requires DfsAt(f, g, visited, order, stack)
    requires stack == rest + [n] && n in g.adj && n !in visited && !Sought(target, n)
    requires visited' == visited + {n} && Dfs.Pushes(g, n, visited') == pushes
    requires order' == order + [n] && stack' == rest + pushes
    ensures DfsAt(Dfs.Advance(f, target), g, visited', order', stack')
    ensures Dfs.Drive(f, target) == Dfs.Drive(Dfs.Advance(f, target), target)
  {
  }

  /** The loop iteration that pops the target: it is visited and the search stops. */
  lemma DfsFoundStep(f: Dfs.Frame, g: Graph, target: Option<Node>, visited: set<Node>, order: seq<Node>,
                     stack: seq<Node>, rest: seq<Node>, n: Node, order': seq<Node>)
    requires DfsAt(f, g, visited, order, stack)
    requires stack == rest + [n] && n in g.adj && n !in visited && Sought(target, n)
    requires order' == order + [n]
    ensures var r := Dfs.Drive(f, target).engine;
      r.isComplete && r.visitOrder == order'
  {
    assert Dfs.Drive(f, target) == Dfs.Advance(f, target);
  }

  /**
   On any graph where the push loop appends what it does on the sample
   graph, a search from A for F visits A, B, D, E, C, F: the smallest
   unvisited neighbour is always taken first, and C waits on the stack
   under B's subtree.
   */
  lemma DfsOrder(g: Graph)
    requires g.Valid() && "A" in g.adj && "B" in g.adj && "C" in g.adj && "D" in g.adj && "E" in g.adj
    requires "F" in g.adj
    requires Dfs.Pushes(g, "A", {"A"}) == ["C", "B"]
    requires Dfs.Pushes(g, "B", {"A", "B"}) == ["E", "D"]
    requires Dfs.Pushes(g, "D", {"A", "B", "D"}) == ["E"]
    requires Dfs.Pushes(g, "E", {"A", "B", "D", "E"}) == ["F", "C"]
    requires Dfs.Pushes(g, "C", {"A", "B", "C", "D", "E"}) == ["F"]
    ensures var r := Dfs.Search(Dfs.New(g), "A", Some("F")).engine;
      r.visitOrder == ["A", "B", "D", "E", "C", "F"] && r.isComplete
  {
    var t := Some("F");
    var f0 := Dfs.Frame(Dfs.Reset(Dfs.New(g)).(stack := ["A"]), 0, []);
    assert Dfs.Search(Dfs.New(g), "A", t).engine == Dfs.Drive(f0, t).engine;
    assert DfsAt(f0, g, {}, [], ["A"]);
    DfsFromA(f0, g);
  }

  /** The rest of the run from the state where A is on top of the stack. */
  lemma DfsFromA(f: Dfs.Frame, g: Graph)
    requires DfsAt(f, g, {}, [], ["A"])
    requires "A" in g.adj && Dfs.Pushes(g, "A", {"A"}) == ["C", "B"]
    requires "B" in g.adj && Dfs.Pushes(g, "B", {"A", "B"}) == ["E", "D"]
    requires "D" in g.adj && Dfs.Pushes(g, "D", {"A", "B", "D"}) == ["E"]
    requires "E" in g.adj && Dfs.Pushes(g, "E", {"A", "B", "D", "E"}) == ["F", "C"]
    requires "C" in g.adj && Dfs.Pushes(g, "C", {"A", "B", "C", "D", "E"}) == ["F"]
    requires "F" in g.adj
    ensures var r := Dfs.Drive(f, Some("F")).engine;
      r.visitOrder == ["A", "B", "D", "E", "C", "F"] && r.isComplete
  {
    DfsStepA(f, g);
    DfsFromB(Dfs.Advance(f, Some("F")), g);
  }

  /** The rest of the run from the state where B is on top of the stack. */
  lemma DfsFromB(f: Dfs.Frame, g: Graph)
    requires DfsAt(f, g, {"A"}, ["A"], ["C", "B"])
    requires "B" in g.adj && Dfs.Pushes(g, "B", {"A", "B"}) == ["E", "D"]
    requires "D" in g.adj && Dfs.Pushes(g, "D", {"A", "B", "D"}) == ["E"]
    requires "E" in g.adj && Dfs.Pushes(g, "E", {"A", "B", "D", "E"}) == ["F", "C"]
    requires "C" in g.adj && Dfs.Pushes(g, "C", {"A", "B", "C", "D", "E"}) == ["F"]
    requires "F" in g.adj
    ensures var r := Dfs.Drive(f, Some("F")).engine;
      r.visitOrder == ["A", "B", "D", "E", "C", "F"] && r.isComplete
  {
    DfsStepB(f, g);
    DfsFromD(Dfs.Advance(f, Some("F")), g);
  }

  /** The rest of the run from the state where D is on top of the stack. */
  lemma DfsFromD(f: Dfs.Frame, g: Graph)
    requires DfsAt(f, g, {"A", "B"}, ["A", "B"], ["C", "E", "D"])
    requires "D" in g.adj && Dfs.Pushes(g, "D", {"A", "B", "D"}) == ["E"]
    requires "E" in g.adj && Dfs.Pushes(g, "E", {"A", "B", "D", "E"}) == ["F", "C"]
    requires "C" in g.adj && Dfs.Pushes(g, "C", {"A", "B", "C", "D", "E"}) == ["F"]
    requires "F" in g.adj
    ensures var r := Dfs.Drive(f, Some("F")).engine;
      r.visitOrder == ["A", "B", "D", "E", "C", "F"] && r.isComplete
  {
    DfsStepD(f, g);
    DfsFromE(Dfs.Advance(f, Some("F")), g);
  }

  /** The rest of the run from the state where E is on top of the stack. */
  lemma DfsFromE(f: Dfs.Frame, g: Graph)
    requires DfsAt(f, g, {"A", "B", "D"}, ["A", "B", "D"], ["C", "E", "E"])
    requires "E" in g.adj && Dfs.Pushes(g, "E", {"A", "B", "D", "E"}) == ["F", "C"]
    requires "C" in g.adj && Dfs.Pushes(g, "C", {"A", "B", "C", "D", "E"}) == ["F"]
    requires "F" in g.adj
    ensures var r := Dfs.Drive(f, Some("F")).engine;
      r.visitOrder == ["A", "B", "D", "E", "C", "F"] && r.isComplete
  {
    DfsStepE(f, g);
    DfsFromC(Dfs.Advance(f, Some("F")), g);
  }

  /** The rest of the run from the state where C is on top of the stack. */
  lemma DfsFromC(f: Dfs.Frame, g: Graph)
    requires DfsAt(f, g, {"A", "B", "D", "E"}, ["A", "B", "D", "E"], ["C", "E", "F", "C"])
    requires "C" in g.adj && Dfs.Pushes(g, "C", {"A", "B", "C", "D", "E"}) == ["F"]
    requires "F" in g.adj
    ensures var r := Dfs.Drive(f, Some("F")).engine;
      r.visitOrder == ["A", "B", "D", "E", "C", "F"] && r.isComplete
  {
    DfsStepC(f, g);
    ListsF();
    DfsFoundStep(Dfs.Advance(f, Some("F")), g, Some("F"), {"A", "B", "C", "D", "E"}, ["A", "B", "D", "E", "C"],
                 ["C", "E", "F", "F"], ["C", "E", "F"], "F", ["A", "B", "D", "E", "C", "F"]);
  }

  lemma DfsStepA(f: Dfs.Frame, g: Graph)
    requires DfsAt(f, g, {}, [], ["A"])
    requires "A" in g.adj && Dfs.Pushes(g, "A", {"A"}) == ["C", "B"]
    ensures DfsAt(Dfs.Advance(f, Some("F")), g, {"A"}, ["A"], ["C", "B"])
    ensures Dfs.Drive(f, Some("F")) == Dfs.Drive(Dfs.Advance(f, Some("F")), Some("F"))
  {
    ListsA();
    DfsVisitStep(f, g, Some("F"), {}, [], ["A"], [], "A", ["C", "B"],
                 {"A"}, ["A"], ["C", "B"]);
  }

  lemma PushesA(g: Graph)
    requires "A" in g.adj && g.adj["A"] == {"B", "C"}
    ensures Dfs.Pushes(g, "A", {"A"}) == ["C", "B"]
  {
    PushesAre(g, "A", {"A"}, ["C", "B"]);
  }

  lemma ListsA()
    ensures ["A"] == [] + ["A"]
    ensures [] + ["A"] == ["A"]
    ensures [] + ["C", "B"] == ["C", "B"]
    ensures "A" !in {} && !Sought(Some("F"), "A")
    ensures {} + {"A"} == {"A"}
  {
  }

  lemma DfsStepB(f: Dfs.Frame, g: Graph)
    requires DfsAt(f, g, {"A"}, ["A"], ["C", "B"])
    requires "B" in g.adj && Dfs.Pushes(g, "B", {"A", "B"}) == ["E", "D"]
    ensures DfsAt(Dfs.Advance(f, Some("F")), g, {"A", "B"}, ["A", "B"], ["C", "E", "D"])
    ensures Dfs.Drive(f, Some("F")) == Dfs.Drive(Dfs.Advance(f, Some("F")), Some("F"))
  {
    ListsB();
    DfsVisitStep(f, g, Some("F"), {"A"}, ["A"], ["C", "B"], ["C"], "B", ["E", "D"],
                 {"A", "B"}, ["A", "B"], ["C", "E", "D"]);
  }

  lemma PushesB(g: Graph)
    requires "B" in g.adj && g.adj["B"] == {"A", "D", "E"}
    ensures Dfs.Pushes(g, "B", {"A", "B"}) == ["E", "D"]
  {
    PushesAre(g, "B", {"A", "B"}, ["E", "D"]);
  }

  lemma ListsB()
    ensures ["C", "B"] == ["C"] + ["B"]
    ensures ["A"] + ["B"] == ["A", "B"]
    ensures ["C"] + ["E", "D"] == ["C", "E", "D"]
    ensures "B" !in {"A"} && !Sought(Some("F"), "B")
    ensures {"A"} + {"B"} == {"A", "B"}
  {
  }

  lemma DfsStepD(f: Dfs.Frame, g: Graph)
    requires DfsAt(f, g, {"A", "B"}, ["A", "B"], ["C", "E", "D"])
    requires "D" in g.adj && Dfs.Pushes(g, "D", {"A", "B", "D"}) == ["E"]
    ensures DfsAt(Dfs.Advance(f, Some("F")), g, {"A", "B", "D"}, ["A", "B", "D"], ["C", "E", "E"])
    ensures Dfs.Drive(f, Some("F")) == Dfs.Drive(Dfs.Advance(f, Some("F")), Some("F"))
  {
    ListsD();
    DfsVisitStep(f, g, Some("F"), {"A", "B"}, ["A", "B"], ["C", "E", "D"], ["C", "E"], "D", ["E"],
                 {"A", "B", "D"}, ["A", "B", "D"], ["C", "E", "E"]);
  }

  lemma PushesD(g: Graph)
    requires "D" in g.adj && g.adj["D"] == {"B", "E"}
    ensures Dfs.Pushes(g, "D", {"A", "B", "D"}) == ["E"]
  {
    PushesAre(g, "D", {"A", "B", "D"}, ["E"]);
  }

  lemma ListsD()
    ensures ["C", "E", "D"] == ["C", "E"] + ["D"]
    ensures ["A", "B"] + ["D"] == ["A", "B", "D"]
    ensures ["C", "E"] + ["E"] == ["C", "E", "E"]
    ensures "D" !in {"A", "B"} && !Sought(Some("F"), "D")
    ensures {"A", "B"} + {"D"} == {"A", "B", "D"}
  {
  }

  lemma DfsStepE(f: Dfs.Frame, g: Graph)
    requires DfsAt(f, g, {"A", "B", "D"}, ["A", "B", "D"], ["C", "E", "E"])
    requires "E" in g.adj && Dfs.Pushes(g, "E", {"A", "B", "D", "E"}) == ["F", "C"]
    ensures DfsAt(Dfs.Advance(f, Some("F")), g, {"A", "B", "D", "E"}, ["A", "B", "D", "E"], ["C", "E", "F", "C"])
    ensures Dfs.Drive(f, Some("F")) == Dfs.Drive(Dfs.Advance(f, Some("F")), Some("F"))
  {
    ListsE();
    DfsVisitStep(f, g, Some("F"), {"A", "B", "D"}, ["A", "B", "D"], ["C", "E", "E"], ["C", "E"], "E", ["F", "C"],
                 {"A", "B", "D", "E"}, ["A", "B", "D", "E"], ["C", "E", "F", "C"]);
  }

  lemma PushesE(g: Graph)
    requires "E" in g.adj && g.adj["E"] == {"B", "C", "D", "F"}
    ensures Dfs.Pushes(g, "E", {"A", "B", "D", "E"}) == ["F", "C"]
  {
    PushesAre(g, "E", {"A", "B", "D", "E"}, ["F", "C"]);
  }

  lemma ListsE()
    ensures ["C", "E", "E"] == ["C", "E"] + ["E"]
    ensures ["A", "B", "D"] + ["E"] == ["A", "B", "D", "E"]
    ensures ["C", "E"] + ["F", "C"] == ["C", "E", "F", "C"]
    ensures "E" !in {"A", "B", "D"} && !Sought(Some("F"), "E")
    ensures {"A", "B", "D"} + {"E"} == {"A", "B", "D", "E"}
  {
  }

  lemma DfsStepC(f: Dfs.Frame, g: Graph)
    requires DfsAt(f, g, {"A", "B", "D", "E"}, ["A", "B", "D", "E"], ["C", "E", "F", "C"])
    requires "C" in g.adj && Dfs.Pushes(g, "C", {"A", "B", "C", "D", "E"}) == ["F"]
    ensures DfsAt(Dfs.Advance(f, Some("F")), g, {"A", "B", "C", "D", "E"}, ["A", "B", "D", "E", "C"], ["C", "E", "F", "F"])
    ensures Dfs.Drive(f, Some("F")) == Dfs.Drive(Dfs.Advance(f, Some("F")), Some("F"))
  {
    ListsC();
    DfsVisitStep(f, g, Some("F"), {"A", "B", "D", "E"}, ["A", "B", "D", "E"], ["C", "E", "F", "C"], ["C", "E", "F"], "C", ["F"],
                 {"A", "B", "C", "D", "E"}, ["A", "B", "D", "E", "C"], ["C", "E", "F", "F"]);
  }

  lemma PushesC(g: Graph)
    requires "C" in g.adj && g.adj["C"] == {"A", "E", "F"}
    ensures Dfs.Pushes(g, "C", {"A", "B", "C", "D", "E"}) == ["F"]
  {
    PushesAre(g, "C", {"A", "B", "C", "D", "E"}, ["F"]);
  }

  lemma ListsC()
    ensures ["C", "E", "F", "C"] == ["C", "E", "F"] + ["C"]
    ensures ["A", "B", "D", "E"] + ["C"] == ["A", "B", "D", "E", "C"]
    ensures ["C", "E", "F"] + ["F"] == ["C", "E", "F", "F"]
    ensures "C" !in {"A", "B", "D", "E"} && !Sought(Some("F"), "C")
    ensures {"A", "B", "D", "E"} + {"C"} == {"A", "B", "C", "D", "E"}
  {
  }

  lemma ListsF()
    ensures ["C", "E", "F", "F"] == ["C", "E", "F"] + ["F"]
    ensures "F" !in {"A", "B", "C", "D", "E"} && Sought(Some("F"), "F")
    ensures ["A", "B", "D", "E", "C"] + ["F"] == ["A", "B", "D", "E", "C", "F"]
  {
  }

  /** `DFS(create_sample_graph()).search("A", "F")` visits A, B, D, E, C, F, then stops. */
  lemma SampleDfsOrder()
    ensures var r := Dfs.Search(Dfs.New(SampleGraph()), "A", Some("F")).engine;
      r.visitOrder == ["A", "B", "D", "E", "C", "F"] && r.isComplete
  {
    SamplePushesA();
    SamplePushesB();
    SamplePushesC();
    SamplePushesD();
    SamplePushesE();
    DfsOrder(SampleGraph());
  }

  lemma SamplePushesA()
    ensures "A" in SampleGraph().adj && Dfs.Pushes(SampleGraph(), "A", {"A"}) == ["C", "B"]
  {
    SampleNeighboursA();
    PushesA(SampleGraph());
  }

  lemma SamplePushesB()
    ensures "B" in SampleGraph().adj && Dfs.Pushes(SampleGraph(), "B", {"A", "B"}) == ["E", "D"]
  {
    SampleNeighboursB();
    PushesB(SampleGraph());
  }

  lemma SamplePushesC()
    ensures "C" in SampleGraph().adj && Dfs.Pushes(SampleGraph(), "C", {"A", "B", "C", "D", "E"}) == ["F"] && "F" in SampleGraph().adj
  {
    SampleNeighboursC();
    PushesC(SampleGraph());
    assert "F" in SampleGraph().adj["C"];
  }

  lemma SamplePushesD()
    ensures "D" in SampleGraph().adj && Dfs.Pushes(SampleGraph(), "D", {"A", "B", "D"}) == ["E"]
  {
    SampleNeighboursD();
    PushesD(SampleGraph());
  }

  lemma SamplePushesE()
    ensures "E" in SampleGraph().adj && Dfs.Pushes(SampleGraph(), "E", {"A", "B", "D", "E"}) == ["F", "C"]
  {
    SampleNeighboursE();
    PushesE(SampleGraph());
  }

  // ---------------------------------------------------------------------------
  // Breadth-first distance on the sample graph

  /**
   On any graph where A's neighbours are B and C and C is joined to F, the
   breadth-first search from A without a target puts F at distance 2: the
   walk A, C, F shows at most 2, and F is neither A nor a neighbour of A.
   */
  lemma BfsDistance(g: Graph)
    requires g.Valid()
    requires "A" in g.adj && g.adj["A"] == {"B", "C"}
    requires "C" in g.adj && "F" in g.adj["C"]
    ensures Bfs.ShortestDistance(Bfs.Search(Bfs.New(g), "A", None).engine, "F") == Some(2)
  {
    DistanceDefined(g);
    DistanceAtMostTwo(g);
    DistanceAtLeastTwo(g);
  }

  /** F is reachable, and the search without a target runs to completion, so F gets a level. */
  lemma DistanceDefined(g: Graph)
    requires g.Valid()
    requires "A" in g.adj && "C" in g.adj["A"] && "C" in g.adj && "F" in g.adj["C"]
    ensures Bfs.ShortestDistance(Bfs.Search(Bfs.New(g), "A", None).engine, "F").Some?
  {
    BfsTheorems.SearchShortestDistance(Bfs.New(g), "A", None, "F");
    BfsTheorems.SearchWithoutTarget(Bfs.New(g), "A", None);
    ReachesF(g);
  }

  lemma DistanceAtMostTwo(g: Graph)
    requires g.Valid()
    requires "A" in g.adj && "C" in g.adj["A"] && "C" in g.adj && "F" in g.adj["C"]
    ensures var d := Bfs.ShortestDistance(Bfs.Search(Bfs.New(g), "A", None).engine, "F");
      d.Some? ==> d.value <= 2
  {
    var d := Bfs.ShortestDistance(Bfs.Search(Bfs.New(g), "A", None).engine, "F");
    BfsTheorems.SearchShortestDistance(Bfs.New(g), "A", None, "F");
    if d.Some? {
      AtMostTwo(g, d.value);
    }
  }

  lemma DistanceAtLeastTwo(g: Graph)
    requires g.Valid()
    requires "A" in g.adj && g.adj["A"] == {"B", "C"}
    ensures var d := Bfs.ShortestDistance(Bfs.Search(Bfs.New(g), "A", None).engine, "F");
      d.Some? ==> d.value >= 2
  {
    var d := Bfs.ShortestDistance(Bfs.Search(Bfs.New(g), "A", None).engine, "F");
    BfsTheorems.SearchShortestDistance(Bfs.New(g), "A", None, "F");
    if d.Some? {
      AtLeastTwo(g, d.value);
    }
  }

  lemma ReachesF(g: Graph)
    requires g.Valid()
    requires "A" in g.adj && "C" in g.adj["A"] && "C" in g.adj && "F" in g.adj["C"]
    ensures "F" in Component(g, "A")
  {
    assert IsWalk(g, ["A", "C", "F"]);
  }

  /** The walk A, C, F bounds the distance from above. */
  lemma AtMostTwo(g: Graph, d: nat)
    requires "A" in g.adj && "C" in g.adj["A"] && "C" in g.adj && "F" in g.adj["C"]
    requires forall w | IsWalk(g, w) && w[0] == "A" && Last(w) == "F" :: d <= |w| - 1
    ensures d <= 2
  {
    assert IsWalk(g, ["A", "C", "F"]);
  }

  /** F is neither A nor one of A's neighbours, so no walk of one or two nodes reaches it. */
  lemma AtLeastTwo(g: Graph, d: nat)
    requires "A" in g.adj && g.adj["A"] == {"B", "C"}
    requires exists w :: IsWalk(g, w) && w[0] == "A" && Last(w) == "F" && |w| == d + 1
    ensures d >= 2
  {
    var w :| IsWalk(g, w) && w[0] == "A" && Last(w) == "F" && |w| == d + 1;
    assert |w| > 1 && g.HasEdge(w[0], w[1]);
    assert w[1] != Last(w);
  }

  /** `BFS(create_sample_graph())`: F is two edges from A. */
  lemma SampleBfsDistance()
    ensures Bfs.ShortestDistance(Bfs.Search(Bfs.New(SampleGraph()), "A", None).engine, "F") == Some(2)
  {
    SampleNeighboursA();
    SampleNeighboursC();
    BfsDistance(SampleGraph());
  }

  // ---------------------------------------------------------------------------
  // Full searches of the maze

  lemma MazeHasStart()
    ensures MazeGraph().HasNode("0_0")
  {
    MazeEdge(0);
  }

  /** A depth-first search of the maze from its corner without a target visits all 16 cells. */
  lemma MazeDfsVisitsAll()
    ensures var r := Dfs.Search(Dfs.New(MazeGraph()), "0_0", None).engine;
      r.visited == MazeGraph().Nodes() && |r.visited| == 16
  {
    MazeHasStart();
    MazeConnected();
    MazeSize();
    DfsTheorems.SearchCompletesConnected(Dfs.New(MazeGraph()), "0_0", None);
  }

  /** A breadth-first search of the maze from its corner without a target visits all 16 cells. */
  lemma MazeBfsVisitsAll()
    ensures var r := Bfs.Search(Bfs.New(MazeGraph()), "0_0", None).engine;
      r.visited == MazeGraph().Nodes() && |r.visited| == 16
  {
    MazeHasStart();
    MazeConnected();
    MazeSize();
    BfsTheorems.SearchCompletesConnected(Bfs.New(MazeGraph()), "0_0", None);
  }
}
