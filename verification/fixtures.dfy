/**
 The three hard-coded sample graphs `GraphUtils` offers: a small undirected
 graph, a binary tree and a 4x4 maze. Node positions and labels only matter
 for drawing and are not part of the graph here.
 */
module Fixtures {
  import opened NodeOrder
  import opened Seqs
  import opened Graphs

  function SampleTreeNodes(): seq<Node> {
    ["1", "2", "3", "4", "5", "6", "7"]
  }

  function SampleTreeEdges(): seq<(Node, Node)> {
    [("1", "2"), ("1", "3"), ("2", "4"), ("2", "5"), ("3", "6"), ("3", "7")]
  }

  /** `create_sample_tree` */
  function SampleTree(): (g: Graph)
    ensures g.Valid()
  {
    FromLists(SampleTreeNodes(), SampleTreeEdges())
  }

  function SampleGraphNodes(): seq<Node> {
    ["A", "B", "C", "D", "E", "F"]
  }

  function SampleGraphEdges(): seq<(Node, Node)> {
    [("A", "B"), ("A", "C"), ("B", "D"), ("B", "E"),
     ("C", "E"), ("C", "F"), ("D", "E"), ("E", "F")]
  }

  /** `create_sample_graph` */
  function SampleGraph(): (g: Graph)
    ensures g.Valid()
  {
    FromLists(SampleGraphNodes(), SampleGraphEdges())
  }

  /** The maze cells `"i_j"` in the row-major order the nested loops add them. */
  function MazeNodes(): seq<Node> {
    ["0_0", "0_1", "0_2", "0_3", "1_0", "1_1", "1_2", "1_3",
     "2_0", "2_1", "2_2", "2_3", "3_0", "3_1", "3_2", "3_3"]
  }

  function MazeEdges(): seq<(Node, Node)> {
    [("0_0", "0_1"), ("0_1", "0_2"), ("0_2", "0_3"),
     ("0_0", "1_0"), ("0_3", "1_3"),
     ("1_0", "1_1"), ("1_2", "1_3"), ("1_1", "2_1"), ("1_2", "2_2"),
     ("2_0", "2_1"), ("2_1", "2_2"), ("2_2", "2_3"), ("1_0", "2_0"), ("2_3", "3_3"),
     ("3_0", "3_1"), ("3_1", "3_2"), ("3_2", "3_3"), ("2_0", "3_0"),
     ("0_2", "1_2"), ("1_1", "1_2")]
  }

  /** `create_maze_graph` */
  function MazeGraph(): (g: Graph)
    ensures g.Valid()
  {
    FromLists(MazeNodes(), MazeEdges())
  }

  /** A fixture's node count and edge count, given that its lists are simple. */
  lemma {:induction false} FixtureSize(ns: seq<Node>, es: seq<(Node, Node)>)
    requires NoDup(ns) && SimpleEdgeList(ns, es)
    ensures |FromLists(ns, es).Nodes()| == |ns|
    ensures |Edges(FromLists(ns, es))| == |es|
  {
    FromListsNodes(ns, es);
    NoDupCardinality(ns);
    FromListsEdgeCount(ns, es);
  }

  lemma SampleTreeSize()
    ensures |SampleTree().Nodes()| == 7
    ensures |Edges(SampleTree())| == 6
  {
    SampleTreeSimple();
    FixtureSize(SampleTreeNodes(), SampleTreeEdges());
  }

  lemma SampleTreeSimple()
    ensures NoDup(SampleTreeNodes()) && SimpleEdgeList(SampleTreeNodes(), SampleTreeEdges())
  {
    var ns, es := SampleTreeNodes(), SampleTreeEdges();
    assert NoDup(ns);
    assert forall i, j | 0 <= i < j < |es| :: es[i] != es[j];
    assert forall i, j | 0 <= i < j < |es| :: es[i] != (es[j].1, es[j].0);
  }

  lemma SampleGraphSize()
    ensures |SampleGraph().Nodes()| == 6
    ensures |Edges(SampleGraph())| == 8
  {
    SampleGraphSimple();
    FixtureSize(SampleGraphNodes(), SampleGraphEdges());
  }

  lemma SampleGraphSimple()
    ensures NoDup(SampleGraphNodes()) && SimpleEdgeList(SampleGraphNodes(), SampleGraphEdges())
  {
    var ns, es := SampleGraphNodes(), SampleGraphEdges();
    assert NoDup(ns);
    assert forall i, j | 0 <= i < j < |es| :: es[i] != es[j];
    assert forall i, j | 0 <= i < j < |es| :: es[i] != (es[j].1, es[j].0);
  }

  lemma MazeEndpoints()
    ensures forall i | 0 <= i < |MazeEdges()| ::
      MazeEdges()[i].0 in MazeNodes() && MazeEdges()[i].1 in MazeNodes() && MazeEdges()[i].0 != MazeEdges()[i].1
  {
  }

  lemma MazeEdgesDistinct()
    ensures forall i, j | 0 <= i < j < |MazeEdges()| :: MazeEdges()[i] != MazeEdges()[j]
  {
  }

  lemma MazeEdgesNotReversed()
    ensures forall i, j | 0 <= i < j < |MazeEdges()| :: MazeEdges()[i] != (MazeEdges()[j].1, MazeEdges()[j].0)
  {
  }

  lemma MazeSize()
    ensures |MazeGraph().Nodes()| == 16
    ensures |Edges(MazeGraph())| == 20
  {
    assert NoDup(MazeNodes());
    MazeEndpoints();
    MazeEdgesDistinct();
    MazeEdgesNotReversed();
    FixtureSize(MazeNodes(), MazeEdges());
  }

  /** The `k`-th maze edge is an edge of the maze, in both directions. */
  lemma MazeEdge(k: nat)
    requires k < |MazeEdges()|
    ensures MazeGraph().HasEdge(MazeEdges()[k].0, MazeEdges()[k].1)
    ensures MazeGraph().HasEdge(MazeEdges()[k].1, MazeEdges()[k].0)
  {
    var (a, b) := MazeEdges()[k];
    FromListsEdges(MazeNodes(), MazeEdges(), a, b);
    FromListsEdges(MazeNodes(), MazeEdges(), b, a);
  }

  /** For each cell after `0_0`, an earlier cell next to it, row-major. */
  function MazeParents(): seq<nat> {
    [0, 0, 1, 2, 0, 4, 2, 3, 4, 5, 6, 10, 8, 12, 13, 11]
  }

  /** For each cell after `0_0`, the maze edge joining it to its parent cell. */
  function MazeParentEdges(): seq<nat> {
    [0, 0, 1, 2, 3, 5, 18, 4, 12, 7, 8, 11, 17, 14, 15, 13]
  }

  lemma MazeParentsEarlier()
    ensures forall t | 0 < t < 16 :: MazeParents()[t] < t && MazeParentEdges()[t] < |MazeEdges()|
  {
  }

  lemma MazeParentEdgesStart()
    ensures forall t | 0 < t < 16 :: MazeEdges()[MazeParentEdges()[t]].0 == MazeNodes()[MazeParents()[t]]
  {
  }

  lemma MazeParentEdgesEnd()
    ensures forall t | 0 < t < 16 :: MazeEdges()[MazeParentEdges()[t]].1 == MazeNodes()[t]
  {
  }

  /**
   A graph on the maze cells that holds the maze edges links every cell to
   `0_0`. Stated over any such graph, so the proof never unfolds how
   `MazeGraph` is built.
   */
  lemma MazeSpanning(g: Graph)
    requires g.Nodes() == Elems(MazeNodes())
    requires forall k | 0 <= k < |MazeEdges()| :: g.HasEdge(MazeEdges()[k].0, MazeEdges()[k].1)
    ensures forall n | n in g.Nodes() :: Reachable(g, "0_0", n)
  {
    var ns, parent := MazeNodes(), MazeParents();
    MazeParentsEarlier();
    MazeTreeEdges(g);
    TreeReach(g, ns, parent);
    forall n | n in g.Nodes()
      ensures Reachable(g, "0_0", n)
    {
      var t :| 0 <= t < |ns| && ns[t] == n;
    }
  }

  /** Each cell after `0_0` is joined to its parent in the listing. */
  lemma MazeTreeEdges(g: Graph)
    requires forall k | 0 <= k < |MazeEdges()| :: g.HasEdge(MazeEdges()[k].0, MazeEdges()[k].1)
    ensures |MazeParents()| == |MazeNodes()|
    ensures forall t | 0 < t < |MazeNodes()| ::
      MazeParents()[t] < t && g.HasEdge(MazeNodes()[MazeParents()[t]], MazeNodes()[t])
  {
    var ns, parent := MazeNodes(), MazeParents();
    MazeParentsEarlier();
    MazeParentEdgesStart();
    MazeParentEdgesEnd();
    forall t | 0 < t < |ns|
      ensures g.HasEdge(ns[parent[t]], ns[t])
    {
      var k := MazeParentEdges()[t];
      assert g.HasEdge(MazeEdges()[k].0, MazeEdges()[k].1);
    }
  }

  /** The maze is one connected component: every cell is reachable from `0_0`. */
  lemma MazeConnected()
    ensures Component(MazeGraph(), "0_0") == MazeGraph().Nodes()
  {
    MazeCells();
    MazeEdgesPresent();
    MazeComponent(MazeGraph());
  }

  /** The maze's nodes are exactly the listed cells. */
  lemma MazeCells()
    ensures MazeGraph().Nodes() == Elems(MazeNodes())
  {
    MazeEndpoints();
    FromListsNodes(MazeNodes(), MazeEdges());
  }

  /** A graph on the maze cells that holds the maze edges is one component. */
  lemma MazeComponent(g: Graph)
    requires g.Nodes() == Elems(MazeNodes())
    requires forall k | 0 <= k < |MazeEdges()| :: g.HasEdge(MazeEdges()[k].0, MazeEdges()[k].1)
    ensures Component(g, "0_0") == g.Nodes()
  {
    MazeSpanning(g);
  }

  /** Every listed passage is an edge of the maze graph. */
  lemma MazeEdgesPresent()
    ensures forall k | 0 <= k < |MazeEdges()| :: MazeGraph().HasEdge(MazeEdges()[k].0, MazeEdges()[k].1)
  {
    forall k | 0 <= k < |MazeEdges()|
      ensures MazeGraph().HasEdge(MazeEdges()[k].0, MazeEdges()[k].1)
    {
      MazeEdge(k);
    }
  }
}
