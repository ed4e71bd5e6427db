/**
 `GraphUtils`' guarded editing operations. Each one checks a guard, leaves the
 graph alone and answers `false` when the guard fails, and otherwise applies
 the networkx edit and answers `true`. The Python functions mutate the graph
 in place; here they return the edited graph next to the answer.
 */
module GraphUtils {
  import opened NodeOrder
  import opened Graphs

  /** The boolean a helper returns and the graph as it leaves it. */
  datatype Update = Update(ok: bool, graph: Graph)

  /** `add_node`: refuses an id that is already a node. */
  function AddNode(g: Graph, n: Node): (r: Update)
    requires g.Valid()
    ensures r.ok <==> !g.HasNode(n)
    ensures !r.ok ==> r.graph == g
    ensures r.graph.Valid()
    ensures r.graph.Nodes() == g.Nodes() + {n}
    ensures forall a, b :: r.graph.HasEdge(a, b) <==> g.HasEdge(a, b)
  {
    if g.HasNode(n) then Update(false, g)
    else Update(true, Graph(g.adj[n := {}]))
  }

  /**
   `add_edge`: refuses unless both endpoints are nodes and the edge is new
   (in either direction, the graph being undirected).
   */
  function AddEdge(g: Graph, a: Node, b: Node): (r: Update)
    requires g.Valid()
    ensures r.ok <==> g.HasNode(a) && g.HasNode(b) && !g.HasEdge(a, b)
    ensures !r.ok ==> r.graph == g
    ensures r.graph.Valid()
    ensures r.graph.Nodes() == g.Nodes()
    ensures r.ok ==> r.graph.HasEdge(a, b) && r.graph.HasEdge(b, a)
    ensures forall x, y | !(x == a && y == b) && !(x == b && y == a) :: r.graph.HasEdge(x, y) <==> g.HasEdge(x, y)
  {
    if !g.HasNode(a) || !g.HasNode(b) then Update(false, g)
    else if g.HasEdge(a, b) then Update(false, g)
    else Update(true, Connect(g, a, b))
  }

  /** `remove_node`: refuses an absent id; otherwise the node and its edges go. */
  function RemoveNode(g: Graph, n: Node): (r: Update)
    requires g.Valid()
    ensures r.ok <==> g.HasNode(n)
    ensures !r.ok ==> r.graph == g
    ensures r.graph.Valid()
    ensures r.graph.Nodes() == g.Nodes() - {n}
    ensures forall a, b :: r.graph.HasEdge(a, b) <==> g.HasEdge(a, b) && a != n && b != n
  {
    if !g.HasNode(n) then Update(false, g)
    else Update(true, Delete(g, n))
  }

  /** `remove_edge`: refuses an absent edge; otherwise only that edge goes. */
  function RemoveEdge(g: Graph, a: Node, b: Node): (r: Update)
    requires g.Valid()
    ensures r.ok <==> g.HasEdge(a, b)
    ensures !r.ok ==> r.graph == g
    ensures r.graph.Valid()
    ensures r.graph.Nodes() == g.Nodes()
    ensures !r.graph.HasEdge(a, b) && !r.graph.HasEdge(b, a)
    ensures forall x, y | !(x == a && y == b) && !(x == b && y == a) :: r.graph.HasEdge(x, y) <==> g.HasEdge(x, y)
  {
    if !g.HasEdge(a, b) then Update(false, g)
    else Update(true, Disconnect(g, a, b))
  }

  /** Two graphs with the same nodes and the same adjacencies are the same graph. */
  lemma SameGraph(g: Graph, h: Graph)
    requires g.Nodes() == h.Nodes()
    requires forall a, b :: g.HasEdge(a, b) <==> h.HasEdge(a, b)
    ensures g == h
  {
    forall u | u in g.adj
      ensures g.adj[u] == h.adj[u]
    {
      assert forall v :: v in g.adj[u] <==> g.HasEdge(u, v);
    }
  }

  /** Adding a new node and then removing it gives back the graph. */
  lemma AddNodeThenRemove(g: Graph, n: Node)
    requires g.Valid() && !g.HasNode(n)
    ensures AddNode(g, n).ok
    ensures RemoveNode(AddNode(g, n).graph, n) == Update(true, g)
  {
    var h := AddNode(g, n).graph;
    SameGraph(RemoveNode(h, n).graph, g);
  }

  /** Removing an isolated node and adding it back gives back the graph. */
  lemma RemoveIsolatedThenAdd(g: Graph, n: Node)
    requires g.Valid() && g.HasNode(n) && g.adj[n] == {}
    ensures AddNode(RemoveNode(g, n).graph, n) == Update(true, g)
  {
    var h := RemoveNode(g, n).graph;
    SameGraph(AddNode(h, n).graph, g);
  }

  /** Adding a new edge and then removing it gives back the graph. */
  lemma AddEdgeThenRemove(g: Graph, a: Node, b: Node)
    requires g.Valid() && g.HasNode(a) && g.HasNode(b) && !g.HasEdge(a, b)
    ensures RemoveEdge(AddEdge(g, a, b).graph, a, b) == Update(true, g)
  {
    var h := AddEdge(g, a, b).graph;
    SameGraph(RemoveEdge(h, a, b).graph, g);
  }

  /** Removing an edge and then adding it back gives back the graph. */
  lemma RemoveEdgeThenAdd(g: Graph, a: Node, b: Node)
    requires g.Valid() && g.HasEdge(a, b)
    ensures AddEdge(RemoveEdge(g, a, b).graph, a, b) == Update(true, g)
  {
    var h := RemoveEdge(g, a, b).graph;
    SameGraph(AddEdge(h, a, b).graph, g);
  }

  /** A refused edit can be repeated: it is refused again and still changes nothing. */
  lemma AddEdgeIdempotent(g: Graph, a: Node, b: Node)
    requires g.Valid()
    ensures AddEdge(AddEdge(g, a, b).graph, a, b) == Update(false, AddEdge(g, a, b).graph)
  {
  }
}
