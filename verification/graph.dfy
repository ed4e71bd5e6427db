/**
 The graph the searches run over: an undirected networkx graph, reduced to
 what the searches and the editing helpers observe of it, namely its nodes
 and which nodes are adjacent. networkx also remembers the order in which
 neighbours were added; both searches sort a node's neighbours before using
 them, and a sorted listing of a set is unique (`NodeOrder.AscendingUnique`),
 so that order is never observed and a neighbour set is enough.
 */
module Graphs {
  import opened NodeOrder
  import opened Seqs

  datatype Graph = Graph(adj: map<Node, set<Node>>) {

    /** What networkx guarantees: every neighbour is a node, and adjacency is symmetric. */
    predicate Valid() {
      forall a, b | a in adj && b in adj[a] :: b in adj && a in adj[b]
    }

    function Nodes(): set<Node> {
      adj.Keys
    }

    /** `n in graph` */
    predicate HasNode(n: Node) {
      n in adj
    }

    /** `graph.has_edge(a, b)` */
    predicate HasEdge(a: Node, b: Node) {
      a in adj && b in adj[a]
    }
  }

  /** networkx `add_nodes_from`: each listed node, without neighbours. */
  function Isolated(ns: seq<Node>): (g: Graph)
    ensures g.Valid()
    ensures g.Nodes() == Elems(ns)
    ensures forall a, b :: !g.HasEdge(a, b)
  {
    Graph(map n | n in Elems(ns) :: {})
  }

  /**
   networkx `add_edge(a, b)`: adds whichever endpoints are missing, then
   records each endpoint as a neighbour of the other.
   */
  function Connect(g: Graph, a: Node, b: Node): (r: Graph)
    requires g.Valid()
    ensures r.Valid()
    ensures r.Nodes() == g.Nodes() + {a, b}
    ensures forall x, y :: r.HasEdge(x, y) <==> g.HasEdge(x, y) || (x == a && y == b) || (x == b && y == a)
  {
    Graph(map x | x in g.adj.Keys + {a, b} ::
      (if x in g.adj then g.adj[x] else {}) + (if x == a then {b} else {}) + (if x == b then {a} else {}))
  }

  /** networkx `remove_edge(a, b)` on an existing edge. */
  function Disconnect(g: Graph, a: Node, b: Node): (r: Graph)
    requires g.Valid() && g.HasEdge(a, b)
    ensures r.Valid()
    ensures r.Nodes() == g.Nodes()
    ensures forall x, y :: r.HasEdge(x, y) <==> g.HasEdge(x, y) && !(x == a && y == b) && !(x == b && y == a)
  {
    var adj := g.adj[a := g.adj[a] - {b}];
    Graph(adj[b := adj[b] - {a}])
  }

  /** networkx `remove_node(n)` on an existing node: the node and every edge at it go. */
  function Delete(g: Graph, n: Node): (r: Graph)
    requires g.Valid() && g.HasNode(n)
    ensures r.Valid()
    ensures r.Nodes() == g.Nodes() - {n}
    ensures forall x, y :: r.HasEdge(x, y) <==> g.HasEdge(x, y) && x != n && y != n
  {
    Graph(map u | u in g.adj && u != n :: g.adj[u] - {n})
  }

  // ---------------------------------------------------------------------------
  // Reachability

  /** A walk: a non-empty node sequence whose consecutive nodes are adjacent. */
  ghost predicate IsWalk(g: Graph, p: seq<Node>) {
    && |p| > 0
    && p[0] in g.adj
    && forall i :: 0 <= i < |p| - 1 ==> g.HasEdge(p[i], p[i + 1])
  }

  ghost predicate Reachable(g: Graph, s: Node, n: Node) {
    exists p :: IsWalk(g, p) && p[0] == s && Last(p) == n
  }

  /** The connected component of `s`. */
  ghost function Component(g: Graph, s: Node): set<Node> {
    set n | n in g.adj && Reachable(g, s, n)
  }

  /** In a valid graph an edge leads to a node, and back. */
  lemma EdgeEnds(g: Graph, a: Node, b: Node)
    requires g.Valid() && g.HasEdge(a, b)
    ensures b in g.adj && g.HasEdge(b, a)
  {
  }

  lemma ReachableStart(g: Graph, s: Node)
    requires s in g.adj
    ensures Reachable(g, s, s)
  {
    assert IsWalk(g, [s]);
  }

  lemma ReachableExtend(g: Graph, s: Node, a: Node, b: Node)
    requires Reachable(g, s, a) && g.HasEdge(a, b)
    ensures Reachable(g, s, b)
  {
    var p :| IsWalk(g, p) && p[0] == s && Last(p) == a;
    assert IsWalk(g, p + [b]);
    assert (p + [b])[0] == s;
  }

  /** Reachable nodes are nodes of a valid graph. */
  lemma ReachableIsNode(g: Graph, s: Node, n: Node)
    requires g.Valid() && Reachable(g, s, n)
    ensures n in g.adj
  {
    var p :| IsWalk(g, p) && p[0] == s && Last(p) == n;
    if |p| > 1 {
      assert g.HasEdge(p[|p| - 2], p[|p| - 1]);
    }
  }

  /** A set of nodes reachable from `s` that holds `s` and every neighbour of its members is `s`'s component. */
  lemma ClosedIsComponent(g: Graph, s: Node, closed: set<Node>)
    requires s in closed && closed <= Component(g, s)
    requires forall a, b | a in closed && g.HasEdge(a, b) :: b in closed
    ensures closed == Component(g, s)
  {
    forall n | n in Component(g, s)
      ensures n in closed
    {
      ClosedHoldsComponent(g, s, closed, n);
    }
  }

  /** A set that holds `s` and every neighbour of its members holds `s`'s component. */
  lemma ClosedHoldsComponent(g: Graph, s: Node, closed: set<Node>, n: Node)
    requires s in closed
    requires forall a, b | a in closed && g.HasEdge(a, b) :: b in closed
    requires Reachable(g, s, n)
    ensures n in closed
  {
    var p :| IsWalk(g, p) && p[0] == s && Last(p) == n;
    var k := 0;
    while k < |p| - 1
      invariant 0 <= k < |p|
      invariant p[k] in closed
    {
      assert g.HasEdge(p[k], p[k + 1]);
      k := k + 1;
    }
  }

  /**
   Nodes listed so that each one after the first is adjacent to an earlier one
   (its entry in `parent`) are all reachable from the first.
   */
  lemma {:induction false} TreeReach(g: Graph, ns: seq<Node>, parent: seq<nat>)
    requires |ns| > 0 && ns[0] in g.adj && |parent| == |ns|
    requires forall t | 0 < t < |ns| :: parent[t] < t && g.HasEdge(ns[parent[t]], ns[t])
    ensures forall t | 0 <= t < |ns| :: Reachable(g, ns[0], ns[t])
  {
    ReachableStart(g, ns[0]);
    var k := 1;
    while k < |ns|
      invariant 1 <= k <= |ns|
      invariant forall t | 0 <= t < k :: Reachable(g, ns[0], ns[t])
    {
      ReachableExtend(g, ns[0], ns[parent[k]], ns[k]);
      k := k + 1;
    }
  }

  // ---------------------------------------------------------------------------
  // Building a graph from lists, and counting its edges

  /** One key per undirected edge: the pair ordered by `Below`. */
  function Norm(a: Node, b: Node): (Node, Node) {
    if Below(b, a) then (b, a) else (a, b)
  }

  lemma NormSymmetric(a: Node, b: Node)
    ensures Norm(a, b) == Norm(b, a)
  {
    BelowTotal(a, b);
    if Below(a, b) {
      BelowAsymmetric(a, b);
    }
  }

  /** The edges networkx's `number_of_edges()` counts, one key each. */
  ghost function Edges(g: Graph): set<(Node, Node)> {
    set a, b | a in g.adj && b in g.adj[a] :: Norm(a, b)
  }

  /** `add_nodes_from(ns)` followed by `add_edges_from(es)`. */
  function FromLists(ns: seq<Node>, es: seq<(Node, Node)>): (g: Graph)
    ensures g.Valid()
    decreases |es|
  {
    if es == [] then Isolated(ns)
    else Connect(FromLists(ns, es[..|es| - 1]), Last(es).0, Last(es).1)
  }

  /** The keys of the listed edges. */
  function EdgeKeys(es: seq<(Node, Node)>): set<(Node, Node)>
    decreases |es|
  {
    if es == [] then {} else EdgeKeys(es[..|es| - 1]) + {Norm(Last(es).0, Last(es).1)}
  }

  /** Endpoints are listed nodes, no self-loops, no edge listed twice in either direction. */
  predicate SimpleEdgeList(ns: seq<Node>, es: seq<(Node, Node)>) {
    && (forall i | 0 <= i < |es| :: es[i].0 in ns && es[i].1 in ns && es[i].0 != es[i].1)
    && (forall i, j | 0 <= i < j < |es| :: es[i] != es[j] && es[i] != (es[j].1, es[j].0))
  }

  /** Equal keys come from the same pair, possibly reversed. */
  lemma NormInjective(a: Node, b: Node, c: Node, d: Node)
    requires Norm(a, b) == Norm(c, d)
    ensures (a, b) == (c, d) || (a, b) == (d, c)
  {
  }

  /** `a` and `b` are adjacent in the built graph iff some listed edge joins them. */
  lemma {:induction false} FromListsEdges(ns: seq<Node>, es: seq<(Node, Node)>, a: Node, b: Node)
    ensures FromLists(ns, es).HasEdge(a, b) <==> exists i | 0 <= i < |es| :: es[i] == (a, b) || es[i] == (b, a)
    decreases |es|
  {
    if es != [] {
      var init := es[..|es| - 1];
      FromListsEdges(ns, init, a, b);
      ListedSnoc(es, init, a, b);
    }
  }

  /** An edge is listed in `es` iff it is listed before the last entry or is the last entry. */
  lemma ListedSnoc(es: seq<(Node, Node)>, init: seq<(Node, Node)>, a: Node, b: Node)
    requires es != [] && init == es[..|es| - 1]
    ensures (exists i | 0 <= i < |es| :: es[i] == (a, b) || es[i] == (b, a))
        <==> (exists i | 0 <= i < |init| :: init[i] == (a, b) || init[i] == (b, a))
             || Last(es) == (a, b) || Last(es) == (b, a)
  {
    if exists i | 0 <= i < |es| :: es[i] == (a, b) || es[i] == (b, a) {
      var i :| 0 <= i < |es| && (es[i] == (a, b) || es[i] == (b, a));
      if i < |init| {
        assert init[i] == es[i];
      }
    }
  }

  /** The nodes the edge list `es` joins to `n`. */
  function JoinedTo(es: seq<(Node, Node)>, n: Node): set<Node>
    decreases |es|
  {
    if es == [] then {}
    else
      (if es[0].0 == n then {es[0].1} else {})
        + (if es[0].1 == n then {es[0].0} else {})
        + JoinedTo(es[1..], n)
  }

  lemma {:induction false} JoinedToSnoc(es: seq<(Node, Node)>, x: (Node, Node), n: Node)
    ensures JoinedTo(es + [x], n)
      == JoinedTo(es, n) + (if x.0 == n then {x.1} else {}) + (if x.1 == n then {x.0} else {})
    decreases |es|
  {
    if es != [] {
      assert (es + [x])[1..] == es[1..] + [x];
      JoinedToSnoc(es[1..], x, n);
    }
  }

  lemma {:induction false} JoinedToSplit(es: seq<(Node, Node)>, k: nat, n: Node)
    requires k <= |es|
    ensures JoinedTo(es, n) == JoinedTo(es[..k], n) + JoinedTo(es[k..], n)
    decreases k
  {
    if k > 0 {
      JoinedToSplit(es[1..], k - 1, n);
      assert es[1..][..k - 1] == es[..k][1..];
      assert es[1..][k - 1..] == es[k..];
    }
  }

  /** In the graph built from the lists, the neighbours of a listed node are the nodes the edge list joins to it. */
  lemma {:induction false} FromListsNeighbours(ns: seq<Node>, es: seq<(Node, Node)>, n: Node)
    requires n in ns
    ensures n in FromLists(ns, es).adj && FromLists(ns, es).adj[n] == JoinedTo(es, n)
    decreases |es|
  {
    if es != [] {
      var init := es[..|es| - 1];
      FromListsNeighbours(ns, init, n);
      JoinedToSnoc(init, Last(es), n);
      SplitLast(es);
      NeighboursAfterConnect(FromLists(ns, init), Last(es).0, Last(es).1, n);
    }
  }

  /** `add_edge(a, b)` adds `b` to `a`'s neighbours and `a` to `b`'s, and nothing else. */
  lemma NeighboursAfterConnect(g: Graph, a: Node, b: Node, n: Node)
    requires g.Valid() && n in g.adj
    ensures n in Connect(g, a, b).adj
    ensures Connect(g, a, b).adj[n] == g.adj[n] + (if a == n then {b} else {}) + (if b == n then {a} else {})
  {
  }

  lemma {:induction false} FromListsNodes(ns: seq<Node>, es: seq<(Node, Node)>)
    requires forall i | 0 <= i < |es| :: es[i].0 in ns && es[i].1 in ns
    ensures FromLists(ns, es).Nodes() == Elems(ns)
    decreases |es|
  {
    if es != [] {
      FromListsNodes(ns, es[..|es| - 1]);
    }
  }

  lemma {:induction false} EdgeKeysFresh(es: seq<(Node, Node)>, k: nat)
    requires forall i, j | 0 <= i < j < |es| :: Norm(es[i].0, es[i].1) != Norm(es[j].0, es[j].1)
    requires k <= |es|
    ensures |EdgeKeys(es[..k])| == k
    decreases k
  {
    if k > 0 {
      EdgeKeysFresh(es, k - 1);
      assert es[..k][..k - 1] == es[..k - 1];
      EdgeKeysMember(es[..k - 1], Norm(es[k - 1].0, es[k - 1].1));
    }
  }

  lemma {:induction false} EdgeKeysMember(es: seq<(Node, Node)>, e: (Node, Node))
    ensures e in EdgeKeys(es) <==> exists i | 0 <= i < |es| :: Norm(es[i].0, es[i].1) == e
    decreases |es|
  {
    if es != [] {
      var init := es[..|es| - 1];
      EdgeKeysMember(init, e);
      if exists i | 0 <= i < |init| :: Norm(init[i].0, init[i].1) == e {
        var i :| 0 <= i < |init| && Norm(init[i].0, init[i].1) == e;
        assert es[i] == init[i];
      }
      if exists i | 0 <= i < |es| :: Norm(es[i].0, es[i].1) == e {
        var i :| 0 <= i < |es| && Norm(es[i].0, es[i].1) == e;
        if i < |init| {
          assert init[i] == es[i];
        }
      }
    }
  }

  lemma EdgesAfterConnect(h: Graph, a: Node, b: Node)
    requires h.Valid()
    ensures Edges(Connect(h, a, b)) == Edges(h) + {Norm(a, b)}
  {
    var g := Connect(h, a, b);
    forall e | e in Edges(g)
      ensures e in Edges(h) + {Norm(a, b)}
    {
      var x, y :| x in g.adj && y in g.adj[x] && e == Norm(x, y);
      if !h.HasEdge(x, y) && x == b {
        NormSymmetric(a, b);
      }
    }
    forall e | e in Edges(h) + {Norm(a, b)}
      ensures e in Edges(g)
    {
      if e == Norm(a, b) {
        assert g.HasEdge(a, b);
      } else {
        var x, y :| x in h.adj && y in h.adj[x] && e == Norm(x, y);
        assert g.HasEdge(x, y);
      }
    }
  }

  /** Building from a simple edge list yields exactly one edge per listed pair. */
  lemma {:induction false} FromListsEdgeCount(ns: seq<Node>, es: seq<(Node, Node)>)
    requires SimpleEdgeList(ns, es)
    ensures Edges(FromLists(ns, es)) == EdgeKeys(es)
    ensures |Edges(FromLists(ns, es))| == |es|
    decreases |es|
  {
    if es == [] {
      assert Edges(Isolated(ns)) == {};
    } else {
      var init := es[..|es| - 1];
      assert SimpleEdgeList(ns, init);
      FromListsEdgeCount(ns, init);
      forall i, j | 0 <= i < j < |es|
        ensures Norm(es[i].0, es[i].1) != Norm(es[j].0, es[j].1)
      {
        if Norm(es[i].0, es[i].1) == Norm(es[j].0, es[j].1) {
          NormInjective(es[i].0, es[i].1, es[j].0, es[j].1);
        }
      }
      EdgesAfterConnect(FromLists(ns, init), Last(es).0, Last(es).1);
      EdgeKeysFresh(es, |es|);
      assert es[..|es|] == es;
    }
  }
}
