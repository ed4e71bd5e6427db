# Replayable graph searches, modelled in Dafny

This project models the search engine of a teaching tool that animates
depth-first and breadth-first search over small undirected graphs. The
`DFS` and `BFS` classes each run one search and record a snapshot of their
state, a step, at every transition. The GUI replays those steps. Sorting a
node's neighbours makes every run deterministic. The model also covers the
`GraphUtils` helpers that edit a graph under a guard, and the three sample
graphs the tool offers.

How the model is built:

- **Graphs** (`graph.dfy`). A graph maps each node id to the set of its
  neighbours. networkx also remembers the order in which neighbours were
  added. Both searches sort the neighbours before using them, and a sorted
  listing of a set is unique (`NodeOrder.AscendingUnique`). So that order is
  never observed, and a set is enough.
- **Node ids** (`node_order.dfy`). Ids are strings, and `NodeOrder.Below` is
  Python's `<` on `str`: code point by code point, with a proper prefix
  first.
- **A run** (`dfs.dfy`, `bfs.dfy`). `search` is a generator. A run is
  modelled as the complete list of records the generator yields.
  - `Advance` is one iteration of the `while` loop, or its exit.
  - `Drive` repeats `Advance` until the object reports completion. It
    terminates on the measure (not finished, unvisited nodes, frontier
    length).
  - `Search` resets the object first. It then yields either the start-node
    error or the loop's steps.
- **Invariants** (`dfs_proofs.dfy`, `bfs_proofs.dfy`, `bfs_loop.dfy`). These
  files state the loop invariants and prove that each iteration preserves
  them.
- **Theorems** (`dfs_theorems.dfy`, `bfs_theorems.dfy`). These state what a
  finished run guarantees, directly about `Search`.
- **Scenarios** (`scenarios.dfy`). These apply the theorems to the fixtures
  (`fixtures.dfy`).
- **Editing helpers** (`graph_utils.dfy`). The Python helpers mutate the graph
  in place. `GraphUtils` returns the edited graph alongside the boolean
  answer.

Details of the code that the model keeps, which a reader might not expect:

- DFS records a `stack_update` step whenever the stack is non-empty after
  the push loop, even if that loop pushed nothing (`algorithms/dfs.py:104`).
- BFS marks a node visited when it is enqueued. So `visited` also holds
  queued nodes that have not yet been dequeued, and the visit order is only
  a subset of `visited` (`algorithms/bfs.py:99-100`).
- The start-node error is yielded but never stored in `steps`. After it, the
  object is in its reset state (`algorithms/dfs.py:45-49`,
  `algorithms/bfs.py:47-51`).
- A `complete` step with no target reports `found_target` as true
  (`algorithms/dfs.py:130`, `algorithms/bfs.py:134`).
- The target test is `if target_node and ...`. The empty string is false in
  Python, so an empty target behaves like no target (`Records.Truthy`).
- DFS counts a pop of an already-visited node without recording a step. Step
  numbers are therefore strictly increasing but may have gaps, and the
  `complete` step is numbered one past the counter. BFS numbers its steps
  1, 2, 3, … without gaps.

## Model

| member | source | states |
|---|---|---|
| GraphUtils.AddNode | utils/graph_utils.py:114-125 | answers true exactly when the id is not yet a node; a refusal leaves the graph as it was; otherwise the node set gains the id and no adjacency changes |
| GraphUtils.AddEdge | utils/graph_utils.py:127-140 | answers true exactly when both endpoints are nodes and they are not yet adjacent (in either direction); a refusal changes nothing; otherwise both directions become adjacent, the nodes stay the same and every other pair keeps its adjacency |
| GraphUtils.RemoveNode | utils/graph_utils.py:142-152 | answers true exactly when the node exists; a refusal changes nothing; otherwise the node and exactly the edges touching it disappear |
| GraphUtils.RemoveEdge | utils/graph_utils.py:154-164 | answers true exactly when the edge exists; a refusal changes nothing; otherwise the edge goes in both directions and nothing else changes |
| GraphUtils.AddNodeThenRemove | utils/graph_utils.py:114-152 | adding a new node and then removing it succeeds twice and gives back the original graph |
| GraphUtils.RemoveIsolatedThenAdd | utils/graph_utils.py:114-152 | removing a node that has no edges and adding it back gives back the original graph |
| GraphUtils.AddEdgeThenRemove | utils/graph_utils.py:127-164 | adding a new edge between existing nodes and removing it again gives back the original graph |
| GraphUtils.RemoveEdgeThenAdd | utils/graph_utils.py:127-164 | removing an existing edge and adding it back gives back the original graph |
| GraphUtils.AddEdgeIdempotent | utils/graph_utils.py:134-135 | a second `add_edge` of the same pair is refused and leaves the graph as the first call left it |
| Graphs.Connect | utils/graph_utils.py:137 | networkx `add_edge` keeps the graph symmetric, adds missing endpoints, and makes exactly the new pair adjacent in both directions |
| Graphs.Delete | utils/graph_utils.py:149 | networkx `remove_node` keeps the graph symmetric and removes the node with exactly its edges |
| Graphs.ClosedIsComponent | algorithms/dfs.py:55-118 | a set of nodes that contains the start, lies inside its component and is closed under edges is the whole component |
| Fixtures.SampleTreeSize | utils/graph_utils.py:19-41 | the sample tree has 7 nodes and 6 distinct undirected edges |
| Fixtures.SampleGraphSize | utils/graph_utils.py:43-65 | the sample graph has 6 nodes and 8 distinct undirected edges |
| Fixtures.MazeSize | utils/graph_utils.py:67-112 | the maze has 16 nodes and 20 distinct undirected edges |
| Fixtures.MazeConnected | utils/graph_utils.py:82-109 | every maze cell is reachable from `0_0`: the maze is one connected component |
| NodeOrder.BelowTotal | algorithms/bfs.py:95 | Python's string order compares any two distinct ids, so sorting is well defined |
| NodeOrder.SortAscending | algorithms/bfs.py:94-95 | the sorted neighbour list holds exactly the neighbours, each once |
| NodeOrder.SortAscendingAscending | algorithms/bfs.py:95 | `sort()` leaves the ids in strictly ascending order |
| NodeOrder.SortDescendingDescending | algorithms/dfs.py:97 | `sort(reverse=True)` leaves the ids in strictly descending order |
| NodeOrder.AscendingUnique | algorithms/bfs.py:94-95 | every ascending listing of the same set is the same list, so the order in which networkx stored the neighbours cannot affect a run |
| Seqs.IndexOf | algorithms/dfs.py:153 | `list.index`: the first position holding the element, or the `ValueError` case exactly when it is absent |
| Records.VisitTime | algorithms/dfs.py:187-192 | `get_visit_time` is the 1-based position of the node's first occurrence in the visit order, or none exactly when it was never visited |
| Records.PrefixThrough | algorithms/dfs.py:152-156 | the visit order cut just after the node's first occurrence, or none exactly when the node is absent |
| Records.PrefixMatchesVisitTime | algorithms/dfs.py:152-154 | the DFS path and the visit time exist together, and the path is as long as the visit time |
| Records.StepAt | algorithms/dfs.py:173-177 | `get_step(i)` is defined exactly for `0 <= i < len(steps)` and is then the i-th recorded step |
| Records.CompletionRate | algorithms/dfs.py:170 | 0 for an empty graph, between 0 and 100 when no more nodes were visited than exist, and 100 exactly when every node was visited |
| Dfs.Pushes | algorithms/dfs.py:96-101 | the push loop appends exactly the neighbours that are not yet visited |
| Dfs.PushesDescending | algorithms/dfs.py:96-101 | those neighbours are pushed largest id first, so the smallest ends up on top of the stack |
| Dfs.VisitNode | algorithms/dfs.py:65-118 | visiting a popped node adds it to `visited` and to the end of the visit order, and ends the run exactly when it is the target |
| Dfs.Advance | algorithms/dfs.py:55-63 | each loop iteration ends the run, visits a new node, or shrinks the stack without visiting anything |
| Dfs.Search | algorithms/dfs.py:43-52 | a missing start yields exactly the one error record and leaves the object in its reset state with no steps; a present start runs to completion |
| Dfs.PathTo | algorithms/dfs.py:137-156 | `get_path_to_node` is defined only for visited nodes, and is then a non-empty prefix of the visit order ending in the node |
| DfsTheorems.SearchStatistics | algorithms/dfs.py:158-171 | after a run the visited count is the length of the visit order and the number of visit steps, the unvisited count is the number of nodes never visited, and the completion rate is 100 exactly when every node was visited |
| DfsLoop.DriveInv | algorithms/dfs.py:55-135 | the loop invariant holds from the first iteration to the end of the run |
| DfsTheorems.SearchIgnoresEarlierRuns | algorithms/dfs.py:22-43 | `search` starts from freshly reset state, so its result depends only on the graph, the start and the target |
| DfsTheorems.SearchRecords | algorithms/dfs.py:62-93 | the generator yields exactly the recorded steps; the visit order has no repeats, its elements are exactly `visited`, and `current_path` equals it; each step is such a snapshot of an earlier state |
| DfsTheorems.SearchNumbering | algorithms/dfs.py:54-122 | step numbers start at 1 and strictly increase; the `complete` step follows another step and is numbered one past the counter: that step's number, plus one for each stale entry still on that step's stack, plus one |
| DfsTheorems.SearchEnds | algorithms/dfs.py:83-135 | the run ends with its only terminal step; this is either the visit that found the target or a `complete` step, which shows an empty stack and the final visited set and order |
| DfsTheorems.SearchFoundFlag | algorithms/dfs.py:84-130 | the last step's `found_target` is true exactly when there is no target or the target was visited; a `complete` step after a real target reports false |
| DfsTheorems.SearchSound | algorithms/dfs.py:96-101 | every visited node is reachable from the start |
| DfsTheorems.SearchCovers | algorithms/dfs.py:55-135 | a run that reaches `complete` has visited exactly the start's connected component |
| DfsTheorems.SearchFindsReachable | algorithms/dfs.py:83-90 | with a target, the run stops on a visit of the target exactly when the target is reachable from the start |
| DfsTheorems.SearchStackUpdates | algorithms/dfs.py:103-118 | every `stack_update` directly follows a visit of the same node and shows the stack after the push loop; after a visit that did not find the target, a `stack_update` follows exactly when that stack is non-empty |
| DfsTheorems.SearchVisits | algorithms/dfs.py:65-86 | each visit step names a node of the graph, which is the last in its visit order, and is flagged exactly when it is the target |
| DfsTheorems.SearchPops | algorithms/dfs.py:52-101 | last in, first out: the first step visits the start node and leaves an empty stack; every later visit directly follows a `stack_update` and takes the topmost entry of that step's stack not yet visited, with the visited entries above it popped without a step and the counter advanced once per pop; the visit steps name the visit order, one per node |
| DfsTheorems.PoppedSplit | algorithms/dfs.py:55-63 | the stack a `stack_update` showed is the next visit's stack, then the visited node, then entries already visited that were skipped, each one counter tick |
| DfsTheorems.SearchQueries | algorithms/dfs.py:137-192 | after a run, a node has a path and a visit time exactly when it was visited, and the path is as long as the visit time |
| DfsTheorems.SearchCompletesConnected | algorithms/dfs.py:158-171 | without a target, a search of a connected graph visits every node, so the completion rate is 100 |
| Bfs.Neighbours | algorithms/bfs.py:94-95 | the examined list holds exactly the node's neighbours, each of them a node of the graph |
| Bfs.Discover | algorithms/bfs.py:97-104 | `added_neighbors` is exactly the listed neighbours not yet visited; the queue grows by exactly those, and they become visited and get a level |
| Bfs.Expand | algorithms/bfs.py:61-104 | one iteration dequeues the front node onto the visit order, and ends the run exactly when that node is the target |
| Bfs.Advance | algorithms/bfs.py:61-122 | each loop iteration ends the run, reaches a new node, or shrinks the queue |
| Bfs.Search | algorithms/bfs.py:45-57 | a missing start yields exactly the one error record and leaves the object in its reset state with no steps; a present start runs to completion |
| Bfs.Ancestry | algorithms/bfs.py:154-160 | the walk up the parent links from a node ends at a node without a parent after exactly level + 1 nodes, each the parent of the one before |
| Bfs.PathTo | algorithms/bfs.py:141-161 | a path exists exactly for reached nodes with a parent entry; it runs from a root down to the node, each node the child of the one before, with level + 1 nodes |
| Bfs.NodesAtLevel | algorithms/bfs.py:177-187 | `get_nodes_at_level(k)` lists exactly the nodes whose level is k |
| Bfs.MaxLevel | algorithms/bfs.py:193 | the largest level held, or 0 when no node has a level |
| Bfs.TreeEdges | algorithms/bfs.py:241-247 | the pairs listed are exactly (parent, child) for each inserted node that has a parent |
| BfsLoop.DriveInv | algorithms/bfs.py:61-139 | the loop invariant holds from the seeded queue to the end of the run |
| BfsTheorems.SearchIgnoresEarlierRuns | algorithms/bfs.py:23-45 | `search` starts from freshly reset state, so its result depends only on the graph, the start and the target |
| BfsTheorems.SearchRecords | algorithms/bfs.py:54-122 | the generator yields exactly the recorded steps; no node is enqueued twice; the dict keys, in insertion order, are the dequeued nodes followed by the queue, and they are exactly `visited`; each step agrees with the final state |
| BfsTheorems.SearchNumbering | algorithms/bfs.py:59-126 | the steps are numbered 1, 2, 3, … without gaps |
| BfsTheorems.SearchEnds | algorithms/bfs.py:81-139 | the run ends with its only terminal step; this is either the visit of the target, as the last dequeued node, or a `complete` step, which shows an empty queue and the final visited set, order and levels |
| BfsTheorems.SearchFoundFlag | algorithms/bfs.py:82-134 | the last step's `found_target` is true exactly when there is no target or the target was reached; a `complete` step after a real target reports false |
| BfsTheorems.SearchSound | algorithms/bfs.py:98-104 | every reached node is reachable from the start |
| BfsTheorems.SearchClosed | algorithms/bfs.py:93-104 | every dequeued node whose neighbours were examined has all of them reached, at most one level further down; that is every dequeued node except a target the run stopped on |
| BfsTheorems.SearchTree | algorithms/bfs.py:54-104 | the start is the root, inserted first, at level 0 and without a parent; every other reached node has as parent a dequeued neighbour exactly one level up |
| BfsTheorems.SearchCovers | algorithms/bfs.py:61-139 | a run that reaches `complete` has reached exactly the start's connected component |
| BfsTheorems.SearchWithoutTarget | algorithms/bfs.py:124-139 | without a target the run always ends with a `complete` step that reports `found_target` true, having reached the start's whole component |
| BfsTheorems.SearchCompletesConnected | algorithms/bfs.py:189-210 | without a target, a search of a connected graph reaches every node, so the completion rate is 100 |
| BfsTheorems.SearchFindsReachable | algorithms/bfs.py:81-88 | with a target, the run stops on a visit of the target exactly when the target is reachable from the start |
| BfsTheorems.SearchQueueUpdates | algorithms/bfs.py:106-122 | every `queue_update` directly follows a visit of the same node that did not find the target, and shows the queue with that node's unvisited neighbours appended in ascending order; after such a visit, a `queue_update` follows exactly when a neighbour was newly enqueued |
| BfsTheorems.SearchVisits | algorithms/bfs.py:61-79 | the first step visits the start; every later visit dequeues the front of the queue the previous step showed; each visit is flagged exactly when it is the target |
| BfsTheorems.SearchLayers | algorithms/bfs.py:97-104 | levels never decrease along the insertion order; when the run stopped on the target, every node still queued is at most one level below it |
| BfsTheorems.SearchLevelsSorted | algorithms/bfs.py:61-75 | nodes are dequeued in non-decreasing order of level |
| BfsTheorems.WalkBound | algorithms/bfs.py:97-104 | with a closed prefix of the insertion order, levels sorted along it, and the rest at most one level below its first node, no walk from the start reaches a node in fewer steps than its level |
| BfsTheorems.SearchLevelsMinimal | algorithms/bfs.py:97-104 | no walk from the start reaches a node in fewer steps than the level the search gave it |
| BfsTheorems.SearchPaths | algorithms/bfs.py:141-161 | after a run, `get_path_to_node` gives a path exactly for reached nodes; it is a walk of the graph from the start to the node, with level + 1 nodes |
| BfsTheorems.SearchShortestDistance | algorithms/bfs.py:163-175 | `get_shortest_distance` is defined exactly for reached nodes and is then the length of a shortest walk from the start; after a run that reaches `complete`, it is defined exactly for the nodes reachable from the start |
| BfsTheorems.SearchQueries | algorithms/bfs.py:222-239 | after a run, a node has a level exactly when it was reached, and a parent exactly when it was reached and is not the start; the parent is a neighbour one level up; a visit time implies the node was reached |
| BfsTheorems.EdgesOfCount | algorithms/bfs.py:241-247 | over a list without repeats in which only the root lacks a parent, the tree-edge list leaves out exactly the root |
| BfsTheorems.SearchTreeEdges | algorithms/bfs.py:241-247 | `get_tree_edges` gives exactly one edge per reached node other than the start; each is an edge of the graph going one level down |
| BfsTheorems.LevelCountsTotal | algorithms/bfs.py:195-198 | counting nodes level by level counts every node exactly once |
| BfsTheorems.DeepestLast | algorithms/bfs.py:193 | when levels never decrease along the insertion order, the deepest level is that of the last node inserted |
| BfsTheorems.SearchStatistics | algorithms/bfs.py:189-210 | after a run the level counts add up to the number of reached nodes, only the start is at level 0, `max_level` is the level of the last node inserted, the unvisited count is the number of nodes never reached, and the completion rate is 100 exactly when all were reached |
| Scenarios.SampleDfsOrder | algorithms/dfs.py:95-101 | DFS of the sample graph from A with target F visits A, B, D, E, C, F and stops |
| Scenarios.SampleBfsDistance | algorithms/bfs.py:163-175 | BFS of the sample graph from A puts F at distance 2 |
| Scenarios.MazeDfsVisitsAll | utils/graph_utils.py:67-112 | a full DFS of the maze from `0_0` visits all 16 cells |
| Scenarios.MazeBfsVisitsAll | utils/graph_utils.py:67-112 | a full BFS of the maze from `0_0` reaches all 16 cells |

## Left out

- The GUI, the window, the canvas and the animation timer (`gui/`). `main.py`, font lookup and the calculator are also outside the search engine.
- `save_graph`, `load_graph`, `get_node_positions`, `check_connectivity`, `get_graph_stats` and `create_empty_graph`. These are JSON file I/O, a floating-point layout, or direct calls into networkx.
- Node attributes (`pos`, `label`) passed to `add_node` and stored by the fixtures. They only matter for drawing.
- The `try`/`except Exception: return False` around each editing helper. With string ids and a well-formed graph none of the guarded calls raises, so that branch is unreachable in the model.
- Human-readable `message` strings in the steps and the constant `algorithm` entry of the statistics. They are display only.
- Records.CompletionRate: computed exactly over reals, without floating-point rounding of the division and the multiplication by 100.
- Generator laziness. `Search` models a run consumed to its end. A consumer that stops early sees a prefix of the same records, and the object is then not marked complete.
- Aliasing of the step dicts. Python appends the same dict it yields, so a consumer that mutated a yielded step would also change `steps`. The model treats steps as values.
- `get_all_steps` and `is_node_visited`. They are the `steps` field and a membership test on `visited`, and the theorems are stated about those directly.
- The `current_step` field. `reset` sets it to 0 and the searches never change it, so it stays at its reset value.
- networkx's neighbour insertion order. Both searches sort before use, so no run can observe it (`NodeOrder.AscendingUnique`).
- Node ids other than strings. The code uses string ids everywhere, and comparing ids of mixed types would raise in Python 3.
- The package `__init__.py` files, which only re-export.
