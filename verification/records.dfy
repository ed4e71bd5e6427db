/**
 Pieces the DFS and BFS classes share: how a search target is read (Python
 truthiness), and the post-run queries that look only at the recorded steps
 or at the visit order.
 */
module Records {
  import opened Wrappers
  import opened NodeOrder
  import opened Seqs

  /**
   `if target_node and ...`: a target counts only when it is given and is not
   the empty string, which Python treats as false.
   */
  predicate Truthy(target: Option<Node>) {
    target.Some? && target.value != []
  }

  /** The search is looking for `n`. */
  predicate Sought(target: Option<Node>, n: Node) {
    Truthy(target) && n == target.value
  }

  /**
   The `found_target` flag of the final `complete` step: whether the target
   was visited, or true when there is no target.
   */
  function FoundAtEnd(target: Option<Node>, visited: set<Node>): (r: bool)
    ensures r <==> !Truthy(target) || target.value in visited
  {
    if Truthy(target) then target.value in visited else true
  }

  /** `get_step(i)`: the recorded step at index `i`, when there is one. */
  function StepAt<S>(steps: seq<S>, i: int): (r: Option<S>)
    ensures r.Some? <==> 0 <= i < |steps|
    ensures r.Some? ==> r.value == steps[i]
  {
    if 0 <= i < |steps| then Some(steps[i]) else None
  }

  /** `get_visit_time(n)`: the 1-based position of `n` in the visit order. */
  function VisitTime(visitOrder: seq<Node>, n: Node): (r: Option<nat>)
    ensures r.None? <==> n !in visitOrder
    ensures r.Some? ==> 1 <= r.value <= |visitOrder| && visitOrder[r.value - 1] == n
    ensures r.Some? ==> n !in visitOrder[..r.value - 1]
  {
    match IndexOf(visitOrder, n)
    case None => None
    case Some(i) => Some(i + 1)
  }

  /** The visit order up to and including the first visit of `n`. */
  function PrefixThrough(visitOrder: seq<Node>, n: Node): (r: Option<seq<Node>>)
    ensures r.None? <==> n !in visitOrder
    ensures r.Some? ==> 0 < |r.value| && r.value <= visitOrder && Last(r.value) == n
    ensures r.Some? ==> n !in r.value[..|r.value| - 1]
  {
    match IndexOf(visitOrder, n)
    case None => None
    case Some(i) =>
      assert visitOrder[..i + 1][..i] == visitOrder[..i];
      Some(visitOrder[..i + 1])
  }

  /** The share of nodes visited, in percent, 0 for an empty graph. */
  function CompletionRate(visitedCount: nat, totalNodes: nat): (r: real)
    ensures totalNodes == 0 ==> r == 0.0
    ensures visitedCount <= totalNodes ==> 0.0 <= r <= 100.0
    ensures 0 < totalNodes ==> (r == 100.0 <==> visitedCount == totalNodes)
  {
    if totalNodes > 0 then visitedCount as real / totalNodes as real * 100.0 else 0.0
  }

  /** The path and the visit time agree: the path is as long as the visit time. */
  lemma PrefixMatchesVisitTime(visitOrder: seq<Node>, n: Node)
    ensures PrefixThrough(visitOrder, n).Some? <==> VisitTime(visitOrder, n).Some?
    ensures PrefixThrough(visitOrder, n).Some? ==> |PrefixThrough(visitOrder, n).value| == VisitTime(visitOrder, n).value
  {
  }
}
