/**
 What a depth-first run records, proved as invariants of the search loop:
 each predicate below holds of every generator state `Drive` passes through,
 so it holds of the finished run.
 */
module DfsProofs {
  import opened Wrappers
  import opened NodeOrder
  import opened Seqs
  import opened Graphs
  import opened Records
  import opened Dfs

  /** The records yielded for a list of steps. */
  function Snapshots(steps: seq<Step>): (r: seq<Record>)
    ensures |r| == |steps|
    ensures forall i | 0 <= i < |steps| :: r[i] == Snapshot(steps[i])
  {
    seq(|steps|, i requires 0 <= i < |steps| => Snapshot(steps[i]))
  }

  /** A step's copies of the search state agree with each other. */
  predicate Coherent(st: Step) {
    && NoDup(st.visitOrder)
    && Elems(st.visitOrder) == st.visited
    && st.currentPath == st.visitOrder
  }

  /** The stack a visit step leads to: its stack with the unvisited neighbours pushed. */
  function Pushed(g: Graph, st: Step): seq<Node>
    requires st.current.Some? && st.current.value in g.adj
  {
    st.stack + Pushes(g, st.current.value, st.visited)
  }

  /** Ends the run: the `complete` step, or the visit that found the target. */
  predicate Terminal(st: Step) {
    st.action == Complete || st.foundTarget
  }

  // ---------------------------------------------------------------------------
  // The loop invariant, piece by piece

  /** The object's own lists agree, and every step is a snapshot of an earlier state. */
  predicate StateCoherent(f: Frame) {
    var e := f.engine;
    && NoDup(e.visitOrder)
    && Elems(e.visitOrder) == e.visited
    && e.currentPath == e.visitOrder
    && (forall i | 0 <= i < |e.steps| :: Coherent(e.steps[i]) && e.steps[i].visitOrder <= e.visitOrder)
  }

  /** Step numbers grow strictly and never pass the counter, except the final one. */
  predicate Numbered(f: Frame) {
    var s := f.engine.steps;
    && (forall i, j | 0 <= i < j < |s| :: s[i].number < s[j].number)
    && (forall i | 0 <= i < |s| :: 1 <= s[i].number && (s[i].action != Complete ==> s[i].number <= f.count))
  }

  /** A visit step names the node it visits, last in its visit order, and flags the target. */
  predicate VisitsWellFormed(f: Frame, target: Option<Node>) {
    var s, g := f.engine.steps, f.engine.graph;
    forall i | 0 <= i < |s| && s[i].action == Visit ::
      && s[i].current.Some? && s[i].current.value in g.adj
      && |s[i].visitOrder| > 0 && Last(s[i].visitOrder) == s[i].current.value
      && (s[i].foundTarget <==> Sought(target, s[i].current.value))
  }

  /** If step `i` is a `stack_update`, it shows the stack the visit just before it led to. */
  predicate UpdateAt(g: Graph, s: seq<Step>, i: nat)
    requires i < |s|
  {
    s[i].action == StackUpdate ==>
      && 0 < i && s[i - 1].action == Visit && !s[i - 1].foundTarget
      && s[i - 1].current.Some? && s[i - 1].current.value in g.adj
      && s[i].stack == Pushed(g, s[i - 1]) && s[i].stack != []
      && s[i].current == s[i - 1].current && !s[i].foundTarget
      && s[i].number == s[i - 1].number + 1
      && s[i].visited == s[i - 1].visited && s[i].visitOrder == s[i - 1].visitOrder
  }

  /** If step `i` is a visit that did not find the target, a `stack_update` follows iff the pushed stack is not empty. */
  predicate UpdateAfter(g: Graph, s: seq<Step>, i: nat)
    requires i + 1 < |s|
  {
    s[i].action == Visit && !s[i].foundTarget && s[i].current.Some? && s[i].current.value in g.adj ==>
      (s[i + 1].action == StackUpdate <==> Pushed(g, s[i]) != [])
  }

  /** Every `stack_update` step and every visit that did not find the target satisfy the facts above. */
  predicate Updates(g: Graph, s: seq<Step>) {
    && (forall i | 0 <= i < |s| :: UpdateAt(g, s, i))
    && (forall i | 0 <= i < |s| - 1 :: UpdateAfter(g, s, i))
  }

  /** The last step is a visit that did not find the target and was due a `stack_update`. */
  predicate AwaitsUpdate(g: Graph, s: seq<Step>) {
    |s| > 0 && Last(s).action == Visit && !Last(s).foundTarget
    && Last(s).current.Some? && Last(s).current.value in g.adj
  }

  /**
   A `stack_update` step directly follows a visit of the same node and shows
   the stack after the push loop; and after each visit that did not find the
   target, a `stack_update` step follows exactly when that stack is not empty.
   */
  predicate StackUpdates(f: Frame) {
    var s, g := f.engine.steps, f.engine.graph;
    && Updates(g, s)
    && (AwaitsUpdate(g, s) ==> Pushed(g, Last(s)) == [] && (!f.engine.isComplete ==> f.engine.stack == []))
  }

  /**
   Until the run ends no step is terminal and the target is unvisited; once it
   ends, exactly the last step is terminal, and a final `complete` step
   reports the object's state with an empty stack.
   */
  predicate Shaped(f: Frame, target: Option<Node>) {
    var e, s := f.engine, f.engine.steps;
    && (!e.isComplete ==> (forall i | 0 <= i < |s| :: !Terminal(s[i])) && !(Truthy(target) && target.value in e.visited))
    && (e.isComplete ==> |s| > 0 && Terminal(Last(s)) && forall i | 0 <= i < |s| - 1 :: !Terminal(s[i]))
    && (forall i | 0 <= i < |s| && s[i].action == Complete ::
          && i == |s| - 1 && e.isComplete && e.stack == []
          && s[i].current.None? && s[i].stack == []
          && s[i].visited == e.visited && s[i].visitOrder == e.visitOrder
          && s[i].number == f.count + 1
          && s[i].foundTarget == FoundAtEnd(target, e.visited)
          && (!Truthy(target) || target.value !in e.visited))
  }

  /** Every edge out of `visited` ends in `visited` or on `stack`. */
  ghost predicate Closed(g: Graph, visited: set<Node>, stack: seq<Node>) {
    forall v, w | v in visited && g.HasEdge(v, w) :: w in visited || w in stack
  }

  /**
   Everything visited or stacked is reachable from the start; and until the
   target is found, each neighbour of a visited node is visited or stacked.
   */
  ghost predicate Explores(f: Frame, start: Node) {
    var e, g := f.engine, f.engine.graph;
    && start in g.adj
    && (start in e.visited || start in e.stack)
    && (forall v | v in e.visited :: Reachable(g, start, v))
    && (forall v | v in e.stack :: Reachable(g, start, v))
    && (!e.isComplete || (|e.steps| > 0 && Last(e.steps).action == Complete) ==>
          Closed(g, e.visited, e.stack))
  }

  /**
   If step `i` is a visit, it took its node off the top of the stack: the
   first visit pops the start node from a stack holding only it, and every
   later visit directly follows a `stack_update` and pops off that step's
   stack as `PoppedFrom` says.
   */
  predicate PopAt(s: seq<Step>, i: nat, start: Node)
    requires i < |s|
  {
    s[i].action == Visit ==>
      && s[i].current.Some?
      && (i == 0 ==> s[i].current.value == start && s[i].stack == [] && s[i].visitOrder == [start] && s[i].number == 1)
      && (0 < i ==> s[i - 1].action == StackUpdate && PoppedFrom(s[i - 1], s[i]))
  }

  /**
   Visit step `v` took the topmost entry of `u`'s stack that `u` had not
   visited: the entries above it were visited and were popped without a
   step, the counter advancing once per entry popped, and `v`'s stack is
   what lies below it.
   */
  predicate PoppedFrom(u: Step, v: Step)
    requires v.current.Some?
  {
    var n, p, m := v.current.value, u.stack, |v.stack|;
    && m < |p| && p[..m] == v.stack && p[m] == n
    && (forall k | m < k < |p| :: p[k] in u.visited)
    && n !in u.visited
    && v.visited == u.visited + {n} && v.visitOrder == u.visitOrder + [n]
    && v.number == u.number + (|p| - m)
  }

  /** The object after step `u` and then only pops of visited entries, `count` the counter. */
  predicate UnwoundFrom(u: Step, e: Engine, count: nat) {
    var p, m := u.stack, |e.stack|;
    && m <= |p| && p[..m] == e.stack
    && (forall k | m <= k < |p| :: p[k] in e.visited)
    && u.visited == e.visited && u.visitOrder == e.visitOrder
    && count == u.number + (|p| - m)
  }

  /** The nodes the visit steps of `s` name, in order. */
  function VisitNodes(s: seq<Step>): seq<Node> {
    if s == [] then []
    else
      var st := Last(s);
      VisitNodes(s[..|s| - 1]) + (if st.action == Visit && st.current.Some? then [st.current.value] else [])
  }

  /**
   Every visit pops as `PopAt` says, the first step is a visit, and the
   visit steps name the visit order one by one. Until the run ends, the
   stack holds the start node alone before the first step; after a
   `stack_update` it is that step's stack less visited entries popped since;
   after a visit it is empty, as is the visit's own stack, and the counter
   is the visit's number. A final `complete` step is numbered as
   `CompleteCounted` says.
   */
  predicate Pops(f: Frame, start: Node) {
    var e, s := f.engine, f.engine.steps;
    && (forall i | 0 <= i < |s| :: PopAt(s, i, start))
    && (s != [] ==> s[0].action == Visit)
    && VisitNodes(s) == e.visitOrder
    && (!e.isComplete ==>
          && (s == [] ==> e.stack == [start] && e.visitOrder == [] && f.count == 0)
          && (s != [] && Last(s).action == StackUpdate ==> UnwoundFrom(Last(s), e, f.count))
          && (s != [] && Last(s).action == Visit ==> e.stack == [] && Last(s).stack == [] && f.count == Last(s).number))
    && (s != [] && Last(s).action == Complete ==> CompleteCounted(s))
  }

  /**
   The `complete` step comes after some other step, and its number is that
   step's number, plus one tick for each entry still on that step's stack
   (all popped as stale), plus one.
   */
  predicate CompleteCounted(s: seq<Step>) {
    |s| >= 2 && Last(s).number == s[|s| - 2].number + |s[|s| - 2].stack| + 1
  }

  ghost predicate Inv(f: Frame, start: Node, target: Option<Node>) {
    && Sane(f)
    && f.yielded == Snapshots(f.engine.steps)
    && StateCoherent(f)
    && Numbered(f)
    && VisitsWellFormed(f, target)
    && StackUpdates(f)
    && Shaped(f, target)
    && Explores(f, start)
    && Pops(f, start)
  }
}

module DfsLoop {
  import opened Wrappers
  import opened NodeOrder
  import opened Seqs
  import opened Graphs
  import opened Records
  import opened Dfs
  import opened DfsProofs

  /** The step a visit of the top of the stack records. */
  function VisitStep(f: Frame, target: Option<Node>): Step
    requires f.engine.stack != []
  {
    var e, n := f.engine, Last(f.engine.stack);
    Step(f.count + 1, Visit, Some(n), e.visited + {n}, e.visitOrder + [n],
         e.stack[..|e.stack| - 1], e.currentPath + [n], Sought(target, n))
  }

  /** The stack a visit of the top of the stack leaves, unless it found the target. */
  function PushedStack(f: Frame): seq<Node>
    requires Sane(f) && f.engine.stack != []
  {
    var e, n := f.engine, Last(f.engine.stack);
    e.stack[..|e.stack| - 1] + Pushes(e.graph, n, e.visited + {n})
  }

  /** The `stack_update` step that follows a visit of the top of the stack. */
  function UpdateStep(f: Frame): Step
    requires Sane(f) && f.engine.stack != []
  {
    var e, n := f.engine, Last(f.engine.stack);
    Step(f.count + 2, StackUpdate, Some(n), e.visited + {n}, e.visitOrder + [n],
         PushedStack(f), e.currentPath + [n], false)
  }

  /** The step the loop exit records. */
  function CompleteStep(f: Frame, target: Option<Node>): Step {
    var e := f.engine;
    Step(f.count + 1, Complete, None, e.visited, e.visitOrder, [], e.currentPath, FoundAtEnd(target, e.visited))
  }

  /** `r`'s object is `e` with the given search state and step list. */
  predicate EngineIs(r: Engine, e: Engine, visited: set<Node>, order: seq<Node>, stack: seq<Node>,
                     steps: seq<Step>, complete: bool)
  {
    && r.graph == e.graph && r.currentStep == e.currentStep
    && r.visited == visited && r.visitOrder == order && r.currentPath == order
    && r.stack == stack && r.steps == steps && r.isComplete == complete
  }

  /**
   One loop iteration as a relation between the states before and after,
   case by case. Proofs about a single iteration work from this rather than
   from the body of `Advance`.
   */
  predicate Moves(f: Frame, r: Frame, target: Option<Node>)
    requires Sane(f) && f.engine.currentPath == f.engine.visitOrder
  {
    var e := f.engine;
    if e.stack == [] then
      && EngineIs(r.engine, e, e.visited, e.visitOrder, [], e.steps + [CompleteStep(f, target)], true)
      && r.count == f.count && r.yielded == f.yielded + [Snapshot(CompleteStep(f, target))]
    else
      var n, rest := Last(e.stack), e.stack[..|e.stack| - 1];
      if n in e.visited then
        && EngineIs(r.engine, e, e.visited, e.visitOrder, rest, e.steps, false)
        && r.count == f.count + 1 && r.yielded == f.yielded
      else
        var visited, order, st := e.visited + {n}, e.visitOrder + [n], VisitStep(f, target);
        if Sought(target, n) then
          && EngineIs(r.engine, e, visited, order, rest, e.steps + [st], true)
          && r.count == f.count + 1 && r.yielded == f.yielded + [Snapshot(st)]
        else if PushedStack(f) == [] then
          && EngineIs(r.engine, e, visited, order, [], e.steps + [st], false)
          && r.count == f.count + 1 && r.yielded == f.yielded + [Snapshot(st)]
        else
          && EngineIs(r.engine, e, visited, order, PushedStack(f), e.steps + [st, UpdateStep(f)], false)
          && r.count == f.count + 2 && r.yielded == f.yielded + [Snapshot(st), Snapshot(UpdateStep(f))]
  }

  lemma MovesFinish(f: Frame, target: Option<Node>)
    requires Sane(f) && !f.engine.isComplete && f.engine.currentPath == f.engine.visitOrder
    requires f.engine.stack == []
    ensures Moves(f, Advance(f, target), target)
  {
  }

  lemma MovesStale(f: Frame, target: Option<Node>)
    requires Sane(f) && !f.engine.isComplete && f.engine.currentPath == f.engine.visitOrder
    requires f.engine.stack != [] && Last(f.engine.stack) in f.engine.visited
    ensures Moves(f, Advance(f, target), target)
  {
  }

  lemma MovesFound(f: Frame, target: Option<Node>)
    requires Sane(f) && !f.engine.isComplete && f.engine.currentPath == f.engine.visitOrder
    requires f.engine.stack != [] && Last(f.engine.stack) !in f.engine.visited && Sought(target, Last(f.engine.stack))
    ensures Moves(f, Advance(f, target), target)
  {
  }

  lemma MovesPush(f: Frame, target: Option<Node>)
    requires Sane(f) && !f.engine.isComplete && f.engine.currentPath == f.engine.visitOrder
    requires f.engine.stack != [] && Last(f.engine.stack) !in f.engine.visited && !Sought(target, Last(f.engine.stack))
    ensures Moves(f, Advance(f, target), target)
  {
    if PushedStack(f) == [] {
      MovesDeadEnd(f, target);
    } else {
      MovesDeeper(f, target);
    }
  }

  /** A visit that leaves the stack empty records only the `visit` step. */
  lemma MovesDeadEnd(f: Frame, target: Option<Node>)
    requires Sane(f) && !f.engine.isComplete && f.engine.currentPath == f.engine.visitOrder
    requires f.engine.stack != [] && Last(f.engine.stack) !in f.engine.visited && !Sought(target, Last(f.engine.stack))
    requires PushedStack(f) == []
    ensures Moves(f, Advance(f, target), target)
  {
  }

  /** A visit that leaves a non-empty stack records the `visit` and the `stack_update` step. */
  lemma MovesDeeper(f: Frame, target: Option<Node>)
    requires Sane(f) && !f.engine.isComplete && f.engine.currentPath == f.engine.visitOrder
    requires f.engine.stack != [] && Last(f.engine.stack) !in f.engine.visited && !Sought(target, Last(f.engine.stack))
    requires PushedStack(f) != []
    ensures Moves(f, Advance(f, target), target)
  {
  }

  lemma AdvanceMoves(f: Frame, target: Option<Node>)
    requires Sane(f) && !f.engine.isComplete && f.engine.currentPath == f.engine.visitOrder
    ensures Moves(f, Advance(f, target), target)
  {
    var e := f.engine;
    if e.stack == [] {
      MovesFinish(f, target);
    } else if Last(e.stack) in e.visited {
      MovesStale(f, target);
    } else if Sought(target, Last(e.stack)) {
      MovesFound(f, target);
    } else {
      MovesPush(f, target);
    }
  }

  // ---------------------------------------------------------------------------
  // Each piece of the invariant survives one iteration

  lemma SnapshotsAppend(steps: seq<Step>, more: seq<Step>)
    ensures Snapshots(steps + more) == Snapshots(steps) + Snapshots(more)
  {
  }

  /** Every step appended is yielded at once, and nothing else is. */
  lemma MovesKeepRecords(f: Frame, r: Frame, target: Option<Node>)
    requires Sane(f) && f.engine.currentPath == f.engine.visitOrder && Moves(f, r, target)
    requires f.yielded == Snapshots(f.engine.steps)
    ensures r.yielded == Snapshots(r.engine.steps)
  {
    var e := f.engine;
    if e.stack == [] {
      SnapshotsAppend(e.steps, [CompleteStep(f, target)]);
    } else if Last(e.stack) !in e.visited {
      SnapshotsAppend(e.steps, [VisitStep(f, target)]);
      if !Sought(target, Last(e.stack)) && PushedStack(f) != [] {
        SnapshotsAppend(e.steps, [VisitStep(f, target), UpdateStep(f)]);
      }
    }
  }

  /** Visiting a fresh node keeps the object's lists in step, and each recorded copy with them. */
  lemma MovesKeepCoherent(f: Frame, r: Frame, target: Option<Node>)
    requires Sane(f) && StateCoherent(f) && Moves(f, r, target)
    ensures StateCoherent(r)
  {
    var e := f.engine;
    if e.stack == [] || Last(e.stack) in e.visited {
      CoherentIdle(f, r, target);
    } else {
      CoherentVisit(f, r, target);
    }
  }

  lemma CoherentIdle(f: Frame, r: Frame, target: Option<Node>)
    requires Sane(f) && StateCoherent(f) && Moves(f, r, target)
    requires f.engine.stack == [] || Last(f.engine.stack) in f.engine.visited
    ensures StateCoherent(r)
  {
  }

  lemma CoherentVisit(f: Frame, r: Frame, target: Option<Node>)
    requires Sane(f) && StateCoherent(f) && Moves(f, r, target)
    requires f.engine.stack != [] && Last(f.engine.stack) !in f.engine.visited
    ensures StateCoherent(r)
  {
    var e, n := f.engine, Last(f.engine.stack);
    var more := VisitMoves(f, r, target);
    NoDupAppend(e.visitOrder, n);
    assert forall i | 0 <= i < |more| :: Coherent(more[i]) && more[i].visitOrder <= e.visitOrder + [n];
    CoherentAppend(e.steps, more, e.visitOrder, e.visitOrder + [n]);
  }

  /** What visiting a fresh node does to the object's lists, and the steps it appends. */
  lemma VisitMoves(f: Frame, r: Frame, target: Option<Node>) returns (more: seq<Step>)
    requires Sane(f) && f.engine.currentPath == f.engine.visitOrder && Moves(f, r, target)
    requires f.engine.stack != [] && Last(f.engine.stack) !in f.engine.visited
    ensures var e, n := f.engine, Last(f.engine.stack);
      && r.engine.visitOrder == e.visitOrder + [n] && r.engine.visited == e.visited + {n}
      && r.engine.currentPath == r.engine.visitOrder && r.engine.steps == e.steps + more
      && 0 < |more| <= 2
      && forall i | 0 <= i < |more| ::
           more[i].visited == e.visited + {n} && more[i].visitOrder == e.visitOrder + [n]
           && more[i].currentPath == e.visitOrder + [n]
  {
    if Sought(target, Last(f.engine.stack)) || PushedStack(f) == [] {
      more := [VisitStep(f, target)];
    } else {
      more := [VisitStep(f, target), UpdateStep(f)];
    }
  }

  /** Steps coherent and no further than `order`, extended by steps coherent and no further than `order'`. */
  lemma CoherentAppend(steps: seq<Step>, more: seq<Step>, order: seq<Node>, order': seq<Node>)
    requires forall i | 0 <= i < |steps| :: Coherent(steps[i]) && steps[i].visitOrder <= order
    requires order <= order'
    requires forall i | 0 <= i < |more| :: Coherent(more[i]) && more[i].visitOrder <= order'
    ensures forall i | 0 <= i < |steps + more| :: Coherent((steps + more)[i]) && (steps + more)[i].visitOrder <= order'
  {
    forall i | 0 <= i < |steps + more|
      ensures Coherent((steps + more)[i]) && (steps + more)[i].visitOrder <= order'
    {
      if i < |steps| {
        assert (steps + more)[i] == steps[i];
      } else {
        assert (steps + more)[i] == more[i - |steps|];
      }
    }
  }

  /** Numbers keep growing: a visit takes the advanced counter, a stack update the one after. */
  lemma MovesKeepNumbered(f: Frame, r: Frame, target: Option<Node>)
    requires Sane(f) && f.engine.currentPath == f.engine.visitOrder && Moves(f, r, target)
    requires Numbered(f)
    requires forall i | 0 <= i < |f.engine.steps| :: f.engine.steps[i].action != Complete
    ensures Numbered(r)
  {
    var more := NewSteps(f, r, target);
    NumberedExtend(f.engine.steps, more, f.count, r.count);
  }

  /** The steps one iteration appends, numbered above the counter and increasing. */
  lemma NewSteps(f: Frame, r: Frame, target: Option<Node>) returns (more: seq<Step>)
    requires Sane(f) && f.engine.currentPath == f.engine.visitOrder && Moves(f, r, target)
    ensures r.engine.steps == f.engine.steps + more
    ensures forall i | 0 <= i < |more| :: f.count < more[i].number
    ensures forall i, j | 0 <= i < j < |more| :: more[i].number < more[j].number
    ensures forall i | 0 <= i < |more| :: more[i].action != Complete ==> more[i].number <= r.count
    ensures f.count <= r.count
  {
    var e := f.engine;
    if e.stack == [] {
      more := [CompleteStep(f, target)];
    } else if Last(e.stack) in e.visited {
      more := [];
      assert r.engine.steps == e.steps + more;
    } else if Sought(target, Last(e.stack)) || PushedStack(f) == [] {
      more := [VisitStep(f, target)];
    } else {
      more := [VisitStep(f, target), UpdateStep(f)];
    }
  }

  /** Appending steps numbered above `bound`, in increasing order, to steps numbered at most `bound`. */
  lemma NumberedExtend(s: seq<Step>, more: seq<Step>, bound: nat, bound': nat)
    requires bound <= bound'
    requires forall i | 0 <= i < |s| :: 1 <= s[i].number <= bound
    requires forall i, j | 0 <= i < j < |s| :: s[i].number < s[j].number
    requires forall i | 0 <= i < |more| :: bound < more[i].number
    requires forall i | 0 <= i < |more| :: more[i].action != Complete ==> more[i].number <= bound'
    requires forall i, j | 0 <= i < j < |more| :: more[i].number < more[j].number
    ensures forall i, j | 0 <= i < j < |s + more| :: (s + more)[i].number < (s + more)[j].number
    ensures forall i | 0 <= i < |s + more| ::
      1 <= (s + more)[i].number && ((s + more)[i].action != Complete ==> (s + more)[i].number <= bound')
  {
    forall i | 0 <= i < |s + more|
      ensures 1 <= (s + more)[i].number && ((s + more)[i].action != Complete ==> (s + more)[i].number <= bound')
    {
      if i < |s| {
        assert (s + more)[i] == s[i];
      } else {
        assert (s + more)[i] == more[i - |s|];
      }
    }
  }

  /** A new visit step names its node and flags it exactly when it is the target. */
  lemma MovesKeepVisits(f: Frame, r: Frame, target: Option<Node>)
    requires Sane(f) && StateCoherent(f) && Moves(f, r, target)
    requires VisitsWellFormed(f, target)
    ensures VisitsWellFormed(r, target)
  {
    var more := NewVisits(f, r, target);
    VisitsAppend(f.engine.graph, target, f.engine.steps, more);
  }

  /** The steps one iteration appends, each visit among them well formed. */
  lemma NewVisits(f: Frame, r: Frame, target: Option<Node>) returns (more: seq<Step>)
    requires Sane(f) && StateCoherent(f) && Moves(f, r, target)
    ensures r.engine.steps == f.engine.steps + more && r.engine.graph == f.engine.graph
    ensures forall i | 0 <= i < |more| && more[i].action == Visit ::
      && more[i].current.Some? && more[i].current.value in f.engine.graph.adj
      && |more[i].visitOrder| > 0 && Last(more[i].visitOrder) == more[i].current.value
      && (more[i].foundTarget <==> Sought(target, more[i].current.value))
  {
    var e := f.engine;
    if e.stack == [] {
      more := [CompleteStep(f, target)];
    } else if Last(e.stack) in e.visited {
      more := [];
      assert r.engine.steps == e.steps + more;
    } else {
      more := VisitSteps(f, r, target);
    }
  }

  /** The steps a visit appends: the visit itself, well formed, and possibly a `stack_update`. */
  lemma VisitSteps(f: Frame, r: Frame, target: Option<Node>) returns (more: seq<Step>)
    requires Sane(f) && StateCoherent(f) && Moves(f, r, target)
    requires f.engine.stack != [] && Last(f.engine.stack) !in f.engine.visited
    ensures r.engine.steps == f.engine.steps + more && r.engine.graph == f.engine.graph
    ensures forall i | 0 <= i < |more| && more[i].action == Visit ::
      && more[i].current.Some? && more[i].current.value in f.engine.graph.adj
      && |more[i].visitOrder| > 0 && Last(more[i].visitOrder) == more[i].current.value
      && (more[i].foundTarget <==> Sought(target, more[i].current.value))
  {
    var e, n, st := f.engine, Last(f.engine.stack), VisitStep(f, target);
    assert n in e.graph.adj;
    assert st.action == Visit && st.current == Some(n) && Last(st.visitOrder) == n;
    if Sought(target, n) || PushedStack(f) == [] {
      more := [st];
    } else {
      assert UpdateStep(f).action == StackUpdate;
      more := [st, UpdateStep(f)];
    }
  }

  /** Well-formed visits stay well formed when more well-formed visits are appended. */
  lemma VisitsAppend(g: Graph, target: Option<Node>, s: seq<Step>, more: seq<Step>)
    requires forall i | 0 <= i < |s| && s[i].action == Visit ::
      && s[i].current.Some? && s[i].current.value in g.adj
      && |s[i].visitOrder| > 0 && Last(s[i].visitOrder) == s[i].current.value
      && (s[i].foundTarget <==> Sought(target, s[i].current.value))
    requires forall i | 0 <= i < |more| && more[i].action == Visit ::
      && more[i].current.Some? && more[i].current.value in g.adj
      && |more[i].visitOrder| > 0 && Last(more[i].visitOrder) == more[i].current.value
      && (more[i].foundTarget <==> Sought(target, more[i].current.value))
    ensures forall i | 0 <= i < |s + more| && (s + more)[i].action == Visit ::
      && (s + more)[i].current.Some? && (s + more)[i].current.value in g.adj
      && |(s + more)[i].visitOrder| > 0 && Last((s + more)[i].visitOrder) == (s + more)[i].current.value
      && ((s + more)[i].foundTarget <==> Sought(target, (s + more)[i].current.value))
  {
    forall i | 0 <= i < |s + more| && (s + more)[i].action == Visit
      ensures (s + more)[i].current.Some? && (s + more)[i].current.value in g.adj
      ensures |(s + more)[i].visitOrder| > 0 && Last((s + more)[i].visitOrder) == (s + more)[i].current.value
      ensures (s + more)[i].foundTarget <==> Sought(target, (s + more)[i].current.value)
    {
      if i < |s| {
        assert (s + more)[i] == s[i];
      } else {
        assert (s + more)[i] == more[i - |s|];
      }
    }
  }

  /** Old steps keep their stack-update facts when steps are appended. */
  lemma UpdatesPrefix(g: Graph, s: seq<Step>, more: seq<Step>)
    requires Updates(g, s)
    ensures forall i | 0 <= i < |s| :: UpdateAt(g, s + more, i)
    ensures forall i | 0 <= i < |s| - 1 :: UpdateAfter(g, s + more, i)
  {
    forall i | 0 <= i < |s|
      ensures UpdateAt(g, s + more, i)
    {
      assert UpdateAt(g, s, i);
      if 0 < i {
        assert (s + more)[i - 1] == s[i - 1];
      }
    }
    forall i | 0 <= i < |s| - 1
      ensures UpdateAfter(g, s + more, i)
    {
      assert UpdateAfter(g, s, i);
    }
  }

  /** Appending a step other than a `stack_update`, when none was due. */
  lemma UpdatesAppendQuiet(g: Graph, s: seq<Step>, st: Step)
    requires Updates(g, s) && st.action != StackUpdate
    requires AwaitsUpdate(g, s) ==> Pushed(g, Last(s)) == []
    ensures Updates(g, s + [st])
  {
    UpdatesPrefix(g, s, [st]);
    assert UpdateAt(g, s + [st], |s|);
    if |s| > 0 {
      assert UpdateAfter(g, s + [st], |s| - 1);
    }
  }

  /** Appending a visit and the `stack_update` showing its pushed stack, when none was due. */
  lemma UpdatesAppendPush(g: Graph, s: seq<Step>, v: Step, u: Step)
    requires Updates(g, s) && !AwaitsUpdate(g, s)
    requires v.action == Visit && !v.foundTarget && v.current.Some? && v.current.value in g.adj
    requires u.action == StackUpdate && u.stack == Pushed(g, v) && u.stack != []
    requires u.current == v.current && !u.foundTarget && u.number == v.number + 1
    requires u.visited == v.visited && u.visitOrder == v.visitOrder
    ensures Updates(g, s + [v, u])
  {
    UpdatesPrefix(g, s, [v, u]);
    UpdatesPushTail(g, s, v, u);
    UpdatesGlue(g, s + [v, u], |s|);
  }

  /** The facts hold at the first `n` steps and at the two after them. */
  lemma UpdatesGlue(g: Graph, s: seq<Step>, n: nat)
    requires |s| == n + 2
    requires forall i | 0 <= i < n :: UpdateAt(g, s, i)
    requires forall i | 0 <= i < n - 1 :: UpdateAfter(g, s, i)
    requires UpdateAt(g, s, n) && UpdateAt(g, s, n + 1) && UpdateAfter(g, s, n)
    requires n > 0 ==> UpdateAfter(g, s, n - 1)
    ensures Updates(g, s)
  {
    forall i | 0 <= i < |s|
      ensures UpdateAt(g, s, i)
    {
      if i == n + 1 {
      } else if i == n {
      }
    }
    forall i | 0 <= i < |s| - 1
      ensures UpdateAfter(g, s, i)
    {
      if i == n {
      } else if i == n - 1 {
      }
    }
  }

  /** The facts at the two appended steps and at the step before them. */
  lemma UpdatesPushTail(g: Graph, s: seq<Step>, v: Step, u: Step)
    requires !AwaitsUpdate(g, s)
    requires v.action == Visit && !v.foundTarget && v.current.Some? && v.current.value in g.adj
    requires u.action == StackUpdate && u.stack == Pushed(g, v) && u.stack != []
    requires u.current == v.current && !u.foundTarget && u.number == v.number + 1
    requires u.visited == v.visited && u.visitOrder == v.visitOrder
    ensures UpdateAt(g, s + [v, u], |s|) && UpdateAt(g, s + [v, u], |s| + 1)
    ensures UpdateAfter(g, s + [v, u], |s|)
    ensures |s| > 0 ==> UpdateAfter(g, s + [v, u], |s| - 1)
  {
    var s' := s + [v, u];
    assert s'[|s|] == v && s'[|s| + 1] == u;
    if |s| > 0 {
      assert s'[|s| - 1] == Last(s);
    }
  }

  /** A `stack_update` step appears exactly after a visit whose pushed stack is not empty. */
  lemma MovesKeepUpdates(f: Frame, r: Frame, target: Option<Node>)
    requires Sane(f) && f.engine.currentPath == f.engine.visitOrder && !f.engine.isComplete && Moves(f, r, target)
    requires StackUpdates(f)
    ensures StackUpdates(r)
  {
    var e, s, g := f.engine, f.engine.steps, f.engine.graph;
    if e.stack == [] {
      UpdatesAppendQuiet(g, s, CompleteStep(f, target));
    } else if Last(e.stack) !in e.visited {
      var st := VisitStep(f, target);
      assert Pushed(g, st) == PushedStack(f);
      if !Sought(target, Last(e.stack)) && PushedStack(f) != [] {
        UpdatesAppendPush(g, s, st, UpdateStep(f));
      } else {
        UpdatesAppendQuiet(g, s, st);
      }
    }
  }

  /** The run ends exactly when a terminal step is recorded, and a `complete` step reports the final state. */
  lemma MovesKeepShape(f: Frame, r: Frame, target: Option<Node>)
    requires Sane(f) && f.engine.currentPath == f.engine.visitOrder && !f.engine.isComplete && Moves(f, r, target)
    requires Shaped(f, target)
    ensures Shaped(r, target)
  {
    var e := f.engine;
    if e.stack == [] {
      ShapeFinish(f, r, target);
    } else if Last(e.stack) !in e.visited {
      ShapeVisit(f, r, target);
    }
  }

  lemma ShapeFinish(f: Frame, r: Frame, target: Option<Node>)
    requires Sane(f) && f.engine.currentPath == f.engine.visitOrder && !f.engine.isComplete && Moves(f, r, target)
    requires Shaped(f, target) && f.engine.stack == []
    ensures Shaped(r, target)
  {
    var s := f.engine.steps;
    var s' := s + [CompleteStep(f, target)];
    assert forall i | 0 <= i < |s'| - 1 :: s'[i] == s[i];
  }

  lemma ShapeVisit(f: Frame, r: Frame, target: Option<Node>)
    requires Sane(f) && f.engine.currentPath == f.engine.visitOrder && !f.engine.isComplete && Moves(f, r, target)
    requires Shaped(f, target) && f.engine.stack != [] && Last(f.engine.stack) !in f.engine.visited
    ensures Shaped(r, target)
  {
    var e := f.engine;
    if Sought(target, Last(e.stack)) {
      var st := FoundMoves(f, r, target);
      ShapeFound(r, target, e.steps, st);
    } else {
      var more := QuietMoves(f, r, target);
      ShapeQuiet(r, target, e.steps, more);
    }
  }

  /** A visit of the target records one terminal `visit` step and ends the run. */
  lemma FoundMoves(f: Frame, r: Frame, target: Option<Node>) returns (st: Step)
    requires Sane(f) && f.engine.currentPath == f.engine.visitOrder && Moves(f, r, target)
    requires f.engine.stack != [] && Last(f.engine.stack) !in f.engine.visited && Sought(target, Last(f.engine.stack))
    ensures r.engine.steps == f.engine.steps + [st] && r.engine.isComplete
    ensures st.foundTarget && st.action == Visit
  {
    st := VisitStep(f, target);
  }

  /** Any other visit records only steps that are not terminal and leaves the target unvisited. */
  lemma QuietMoves(f: Frame, r: Frame, target: Option<Node>) returns (more: seq<Step>)
    requires Sane(f) && f.engine.currentPath == f.engine.visitOrder && Moves(f, r, target)
    requires f.engine.stack != [] && Last(f.engine.stack) !in f.engine.visited && !Sought(target, Last(f.engine.stack))
    requires !(Truthy(target) && target.value in f.engine.visited)
    ensures r.engine.steps == f.engine.steps + more && !r.engine.isComplete
    ensures !(Truthy(target) && target.value in r.engine.visited)
    ensures forall i | 0 <= i < |more| :: !Terminal(more[i])
  {
    if PushedStack(f) == [] {
      more := [VisitStep(f, target)];
    } else {
      more := [VisitStep(f, target), UpdateStep(f)];
    }
  }

  /** Appending a terminal step that is not `complete` to a run with no terminal step ends it in shape. */
  lemma ShapeFound(r: Frame, target: Option<Node>, s: seq<Step>, st: Step)
    requires r.engine.steps == s + [st] && r.engine.isComplete
    requires forall i | 0 <= i < |s| :: !Terminal(s[i])
    requires st.foundTarget && st.action == Visit
    ensures Shaped(r, target)
  {
    var s' := s + [st];
    assert forall i | 0 <= i < |s'| - 1 :: s'[i] == s[i];
  }

  /** Appending steps that are not terminal to a run with no terminal step keeps it in shape. */
  lemma ShapeQuiet(r: Frame, target: Option<Node>, s: seq<Step>, more: seq<Step>)
    requires r.engine.steps == s + more && !r.engine.isComplete
    requires forall i | 0 <= i < |s| :: !Terminal(s[i])
    requires forall i | 0 <= i < |more| :: !Terminal(more[i])
    requires !(Truthy(target) && target.value in r.engine.visited)
    ensures Shaped(r, target)
  {
    forall i | 0 <= i < |s + more|
      ensures !Terminal((s + more)[i])
    {
      if i < |s| {
        assert (s + more)[i] == s[i];
      } else {
        assert (s + more)[i] == more[i - |s|];
      }
    }
  }

  /** Visited and stacked nodes stay reachable, and the explored part stays closed under edges. */
  lemma MovesKeepExplores(f: Frame, r: Frame, target: Option<Node>, start: Node)
    requires Sane(f) && f.engine.currentPath == f.engine.visitOrder && !f.engine.isComplete && Moves(f, r, target)
    requires Explores(f, start)
    ensures Explores(r, start)
  {
    var e, g := f.engine, f.engine.graph;
    if e.stack != [] {
      var n, rest := Last(e.stack), e.stack[..|e.stack| - 1];
      SplitLast(e.stack);
      if n in e.visited {
        ClosedAfterPop(g, e.visited, rest, n);
      } else if !Sought(target, n) {
        var pushed := Pushes(g, n, e.visited + {n});
        forall w | w in pushed
          ensures Reachable(g, start, w)
        {
          ReachableExtend(g, start, n, w);
        }
        ClosedAfterPush(g, e.visited, rest, n, pushed);
        assert PushedStack(f) == rest + pushed;
      }
    }
  }

  /** Popping a node already visited keeps the explored part closed. */
  lemma ClosedAfterPop(g: Graph, visited: set<Node>, rest: seq<Node>, n: Node)
    requires Closed(g, visited, rest + [n]) && n in visited
    ensures Closed(g, visited, rest)
  {
    forall v, w | v in visited && g.HasEdge(v, w)
      ensures w in visited || w in rest
    {
      if w !in visited {
        assert w in rest + [n];
      }
    }
  }

  /** Visiting the popped node and pushing its unvisited neighbours keeps the explored part closed. */
  lemma ClosedAfterPush(g: Graph, visited: set<Node>, rest: seq<Node>, n: Node, pushed: seq<Node>)
    requires Closed(g, visited, rest + [n])
    requires forall w :: w in pushed <==> g.HasEdge(n, w) && w !in visited + {n}
    ensures Closed(g, visited + {n}, rest + pushed)
  {
    forall v, w | v in visited + {n} && g.HasEdge(v, w)
      ensures w in visited + {n} || w in rest + pushed
    {
      if v != n && w !in visited + {n} {
        assert w in rest + [n];
        assert w in rest;
      }
    }
  }

  /** Each visit pops the top of the stack, and the visit steps keep naming the visit order. */
  lemma MovesKeepPops(f: Frame, r: Frame, target: Option<Node>, start: Node)
    requires Sane(f) && StateCoherent(f) && !f.engine.isComplete && Moves(f, r, target)
    requires forall i | 0 <= i < |f.engine.steps| :: f.engine.steps[i].action != Complete
    requires Pops(f, start)
    ensures Pops(r, start)
  {
    var e := f.engine;
    if e.stack == [] {
      PopsFinish(f, r, target, start);
    } else if Last(e.stack) in e.visited {
      PopsStale(f, r, target, start);
    } else {
      PopVisit(f, target, start);
      if Sought(target, Last(e.stack)) || PushedStack(f) == [] {
        PopsVisitOnly(f, r, target, start);
      } else {
        PopsVisitPush(f, r, target, start);
      }
    }
  }

  /** Old steps keep their pop facts when steps are appended. */
  lemma PopsPrefix(s: seq<Step>, more: seq<Step>, start: Node)
    requires forall i | 0 <= i < |s| :: PopAt(s, i, start)
    ensures forall i | 0 <= i < |s| :: PopAt(s + more, i, start)
  {
    forall i | 0 <= i < |s|
      ensures PopAt(s + more, i, start)
    {
      assert PopAt(s, i, start);
      assert (s + more)[i] == s[i];
      if 0 < i {
        assert (s + more)[i - 1] == s[i - 1];
      }
    }
  }

  lemma VisitNodesSnoc(s: seq<Step>, st: Step)
    ensures VisitNodes(s + [st]) == VisitNodes(s) + (if st.action == Visit && st.current.Some? then [st.current.value] else [])
  {
    assert (s + [st])[..|s|] == s;
  }

  /** The loop exit records a `complete` step, which pops nothing. */
  lemma PopsFinish(f: Frame, r: Frame, target: Option<Node>, start: Node)
    requires Sane(f) && f.engine.currentPath == f.engine.visitOrder && !f.engine.isComplete && Moves(f, r, target)
    requires forall i | 0 <= i < |f.engine.steps| :: f.engine.steps[i].action != Complete
    requires Pops(f, start) && f.engine.stack == []
    ensures Pops(r, start)
  {
    var s, st := f.engine.steps, CompleteStep(f, target);
    PopsPrefix(s, [st], start);
    VisitNodesSnoc(s, st);
    assert (s + [st])[|s|] == st;
    if s != [] {
      assert (s + [st])[0] == s[0];
      assert (s + [st])[|s| - 1] == Last(s) == s[|s| - 1];
    }
  }

  /** Popping an entry already visited records nothing; the stack still lies under the last `stack_update`'s. */
  lemma PopsStale(f: Frame, r: Frame, target: Option<Node>, start: Node)
    requires Sane(f) && StateCoherent(f) && !f.engine.isComplete && Moves(f, r, target)
    requires forall i | 0 <= i < |f.engine.steps| :: f.engine.steps[i].action != Complete
    requires Pops(f, start) && f.engine.stack != [] && Last(f.engine.stack) in f.engine.visited
    ensures Pops(r, start)
  {
    var e, s := f.engine, f.engine.steps;
    if s != [] {
      assert Last(s) == s[|s| - 1];
      var p, m := Last(s).stack, |e.stack| - 1;
      assert p[..m] == e.stack[..m];
      assert p[m] == Last(e.stack);
    }
  }

  /** A visit of a fresh node at the top of the stack pops as `PopAt` says. */
  lemma PopVisit(f: Frame, target: Option<Node>, start: Node)
    requires Sane(f) && !f.engine.isComplete && Pops(f, start)
    requires forall i | 0 <= i < |f.engine.steps| :: f.engine.steps[i].action != Complete
    requires f.engine.stack != [] && Last(f.engine.stack) !in f.engine.visited
    ensures PopAt(f.engine.steps + [VisitStep(f, target)], |f.engine.steps|, start)
  {
    var e, s, st := f.engine, f.engine.steps, VisitStep(f, target);
    assert (s + [st])[|s|] == st;
    if s != [] {
      assert (s + [st])[|s| - 1] == Last(s) == s[|s| - 1];
      var p, m := Last(s).stack, |e.stack| - 1;
      assert p[..m] == e.stack[..m];
      assert p[m] == Last(e.stack);
    }
  }

  /** A visit that records no `stack_update`: it found the target, or left the stack empty. */
  lemma PopsVisitOnly(f: Frame, r: Frame, target: Option<Node>, start: Node)
    requires Sane(f) && f.engine.currentPath == f.engine.visitOrder && !f.engine.isComplete && Moves(f, r, target)
    requires Pops(f, start) && f.engine.stack != [] && Last(f.engine.stack) !in f.engine.visited
    requires Sought(target, Last(f.engine.stack)) || PushedStack(f) == []
    requires PopAt(f.engine.steps + [VisitStep(f, target)], |f.engine.steps|, start)
    ensures Pops(r, start)
  {
    var s' := PopsAppendVisit(f, target, start);
    if Sought(target, Last(f.engine.stack)) {
      PopsFound(f, r, target, start, s');
    } else {
      PopsDeadEnd(f, r, target, start, s');
    }
  }

  /** The step list with a visit of the top of the stack appended keeps the pop facts. */
  lemma PopsAppendVisit(f: Frame, target: Option<Node>, start: Node) returns (s': seq<Step>)
    requires Sane(f) && !f.engine.isComplete && Pops(f, start)
    requires f.engine.stack != [] && Last(f.engine.stack) !in f.engine.visited
    requires PopAt(f.engine.steps + [VisitStep(f, target)], |f.engine.steps|, start)
    ensures s' == f.engine.steps + [VisitStep(f, target)]
    ensures forall i | 0 <= i < |s'| :: PopAt(s', i, start)
    ensures s'[0].action == Visit && VisitNodes(s') == f.engine.visitOrder + [Last(f.engine.stack)]
  {
    var s, st := f.engine.steps, VisitStep(f, target);
    s' := s + [st];
    PopsPrefix(s, [st], start);
    VisitNodesSnoc(s, st);
    assert s'[|s|] == st;
    if s != [] {
      assert s'[0] == s[0];
    }
  }

  /** Appending a `stack_update` keeps the pop facts and names no new node. */
  lemma PopsAppendUpdate(s: seq<Step>, u: Step, start: Node, order: seq<Node>)
    requires forall i | 0 <= i < |s| :: PopAt(s, i, start)
    requires s != [] && s[0].action == Visit && VisitNodes(s) == order
    requires u.action == StackUpdate
    ensures forall i | 0 <= i < |s + [u]| :: PopAt(s + [u], i, start)
    ensures (s + [u])[0].action == Visit && VisitNodes(s + [u]) == order
  {
    PopsPrefix(s, [u], start);
    VisitNodesSnoc(s, u);
    assert (s + [u])[|s|] == u;
    assert (s + [u])[0] == s[0];
  }

  /** Visiting the target ends the run with the visit step last. */
  lemma PopsFound(f: Frame, r: Frame, target: Option<Node>, start: Node, s': seq<Step>)
    requires Sane(f) && f.engine.currentPath == f.engine.visitOrder && Moves(f, r, target)
    requires f.engine.stack != [] && Last(f.engine.stack) !in f.engine.visited && Sought(target, Last(f.engine.stack))
    requires s' == f.engine.steps + [VisitStep(f, target)]
    requires forall i | 0 <= i < |s'| :: PopAt(s', i, start)
    requires s'[0].action == Visit && VisitNodes(s') == f.engine.visitOrder + [Last(f.engine.stack)]
    ensures Pops(r, start)
  {
  }

  /** A visit that pushes nothing leaves the stack empty after a visit step. */
  lemma PopsDeadEnd(f: Frame, r: Frame, target: Option<Node>, start: Node, s': seq<Step>)
    requires Sane(f) && f.engine.currentPath == f.engine.visitOrder && Moves(f, r, target)
    requires f.engine.stack != [] && Last(f.engine.stack) !in f.engine.visited && !Sought(target, Last(f.engine.stack))
    requires PushedStack(f) == []
    requires s' == f.engine.steps + [VisitStep(f, target)]
    requires forall i | 0 <= i < |s'| :: PopAt(s', i, start)
    requires s'[0].action == Visit && VisitNodes(s') == f.engine.visitOrder + [Last(f.engine.stack)]
    ensures Pops(r, start)
  {
    assert Last(s') == VisitStep(f, target);
  }

  /** A visit followed by its `stack_update`: the stack is exactly the one that step shows. */
  lemma PopsVisitPush(f: Frame, r: Frame, target: Option<Node>, start: Node)
    requires Sane(f) && f.engine.currentPath == f.engine.visitOrder && !f.engine.isComplete && Moves(f, r, target)
    requires Pops(f, start) && f.engine.stack != [] && Last(f.engine.stack) !in f.engine.visited
    requires !Sought(target, Last(f.engine.stack)) && PushedStack(f) != []
    requires PopAt(f.engine.steps + [VisitStep(f, target)], |f.engine.steps|, start)
    ensures Pops(r, start)
  {
    var s' := PopsAppendVisit(f, target, start);
    var u := UpdateStep(f);
    PopsAppendUpdate(s', u, start, f.engine.visitOrder + [Last(f.engine.stack)]);
    assert f.engine.steps + [VisitStep(f, target), u] == s' + [u];
    assert u.stack[..|u.stack|] == u.stack;
  }

  // ---------------------------------------------------------------------------
  // The whole loop

  /** The initial generator state: a fresh object whose stack holds the start node. */
  function Begin(e: Engine, start: Node): Frame {
    Frame(Reset(e).(stack := [start]), 0, [])
  }

  lemma BeginInv(e: Engine, start: Node, target: Option<Node>)
    requires e.graph.Valid() && e.graph.HasNode(start)
    ensures Inv(Begin(e, start), start, target)
  {
    ReachableStart(e.graph, start);
  }

  /** One iteration keeps the invariant. */
  lemma AdvanceInv(f: Frame, start: Node, target: Option<Node>)
    requires Inv(f, start, target) && !f.engine.isComplete
    ensures Inv(Advance(f, target), start, target)
  {
    var r := Advance(f, target);
    AdvanceMoves(f, target);
    MovesKeepRecords(f, r, target);
    MovesKeepCoherent(f, r, target);
    assert forall i | 0 <= i < |f.engine.steps| :: !Terminal(f.engine.steps[i]);
    MovesKeepNumbered(f, r, target);
    MovesKeepVisits(f, r, target);
    MovesKeepUpdates(f, r, target);
    MovesKeepShape(f, r, target);
    MovesKeepExplores(f, r, target, start);
    MovesKeepPops(f, r, target, start);
  }

  lemma {:induction false} DriveInv(f: Frame, start: Node, target: Option<Node>)
    requires Inv(f, start, target)
    ensures Inv(Drive(f, target), start, target)
    decreases !f.engine.isComplete, |f.engine.graph.Nodes() - f.engine.visited|, |f.engine.stack|
  {
    if !f.engine.isComplete {
      AdvanceInv(f, start, target);
      DriveInv(Advance(f, target), start, target);
    }
  }
}
