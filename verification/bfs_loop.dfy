/**
 One iteration of the breadth-first loop, and why each piece of the
 invariant survives it.
 */
module BfsLoop {
  import opened Wrappers
  import opened NodeOrder
  import opened Seqs
  import opened Graphs
  import opened Records
  import opened Bfs
  import opened BfsProofs

  /** The step a visit of the front of the queue records. */
  function VisitStep(f: Frame, target: Option<Node>): Step
    requires f.engine.queue != []
  {
    var e, n := f.engine, f.engine.queue[0];
    Step(f.count + 1, Visit, Some(n), e.visited, e.visitOrder + [n], e.queue[1..], e.level, Sought(target, n))
  }

  /** The nodes a visit of the front of the queue enqueues. */
  function AddedBy(f: Frame): seq<Node>
    requires Sane(f) && f.engine.queue != []
  {
    SortAscending(Fresh(f.engine.graph, f.engine.queue[0], f.engine.visited))
  }

  /** The `queue_update` step recorded after enqueuing `added` into the object `e1`, visiting `n`. */
  function UpdateStep(number: nat, n: Node, e1: Engine, added: seq<Node>): Step {
    Step(number, QueueUpdate(added), Some(n), e1.visited, e1.visitOrder, e1.queue, e1.level, false)
  }

  /** The step the loop exit records. */
  function CompleteStep(f: Frame, target: Option<Node>): Step {
    var e := f.engine;
    Step(f.count + 1, Complete, None, e.visited, e.visitOrder, [], e.level, FoundAtEnd(target, e.visited))
  }

  /** An iteration moves the front node `n` to the visit order and appends what it adds to the queue and the dicts. */
  ghost predicate QueueMoved(f: Frame, r: Frame)
    requires Sane(f) && f.engine.queue != []
  {
    var e, n, added := f.engine, f.engine.queue[0], AddedBy(f);
    && r.engine.graph == e.graph && !r.engine.isComplete
    && r.engine.visitOrder == e.visitOrder + [n]
    && r.engine.queue == e.queue[1..] + added
    && r.engine.order == e.order + added
    && r.engine.visited == e.visited + Elems(added)
  }

  /** The added nodes get `n` as parent and the level after `n`'s; every other entry is kept. */
  ghost predicate DictsGrown(f: Frame, r: Frame)
    requires Sane(f) && f.engine.queue != []
  {
    var e, n, added := f.engine, f.engine.queue[0], AddedBy(f);
    && (forall m :: m in r.engine.level <==> m in e.level || m in added)
    && (forall m :: m in r.engine.parent <==> m in e.parent || m in added)
    && (forall m | m in added :: r.engine.level[m] == e.level[n] + 1 && r.engine.parent[m] == Some(n))
    && (forall m | m in e.level && m !in added :: r.engine.level[m] == e.level[m])
    && (forall m | m in e.parent && m !in added :: r.engine.parent[m] == e.parent[m])
  }

  /** A visit step is recorded and yielded, followed by a `queue_update` step when something was added. */
  ghost predicate StepsRecorded(f: Frame, r: Frame, target: Option<Node>)
    requires Sane(f) && f.engine.queue != []
  {
    var e, n, added := f.engine, f.engine.queue[0], AddedBy(f);
    var st := VisitStep(f, target);
    var qu := UpdateStep(f.count + 2, n, r.engine, added);
    && (added == [] ==>
          r.engine.steps == e.steps + [st] && r.count == f.count + 1 && r.yielded == f.yielded + [Snapshot(st)])
    && (added != [] ==>
          && r.engine.steps == e.steps + [st, qu] && r.count == f.count + 2
          && r.yielded == f.yielded + [Snapshot(st), Snapshot(qu)])
  }

  /** An iteration that visits the front node without finding the target. */
  ghost predicate Explored(f: Frame, r: Frame, target: Option<Node>)
    requires Sane(f) && f.engine.queue != []
  {
    QueueMoved(f, r) && DictsGrown(f, r) && StepsRecorded(f, r, target)
  }

  /** The rest of an iteration, as the neighbour loop and the record of what it added. */
  lemma ExploreShape(p: Frame, n: Node)
    requires Sane(p) && n in p.engine.graph.adj && n in p.engine.visited && n in p.engine.level
    ensures var d, r := Discover(p.engine, n, Neighbours(p.engine.graph, n)), Explore(p, n);
      && r.engine == d.0.(steps := r.engine.steps)
      && (d.1 == [] ==> r.engine.steps == d.0.steps && r.count == p.count && r.yielded == p.yielded)
      && (d.1 != [] ==>
            && r.engine.steps == d.0.steps + [UpdateStep(p.count + 1, n, d.0, d.1)] && r.count == p.count + 1
            && r.yielded == p.yielded + [Snapshot(UpdateStep(p.count + 1, n, d.0, d.1))])
  {
    var d := Discover(p.engine, n, Neighbours(p.engine.graph, n));
    assert Explore(p, n) == Enqueued(p, n, d.0, d.1);
    EnqueuedShape(p, n, d.0, d.1);
  }

  lemma EnqueuedShape(p: Frame, n: Node, e1: Engine, added: seq<Node>)
    ensures var r := Enqueued(p, n, e1, added);
      && r.engine == e1.(steps := r.engine.steps)
      && (added == [] ==> r.engine.steps == e1.steps && r.count == p.count && r.yielded == p.yielded)
      && (added != [] ==>
            && r.engine.steps == e1.steps + [UpdateStep(p.count + 1, n, e1, added)] && r.count == p.count + 1
            && r.yielded == p.yielded + [Snapshot(UpdateStep(p.count + 1, n, e1, added))])
  {
  }

  /** The loop goes on past the front node: the queue is not empty and its front is not the target. */
  predicate Continues(f: Frame, target: Option<Node>) {
    Sane(f) && !f.engine.isComplete && f.engine.queue != [] && !Sought(target, f.engine.queue[0])
  }

  /** `Expand` as the neighbour loop run after the dequeue. */
  lemma ExpandShape(f: Frame, target: Option<Node>)
    requires Continues(f, target)
    ensures var n := f.engine.queue[0];
      var p := Dequeue(f, target);
      && p.engine.visited == f.engine.visited && p.engine.level == f.engine.level
      && p.engine.parent == f.engine.parent && p.engine.order == f.engine.order
      && p.engine.graph == f.engine.graph && !p.engine.isComplete
      && p.engine.queue == f.engine.queue[1..] && p.engine.visitOrder == f.engine.visitOrder + [n]
      && p.engine.steps == f.engine.steps + [VisitStep(f, target)]
      && p.count == f.count + 1 && p.yielded == f.yielded + [Snapshot(VisitStep(f, target))]
      && Expand(f, target) == Explore(p, n)
  {
  }

  /** The neighbour loop after the dequeue adds exactly the unvisited neighbours, smallest id first. */
  lemma ExpandDiscovers(f: Frame, target: Option<Node>)
    requires Continues(f, target)
    ensures var n, p := f.engine.queue[0], Dequeue(f, target);
      && Sane(p) && n in p.engine.graph.adj && n in p.engine.visited && n in p.engine.level
      && Discover(p.engine, n, Neighbours(p.engine.graph, n)).1 == AddedBy(f)
  {
    var n, p := f.engine.queue[0], Dequeue(f, target);
    ExpandShape(f, target);
    DiscoverAdds(p.engine.graph, p.engine, n);
  }

  lemma ExpandQueue(f: Frame, target: Option<Node>)
    requires Continues(f, target)
    ensures QueueMoved(f, Expand(f, target))
  {
    var n, p := f.engine.queue[0], Dequeue(f, target);
    ExpandShape(f, target);
    ExpandDiscovers(f, target);
    ExploreShape(p, n);
    DiscoverBook(p.engine, n, Neighbours(p.engine.graph, n));
    var d := Discover(p.engine, n, Neighbours(p.engine.graph, n));
    var r := Expand(f, target);
    assert r.engine.queue == d.0.queue && r.engine.order == d.0.order && r.engine.visited == d.0.visited;
    UnionElems(f.engine.visited, d.0.visited, d.1);
  }

  lemma ExpandDicts(f: Frame, target: Option<Node>)
    requires Continues(f, target)
    ensures DictsGrown(f, Expand(f, target))
  {
    var n, p := f.engine.queue[0], Dequeue(f, target);
    ExpandShape(f, target);
    ExpandDiscovers(f, target);
    ExploreShape(p, n);
    DiscoverBook(p.engine, n, Neighbours(p.engine.graph, n));
    DiscoverLinks(p.engine, n, Neighbours(p.engine.graph, n));
  }

  lemma ExpandSteps(f: Frame, target: Option<Node>)
    requires Continues(f, target)
    ensures StepsRecorded(f, Expand(f, target), target)
  {
    var n, p := f.engine.queue[0], Dequeue(f, target);
    ExpandShape(f, target);
    ExpandDiscovers(f, target);
    ExploreShape(p, n);
    DiscoverKeepsSteps(p.engine, n, Neighbours(p.engine.graph, n));
    var d := Discover(p.engine, n, Neighbours(p.engine.graph, n));
    var r := Expand(f, target);
    var st := VisitStep(f, target);
    if d.1 != [] {
      var qu := UpdateStep(f.count + 2, n, d.0, d.1);
      assert r.engine == d.0.(steps := f.engine.steps + [st] + [qu]);
      AppendPair(f.engine.steps, st, qu);
      AppendPair(f.yielded, Snapshot(st), Snapshot(qu));
      assert qu == UpdateStep(f.count + 2, n, r.engine, AddedBy(f));
    } else {
      assert r.engine == d.0;
    }
  }

  lemma ExpandExplored(f: Frame, target: Option<Node>)
    requires Continues(f, target)
    ensures Explored(f, Expand(f, target), target)
  {
    ExpandQueue(f, target);
    ExpandDicts(f, target);
    ExpandSteps(f, target);
  }

  // ---------------------------------------------------------------------------
  // An iteration that goes on keeps each piece of the invariant

  lemma SnapshotsAppend(steps: seq<Step>, more: seq<Step>)
    ensures Snapshots(steps + more) == Snapshots(steps) + Snapshots(more)
  {
  }

  /** What a visit of `n` adds is new: neighbours of `n` not reached before, none twice. */
  lemma AddedFresh(f: Frame)
    requires Sane(f) && f.engine.queue != []
    ensures var n, added := f.engine.queue[0], AddedBy(f);
      && NoDup(added)
      && (forall m | m in added :: m !in f.engine.visited && f.engine.graph.HasEdge(n, m))
      && (added == [] <==> Fresh(f.engine.graph, n, f.engine.visited) == {})
  {
    var g, n := f.engine.graph, f.engine.queue[0];
    SortAscendingAscending(Fresh(g, n, f.engine.visited));
    AscendingNoDup(AddedBy(f));
    if AddedBy(f) == [] {
      assert forall m :: m !in Fresh(g, n, f.engine.visited);
    } else {
      assert AddedBy(f)[0] in Fresh(g, n, f.engine.visited);
    }
  }

  lemma ExploredRecords(f: Frame, r: Frame, target: Option<Node>)
    requires Sane(f) && f.engine.queue != [] && StepsRecorded(f, r, target)
    requires f.yielded == Snapshots(f.engine.steps)
    ensures r.yielded == Snapshots(r.engine.steps)
  {
    var st := VisitStep(f, target);
    if AddedBy(f) == [] {
      SnapshotsAppend(f.engine.steps, [st]);
    } else {
      SnapshotsAppend(f.engine.steps, [st, UpdateStep(f.count + 2, f.engine.queue[0], r.engine, AddedBy(f))]);
    }
  }

  lemma ExploredNumbered(f: Frame, r: Frame, target: Option<Node>)
    requires Sane(f) && f.engine.queue != [] && !f.engine.isComplete && StepsRecorded(f, r, target)
    requires Numbered(f)
    ensures Numbered(r)
  {
  }

  lemma ExploredBookkept(f: Frame, r: Frame)
    requires Sane(f) && f.engine.queue != [] && Bookkept(f.engine)
    requires QueueMoved(f, r) && DictsGrown(f, r)
    ensures Bookkept(r.engine)
  {
    var e, added := f.engine, AddedBy(f);
    AddedFresh(f);
    MoveFront(e.visitOrder, e.queue, added);
    NoDupConcat(e.order, added);
    ElemsConcat(e.order, added);
    UnionElems(e.level.Keys, r.engine.level.Keys, added);
    UnionElems(e.parent.Keys, r.engine.parent.Keys, added);
  }

  lemma ExploredTree(f: Frame, r: Frame, start: Node)
    requires Sane(f) && f.engine.queue != [] && Bookkept(f.engine) && Tree(f.engine, start)
    requires QueueMoved(f, r) && DictsGrown(f, r)
    ensures Tree(r.engine, start)
  {
    var e, n, added := f.engine, f.engine.queue[0], AddedBy(f);
    AddedFresh(f);
    assert r.engine.order[0] == start;
    forall m | m in r.engine.parent
      ensures TreeLink(r.engine, start, m)
    {
      if m in added {
        assert n in e.visited;
      } else {
        assert TreeLink(e, start, m);
        if e.parent[m].Some? {
          assert e.parent[m].value in e.visited;
        }
      }
    }
  }

  /**
   With levels sorted along the insertion order, every inserted node is at
   most one level below the front of the queue, and no queued node is above it.
   */
  lemma FrontBounds(e: Engine)
    requires Bookkept(e) && Sorted(e) && e.queue != []
    ensures forall x | x in e.order :: x in e.level && e.level[x] <= e.level[e.queue[0]] + 1
    ensures forall j | |e.visitOrder| <= j < |e.order| :: LevelLe(e.level, e.queue[0], e.order[j])
  {
    var k := |e.visitOrder|;
    assert e.order[k] == e.queue[0];
    forall x | x in e.order
      ensures x in e.level && e.level[x] <= e.level[e.queue[0]] + 1
    {
      var i :| 0 <= i < |e.order| && e.order[i] == x;
      if i < |e.order| - 1 {
        assert LevelLe(e.level, e.order[i], e.order[|e.order| - 1]);
      }
    }
    forall j | k <= j < |e.order|
      ensures LevelLe(e.level, e.queue[0], e.order[j])
    {
      if k < j {
        assert LevelLe(e.level, e.order[k], e.order[j]);
      } else {
        assert e.queue[0] in e.visited;
      }
    }
  }

  lemma ExploredSorted(f: Frame, r: Frame)
    requires Sane(f) && f.engine.queue != [] && Bookkept(f.engine) && Sorted(f.engine)
    requires QueueMoved(f, r) && DictsGrown(f, r)
    ensures Sorted(r.engine)
  {
    ExploredSortedPairs(f, r);
    FrontNext(f.engine);
    ExploredSortedFront(f, r);
  }

  lemma ExploredSortedPairs(f: Frame, r: Frame)
    requires Sane(f) && f.engine.queue != [] && Bookkept(f.engine) && Sorted(f.engine)
    requires QueueMoved(f, r) && DictsGrown(f, r)
    ensures forall i, j | 0 <= i < j < |r.engine.order| :: LevelLe(r.engine.level, r.engine.order[i], r.engine.order[j])
  {
    var e, n, added := f.engine, f.engine.queue[0], AddedBy(f);
    var o, o', l' := e.order, r.engine.order, r.engine.level;
    AddedFresh(f);
    FrontBounds(e);
    forall i, j | 0 <= i < j < |o'|
      ensures LevelLe(l', o'[i], o'[j])
    {
      if j < |o| {
        assert o'[i] == o[i] && o'[j] == o[j];
        assert LevelLe(e.level, o[i], o[j]);
        assert o[i] !in added && o[j] !in added;
      } else if i < |o| {
        assert o'[i] == o[i] && o[i] in e.order;
        assert o'[j] == added[j - |o|];
        assert o[i] !in added;
      } else {
        assert o'[i] == added[i - |o|] && o'[j] == added[j - |o|];
      }
    }
  }

  /** The last node inserted is at most one level below the front of the queue, and the next in the queue is not above it. */
  lemma FrontNext(e: Engine)
    requires Bookkept(e) && Sorted(e) && e.queue != []
    ensures Last(e.order) in e.level && e.queue[0] in e.level
    ensures e.level[Last(e.order)] <= e.level[e.queue[0]] + 1
    ensures |e.queue| > 1 ==> LevelLe(e.level, e.queue[0], e.queue[1])
  {
    var k := |e.visitOrder|;
    if |e.queue| > 1 {
      assert e.order[k] == e.queue[0] && e.order[k + 1] == e.queue[1];
    }
  }

  lemma ExploredSortedFront(f: Frame, r: Frame)
    requires Sane(f) && f.engine.queue != [] && Bookkept(f.engine) && |f.engine.order| > 0
    requires Last(f.engine.order) in f.engine.level && f.engine.queue[0] in f.engine.level
    requires f.engine.level[Last(f.engine.order)] <= f.engine.level[f.engine.queue[0]] + 1
    requires |f.engine.queue| > 1 ==> LevelLe(f.engine.level, f.engine.queue[0], f.engine.queue[1])
    requires QueueMoved(f, r) && DictsGrown(f, r)
    ensures r.engine.queue != [] && |r.engine.order| > 0 ==>
      && Last(r.engine.order) in r.engine.level && r.engine.queue[0] in r.engine.level
      && r.engine.level[Last(r.engine.order)] <= r.engine.level[r.engine.queue[0]] + 1
  {
    var e, n, added := f.engine, f.engine.queue[0], AddedBy(f);
    var o, o', l' := e.order, r.engine.order, r.engine.level;
    AddedFresh(f);
    if r.engine.queue != [] {
      assert Last(o') in l' && l'[Last(o')] <= e.level[n] + 1 by {
        if added == [] {
          assert Last(o') == Last(o) && Last(o) in e.visited;
        } else {
          assert Last(o') == Last(added);
        }
      }
      assert r.engine.queue[0] in l' && e.level[n] <= l'[r.engine.queue[0]] by {
        if |e.queue| > 1 {
          assert r.engine.queue[0] == e.queue[1] && e.queue[1] in e.visited;
        } else {
          assert r.engine.queue[0] == added[0];
        }
      }
    }
  }

  /** A step that agreed with the object before the iteration still does. */
  lemma ExploredKeepsAgreement(f: Frame, r: Frame, st: Step)
    requires Sane(f) && f.engine.queue != [] && Bookkept(f.engine)
    requires QueueMoved(f, r) && DictsGrown(f, r)
    requires AgreesWith(st, f.engine.(visitOrder := r.engine.visitOrder))
    ensures AgreesWith(st, r.engine)
  {
    AddedFresh(f);
    forall m | m in st.level
      ensures m in r.engine.level && r.engine.level[m] == st.level[m]
    {
      assert m in f.engine.visited;
    }
  }

  /** A step showing the object's own visit order, visited set and levels agrees with it. */
  lemma SelfAgrees(st: Step, e: Engine)
    requires Bookkept(e)
    requires st.visitOrder == e.visitOrder && st.visited == e.visited && st.level == e.level
    ensures AgreesWith(st, e)
  {
    ElemsConcat(e.visitOrder, e.queue);
  }

  /** Agreement survives a longer visit order. */
  lemma AgreesLonger(st: Step, e: Engine, order: seq<Node>)
    requires AgreesWith(st, e) && e.visitOrder <= order
    ensures AgreesWith(st, e.(visitOrder := order))
  {
  }

  /** The visit step of the front node agrees with the object before it is dequeued, but for the longer visit order. */
  lemma VisitAgrees(f: Frame, target: Option<Node>)
    requires Sane(f) && f.engine.queue != [] && Bookkept(f.engine)
    ensures var st, e := VisitStep(f, target), f.engine;
      AgreesWith(st, e.(visitOrder := e.visitOrder + [e.queue[0]]))
  {
    var e, n := f.engine, f.engine.queue[0];
    ElemsConcat(e.visitOrder, e.queue);
    ElemsConcat(e.visitOrder, [n]);
    assert Elems([n]) == {n};
  }

  /** Appending steps that agree with the object keeps every step in agreement. */
  lemma AgreeAppend(old_steps: seq<Step>, a: Step, b: Option<Step>, e: Engine)
    requires b.None? ==> e.steps == old_steps + [a]
    requires b.Some? ==> e.steps == old_steps + [a, b.value] && AgreesWith(b.value, e)
    requires forall i | 0 <= i < |old_steps| :: AgreesWith(old_steps[i], e)
    requires AgreesWith(a, e)
    ensures SnapshotsAgree(e)
  {
    forall i | 0 <= i < |e.steps|
      ensures AgreesWith(e.steps[i], e)
    {
      if i > |old_steps| {
        assert e.steps[i] == b.value;
      } else if i == |old_steps| {
        assert e.steps[i] == a;
      }
    }
  }

  lemma ExploredSnapshots(f: Frame, r: Frame, target: Option<Node>)
    requires Sane(f) && f.engine.queue != [] && Bookkept(f.engine) && Bookkept(r.engine) && SnapshotsAgree(f.engine)
    requires QueueMoved(f, r) && DictsGrown(f, r) && StepsRecorded(f, r, target)
    ensures SnapshotsAgree(r.engine)
  {
    var e, n := f.engine, f.engine.queue[0];
    var st := VisitStep(f, target);
    forall i | 0 <= i < |e.steps|
      ensures AgreesWith(e.steps[i], r.engine)
    {
      AgreesLonger(e.steps[i], e, r.engine.visitOrder);
      ExploredKeepsAgreement(f, r, e.steps[i]);
    }
    VisitAgrees(f, target);
    ExploredKeepsAgreement(f, r, st);
    if AddedBy(f) == [] {
      AgreeAppend(e.steps, st, None, r.engine);
    } else {
      var qu := UpdateStep(f.count + 2, n, r.engine, AddedBy(f));
      SelfAgrees(qu, r.engine);
      AgreeAppend(e.steps, st, Some(qu), r.engine);
    }
  }

  /** The `queue_update` step an iteration records, if any. */
  function UpdateIfAny(f: Frame, r: Frame): Option<Step>
    requires Sane(f) && f.engine.queue != []
  {
    if AddedBy(f) == [] then None else Some(UpdateStep(f.count + 2, f.engine.queue[0], r.engine, AddedBy(f)))
  }

  lemma ExploredAppended(f: Frame, r: Frame, target: Option<Node>)
    requires Sane(f) && f.engine.queue != [] && StepsRecorded(f, r, target)
    ensures var s, t, b := f.engine.steps, r.engine.steps, UpdateIfAny(f, r);
      && |t| == |s| + (if b.None? then 1 else 2)
      && t[..|s|] == s && t[|s|] == VisitStep(f, target) && (b.Some? ==> t[|s| + 1] == b.value)
      && Last(t) == (if b.None? then VisitStep(f, target) else b.value)
  {
    Appended(f.engine.steps, VisitStep(f, target), UpdateIfAny(f, r), r.engine.steps);
  }

  /** One or two steps appended to a run that followed the loop follow it too, given the new indices. */
  lemma UpdatesExtend(g: Graph, s: seq<Step>, t: seq<Step>, two: bool, start: Node, target: Option<Node>)
    requires Updates(g, s, start, target)
    requires |t| == |s| + (if two then 2 else 1) && t[..|s|] == s
    requires VisitAt(g, t, |s|, start, target) && UpdateAt(g, t, |s|)
    requires two ==> VisitAt(g, t, |s| + 1, start, target) && UpdateAt(g, t, |s| + 1) && UpdateAfter(g, t, |s|)
    requires |s| > 0 ==> UpdateAfter(g, t, |s| - 1)
    ensures Updates(g, t, start, target)
  {
    forall i | 0 <= i < |s|
      ensures VisitAt(g, t, i, start, target) && UpdateAt(g, t, i)
    {
      assert t[i] == s[i];
      assert VisitAt(g, s, i, start, target) && UpdateAt(g, s, i);
      if 0 < i {
        assert t[i - 1] == s[i - 1];
      }
    }
    forall i | 0 <= i < |t| - 1
      ensures UpdateAfter(g, t, i)
    {
      if i + 1 < |s| {
        assert t[i] == s[i] && t[i + 1] == s[i + 1];
        assert UpdateAfter(g, s, i);
      }
    }
  }

  /** The loop is mid-run: nothing recorded so far ends it, and the last step shows the current state. */
  predicate MidRun(f: Frame, start: Node, target: Option<Node>) {
    var e, s := f.engine, f.engine.steps;
    && !e.isComplete
    && (|s| == 0 ==> e.queue == [start] && e.visitOrder == [])
    && (|s| > 0 ==>
          && !Terminal(Last(s))
          && Last(s).queue == e.queue && Last(s).visited == e.visited
          && Last(s).level == e.level && Last(s).visitOrder == e.visitOrder)
  }

  lemma MidRunFromInv(f: Frame, start: Node, target: Option<Node>)
    requires StepsFollow(f, start, target) && Shaped(f, target) && !f.engine.isComplete
    ensures MidRun(f, start, target)
  {
  }

  /** The visit step recorded at the front of the queue follows the previous step. */
  lemma VisitFollows(f: Frame, t: seq<Step>, start: Node, target: Option<Node>)
    requires Sane(f) && f.engine.queue != [] && Bookkept(f.engine) && MidRun(f, start, target)
    requires |t| > |f.engine.steps| && t[..|f.engine.steps|] == f.engine.steps
    requires t[|f.engine.steps|] == VisitStep(f, target)
    ensures VisitAt(f.engine.graph, t, |f.engine.steps|, start, target)
    ensures UpdateAt(f.engine.graph, t, |f.engine.steps|)
  {
    var e, k := f.engine, |f.engine.steps|;
    if k > 0 {
      assert t[k - 1] == Last(e.steps);
    } else {
      assert e.queue[1..] == [];
    }
  }

  /** The `queue_update` step follows the visit that added to the queue. */
  lemma UpdateFollows(f: Frame, r: Frame, start: Node, target: Option<Node>)
    requires Sane(f) && f.engine.queue != [] && !Sought(target, f.engine.queue[0])
    requires QueueMoved(f, r) && StepsRecorded(f, r, target) && AddedBy(f) != []
    ensures var t, k := r.engine.steps, |f.engine.steps|;
      k + 1 < |t| && UpdateAt(f.engine.graph, t, k + 1) && VisitAt(f.engine.graph, t, k + 1, start, target)
      && UpdateAfter(f.engine.graph, t, k)
  {
    AddedFresh(f);
    ExploredAppended(f, r, target);
  }

  /** The visit before this iteration, if last, enqueued nothing: no `queue_update` follows it. */
  lemma QuietFollows(f: Frame, t: seq<Step>, target: Option<Node>)
    requires Sane(f) && f.engine.queue != []
    requires AwaitsUpdate(f.engine.graph, f.engine.steps) ==>
               Fresh(f.engine.graph, Last(f.engine.steps).current.value, Last(f.engine.steps).visited) == {}
    requires |t| > |f.engine.steps| > 0 && t[..|f.engine.steps|] == f.engine.steps
    requires t[|f.engine.steps|] == VisitStep(f, target)
    ensures UpdateAfter(f.engine.graph, t, |f.engine.steps| - 1)
  {
    assert t[|f.engine.steps| - 1] == Last(f.engine.steps);
  }

  lemma ExploredUpdates(f: Frame, r: Frame, start: Node, target: Option<Node>)
    requires Sane(f) && f.engine.queue != [] && !Sought(target, f.engine.queue[0]) && Bookkept(f.engine)
    requires StepsFollow(f, start, target) && MidRun(f, start, target)
    requires QueueMoved(f, r) && StepsRecorded(f, r, target)
    ensures Updates(f.engine.graph, r.engine.steps, start, target)
  {
    var e, g, s, t := f.engine, f.engine.graph, f.engine.steps, r.engine.steps;
    ExploredAppended(f, r, target);
    VisitFollows(f, t, start, target);
    if |s| > 0 {
      QuietFollows(f, t, target);
    }
    if AddedBy(f) != [] {
      UpdateFollows(f, r, start, target);
    }
    UpdatesExtend(g, s, t, AddedBy(f) != [], start, target);
  }

  lemma ExploredStepsFollow(f: Frame, r: Frame, start: Node, target: Option<Node>)
    requires Sane(f) && f.engine.queue != [] && !Sought(target, f.engine.queue[0]) && Bookkept(f.engine)
    requires StepsFollow(f, start, target) && MidRun(f, start, target)
    requires QueueMoved(f, r) && StepsRecorded(f, r, target)
    requires AddedBy(f) == [] ==> r.engine.level == f.engine.level
    ensures StepsFollow(r, start, target)
  {
    ExploredUpdates(f, r, start, target);
    ExploredAppended(f, r, target);
    AddedFresh(f);
    if AddedBy(f) == [] {
      assert Elems(AddedBy(f)) == {};
    }
  }

  /** An iteration that enqueues nothing leaves the levels as they were. */
  lemma QuietKeepsLevels(f: Frame, r: Frame)
    requires Sane(f) && f.engine.queue != [] && DictsGrown(f, r) && AddedBy(f) == []
    ensures r.engine.level == f.engine.level
  {
    SameMap(r.engine.level, f.engine.level);
  }

  lemma ExploredShaped(f: Frame, r: Frame, target: Option<Node>)
    requires Sane(f) && f.engine.queue != [] && !Sought(target, f.engine.queue[0]) && !f.engine.isComplete
    requires Shaped(f, target) && QueueMoved(f, r) && StepsRecorded(f, r, target)
    ensures Shaped(r, target)
  {
    ExploredAppended(f, r, target);
    NoTerminalAppend(f.engine.steps, r.engine.steps, VisitStep(f, target), UpdateIfAny(f, r));
  }

  /** Appending one or two steps that are not terminal to steps that are not terminal. */
  lemma NoTerminalAppend(s: seq<Step>, t: seq<Step>, a: Step, b: Option<Step>)
    requires |t| == |s| + (if b.None? then 1 else 2) && t[..|s|] == s
    requires t[|s|] == a && (b.Some? ==> t[|s| + 1] == b.value)
    requires forall i | 0 <= i < |s| :: !Terminal(s[i])
    requires !Terminal(a) && (b.Some? ==> !Terminal(b.value))
    ensures forall i | 0 <= i < |t| :: !Terminal(t[i])
  {
    forall i | 0 <= i < |t|
      ensures !Terminal(t[i])
    {
      if i < |s| {
        assert t[i] == s[i];
      }
    }
  }

  lemma ExploredReachable(f: Frame, r: Frame, start: Node)
    requires Sane(f) && f.engine.queue != [] && Explores(f, start)
    requires QueueMoved(f, r)
    ensures forall v | v in r.engine.visited :: Reachable(r.engine.graph, start, v)
  {
    var e, g, n := f.engine, f.engine.graph, f.engine.queue[0];
    AddedFresh(f);
    forall v | v in r.engine.visited
      ensures Reachable(g, start, v)
    {
      if v !in e.visited {
        ReachableExtend(g, start, n, v);
      }
    }
  }

  lemma ExploredClosed(f: Frame, r: Frame, start: Node)
    requires Sane(f) && f.engine.queue != [] && Bookkept(f.engine) && Sorted(f.engine) && !f.engine.isComplete
    requires Explores(f, start) && QueueMoved(f, r) && DictsGrown(f, r)
    ensures forall i | 0 <= i < |r.engine.visitOrder| :: Closed(r.engine, r.engine.visitOrder[i])
  {
    var e, g, n, added := f.engine, f.engine.graph, f.engine.queue[0], AddedBy(f);
    var vo, l' := r.engine.visitOrder, r.engine.level;
    AddedFresh(f);
    StillClosed(e, r.engine, added);
    NeighbourClosed(f, r);
    ClosedAppend(e, r.engine, n);
  }

  /** The visit order grows by a closed node while every closed node stays closed. */
  lemma ClosedAppend(e: Engine, r: Engine, n: Node)
    requires r.visitOrder == e.visitOrder + [n] && Closed(r, n)
    requires forall i | 0 <= i < |e.visitOrder| :: Closed(e, e.visitOrder[i])
    requires forall u | Closed(e, u) :: Closed(r, u)
    ensures forall i | 0 <= i < |r.visitOrder| :: Closed(r, r.visitOrder[i])
  {
    forall i | 0 <= i < |r.visitOrder|
      ensures Closed(r, r.visitOrder[i])
    {
      if i < |e.visitOrder| {
        assert r.visitOrder[i] == e.visitOrder[i];
      }
    }
  }

  /** Adding fresh nodes to the dicts keeps every closed node closed. */
  lemma StillClosed(e: Engine, r: Engine, added: seq<Node>)
    requires r.graph == e.graph && e.visited <= r.visited && e.level.Keys == e.visited
    requires forall m | m in added :: m !in e.visited
    requires forall m :: m in r.level <==> m in e.level || m in added
    requires forall m | m in e.level && m !in added :: r.level[m] == e.level[m]
    ensures forall u | Closed(e, u) :: Closed(r, u)
  {
  }

  /** The node just visited is closed: each neighbour was reached before, or is reached now one level below. */
  lemma NeighbourClosed(f: Frame, r: Frame)
    requires Sane(f) && f.engine.queue != [] && Bookkept(f.engine) && Sorted(f.engine)
    requires QueueMoved(f, r) && DictsGrown(f, r)
    ensures Closed(r.engine, f.engine.queue[0])
  {
    var e, g, n, added := f.engine, f.engine.graph, f.engine.queue[0], AddedBy(f);
    var l' := r.engine.level;
    AddedFresh(f);
    FrontBounds(e);
    forall v | g.HasEdge(n, v)
      ensures v in r.engine.visited && v in l' && l'[v] <= l'[n] + 1
    {
      if v in e.visited {
        assert v in e.order;
      } else {
        assert v in Fresh(g, n, e.visited);
      }
    }
  }

  lemma ExploredExplores(f: Frame, r: Frame, start: Node)
    requires Sane(f) && f.engine.queue != [] && Bookkept(f.engine) && Sorted(f.engine) && !f.engine.isComplete
    requires Explores(f, start) && QueueMoved(f, r) && DictsGrown(f, r)
    ensures Explores(r, start)
  {
    ExploredReachable(f, r, start);
    ExploredClosed(f, r, start);
  }

  // ---------------------------------------------------------------------------
  // An iteration that dequeues the target, and the loop exit

  /** The iteration that dequeues the target: it is visited, and the run ends. */
  ghost predicate Stopped(f: Frame, r: Frame, target: Option<Node>)
    requires f.engine.queue != []
  {
    var e, st := f.engine, VisitStep(f, target);
    && r.engine == e.(queue := e.queue[1..], visitOrder := e.visitOrder + [e.queue[0]],
                      steps := e.steps + [st], isComplete := true)
    && r.count == f.count + 1 && r.yielded == f.yielded + [Snapshot(st)]
  }

  lemma ExpandStopped(f: Frame, target: Option<Node>)
    requires Sane(f) && !f.engine.isComplete && f.engine.queue != [] && Sought(target, f.engine.queue[0])
    ensures Stopped(f, Expand(f, target), target)
  {
  }

  /** The loop exit: the `complete` step is recorded and yielded, and the run ends. */
  ghost predicate Finished(f: Frame, r: Frame, target: Option<Node>) {
    var e, st := f.engine, CompleteStep(f, target);
    && r.engine == e.(steps := e.steps + [st], isComplete := true)
    && r.count == f.count && r.yielded == f.yielded + [Snapshot(st)]
  }

  lemma FinishFinished(f: Frame, target: Option<Node>)
    requires f.engine.queue == []
    ensures Finished(f, Finish(f, target), target)
  {
  }

  /** Agreement depends only on the visit order, the visited set and the levels. */
  lemma AgreesSameState(st: Step, e: Engine, e': Engine)
    requires AgreesWith(st, e)
    requires e'.visitOrder == e.visitOrder && e'.visited == e.visited && e'.level == e.level
    ensures AgreesWith(st, e')
  {
  }

  lemma StoppedBookkept(f: Frame, r: Frame, target: Option<Node>)
    requires f.engine.queue != [] && Bookkept(f.engine) && Stopped(f, r, target)
    ensures Bookkept(r.engine)
  {
    MoveFront(f.engine.visitOrder, f.engine.queue, []);
    assert f.engine.queue[1..] + [] == f.engine.queue[1..];
  }

  lemma StoppedSorted(f: Frame, r: Frame, target: Option<Node>)
    requires f.engine.queue != [] && Bookkept(f.engine) && Sorted(f.engine) && Stopped(f, r, target)
    ensures Sorted(r.engine)
  {
    FrontNext(f.engine);
  }

  lemma StoppedTree(f: Frame, r: Frame, start: Node, target: Option<Node>)
    requires f.engine.queue != [] && Tree(f.engine, start) && Stopped(f, r, target)
    ensures Tree(r.engine, start)
  {
    forall m | m in r.engine.parent
      ensures TreeLink(r.engine, start, m)
    {
      assert TreeLink(f.engine, start, m);
    }
  }

  lemma StoppedSnapshots(f: Frame, r: Frame, target: Option<Node>)
    requires Sane(f) && f.engine.queue != [] && Bookkept(f.engine) && SnapshotsAgree(f.engine)
    requires Stopped(f, r, target)
    ensures SnapshotsAgree(r.engine)
  {
    var e := f.engine;
    var e' := e.(visitOrder := r.engine.visitOrder);
    forall i | 0 <= i < |e.steps|
      ensures AgreesWith(e.steps[i], r.engine)
    {
      AgreesLonger(e.steps[i], e, r.engine.visitOrder);
      AgreesSameState(e.steps[i], e', r.engine);
    }
    VisitAgrees(f, target);
    AgreesSameState(VisitStep(f, target), e', r.engine);
    AgreeAppend(e.steps, VisitStep(f, target), None, r.engine);
  }

  lemma StoppedStepsFollow(f: Frame, r: Frame, start: Node, target: Option<Node>)
    requires Sane(f) && f.engine.queue != [] && Sought(target, f.engine.queue[0]) && Bookkept(f.engine)
    requires StepsFollow(f, start, target) && MidRun(f, start, target) && Stopped(f, r, target)
    ensures StepsFollow(r, start, target)
  {
    var e, g, s, t := f.engine, f.engine.graph, f.engine.steps, r.engine.steps;
    Appended(s, VisitStep(f, target), None, t);
    VisitFollows(f, t, start, target);
    if |s| > 0 {
      QuietFollows(f, t, target);
    }
    UpdatesExtend(g, s, t, false, start, target);
  }

  lemma StoppedShaped(f: Frame, r: Frame, target: Option<Node>)
    requires f.engine.queue != [] && Sought(target, f.engine.queue[0]) && !f.engine.isComplete
    requires Shaped(f, target) && Stopped(f, r, target)
    ensures Shaped(r, target)
  {
    var s, t := f.engine.steps, r.engine.steps;
    Appended(s, VisitStep(f, target), None, t);
    forall i | 0 <= i < |t|
      ensures t[i].action != Complete
    {
      if i < |s| {
        assert t[i] == s[i];
      }
    }
  }

  lemma StoppedStopBound(f: Frame, r: Frame, target: Option<Node>)
    requires f.engine.queue != [] && Bookkept(f.engine) && Sorted(f.engine) && Stopped(f, r, target)
    ensures StopBound(r.engine)
  {
    FrontNext(f.engine);
  }

  lemma StoppedExplores(f: Frame, r: Frame, start: Node, target: Option<Node>)
    requires f.engine.queue != [] && !f.engine.isComplete && Explores(f, start) && Stopped(f, r, target)
    ensures Explores(r, start)
  {
    var e := f.engine;
    assert Done(r.engine) == |e.visitOrder|;
    forall i | 0 <= i < Done(r.engine)
      ensures Closed(r.engine, r.engine.visitOrder[i])
    {
      assert r.engine.visitOrder[i] == e.visitOrder[i];
      assert Closed(e, e.visitOrder[i]);
    }
  }

  lemma FinishedSnapshots(f: Frame, r: Frame, target: Option<Node>)
    requires Bookkept(f.engine) && SnapshotsAgree(f.engine) && Finished(f, r, target)
    ensures SnapshotsAgree(r.engine)
  {
    var e := f.engine;
    forall i | 0 <= i < |e.steps|
      ensures AgreesWith(e.steps[i], r.engine)
    {
      AgreesSameState(e.steps[i], e, r.engine);
    }
    SelfAgrees(CompleteStep(f, target), r.engine);
    AgreeAppend(e.steps, CompleteStep(f, target), None, r.engine);
  }

  lemma FinishedStepsFollow(f: Frame, r: Frame, start: Node, target: Option<Node>)
    requires f.engine.queue == [] && StepsFollow(f, start, target) && Finished(f, r, target)
    ensures StepsFollow(r, start, target)
  {
    var e, g, s, t := f.engine, f.engine.graph, f.engine.steps, r.engine.steps;
    Appended(s, CompleteStep(f, target), None, t);
    if |s| > 0 {
      assert t[|s| - 1] == Last(s);
    }
    UpdatesExtend(g, s, t, false, start, target);
  }

  lemma FinishedShaped(f: Frame, r: Frame, target: Option<Node>)
    requires f.engine.queue == [] && !f.engine.isComplete && Bookkept(f.engine)
    requires Shaped(f, target) && Finished(f, r, target)
    ensures Shaped(r, target)
  {
    var e, s, t := f.engine, f.engine.steps, r.engine.steps;
    Appended(s, CompleteStep(f, target), None, t);
    assert e.order == e.visitOrder;
    forall i | 0 <= i < |t| - 1
      ensures !Terminal(t[i]) && t[i].action != Complete
    {
      assert t[i] == s[i];
    }
  }

  lemma FinishedExplores(f: Frame, r: Frame, start: Node, target: Option<Node>)
    requires !f.engine.isComplete && Explores(f, start) && Finished(f, r, target)
    ensures Explores(r, start)
  {
    var e := f.engine;
    assert Done(r.engine) == Done(e);
    forall i | 0 <= i < Done(r.engine)
      ensures Closed(r.engine, r.engine.visitOrder[i])
    {
      assert Closed(e, e.visitOrder[i]);
    }
  }

  lemma StoppedCounts(f: Frame, r: Frame, target: Option<Node>)
    requires f.engine.queue != [] && Stopped(f, r, target)
    requires f.yielded == Snapshots(f.engine.steps) && Numbered(f) && !f.engine.isComplete
    ensures r.yielded == Snapshots(r.engine.steps) && Numbered(r)
  {
    SnapshotsAppend(f.engine.steps, [VisitStep(f, target)]);
  }

  lemma FinishedCounts(f: Frame, r: Frame, target: Option<Node>)
    requires Finished(f, r, target) && !f.engine.isComplete
    requires f.yielded == Snapshots(f.engine.steps) && Numbered(f)
    ensures r.yielded == Snapshots(r.engine.steps) && Numbered(r)
  {
    SnapshotsAppend(f.engine.steps, [CompleteStep(f, target)]);
  }

  lemma FinishedBook(f: Frame, r: Frame, start: Node, target: Option<Node>)
    requires Finished(f, r, target)
    requires Bookkept(f.engine) && Sorted(f.engine) && Tree(f.engine, start)
    ensures Bookkept(r.engine) && Sorted(r.engine) && Tree(r.engine, start)
  {
    forall m | m in r.engine.parent
      ensures TreeLink(r.engine, start, m)
    {
      assert TreeLink(f.engine, start, m);
    }
  }

  // ---------------------------------------------------------------------------
  // The invariant holds from the start to the end of the loop

  lemma ExploredInv(f: Frame, start: Node, target: Option<Node>)
    requires Inv(f, start, target) && Continues(f, target)
    ensures Inv(Expand(f, target), start, target)
  {
    var r := Expand(f, target);
    ExpandExplored(f, target);
    MidRunFromInv(f, start, target);
    ExploredRecords(f, r, target);
    ExploredBookkept(f, r);
    ExploredSorted(f, r);
    ExploredTree(f, r, start);
    ExploredSnapshots(f, r, target);
    ExploredNumbered(f, r, target);
    if AddedBy(f) == [] {
      QuietKeepsLevels(f, r);
    }
    ExploredStepsFollow(f, r, start, target);
    ExploredShaped(f, r, target);
    ExploredExplores(f, r, start);
  }

  lemma StoppedInv(f: Frame, start: Node, target: Option<Node>)
    requires Inv(f, start, target) && !f.engine.isComplete && f.engine.queue != [] && Sought(target, f.engine.queue[0])
    ensures Inv(Expand(f, target), start, target)
  {
    var r := Expand(f, target);
    ExpandStopped(f, target);
    MidRunFromInv(f, start, target);
    StoppedCounts(f, r, target);
    StoppedBookkept(f, r, target);
    StoppedSorted(f, r, target);
    StoppedTree(f, r, start, target);
    StoppedSnapshots(f, r, target);
    StoppedStepsFollow(f, r, start, target);
    StoppedShaped(f, r, target);
    StoppedExplores(f, r, start, target);
    StoppedStopBound(f, r, target);
  }

  lemma FinishedInv(f: Frame, start: Node, target: Option<Node>)
    requires Inv(f, start, target) && !f.engine.isComplete && f.engine.queue == []
    ensures Inv(Finish(f, target), start, target)
  {
    var r := Finish(f, target);
    FinishFinished(f, target);
    FinishedCounts(f, r, target);
    FinishedBook(f, r, start, target);
    FinishedSnapshots(f, r, target);
    FinishedStepsFollow(f, r, start, target);
    FinishedShaped(f, r, target);
    FinishedExplores(f, r, start, target);
  }

  lemma AdvanceInv(f: Frame, start: Node, target: Option<Node>)
    requires Inv(f, start, target) && !f.engine.isComplete
    ensures Inv(Advance(f, target), start, target)
  {
    if f.engine.queue == [] {
      FinishedInv(f, start, target);
    } else if Sought(target, f.engine.queue[0]) {
      StoppedInv(f, start, target);
    } else {
      ExploredInv(f, start, target);
    }
  }

  /** The generator state before the first iteration: the start node queued at level 0. */
  function Begin(e: Engine, start: Node): Frame {
    Frame(Seeded(e, start), 0, [])
  }

  lemma BeginInv(e: Engine, start: Node, target: Option<Node>)
    requires e.graph.Valid() && e.graph.HasNode(start)
    ensures Inv(Begin(e, start), start, target)
  {
    var f := Begin(e, start);
    SeedBooks(f, start);
    SeedTree(f, start);
    SeedSteps(f, start, target);
  }

  /** The state `search` enters the loop with: the start node queued, reached and inserted, nothing recorded. */
  predicate Seed(f: Frame, start: Node) {
    var e := f.engine;
    && e.graph.Valid() && e.graph.HasNode(start)
    && e.queue == [start] && e.visited == {start} && e.order == [start]
    && e.parent == map[start := None] && e.level == map[start := 0]
    && e.visitOrder == [] && e.steps == [] && !e.isComplete
    && f.count == 0 && f.yielded == []
  }

  lemma SeedBooks(f: Frame, start: Node)
    requires Seed(f, start)
    ensures Sane(f) && Bookkept(f.engine) && Sorted(f.engine)
  {
    assert Elems([start]) == {start};
  }

  lemma SeedTree(f: Frame, start: Node)
    requires Seed(f, start)
    ensures Tree(f.engine, start) && Explores(f, start) && StopBound(f.engine)
  {
    ReachableStart(f.engine.graph, start);
    assert TreeLink(f.engine, start, start);
  }

  lemma SeedSteps(f: Frame, start: Node, target: Option<Node>)
    requires Seed(f, start)
    ensures f.yielded == Snapshots(f.engine.steps) && SnapshotsAgree(f.engine) && Numbered(f)
    ensures StepsFollow(f, start, target) && Shaped(f, target)
  {
  }

  lemma DriveUnfold(f: Frame, target: Option<Node>)
    requires Sane(f) && !f.engine.isComplete
    ensures Drive(f, target) == Drive(Advance(f, target), target)
  {
  }

  /** The invariant as one fact, so that carrying it across a step costs one check. */
  ghost predicate Holds(f: Frame, start: Node, target: Option<Node>) {
    Inv(f, start, target)
  }

  lemma AdvanceHolds(f: Frame, start: Node, target: Option<Node>)
    requires Holds(f, start, target) && !f.engine.isComplete
    ensures Holds(Advance(f, target), start, target) && Sane(f)
  {
    AdvanceInv(f, start, target);
  }

  lemma {:induction false} DriveInv(f: Frame, start: Node, target: Option<Node>)
    requires Holds(f, start, target)
    ensures Holds(Drive(f, target), start, target)
    decreases !f.engine.isComplete, |f.engine.graph.Nodes() - f.engine.visited|, |f.engine.queue|
  {
    if !f.engine.isComplete {
      AdvanceHolds(f, start, target);
      DriveInv(Advance(f, target), start, target);
      DriveUnfold(f, target);
    }
  }
}
