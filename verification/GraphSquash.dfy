/** Squashing the manager's own graph of contexts in topological order. */
module GraphSquash {
  import opened Options
  import opened ContextGraph
  import opened Squash
  import opened DagSquash
  import opened ManagerSpec

  /** The contexts squash visits, in its order. */
  ghost function Visited(contexts: ContextMap, ids: seq<Id>): seq<Id> {
    SquashTrail(contexts, ids).visited
  }

  function AllWrites(contexts: ContextMap): map<Id, Writes> {
    map id | id in contexts :: contexts[id].Written()
  }

  lemma VisitedOnce(contexts: ContextMap, ids: seq<Id>)
    requires Distinct(ids)
    ensures Distinct(Visited(contexts, ids))
  {
    WalkVisitsOnce(GraphOf(contexts), ids, SetOf(ids));
  }

  /**
   * For the graph of any set of contexts: whatever they write, squash agrees with
   * replay in a topological order if and only if the manager's walk visits every
   * context before its ancestors.
   */
  lemma ManagerSquashExactly(contexts: ContextMap, ids: seq<Id>, topo: seq<Id>)
    requires Distinct(ids) && Topological(GraphOf(contexts), topo) && SetOf(topo) == SetOf(Visited(contexts, ids))
    ensures AgreesOnAllWrites(GraphOf(contexts), Visited(contexts, ids), topo) <==>
            BeforeAncestors(GraphOf(contexts), Visited(contexts, ids))
  {
    VisitedOnce(contexts, ids);
    SquashAgreesExactly(GraphOf(contexts), Visited(contexts, ids), topo);
  }

  /** Where it does, and contexts that share an address are related, squash is topological replay. */
  lemma ManagerSquashIsTopological(contexts: ContextMap, t: Tree, ids: seq<Id>, topo: seq<Id>)
    requires Distinct(ids) && Topological(GraphOf(contexts), topo) && SetOf(topo) == SetOf(Visited(contexts, ids))
    requires BeforeAncestors(GraphOf(contexts), Visited(contexts, ids))
    requires SharedWritesRelated(GraphOf(contexts), Visited(contexts, ids), AllWrites(contexts))
    ensures forall id <- topo :: id in contexts
    ensures SquashedOnto(t, contexts, ids) == Replay(t, WrittenBy(contexts, topo))
  {
    var order, writes := Visited(contexts, ids), AllWrites(contexts);
    forall id | id in topo
      ensures id in contexts
    {
      assert id in SetOf(topo) && id in order;
    }
    VisitedOnce(contexts, ids);
    SquashIsTopologicalReplay(GraphOf(contexts), writes, t, order, topo);
    assert WritesOf(order, writes) == WrittenBy(contexts, order);
    assert WritesOf(topo, writes) == WrittenBy(contexts, topo);
  }

  // Graphs in even levels

  /** The start is level zero, and every base is one level below what is based on it. */
  ghost predicate Even(g: Graph, ids: seq<Id>, level: Id -> nat) {
    && (forall id <- ids :: level(id) == 0)
    && (forall id, base :: id in g && base in g[id] ==> level(base) == level(id) + 1)
  }

  lemma {:induction false} PathDeepens(g: Graph, ids: seq<Id>, level: Id -> nat, path: seq<Id>)
    requires Even(g, ids, level) && IsPath(g, path)
    ensures level(path[|path| - 1]) == level(path[0]) + |path| - 1
    decreases |path|
  {
    if |path| > 1 {
      var front := path[..|path| - 1];
      PathDeepens(g, ids, level, front);
      assert path[|path| - 2] in g && path[|path| - 1] in g[path[|path| - 2]];
    }
  }

  ghost predicate Rising(order: seq<Id>, level: Id -> nat) {
    forall i, j :: 0 <= i < j < |order| ==> level(order[i]) <= level(order[j])
  }

  /** A queue in level order, at most one level deep. */
  ghost predicate Shallow(queue: seq<Id>, level: Id -> nat) {
    Rising(queue, level) && forall id <- queue :: level(queue[0]) <= level(id) <= level(queue[0]) + 1
  }

  lemma StaysShallow(queue: seq<Id>, unseen: seq<Id>, level: Id -> nat)
    requires queue != [] && Shallow(queue, level) && forall id <- unseen :: level(id) == level(queue[0]) + 1
    ensures Shallow(queue[1..] + unseen, level)
    ensures forall id <- queue[1..] + unseen :: level(queue[0]) <= level(id)
  {
    var rest := queue[1..] + unseen;
    forall i | 0 <= i < |rest|
      ensures level(queue[0]) <= level(rest[i]) <= level(queue[0]) + 1
      ensures i >= |queue| - 1 ==> level(rest[i]) == level(queue[0]) + 1
    {
      if i < |queue| - 1 {
        assert rest[i] == queue[i + 1] && rest[i] in queue;
      } else {
        assert rest[i] in unseen;
      }
    }
    forall i, j | 0 <= i < j < |rest|
      ensures level(rest[i]) <= level(rest[j])
    {
      if j < |queue| - 1 {
        assert level(queue[i + 1]) <= level(queue[j + 1]);
      }
    }
  }

  lemma NewBasesAreBelow(g: Graph, ids: seq<Id>, id: Id, seen: set<Id>, level: Id -> nat)
    requires Even(g, ids, level) && id in g
    ensures forall base <- NewBases(g[id], seen) :: level(base) == level(id) + 1
  {
    forall base | base in NewBases(g[id], seen)
      ensures level(base) == level(id) + 1
    {
      assert base in SetOf(NewBases(g[id], seen));
    }
  }

  /** The visited contexts rise, from the level of the queue's head. */
  ghost predicate RisesFrom(queue: seq<Id>, visited: seq<Id>, level: Id -> nat) {
    && Rising(visited, level) && (queue == [] ==> visited == [])
    && (queue != [] ==> forall id <- visited :: level(queue[0]) <= level(id))
  }

  lemma PrependRises(queue: seq<Id>, rest: seq<Id>, visited: seq<Id>, level: Id -> nat)
    requires queue != [] && RisesFrom(rest, visited, level) && forall i <- rest :: level(queue[0]) <= level(i)
    ensures RisesFrom(queue, [queue[0]] + visited, level)
  {
    assert rest != [] ==> rest[0] in rest;
  }

  lemma {:induction false} WalkRises(g: Graph, ids: seq<Id>, queue: seq<Id>, seen: set<Id>, level: Id -> nat)
    requires Even(g, ids, level) && Shallow(queue, level)
    ensures RisesFrom(queue, Walk(g, queue, seen).visited, level)
    decreases |Mentioned(g) - seen| + |queue|
  {
    if queue != [] && queue[0] in g {
      WalkShrinks(g, queue[0], seen);
      var unseen := NewBases(g[queue[0]], seen);
      var rest := queue[1..] + unseen;
      NewBasesAreBelow(g, ids, queue[0], seen, level);
      StaysShallow(queue, unseen, level);
      WalkRises(g, ids, rest, seen + SetOf(unseen), level);
      PrependRises(queue, rest, Walk(g, rest, seen + SetOf(unseen)).visited, level);
    }
  }

  /** On a graph in even levels the walk visits every context before its ancestors. */
  lemma EvenVisitsBeforeAncestors(contexts: ContextMap, ids: seq<Id>, level: Id -> nat)
    requires Even(GraphOf(contexts), ids, level)
    ensures BeforeAncestors(GraphOf(contexts), Visited(contexts, ids))
  {
    var g, order := GraphOf(contexts), Visited(contexts, ids);
    WalkRises(g, ids, ids, SetOf(ids), level);
    forall i, j | 0 <= i < j < |order|
      ensures !Ancestor(g, order[j], order[i])
    {
      if path :| |path| > 1 && PathTo(g, path, [order[j]], order[i]) {
        PathDeepens(g, ids, level, path);
      }
    }
  }
}
