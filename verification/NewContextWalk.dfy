/** The walk of a new context, from the walks of its bases. */
module NewContextWalk {
  import opened Options
  import opened ContextGraph
  import opened Squash
  import opened DagSquash
  import opened Contexts
  import opened ManagerSpec
  import opened ManagerRuns
  import opened GraphReads
  import opened GraphCoherence

  // Walks from repeated ids

  lemma {:induction false} NewBasesAppend(first: seq<Id>, rest: seq<Id>, seen: set<Id>)
    requires Distinct(rest) && forall b <- rest :: b !in first && b !in seen
    ensures NewBases(first + rest, seen) == NewBases(first, seen) + rest
    decreases |first|
  {
    if first == [] {
      assert first + rest == rest;
      AllAreNew(rest, seen);
    } else {
      assert (first + rest)[1..] == first[1..] + rest;
      NewBasesAppend(first[1..], rest, if first[0] in seen then seen else seen + {first[0]});
    }
  }

  lemma NewAreUnseen(bases: seq<Id>, seen: set<Id>)
    ensures forall b <- NewBases(bases, seen) :: b in bases && b !in seen
  {
    forall b | b in NewBases(bases, seen)
      ensures b in bases && b !in seen
    {
      assert b in SetOf(NewBases(bases, seen));
    }
  }

  /** Visiting an id whose bases were all seen queues nothing. */
  lemma WalkSkips(g: Graph, queue: seq<Id>, seen: set<Id>)
    requires queue != [] && queue[0] in g && SetOf(g[queue[0]]) <= seen
    ensures Walk(g, queue, seen) == Walk(g, queue[1..], seen).After([queue[0]])
  {
    assert forall b <- g[queue[0]] :: b in SetOf(g[queue[0]]);
    NoneAreNew(g[queue[0]], seen);
    assert seen + {} == seen && queue[1..] + [] == queue[1..];
    WalkShrinks(g, queue[0], seen);
  }

  /** Visiting an id again adds nothing: the walk from repeated ids visits the same contexts first. */
  lemma {:induction false} WalkRepeats(g: Graph, queue: seq<Id>, seen: set<Id>, done: set<Id>)
    requires SetOf(queue) <= seen && done <= seen && ClosedInto(g, done, seen)
    ensures Walk(g, NewBases(queue, done), seen).complete == Walk(g, queue, seen).complete
    ensures Walk(g, NewBases(queue, done), seen).visited == NewBases(Walk(g, queue, seen).visited, done)
    decreases |Mentioned(g) - seen| + |queue|
  {
    if queue != [] {
      SetOfCons(queue);
      if queue[0] in done {
        WalkSkips(g, queue, seen);
        WalkRepeats(g, queue[1..], seen, done);
        var visited := Walk(g, queue[1..], seen).visited;
        assert ([queue[0]] + visited)[1..] == visited;
      } else if queue[0] in g {
        WalkRepeatsOn(g, queue, seen, done);
      }
    }
  }

  lemma {:induction false} WalkRepeatsOn(g: Graph, queue: seq<Id>, seen: set<Id>, done: set<Id>)
    requires queue != [] && queue[0] in g && queue[0] !in done
    requires SetOf(queue) <= seen && done <= seen && ClosedInto(g, done, seen)
    ensures Walk(g, NewBases(queue, done), seen).complete == Walk(g, queue, seen).complete
    ensures Walk(g, NewBases(queue, done), seen).visited == NewBases(Walk(g, queue, seen).visited, done)
    decreases |Mentioned(g) - seen| + |queue|, 0
  {
    var x, rest, unseen := queue[0], queue[1..], NewBases(g[queue[0]], seen);
    var seen', done' := seen + SetOf(unseen), done + {queue[0]};
    SetOfCons(queue);
    SetOfAppend(rest, unseen);
    WalkShrinks(g, x, seen);
    assert ClosedInto(g, done', seen');
    WalkRepeats(g, rest + unseen, seen', done');
    UnseenGoLast(g, x, rest, seen, done');
    WalkRepeatsHead(g, queue, seen, done, unseen, seen');
  }

  lemma UnseenGoLast(g: Graph, x: Id, rest: seq<Id>, seen: set<Id>, done: set<Id>)
    requires x in g && SetOf(rest) <= seen && done <= seen
    ensures var unseen := NewBases(g[x], seen);
      NewBases(rest + unseen, done) == NewBases(rest, done) + unseen
  {
    NewAreUnseen(g[x], seen);
    assert forall b <- rest :: b in SetOf(rest);
    NewBasesAppend(rest, NewBases(g[x], seen), done);
  }

  lemma WalkRepeatsHead(g: Graph, queue: seq<Id>, seen: set<Id>, done: set<Id>, unseen: seq<Id>, seen': set<Id>)
    requires queue != [] && queue[0] in g && queue[0] !in done
    requires unseen == NewBases(g[queue[0]], seen) && seen' == seen + SetOf(unseen)
    ensures var x, rest, news := queue[0], queue[1..] + unseen, NewBases(queue[1..], done + {queue[0]});
      && Walk(g, NewBases(queue, done), seen) == Walk(g, news + unseen, seen').After([x])
      && NewBases(Walk(g, queue, seen).visited, done) == [x] + NewBases(Walk(g, rest, seen').visited, done + {x})
      && Walk(g, queue, seen).complete == Walk(g, rest, seen').complete
  {
    var x, news := queue[0], NewBases(queue[1..], done + {queue[0]});
    assert NewBases(queue, done) == [x] + news && ([x] + news)[1..] == news;
    var visited := Walk(g, queue[1..] + unseen, seen').visited;
    assert Walk(g, queue, seen).visited == [x] + visited && ([x] + visited)[1..] == visited;
  }

  lemma {:induction false} WritersOnce(contexts: ContextMap, order: seq<Id>, a: Address, done: set<Id>)
    requires forall id <- order :: id in contexts
    requires forall id <- order :: id in done ==> !contexts[id].Written().Touches(a)
    ensures forall id <- NewBases(order, done) :: id in contexts
    ensures FirstWriter(contexts, NewBases(order, done), a) == FirstWriter(contexts, order, a)
    decreases |order|
  {
    NewAreUnseen(order, done);
    if order != [] && !contexts[order[0]].Written().Touches(a) {
      WritersOnce(contexts, order[1..], a, done + {order[0]});
      if order[0] !in done {
        assert NewBases(order, done)[1..] == NewBases(order[1..], done + {order[0]});
      } else {
        assert done + {order[0]} == done;
      }
    }
  }

  // The walk of a new context

  lemma {:induction false} NewBasesBeside(bases: seq<Id>, seen: set<Id>, n: Id)
    requires n !in bases
    ensures NewBases(bases, seen + {n}) == NewBases(bases, seen)
    decreases |bases|
  {
    if bases != [] {
      NewBasesBeside(bases[1..], if bases[0] in seen then seen else seen + {bases[0]}, n);
      assert seen + {bases[0]} + {n} == seen + {n} + {bases[0]};
    }
  }

  /** A context that nobody mentions does not matter to a walk that does not start from it. */
  lemma {:induction false} WalkBeside(g: Graph, n: Id, bases: seq<Id>, queue: seq<Id>, seen: set<Id>)
    requires n !in queue && forall id <- g :: id != n && n !in g[id]
    ensures Walk(g[n := bases], queue, seen + {n}) == Walk(g, queue, seen)
    decreases |Mentioned(g) - seen| + |queue|
  {
    if queue != [] && queue[0] in g {
      WalkShrinks(g, queue[0], seen);
      WalkShrinks(g[n := bases], queue[0], seen + {n});
      NewBasesBeside(g[queue[0]], seen, n);
      var unseen := NewBases(g[queue[0]], seen);
      NewAreUnseen(g[queue[0]], seen);
      assert seen + {n} + SetOf(unseen) == seen + SetOf(unseen) + {n};
      WalkBeside(g, n, bases, queue[1..] + unseen, seen + SetOf(unseen));
    }
  }

  /** The new context's walk is itself, then the walk from its bases without repetition. */
  lemma NewOrder(m: ManagerState, c: ContextState, contexts': ContextMap)
    requires ContextsWf(m) && (forall b <- c.bases :: b < m.nextId) && contexts' == m.contexts[m.nextId := c]
    ensures var trail := SquashTrail(m.contexts, c.bases);
      && SquashTrail(contexts', [m.nextId]).complete == trail.complete
      && SquashTrail(contexts', [m.nextId]).visited == [m.nextId] + NewBases(trail.visited, {})
  {
    var n, g := m.nextId, GraphOf(m.contexts);
    var news := NewBases(c.bases, {});
    assert GraphOf(contexts') == g[n := c.bases];
    NewAreUnseen(c.bases, {});
    NewBasesBeside(c.bases, {}, n);
    assert {} + {n} == {n} && SetOf([n]) == {n} && SetOf(news) == SetOf(c.bases);
    WalkOnce(g[n := c.bases], [n], {n}, news, SetOf(c.bases) + {n});
    WalkBeside(g, n, c.bases, news, SetOf(c.bases));
    WalkRepeats(g, c.bases, SetOf(c.bases), {});
  }

  /** The new context shows what the first writer behind its bases left. */
  lemma NewKept(m: ManagerState, m': ManagerState, c: ContextState, a: Address)
    requires ContextsWf(m) && c.root in m.trees && forall b <- c.bases :: b < m.nextId
    requires m'.trees == m.trees && m'.contexts == m.contexts[m.nextId := c] && !c.Written().Touches(a)
    requires SquashTrail(m.contexts, c.bases).complete
    ensures Whole(m'.contexts, m.nextId)
    ensures Kept(m', m.nextId, a)
         == FromWriter(m.contexts, m.trees[c.root], SquashTrail(m.contexts, c.bases).visited, a)
  {
    var n, order := m.nextId, SquashTrail(m.contexts, c.bases).visited;
    NewOrder(m, c, m'.contexts);
    NewAreUnseen(order, {});
    var rest := NewBases(order, {});
    assert ([n] + rest)[1..] == rest;
    assert forall id <- rest :: m'.contexts[id] == m.contexts[id];
    SameWriters(m.contexts, m'.contexts, m.trees[c.root], rest, a);
    WritersOnce(m.contexts, order, a, {});
  }
}
