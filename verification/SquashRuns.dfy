/** What squash returns, removes and leaves alone, over every run. */
module SquashRuns {
  import opened Options
  import opened ContextGraph
  import opened Squash
  import opened Contexts
  import opened ManagerSpec
  import opened ManagerRuns

  /** The visited contexts' own writes, applied one context at a time, last visited first. */
  ghost function Replayed(m: ManagerState, root: Root, ids: seq<Id>): Tree
    requires root in m.trees
  {
    Replay(m.trees[root], Reverse(WrittenBy(m.contexts, SquashTrail(m.contexts, ids).visited)))
  }

  lemma FinishedTree(t: Tree, contexts: ContextMap, ids: seq<Id>)
    ensures var d := Collected(contexts, ids);
            Update(t, d.(deletes := d.deletes * t.Keys)) == SquashedOnto(t, contexts, ids)
  {
  }

  /**
   * The root squash returns names the replayed tree; it is the old root only
   * when the replay changes nothing, and the tree is stored only on request.
   */
  lemma SquashReturnsReplay(m: ManagerState, root: Root, ids: seq<Id>, persist: bool, cleanUp: bool,
                            rootOf: Tree -> Root)
    requires SquashRun(m, root, ids, persist, cleanUp, rootOf).1.Ok?
    ensures root in m.trees
    ensures var (m', r) := SquashRun(m, root, ids, persist, cleanUp, rootOf);
            var t := Replayed(m, root, ids);
            || (r == Ok(root) && t == m.trees[root] && m'.trees == m.trees)
            || (r == Ok(rootOf(t)) && m'.trees == if persist then m.trees[rootOf(t) := t] else m.trees)
  {
    FinishedTree(m.trees[root], m.contexts, ids);
    SquashIsReplay(m.trees[root], WrittenBy(m.contexts, SquashTrail(m.contexts, ids).visited));
    UpdateNothing(m.trees[root]);
  }

  /**
   * Squash fails for a missing context exactly when one is reachable, and
   * cleaning up removes exactly the contexts reachable from the given ids.
   */
  lemma CleanUpRemovesReachable(m: ManagerState, root: Root, ids: seq<Id>, persist: bool, rootOf: Tree -> Root)
    ensures var (m', r) := SquashRun(m, root, ids, persist, true, rootOf);
            && (r == Err(MissingContext) <==> exists id :: Reachable(GraphOf(m.contexts), ids, id) && id !in m.contexts)
            && (r.Ok? ==>
                  forall id :: id in m'.contexts <==> id in m.contexts && !Reachable(GraphOf(m.contexts), ids, id))
  {
    var g := GraphOf(m.contexts);
    WalkVisitsReachable(g, ids);
    assert forall id :: id in g <==> id in m.contexts;
    var trail := SquashTrail(m.contexts, ids);
    assert forall id :: id in SetOf(trail.visited) <==> id in trail.visited;
  }

  lemma UncoveredIsUntouched(c: ContextState, a: Address)
    requires c.WritesCovered() && !Covered(c.writeList, a)
    ensures !c.Written().Touches(a)
  {
  }

  lemma CoveredSquashFrame(contexts: ContextMap, t: Tree, ids: seq<Id>, a: Address)
    requires forall id <- contexts :: contexts[id].WritesCovered()
    requires forall id <- SquashTrail(contexts, ids).visited :: !Covered(contexts[id].writeList, a)
    ensures Lookup(SquashedOnto(t, contexts, ids), a) == Lookup(t, a)
  {
    var visited := SquashTrail(contexts, ids).visited;
    var ws := WrittenBy(contexts, visited);
    forall w | w in ws
      ensures !w.Touches(a)
    {
      var i :| 0 <= i < |ws| && ws[i] == w;
      assert visited[i] in visited;
      UncoveredIsUntouched(contexts[visited[i]], a);
    }
    SquashFrame(t, ws, a);
  }

  /**
   * In every reachable state, including one left by a set that was refused
   * part way, squash changes no address outside the outputs of the contexts
   * it visits.
   */
  lemma SquashFrameInRuns(trees: map<Root, Tree>, events: seq<Event>, rootOf: Tree -> Root, w: World,
                          t: Tree, ids: seq<Id>, a: Address)
    requires IsRun(Start(trees), events, rootOf) && w == After(Start(trees), events, rootOf)
    requires forall id <- SquashTrail(w.m.contexts, ids).visited :: !Covered(w.m.contexts[id].writeList, a)
    ensures Lookup(SquashedOnto(t, w.m.contexts, ids), a) == Lookup(t, a)
  {
    RunKeepsWf(Start(trees), events, rootOf);
    CoveredSquashFrame(w.m.contexts, t, ids, a);
  }
}
