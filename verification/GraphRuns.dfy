/** Exactly which steps of a run make a read disagree with squash, with any number of bases. */
module GraphRuns {
  import opened Options
  import opened ContextGraph
  import opened Squash
  import opened Contexts
  import opened ManagerSpec
  import opened ManagerRuns
  import opened ReadCoherence
  import opened CoherentRuns
  import opened ReadRuns
  import opened GraphReads
  import opened GraphCoherence
  import opened NewContextWalk

  // Which steps spoil what is held

  /**
   * The new context would take over the address from a base that has only read it,
   * and whose own walk shows there something else than the new context's.
   */
  ghost predicate TakesAcross(m: ManagerState, root: Root, bases: seq<Id>, a: Address) {
    && SquashTrail(m.contexts, bases).complete && root in m.trees
    && var order := SquashTrail(m.contexts, bases).visited;
       var h := FirstHolder(m.contexts, order, a);
       && h.Some? && m.contexts[h.value].state[a].Untouched()
       && Whole(m.contexts, h.value) && m.contexts[h.value].root in m.trees
       && Kept(m, h.value, a) != FromWriter(m.contexts, m.trees[root], order, a)
  }

  ghost predicate SpoilsByCreating(m: ManagerState, e: Event)
    requires e.DoCreate?
  {
    && Create(m, e.root, e.bases, e.inputs, e.outputs).1.Ok?
    && exists a <- Wanted(e.inputs) :: TakesAcross(m, e.root, e.bases, a)
  }

  /** The replacement changes what squashing another context keeps at an address that it has read. */
  ghost predicate ChangesKept(m: ManagerState, cid: Id, c': ContextState, id: Id, a: Address) {
    && Whole(m.contexts, id) && id != cid && m.contexts[id].root in m.trees && a in m.contexts[id].state
    && m.contexts[id].state[a].Untouched() && m.contexts[id].state[a].Ready()
    && var m' := m.(contexts := m.contexts[cid := c']);
       Whole(m'.contexts, id) && Kept(m', id, a) != Kept(m, id, a)
  }

  ghost predicate SpoilsByReplacing(m: ManagerState, cid: Id, c': ContextState) {
    exists id, a :: ChangesKept(m, cid, c', id, a)
  }

  /** The delivery brings a value that squashing the context would not keep. */
  ghost predicate DeliversWrong(m: ManagerState, cid: Id, a: Address, v: Option<Bytes>) {
    && Whole(m.contexts, cid) && m.contexts[cid].root in m.trees && a in m.contexts[cid].state
    && m.contexts[cid].state[a].Untouched() && !m.contexts[cid].state[a].readOnly
    && v != Kept(m, cid, a)
  }

  ghost predicate SpoilsHeld(w: World, e: Event) {
    match e
    case DoCreate(_, _, _, _) => SpoilsByCreating(w.m, e)
    case DoSet(cid, _) => cid in w.m.contexts && SpoilsByReplacing(w.m, cid, Written(w.m.contexts[cid], e))
    case DoDelete(cid, _) => cid in w.m.contexts && SpoilsByReplacing(w.m, cid, Written(w.m.contexts[cid], e))
    case WriterSet(a) =>
      && w.writing.Some? && a in w.writing.value.values
      && DeliversWrong(w.m, w.writing.value.cid, a, w.writing.value.values[a])
    case _ => false
  }

  // Contexts that stay right

  lemma HeldStaysRight(m: ManagerState, m': ManagerState, id: Id, a: Address)
    requires ContextsWf(m) && Extends(m.trees, m'.trees) && Whole(m'.contexts, id) && id in m.contexts
    requires ShownStep(m.contexts[id], m'.contexts[id]) && a in m'.contexts[id].state
    requires forall k <- Order(m'.contexts, id) :: k in m.contexts && SameWriting(m.contexts[k], m'.contexts[k])
    requires Whole(m.contexts, id) ==> ContextRight(m, id)
    ensures HeldRight(m', id, a)
  {
    KeptFrame(m, m', id, a);
    if m'.contexts[id].state[a].Untouched() && m'.contexts[id].state[a].Ready() {
      assert HeldRight(m, id, a);
    }
  }

  lemma StaysRight(m: ManagerState, m': ManagerState, id: Id)
    requires AllRight(m) && ContextsWf(m) && Extends(m.trees, m'.trees)
    requires Whole(m'.contexts, id) && id in m.contexts && ShownStep(m.contexts[id], m'.contexts[id])
    requires forall k <- Order(m'.contexts, id) :: k in m.contexts && SameWriting(m.contexts[k], m'.contexts[k])
    ensures ContextRight(m', id)
  {
    forall a | a in m'.contexts[id].state
      ensures HeldRight(m', id, a)
    {
      HeldStaysRight(m, m', id, a);
    }
  }

  lemma FreezeKeepsRight(m: ManagerState, ids: seq<Id>, m': ManagerState)
    requires ContextsWf(m) && AllRight(m)
    requires FreezesOrDrops(m, ids, m') && Extends(m.trees, m'.trees) && SquashReady(m.contexts, ids)
    ensures AllRight(m')
  {
    forall id | id in m'.contexts
      ensures SameWriting(m.contexts[id], m'.contexts[id]) && ShownStep(m.contexts[id], m'.contexts[id])
    {
      if m'.contexts[id] != m.contexts[id] {
        FreezeIsStep(map[], m.contexts[id]);
      }
    }
    forall id | id in m'.contexts && Whole(m'.contexts, id)
      ensures ContextRight(m', id)
    {
      StaysRight(m, m', id);
    }
  }

  lemma SquashKeepsRight(w: World, e: Event, rootOf: Tree -> Root)
    requires Wf(w) && AllRight(w.m) && e.DoSquash? && Enabled(w, e, rootOf)
    ensures AllRight(Next(w, e, rootOf).m)
  {
    SquashEffect(w.m, e.root, e.ids, e.persist, e.cleanUp, rootOf);
    FreezeKeepsRight(w.m, e.ids, Next(w, e, rootOf).m);
  }

  lemma DropKeepsRight(w: World, e: Event, rootOf: Tree -> Root)
    requires Wf(w) && AllRight(w.m) && e.DoDeleteContexts? && Enabled(w, e, rootOf)
    ensures AllRight(Next(w, e, rootOf).m)
  {
    assert SquashTrail(w.m.contexts, []) == Trail([], true);
    FreezeKeepsRight(w.m, [], Next(w, e, rootOf).m);
  }

  // Creating a context

  lemma {:induction false} PathStaysBelow(g: Graph, n: Id, path: seq<Id>)
    requires IsPath(g, path) && path[0] < n
    requires forall id, b :: id in g && id < n && b in g[id] ==> b < n
    ensures path[|path| - 1] < n
    decreases |path|
  {
    if |path| > 1 {
      assert path[1] in g[path[0]];
      PathStaysBelow(g, n, path[1..]);
    }
  }

  /** Walks from older contexts do not meet the new one. */
  lemma OldMeetOld(m: ManagerState, c: ContextState, contexts': ContextMap, id: Id, k: Id)
    requires ContextsWf(m) && contexts' == m.contexts[m.nextId := c]
    requires Whole(contexts', id) && id in m.contexts && k in Order(contexts', id)
    ensures k in m.contexts && contexts'[k] == m.contexts[k]
  {
    var g := GraphOf(contexts');
    WalkVisitsReachable(g, [id]);
    var path :| PathTo(g, path, [id], k);
    PathStaysBelow(g, m.nextId, path);
  }

  lemma OldStayRight(m: ManagerState, m': ManagerState, c: ContextState, id: Id)
    requires AllRight(m) && ContextsWf(m) && m'.trees == m.trees && m'.contexts == m.contexts[m.nextId := c]
    requires Whole(m'.contexts, id) && id in m.contexts
    ensures ContextRight(m', id)
  {
    forall k | k in Order(m'.contexts, id)
      ensures k in m.contexts && SameWriting(m.contexts[k], m'.contexts[k])
    {
      OldMeetOld(m, c, m'.contexts, id, k);
    }
    StaysRight(m, m', id);
  }

  /** A base that has only read the address hands over what squashing it keeps; one that wrote it, what it wrote. */
  lemma HolderHolds(m: ManagerState, bases: seq<Id>, asked: set<Address>, a: Address, h: Id)
    requires AllRight(m) && ContextsWf(m) && SquashTrail(m.contexts, bases).complete && a in asked
    requires FindReady(m.contexts, bases, SetOf(bases), asked)
    requires FirstHolder(m.contexts, SquashTrail(m.contexts, bases).visited, a) == Some(h)
    ensures Whole(m.contexts, h) && m.contexts[h].root in m.trees
    ensures m.contexts[h].state[a].Untouched() ==> m.contexts[h].Held(a) == Kept(m, h, a)
    ensures !m.contexts[h].state[a].Untouched() ==>
      forall t :: m.contexts[h].Held(a) == FromWriter(m.contexts, t, SquashTrail(m.contexts, bases).visited, a)
  {
    var order := SquashTrail(m.contexts, bases).visited;
    VisitedIsWhole(m.contexts, bases, h);
    assert ContextRight(m, h);
    HolderIsReady(m.contexts, bases, SetOf(bases), asked, a);
    assert HeldRight(m, h, a);
    HolderBeforeWriter(m.contexts, order, a);
  }

  /** What the search hands to the new context at an address it found, and when that is right. */
  lemma FoundRightExactly(m: ManagerState, c: ContextState, found: Found, a: Address)
    requires AllRight(m) && ContextsWf(m) && c.root in m.trees
    requires FindReady(m.contexts, c.bases, SetOf(c.bases), Wanted(c.readList))
    requires Find(m.contexts, c.bases, SetOf(c.bases), Wanted(c.readList)) == Some(found)
    requires SquashTrail(m.contexts, c.bases).complete && a in Wanted(c.readList)
    ensures a in found.values <==> a !in found.missing
    ensures a in found.values ==>
      (found.values[a] == FromWriter(m.contexts, m.trees[c.root], SquashTrail(m.contexts, c.bases).visited, a)
       <==> !TakesAcross(m, c.root, c.bases, a))
    ensures a !in found.values ==> !TakesAcross(m, c.root, c.bases, a)
  {
    var order := SquashTrail(m.contexts, c.bases).visited;
    FindTakesHolders(m.contexts, c.bases, SetOf(c.bases), Wanted(c.readList));
    assert a in found.values.Keys + found.missing;
    var h := FirstHolder(m.contexts, order, a);
    if h.Some? {
      HolderHolds(m, c.bases, Wanted(c.readList), a, h.value);
    }
  }

  lemma NewFuture(c: ContextState, found: Found, a: Address)
    requires c == NewContext(c.root, c.bases, c.readList, c.writeList, found)
    requires a in found.values <==> a !in found.missing
    ensures a in c.state && c.state[a].Untouched() && !c.Written().Touches(a)
    ensures c.state[a].Ready() <==> a in found.values
    ensures a in found.values ==> c.state[a].result == found.values[a]
  {
  }

  lemma NewHeldRightExactly(m: ManagerState, m': ManagerState, c: ContextState, found: Found, a: Address)
    requires AllRight(m) && ContextsWf(m) && c.root in m.trees && forall b <- c.bases :: b < m.nextId
    requires m'.trees == m.trees && m'.contexts == m.contexts[m.nextId := c]
    requires c == NewContext(c.root, c.bases, c.readList, c.writeList, found)
    requires FindReady(m.contexts, c.bases, SetOf(c.bases), Wanted(c.readList))
    requires Find(m.contexts, c.bases, SetOf(c.bases), Wanted(c.readList)) == Some(found)
    requires SquashTrail(m.contexts, c.bases).complete && a in Wanted(c.readList)
    ensures Whole(m'.contexts, m.nextId) && a in c.state
    ensures HeldRight(m', m.nextId, a) <==> !TakesAcross(m, c.root, c.bases, a)
  {
    FoundRightExactly(m, c, found, a);
    NewFuture(c, found, a);
    NewKept(m, m', c, a);
  }

  lemma NewRightExactly(m: ManagerState, m': ManagerState, c: ContextState, found: Found)
    requires AllRight(m) && ContextsWf(m) && c.root in m.trees && forall b <- c.bases :: b < m.nextId
    requires m'.trees == m.trees && m'.contexts == m.contexts[m.nextId := c]
    requires c == NewContext(c.root, c.bases, c.readList, c.writeList, found)
    requires FindReady(m.contexts, c.bases, SetOf(c.bases), Wanted(c.readList))
    requires Find(m.contexts, c.bases, SetOf(c.bases), Wanted(c.readList)) == Some(found)
    requires SquashTrail(m.contexts, c.bases).complete && Whole(m'.contexts, m.nextId)
    ensures ContextRight(m', m.nextId) <==> forall a <- Wanted(c.readList) :: !TakesAcross(m, c.root, c.bases, a)
  {
    FindWithin(m.contexts, c.bases, SetOf(c.bases), Wanted(c.readList));
    assert c.state.Keys <= Wanted(c.readList);
    forall a | a in Wanted(c.readList)
      ensures a in c.state && (HeldRight(m', m.nextId, a) <==> !TakesAcross(m, c.root, c.bases, a))
    {
      NewHeldRightExactly(m, m', c, found, a);
    }
  }

  lemma CreateRightExactly(w: World, e: Event, rootOf: Tree -> Root)
    requires Wf(w) && AllRight(w.m) && e.DoCreate? && Enabled(w, e, rootOf)
    ensures AllRight(Next(w, e, rootOf).m) <==> !SpoilsByCreating(w.m, e)
  {
    if Create(w.m, e.root, e.bases, e.inputs, e.outputs).1.Ok? {
      var found := Find(w.m.contexts, e.bases, SetOf(e.bases), Wanted(e.inputs)).value;
      var c := NewContext(e.root, e.bases, e.inputs, e.outputs, found);
      AddRightExactly(w.m, Next(w, e, rootOf).m, c, found);
    }
  }

  lemma AddRightExactly(m: ManagerState, m': ManagerState, c: ContextState, found: Found)
    requires AllRight(m) && ContextsWf(m) && c.root in m.trees && forall b <- c.bases :: b < m.nextId
    requires m'.trees == m.trees && m'.contexts == m.contexts[m.nextId := c]
    requires c == NewContext(c.root, c.bases, c.readList, c.writeList, found)
    requires FindReady(m.contexts, c.bases, SetOf(c.bases), Wanted(c.readList))
    requires Find(m.contexts, c.bases, SetOf(c.bases), Wanted(c.readList)) == Some(found)
    ensures AllRight(m') <==> forall a <- Wanted(c.readList) :: !TakesAcross(m, c.root, c.bases, a)
  {
    NewOrder(m, c, m'.contexts);
    if SquashTrail(m.contexts, c.bases).complete {
      NewRightExactly(m, m', c, found);
    }
    forall id | id in m.contexts && Whole(m'.contexts, id)
      ensures ContextRight(m', id)
    {
      OldStayRight(m, m', c, id);
    }
  }

  // Replacing a context

  lemma ReplaceKeepsOrder(contexts: ContextMap, cid: Id, c': ContextState, id: Id)
    requires cid in contexts && c'.bases == contexts[cid].bases && id in contexts
    ensures Whole(contexts[cid := c'], id) <==> Whole(contexts, id)
    ensures Order(contexts[cid := c'], id) == Order(contexts, id)
  {
    assert GraphOf(contexts[cid := c']) == GraphOf(contexts);
  }

  lemma UntouchedIsWrittenAlike(c: ContextState, c': ContextState, a: Address)
    requires KeepsUntouched(c, c') && a in c'.state && c'.state[a].Untouched()
    ensures SameAt(c, c', a)
  {
  }

  /** The replaced context's own untouched futures are as right as before. */
  lemma OwnKept(m: ManagerState, m': ManagerState, cid: Id, c': ContextState, a: Address)
    requires ContextsWf(m) && cid in m.contexts && Whole(m'.contexts, cid)
    requires m' == m.(contexts := m.contexts[cid := c']) && KeepsUntouched(m.contexts[cid], c')
    requires a in c'.state && c'.state[a].Untouched()
    ensures Whole(m.contexts, cid) && Kept(m', cid, a) == Kept(m, cid, a)
  {
    ReplaceKeepsOrder(m.contexts, cid, c', cid);
    UntouchedIsWrittenAlike(m.contexts[cid], c', a);
    KeptFrame(m, m', cid, a);
  }

  lemma UnspoiltHeld(m: ManagerState, m': ManagerState, cid: Id, c': ContextState, id: Id, a: Address)
    requires ContextsWf(m) && cid in m.contexts && KeepsUntouched(m.contexts[cid], c')
    requires m' == m.(contexts := m.contexts[cid := c']) && Whole(m'.contexts, id) && Whole(m.contexts, id)
    requires ContextRight(m, id) && !ChangesKept(m, cid, c', id, a) && a in m'.contexts[id].state
    ensures HeldRight(m', id, a)
  {
    if m'.contexts[id].state[a].Untouched() {
      assert HeldRight(m, id, a);
      if id == cid {
        OwnKept(m, m', cid, c', a);
      }
    }
  }

  lemma UnspoiltStaysRight(m: ManagerState, m': ManagerState, cid: Id, c': ContextState, id: Id)
    requires AllRight(m) && ContextsWf(m) && cid in m.contexts && KeepsUntouched(m.contexts[cid], c')
    requires m' == m.(contexts := m.contexts[cid := c']) && Whole(m'.contexts, id)
    requires forall a :: !ChangesKept(m, cid, c', id, a)
    ensures ContextRight(m', id)
  {
    ReplaceKeepsOrder(m.contexts, cid, c', id);
    forall a | a in m'.contexts[id].state
      ensures HeldRight(m', id, a)
    {
      UnspoiltHeld(m, m', cid, c', id, a);
    }
  }

  lemma SpoiltIsNotRight(m: ManagerState, m': ManagerState, cid: Id, c': ContextState, id: Id, a: Address)
    requires AllRight(m) && cid in m.contexts && ChangesKept(m, cid, c', id, a)
    requires m' == m.(contexts := m.contexts[cid := c'])
    ensures !AllRight(m')
  {
    assert ContextRight(m, id) && HeldRight(m, id, a);
    assert m'.contexts[id] == m.contexts[id];
    assert !HeldRight(m', id, a);
    assert !ContextRight(m', id);
  }

  lemma WriteRightExactly(w: World, e: Event, rootOf: Tree -> Root)
    requires Wf(w) && AllRight(w.m) && (e.DoSet? || e.DoDelete?) && Enabled(w, e, rootOf)
    ensures AllRight(Next(w, e, rootOf).m) <==> !SpoilsHeld(w, e)
  {
    if e.cid in w.m.contexts {
      var c' := Written(w.m.contexts[e.cid], e);
      var m' := w.m.(contexts := w.m.contexts[e.cid := c']);
      WriteIsReplacement(w, e, rootOf);
      WriteKeepsUntouched(w.m.contexts[e.cid], e);
      if SpoilsByReplacing(w.m, e.cid, c') {
        var id, a :| ChangesKept(w.m, e.cid, c', id, a);
        SpoiltIsNotRight(w.m, m', e.cid, c', id, a);
      } else {
        forall id | id in m'.contexts && Whole(m'.contexts, id)
          ensures ContextRight(m', id)
        {
          UnspoiltStaysRight(w.m, m', e.cid, c', id);
        }
      }
    }
  }

  // Deliveries

  lemma DeliveryFuture(c: ContextState, a: Address, v: Option<Bytes>, b: Address)
    requires b in c.state
    ensures var c' := WithTreeAt(c, a, v);
      && b in c'.state && c'.state[b].Untouched() == c.state[b].Untouched()
      && (a != b || c.state[b].readOnly ==> c'.state[b] == c.state[b])
      && (a == b && !c.state[b].readOnly && c.state[b].Untouched() ==> c'.state[b].Ready() && c'.state[b].result == v)
  {
  }

  lemma DeliveryKeepsKept(m: ManagerState, m': ManagerState, cid: Id, c': ContextState, b: Address)
    requires ContextsWf(m) && Whole(m.contexts, cid) && SameWriting(m.contexts[cid], c')
    requires m' == m.(contexts := m.contexts[cid := c'])
    ensures Whole(m'.contexts, cid) && Kept(m', cid, b) == Kept(m, cid, b)
  {
    ReplaceKeepsOrder(m.contexts, cid, c', cid);
    KeptFrame(m, m', cid, b);
  }

  lemma DeliveryHeldExactly(m: ManagerState, m': ManagerState, cid: Id, c': ContextState, a: Address, v: Option<Bytes>,
                            b: Address)
    requires ContextsWf(m) && Whole(m.contexts, cid) && ContextRight(m, cid) && b in m.contexts[cid].state
    requires c' == WithTreeAt(m.contexts[cid], a, v) && m' == m.(contexts := m.contexts[cid := c'])
    ensures Whole(m'.contexts, cid) && b in c'.state
    ensures HeldRight(m', cid, b) <==> !(a == b && DeliversWrong(m, cid, a, v))
  {
    DeliveryWritesNothing(m.contexts[cid], a, v);
    DeliveryKeepsKept(m, m', cid, c', b);
    DeliveryFuture(m.contexts[cid], a, v, b);
    assert HeldRight(m, cid, b);
  }

  lemma DeliveredRightExactly(m: ManagerState, m': ManagerState, cid: Id, c': ContextState, a: Address,
                              v: Option<Bytes>)
    requires AllRight(m) && ContextsWf(m) && Whole(m.contexts, cid)
    requires c' == WithTreeAt(m.contexts[cid], a, v) && m' == m.(contexts := m.contexts[cid := c'])
    ensures Whole(m'.contexts, cid) && (ContextRight(m', cid) <==> !DeliversWrong(m, cid, a, v))
  {
    DeliveryWritesNothing(m.contexts[cid], a, v);
    ReplaceKeepsOrder(m.contexts, cid, c', cid);
    forall b | b in c'.state
      ensures HeldRight(m', cid, b) <==> !(a == b && DeliversWrong(m, cid, a, v))
    {
      DeliveryHeldExactly(m, m', cid, c', a, v, b);
    }
    if DeliversWrong(m, cid, a, v) {
      DeliveryFuture(m.contexts[cid], a, v, a);
    }
  }

  lemma DeliveryRightExactly(m: ManagerState, m': ManagerState, cid: Id, c': ContextState, a: Address, v: Option<Bytes>)
    requires AllRight(m) && ContextsWf(m) && cid in m.contexts
    requires c' == WithTreeAt(m.contexts[cid], a, v) && m' == m.(contexts := m.contexts[cid := c'])
    ensures AllRight(m') <==> !DeliversWrong(m, cid, a, v)
  {
    DeliveryWritesNothing(m.contexts[cid], a, v);
    ReplaceKeepsOrder(m.contexts, cid, c', cid);
    if Whole(m.contexts, cid) {
      DeliveredRightExactly(m, m', cid, c', a, v);
    }
    forall id | id in m'.contexts && Whole(m'.contexts, id) && id != cid
      ensures ContextRight(m', id)
    {
      DeliveryKeepsOther(m, m', cid, c', id);
    }
  }

  lemma DeliveryKeepsOther(m: ManagerState, m': ManagerState, cid: Id, c': ContextState, id: Id)
    requires AllRight(m) && ContextsWf(m) && cid in m.contexts && id != cid && SameWriting(m.contexts[cid], c')
    requires m' == m.(contexts := m.contexts[cid := c']) && Whole(m'.contexts, id)
    ensures ContextRight(m', id)
  {
    StaysRight(m, m', id);
  }

  // Steps and runs

  lemma SameContextsRight(m: ManagerState, m': ManagerState)
    requires AllRight(m) && m'.contexts == m.contexts && m'.trees == m.trees
    ensures AllRight(m')
  {
    forall id | id in m'.contexts && Whole(m'.contexts, id)
      ensures ContextRight(m', id)
    {
      assert ContextRight(m, id);
      forall a | a in m'.contexts[id].state
        ensures HeldRight(m', id, a)
      {
        assert HeldRight(m, id, a);
      }
    }
  }

  /** From a state where all that is held is right, exactly the spoiling steps lead out. */
  lemma StepRightExactly(w: World, e: Event, rootOf: Tree -> Root)
    requires Wf(w) && AllRight(w.m) && Enabled(w, e, rootOf)
    ensures AllRight(Next(w, e, rootOf).m) <==> !SpoilsHeld(w, e)
  {
    match e
    case DoCreate(_, _, _, _) => CreateRightExactly(w, e, rootOf);
    case DoSet(_, _) => WriteRightExactly(w, e, rootOf);
    case DoDelete(_, _) => WriteRightExactly(w, e, rootOf);
    case DoSquash(_, _, _, _) => SquashKeepsRight(w, e, rootOf);
    case DoDeleteContexts(_) => DropKeepsRight(w, e, rootOf);
    case WriterSet(a) =>
      var item := w.writing.value;
      if item.cid in w.m.contexts {
        var c' := WithTreeAt(w.m.contexts[item.cid], a, item.values[a]);
        DeliveryRightExactly(w.m, Next(w, e, rootOf).m, item.cid, c', a, item.values[a]);
      }
    case _ => SameContextsRight(w.m, Next(w, e, rootOf).m);
  }

  ghost predicate AllReadsAgreeThroughout(w: World, events: seq<Event>, rootOf: Tree -> Root)
    requires IsRun(w, events, rootOf)
    decreases |events|
  {
    AllReadsAgree(w.m) && (events == [] || AllReadsAgreeThroughout(Next(w, events[0], rootOf), events[1..], rootOf))
  }

  /** No step of the run spoils what is held, and at no moment anybody sees across. */
  ghost predicate NeverCrosses(w: World, events: seq<Event>, rootOf: Tree -> Root)
    requires IsRun(w, events, rootOf)
    decreases |events|
  {
    && NobodySeesAcross(w.m)
    && (events == [] ||
        (!SpoilsHeld(w, events[0]) && NeverCrosses(Next(w, events[0], rootOf), events[1..], rootOf)))
  }

  lemma {:induction false} RunAllReadsExactlyFrom(w: World, events: seq<Event>, rootOf: Tree -> Root)
    requires Wf(w) && Readable(w.m) && AllRight(w.m) && IsRun(w, events, rootOf)
    ensures AllReadsAgreeThroughout(w, events, rootOf) <==> NeverCrosses(w, events, rootOf)
    decreases |events|
  {
    AllReadsAgreeExactly(w.m);
    if events != [] {
      var w' := Next(w, events[0], rootOf);
      StepKeepsWf(w, events[0], rootOf);
      StepKeepsReadable(w, events[0], rootOf);
      StepRightExactly(w, events[0], rootOf);
      AllReadsAgreeExactly(w'.m);
      if AllRight(w'.m) {
        RunAllReadsExactlyFrom(w', events[1..], rootOf);
      }
    }
  }

  /**
   * Over every run from the start, with any number of bases: every authorised read
   * that need not wait agrees with squashing its context, except at stale addresses,
   * at every moment, if and only if no step spoils what is held and nobody ever sees
   * across.
   */
  lemma RunAllReadsExactly(trees: map<Root, Tree>, events: seq<Event>, rootOf: Tree -> Root)
    requires IsRun(Start(trees), events, rootOf)
    ensures AllReadsAgreeThroughout(Start(trees), events, rootOf) <==> NeverCrosses(Start(trees), events, rootOf)
  {
    RunAllReadsExactlyFrom(Start(trees), events, rootOf);
  }
}
