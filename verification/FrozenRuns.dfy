/** What squash has collected from a context stays written there. */
module FrozenRuns {
  import opened Options
  import opened Futures
  import opened ContextGraph
  import opened Squash
  import opened Contexts
  import opened ManagerSpec
  import opened ManagerRuns
  import opened DirectWrites
  import opened GraphReads
  import opened DagSquash
  import opened ContextExamples

  /** The context holds the address, frozen. */
  predicate FrozenAt(m: ManagerState, id: Id, a: Address) {
    id in m.contexts && a in m.contexts[id].state && m.contexts[id].state[a].readOnly
  }

  /**
   * Squash, also one that fails, freezes what its contexts hold and keeps what they
   * have written; but a future added to a context after it was frozen stays open.
   */
  lemma SquashFreezesExactly(m: ManagerState, root: Root, ids: seq<Id>, persist: bool, cleanUp: bool,
                             rootOf: Tree -> Root, id: Id, a: Address)
    requires id in SquashTrail(m.contexts, ids).visited && a in m.contexts[id].state
    ensures var m' := SquashRun(m, root, ids, persist, cleanUp, rootOf).0;
      id in m'.contexts ==>
        && m'.contexts[id].readOnly && m'.contexts[id].Written() == m.contexts[id].Written()
        && (FrozenAt(m', id, a) <==> !m.contexts[id].readOnly || m.contexts[id].state[a].readOnly)
  {
    var m' := SquashRun(m, root, ids, persist, cleanUp, rootOf).0;
    if id in m'.contexts {
      assert m'.contexts[id] == m.contexts[id].Frozen();
      assert m'.contexts[id].Written().sets == m.contexts[id].Written().sets;
      assert m'.contexts[id].Written().deletes == m.contexts[id].Written().deletes;
    }
  }

  /** The event deletes the address in the context. */
  predicate Deletes(e: Event, id: Id, a: Address) {
    e.DoDelete? && e.cid == id && a in e.addresses
  }

  lemma WriteKeepsFrozen(w: World, e: Event, rootOf: Tree -> Root, id: Id, a: Address)
    requires (e.DoSet? || e.DoDelete?) && e.cid in w.m.contexts && FrozenAt(w.m, id, a) && !Deletes(e, id, a)
    ensures id in Next(w, e, rootOf).m.contexts && a in Next(w, e, rootOf).m.contexts[id].state
    ensures Next(w, e, rootOf).m.contexts[id].state[a] == w.m.contexts[id].state[a]
  {
    var c := w.m.contexts[e.cid];
    if e.DoSet? {
      SetAt(c, DictOf(e.items).order, DictOf(e.items).values, a);
    } else {
      AuthorizedIsLongest(c.writeList, e.addresses);
      DeleteAt(c, e.addresses, a);
    }
  }

  lemma ReplaceKeepsFrozen(m: ManagerState, cid: Id, b: Address, v: Option<Bytes>, id: Id, a: Address)
    requires cid in m.contexts && FrozenAt(m, id, a)
    ensures var m' := m.(contexts := m.contexts[cid := WithTreeAt(m.contexts[cid], b, v)]);
      a in m'.contexts[id].state && m'.contexts[id].state[a] == m.contexts[id].state[a]
  {
  }

  lemma SquashKeepsFrozen(w: World, e: Event, rootOf: Tree -> Root, id: Id, a: Address)
    requires e.DoSquash? && Enabled(w, e, rootOf) && FrozenAt(w.m, id, a)
    ensures var m' := Next(w, e, rootOf).m;
      id in m'.contexts ==> a in m'.contexts[id].state && m'.contexts[id].state[a] == w.m.contexts[id].state[a]
  {
    SquashEffect(w.m, e.root, e.ids, e.persist, e.cleanUp, rootOf);
  }

  lemma CreateKeepsFrozen(w: World, e: Event, rootOf: Tree -> Root, id: Id, a: Address)
    requires Wf(w) && e.DoCreate? && Enabled(w, e, rootOf) && FrozenAt(w.m, id, a)
    ensures Lookup(Next(w, e, rootOf).m.contexts, id) == Some(w.m.contexts[id])
  {
  }

  lemma StepKeepsFrozen(w: World, e: Event, rootOf: Tree -> Root, id: Id, a: Address)
    requires Wf(w) && Enabled(w, e, rootOf) && FrozenAt(w.m, id, a) && !Deletes(e, id, a)
    ensures var m' := Next(w, e, rootOf).m;
      id in m'.contexts ==> a in m'.contexts[id].state && m'.contexts[id].state[a] == w.m.contexts[id].state[a]
  {
    match e
    case DoSet(cid, _) => if cid in w.m.contexts { WriteKeepsFrozen(w, e, rootOf, id, a); }
    case DoDelete(cid, _) => if cid in w.m.contexts { WriteKeepsFrozen(w, e, rootOf, id, a); }
    case DoSquash(_, _, _, _) => SquashKeepsFrozen(w, e, rootOf, id, a);
    case DoCreate(_, _, _, _) => CreateKeepsFrozen(w, e, rootOf, id, a);
    case WriterSet(b) =>
      var item := w.writing.value;
      if item.cid in w.m.contexts {
        ReplaceKeepsFrozen(w.m, item.cid, b, item.values[b], id, a);
      }
    case _ =>
  }

  lemma {:induction false} RunKeepsFrozen(w: World, events: seq<Event>, rootOf: Tree -> Root, id: Id, a: Address)
    requires Wf(w) && IsRun(w, events, rootOf) && FrozenAt(w.m, id, a)
    requires forall e <- events :: !Deletes(e, id, a)
    ensures var m' := After(w, events, rootOf).m;
      id in m'.contexts ==> a in m'.contexts[id].state && m'.contexts[id].state[a] == w.m.contexts[id].state[a]
    decreases |events|
  {
    if events != [] {
      StepKeepsFrozen(w, events[0], rootOf, id, a);
      StepKeepsWf(w, events[0], rootOf);
      if id in Next(w, events[0], rootOf).m.contexts {
        RunKeepsFrozen(Next(w, events[0], rootOf), events[1..], rootOf, id, a);
      } else {
        StaysGone(w, events, rootOf, id);
      }
    }
  }

  /** A context that is gone does not come back. */
  lemma {:induction false} NeverReturns(w: World, events: seq<Event>, rootOf: Tree -> Root, id: Id)
    requires Wf(w) && IsRun(w, events, rootOf) && id !in w.m.contexts && id < w.m.nextId
    ensures id !in After(w, events, rootOf).m.contexts
    decreases |events|
  {
    if events != [] {
      StepKeepsWf(w, events[0], rootOf);
      NeverReturns(Next(w, events[0], rootOf), events[1..], rootOf, id);
    }
  }

  lemma StaysGone(w: World, events: seq<Event>, rootOf: Tree -> Root, id: Id)
    requires Wf(w) && IsRun(w, events, rootOf) && events != []
    requires id in w.m.contexts && id !in Next(w, events[0], rootOf).m.contexts
    ensures id !in After(w, events, rootOf).m.contexts
  {
    StepKeepsWf(w, events[0], rootOf);
    NeverReturns(Next(w, events[0], rootOf), events[1..], rootOf, id);
  }

  /** The two contexts write the address alike. */
  predicate WritesAlike(c: ContextState, c': ContextState, a: Address) {
    && (c'.Written().Touches(a) <==> c.Written().Touches(a))
    && c'.Written().Effect(a) == c.Written().Effect(a)
  }

  lemma FrozenStaysWritten(w: World, events: seq<Event>, rootOf: Tree -> Root, id: Id, a: Address)
    requires Wf(w) && IsRun(w, events, rootOf) && FrozenAt(w.m, id, a)
    requires forall e <- events :: !Deletes(e, id, a)
    ensures id in After(w, events, rootOf).m.contexts ==>
      WritesAlike(w.m.contexts[id], After(w, events, rootOf).m.contexts[id], a)
  {
    RunKeepsFrozen(w, events, rootOf, id, a);
  }

  /**
   * What a squash has collected from a context that was not frozen before, no later
   * step changes but a delete of that very address.
   */
  lemma SquashedStaysWritten(w: World, e: Event, w': World, events: seq<Event>, rootOf: Tree -> Root, id: Id,
                             a: Address)
    requires Wf(w) && e.DoSquash? && Enabled(w, e, rootOf) && w' == Next(w, e, rootOf) && IsRun(w', events, rootOf)
    requires id in SquashTrail(w.m.contexts, e.ids).visited && a in w.m.contexts[id].state
    requires !w.m.contexts[id].readOnly && forall d <- events :: !Deletes(d, id, a)
    ensures id in After(w', events, rootOf).m.contexts ==>
      WritesAlike(w.m.contexts[id], After(w', events, rootOf).m.contexts[id], a)
  {
    StepKeepsWf(w, e, rootOf);
    SquashFreezesExactly(w.m, e.root, e.ids, e.persist, e.cleanUp, rootOf, id, a);
    if id in w'.m.contexts {
      FrozenStaysWritten(w', events, rootOf, id, a);
    } else {
      assert w'.m.nextId == w.m.nextId;
      NeverReturns(w', events, rootOf, id);
    }
  }

  // Sets of a frozen context

  /** Setting the address to the value changes nothing there: it is frozen, or set to that value already. */
  predicate Holds(c: ContextState, a: Address, v: Bytes) {
    a in c.state && (c.state[a].readOnly || (c.state[a].setInContext && c.state[a].result == Some(v)))
  }

  lemma HeldIsUnchanged(c: ContextState, order: seq<Address>, values: map<Address, Bytes>, a: Address)
    requires ContextOk(c) && (forall b <- order :: b in values)
    requires a in Authorized(c.writeList, order) ==> a in values && Holds(c, a, values[a])
    ensures Lookup(c.SetAll(order, values).state, a) == Lookup(c.state, a)
  {
    SetAt(c, order, values, a);
  }

  lemma UnheldIsWritten(c: ContextState, order: seq<Address>, values: map<Address, Bytes>, a: Address)
    requires ContextOk(c) && (forall b <- order :: b in values)
    requires a in Authorized(c.writeList, order) && a in values && !Holds(c, a, values[a])
    ensures Lookup(c.SetAll(order, values).Written().sets, a) != Lookup(c.Written().sets, a)
  {
    SetAt(c, order, values, a);
  }

  lemma SameStateWritesSame(c: ContextState, c': ContextState)
    requires forall a :: Lookup(c'.state, a) == Lookup(c.state, a)
    ensures c'.Written() == c.Written()
  {
    forall a
      ensures a in c'.state <==> a in c.state
      ensures a in c.state ==> c'.state[a] == c.state[a]
    {
      assert Lookup(c'.state, a) == Lookup(c.state, a);
    }
    assert c'.Written().sets == c.Written().sets;
    assert c'.Written().deletes == c.Written().deletes;
  }

  /**
   * A set changes what a context has written if and only if it gets to an address
   * that is neither frozen there nor set there to the same value.
   */
  lemma SetWritesExactly(c: ContextState, order: seq<Address>, values: map<Address, Bytes>)
    requires ContextOk(c) && forall b <- order :: b in values
    ensures c.SetAll(order, values).Written() != c.Written() <==>
      exists a <- Authorized(c.writeList, order) :: a in values && !Holds(c, a, values[a])
  {
    if a :| a in Authorized(c.writeList, order) && a in values && !Holds(c, a, values[a]) {
      UnheldIsWritten(c, order, values, a);
    } else {
      forall a
        ensures Lookup(c.SetAll(order, values).state, a) == Lookup(c.state, a)
      {
        SetAt(c, order, values, a);
        HeldIsUnchanged(c, order, values, a);
      }
      SameStateWritesSame(c, c.SetAll(order, values));
    }
  }

  // A frozen context still takes new addresses

  function LateSetRun(root: Root, a: Address, v: Bytes): seq<Event> {
    [DoCreate(root, [], [], [a]), DoSquash(root, [0], false, false)] + [DoSet(0, [(a, v)])]
  }

  lemma CollectsNothing(ws: seq<Writes>, w: Writes)
    requires ws == [w] && w == Writes(map[], {})
    ensures Collect(NoDelta, ws) == NoDelta
  {
    assert Absorb(NoDelta, w) == NoDelta && ws[1..] == [];
  }

  lemma NothingCollected(contexts: ContextMap, c: ContextState, ids: seq<Id>)
    requires contexts == map[0 := c] && c.bases == [] && c.state == map[] && ids == [0]
    ensures SquashTrail(contexts, ids) == Trail(ids, true) && Collected(contexts, ids) == NoDelta
  {
    var none: seq<Id>, written := [], c.Written();
    WalkStartsThere(contexts, 0);
    WalkOnce(GraphOf(contexts), ids, {0}, none, {0});
    assert written == Writes(map[], {});
    CollectsNothing(WrittenBy(contexts, ids), written);
  }

  lemma EmptySquash(root: Root, t: Tree, w: World, c: ContextState, rootOf: Tree -> Root)
    requires w == World(One(map[root := t], c, [], []), None, None) && c.bases == [] && c.state == map[] && !c.readOnly
    ensures var e := DoSquash(root, [0], false, false);
      && Enabled(w, e, rootOf)
      && Next(w, e, rootOf) == World(One(map[root := t], c.(readOnly := true), [], []), None, None)
  {
    var ids: seq<Id> := [0];
    NothingCollected(w.m.contexts, c, ids);
    assert c.Frozen() == c.(readOnly := true);
    assert FreezeAll(w.m.contexts, ids) == map[0 := c.(readOnly := true)];
  }

  lemma SquashesEmpty(root: Root, t: Tree, a: Address, c: ContextState, rootOf: Tree -> Root)
    requires IsFull(a) && c == ContextState(root, [], [a], [], map[], false)
    ensures var events := [DoCreate(root, [], [], [a]), DoSquash(root, [0], false, false)];
      && IsRun(Start(map[root := t]), events, rootOf)
      && After(Start(map[root := t]), events, rootOf)
         == World(One(map[root := t], c.(readOnly := true), [], []), None, None)
  {
    var start, w1 := Start(map[root := t]), World(One(map[root := t], c, [], []), None, None);
    var w2 := World(One(map[root := t], c.(readOnly := true), [], []), None, None);
    FullIsValid(a);
    CreateBare(start, root, [], [], [a], rootOf);
    EmptySquash(root, t, w1, c, rootOf);
    Traces([DoCreate(root, [], [], [a]), DoSquash(root, [0], false, false)], [start, w1, w2], rootOf);
  }

  lemma WritesOne(c: ContextState, a: Address, v: Bytes)
    requires c.state == map[a := Initial(None).WithDirect(v)]
    ensures c.Written() == Writes(map[a := v], {})
  {
  }

  /** A run: a context is squashed, and then takes a set of a new address, which a second squash would collect. */
  lemma LateSetIsTaken(root: Root, t: Tree, a: Address, v: Bytes, rootOf: Tree -> Root)
    requires IsFull(a)
    ensures IsRun(Start(map[root := t]), LateSetRun(root, a, v), rootOf)
    ensures var m := After(Start(map[root := t]), LateSetRun(root, a, v), rootOf).m;
      m.contexts.Keys == {0} && m.contexts[0].readOnly && m.contexts[0].Written() == Writes(map[a := v], {})
  {
    var start, c := Start(map[root := t]), ContextState(root, [], [a], [], map[], false);
    var first, late := [DoCreate(root, [], [], [a]), DoSquash(root, [0], false, false)], DoSet(0, [(a, v)]);
    var w2 := World(One(map[root := t], c.(readOnly := true), [], []), None, None);
    FullIsValid(a);
    SquashesEmpty(root, t, a, c, rootOf);
    SetBare(w2, 0, a, v, rootOf);
    var w3 := Next(w2, late, rootOf);
    WritesOne(w3.m.contexts[0], a, v);
    RunOn(start, first, w2, late, w3, rootOf);
  }
}
