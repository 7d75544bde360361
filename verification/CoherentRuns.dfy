/** Every run of the manager keeps reads coherent, exactly as long as no write comes too late. */
module CoherentRuns {
  import opened Options
  import opened ContextGraph
  import opened Squash
  import opened Contexts
  import opened ManagerSpec
  import opened ManagerRuns
  import opened ReadCoherence
  import opened LateWrites

  /** The context a set or delete would leave behind; the same one if it is refused outright. */
  ghost function Written(c: ContextState, e: Event): ContextState
    requires e.DoSet? || e.DoDelete?
  {
    if e.DoSet? then
      var d := DictOf(e.items);
      if exists a <- d.order :: !AddressIsValid(a) then c else c.SetAll(d.order, d.values)
    else if exists a <- e.addresses :: !AddressIsValid(a) then c else c.DeleteAll(e.addresses)
  }

  /** The event writes over a value that a context built on the written one has taken over. */
  ghost predicate ComesLate(w: World, e: Event) {
    (e.DoSet? || e.DoDelete?) && e.cid in w.m.contexts && Overtakes(w.m, e.cid, Written(w.m.contexts[e.cid], e))
  }

  // One context replaced

  lemma ReplaceKeepsItems(w: World, cid: Id, c': ContextState)
    requires ItemsFaithful(w) && cid in w.m.contexts
    requires c'.root == w.m.contexts[cid].root
    requires forall a <- w.m.contexts[cid].state ::
               a in c'.state && c'.state[a].waitForTree == w.m.contexts[cid].state[a].waitForTree
    ensures ItemsFaithful(w.(m := w.m.(contexts := w.m.contexts[cid := c'])))
  {
    var m' := w.m.(contexts := w.m.contexts[cid := c']);
    forall item | ReadItemFaithful(w.m, item)
      ensures ReadItemFaithful(m', item)
    {
    }
    forall item | InflatedItemFaithful(w.m, item)
      ensures InflatedItemFaithful(m', item)
    {
    }
  }

  lemma ReplaceKeepsFaithful(w: World, cid: Id, c': ContextState)
    requires Coherent(w) && cid in w.m.contexts
    requires ContextStep(w.m.trees[w.m.contexts[cid].root], w.m.contexts[cid], c') && SameWriting(w.m.contexts[cid], c')
    ensures Faithful(w.m.(contexts := w.m.contexts[cid := c']))
    ensures ItemsFaithful(w.(m := w.m.(contexts := w.m.contexts[cid := c'])))
  {
    ReplaceKeepsItems(w, cid, c');
    NotOvertakenStaysFaithful(w.m, w.m.(contexts := w.m.contexts[cid := c']), cid, c');
  }

  // Direct operations leave untouched futures as they were

  /** No untouched future is new or changed, and none stops or starts waiting for the tree. */
  ghost predicate KeepsUntouched(c: ContextState, c': ContextState) {
    && c'.bases == c.bases && c'.root == c.root && c'.readList == c.readList
    && (forall a <- c'.state :: c'.state[a].Untouched() ==> a in c.state && c'.state[a] == c.state[a])
    && (forall a <- c.state :: a in c'.state && c'.state[a].waitForTree == c.state[a].waitForTree)
  }

  lemma {:induction false} SetKeepsUntouched(c: ContextState, order: seq<Address>, values: map<Address, Bytes>)
    requires forall a <- order :: a in values
    ensures KeepsUntouched(c, c.SetAll(order, values))
    decreases |order|
  {
    if order != [] && Covered(c.writeList, order[0]) {
      SetKeepsUntouched(c.With(order[0], c.FutureAt(order[0]).WithDirect(values[order[0]])), order[1..], values);
    }
  }

  lemma {:induction false} DeleteKeepsUntouched(c: ContextState, order: seq<Address>)
    ensures KeepsUntouched(c, c.DeleteAll(order))
    decreases |order|
  {
    if order != [] && Covered(c.writeList, order[0]) {
      DeleteKeepsUntouched(c.With(order[0], c.FutureAt(order[0]).WithDelete()), order[1..]);
    }
  }

  lemma WriteKeepsUntouched(c: ContextState, e: Event)
    requires e.DoSet? || e.DoDelete?
    ensures KeepsUntouched(c, Written(c, e))
  {
    if e.DoSet? {
      SetKeepsUntouched(c, DictOf(e.items).order, DictOf(e.items).values);
    } else {
      DeleteKeepsUntouched(c, e.addresses);
    }
  }

  // Contexts frozen or dropped

  lemma FreezeIsStep(t: Tree, c: ContextState)
    requires c.CanFreeze()
    ensures ContextStep(t, c, c.Frozen()) && SameWriting(c, c.Frozen())
  {
    assert c.Frozen().Written().sets == c.Written().sets;
    assert c.Frozen().Written().deletes == c.Written().deletes;
  }

  lemma FreezeKeepsFaithful(m: ManagerState, ids: seq<Id>, m': ManagerState)
    requires ContextsWf(m) && Faithful(m)
    requires FreezesOrDrops(m, ids, m') && Extends(m.trees, m'.trees) && SquashReady(m.contexts, ids)
    ensures Faithful(m')
  {
    forall id | id in m'.contexts
      ensures SameWriting(m.contexts[id], m'.contexts[id])
      ensures ContextStep(m.trees[m.contexts[id].root], m.contexts[id], m'.contexts[id])
    {
      if m'.contexts[id] != m.contexts[id] {
        FreezeIsStep(m.trees[m.contexts[id].root], m.contexts[id]);
      }
    }
    assert WritesOnly(m.contexts, m'.contexts, {});
    forall id | id in m'.contexts && Chain(m'.contexts, id)
      ensures ContextFaithful(m', id)
    {
      StaysFaithful(m, m', id, {});
    }
  }

  lemma FreezeKeepsItems(w: World, ids: seq<Id>, m': ManagerState)
    requires ItemsFaithful(w) && FreezesOrDrops(w.m, ids, m') && Extends(w.m.trees, m'.trees)
    ensures ItemsFaithful(w.(m := m'))
  {
    forall item | ReadItemFaithful(w.m, item)
      ensures ReadItemFaithful(m', item)
    {
    }
    forall item | InflatedItemFaithful(w.m, item)
      ensures InflatedItemFaithful(m', item)
    {
    }
  }

  lemma SquashKeepsCoherent(w: World, e: Event, rootOf: Tree -> Root)
    requires Coherent(w) && e.DoSquash? && Enabled(w, e, rootOf)
    ensures Coherent(Next(w, e, rootOf))
  {
    var m' := SquashRun(w.m, e.root, e.ids, e.persist, e.cleanUp, rootOf).0;
    SquashEffect(w.m, e.root, e.ids, e.persist, e.cleanUp, rootOf);
    FreezeKeepsFaithful(w.m, e.ids, m');
    FreezeKeepsItems(w, e.ids, m');
    SquashKeepsWf(w, e, rootOf);
  }

  lemma DropKeepsCoherent(w: World, e: Event, rootOf: Tree -> Root)
    requires Coherent(w) && e.DoDeleteContexts? && Enabled(w, e, rootOf)
    ensures Coherent(Next(w, e, rootOf))
  {
    var m' := w.m.(contexts := w.m.contexts - e.removed);
    assert SquashTrail(w.m.contexts, []) == Trail([], true);
    assert FreezesOrDrops(w.m, [], m');
    FreezeKeepsFaithful(w.m, [], m');
    FreezeKeepsItems(w, [], m');
    QueueStepKeepsWf(w, e, rootOf);
  }

  // Writes and deliveries

  /** A set or delete replaces its context and changes nothing else. */
  lemma WriteIsReplacement(w: World, e: Event, rootOf: Tree -> Root)
    requires (e.DoSet? || e.DoDelete?) && e.cid in w.m.contexts
    ensures Enabled(w, e, rootOf)
    ensures Next(w, e, rootOf) == w.(m := w.m.(contexts := w.m.contexts[e.cid := Written(w.m.contexts[e.cid], e)]))
  {
    assert w.m.contexts[e.cid := w.m.contexts[e.cid]] == w.m.contexts;
  }

  lemma WriteIsStep(t: Tree, c: ContextState, e: Event)
    requires e.DoSet? || e.DoDelete?
    ensures ContextStep(t, c, Written(c, e))
  {
    WriteKeepsUntouched(c, e);
  }

  lemma WriteKeepsCoherentExactly(w: World, e: Event, rootOf: Tree -> Root)
    requires Coherent(w) && (e.DoSet? || e.DoDelete?) && Enabled(w, e, rootOf)
    ensures Coherent(Next(w, e, rootOf)) <==> !ComesLate(w, e)
  {
    StepKeepsWf(w, e, rootOf);
    if e.cid in w.m.contexts {
      var c' := Written(w.m.contexts[e.cid], e);
      WriteIsReplacement(w, e, rootOf);
      WriteIsStep(w.m.trees[w.m.contexts[e.cid].root], w.m.contexts[e.cid], e);
      ReplaceKeepsItems(w, e.cid, c');
      if Overtakes(w.m, e.cid, c') {
        OvertakenIsUnfaithful(w.m, Next(w, e, rootOf).m, e.cid, c');
      } else {
        NotOvertakenStaysFaithful(w.m, Next(w, e, rootOf).m, e.cid, c');
      }
    }
  }

  lemma DeliveryIsStep(t: Tree, c: ContextState, a: Address)
    requires forall b <- c.state :: c.state[b].Sound()
    requires a in c.state && c.state[a].waitForTree
    ensures ContextStep(t, c, WithTreeAt(c, a, Lookup(t, a)))
    ensures SameWriting(c, WithTreeAt(c, a, Lookup(t, a)))
  {
    var c' := WithTreeAt(c, a, Lookup(t, a));
    assert c'.Written().sets == c.Written().sets;
    assert c'.Written().deletes == c.Written().deletes;
  }

  lemma DeliveryKeepsCoherent(w: World, e: Event, rootOf: Tree -> Root)
    requires Coherent(w) && e.WriterSet? && Enabled(w, e, rootOf)
    ensures Coherent(Next(w, e, rootOf))
  {
    WriterSetKeepsWf(w, e, rootOf);
    var item := w.writing.value;
    if item.cid in w.m.contexts {
      var c := w.m.contexts[item.cid];
      DeliveryIsStep(w.m.trees[c.root], c, e.a);
      ReplaceKeepsFaithful(w, item.cid, WithTreeAt(c, e.a, item.values[e.a]));
    }
  }

  lemma HandOverKeepsCoherent(w: World, e: Event, rootOf: Tree -> Root)
    requires Coherent(w) && Enabled(w, e, rootOf)
    requires e.ReaderTake? || e.ReaderPut? || e.WriterTake? || e.WriterDone?
    ensures Coherent(Next(w, e, rootOf))
  {
    QueueStepKeepsWf(w, e, rootOf);
    var w' := Next(w, e, rootOf);
    forall item | ReadItemFaithful(w.m, item)
      ensures ReadItemFaithful(w'.m, item)
    {
    }
    forall item | InflatedItemFaithful(w.m, item)
      ensures InflatedItemFaithful(w'.m, item)
    {
    }
    forall id | id in w'.m.contexts && Chain(w'.m.contexts, id)
      ensures ContextFaithful(w'.m, id)
    {
      assert ContextFaithful(w.m, id);
    }
    if e.ReaderTake? {
      assert w.m.addressQueue[0] in w.m.addressQueue;
    } else if e.WriterTake? {
      assert w.m.inflated[0] in w.m.inflated;
    }
  }

  // A new context

  /** What the search found for a new context is what its base shows. */
  lemma NewContextFinds(m: ManagerState, contexts': ContextMap, c: ContextState, found: Found)
    requires Shows(m) && ContextsWf(m) && c.root in m.trees
    requires contexts' == m.contexts[m.nextId := c] && Chain(contexts', m.nextId)
    requires FindReady(m.contexts, c.bases, SetOf(c.bases), Wanted(c.readList))
    requires Find(m.contexts, c.bases, SetOf(c.bases), Wanted(c.readList)) == Some(found)
    ensures var t := m.trees[c.root];
            FoundIsView(found, Wanted(c.readList), t, BaseTree(contexts', t, m.nextId))
  {
    if c.bases != [] {
      var base, t := c.bases[0], m.trees[c.root];
      assert c.bases == [base] && SetOf([base]) == {base};
      assert WritesOnly(m.contexts, contexts', {m.nextId});
      ViewFrame(m.contexts, contexts', t, base, {m.nextId});
      FindOnChain(m, t, base, {base}, Wanted(c.readList));
    }
  }

  /** The new context's futures hold what its base shows, or wait for what the tree holds. */
  lemma NewContextFaithful(m: ManagerState, m': ManagerState, c: ContextState, found: Found)
    requires Faithful(m) && ContextsWf(m) && c.root in m.trees
    requires m'.trees == m.trees && m'.contexts == m.contexts[m.nextId := c]
    requires c == NewContext(c.root, c.bases, c.readList, c.writeList, found)
    requires FindReady(m.contexts, c.bases, SetOf(c.bases), Wanted(c.readList))
    requires Find(m.contexts, c.bases, SetOf(c.bases), Wanted(c.readList)) == Some(found)
    ensures Chain(m'.contexts, m.nextId) ==> ContextFaithful(m', m.nextId)
  {
    if Chain(m'.contexts, m.nextId) {
      FaithfulShows(m);
      NewContextFinds(m, m'.contexts, c, found);
    }
  }

  lemma AddKeepsOthers(m: ManagerState, c: ContextState, m': ManagerState)
    requires Faithful(m) && ContextsWf(m)
    requires forall b <- c.bases :: b < m.nextId
    requires m'.trees == m.trees && m'.contexts == m.contexts[m.nextId := c]
    ensures forall id <- m.contexts :: Chain(m'.contexts, id) ==> ContextFaithful(m', id)
  {
    assert WritesOnly(m.contexts, m'.contexts, {m.nextId});
    forall id | id in m.contexts && Chain(m'.contexts, id)
      ensures ContextFaithful(m', id)
    {
      assert ContextStep(m.trees[m.contexts[id].root], m.contexts[id], m'.contexts[id]);
      StaysFaithful(m, m', id, {m.nextId});
    }
  }

  lemma AddKeepsItems(w: World, c: ContextState, missing: set<Address>)
    requires Wf(w) && ItemsFaithful(w)
    requires NamesPrefetched(c, missing)
    ensures ItemsFaithful(w.(m := WithContext(w.m, c, missing)))
  {
    var m' := WithContext(w.m, c, missing);
    forall item | ReadItemFaithful(w.m, item) && item.cid < w.m.nextId
      ensures ReadItemFaithful(m', item)
    {
    }
    forall item | InflatedItemFaithful(w.m, item) && item.cid < w.m.nextId
      ensures InflatedItemFaithful(m', item)
    {
    }
    forall item | item in w.m.addressQueue
      ensures ReadItemFaithful(m', item)
    {
      assert ReadItemWf(w.m, item);
    }
  }

  lemma CreateKeepsCoherent(w: World, e: Event, rootOf: Tree -> Root)
    requires Coherent(w) && e.DoCreate? && Enabled(w, e, rootOf)
    ensures Coherent(Next(w, e, rootOf))
  {
    CreateKeepsWf(w, e, rootOf);
    if Create(w.m, e.root, e.bases, e.inputs, e.outputs).1.Ok? {
      var found := Find(w.m.contexts, e.bases, SetOf(e.bases), Wanted(e.inputs)).value;
      var c := NewContext(e.root, e.bases, e.inputs, e.outputs, found);
      var m' := WithContext(w.m, c, found.missing);
      AddKeepsItems(w, c, found.missing);
      AddKeepsOthers(w.m, c, m');
      NewContextFaithful(w.m, m', c, found);
    }
  }

  // Steps and runs

  /** Of all steps, exactly the writes that come late break coherence. */
  lemma StepKeepsCoherentExactly(w: World, e: Event, rootOf: Tree -> Root)
    requires Coherent(w) && Enabled(w, e, rootOf)
    ensures Coherent(Next(w, e, rootOf)) <==> !ComesLate(w, e)
  {
    match e
    case DoCreate(_, _, _, _) => CreateKeepsCoherent(w, e, rootOf);
    case DoSet(_, _) => WriteKeepsCoherentExactly(w, e, rootOf);
    case DoDelete(_, _) => WriteKeepsCoherentExactly(w, e, rootOf);
    case DoSquash(_, _, _, _) => SquashKeepsCoherent(w, e, rootOf);
    case DoDeleteContexts(_) => DropKeepsCoherent(w, e, rootOf);
    case WriterSet(_) => DeliveryKeepsCoherent(w, e, rootOf);
    case _ => HandOverKeepsCoherent(w, e, rootOf);
  }

  ghost predicate NeverLate(w: World, events: seq<Event>, rootOf: Tree -> Root)
    requires IsRun(w, events, rootOf)
    decreases |events|
  {
    events == [] || (!ComesLate(w, events[0]) && NeverLate(Next(w, events[0], rootOf), events[1..], rootOf))
  }

  ghost predicate CoherentThroughout(w: World, events: seq<Event>, rootOf: Tree -> Root)
    requires IsRun(w, events, rootOf)
    decreases |events|
  {
    Coherent(w) && (events == [] || CoherentThroughout(Next(w, events[0], rootOf), events[1..], rootOf))
  }

  /** Over every run all futures are faithful at every moment if and only if no write comes late. */
  lemma {:induction false} RunKeepsCoherentExactly(w: World, events: seq<Event>, rootOf: Tree -> Root)
    requires Coherent(w) && IsRun(w, events, rootOf)
    ensures CoherentThroughout(w, events, rootOf) <==> NeverLate(w, events, rootOf)
    ensures NeverLate(w, events, rootOf) ==> Coherent(After(w, events, rootOf))
    decreases |events|
  {
    if events != [] {
      StepKeepsCoherentExactly(w, events[0], rootOf);
      if !ComesLate(w, events[0]) {
        RunKeepsCoherentExactly(Next(w, events[0], rootOf), events[1..], rootOf);
      }
    }
  }

  /** The run writes to no context that another one is based on. */
  ghost predicate LeavesBasesAlone(w: World, events: seq<Event>, rootOf: Tree -> Root)
    requires IsRun(w, events, rootOf)
    decreases |events|
  {
    events == [] ||
    (&& (events[0].DoSet? || events[0].DoDelete? ==>
           forall k <- w.m.contexts :: events[0].cid !in w.m.contexts[k].bases)
     && LeavesBasesAlone(Next(w, events[0], rootOf), events[1..], rootOf))
  }

  lemma {:induction false} ThroughHasChild(contexts: ContextMap, id: Id, cid: Id, a: Address)
    requires Chain(contexts, id) && Through(contexts, id, cid, a)
    ensures exists k :: k in contexts && cid in contexts[k].bases
    decreases id
  {
    var base := contexts[id].bases[0];
    if base != cid {
      ThroughHasChild(contexts, base, cid, a);
    }
  }

  /** A run that leaves bases alone never writes late. */
  lemma {:induction false} BasesAloneNeverLate(w: World, events: seq<Event>, rootOf: Tree -> Root)
    requires IsRun(w, events, rootOf) && LeavesBasesAlone(w, events, rootOf)
    ensures NeverLate(w, events, rootOf)
    decreases |events|
  {
    if events != [] {
      if ComesLate(w, events[0]) {
        var c' := Written(w.m.contexts[events[0].cid], events[0]);
        var id, a :| OvertakesAt(w.m, events[0].cid, c', id, a);
        ThroughHasChild(w.m.contexts, id, events[0].cid, a);
      }
      BasesAloneNeverLate(Next(w, events[0], rootOf), events[1..], rootOf);
    }
  }

  /**
   * Read coherence over every run without late writes, in particular every run
   * that no longer writes bases: a read of authorised addresses agrees with
   * squashing the reading context onto its root, except exactly at stale addresses.
   */
  lemma ReadsAgreeWithSquash(trees: map<Root, Tree>, events: seq<Event>, rootOf: Tree -> Root, id: Id,
                             addresses: set<Address>)
    requires IsRun(Start(trees), events, rootOf) && NeverLate(Start(trees), events, rootOf)
    requires var m := After(Start(trees), events, rootOf).m;
             && Chain(m.contexts, id) && GetReady(m, id, addresses)
             && forall a <- addresses :: AddressIsValid(a) && Covered(m.contexts[id].readList, a)
    ensures var m := After(Start(trees), events, rootOf).m;
            && m.contexts[id].root in m.trees
            && Get(m, id, addresses).Ok? && Get(m, id, addresses).value.Keys == addresses
            && var squashed := SquashedOnto(m.trees[m.contexts[id].root], m.contexts, [id]);
               forall a <- addresses ::
                 Get(m, id, addresses).value[a] == Lookup(squashed, a) <==> !Stale(m.contexts[id], a)
  {
    RunKeepsCoherentExactly(Start(trees), events, rootOf);
    FaithfulShows(After(Start(trees), events, rootOf).m);
    GetAgreesExactly(After(Start(trees), events, rootOf).m, id, addresses);
  }
}
