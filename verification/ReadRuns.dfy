/** Exactly which steps of a run make a read disagree with squash. */
module ReadRuns {
  import opened Options
  import opened ContextGraph
  import opened Squash
  import opened Contexts
  import opened ManagerSpec
  import opened ManagerRuns
  import opened PrefetchRuns
  import opened ReadCoherence
  import opened LateWrites
  import opened CoherentRuns

  // Untouched futures come from inputs only

  /** A namespace as long as an address is an address. */
  lemma FullNamespaceIsAddress(a: Address)
    requires |a| == 70 && NamespaceIsValid(a)
    ensures AddressIsValid(a)
  {
    if BeforeNewline(a) != a {
      assert |BeforeNewline(a)| == 69;
    }
  }

  lemma {:induction false} FindWithin(contexts: ContextMap, queue: seq<Id>, seen: set<Id>, asked: set<Address>)
    ensures Find(contexts, queue, seen, asked).Some? ==>
      var found := Find(contexts, queue, seen, asked).value;
      found.values.Keys <= asked && found.missing <= asked
    decreases |Mentioned(GraphOf(contexts)) - seen| + |queue|
  {
    if asked != {} && queue != [] && queue[0] in contexts {
      WalkShrinks(GraphOf(contexts), queue[0], seen);
      var c := contexts[queue[0]];
      var unseen := NewBases(c.bases, seen);
      FindWithin(contexts, queue[1..] + unseen, seen + SetOf(unseen), asked - c.Hits(asked).Keys);
    }
  }

  lemma NewContextReadable(root: Root, bases: seq<Id>, inputs: seq<string>, outputs: seq<string>, found: Found)
    requires forall s <- inputs :: NamespaceIsValid(s)
    requires found.values.Keys <= Wanted(inputs) && found.missing <= Wanted(inputs)
    ensures ReadableIn(NewContext(root, bases, inputs, outputs, found))
  {
    var c := NewContext(root, bases, inputs, outputs, found);
    forall a | a in c.state
      ensures AddressIsValid(a) && Covered(c.readList, a)
    {
      assert a in Wanted(inputs) && a <= a;
      FullNamespaceIsAddress(a);
    }
  }

  lemma CreateKeepsReadable(w: World, e: Event, rootOf: Tree -> Root)
    requires Readable(w.m) && e.DoCreate? && Enabled(w, e, rootOf)
    ensures Readable(Next(w, e, rootOf).m)
  {
    if Create(w.m, e.root, e.bases, e.inputs, e.outputs).1.Ok? {
      FindWithin(w.m.contexts, e.bases, SetOf(e.bases), Wanted(e.inputs));
      var found := Find(w.m.contexts, e.bases, SetOf(e.bases), Wanted(e.inputs)).value;
      forall s | s in e.inputs
        ensures NamespaceIsValid(s)
      {
        assert s in e.inputs + e.outputs;
      }
      NewContextReadable(e.root, e.bases, e.inputs, e.outputs, found);
    }
  }

  lemma FreezeKeepsReadable(m: ManagerState, ids: seq<Id>, m': ManagerState)
    requires Readable(m) && FreezesOrDrops(m, ids, m')
    ensures Readable(m')
  {
    forall id | id in m'.contexts
      ensures ReadableIn(m'.contexts[id])
    {
      assert ReadableIn(m.contexts[id]);
    }
  }

  lemma OneKeepsReadable(m: ManagerState, cid: Id, c': ContextState)
    requires Readable(m) && cid in m.contexts && c'.readList == m.contexts[cid].readList
    requires forall a <- c'.state :: c'.state[a].Untouched() ==>
      a in m.contexts[cid].state && m.contexts[cid].state[a].Untouched()
    ensures Readable(m.(contexts := m.contexts[cid := c']))
  {
    assert ReadableIn(m.contexts[cid]);
  }

  lemma WriteKeepsReadable(w: World, e: Event, rootOf: Tree -> Root)
    requires Readable(w.m) && (e.DoSet? || e.DoDelete?) && Enabled(w, e, rootOf)
    ensures Readable(Next(w, e, rootOf).m)
  {
    if e.cid in w.m.contexts {
      WriteIsReplacement(w, e, rootOf);
      WriteKeepsUntouched(w.m.contexts[e.cid], e);
      OneKeepsReadable(w.m, e.cid, Written(w.m.contexts[e.cid], e));
    }
  }

  /** In every reachable state untouched futures are of addresses that may be read. */
  lemma StepKeepsReadable(w: World, e: Event, rootOf: Tree -> Root)
    requires Readable(w.m) && Enabled(w, e, rootOf)
    ensures Readable(Next(w, e, rootOf).m)
  {
    match e
    case DoCreate(_, _, _, _) => CreateKeepsReadable(w, e, rootOf);
    case DoSquash(root, ids, persist, cleanUp) =>
      SquashEffect(w.m, root, ids, persist, cleanUp, rootOf);
      FreezeKeepsReadable(w.m, ids, Next(w, e, rootOf).m);
    case WriterSet(a) =>
      var item := w.writing.value;
      if item.cid in w.m.contexts {
        OneKeepsReadable(w.m, item.cid, WithTreeAt(w.m.contexts[item.cid], a, item.values[a]));
      }
    case DoSet(_, _) => WriteKeepsReadable(w, e, rootOf);
    case DoDelete(_, _) => WriteKeepsReadable(w, e, rootOf);
    case _ =>
  }

  // Reads agree exactly if what can be read is right

  /** The read answers all addresses, and agrees with squash at those that are not stale. */
  ghost predicate ReadAgrees(m: ManagerState, id: Id, addresses: set<Address>)
    requires Chain(m.contexts, id) && m.contexts[id].root in m.trees
  {
    var r := Get(m, id, addresses);
    && r.Ok? && r.value.Keys == addresses
    && var squashed := SquashedOnto(m.trees[m.contexts[id].root], m.contexts, [id]);
       forall a <- addresses :: r.value[a] == Lookup(squashed, a) <==> !Stale(m.contexts[id], a)
  }

  /** The read is authorised and waits for nothing. */
  ghost predicate CanRead(m: ManagerState, id: Id, addresses: set<Address>) {
    && Chain(m.contexts, id) && m.contexts[id].root in m.trees && GetReady(m, id, addresses)
    && forall a <- addresses :: AddressIsValid(a) && Covered(m.contexts[id].readList, a)
  }

  ghost predicate ReadsAgree(m: ManagerState) {
    forall id, addresses :: CanRead(m, id, addresses) ==> ReadAgrees(m, id, addresses)
  }

  lemma HeldCanBeRead(m: ManagerState, id: Id, a: Address)
    requires Readable(m) && Chain(m.contexts, id) && m.contexts[id].root in m.trees
    requires a in m.contexts[id].state && m.contexts[id].state[a].Untouched() && m.contexts[id].state[a].Ready()
    ensures CanRead(m, id, {a}) && Get(m, id, {a}) == Ok(map[a := m.contexts[id].state[a].result])
  {
    assert ReadableIn(m.contexts[id]) && {a} - m.contexts[id].state.Keys == {};
    ReadsHeld(m, id, a);
  }

  lemma ReadIsShown(m: ManagerState, id: Id, a: Address)
    requires ReadsAgree(m) && Readable(m) && Chain(m.contexts, id) && m.contexts[id].root in m.trees
    requires a in m.contexts[id].state
    ensures FutureShows(m.contexts, m.trees[m.contexts[id].root], id, a)
  {
    if m.contexts[id].state[a].Untouched() && m.contexts[id].state[a].Ready() {
      HeldCanBeRead(m, id, a);
      assert ReadAgrees(m, id, {a});
      SquashOfChain(m.contexts, m.trees[m.contexts[id].root], id);
    }
  }

  lemma ReadsAgreeExactly(m: ManagerState)
    requires ContextsWf(m) && Readable(m)
    ensures ReadsAgree(m) <==> Shows(m)
  {
    if Shows(m) {
      forall id, addresses | CanRead(m, id, addresses)
        ensures ReadAgrees(m, id, addresses)
      {
        GetAgreesExactly(m, id, addresses);
      }
    }
    if ReadsAgree(m) {
      forall id | id in m.contexts && Chain(m.contexts, id)
        ensures ContextShows(m, id)
      {
        forall a | a in m.contexts[id].state
          ensures FutureShows(m.contexts, m.trees[m.contexts[id].root], id, a)
        {
          ReadIsShown(m, id, a);
        }
      }
    }
  }

  // Which steps spoil a read

  /** The write overtakes a value that can be read. */
  ghost predicate SpoilsByWriting(w: World, e: Event)
    requires e.DoSet? || e.DoDelete?
  {
    && e.cid in w.m.contexts
    && exists id, a ::
         OvertakesAt(w.m, e.cid, Written(w.m.contexts[e.cid], e), id, a) && w.m.contexts[id].state[a].Ready()
  }

  /** The delivery brings a value that is no longer what the context's base shows. */
  ghost predicate SpoilsByDelivery(m: ManagerState, cid: Id, a: Address, v: Option<Bytes>) {
    && Chain(m.contexts, cid) && m.contexts[cid].root in m.trees && a in m.contexts[cid].state
    && m.contexts[cid].state[a].Untouched() && !m.contexts[cid].state[a].readOnly
    && v != Lookup(BaseTree(m.contexts, m.trees[m.contexts[cid].root], cid), a)
  }

  ghost predicate Spoils(w: World, e: Event) {
    || ((e.DoSet? || e.DoDelete?) && SpoilsByWriting(w, e))
    || (e.WriterSet? && w.writing.Some? && e.a in w.writing.value.values
        && SpoilsByDelivery(w.m, w.writing.value.cid, e.a, w.writing.value.values[e.a]))
  }

  /** What can be read of the new context could be read of the old, with the same value. */
  ghost predicate ShownStep(c: ContextState, c': ContextState) {
    && c'.bases == c.bases && c'.root == c.root
    && forall a <- c'.state :: c'.state[a].Untouched() && c'.state[a].Ready() ==>
         a in c.state && c.state[a].Untouched() && c.state[a].Ready() && c.state[a].result == c'.state[a].result
  }

  lemma StaysShown(m: ManagerState, m': ManagerState, id: Id, skip: set<Id>)
    requires Shows(m) && Extends(m.trees, m'.trees) && WritesOnly(m.contexts, m'.contexts, skip)
    requires id in m.contexts && m.contexts[id].root in m.trees && Chain(m'.contexts, id)
    requires ShownStep(m.contexts[id], m'.contexts[id])
    ensures ContextShows(m', id)
  {
    var t := m.trees[m.contexts[id].root];
    BaseFrame(m.contexts, m'.contexts, t, id, skip);
    assert ContextShows(m, id);
    forall a | a in m'.contexts[id].state
      ensures FutureShows(m'.contexts, t, id, a)
    {
      if m'.contexts[id].state[a].Untouched() && m'.contexts[id].state[a].Ready() {
        assert FutureShows(m.contexts, t, id, a);
      }
    }
  }

  lemma FreezeKeepsShown(m: ManagerState, ids: seq<Id>, m': ManagerState)
    requires ContextsWf(m) && Shows(m)
    requires FreezesOrDrops(m, ids, m') && Extends(m.trees, m'.trees) && SquashReady(m.contexts, ids)
    ensures Shows(m')
  {
    forall id | id in m'.contexts
      ensures SameWriting(m.contexts[id], m'.contexts[id]) && ShownStep(m.contexts[id], m'.contexts[id])
    {
      if m'.contexts[id] != m.contexts[id] {
        FreezeIsStep(map[], m.contexts[id]);
      }
    }
    assert WritesOnly(m.contexts, m'.contexts, {});
    forall id | id in m'.contexts && Chain(m'.contexts, id)
      ensures ContextShows(m', id)
    {
      StaysShown(m, m', id, {});
    }
  }

  lemma SquashKeepsShown(w: World, e: Event, rootOf: Tree -> Root)
    requires Wf(w) && Shows(w.m) && e.DoSquash? && Enabled(w, e, rootOf)
    ensures Shows(Next(w, e, rootOf).m)
  {
    SquashEffect(w.m, e.root, e.ids, e.persist, e.cleanUp, rootOf);
    FreezeKeepsShown(w.m, e.ids, Next(w, e, rootOf).m);
  }

  lemma DropKeepsShown(w: World, e: Event, rootOf: Tree -> Root)
    requires Wf(w) && Shows(w.m) && e.DoDeleteContexts? && Enabled(w, e, rootOf)
    ensures Shows(Next(w, e, rootOf).m)
  {
    assert SquashTrail(w.m.contexts, []) == Trail([], true);
    FreezeKeepsShown(w.m, [], Next(w, e, rootOf).m);
  }

  lemma CreateKeepsShown(w: World, e: Event, rootOf: Tree -> Root)
    requires Wf(w) && Shows(w.m) && e.DoCreate? && Enabled(w, e, rootOf)
    ensures Shows(Next(w, e, rootOf).m)
  {
    if Create(w.m, e.root, e.bases, e.inputs, e.outputs).1.Ok? {
      var found := Find(w.m.contexts, e.bases, SetOf(e.bases), Wanted(e.inputs)).value;
      var c := NewContext(e.root, e.bases, e.inputs, e.outputs, found);
      AddKeepsShown(w.m, Next(w, e, rootOf).m, c, found);
    }
  }

  lemma AddKeepsShown(m: ManagerState, m': ManagerState, c: ContextState, found: Found)
    requires Shows(m) && ContextsWf(m) && c.root in m.trees && forall b <- c.bases :: b < m.nextId
    requires m'.trees == m.trees && m'.contexts == m.contexts[m.nextId := c]
    requires c == NewContext(c.root, c.bases, c.readList, c.writeList, found)
    requires FindReady(m.contexts, c.bases, SetOf(c.bases), Wanted(c.readList))
    requires Find(m.contexts, c.bases, SetOf(c.bases), Wanted(c.readList)) == Some(found)
    ensures Shows(m')
  {
    assert WritesOnly(m.contexts, m'.contexts, {m.nextId});
    forall id | id in m'.contexts && Chain(m'.contexts, id)
      ensures ContextShows(m', id)
    {
      if id == m.nextId {
        NewContextFinds(m, m'.contexts, c, found);
      } else {
        StaysShown(m, m', id, {m.nextId});
      }
    }
  }

  // Replacing one context

  /** Another context's future is right exactly if it cannot be read or is not overtaken. */
  lemma OtherShownExactly(m: ManagerState, m': ManagerState, cid: Id, c': ContextState, id: Id, a: Address)
    requires cid in m.contexts && c'.bases == m.contexts[cid].bases && c'.root == m.contexts[cid].root
    requires m' == m.(contexts := m.contexts[cid := c']) && id != cid
    requires Chain(m.contexts, id) && Chain(m'.contexts, id)
    requires m.contexts[id].root in m.trees && a in m.contexts[id].state
    requires FutureShows(m.contexts, m.trees[m.contexts[id].root], id, a)
    ensures FutureShows(m'.contexts, m.trees[m.contexts[id].root], id, a) <==>
      !(OvertakesAt(m, cid, c', id, a) && m.contexts[id].state[a].Ready())
  {
    var t := m.trees[m.contexts[id].root];
    if Through(m.contexts, id, cid, a) {
      ThroughIsBelow(m.contexts, t, id, cid, a);
      BaseShown(m.contexts, m'.contexts, t, cid, c', id, a);
    } else {
      BaseKept(m.contexts, m'.contexts, t, cid, c', id, a);
    }
  }

  lemma OwnStaysShown(m: ManagerState, m': ManagerState, cid: Id, c': ContextState, a: Address)
    requires cid in m.contexts && m' == m.(contexts := m.contexts[cid := c']) && KeepsUntouched(m.contexts[cid], c')
    requires Chain(m.contexts, cid) && Chain(m'.contexts, cid) && ContextShows(m, cid) && a in c'.state
    ensures FutureShows(m'.contexts, m.trees[m.contexts[cid].root], cid, a)
  {
    var t := m.trees[m.contexts[cid].root];
    NotThroughItself(m.contexts, cid, a);
    BaseKept(m.contexts, m'.contexts, t, cid, c', cid, a);
    if c'.state[a].Untouched() {
      assert FutureShows(m.contexts, t, cid, a);
    }
  }

  lemma UnspoiltStaysShown(m: ManagerState, m': ManagerState, cid: Id, c': ContextState)
    requires Shows(m) && cid in m.contexts && KeepsUntouched(m.contexts[cid], c')
    requires m' == m.(contexts := m.contexts[cid := c'])
    requires forall id, a :: OvertakesAt(m, cid, c', id, a) ==> !m.contexts[id].state[a].Ready()
    ensures Shows(m')
  {
    forall id | id in m'.contexts && Chain(m'.contexts, id)
      ensures ContextShows(m', id)
    {
      ReplaceKeepsChain(m.contexts, cid, c', id);
      assert ContextShows(m, id);
      forall a | a in m'.contexts[id].state
        ensures FutureShows(m'.contexts, m.trees[m.contexts[id].root], id, a)
      {
        if id == cid {
          OwnStaysShown(m, m', cid, c', a);
        } else {
          OtherShownExactly(m, m', cid, c', id, a);
        }
      }
    }
  }

  lemma SpoiltIsNotShown(m: ManagerState, m': ManagerState, cid: Id, c': ContextState, id: Id, a: Address)
    requires Shows(m) && OvertakesAt(m, cid, c', id, a) && m.contexts[id].state[a].Ready()
    requires c'.bases == m.contexts[cid].bases && c'.root == m.contexts[cid].root
    requires m' == m.(contexts := m.contexts[cid := c'])
    ensures !Shows(m')
  {
    ThroughIsBelow(m.contexts, map[], id, cid, a);
    ReplaceKeepsChain(m.contexts, cid, c', id);
    assert ContextShows(m, id);
    OtherShownExactly(m, m', cid, c', id, a);
    assert !ContextShows(m', id);
  }

  lemma WriteShownExactly(w: World, e: Event, rootOf: Tree -> Root)
    requires Shows(w.m) && (e.DoSet? || e.DoDelete?) && Enabled(w, e, rootOf)
    ensures Shows(Next(w, e, rootOf).m) <==> !SpoilsByWriting(w, e)
  {
    if e.cid in w.m.contexts {
      var c' := Written(w.m.contexts[e.cid], e);
      var m' := w.m.(contexts := w.m.contexts[e.cid := c']);
      WriteIsReplacement(w, e, rootOf);
      WriteKeepsUntouched(w.m.contexts[e.cid], e);
      if SpoilsByWriting(w, e) {
        var id, a :| OvertakesAt(w.m, e.cid, c', id, a) && w.m.contexts[id].state[a].Ready();
        SpoiltIsNotShown(w.m, m', e.cid, c', id, a);
      } else {
        UnspoiltStaysShown(w.m, m', e.cid, c');
      }
    }
  }

  // Deliveries

  lemma DeliveryWritesNothing(c: ContextState, a: Address, v: Option<Bytes>)
    ensures SameWriting(c, WithTreeAt(c, a, v))
  {
    assert WithTreeAt(c, a, v).Written().sets == c.Written().sets;
    assert WithTreeAt(c, a, v).Written().deletes == c.Written().deletes;
  }

  lemma DeliveryShownAt(m: ManagerState, m': ManagerState, cid: Id, a: Address, v: Option<Bytes>, b: Address)
    requires Shows(m) && Chain(m.contexts, cid) && Chain(m'.contexts, cid) && b in m.contexts[cid].state
    requires m' == m.(contexts := m.contexts[cid := WithTreeAt(m.contexts[cid], a, v)])
    ensures m.contexts[cid].root in m.trees && b in m'.contexts[cid].state
    ensures FutureShows(m'.contexts, m.trees[m.contexts[cid].root], cid, b)
       <==> !(a == b && SpoilsByDelivery(m, cid, a, v))
  {
    assert ContextShows(m, cid);
    var t := m.trees[m.contexts[cid].root];
    NotThroughItself(m.contexts, cid, b);
    BaseKept(m.contexts, m'.contexts, t, cid, m'.contexts[cid], cid, b);
    assert FutureShows(m.contexts, t, cid, b);
  }

  lemma DeliveryShownExactly(m: ManagerState, m': ManagerState, cid: Id, a: Address, v: Option<Bytes>)
    requires Shows(m) && ContextsWf(m) && cid in m.contexts
    requires m' == m.(contexts := m.contexts[cid := WithTreeAt(m.contexts[cid], a, v)])
    ensures Shows(m') <==> !SpoilsByDelivery(m, cid, a, v)
  {
    DeliveryWritesNothing(m.contexts[cid], a, v);
    assert WritesOnly(m.contexts, m'.contexts, {});
    if SpoilsByDelivery(m, cid, a, v) {
      ReplaceKeepsChain(m.contexts, cid, m'.contexts[cid], cid);
      DeliveryShownAt(m, m', cid, a, v, a);
      assert !ContextShows(m', cid);
    } else {
      forall id | id in m'.contexts && Chain(m'.contexts, id)
        ensures ContextShows(m', id)
      {
        if id == cid {
          ReplaceKeepsChain(m.contexts, cid, m'.contexts[cid], cid);
          forall b | b in m'.contexts[cid].state
            ensures FutureShows(m'.contexts, m.trees[m.contexts[cid].root], cid, b)
          {
            DeliveryShownAt(m, m', cid, a, v, b);
          }
        } else {
          StaysShown(m, m', id, {});
        }
      }
    }
  }

  // Steps and runs

  lemma SameContextsShown(m: ManagerState, m': ManagerState)
    requires Shows(m) && m'.contexts == m.contexts && m'.trees == m.trees
    ensures Shows(m')
  {
    forall id | id in m'.contexts && Chain(m'.contexts, id)
      ensures ContextShows(m', id)
    {
      assert ContextShows(m, id);
    }
  }

  lemma StepShownExactly(w: World, e: Event, rootOf: Tree -> Root)
    requires Wf(w) && Shows(w.m) && Enabled(w, e, rootOf)
    ensures Shows(Next(w, e, rootOf).m) <==> !Spoils(w, e)
  {
    match e
    case DoCreate(_, _, _, _) => CreateKeepsShown(w, e, rootOf);
    case DoSet(_, _) => WriteShownExactly(w, e, rootOf);
    case DoDelete(_, _) => WriteShownExactly(w, e, rootOf);
    case DoSquash(_, _, _, _) => SquashKeepsShown(w, e, rootOf);
    case DoDeleteContexts(_) => DropKeepsShown(w, e, rootOf);
    case WriterSet(a) =>
      var item := w.writing.value;
      if item.cid in w.m.contexts {
        DeliveryShownExactly(w.m, Next(w, e, rootOf).m, item.cid, a, item.values[a]);
      }
    case _ => SameContextsShown(w.m, Next(w, e, rootOf).m);
  }

  ghost predicate NeverSpoils(w: World, events: seq<Event>, rootOf: Tree -> Root)
    requires IsRun(w, events, rootOf)
    decreases |events|
  {
    events == [] || (!Spoils(w, events[0]) && NeverSpoils(Next(w, events[0], rootOf), events[1..], rootOf))
  }

  ghost predicate ReadsAgreeThroughout(w: World, events: seq<Event>, rootOf: Tree -> Root)
    requires IsRun(w, events, rootOf)
    decreases |events|
  {
    ReadsAgree(w.m) && (events == [] || ReadsAgreeThroughout(Next(w, events[0], rootOf), events[1..], rootOf))
  }

  lemma {:induction false} RunReadsExactlyFrom(w: World, events: seq<Event>, rootOf: Tree -> Root)
    requires Wf(w) && Readable(w.m) && Shows(w.m) && IsRun(w, events, rootOf)
    ensures ReadsAgreeThroughout(w, events, rootOf) <==> NeverSpoils(w, events, rootOf)
    decreases |events|
  {
    ReadsAgreeExactly(w.m);
    if events != [] {
      var w' := Next(w, events[0], rootOf);
      StepKeepsWf(w, events[0], rootOf);
      StepKeepsReadable(w, events[0], rootOf);
      StepShownExactly(w, events[0], rootOf);
      ReadsAgreeExactly(w'.m);
      if Shows(w'.m) {
        RunReadsExactlyFrom(w', events[1..], rootOf);
      }
    }
  }

  /**
   * Over every run from the start, every authorised read that need not wait
   * agrees with squashing its context, except at stale addresses, at every
   * moment, if and only if no step spoils a read: no write overtakes a value that
   * can be read, and no delivery brings a value the base no longer shows.
   */
  lemma RunReadsExactly(trees: map<Root, Tree>, events: seq<Event>, rootOf: Tree -> Root)
    requires IsRun(Start(trees), events, rootOf)
    ensures ReadsAgreeThroughout(Start(trees), events, rootOf) <==> NeverSpoils(Start(trees), events, rootOf)
  {
    RunReadsExactlyFrom(Start(trees), events, rootOf);
  }

  // Late writes and spoilt reads

  lemma FaithfulDelivery(w: World, item: InflatedItem, a: Address)
    requires Coherent(w) && w.writing == Some(item) && a in item.values
    ensures !SpoilsByDelivery(w.m, item.cid, a, item.values[a])
  {
    if item.cid in w.m.contexts && Chain(w.m.contexts, item.cid) {
      assert InflatedItemFaithful(w.m, item) && ContextFaithful(w.m, item.cid);
      assert FutureFaithful(w.m.contexts, w.m.trees[w.m.contexts[item.cid].root], item.cid, a);
    }
  }

  /** Where all futures and items are faithful, only a late write spoils a read. */
  lemma OnlyLateSpoils(w: World, e: Event, rootOf: Tree -> Root)
    requires Coherent(w) && Enabled(w, e, rootOf)
    ensures Spoils(w, e) ==> ComesLate(w, e)
  {
    if e.WriterSet? {
      FaithfulDelivery(w, w.writing.value, e.a);
    }
  }

  /** Where moreover nobody waits, a write makes some read disagree if and only if it comes late. */
  lemma WriteReadsExactly(w: World, e: Event, rootOf: Tree -> Root)
    requires Coherent(w) && Readable(w.m) && NobodyWaits(w) && (e.DoSet? || e.DoDelete?) && Enabled(w, e, rootOf)
    ensures ReadsAgree(Next(w, e, rootOf).m) <==> !ComesLate(w, e)
  {
    FaithfulShows(w.m);
    StepKeepsWf(w, e, rootOf);
    StepKeepsReadable(w, e, rootOf);
    WriteShownExactly(w, e, rootOf);
    ReadsAgreeExactly(Next(w, e, rootOf).m);
    if ComesLate(w, e) {
      var c' := Written(w.m.contexts[e.cid], e);
      var id, a :| OvertakesAt(w.m, e.cid, c', id, a);
      assert w.m.contexts[id].state[a].Ready();
    }
  }

  /** A run without late writes spoils no read. */
  lemma {:induction false} NeverLateNeverSpoils(w: World, events: seq<Event>, rootOf: Tree -> Root)
    requires Coherent(w) && IsRun(w, events, rootOf) && NeverLate(w, events, rootOf)
    ensures NeverSpoils(w, events, rootOf)
    decreases |events|
  {
    if events != [] {
      StepKeepsCoherentExactly(w, events[0], rootOf);
      OnlyLateSpoils(w, events[0], rootOf);
      NeverLateNeverSpoils(Next(w, events[0], rootOf), events[1..], rootOf);
    }
  }
}
