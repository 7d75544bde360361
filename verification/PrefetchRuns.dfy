/** No prefetch is lost: every future that waits for the tree has its answer under way. */
module PrefetchRuns {
  import opened Options
  import opened Futures
  import opened ContextGraph
  import opened Squash
  import opened Contexts
  import opened ManagerSpec
  import opened ManagerRuns
  import opened DirectWrites

  /** A reader of this future would wait. */
  predicate Waiting(f: FutureState) {
    f.Blocked() && !f.readOnly
  }

  predicate ReadNames(item: ReadItem, cid: Id, a: Address) {
    item.cid == cid && a in item.addresses
  }

  predicate InflatedNames(item: InflatedItem, cid: Id, a: Address) {
    item.cid == cid && a in item.values
  }

  /** A delivery to this address of this context is queued or in a thread's hands. */
  ghost predicate Pending(w: World, cid: Id, a: Address) {
    || (exists item <- w.m.addressQueue :: ReadNames(item, cid, a))
    || (w.reading.Some? && ReadNames(w.reading.value, cid, a))
    || (exists item <- w.m.inflated :: InflatedNames(item, cid, a))
    || (w.writing.Some? && InflatedNames(w.writing.value, cid, a))
  }

  ghost predicate NoneLostIn(w: World, cid: Id, c: ContextState) {
    forall a <- c.state :: Waiting(c.state[a]) ==> Pending(w, cid, a)
  }

  ghost predicate NoneLost(w: World) {
    forall cid <- w.m.contexts :: NoneLostIn(w, cid, w.m.contexts[cid])
  }

  /**
   * Deleting here takes away a directly set value after the tree's own answer
   * was dropped, and no further answer is due.
   */
  ghost predicate Strands(w: World, cid: Id, a: Address) {
    && cid in w.m.contexts && a in w.m.contexts[cid].state
    && var f := w.m.contexts[cid].state[a];
       f.waitForTree && f.setInContext && !f.treeHasSet && !f.readOnly && !Pending(w, cid, a)
  }

  ghost predicate Orphans(w: World, e: Event) {
    && e.DoDelete? && e.cid in w.m.contexts
    && (forall a <- e.addresses :: AddressIsValid(a))
    && exists a <- Authorized(w.m.contexts[e.cid].writeList, e.addresses) :: Strands(w, e.cid, a)
  }

  // What the direct operations do to one future

  lemma {:induction false} SetNeverWaits(c: ContextState, order: seq<Address>, values: map<Address, Bytes>, a: Address)
    requires forall b <- order :: b in values
    requires a in c.SetAll(order, values).state && Waiting(c.SetAll(order, values).state[a])
    ensures a in c.state && Waiting(c.state[a])
    decreases |order|
  {
    if order != [] && Covered(c.writeList, order[0]) {
      SetNeverWaits(c.With(order[0], c.FutureAt(order[0]).WithDirect(values[order[0]])), order[1..], values, a);
    }
  }

  // Each kind of step

  /** Queues that only lose items for unregistered contexts keep every promise that matters. */
  ghost predicate KeepsPending(w: World, w': World) {
    forall cid, a {:trigger Pending(w, cid, a)} :: cid in w'.m.contexts && Pending(w, cid, a) ==> Pending(w', cid, a)
  }

  lemma CreateKeepsNone(w: World, e: Event, rootOf: Tree -> Root)
    requires Wf(w) && NoneLost(w) && e.DoCreate? && Enabled(w, e, rootOf)
    ensures NoneLost(Next(w, e, rootOf))
  {
    var w' := Next(w, e, rootOf);
    if Create(w.m, e.root, e.bases, e.inputs, e.outputs).1.Ok? {
      var found := Find(w.m.contexts, e.bases, SetOf(e.bases), Wanted(e.inputs)).value;
      if found.missing != {} {
        var item := ReadItem(w.m.nextId, e.root, found.missing);
        assert w'.m.addressQueue == w.m.addressQueue + [item];
        assert item in w'.m.addressQueue;
        assert forall a <- found.missing :: ReadNames(item, w.m.nextId, a);
      }
      assert forall item <- w.m.addressQueue :: item in w'.m.addressQueue;
      assert KeepsPending(w, w');
    }
  }

  lemma SetKeepsNone(w: World, e: Event, rootOf: Tree -> Root)
    requires NoneLost(w) && e.DoSet? && Enabled(w, e, rootOf)
    ensures NoneLost(Next(w, e, rootOf))
  {
    var w', d := Next(w, e, rootOf), DictOf(e.items);
    assert KeepsPending(w, w');
    if e.cid in w.m.contexts && w' != w {
      var c := w.m.contexts[e.cid];
      forall a | a in c.SetAll(d.order, d.values).state && Waiting(c.SetAll(d.order, d.values).state[a])
        ensures Pending(w', e.cid, a)
      {
        SetNeverWaits(c, d.order, d.values, a);
        assert NoneLostIn(w, e.cid, c);
      }
    }
  }

  lemma DeleteKeepsNone(w: World, e: Event, rootOf: Tree -> Root)
    requires NoneLost(w) && e.DoDelete? && Enabled(w, e, rootOf)
    ensures NoneLost(Next(w, e, rootOf)) <==> !Orphans(w, e)
  {
    var w' := Next(w, e, rootOf);
    assert forall cid, a :: Pending(w', cid, a) <==> Pending(w, cid, a);
    if e.cid in w.m.contexts && forall a <- e.addresses :: AddressIsValid(a) {
      var c := w.m.contexts[e.cid];
      assert NoneLostIn(w, e.cid, c);
      forall a
        ensures var c' := c.DeleteAll(e.addresses);
          (a in c'.state && Waiting(c'.state[a]) && !Pending(w, e.cid, a))
          <==> (a in Authorized(c.writeList, e.addresses) && Strands(w, e.cid, a))
      {
        DeleteAt(c, e.addresses, a);
      }
      assert w'.m.contexts[e.cid] == c.DeleteAll(e.addresses);
    }
  }

  lemma FreezeKeepsNone(w: World, ids: seq<Id>, m': ManagerState)
    requires NoneLost(w) && FreezesOrDrops(w.m, ids, m') && SquashReady(w.m.contexts, ids)
    requires forall id <- w.m.contexts :: ContextOk(w.m.contexts[id])
    ensures NoneLost(w.(m := m'))
  {
    var w' := w.(m := m');
    forall cid, a | cid in m'.contexts && a in m'.contexts[cid].state && Waiting(m'.contexts[cid].state[a])
      ensures Pending(w', cid, a)
    {
      assert NoneLostIn(w, cid, w.m.contexts[cid]);
      assert Waiting(w.m.contexts[cid].state[a]);
      assert Pending(w, cid, a);
    }
  }

  lemma SquashKeepsNone(w: World, e: Event, rootOf: Tree -> Root)
    requires Wf(w) && NoneLost(w) && e.DoSquash? && Enabled(w, e, rootOf)
    ensures NoneLost(Next(w, e, rootOf))
  {
    SquashEffect(w.m, e.root, e.ids, e.persist, e.cleanUp, rootOf);
    FreezeKeepsNone(w, e.ids, SquashRun(w.m, e.root, e.ids, e.persist, e.cleanUp, rootOf).0);
  }

  /** Taking an item in hand, or answering it, keeps it under way. */
  lemma HandOverKeepsPending(w: World, e: Event, rootOf: Tree -> Root)
    requires Enabled(w, e, rootOf)
    requires e.DoDeleteContexts? || e.ReaderTake? || e.ReaderPut? || e.WriterTake? || e.WriterDone?
    ensures KeepsPending(w, Next(w, e, rootOf))
  {
    var w' := Next(w, e, rootOf);
    forall cid, a | cid in w'.m.contexts && Pending(w, cid, a)
      ensures Pending(w', cid, a)
    {
      if item :| item in w.m.addressQueue && ReadNames(item, cid, a) {
        assert item in w'.m.addressQueue || w'.reading == Some(item);
      } else if w.reading.Some? && ReadNames(w.reading.value, cid, a) {
        if e.ReaderPut? {
          assert InflatedNames(w'.m.inflated[|w.m.inflated|], cid, a);
        }
      } else if item :| item in w.m.inflated && InflatedNames(item, cid, a) {
        if e.WriterTake? {
          assert item in w'.m.inflated || w'.writing == Some(item);
        } else {
          assert item in w'.m.inflated;
        }
      }
    }
  }

  lemma HandOverKeepsNone(w: World, e: Event, rootOf: Tree -> Root)
    requires NoneLost(w) && Enabled(w, e, rootOf)
    requires e.DoDeleteContexts? || e.ReaderTake? || e.ReaderPut? || e.WriterTake? || e.WriterDone?
    ensures NoneLost(Next(w, e, rootOf))
  {
    var w' := Next(w, e, rootOf);
    HandOverKeepsPending(w, e, rootOf);
    forall cid | cid in w'.m.contexts
      ensures NoneLostIn(w', cid, w'.m.contexts[cid])
    {
      assert NoneLostIn(w, cid, w.m.contexts[cid]);
    }
  }

  /** A delivery uses up one address and leaves nobody waiting on it. */
  lemma WriterSetKeepsNone(w: World, e: Event, rootOf: Tree -> Root)
    requires NoneLost(w) && e.WriterSet? && Enabled(w, e, rootOf)
    ensures NoneLost(Next(w, e, rootOf))
  {
    var w', item := Next(w, e, rootOf), w.writing.value;
    forall cid, a | cid in w'.m.contexts && a in w'.m.contexts[cid].state && Waiting(w'.m.contexts[cid].state[a])
      ensures Pending(w', cid, a)
    {
      assert NoneLostIn(w, cid, w.m.contexts[cid]);
      assert !(cid == item.cid && a == e.a);
      assert Pending(w, cid, a);
    }
  }

  /** From a state where nothing is lost, exactly the orphaning deletes lose something. */
  lemma StepLosesExactly(w: World, e: Event, rootOf: Tree -> Root)
    requires Wf(w) && NoneLost(w) && Enabled(w, e, rootOf)
    ensures NoneLost(Next(w, e, rootOf)) <==> !Orphans(w, e)
  {
    match e
    case DoCreate(_, _, _, _) => CreateKeepsNone(w, e, rootOf);
    case DoSet(_, _) => SetKeepsNone(w, e, rootOf);
    case DoDelete(_, _) => DeleteKeepsNone(w, e, rootOf);
    case DoSquash(_, _, _, _) => SquashKeepsNone(w, e, rootOf);
    case WriterSet(_) => WriterSetKeepsNone(w, e, rootOf);
    case _ => HandOverKeepsNone(w, e, rootOf);
  }

  // Whole runs

  ghost predicate NeverOrphans(w: World, events: seq<Event>, rootOf: Tree -> Root)
    requires IsRun(w, events, rootOf)
    decreases |events|
  {
    events == [] || (!Orphans(w, events[0]) && NeverOrphans(Next(w, events[0], rootOf), events[1..], rootOf))
  }

  ghost predicate NoneLostThroughout(w: World, events: seq<Event>, rootOf: Tree -> Root)
    requires IsRun(w, events, rootOf)
    decreases |events|
  {
    NoneLost(w) && (events == [] || NoneLostThroughout(Next(w, events[0], rootOf), events[1..], rootOf))
  }

  lemma {:induction false} RunLosesExactlyFrom(w: World, events: seq<Event>, rootOf: Tree -> Root)
    requires Wf(w) && NoneLost(w) && IsRun(w, events, rootOf)
    ensures NoneLostThroughout(w, events, rootOf) <==> NeverOrphans(w, events, rootOf)
    ensures NeverOrphans(w, events, rootOf) ==> NoneLost(After(w, events, rootOf))
    decreases |events|
  {
    if events != [] {
      StepLosesExactly(w, events[0], rootOf);
      StepKeepsWf(w, events[0], rootOf);
      if !Orphans(w, events[0]) {
        RunLosesExactlyFrom(Next(w, events[0], rootOf), events[1..], rootOf);
      }
    }
  }

  /**
   * No lost prefetch: in every run, every waiting future has its delivery under
   * way at every moment if and only if no delete in the run orphans a future.
   */
  lemma RunLosesExactly(trees: map<Root, Tree>, events: seq<Event>, rootOf: Tree -> Root)
    requires IsRun(Start(trees), events, rootOf)
    ensures NoneLostThroughout(Start(trees), events, rootOf) <==> NeverOrphans(Start(trees), events, rootOf)
  {
    RunLosesExactlyFrom(Start(trees), events, rootOf);
  }

  /** No delete in the run names an address its context has set. */
  ghost predicate NeverDeletesSet(w: World, events: seq<Event>, rootOf: Tree -> Root)
    requires IsRun(w, events, rootOf)
    decreases |events|
  {
    events == [] ||
    (&& (events[0].DoDelete? && events[0].cid in w.m.contexts ==>
           forall a <- events[0].addresses :: a in w.m.contexts[events[0].cid].state ==>
             !w.m.contexts[events[0].cid].state[a].setInContext)
     && NeverDeletesSet(Next(w, events[0], rootOf), events[1..], rootOf))
  }

  lemma {:induction false} AuthorizedAreListed(prefixes: seq<string>, order: seq<Address>)
    ensures forall a <- Authorized(prefixes, order) :: a in order
  {
    if order != [] && Covered(prefixes, order[0]) {
      AuthorizedAreListed(prefixes, order[1..]);
    }
  }

  lemma {:induction false} NeverDeletesSetNeverOrphans(w: World, events: seq<Event>, rootOf: Tree -> Root)
    requires IsRun(w, events, rootOf) && NeverDeletesSet(w, events, rootOf)
    ensures NeverOrphans(w, events, rootOf)
    decreases |events|
  {
    if events != [] {
      if events[0].DoDelete? && events[0].cid in w.m.contexts {
        AuthorizedAreListed(w.m.contexts[events[0].cid].writeList, events[0].addresses);
      }
      NeverDeletesSetNeverOrphans(Next(w, events[0], rootOf), events[1..], rootOf);
    }
  }

  // Draining the queues

  ghost predicate Quiescent(w: World) {
    w.m.addressQueue == [] && w.reading.None? && w.m.inflated == [] && w.writing.None?
  }

  function ReadWork(items: seq<ReadItem>): nat {
    if items == [] then 0 else 4 + |items[0].addresses| + ReadWork(items[1..])
  }

  function InflatedWork(items: seq<InflatedItem>): nat {
    if items == [] then 0 else 2 + |items[0].values| + InflatedWork(items[1..])
  }

  /** How many thread steps are still due, at most. */
  function Work(w: World): nat {
    ReadWork(w.m.addressQueue) + InflatedWork(w.m.inflated)
    + (if w.reading.Some? then 3 + |w.reading.value.addresses| else 0)
    + (if w.writing.Some? then 1 + |w.writing.value.values| else 0)
  }

  lemma {:induction false} InflatedWorkGrows(items: seq<InflatedItem>, item: InflatedItem)
    ensures InflatedWork(items + [item]) == InflatedWork(items) + 2 + |item.values|
  {
    if items != [] {
      assert (items + [item])[1..] == items[1..] + [item];
      InflatedWorkGrows(items[1..], item);
    } else {
      assert [item][1..] == [];
    }
  }

  lemma FromTreeSize(t: Tree, addresses: set<Address>)
    ensures |FromTree(t, addresses)| == |addresses|
  {
    assert FromTree(t, addresses).Keys == addresses;
  }

  /** Every thread step brings the threads closer to idle. */
  lemma ThreadStepShrinks(w: World, e: Event, rootOf: Tree -> Root)
    requires e.IsThread() && Enabled(w, e, rootOf)
    ensures Work(Next(w, e, rootOf)) < Work(w)
  {
    if e.ReaderPut? {
      var item := w.reading.value;
      var t := w.m.trees[item.root];
      InflatedWorkGrows(w.m.inflated, InflatedItem(item.cid, FromTree(t, item.addresses)));
      FromTreeSize(t, item.addresses);
    } else if e.WriterSet? {
      var values := w.writing.value.values;
      assert (values - {e.a}).Keys == values.Keys - {e.a};
    }
  }

  /** As long as something is under way, some thread can move. */
  lemma ThreadCanMove(w: World, rootOf: Tree -> Root) returns (e: Event)
    requires Wf(w) && !Quiescent(w)
    ensures e.IsThread() && Enabled(w, e, rootOf)
  {
    if w.reading.Some? {
      e := ReaderPut;
    } else if w.m.addressQueue != [] {
      e := ReaderTake;
    } else if w.writing.Some? {
      if w.writing.value.values == map[] {
        e := WriterDone;
      } else {
        var a :| a in w.writing.value.values;
        e := WriterSet(a);
      }
    } else {
      e := WriterTake;
    }
  }

  /** Nobody has to wait: any context can be read, frozen or squashed. */
  ghost predicate NobodyWaits(w: World) {
    forall cid <- w.m.contexts ::
      && w.m.contexts[cid].CanFreeze()
      && forall a <- w.m.contexts[cid].state :: w.m.contexts[cid].state[a].Ready()
  }

  lemma IdleMeansNobodyWaits(w: World)
    requires Wf(w) && NoneLost(w) && Quiescent(w)
    ensures NobodyWaits(w)
  {
    forall cid | cid in w.m.contexts
      ensures w.m.contexts[cid].CanFreeze()
      ensures forall a <- w.m.contexts[cid].state :: w.m.contexts[cid].state[a].Ready()
    {
      assert NoneLostIn(w, cid, w.m.contexts[cid]);
    }
  }

  /**
   * Left to themselves the threads always drain both queues, in at most as many
   * steps as there is work, and then nobody waits. Any order of thread steps
   * does, since each one shrinks the work.
   */
  lemma {:induction false} DrainingUnblocks(w: World, rootOf: Tree -> Root) returns (events: seq<Event>)
    requires Wf(w) && NoneLost(w)
    ensures |events| <= Work(w) && forall e <- events :: e.IsThread()
    ensures IsRun(w, events, rootOf)
    ensures Quiescent(After(w, events, rootOf)) && NobodyWaits(After(w, events, rootOf))
    decreases Work(w)
  {
    if Quiescent(w) {
      IdleMeansNobodyWaits(w);
      return [];
    }
    var e := ThreadCanMove(w, rootOf);
    ThreadStepShrinks(w, e, rootOf);
    StepKeepsWf(w, e, rootOf);
    StepLosesExactly(w, e, rootOf);
    var rest := DrainingUnblocks(Next(w, e, rootOf), rootOf);
    events := [e] + rest;
    assert events[1..] == rest;
  }
}
