/**
 * Runs of the context manager with its reader and writer threads, as a state
 * machine. Client calls are single steps, enabled when they would not wait; the
 * threads take a queue item in hand in one step and finish it in later ones,
 * the writer one address at a time.
 */
module ManagerRuns {
  import opened Options
  import opened ContextGraph
  import opened Squash
  import opened Contexts
  import opened ManagerSpec

  datatype World = World(
    m: ManagerState,
    reading: Option<ReadItem>,
    writing: Option<InflatedItem>)

  datatype Event =
    | DoCreate(root: Root, bases: seq<Id>, inputs: seq<string>, outputs: seq<string>)
    | DoSet(cid: Id, items: seq<(Address, Bytes)>)
    | DoDelete(cid: Id, addresses: seq<Address>)
    | DoSquash(root: Root, ids: seq<Id>, persist: bool, cleanUp: bool)
    | DoDeleteContexts(removed: set<Id>)
    | ReaderTake
    | ReaderPut
    | WriterTake
    | WriterSet(a: Address)
    | WriterDone
  {
    predicate IsThread() {
      ReaderTake? || ReaderPut? || WriterTake? || WriterSet? || WriterDone?
    }
  }

  ghost predicate Extends(trees: map<Root, Tree>, trees': map<Root, Tree>) {
    forall r <- trees :: r in trees' && trees'[r] == trees[r]
  }

  /** The step can be taken now, without waiting. New roots do not collide with known ones. */
  ghost predicate Enabled(w: World, e: Event, rootOf: Tree -> Root) {
    match e
    case DoCreate(root, bases, inputs, outputs) =>
      root in w.m.trees && FindReady(w.m.contexts, bases, SetOf(bases), Wanted(inputs))
    case DoSet(_, _) => true
    case DoDelete(_, _) => true
    case DoSquash(root, ids, persist, cleanUp) =>
      && SquashReady(w.m.contexts, ids)
      && Extends(w.m.trees, SquashRun(w.m, root, ids, persist, cleanUp, rootOf).0.trees)
    case DoDeleteContexts(_) => true
    case ReaderTake => w.reading.None? && w.m.addressQueue != []
    case ReaderPut => w.reading.Some? && w.reading.value.root in w.m.trees
    case WriterTake => w.writing.None? && w.m.inflated != []
    case WriterSet(a) => w.writing.Some? && a in w.writing.value.values
    case WriterDone => w.writing.Some? && w.writing.value.values == map[]
  }

  function WithTreeAt(c: ContextState, a: Address, v: Option<Bytes>): ContextState {
    if a in c.state then c.With(a, c.state[a].WithTree(v)) else c
  }

  ghost function Next(w: World, e: Event, rootOf: Tree -> Root): World
    requires Enabled(w, e, rootOf)
  {
    match e
    case DoCreate(root, bases, inputs, outputs) => w.(m := Create(w.m, root, bases, inputs, outputs).0)
    case DoSet(cid, items) => w.(m := SetValues(w.m, cid, items).0)
    case DoDelete(cid, addresses) => w.(m := DeleteValues(w.m, cid, addresses).0)
    case DoSquash(root, ids, persist, cleanUp) => w.(m := SquashRun(w.m, root, ids, persist, cleanUp, rootOf).0)
    case DoDeleteContexts(removed) => w.(m := w.m.(contexts := w.m.contexts - removed))
    case ReaderTake =>
      w.(m := w.m.(addressQueue := w.m.addressQueue[1..]), reading := Some(w.m.addressQueue[0]))
    case ReaderPut =>
      var item := w.reading.value;
      w.(m := w.m.(inflated := w.m.inflated + [InflatedItem(item.cid, FromTree(w.m.trees[item.root], item.addresses))]),
         reading := None)
    case WriterTake =>
      var item := w.m.inflated[0];
      w.(m := w.m.(inflated := w.m.inflated[1..]),
         writing := if item.cid in w.m.contexts then Some(item) else None)
    case WriterSet(a) =>
      var item := w.writing.value;
      w.(m := if item.cid !in w.m.contexts then w.m
              else w.m.(contexts := w.m.contexts[item.cid := WithTreeAt(w.m.contexts[item.cid], a, item.values[a])]),
         writing := Some(item.(values := item.values - {a})))
    case WriterDone => w.(writing := None)
  }

  function Start(trees: map<Root, Tree>): World {
    World(ManagerState(trees, map[], 0, [], []), None, None)
  }

  /** Every event of the sequence is enabled when its turn comes. */
  ghost predicate IsRun(w: World, events: seq<Event>, rootOf: Tree -> Root)
    decreases |events|
  {
    events == [] ||
    (Enabled(w, events[0], rootOf) && IsRun(Next(w, events[0], rootOf), events[1..], rootOf))
  }

  ghost function After(w: World, events: seq<Event>, rootOf: Tree -> Root): World
    requires IsRun(w, events, rootOf)
    decreases |events|
  {
    if events == [] then w else After(Next(w, events[0], rootOf), events[1..], rootOf)
  }

  // Facts about single contexts

  /** What every operation keeps of a context. */
  predicate ContextOk(c: ContextState) {
    && (forall a <- c.state :: c.state[a].Sound())
    && c.WritesCovered()
    && (!c.readOnly ==> forall a <- c.state :: !c.state[a].readOnly)
  }

  lemma {:induction false} SetAllKeepsOk(c: ContextState, order: seq<Address>, values: map<Address, Bytes>)
    requires ContextOk(c) && forall a <- order :: a in values
    ensures ContextOk(c.SetAll(order, values))
    decreases |order|
  {
    if order != [] && Covered(c.writeList, order[0]) {
      SetAllKeepsOk(c.With(order[0], c.FutureAt(order[0]).WithDirect(values[order[0]])), order[1..], values);
    }
  }

  lemma {:induction false} DeleteAllKeepsOk(c: ContextState, order: seq<Address>)
    requires ContextOk(c)
    ensures ContextOk(c.DeleteAll(order))
    decreases |order|
  {
    if order != [] && Covered(c.writeList, order[0]) {
      DeleteAllKeepsOk(c.With(order[0], c.FutureAt(order[0]).WithDelete()), order[1..]);
    }
  }

  /** Setting changes neither who a context is based on nor what it may touch. */
  predicate SameFrame(c: ContextState, c': ContextState) {
    c'.root == c.root && c'.bases == c.bases && c'.readList == c.readList && c'.writeList == c.writeList
  }

  lemma {:induction false} SetAllKeepsFrame(c: ContextState, order: seq<Address>, values: map<Address, Bytes>)
    requires forall a <- order :: a in values
    ensures SameFrame(c, c.SetAll(order, values))
    decreases |order|
  {
    if order != [] && Covered(c.writeList, order[0]) {
      SetAllKeepsFrame(c.With(order[0], c.FutureAt(order[0]).WithDirect(values[order[0]])), order[1..], values);
    }
  }

  lemma {:induction false} DeleteAllKeepsFrame(c: ContextState, order: seq<Address>)
    ensures SameFrame(c, c.DeleteAll(order))
    decreases |order|
  {
    if order != [] && Covered(c.writeList, order[0]) {
      DeleteAllKeepsFrame(c.With(order[0], c.FutureAt(order[0]).WithDelete()), order[1..]);
    }
  }

  // The shape every reachable state has

  ghost predicate ContextsWf(m: ManagerState) {
    forall id <- m.contexts ::
      && id < m.nextId
      && (forall b <- m.contexts[id].bases :: b < id)
      && m.contexts[id].root in m.trees
      && ContextOk(m.contexts[id])
  }

  ghost predicate ReadItemWf(m: ManagerState, item: ReadItem) {
    item.cid < m.nextId && item.root in m.trees
  }

  ghost predicate QueuesWf(w: World) {
    && (forall item <- w.m.addressQueue :: ReadItemWf(w.m, item))
    && (w.reading.Some? ==> ReadItemWf(w.m, w.reading.value))
    && (forall item <- w.m.inflated :: item.cid < w.m.nextId)
    && (w.writing.Some? ==> w.writing.value.cid < w.m.nextId)
  }

  ghost predicate Wf(w: World) {
    ContextsWf(w.m) && QueuesWf(w)
  }

  lemma NewContextIsOk(root: Root, bases: seq<Id>, inputs: seq<string>, outputs: seq<string>, found: Found)
    ensures ContextOk(NewContext(root, bases, inputs, outputs, found))
    ensures SameFrame(ContextState(root, inputs, outputs, bases, map[], false),
                      NewContext(root, bases, inputs, outputs, found))
  {
  }

  /** Replacing a context by one with the same frame keeps the shape. */
  lemma ReplaceKeepsWf(m: ManagerState, cid: Id, c: ContextState)
    requires ContextsWf(m) && cid in m.contexts && ContextOk(c) && SameFrame(m.contexts[cid], c)
    ensures ContextsWf(m.(contexts := m.contexts[cid := c]))
  {
  }

  lemma CreateKeepsWf(w: World, e: Event, rootOf: Tree -> Root)
    requires Wf(w) && e.DoCreate? && Enabled(w, e, rootOf)
    ensures Wf(Next(w, e, rootOf))
  {
    var found := Find(w.m.contexts, e.bases, SetOf(e.bases), Wanted(e.inputs));
    if Create(w.m, e.root, e.bases, e.inputs, e.outputs).1.Ok? {
      NewContextIsOk(e.root, e.bases, e.inputs, e.outputs, found.value);
    }
  }

  lemma SetKeepsWf(w: World, e: Event, rootOf: Tree -> Root)
    requires Wf(w) && e.DoSet? && Enabled(w, e, rootOf)
    ensures Wf(Next(w, e, rootOf))
  {
    if e.cid in w.m.contexts {
      var c, d := w.m.contexts[e.cid], DictOf(e.items);
      SetAllKeepsOk(c, d.order, d.values);
      SetAllKeepsFrame(c, d.order, d.values);
      ReplaceKeepsWf(w.m, e.cid, c.SetAll(d.order, d.values));
    }
  }

  lemma DeleteKeepsWf(w: World, e: Event, rootOf: Tree -> Root)
    requires Wf(w) && e.DoDelete? && Enabled(w, e, rootOf)
    ensures Wf(Next(w, e, rootOf))
  {
    if e.cid in w.m.contexts {
      var c := w.m.contexts[e.cid];
      DeleteAllKeepsOk(c, e.addresses);
      DeleteAllKeepsFrame(c, e.addresses);
      ReplaceKeepsWf(w.m, e.cid, c.DeleteAll(e.addresses));
    }
  }

  /** What squash does to the manager: freezes or drops contexts, and may add a tree. */
  ghost predicate FreezesOrDrops(m: ManagerState, ids: seq<Id>, m': ManagerState) {
    && m'.nextId == m.nextId && m'.addressQueue == m.addressQueue && m'.inflated == m.inflated
    && m'.contexts.Keys <= m.contexts.Keys
    && forall id <- m'.contexts ::
         m'.contexts[id] == m.contexts[id] ||
         (m'.contexts[id] == m.contexts[id].Frozen() && id in SquashTrail(m.contexts, ids).visited)
  }

  lemma SquashEffect(m: ManagerState, root: Root, ids: seq<Id>, persist: bool, cleanUp: bool, rootOf: Tree -> Root)
    ensures FreezesOrDrops(m, ids, SquashRun(m, root, ids, persist, cleanUp, rootOf).0)
  {
  }

  lemma FreezeKeepsWf(w: World, ids: seq<Id>, m': ManagerState)
    requires Wf(w) && FreezesOrDrops(w.m, ids, m') && Extends(w.m.trees, m'.trees)
    ensures Wf(w.(m := m'))
  {
  }

  lemma SquashKeepsWf(w: World, e: Event, rootOf: Tree -> Root)
    requires Wf(w) && e.DoSquash? && Enabled(w, e, rootOf)
    ensures Wf(Next(w, e, rootOf))
  {
    SquashEffect(w.m, e.root, e.ids, e.persist, e.cleanUp, rootOf);
    FreezeKeepsWf(w, e.ids, SquashRun(w.m, e.root, e.ids, e.persist, e.cleanUp, rootOf).0);
  }

  lemma WriterSetKeepsWf(w: World, e: Event, rootOf: Tree -> Root)
    requires Wf(w) && e.WriterSet? && Enabled(w, e, rootOf)
    ensures Wf(Next(w, e, rootOf))
  {
    var item := w.writing.value;
    if item.cid in w.m.contexts {
      ReplaceKeepsWf(w.m, item.cid, WithTreeAt(w.m.contexts[item.cid], e.a, item.values[e.a]));
    }
  }

  lemma QueueStepKeepsWf(w: World, e: Event, rootOf: Tree -> Root)
    requires Wf(w) && Enabled(w, e, rootOf)
    requires e.DoDeleteContexts? || (e.IsThread() && !e.WriterSet?)
    ensures Wf(Next(w, e, rootOf))
  {
    forall item | item in w.m.addressQueue
      ensures ReadItemWf(Next(w, e, rootOf).m, item)
    {
      assert ReadItemWf(w.m, item);
    }
    assert w.m.inflated != [] ==> w.m.inflated[0] in w.m.inflated;
  }

  lemma StepKeepsWf(w: World, e: Event, rootOf: Tree -> Root)
    requires Wf(w) && Enabled(w, e, rootOf)
    ensures Wf(Next(w, e, rootOf))
  {
    match e
    case DoCreate(_, _, _, _) => CreateKeepsWf(w, e, rootOf);
    case DoSet(_, _) => SetKeepsWf(w, e, rootOf);
    case DoDelete(_, _) => DeleteKeepsWf(w, e, rootOf);
    case DoSquash(_, _, _, _) => SquashKeepsWf(w, e, rootOf);
    case WriterSet(_) => WriterSetKeepsWf(w, e, rootOf);
    case _ => QueueStepKeepsWf(w, e, rootOf);
  }

  lemma {:induction false} RunKeepsWf(w: World, events: seq<Event>, rootOf: Tree -> Root)
    requires Wf(w) && IsRun(w, events, rootOf)
    ensures Wf(After(w, events, rootOf))
    decreases |events|
  {
    if events != [] {
      StepKeepsWf(w, events[0], rootOf);
      RunKeepsWf(Next(w, events[0], rootOf), events[1..], rootOf);
    }
  }
}
