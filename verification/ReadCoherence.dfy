/** Reading through a chain of contexts agrees with squashing the chain. */
module ReadCoherence {
  import opened Options
  import opened Futures
  import opened ContextGraph
  import opened Squash
  import opened Contexts
  import opened ManagerSpec
  import opened ManagerRuns

  /** The context and all its bases are registered, in single file, on one root. */
  ghost predicate Chain(contexts: ContextMap, id: Id)
    decreases id
  {
    && id in contexts
    && var c := contexts[id];
       c.bases == [] ||
       (&& |c.bases| == 1 && c.bases[0] < id
        && Chain(contexts, c.bases[0])
        && contexts[c.bases[0]].root == c.root)
  }

  /** The tree a context is executed against: its bases' writes on top of the root's tree. */
  ghost function BaseTree(contexts: ContextMap, t: Tree, id: Id): Tree
    requires Chain(contexts, id)
    decreases id, 0
  {
    if contexts[id].bases == [] then t else ViewTree(contexts, t, contexts[id].bases[0])
  }

  ghost function ViewTree(contexts: ContextMap, t: Tree, id: Id): Tree
    requires Chain(contexts, id)
    decreases id, 1
  {
    Apply(BaseTree(contexts, t, id), contexts[id].Written())
  }

  // The view of a chain is what squash makes of it

  ghost function ChainIds(contexts: ContextMap, id: Id): (ids: seq<Id>)
    requires Chain(contexts, id)
    ensures forall i <- ids :: i in contexts
    decreases id
  {
    [id] + if contexts[id].bases == [] then [] else ChainIds(contexts, contexts[id].bases[0])
  }

  lemma OnlyBase(bases: seq<Id>, seen: set<Id>)
    requires |bases| == 1 && bases[0] !in seen
    ensures NewBases(bases, seen) == [bases[0]]
  {
    assert bases[1..] == [];
    assert NewBases([], seen + {bases[0]}) == [];
  }

  /** On a chain, the walk goes from the newest context to the oldest. */
  lemma {:induction false} WalkFollowsChain(contexts: ContextMap, id: Id, seen: set<Id>)
    requires Chain(contexts, id) && forall s <- seen :: s >= id
    ensures Walk(GraphOf(contexts), [id], seen) == Trail(ChainIds(contexts, id), true)
    decreases id
  {
    var g, bases := GraphOf(contexts), contexts[id].bases;
    var unseen := NewBases(bases, seen);
    if bases == [] {
      assert [id][1..] + unseen == [];
    } else {
      OnlyBase(bases, seen);
      assert [id][1..] + unseen == [bases[0]];
      WalkFollowsChain(contexts, bases[0], seen + SetOf(unseen));
    }
  }

  lemma {:induction false} ChainReplay(contexts: ContextMap, t: Tree, id: Id)
    requires Chain(contexts, id)
    ensures Replay(t, Reverse(WrittenBy(contexts, ChainIds(contexts, id)))) == ViewTree(contexts, t, id)
    decreases id
  {
    var ws := WrittenBy(contexts, ChainIds(contexts, id));
    var older := Reverse(ws[1..]);
    if contexts[id].bases == [] {
      assert ws[1..] == [];
    } else {
      var base := contexts[id].bases[0];
      ChainReplay(contexts, t, base);
      assert ws[1..] == WrittenBy(contexts, ChainIds(contexts, base));
    }
    ReplayMore(t, older, ws[0]);
  }

  lemma ReplayMore(t: Tree, older: seq<Writes>, w: Writes)
    ensures Replay(t, older + [w]) == Apply(Replay(t, older), w)
  {
    assert (older + [w])[..|older|] == older;
  }

  /** Squashing a chain replays it from its oldest context to its newest. */
  lemma SquashOfChain(contexts: ContextMap, t: Tree, id: Id)
    requires Chain(contexts, id)
    ensures SquashTrail(contexts, [id]) == Trail(ChainIds(contexts, id), true)
    ensures SquashedOnto(t, contexts, [id]) == ViewTree(contexts, t, id)
  {
    assert SetOf([id]) == {id};
    WalkFollowsChain(contexts, id, {id});
    SquashIsReplay(t, WrittenBy(contexts, ChainIds(contexts, id)));
    ChainReplay(contexts, t, id);
  }

  // What is known about each future

  /** An untouched future holds, or will be given, what its address has below its context. */
  ghost predicate FutureFaithful(contexts: ContextMap, t: Tree, id: Id, a: Address)
    requires Chain(contexts, id) && a in contexts[id].state
  {
    var f := contexts[id].state[a];
    f.Untouched() ==>
      && (f.waitForTree ==> Lookup(BaseTree(contexts, t, id), a) == Lookup(t, a))
      && if f.Blocked() then !f.readOnly else f.result == Lookup(BaseTree(contexts, t, id), a)
  }

  ghost predicate ContextFaithful(m: ManagerState, id: Id)
    requires Chain(m.contexts, id)
  {
    && m.contexts[id].root in m.trees
    && forall a <- m.contexts[id].state :: FutureFaithful(m.contexts, m.trees[m.contexts[id].root], id, a)
  }

  ghost predicate Faithful(m: ManagerState) {
    forall id <- m.contexts :: Chain(m.contexts, id) ==> ContextFaithful(m, id)
  }

  /** An untouched future that can be read holds what its address has below its context. */
  ghost predicate FutureShows(contexts: ContextMap, t: Tree, id: Id, a: Address)
    requires Chain(contexts, id) && a in contexts[id].state
  {
    var f := contexts[id].state[a];
    f.Untouched() && f.Ready() ==> f.result == Lookup(BaseTree(contexts, t, id), a)
  }

  ghost predicate ContextShows(m: ManagerState, id: Id)
    requires Chain(m.contexts, id)
  {
    && m.contexts[id].root in m.trees
    && forall a <- m.contexts[id].state :: FutureShows(m.contexts, m.trees[m.contexts[id].root], id, a)
  }

  /** What can be read is right; nothing is said of futures that still wait. */
  ghost predicate Shows(m: ManagerState) {
    forall id <- m.contexts :: Chain(m.contexts, id) ==> ContextShows(m, id)
  }

  lemma FaithfulShows(m: ManagerState)
    requires Faithful(m)
    ensures Shows(m)
  {
    forall id | id in m.contexts && Chain(m.contexts, id)
      ensures ContextShows(m, id)
    {
      assert ContextFaithful(m, id);
    }
  }

  /** A context's view at an address it holds. */
  lemma HeldIsView(contexts: ContextMap, t: Tree, id: Id, a: Address)
    requires Chain(contexts, id) && a in contexts[id].state && contexts[id].state[a].Sound()
    requires FutureShows(contexts, t, id, a)
    requires contexts[id].state[a].deleted || contexts[id].state[a].Ready()
    ensures contexts[id].Held(a) == Lookup(ViewTree(contexts, t, id), a)
  {
  }

  lemma NotHeldIsBase(contexts: ContextMap, t: Tree, id: Id, a: Address)
    requires Chain(contexts, id) && a !in contexts[id].state
    ensures Lookup(ViewTree(contexts, t, id), a) == Lookup(BaseTree(contexts, t, id), a)
  {
  }

  ghost predicate FoundIsView(found: Found, asked: set<Address>, t: Tree, view: Tree) {
    && found.values.Keys + found.missing == asked && found.values.Keys !! found.missing
    && (forall a <- found.values :: found.values[a] == Lookup(view, a))
    && (forall a <- found.missing :: Lookup(t, a) == Lookup(view, a))
  }

  /** What one context answers is its view, and what it leaves is its base's view. */
  lemma HitsAreView(m: ManagerState, t: Tree, id: Id, asked: set<Address>)
    requires Shows(m) && ContextsWf(m) && Chain(m.contexts, id)
    requires m.contexts[id].root in m.trees && t == m.trees[m.contexts[id].root]
    requires m.contexts[id].HitsReady(asked)
    ensures var hits := m.contexts[id].Hits(asked);
            && (forall a <- hits :: hits[a] == Lookup(ViewTree(m.contexts, t, id), a))
            && (forall a <- asked - hits.Keys ::
                  Lookup(ViewTree(m.contexts, t, id), a) == Lookup(BaseTree(m.contexts, t, id), a))
  {
    var hits := m.contexts[id].Hits(asked);
    assert ContextShows(m, id);
    forall a | a in hits
      ensures hits[a] == Lookup(ViewTree(m.contexts, t, id), a)
    {
      HeldIsView(m.contexts, t, id, a);
    }
    forall a | a in asked - hits.Keys
      ensures Lookup(ViewTree(m.contexts, t, id), a) == Lookup(BaseTree(m.contexts, t, id), a)
    {
      NotHeldIsBase(m.contexts, t, id, a);
    }
  }

  lemma AddHits(hits: map<Address, Option<Bytes>>, rest: Found, asked: set<Address>, t: Tree, base: Tree, view: Tree)
    requires FoundIsView(rest, asked - hits.Keys, t, base) && hits.Keys <= asked
    requires forall a <- hits :: hits[a] == Lookup(view, a)
    requires forall a <- asked - hits.Keys :: Lookup(view, a) == Lookup(base, a)
    ensures FoundIsView(Found(hits + rest.values, rest.missing), asked, t, view)
  {
    assert forall a <- rest.values :: a in asked - hits.Keys;
    assert forall a <- rest.missing :: a in asked - hits.Keys;
  }

  /** Searching a chain finds exactly the values of its view. */
  lemma {:induction false} FindOnChain(m: ManagerState, t: Tree, id: Id, seen: set<Id>, asked: set<Address>)
    requires Shows(m) && ContextsWf(m) && Chain(m.contexts, id)
    requires m.contexts[id].root in m.trees && t == m.trees[m.contexts[id].root]
    requires forall s <- seen :: s >= id
    requires FindReady(m.contexts, [id], seen, asked)
    ensures Find(m.contexts, [id], seen, asked).Some?
    ensures FoundIsView(Find(m.contexts, [id], seen, asked).value, asked, t, ViewTree(m.contexts, t, id))
    decreases id
  {
    if asked != {} {
      var c := m.contexts[id];
      var hits, unseen := c.Hits(asked), NewBases(c.bases, seen);
      HitsAreView(m, t, id, asked);
      var rest;
      if c.bases == [] {
        assert [id][1..] + unseen == [];
        rest := Found(map[], asked - hits.Keys);
        FindAfter(m.contexts, id, seen, asked, [], rest);
      } else {
        OnlyBase(c.bases, seen);
        assert [id][1..] + unseen == [c.bases[0]];
        FindOnChain(m, t, c.bases[0], seen + SetOf(unseen), asked - hits.Keys);
        rest := Find(m.contexts, [c.bases[0]], seen + SetOf(unseen), asked - hits.Keys).value;
        FindAfter(m.contexts, id, seen, asked, [c.bases[0]], rest);
      }
      AddHits(hits, rest, asked, t, BaseTree(m.contexts, t, id), ViewTree(m.contexts, t, id));
    }
  }

  /** The search from one context, given what the search behind it finds. */
  lemma FindAfter(contexts: ContextMap, id: Id, seen: set<Id>, asked: set<Address>, queue: seq<Id>, rest: Found)
    requires id in contexts && asked != {} && queue == [id][1..] + NewBases(contexts[id].bases, seen)
    requires Find(contexts, queue, seen + SetOf(NewBases(contexts[id].bases, seen)),
                  asked - contexts[id].Hits(asked).Keys) == Some(rest)
    ensures Find(contexts, [id], seen, asked)
         == Some(Found(contexts[id].Hits(asked) + rest.values, rest.missing))
  {
  }

  // Reading

  /** Untouched futures are of well-formed addresses the context may read. */
  ghost predicate ReadableIn(c: ContextState) {
    forall a <- c.state :: c.state[a].Untouched() ==> AddressIsValid(a) && Covered(c.readList, a)
  }

  ghost predicate Readable(m: ManagerState) {
    forall id <- m.contexts :: ReadableIn(m.contexts[id])
  }

  /** The address was deleted in this very context while its future still holds a value. */
  predicate Stale(c: ContextState, a: Address) {
    a in c.state && c.state[a].deleted && c.state[a].result.Some?
  }

  lemma DirectReadExactly(m: ManagerState, t: Tree, id: Id, a: Address)
    requires Shows(m) && ContextsWf(m) && Chain(m.contexts, id)
    requires m.contexts[id].root in m.trees && t == m.trees[m.contexts[id].root]
    requires a in m.contexts[id].state && m.contexts[id].state[a].Ready()
    ensures m.contexts[id].state[a].result == Lookup(ViewTree(m.contexts, t, id), a) <==> !Stale(m.contexts[id], a)
  {
    assert ContextShows(m, id);
    HeldIsView(m.contexts, t, id, a);
  }

  function Assembled(c: ContextState, t: Tree, addresses: set<Address>, found: Found): map<Address, Option<Bytes>> {
    (map a | a in addresses && a in c.state :: c.state[a].result) + found.values + FromTree(t, found.missing)
  }

  lemma NothingMissing(values: map<Address, Option<Bytes>>, t: Tree)
    ensures values + FromTree(t, {}) == values
    ensures values + map[] == values
  {
    assert FromTree(t, {}) == map[];
  }

  /** A read that meets no error puts together the direct, found and stored values. */
  lemma GetAssembles(m: ManagerState, id: Id, addresses: set<Address>, found: Found)
    requires id in m.contexts && m.contexts[id].root in m.trees
    requires forall a <- addresses :: AddressIsValid(a) && Covered(m.contexts[id].readList, a)
    requires Find(m.contexts, [id], {id}, addresses - m.contexts[id].state.Keys) == Some(found)
    ensures Get(m, id, addresses) == Ok(Assembled(m.contexts[id], m.trees[m.contexts[id].root], addresses, found))
  {
    var c := m.contexts[id];
    var direct := map a | a in addresses && a in c.state :: c.state[a].result;
    NothingMissing(direct, m.trees[c.root]);
    NothingMissing(direct + found.values, m.trees[c.root]);
  }

  lemma AssembledAgrees(c: ContextState, t: Tree, addresses: set<Address>, found: Found, view: Tree)
    requires FoundIsView(found, addresses - c.state.Keys, t, view)
    requires forall a <- addresses :: a in c.state ==> (c.state[a].result == Lookup(view, a) <==> !Stale(c, a))
    ensures Assembled(c, t, addresses, found).Keys == addresses
    ensures forall a <- addresses :: Assembled(c, t, addresses, found)[a] == Lookup(view, a) <==> !Stale(c, a)
  {
    assert forall a <- found.values :: a in addresses - c.state.Keys;
    assert forall a <- found.missing :: a in addresses - c.state.Keys;
  }

  /**
   * Read coherence: a read of authorised addresses answers every one of them,
   * and the answer is the value the address has in the tree that squashing the
   * context onto its root produces, except exactly where the context itself
   * has deleted the address and its future still holds an older value.
   */
  lemma GetAgreesExactly(m: ManagerState, id: Id, addresses: set<Address>)
    requires Shows(m) && ContextsWf(m) && Chain(m.contexts, id)
    requires GetReady(m, id, addresses)
    requires forall a <- addresses :: AddressIsValid(a) && Covered(m.contexts[id].readList, a)
    ensures Get(m, id, addresses).Ok? && Get(m, id, addresses).value.Keys == addresses
    ensures var squashed := SquashedOnto(m.trees[m.contexts[id].root], m.contexts, [id]);
            forall a <- addresses ::
              Get(m, id, addresses).value[a] == Lookup(squashed, a) <==> !Stale(m.contexts[id], a)
  {
    var c := m.contexts[id];
    var t := m.trees[c.root];
    var view := ViewTree(m.contexts, t, id);
    SquashOfChain(m.contexts, t, id);
    FindOnChain(m, t, id, {id}, addresses - c.state.Keys);
    var found := Find(m.contexts, [id], {id}, addresses - c.state.Keys).value;
    GetAssembles(m, id, addresses, found);
    forall a | a in addresses && a in c.state
      ensures c.state[a].result == Lookup(view, a) <==> !Stale(c, a)
    {
      DirectReadExactly(m, t, id, a);
    }
    AssembledAgrees(c, t, addresses, found, view);
  }

  // Every step keeps the futures faithful

  predicate SameWriting(c: ContextState, c': ContextState) {
    c'.Written() == c.Written() && c'.bases == c.bases && c'.root == c.root
  }

  /** Outside `skip` nothing is written, and no context is based on one inside it. */
  ghost predicate WritesOnly(contexts: ContextMap, contexts': ContextMap, skip: set<Id>) {
    && (forall k <- contexts' :: k !in skip ==> k in contexts && SameWriting(contexts[k], contexts'[k]))
    && (forall k <- contexts' :: forall b <- contexts'[k].bases :: b !in skip)
  }

  lemma {:induction false} ViewFrame(contexts: ContextMap, contexts': ContextMap, t: Tree, id: Id, skip: set<Id>)
    requires Chain(contexts', id) && id !in skip && WritesOnly(contexts, contexts', skip)
    ensures Chain(contexts, id) && ViewTree(contexts', t, id) == ViewTree(contexts, t, id)
    decreases id
  {
    if contexts'[id].bases != [] {
      ViewFrame(contexts, contexts', t, contexts'[id].bases[0], skip);
    }
  }

  lemma BaseFrame(contexts: ContextMap, contexts': ContextMap, t: Tree, id: Id, skip: set<Id>)
    requires Chain(contexts', id) && WritesOnly(contexts, contexts', skip)
    requires id in contexts && contexts[id].bases == contexts'[id].bases && contexts[id].root == contexts'[id].root
    ensures Chain(contexts, id) && BaseTree(contexts', t, id) == BaseTree(contexts, t, id)
  {
    if contexts'[id].bases != [] {
      ViewFrame(contexts, contexts', t, contexts'[id].bases[0], skip);
    }
  }

  /** How an untouched future can have come about in one step. */
  predicate FutureStep(t: Tree, a: Address, c: ContextState, f': FutureState) {
    f'.Untouched() ==>
      && a in c.state
      && var f := c.state[a];
         || f' == f
         || (f' == f.Frozen() && !f.Blocked())
         || (f' == f.WithTree(Lookup(t, a)) && f.waitForTree)
  }

  ghost predicate ContextStep(t: Tree, c: ContextState, c': ContextState) {
    && c'.bases == c.bases && c'.root == c.root
    && (forall a <- c'.state :: FutureStep(t, a, c, c'.state[a]))
    && (forall a <- c.state :: a in c'.state && c'.state[a].waitForTree == c.state[a].waitForTree)
  }

  lemma StaysFaithful(m: ManagerState, m': ManagerState, id: Id, skip: set<Id>)
    requires Faithful(m) && Extends(m.trees, m'.trees) && WritesOnly(m.contexts, m'.contexts, skip)
    requires id in m.contexts && m.contexts[id].root in m.trees && Chain(m'.contexts, id)
    requires ContextStep(m.trees[m.contexts[id].root], m.contexts[id], m'.contexts[id])
    ensures ContextFaithful(m', id)
  {
    var t := m.trees[m.contexts[id].root];
    BaseFrame(m.contexts, m'.contexts, t, id, skip);
    assert ContextFaithful(m, id);
    forall a | a in m'.contexts[id].state
      ensures FutureFaithful(m'.contexts, t, id, a)
    {
      assert FutureStep(t, a, m.contexts[id], m'.contexts[id].state[a]);
      if m'.contexts[id].state[a].Untouched() {
        assert FutureFaithful(m.contexts, t, id, a);
      }
    }
  }

  ghost predicate NamesPrefetched(c: ContextState, addresses: set<Address>) {
    forall a <- addresses :: a in c.state && c.state[a].waitForTree
  }

  /** Requests carry their context's root and name only futures that wait for the tree. */
  ghost predicate ReadItemFaithful(m: ManagerState, item: ReadItem) {
    item.cid in m.contexts ==>
      item.root == m.contexts[item.cid].root && NamesPrefetched(m.contexts[item.cid], item.addresses)
  }

  /** Answers carry the values under their context's root. */
  ghost predicate InflatedItemFaithful(m: ManagerState, item: InflatedItem) {
    item.cid in m.contexts ==>
      && NamesPrefetched(m.contexts[item.cid], item.values.Keys)
      && m.contexts[item.cid].root in m.trees
      && forall a <- item.values :: item.values[a] == Lookup(m.trees[m.contexts[item.cid].root], a)
  }

  ghost predicate ItemsFaithful(w: World) {
    && (forall item <- w.m.addressQueue :: ReadItemFaithful(w.m, item))
    && (w.reading.Some? ==> ReadItemFaithful(w.m, w.reading.value))
    && (forall item <- w.m.inflated :: InflatedItemFaithful(w.m, item))
    && (w.writing.Some? ==> InflatedItemFaithful(w.m, w.writing.value))
  }

  ghost predicate Coherent(w: World) {
    Wf(w) && Faithful(w.m) && ItemsFaithful(w)
  }
}
