/** Exactly when reads agree with squash, with any number of bases. */
module GraphCoherence {
  import opened Options
  import opened ContextGraph
  import opened Squash
  import opened Contexts
  import opened ManagerSpec
  import opened ManagerRuns
  import opened ReadCoherence
  import opened LateWrites
  import opened GraphReads

  // What squashing one context keeps

  /** The context and all it is based on are registered. */
  ghost predicate Whole(contexts: ContextMap, id: Id) {
    id in contexts && SquashTrail(contexts, [id]).complete
  }

  ghost function Order(contexts: ContextMap, id: Id): (order: seq<Id>)
    requires id in contexts
    ensures order != [] && order[0] == id && forall i <- order :: i in contexts
  {
    WalkStartsThere(contexts, id);
    SquashTrail(contexts, [id]).visited
  }

  /** What squashing the context onto its root keeps at the address: what its first writer left. */
  ghost function Kept(m: ManagerState, id: Id, a: Address): Option<Bytes>
    requires Whole(m.contexts, id) && m.contexts[id].root in m.trees
  {
    FromWriter(m.contexts, m.trees[m.contexts[id].root], Order(m.contexts, id), a)
  }

  lemma KeptIsSquashed(m: ManagerState, id: Id, a: Address)
    requires Whole(m.contexts, id) && m.contexts[id].root in m.trees
    ensures Lookup(SquashedOnto(m.trees[m.contexts[id].root], m.contexts, [id]), a) == Kept(m, id, a)
  {
    SquashTakesWriter(m.contexts, m.trees[m.contexts[id].root], [id], a);
  }

  /** Whatever a whole walk visits is whole itself. */
  lemma VisitedIsWhole(contexts: ContextMap, ids: seq<Id>, h: Id)
    requires SquashTrail(contexts, ids).complete && h in SquashTrail(contexts, ids).visited
    ensures Whole(contexts, h)
  {
    var g := GraphOf(contexts);
    WalkVisitsReachable(g, ids);
    WalkVisitsReachable(g, [h]);
    forall id | Reachable(g, [h], id)
      ensures id in g
    {
      ReachesOn(g, ids, h, id);
    }
  }

  lemma ReachesOn(g: Graph, ids: seq<Id>, h: Id, id: Id)
    requires Reachable(g, ids, h) && Reachable(g, [h], id)
    ensures Reachable(g, ids, id)
  {
    var first :| PathTo(g, first, ids, h);
    var rest :| PathTo(g, rest, [h], id);
    assert PathTo(g, first[..|first| - 1] + rest, ids, id);
  }

  // Walks and writers that stay the same

  lemma {:induction false} WalkSame(g: Graph, g': Graph, queue: seq<Id>, seen: set<Id>)
    requires Walk(g', queue, seen).complete
    requires forall id <- Walk(g', queue, seen).visited :: id in g && id in g' && g[id] == g'[id]
    ensures Walk(g, queue, seen) == Walk(g', queue, seen)
    decreases |Mentioned(g') - seen| + |queue|
  {
    if queue != [] {
      WalkShrinks(g', queue[0], seen);
      var unseen := NewBases(g'[queue[0]], seen);
      var rest := Walk(g', queue[1..] + unseen, seen + SetOf(unseen));
      assert Walk(g', queue, seen).visited == [queue[0]] + rest.visited;
      WalkSame(g, g', queue[1..] + unseen, seen + SetOf(unseen));
    }
  }

  /** The two contexts write the address alike. */
  predicate SameAt(c: ContextState, c': ContextState, a: Address) {
    && c'.Written().Touches(a) == c.Written().Touches(a)
    && c'.Written().Effect(a) == c.Written().Effect(a)
  }

  lemma {:induction false} SameWriters(contexts: ContextMap, contexts': ContextMap, t: Tree, order: seq<Id>, a: Address)
    requires forall id <- order :: id in contexts && id in contexts' && SameAt(contexts[id], contexts'[id], a)
    ensures FirstWriter(contexts', order, a) == FirstWriter(contexts, order, a)
    ensures FromWriter(contexts', t, order, a) == FromWriter(contexts, t, order, a)
    decreases |order|
  {
    if order != [] {
      SameWriters(contexts, contexts', t, order[1..], a);
    }
  }

  lemma OrderFrame(contexts: ContextMap, contexts': ContextMap, id: Id)
    requires Whole(contexts', id) && id in contexts
    requires forall k <- Order(contexts', id) :: k in contexts && contexts[k].bases == contexts'[k].bases
    ensures Whole(contexts, id) && Order(contexts, id) == Order(contexts', id)
  {
    WalkSame(GraphOf(contexts), GraphOf(contexts'), [id], SetOf([id]));
  }

  lemma KeptFrame(m: ManagerState, m': ManagerState, id: Id, a: Address)
    requires Whole(m'.contexts, id) && id in m.contexts && m'.contexts[id].root == m.contexts[id].root
    requires m.contexts[id].root in m.trees && Extends(m.trees, m'.trees)
    requires forall k <- Order(m'.contexts, id) ::
      k in m.contexts && m.contexts[k].bases == m'.contexts[k].bases && SameAt(m.contexts[k], m'.contexts[k], a)
    ensures Whole(m.contexts, id) && Kept(m', id, a) == Kept(m, id, a)
  {
    OrderFrame(m.contexts, m'.contexts, id);
    SameWriters(m.contexts, m'.contexts, m.trees[m.contexts[id].root], Order(m.contexts, id), a);
  }

  // What is held, and what is read past a holder

  /** An untouched future that can be read holds what squashing its context keeps. */
  ghost predicate HeldRight(m: ManagerState, id: Id, a: Address)
    requires Whole(m.contexts, id) && m.contexts[id].root in m.trees && a in m.contexts[id].state
  {
    var f := m.contexts[id].state[a];
    f.Untouched() && f.Ready() ==> f.result == Kept(m, id, a)
  }

  ghost predicate ContextRight(m: ManagerState, id: Id)
    requires Whole(m.contexts, id)
  {
    m.contexts[id].root in m.trees && forall a <- m.contexts[id].state :: HeldRight(m, id, a)
  }

  ghost predicate AllRight(m: ManagerState) {
    forall id <- m.contexts :: Whole(m.contexts, id) ==> ContextRight(m, id)
  }

  /**
   * The context does not hold the address. The first context of its walk that does
   * has only read it, and its own walk shows another value there.
   */
  ghost predicate SeesAcross(m: ManagerState, id: Id, a: Address) {
    && Whole(m.contexts, id) && m.contexts[id].root in m.trees && a !in m.contexts[id].state
    && var h := FirstHolder(m.contexts, Order(m.contexts, id), a);
       && h.Some? && m.contexts[h.value].state[a].Untouched()
       && Whole(m.contexts, h.value) && m.contexts[h.value].root in m.trees
       && Kept(m, h.value, a) != Kept(m, id, a)
  }

  /** If both walks have the same first writer of the address, or none on one root, nothing is seen across. */
  lemma SameWriterIsNotAcross(m: ManagerState, id: Id, h: Id, a: Address)
    requires Whole(m.contexts, id) && m.contexts[id].root in m.trees
    requires FirstHolder(m.contexts, Order(m.contexts, id), a) == Some(h) && Whole(m.contexts, h)
    requires FirstWriter(m.contexts, Order(m.contexts, h), a) == FirstWriter(m.contexts, Order(m.contexts, id), a)
    requires m.contexts[h].root == m.contexts[id].root
    ensures !SeesAcross(m, id, a)
  {
  }

  // Reads

  /** The read is authorised, meets no unregistered context and waits for nothing. */
  ghost predicate CanReadAny(m: ManagerState, id: Id, addresses: set<Address>) {
    && Whole(m.contexts, id) && m.contexts[id].root in m.trees && GetReady(m, id, addresses)
    && forall a <- addresses :: AddressIsValid(a) && Covered(m.contexts[id].readList, a)
  }

  /** The read answers all addresses, and agrees with squash at those that are not stale. */
  ghost predicate ReadsKept(m: ManagerState, id: Id, addresses: set<Address>)
    requires Whole(m.contexts, id) && m.contexts[id].root in m.trees
  {
    var r := Get(m, id, addresses);
    && r.Ok? && r.value.Keys == addresses
    && forall a <- addresses :: r.value[a] == Kept(m, id, a) <==> !Stale(m.contexts[id], a)
  }

  ghost predicate AllReadsAgree(m: ManagerState) {
    forall id, addresses :: CanReadAny(m, id, addresses) ==> ReadsKept(m, id, addresses)
  }

  ghost predicate NobodySeesAcross(m: ManagerState) {
    forall id, a :: CanReadAny(m, id, {a}) ==> !SeesAcross(m, id, a)
  }

  /** A search that does not wait finds the first holder deleted or ready. */
  lemma {:induction false} HolderIsReady(contexts: ContextMap, queue: seq<Id>, seen: set<Id>, asked: set<Address>,
                                         a: Address)
    requires Walk(GraphOf(contexts), queue, seen).complete && FindReady(contexts, queue, seen, asked) && a in asked
    requires forall id <- Walk(GraphOf(contexts), queue, seen).visited :: id in contexts
    ensures var h := FirstHolder(contexts, Walk(GraphOf(contexts), queue, seen).visited, a);
      h.Some? && contexts[h.value].state[a].Untouched() ==> contexts[h.value].state[a].Ready()
    decreases |Mentioned(GraphOf(contexts)) - seen| + |queue|
  {
    if queue != [] {
      var g, c := GraphOf(contexts), contexts[queue[0]];
      WalkShrinks(g, queue[0], seen);
      var unseen := NewBases(c.bases, seen);
      var rest := Walk(g, queue[1..] + unseen, seen + SetOf(unseen)).visited;
      assert Walk(g, queue, seen).visited == [queue[0]] + rest;
      if a !in c.state {
        HolderIsReady(contexts, queue[1..] + unseen, seen + SetOf(unseen), asked - c.Hits(asked).Keys, a);
        assert ([queue[0]] + rest)[1..] == rest;
      }
    }
  }

  lemma {:induction false} FindReadyFewer(contexts: ContextMap, queue: seq<Id>, seen: set<Id>,
                                          asked: set<Address>, fewer: set<Address>)
    requires FindReady(contexts, queue, seen, asked) && fewer <= asked
    ensures FindReady(contexts, queue, seen, fewer)
    decreases |Mentioned(GraphOf(contexts)) - seen| + |queue|
  {
    if fewer != {} && queue != [] && queue[0] in contexts {
      var c := contexts[queue[0]];
      WalkShrinks(GraphOf(contexts), queue[0], seen);
      var unseen := NewBases(c.bases, seen);
      FindReadyFewer(contexts, queue[1..] + unseen, seen + SetOf(unseen),
                     asked - c.Hits(asked).Keys, fewer - c.Hits(fewer).Keys);
    }
  }

  lemma CanReadOne(m: ManagerState, id: Id, addresses: set<Address>, a: Address)
    requires CanReadAny(m, id, addresses) && a in addresses
    ensures CanReadAny(m, id, {a})
  {
    var c := m.contexts[id];
    FindReadyFewer(m.contexts, [id], {id}, addresses - c.state.Keys, {a} - c.state.Keys);
  }

  /** What the first holder, if it has only read the address, hands to a reader that does not hold it. */
  lemma HolderGives(m: ManagerState, id: Id, a: Address, h: Id)
    requires AllRight(m) && CanReadAny(m, id, {a}) && a !in m.contexts[id].state
    requires FirstHolder(m.contexts, Order(m.contexts, id), a) == Some(h) && m.contexts[h].state[a].Untouched()
    ensures Whole(m.contexts, h) && m.contexts[h].root in m.trees
    ensures m.contexts[h].state[a].result == Kept(m, h, a)
  {
    VisitedIsWhole(m.contexts, [id], h);
    assert ContextRight(m, h);
    WalkStartsThere(m.contexts, id);
    assert {a} - m.contexts[id].state.Keys == {a};
    HolderIsReady(m.contexts, [id], {id}, {a}, a);
    assert HeldRight(m, h, a);
  }

  /** Where everything held is right, a read agrees at an address unless it is stale or seen across. */
  lemma AgreesUnlessAcross(m: ManagerState, id: Id, a: Address)
    requires AllRight(m) && CanReadAny(m, id, {a}) && ContextsWf(m)
    ensures Agreeable(m.contexts, m.trees[m.contexts[id].root], id, Order(m.contexts, id), a)
       <==> !Stale(m.contexts[id], a) && !SeesAcross(m, id, a)
  {
    var h := FirstHolder(m.contexts, Order(m.contexts, id), a);
    assert ContextRight(m, id);
    if a in m.contexts[id].state {
      assert h == Some(id) && HeldRight(m, id, a);
    } else if h.Some? && m.contexts[h.value].state[a].Untouched() {
      HolderGives(m, id, a, h.value);
    }
  }

  lemma ReadAgreesAt(m: ManagerState, id: Id, addresses: set<Address>, a: Address)
    requires AllRight(m) && CanReadAny(m, id, addresses) && ContextsWf(m) && a in addresses
    ensures Get(m, id, addresses).Ok? && Get(m, id, addresses).value.Keys == addresses
    ensures Get(m, id, addresses).value[a] == Kept(m, id, a) <==> !Stale(m.contexts[id], a) && !SeesAcross(m, id, a)
  {
    GraphReadsExactly(m, id, addresses);
    KeptIsSquashed(m, id, a);
    CanReadOne(m, id, addresses, a);
    AgreesUnlessAcross(m, id, a);
  }

  lemma RightReadsAgree(m: ManagerState)
    requires ContextsWf(m) && AllRight(m) && NobodySeesAcross(m)
    ensures AllReadsAgree(m)
  {
    forall id, addresses | CanReadAny(m, id, addresses)
      ensures ReadsKept(m, id, addresses)
    {
      GraphReadsExactly(m, id, addresses);
      forall a | a in addresses
        ensures Get(m, id, addresses).value[a] == Kept(m, id, a) <==> !Stale(m.contexts[id], a)
      {
        CanReadOne(m, id, addresses, a);
        ReadAgreesAt(m, id, addresses, a);
      }
    }
  }

  lemma AgreeingIsRight(m: ManagerState, id: Id, a: Address)
    requires AllReadsAgree(m) && Readable(m) && Whole(m.contexts, id) && m.contexts[id].root in m.trees
    requires a in m.contexts[id].state
    ensures HeldRight(m, id, a)
  {
    var c := m.contexts[id];
    if c.state[a].Untouched() && c.state[a].Ready() {
      assert ReadableIn(c) && {a} - c.state.Keys == {};
      assert CanReadAny(m, id, {a});
      assert ReadsKept(m, id, {a});
      ReadsHeld(m, id, a);
    }
  }

  /**
   * On any base graphs: all authorised reads that need not wait agree with squash,
   * except at stale addresses, if and only if every readable untouched future holds
   * what squashing its own context keeps, and nobody sees across.
   */
  lemma AllReadsAgreeExactly(m: ManagerState)
    requires ContextsWf(m) && Readable(m)
    ensures AllReadsAgree(m) <==> AllRight(m) && NobodySeesAcross(m)
  {
    if AllReadsAgree(m) {
      forall id | id in m.contexts && Whole(m.contexts, id)
        ensures ContextRight(m, id)
      {
        forall a | a in m.contexts[id].state
          ensures HeldRight(m, id, a)
        {
          AgreeingIsRight(m, id, a);
        }
      }
      forall id, a | CanReadAny(m, id, {a})
        ensures !SeesAcross(m, id, a)
      {
        ReadAgreesAt(m, id, {a}, a);
        assert ReadsKept(m, id, {a});
      }
    }
    if AllRight(m) && NobodySeesAcross(m) {
      RightReadsAgree(m);
    }
  }
}
