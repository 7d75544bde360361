/** Where nothing is seen across: chains of contexts, and writes to contexts nobody is based on. */
module GraphChains {
  import opened Options
  import opened ContextGraph
  import opened Squash
  import opened Contexts
  import opened ManagerSpec
  import opened ManagerRuns
  import opened ReadCoherence
  import opened ReadRuns
  import opened GraphReads
  import opened GraphCoherence
  import opened GraphRuns

  // Chains

  /** On a chain, the first context that holds the address shows there what the reader shows. */
  lemma {:induction false} ChainHolder(contexts: ContextMap, t: Tree, id: Id, a: Address, h: Id)
    requires Chain(contexts, id) && FirstHolder(contexts, ChainIds(contexts, id), a) == Some(h)
    ensures Chain(contexts, h) && contexts[h].root == contexts[id].root
    ensures Lookup(ViewTree(contexts, t, h), a) == Lookup(ViewTree(contexts, t, id), a)
    decreases id
  {
    if a !in contexts[id].state && contexts[id].bases != [] {
      var base := contexts[id].bases[0];
      assert ChainIds(contexts, id)[1..] == ChainIds(contexts, base);
      ChainHolder(contexts, t, base, a, h);
    }
  }

  lemma ChainKept(m: ManagerState, id: Id, a: Address)
    requires Chain(m.contexts, id) && m.contexts[id].root in m.trees
    ensures Whole(m.contexts, id) && Order(m.contexts, id) == ChainIds(m.contexts, id)
    ensures Kept(m, id, a) == Lookup(ViewTree(m.contexts, m.trees[m.contexts[id].root], id), a)
  {
    SquashOfChain(m.contexts, m.trees[m.contexts[id].root], id);
    KeptIsSquashed(m, id, a);
  }

  /** Nothing is seen across on a chain. */
  lemma ChainIsNotAcross(m: ManagerState, id: Id, a: Address)
    requires Chain(m.contexts, id)
    ensures !SeesAcross(m, id, a)
  {
    if SeesAcross(m, id, a) {
      ChainKept(m, id, a);
      var h := FirstHolder(m.contexts, Order(m.contexts, id), a).value;
      ChainHolder(m.contexts, m.trees[m.contexts[id].root], id, a, h);
      ChainKept(m, h, a);
    }
  }

  /** A context created on a chain, on its root, takes nothing over across. */
  lemma ChainTakesNothing(m: ManagerState, base: Id, a: Address)
    requires Chain(m.contexts, base)
    ensures !TakesAcross(m, m.contexts[base].root, [base], a)
  {
    if TakesAcross(m, m.contexts[base].root, [base], a) {
      ChainKept(m, base, a);
      var h := FirstHolder(m.contexts, Order(m.contexts, base), a).value;
      ChainHolder(m.contexts, m.trees[m.contexts[base].root], base, a, h);
      ChainKept(m, h, a);
    }
  }

  /** Where all whole contexts are chains, the reads of any graph are the reads of chains. */
  lemma ChainReadsAreAll(m: ManagerState)
    requires forall id <- m.contexts :: Whole(m.contexts, id) ==> Chain(m.contexts, id)
    ensures AllReadsAgree(m) <==> ReadsAgree(m)
  {
    forall id, addresses
      ensures CanReadAny(m, id, addresses) <==> CanRead(m, id, addresses)
      ensures CanRead(m, id, addresses) ==> (ReadsKept(m, id, addresses) <==> ReadAgrees(m, id, addresses))
    {
      if CanRead(m, id, addresses) {
        ReadsSame(m, id, addresses);
      }
    }
  }

  lemma ReadsSame(m: ManagerState, id: Id, addresses: set<Address>)
    requires Chain(m.contexts, id) && m.contexts[id].root in m.trees
    ensures Whole(m.contexts, id) && (ReadsKept(m, id, addresses) <==> ReadAgrees(m, id, addresses))
  {
    SquashOfChain(m.contexts, m.trees[m.contexts[id].root], id);
    forall a | a in addresses
      ensures Kept(m, id, a) == Lookup(SquashedOnto(m.trees[m.contexts[id].root], m.contexts, [id]), a)
    {
      KeptIsSquashed(m, id, a);
    }
  }

  // Writes to contexts nobody is based on

  lemma MetIsBase(g: Graph, id: Id, k: Id)
    requires Reachable(g, [id], k) && k != id
    ensures exists i <- g :: k in g[i]
  {
    var path :| PathTo(g, path, [id], k);
    assert k in g[path[|path| - 2]];
  }

  lemma LeafIsNotMet(contexts: ContextMap, id: Id, cid: Id)
    requires Whole(contexts, id) && cid != id && forall k <- contexts :: cid !in contexts[k].bases
    ensures cid !in Order(contexts, id)
  {
    WalkVisitsReachable(GraphOf(contexts), [id]);
    if cid in Order(contexts, id) {
      MetIsBase(GraphOf(contexts), id, cid);
    }
  }

  /** A write to a context that nobody is based on spoils nothing, whatever the graph. */
  lemma LeafWriteSpoilsNothing(m: ManagerState, cid: Id, c': ContextState)
    requires ContextsWf(m) && cid in m.contexts && forall k <- m.contexts :: cid !in m.contexts[k].bases
    requires c'.bases == m.contexts[cid].bases
    ensures !SpoilsByReplacing(m, cid, c')
  {
    forall id, a
      ensures !ChangesKept(m, cid, c', id, a)
    {
      if ChangesKept(m, cid, c', id, a) {
        ReplaceKeepsOrder(m.contexts, cid, c', id);
        LeafIsNotMet(m.contexts, id, cid);
        KeptFrame(m, m.(contexts := m.contexts[cid := c']), id, a);
      }
    }
  }
}
