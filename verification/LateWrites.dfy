/** What a write to a context does to those already built on it. */
module LateWrites {
  import opened Options
  import opened ContextGraph
  import opened Squash
  import opened Contexts
  import opened ManagerSpec
  import opened ReadCoherence

  /** At this address the context sees through its bases down to the given one. */
  ghost predicate Through(contexts: ContextMap, id: Id, cid: Id, a: Address)
    requires Chain(contexts, id)
    decreases id
  {
    contexts[id].bases != [] &&
    var base := contexts[id].bases[0];
    assert Chain(contexts, base);
    base == cid || (!contexts[base].Written().Touches(a) && Through(contexts, base, cid, a))
  }

  lemma {:induction false} ThroughIsBelow(contexts: ContextMap, t: Tree, id: Id, cid: Id, a: Address)
    requires Chain(contexts, id) && Through(contexts, id, cid, a)
    ensures cid < id && Chain(contexts, cid) && contexts[cid].root == contexts[id].root
    ensures Lookup(BaseTree(contexts, t, id), a) == Lookup(ViewTree(contexts, t, cid), a)
    decreases id
  {
    var base := contexts[id].bases[0];
    if base != cid {
      ThroughIsBelow(contexts, t, base, cid, a);
    }
  }

  lemma {:induction false} ReplaceKeepsChain(contexts: ContextMap, cid: Id, c': ContextState, id: Id)
    requires cid in contexts && c'.bases == contexts[cid].bases && c'.root == contexts[cid].root
    ensures Chain(contexts[cid := c'], id) <==> Chain(contexts, id)
    decreases id
  {
    if id in contexts && |contexts[id].bases| == 1 && contexts[id].bases[0] < id {
      ReplaceKeepsChain(contexts, cid, c', contexts[id].bases[0]);
    }
  }

  /** What the replaced context shows at an address. */
  ghost function Shown(contexts: ContextMap, t: Tree, cid: Id, c': ContextState, a: Address): Option<Bytes>
    requires Chain(contexts, cid)
  {
    Lookup(Apply(BaseTree(contexts, t, cid), c'.Written()), a)
  }

  lemma NotThroughItself(contexts: ContextMap, cid: Id, a: Address)
    requires Chain(contexts, cid)
    ensures !Through(contexts, cid, cid, a)
  {
    if Through(contexts, cid, cid, a) {
      ThroughIsBelow(contexts, map[], cid, cid, a);
    }
  }

  /** Replacing a context leaves alone the addresses not seen through to it. */
  lemma {:induction false} BaseKept(contexts: ContextMap, contexts': ContextMap, t: Tree, cid: Id, c': ContextState,
                                    id: Id, a: Address)
    requires cid in contexts && contexts' == contexts[cid := c'] && Chain(contexts, id) && Chain(contexts', id)
    requires c'.bases == contexts[cid].bases && !Through(contexts, id, cid, a)
    ensures Lookup(BaseTree(contexts', t, id), a) == Lookup(BaseTree(contexts, t, id), a)
    decreases id
  {
    if contexts[id].bases != [] {
      var base := contexts[id].bases[0];
      assert contexts'[base] == contexts[base];
      if !contexts[base].Written().Touches(a) {
        BaseKept(contexts, contexts', t, cid, c', base, a);
      }
    }
  }

  /** At the addresses seen through to it, bases show what the replaced context shows. */
  lemma {:induction false} BaseShown(contexts: ContextMap, contexts': ContextMap, t: Tree, cid: Id, c': ContextState,
                                     id: Id, a: Address)
    requires cid in contexts && contexts' == contexts[cid := c'] && Chain(contexts, id) && Chain(contexts', id)
    requires c'.bases == contexts[cid].bases && Through(contexts, id, cid, a)
    ensures Chain(contexts, cid) && Lookup(BaseTree(contexts', t, id), a) == Shown(contexts, t, cid, c', a)
    decreases id
  {
    var base := contexts[id].bases[0];
    if base == cid {
      NotThroughItself(contexts, cid, a);
      BaseKept(contexts, contexts', t, cid, c', cid, a);
    } else {
      BaseShown(contexts, contexts', t, cid, c', base, a);
    }
  }

  // Which writes come too late

  /** An untouched future took the address's value over from the context, which would now show another. */
  ghost predicate OvertakesAt(m: ManagerState, cid: Id, c': ContextState, id: Id, a: Address) {
    && cid in m.contexts && m.contexts[cid].root in m.trees && Chain(m.contexts, cid)
    && Chain(m.contexts, id) && a in m.contexts[id].state && m.contexts[id].state[a].Untouched()
    && Through(m.contexts, id, cid, a)
    && var t := m.trees[m.contexts[cid].root];
       Shown(m.contexts, t, cid, c', a) != Lookup(ViewTree(m.contexts, t, cid), a)
  }

  ghost predicate Overtakes(m: ManagerState, cid: Id, c': ContextState) {
    exists id, a :: OvertakesAt(m, cid, c', id, a)
  }

  /** A future of another context stays faithful exactly if the write does not overtake it. */
  lemma OtherFaithfulExactly(m: ManagerState, m': ManagerState, cid: Id, c': ContextState, id: Id, a: Address)
    requires cid in m.contexts && c'.bases == m.contexts[cid].bases && c'.root == m.contexts[cid].root
    requires m' == m.(contexts := m.contexts[cid := c']) && id != cid
    requires Chain(m.contexts, id) && Chain(m'.contexts, id)
    requires m.contexts[id].root in m.trees && a in m.contexts[id].state
    requires FutureFaithful(m.contexts, m.trees[m.contexts[id].root], id, a)
    ensures FutureFaithful(m'.contexts, m.trees[m.contexts[id].root], id, a) <==> !OvertakesAt(m, cid, c', id, a)
  {
    var t := m.trees[m.contexts[id].root];
    if Through(m.contexts, id, cid, a) {
      ThroughIsBelow(m.contexts, t, id, cid, a);
      BaseShown(m.contexts, m'.contexts, t, cid, c', id, a);
    } else {
      BaseKept(m.contexts, m'.contexts, t, cid, c', id, a);
    }
  }

  /** The replaced context's own futures stay faithful. */
  lemma OwnStaysFaithful(m: ManagerState, m': ManagerState, cid: Id, c': ContextState, a: Address)
    requires cid in m.contexts && m' == m.(contexts := m.contexts[cid := c'])
    requires Chain(m.contexts, cid) && Chain(m'.contexts, cid) && ContextFaithful(m, cid) && a in c'.state
    requires ContextStep(m.trees[m.contexts[cid].root], m.contexts[cid], c')
    ensures FutureFaithful(m'.contexts, m.trees[m.contexts[cid].root], cid, a)
  {
    var t := m.trees[m.contexts[cid].root];
    NotThroughItself(m.contexts, cid, a);
    BaseKept(m.contexts, m'.contexts, t, cid, c', cid, a);
    assert FutureStep(t, a, m.contexts[cid], c'.state[a]);
    if c'.state[a].Untouched() {
      assert FutureFaithful(m.contexts, t, cid, a);
    }
  }

  lemma NotOvertakenStaysFaithful(m: ManagerState, m': ManagerState, cid: Id, c': ContextState)
    requires Faithful(m) && cid in m.contexts && m.contexts[cid].root in m.trees
    requires ContextStep(m.trees[m.contexts[cid].root], m.contexts[cid], c')
    requires m' == m.(contexts := m.contexts[cid := c']) && !Overtakes(m, cid, c')
    ensures Faithful(m')
  {
    forall id | id in m'.contexts && Chain(m'.contexts, id)
      ensures ContextFaithful(m', id)
    {
      ReplaceKeepsChain(m.contexts, cid, c', id);
      assert ContextFaithful(m, id);
      forall a | a in m'.contexts[id].state
        ensures FutureFaithful(m'.contexts, m.trees[m.contexts[id].root], id, a)
      {
        if id == cid {
          OwnStaysFaithful(m, m', cid, c', a);
        } else {
          OtherFaithfulExactly(m, m', cid, c', id, a);
        }
      }
    }
  }

  lemma OvertakenIsUnfaithful(m: ManagerState, m': ManagerState, cid: Id, c': ContextState)
    requires Faithful(m) && Overtakes(m, cid, c') && m' == m.(contexts := m.contexts[cid := c'])
    requires c'.bases == m.contexts[cid].bases && c'.root == m.contexts[cid].root
    ensures !Faithful(m')
  {
    var id, a :| OvertakesAt(m, cid, c', id, a);
    ThroughIsBelow(m.contexts, map[], id, cid, a);
    ReplaceKeepsChain(m.contexts, cid, c', id);
    assert ContextFaithful(m, id);
    OtherFaithfulExactly(m, m', cid, c', id, a);
    assert !ContextFaithful(m', id);
  }

  lemma ReadsHeld(m: ManagerState, id: Id, a: Address)
    requires id in m.contexts && a in m.contexts[id].state && AddressIsValid(a) && Covered(m.contexts[id].readList, a)
    ensures Get(m, id, {a}) == Ok(map[a := m.contexts[id].state[a].result])
  {
    var c := m.contexts[id];
    assert {a} - c.state.Keys == {};
    var got := Get(m, id, {a});
    assert got.Ok?;
    assert got.value == map[a := c.state[a].result];
  }

  lemma OvertakenView(m: ManagerState, m': ManagerState, cid: Id, c': ContextState, id: Id, a: Address, t: Tree)
    requires OvertakesAt(m, cid, c', id, a) && m' == m.(contexts := m.contexts[cid := c'])
    requires c'.bases == m.contexts[cid].bases && c'.root == m.contexts[cid].root
    requires m.contexts[id].root in m.trees && t == m.trees[m.contexts[id].root]
    requires FutureFaithful(m.contexts, t, id, a) && m.contexts[id].state[a].Ready()
    ensures id != cid && Chain(m'.contexts, id)
    ensures m.contexts[id].state[a].result != Lookup(ViewTree(m'.contexts, t, id), a)
  {
    ThroughIsBelow(m.contexts, t, id, cid, a);
    ReplaceKeepsChain(m.contexts, cid, c', id);
    BaseShown(m.contexts, m'.contexts, t, cid, c', id, a);
  }

  /**
   * A read that is due an overtaken value disagrees with squash: the reader
   * returns what it took over, squash what the base shows now.
   */
  lemma OvertakenReadDisagrees(m: ManagerState, m': ManagerState, cid: Id, c': ContextState, id: Id, a: Address)
    requires Faithful(m) && OvertakesAt(m, cid, c', id, a) && m' == m.(contexts := m.contexts[cid := c'])
    requires c'.bases == m.contexts[cid].bases && c'.root == m.contexts[cid].root
    requires Readable(m) && m.contexts[id].state[a].Ready()
    ensures m.contexts[id].root in m.trees
    ensures Get(m', id, {a}) == Ok(map[a := m.contexts[id].state[a].result])
    ensures m.contexts[id].state[a].result != Lookup(SquashedOnto(m.trees[m.contexts[id].root], m'.contexts, [id]), a)
  {
    assert ContextFaithful(m, id) && ReadableIn(m.contexts[id]);
    var t := m.trees[m.contexts[id].root];
    assert FutureFaithful(m.contexts, t, id, a);
    OvertakenView(m, m', cid, c', id, a, t);
    SquashOfChain(m'.contexts, t, id);
    ReadsHeld(m', id, a);
  }
}
