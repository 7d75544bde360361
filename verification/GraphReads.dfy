/** Reads and squash on any graph of base contexts. */
module GraphReads {
  import opened Options
  import opened ContextGraph
  import opened Squash
  import opened Contexts
  import opened ManagerSpec
  import opened ManagerRuns
  import opened ReadCoherence

  /** The first context of the walk that holds the address, set, deleted or taken over. */
  function FirstHolder(contexts: ContextMap, order: seq<Id>, a: Address): (h: Option<Id>)
    requires forall id <- order :: id in contexts
    ensures h.Some? ==> h.value in order && a in contexts[h.value].state
  {
    if order == [] then None
    else if a in contexts[order[0]].state then Some(order[0])
    else FirstHolder(contexts, order[1..], a)
  }

  /** The first context of the walk that writes the address. */
  function FirstWriter(contexts: ContextMap, order: seq<Id>, a: Address): (w: Option<Id>)
    requires forall id <- order :: id in contexts
    ensures w.Some? ==> w.value in order && contexts[w.value].Written().Touches(a)
  {
    if order == [] then None
    else if contexts[order[0]].Written().Touches(a) then Some(order[0])
    else FirstWriter(contexts, order[1..], a)
  }

  /** What the first writer leaves at the address, or the tree if nobody writes it. */
  function FromWriter(contexts: ContextMap, t: Tree, order: seq<Id>, a: Address): Option<Bytes>
    requires forall id <- order :: id in contexts
  {
    var w := FirstWriter(contexts, order, a);
    if w.Some? then contexts[w.value].Written().Effect(a) else Lookup(t, a)
  }

  // Squash takes the first writer's value

  lemma {:induction false} ReplayTakesWriter(contexts: ContextMap, t: Tree, order: seq<Id>, a: Address)
    requires forall id <- order :: id in contexts
    ensures Lookup(Replay(t, Reverse(WrittenBy(contexts, order))), a) == FromWriter(contexts, t, order, a)
    decreases |order|
  {
    if order != [] {
      var ws := WrittenBy(contexts, order);
      assert ws[1..] == WrittenBy(contexts, order[1..]);
      ReplayMore(t, Reverse(ws[1..]), ws[0]);
      ReplayTakesWriter(contexts, t, order[1..], a);
    }
  }

  /** On any graph, squash keeps what the first writer of the walk left. */
  lemma SquashTakesWriter(contexts: ContextMap, t: Tree, ids: seq<Id>, a: Address)
    ensures Lookup(SquashedOnto(t, contexts, ids), a) == FromWriter(contexts, t, SquashTrail(contexts, ids).visited, a)
  {
    var order := SquashTrail(contexts, ids).visited;
    SquashIsReplay(t, WrittenBy(contexts, order));
    ReplayTakesWriter(contexts, t, order, a);
  }

  // The search takes the first holder's value

  ghost predicate TakesHolders(contexts: ContextMap, order: seq<Id>, asked: set<Address>, found: Found)
    requires forall id <- order :: id in contexts
  {
    && found.values.Keys + found.missing == asked && found.values.Keys !! found.missing
    && forall a <- asked ::
         var h := FirstHolder(contexts, order, a);
         if h.Some? then a in found.values && found.values[a] == contexts[h.value].Held(a) else a in found.missing
  }

  lemma AddHolder(contexts: ContextMap, id: Id, rest: seq<Id>, asked: set<Address>, found: Found)
    requires id in contexts && forall i <- rest :: i in contexts
    requires TakesHolders(contexts, rest, asked - contexts[id].Hits(asked).Keys, found)
    ensures TakesHolders(contexts, [id] + rest, asked, Found(contexts[id].Hits(asked) + found.values, found.missing))
  {
    assert ([id] + rest)[1..] == rest;
  }

  lemma {:induction false} FindTakesHolders(contexts: ContextMap, queue: seq<Id>, seen: set<Id>, asked: set<Address>)
    requires Walk(GraphOf(contexts), queue, seen).complete
    ensures forall id <- Walk(GraphOf(contexts), queue, seen).visited :: id in contexts
    ensures Find(contexts, queue, seen, asked).Some?
    ensures TakesHolders(contexts, Walk(GraphOf(contexts), queue, seen).visited, asked,
                         Find(contexts, queue, seen, asked).value)
    decreases |Mentioned(GraphOf(contexts)) - seen| + |queue|
  {
    WalkStaysRegistered(GraphOf(contexts), queue, seen);
    if asked != {} && queue != [] {
      var g, c := GraphOf(contexts), contexts[queue[0]];
      WalkShrinks(g, queue[0], seen);
      var unseen := NewBases(c.bases, seen);
      var queue', seen', rest := queue[1..] + unseen, seen + SetOf(unseen), asked - c.Hits(asked).Keys;
      FindTakesHolders(contexts, queue', seen', rest);
      AddHolder(contexts, queue[0], Walk(g, queue', seen').visited, asked, Find(contexts, queue', seen', rest).value);
    }
  }

  // Reads

  /** The value a read returns: its own future's result, else the first holder's, else the tree's. */
  function FromHolder(contexts: ContextMap, t: Tree, id: Id, order: seq<Id>, a: Address): Option<Bytes>
    requires id in contexts && forall i <- order :: i in contexts
  {
    var h := FirstHolder(contexts, order, a);
    if a in contexts[id].state then contexts[id].state[a].result
    else if h.Some? then contexts[h.value].Held(a)
    else Lookup(t, a)
  }

  lemma WalkStartsThere(contexts: ContextMap, id: Id)
    requires id in contexts
    ensures SquashTrail(contexts, [id]) == Walk(GraphOf(contexts), [id], {id})
    ensures SquashTrail(contexts, [id]).visited != [] && SquashTrail(contexts, [id]).visited[0] == id
  {
    assert SetOf([id]) == {id};
  }

  /** On any graph a read that meets no error takes every address from its first holder. */
  lemma GetTakesHolders(m: ManagerState, id: Id, addresses: set<Address>, order: seq<Id>)
    requires id in m.contexts && m.contexts[id].root in m.trees && SquashTrail(m.contexts, [id]) == Trail(order, true)
    requires forall a <- addresses :: AddressIsValid(a) && Covered(m.contexts[id].readList, a)
    ensures Get(m, id, addresses).Ok? && Get(m, id, addresses).value.Keys == addresses
    ensures forall a <- addresses ::
      Get(m, id, addresses).value[a] == FromHolder(m.contexts, m.trees[m.contexts[id].root], id, order, a)
  {
    var c, rest := m.contexts[id], addresses - m.contexts[id].state.Keys;
    WalkStartsThere(m.contexts, id);
    FindTakesHolders(m.contexts, [id], {id}, rest);
    var found := Find(m.contexts, [id], {id}, rest).value;
    GetAssembles(m, id, addresses, found);
    AssembledTakesHolders(m.contexts, m.trees[c.root], id, order, addresses, found);
  }

  lemma AssembledTakesHolders(contexts: ContextMap, t: Tree, id: Id, order: seq<Id>, addresses: set<Address>,
                              found: Found)
    requires id in contexts && forall i <- order :: i in contexts
    requires TakesHolders(contexts, order, addresses - contexts[id].state.Keys, found)
    ensures Assembled(contexts[id], t, addresses, found).Keys == addresses
    ensures forall a <- addresses ::
      Assembled(contexts[id], t, addresses, found)[a] == FromHolder(contexts, t, id, order, a)
  {
    var rest := addresses - contexts[id].state.Keys;
    forall a | a in addresses
      ensures a in Assembled(contexts[id], t, addresses, found)
      ensures Assembled(contexts[id], t, addresses, found)[a] == FromHolder(contexts, t, id, order, a)
    {
      assert a in rest <==> a !in contexts[id].state;
      assert a in found.values || a in found.missing ==> a in found.values.Keys + found.missing;
    }
    assert forall a <- found.values :: a in found.values.Keys + found.missing;
    assert forall a <- found.missing :: a in found.values.Keys + found.missing;
  }

  /**
   * The first holder wrote the address, and not in the reading context by a
   * delete that left a value; or it took the address over with the very value
   * that the first writer behind it, or else the tree, has.
   */
  ghost predicate Agreeable(contexts: ContextMap, t: Tree, id: Id, order: seq<Id>, a: Address)
    requires id in contexts && forall i <- order :: i in contexts
  {
    var h := FirstHolder(contexts, order, a);
    h.Some? ==>
      if contexts[h.value].state[a].Untouched()
      then contexts[h.value].state[a].result == FromWriter(contexts, t, order, a)
      else !(h.value == id && Stale(contexts[id], a))
  }

  /** Nobody before the first holder writes the address, and nobody writes what nobody holds. */
  lemma {:induction false} HolderBeforeWriter(contexts: ContextMap, order: seq<Id>, a: Address)
    requires forall id <- order :: id in contexts
    ensures FirstHolder(contexts, order, a).None? ==> FirstWriter(contexts, order, a).None?
    ensures var h := FirstHolder(contexts, order, a);
      h.Some? && contexts[h.value].Written().Touches(a) ==> FirstWriter(contexts, order, a) == h
    decreases |order|
  {
    if order != [] && a !in contexts[order[0]].state {
      HolderBeforeWriter(contexts, order[1..], a);
    }
  }

  lemma AgreesIfAgreeable(contexts: ContextMap, t: Tree, id: Id, order: seq<Id>, a: Address)
    requires id in contexts && order != [] && order[0] == id && forall i <- order :: i in contexts
    requires forall i <- order :: a in contexts[i].state ==> contexts[i].state[a].Sound()
    ensures FromHolder(contexts, t, id, order, a) == FromWriter(contexts, t, order, a)
       <==> Agreeable(contexts, t, id, order, a)
  {
    HolderBeforeWriter(contexts, order, a);
    var h := FirstHolder(contexts, order, a);
    assert a in contexts[id].state ==> h == Some(id);
  }

  /**
   * Reads on any graph of registered contexts, with any number of bases: a read
   * agrees with squashing the reading context at an address if and only if the
   * first context of the walk that holds the address wrote it, or took it over
   * with the value that squash keeps.
   */
  lemma GraphReadsExactly(m: ManagerState, id: Id, addresses: set<Address>)
    requires ContextsWf(m) && id in m.contexts && SquashTrail(m.contexts, [id]).complete
    requires forall a <- addresses :: AddressIsValid(a) && Covered(m.contexts[id].readList, a)
    ensures Get(m, id, addresses).Ok? && Get(m, id, addresses).value.Keys == addresses
    ensures var t, order := m.trees[m.contexts[id].root], SquashTrail(m.contexts, [id]).visited;
      forall a <- addresses ::
        Get(m, id, addresses).value[a] == Lookup(SquashedOnto(t, m.contexts, [id]), a) <==>
        Agreeable(m.contexts, t, id, order, a)
  {
    var t, order := m.trees[m.contexts[id].root], SquashTrail(m.contexts, [id]).visited;
    WalkStartsThere(m.contexts, id);
    GetTakesHolders(m, id, addresses, order);
    forall a | a in addresses
      ensures Get(m, id, addresses).value[a] == Lookup(SquashedOnto(t, m.contexts, [id]), a) <==>
              Agreeable(m.contexts, t, id, order, a)
    {
      SquashTakesWriter(m.contexts, t, [id], a);
      AgreesIfAgreeable(m.contexts, t, id, order, a);
    }
  }
}
