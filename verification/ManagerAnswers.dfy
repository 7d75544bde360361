/** What the manager answers, and what it leaves as it was, in every state. */
module ManagerAnswers {
  import opened Options
  import opened ContextGraph
  import opened Squash
  import opened Contexts
  import opened ManagerSpec
  import opened GraphReads
  import opened Permissions

  // The search

  /** No context that the walk visits holds the address. */
  ghost predicate NobodyHolds(contexts: ContextMap, visited: seq<Id>, a: Address) {
    forall id <- visited :: id in contexts ==> a !in contexts[id].state
  }

  /** The search comes to an unregistered context while it still looks for an address. */
  ghost predicate MeetsMissing(contexts: ContextMap, queue: seq<Id>, seen: set<Id>, asked: set<Address>) {
    var trail := Walk(GraphOf(contexts), queue, seen);
    !trail.complete && exists a <- asked :: NobodyHolds(contexts, trail.visited, a)
  }

  lemma {:induction false} FindFailsExactly(contexts: ContextMap, queue: seq<Id>, seen: set<Id>, asked: set<Address>)
    ensures Find(contexts, queue, seen, asked).None? <==> MeetsMissing(contexts, queue, seen, asked)
    decreases |Mentioned(GraphOf(contexts)) - seen| + |queue|
  {
    if asked != {} && queue != [] {
      if queue[0] in contexts {
        FindFailsOn(contexts, queue, seen, asked);
      } else {
        var a :| a in asked;
        assert NobodyHolds(contexts, Walk(GraphOf(contexts), queue, seen).visited, a);
      }
    }
  }

  lemma {:induction false} FindFailsOn(contexts: ContextMap, queue: seq<Id>, seen: set<Id>, asked: set<Address>)
    requires asked != {} && queue != [] && queue[0] in contexts
    ensures Find(contexts, queue, seen, asked).None? <==> MeetsMissing(contexts, queue, seen, asked)
    decreases |Mentioned(GraphOf(contexts)) - seen| + |queue|, 0
  {
    var g, c := GraphOf(contexts), contexts[queue[0]];
    WalkShrinks(g, queue[0], seen);
    var unseen := NewBases(c.bases, seen);
    var queue', seen', rest := queue[1..] + unseen, seen + SetOf(unseen), asked - c.Hits(asked).Keys;
    FindFailsExactly(contexts, queue', seen', rest);
    var visited := Walk(g, queue', seen').visited;
    assert Walk(g, queue, seen).visited == [queue[0]] + visited;
    forall a
      ensures a in asked && NobodyHolds(contexts, [queue[0]] + visited, a)
         <==> a in rest && NobodyHolds(contexts, visited, a)
    {
      assert queue[0] in [queue[0]] + visited;
    }
  }

  /** Every address asked for is found or missing. */
  predicate Covers(found: Found, asked: set<Address>) {
    found.values.Keys + found.missing == asked && found.values.Keys !! found.missing
  }

  lemma CoversMore(c: ContextState, asked: set<Address>, found: Found)
    requires Covers(found, asked - c.Hits(asked).Keys)
    ensures Covers(Found(c.Hits(asked) + found.values, found.missing), asked)
  {
    assert c.Hits(asked).Keys <= asked;
  }

  lemma {:induction false} FindCovers(contexts: ContextMap, queue: seq<Id>, seen: set<Id>, asked: set<Address>)
    requires Find(contexts, queue, seen, asked).Some?
    ensures Covers(Find(contexts, queue, seen, asked).value, asked)
    decreases |Mentioned(GraphOf(contexts)) - seen| + |queue|
  {
    if asked != {} && queue != [] {
      var c := contexts[queue[0]];
      WalkShrinks(GraphOf(contexts), queue[0], seen);
      var unseen := NewBases(c.bases, seen);
      var queue', seen', rest := queue[1..] + unseen, seen + SetOf(unseen), asked - c.Hits(asked).Keys;
      FindCovers(contexts, queue', seen', rest);
      CoversMore(c, asked, Find(contexts, queue', seen', rest).value);
    }
  }

  // Creating a context

  /**
   * A creation is refused for an invalid input or output; it fails if a base is
   * unregistered, or the search for the full addresses among the inputs comes to an
   * unregistered context. Otherwise it succeeds.
   */
  lemma CreateAnswersExactly(m: ManagerState, root: Root, bases: seq<Id>, inputs: seq<string>, outputs: seq<string>)
    ensures var r := Create(m, root, bases, inputs, outputs).1;
      var invalid := exists s :: (s in inputs || s in outputs) && !NamespaceIsValid(s);
      var missing := (exists b <- bases :: b !in m.contexts)
                     || MeetsMissing(m.contexts, bases, SetOf(bases), set a | a in inputs && |a| == 70);
      r == if invalid then Err(InvalidNamespace) else if missing then Err(MissingContext) else Ok(m.nextId)
  {
    FindFailsExactly(m.contexts, bases, SetOf(bases), Wanted(inputs));
    assert forall s :: s in inputs + outputs <==> s in inputs || s in outputs;
  }

  /** A refused creation changes nothing; a new context holds exactly the full addresses among its inputs. */
  lemma CreateAddsExactly(m: ManagerState, root: Root, bases: seq<Id>, inputs: seq<string>, outputs: seq<string>)
    ensures var (m', r) := Create(m, root, bases, inputs, outputs);
      && (r.Err? ==> m' == m)
      && (r.Ok? ==>
            && m'.trees == m.trees && m'.inflated == m.inflated && m'.nextId == m.nextId + 1
            && m'.contexts == m.contexts[m.nextId := m'.contexts[m.nextId]]
            && var c := m'.contexts[m.nextId];
               && c == ContextState(root, inputs, outputs, bases, c.state, false)
               && forall a :: a in c.state <==> a in inputs && |a| == 70)
  {
    if Create(m, root, bases, inputs, outputs).1.Ok? {
      FindCovers(m.contexts, bases, SetOf(bases), Wanted(inputs));
      var found := Find(m.contexts, bases, SetOf(bases), Wanted(inputs)).value;
      var c := NewContext(root, bases, inputs, outputs, found);
      assert c.state.Keys == found.values.Keys + found.missing;
      assert m.contexts[m.nextId := c] == Create(m, root, bases, inputs, outputs).0.contexts;
    }
  }

  // Reading

  /** The context is registered on a known root, and no address asked for is refused. */
  ghost predicate MayRead(m: ManagerState, cid: Id, addresses: set<Address>) {
    && cid in m.contexts && m.contexts[cid].root in m.trees
    && forall a <- addresses :: !Refused(m.contexts[cid].readList, a)
  }

  /**
   * A read from an unregistered context is answered with nothing. An authorised one
   * answers all addresses asked for, or none at all, exactly if it does not hold all
   * of them itself and the search comes to an unregistered context.
   */
  lemma GetAnswersExactly(m: ManagerState, cid: Id, addresses: set<Address>)
    ensures cid !in m.contexts ==> Get(m, cid, addresses) == Ok(map[])
    ensures MayRead(m, cid, addresses) ==>
      var r := Get(m, cid, addresses);
      if MeetsMissing(m.contexts, [cid], {cid}, set a | a in addresses && a !in m.contexts[cid].state)
      then r == Ok(map[])
      else r.Ok? && r.value.Keys == addresses
  {
    if MayRead(m, cid, addresses) {
      var c := m.contexts[cid];
      var rest := addresses - c.state.Keys;
      assert rest == set a | a in addresses && a !in c.state;
      FindFailsExactly(m.contexts, [cid], {cid}, rest);
      GetRefusesExactly(m, cid, addresses);
      if rest == {} || Find(m.contexts, [cid], {cid}, rest).None? {
        AnswersDirectly(m, cid, addresses, rest);
      } else {
        FindCovers(m.contexts, [cid], {cid}, rest);
        AnswersAll(m, cid, addresses, rest, Find(m.contexts, [cid], {cid}, rest).value);
      }
    }
  }

  lemma AnswersDirectly(m: ManagerState, cid: Id, addresses: set<Address>, rest: set<Address>)
    requires cid in m.contexts && Get(m, cid, addresses) != Err(NotAuthorized)
    requires rest == addresses - m.contexts[cid].state.Keys
    requires rest == {} || Find(m.contexts, [cid], {cid}, rest).None?
    ensures var r := Get(m, cid, addresses);
      if rest == {} then r.Ok? && r.value.Keys == addresses else r == Ok(map[])
  {
    if rest == {} {
      var direct := map a | a in addresses && a in m.contexts[cid].state :: m.contexts[cid].state[a].result;
      assert forall a <- addresses :: a in m.contexts[cid].state || a in rest;
      assert direct.Keys == addresses;
    }
  }

  lemma AnswersAll(m: ManagerState, cid: Id, addresses: set<Address>, rest: set<Address>, found: Found)
    requires cid in m.contexts && Get(m, cid, addresses) != Err(NotAuthorized) && m.contexts[cid].root in m.trees
    requires rest == addresses - m.contexts[cid].state.Keys && rest != {}
    requires Find(m.contexts, [cid], {cid}, rest) == Some(found) && found.values.Keys + found.missing == rest
    ensures Get(m, cid, addresses).Ok? && Get(m, cid, addresses).value.Keys == addresses
  {
    var direct := map a | a in addresses && a in m.contexts[cid].state :: m.contexts[cid].state[a].result;
    assert direct.Keys + rest == addresses;
  }

  // Squashing

  /** Squash freezes the contexts it visits, and drops them only in a clean-up that succeeds. */
  lemma SquashTouchesExactly(m: ManagerState, root: Root, ids: seq<Id>, persist: bool, cleanUp: bool,
                             rootOf: Tree -> Root)
    ensures var (m', r) := SquashRun(m, root, ids, persist, cleanUp, rootOf);
      && m'.nextId == m.nextId && m'.addressQueue == m.addressQueue && m'.inflated == m.inflated
      && (forall id :: id in m'.contexts <==>
            id in m.contexts && !(r.Ok? && cleanUp && id in SquashTrail(m.contexts, ids).visited))
      && (forall id <- m'.contexts ::
            if id in SquashTrail(m.contexts, ids).visited
            then m'.contexts[id].readOnly && m'.contexts[id].Written() == m.contexts[id].Written()
            else m'.contexts[id] == m.contexts[id])
      && (r.Err? ==> m'.trees == m.trees)
  {
    var (m', r) := SquashRun(m, root, ids, persist, cleanUp, rootOf);
    var visited := SquashTrail(m.contexts, ids).visited;
    forall id | id in visited
      ensures m.contexts[id].Frozen().Written() == m.contexts[id].Written()
    {
      assert m.contexts[id].Frozen().Written().sets == m.contexts[id].Written().sets;
      assert m.contexts[id].Frozen().Written().deletes == m.contexts[id].Written().deletes;
    }
    assert forall id :: id in SetOf(visited) <==> id in visited;
  }

  /** How squash fails. */
  lemma SquashFailsExactly(m: ManagerState, root: Root, ids: seq<Id>, persist: bool, cleanUp: bool,
                           rootOf: Tree -> Root)
    ensures var r := SquashRun(m, root, ids, persist, cleanUp, rootOf).1;
      var missing := exists id :: Reachable(GraphOf(m.contexts), ids, id) && id !in m.contexts;
      && (r == Err(MissingContext) <==> missing)
      && (r == Err(UnknownRoot) <==> !missing && root !in m.trees)
      && (r.Ok? <==> !missing && root in m.trees)
  {
    WalkVisitsReachable(GraphOf(m.contexts), ids);
    assert forall id :: id in GraphOf(m.contexts) <==> id in m.contexts;
  }

  /** What squash collects at an address is what its first writer did. */
  lemma {:induction false} CollectsFirst(contexts: ContextMap, order: seq<Id>, d: Delta, a: Address)
    requires forall id <- order :: id in contexts
    ensures var d', w := Collect(d, WrittenBy(contexts, order)), FirstWriter(contexts, order, a);
      if d.Has(a) || w.None? then (a in d'.updates <==> a in d.updates) && (a in d'.deletes <==> a in d.deletes)
      else
        && (a in d'.updates <==> a in contexts[w.value].Written().sets)
        && (a in d'.deletes <==> a !in contexts[w.value].Written().sets)
    decreases |order|
  {
    if order != [] {
      var ws := WrittenBy(contexts, order);
      assert ws[1..] == WrittenBy(contexts, order[1..]);
      CollectsFirst(contexts, order[1..], Absorb(d, ws[0]), a);
    }
  }

  /** Squash has nothing to do at the address: nobody writes it, or it is deleted and the tree does not hold it. */
  ghost predicate NothingToDo(contexts: ContextMap, t: Tree, order: seq<Id>, a: Address)
    requires forall id <- order :: id in contexts
  {
    var w := FirstWriter(contexts, order, a);
    w.Some? ==> contexts[w.value].Written().Effect(a) == None && a !in t
  }

  lemma CollectsNothingExactly(contexts: ContextMap, t: Tree, ids: seq<Id>, order: seq<Id>)
    requires order == SquashTrail(contexts, ids).visited
    ensures var d := Collected(contexts, ids);
      d.(deletes := d.deletes * t.Keys) == NoDelta <==> forall a :: NothingToDo(contexts, t, order, a)
  {
    var d := Collected(contexts, ids);
    forall a
      ensures NothingToDo(contexts, t, order, a) <==> a !in d.updates && a !in d.deletes * t.Keys
    {
      CollectsFirst(contexts, order, NoDelta, a);
    }
    if d.updates != map[] {
      var a :| a in d.updates;
      assert !NothingToDo(contexts, t, order, a);
    }
    if d.deletes * t.Keys != {} {
      var a :| a in d.deletes * t.Keys;
      assert !NothingToDo(contexts, t, order, a);
    }
  }

  /**
   * A squash that succeeds returns the given root if it has nothing to do at any
   * address, and otherwise the root of the squashed tree, which is stored on request.
   */
  lemma SquashReturnsExactly(m: ManagerState, root: Root, ids: seq<Id>, persist: bool, cleanUp: bool,
                             rootOf: Tree -> Root)
    requires SquashRun(m, root, ids, persist, cleanUp, rootOf).1.Ok? && root in m.trees
    ensures var (m', r) := SquashRun(m, root, ids, persist, cleanUp, rootOf);
      var t := SquashedOnto(m.trees[root], m.contexts, ids);
      if forall a :: NothingToDo(m.contexts, m.trees[root], SquashTrail(m.contexts, ids).visited, a)
      then r == Ok(root) && m'.trees == m.trees && t == m.trees[root]
      else r == Ok(rootOf(t)) && m'.trees == if persist then m.trees[rootOf(t) := t] else m.trees
  {
    var d := Collected(m.contexts, ids);
    CollectsNothingExactly(m.contexts, m.trees[root], ids, SquashTrail(m.contexts, ids).visited);
    UpdateNothing(m.trees[root]);
    assert SquashedOnto(m.trees[root], m.contexts, ids)
        == Update(m.trees[root], d.(deletes := d.deletes * m.trees[root].Keys));
  }
}
