/** The context manager object and the two thread bodies that share its queues. */
module ContextManagers {
  import opened Options
  import opened ContextGraph
  import opened Squash
  import opened Contexts
  import opened ManagerSpec

  class ContextManager {
    /** The hash that names a tree's contents. */
    const rootOf: Tree -> Root
    /** The database: the tree stored under each known root. */
    var trees: map<Root, Tree>
    var contexts: map<Id, ExecutionContext>
    var nextId: Id
    var addressQueue: seq<ReadItem>
    var inflated: seq<InflatedItem>

    /** Ids are handed out in order, and no two name the same object. */
    ghost predicate Valid()
      reads this
    {
      && (forall i, j :: i in contexts && j in contexts && i != j ==> contexts[i] != contexts[j])
      && (forall i <- contexts :: i < nextId)
    }

    ghost function Registered(): ContextMap
      reads this, contexts.Values
    {
      map id | id in contexts :: contexts[id].View()
    }

    ghost function View(): ManagerState
      reads this, contexts.Values
    {
      ManagerState(trees, Registered(), nextId, addressQueue, inflated)
    }

    constructor (rootOf: Tree -> Root, trees: map<Root, Tree>)
      ensures Valid()
      ensures View() == ManagerState(trees, map[], 0, [], [])
    {
      this.rootOf := rootOf;
      this.trees := trees;
      contexts := map[];
      nextId := 0;
      addressQueue := [];
      inflated := [];
    }

    /** Changing one context changes the registry there and nowhere else. */
    twostate lemma OnlyAt(cid: Id)
      requires Valid() && unchanged(this) && cid in contexts
      requires forall id <- contexts :: id != cid ==> unchanged(contexts[id])
      ensures Registered() == old(Registered())[cid := contexts[cid].View()]
    {
    }

    twostate lemma Untouched()
      requires unchanged(`contexts) && forall id <- contexts :: unchanged(contexts[id])
      ensures Registered() == old(Registered())
    {
      assert forall id <- contexts :: contexts[id].View() == old(contexts[id].View());
    }

    method FindAddressValuesInChain(bases: seq<Id>, addresses: set<Address>)
      returns (found: Option<Found>)
      requires Valid()
      requires FindReady(Registered(), bases, SetOf(bases), addresses)
      ensures found == Find(Registered(), bases, SetOf(bases), addresses)
    {
      var queue := bases;
      var searched := SetOf(bases);
      var asked := addresses;
      var values: map<Address, Option<Bytes>> := map[];
      ghost var all := Registered();
      AddingNothing(Find(all, queue, searched, asked));
      while asked != {}
        invariant all == Registered()
        invariant FindReady(all, queue, searched, asked)
        invariant Adding(values, Find(all, queue, searched, asked)) == Find(all, bases, SetOf(bases), addresses)
        decreases |Mentioned(GraphOf(all)) - searched| + |queue|
      {
        if queue == [] {
          break;
        }
        var id := queue[0];
        if id !in contexts {
          return None;
        }
        var context := contexts[id];
        assert all[id] == context.View();
        label searching:
        var hits := context.Search(asked);
        Untouched@searching();
        var unseen := NewBases(context.bases, searched);
        FindStep(all, queue, searched, asked, values);
        values := values + hits;
        asked := asked - hits.Keys;
        queue := queue[1..] + unseen;
        searched := searched + SetOf(unseen);
      }
      AddingAtEnd(values, asked);
      return Some(Found(values, asked));
    }

    static method NewExecutionContext(root: Root, bases: seq<Id>, inputs: seq<string>, outputs: seq<string>,
                                      found: Found)
      returns (context: ExecutionContext)
      ensures fresh(context)
      ensures context.View() == NewContext(root, bases, inputs, outputs, found)
    {
      context := new ExecutionContext(root, inputs, outputs, bases);
      context.CreateInitial(found.values);
      if found.missing != {} {
        context.CreatePrefetch(found.missing);
      } else {
        NoPrefetch(context.View());
      }
    }

    method Register(context: ExecutionContext)
      requires Valid() && context !in contexts.Values
      modifies this`contexts, this`nextId
      ensures Valid() && nextId == old(nextId) + 1
      ensures Registered() == old(Registered())[old(nextId) := context.View()]
    {
      contexts := contexts[nextId := context];
      nextId := nextId + 1;
    }

    method AddContext(root: Root, bases: seq<Id>, inputs: seq<string>, outputs: seq<string>, found: Found)
      returns (id: Id)
      requires Valid()
      modifies this
      ensures Valid() && id == old(nextId)
      ensures View() == WithContext(old(View()), NewContext(root, bases, inputs, outputs, found), found.missing)
    {
      var context := NewExecutionContext(root, bases, inputs, outputs, found);
      id := nextId;
      if found.missing != {} {
        addressQueue := addressQueue + [ReadItem(id, root, found.missing)];
      }
      Untouched();
      Register(context);
    }

    method CreateContext(root: Root, bases: seq<Id>, inputs: seq<string>, outputs: seq<string>)
      returns (r: Outcome<Id, Error>)
      requires Valid()
      requires FindReady(Registered(), bases, SetOf(bases), Wanted(inputs))
      modifies this
      ensures Valid()
      ensures (View(), r) == Create(old(View()), root, bases, inputs, outputs)
    {
      if exists s <- inputs + outputs :: !NamespaceIsValid(s) {
        return Err(InvalidNamespace);
      }
      var found := FindAddressValuesInChain(bases, Wanted(inputs));
      if found.None? || exists b <- bases :: b !in contexts {
        return Err(MissingContext);
      }
      Untouched();
      var id := AddContext(root, bases, inputs, outputs, found.value);
      return Ok(id);
    }

    method DeleteContexts(ids: set<Id>)
      requires Valid()
      modifies this
      ensures Valid()
      ensures View() == old(View()).(contexts := old(Registered()) - ids)
    {
      var todo := ids;
      while todo != {}
        invariant todo <= ids
        invariant contexts == old(contexts) - (ids - todo)
        invariant unchanged(`trees) && unchanged(`nextId) && unchanged(`addressQueue) && unchanged(`inflated)
      {
        var id :| id in todo;
        if id in contexts {
          contexts := contexts - {id};
        }
        todo := todo - {id};
      }
    }

    method Set(cid: Id, items: seq<(Address, Bytes)>) returns (r: Outcome<bool, Error>)
      requires Valid()
      modifies contexts.Values
      ensures Valid()
      ensures (View(), r) == SetValues(old(View()), cid, items)
    {
      if cid !in contexts {
        return Ok(false);
      }
      var d := BuildDict(items);
      if d.None? {
        return Err(NotAuthorized);
      }
      ghost var c := contexts[cid].View();
      var ok := contexts[cid].SetDirect(d.value.order, d.value.values);
      OnlyAt(cid);
      assert View() == old(View()).(contexts := old(View()).contexts[cid := c.SetAll(d.value.order, d.value.values)]);
      return if ok then Ok(true) else Err(NotAuthorized);
    }

    /** The pairs as a dictionary; None where an address is malformed. */
    static method BuildDict(items: seq<(Address, Bytes)>) returns (d: Option<Dict>)
      ensures d.None? <==> exists a <- DictOf(items).order :: !AddressIsValid(a)
      ensures d.Some? ==> d.value == DictOf(items)
    {
      var dict := Dict([], map[]);
      for i := 0 to |items|
        invariant dict == DictOf(items[..i])
        invariant forall a <- dict.order :: AddressIsValid(a)
      {
        assert items[..i + 1][..i] == items[..i];
        var (a, v) := items[i];
        if !AddressIsValid(a) {
          DictKeeps(items, i);
          return None;
        }
        dict := Dict(if a in dict.values then dict.order else dict.order + [a], dict.values[a := v]);
      }
      assert items[..|items|] == items;
      return Some(dict);
    }

    method Delete(cid: Id, addresses: seq<Address>) returns (r: Outcome<bool, Error>)
      requires Valid()
      modifies contexts.Values
      ensures Valid()
      ensures (View(), r) == DeleteValues(old(View()), cid, addresses)
    {
      if cid !in contexts {
        return Ok(false);
      }
      for i := 0 to |addresses|
        invariant forall a <- addresses[..i] :: AddressIsValid(a)
      {
        if !AddressIsValid(addresses[i]) {
          return Err(NotAuthorized);
        }
      }
      var ok := contexts[cid].DeleteDirect(addresses);
      OnlyAt(cid);
      return if ok then Ok(true) else Err(NotAuthorized);
    }

    /** Freezes one context and reads off what it wrote. */
    method FreezeAndRead(id: Id) returns (w: Writes)
      requires Valid() && id in contexts && contexts[id].View().CanFreeze()
      modifies contexts[id]
      ensures Registered() == old(Registered())[id := old(contexts[id].View()).Frozen()]
      ensures w == old(contexts[id].View()).Written()
    {
      var context := contexts[id];
      if !context.readOnly {
        context.MakeReadOnly();
      }
      FrozenWritesSame(old(context.View()));
      var sets := context.GetAllIfSet();
      var deleted := context.GetAllIfDeleted();
      w := Writes(sets, deleted);
      OnlyAt(id);
    }

    /** One round of the walk of squash. */
    method Visit(queue: seq<Id>, searched: set<Id>, d: Delta, ghost all: ContextMap, ghost ids: seq<Id>,
                 ghost visited: seq<Id>)
      returns (queue': seq<Id>, searched': set<Id>, d': Delta)
      requires Valid() && queue != [] && queue[0] in contexts
      requires Registered() == FreezeAll(all, visited)
      requires Progress(all, ids, queue, searched, visited, d) && SquashReady(all, ids)
      modifies contexts[queue[0]]
      ensures Registered() == FreezeAll(all, visited + [queue[0]])
      ensures Progress(all, ids, queue', searched', visited + [queue[0]], d')
      ensures |Mentioned(GraphOf(all)) - searched'| + |queue'| < |Mentioned(GraphOf(all)) - searched| + |queue|
    {
      var id := queue[0];
      assert contexts[id].View() == FreezeAll(all, visited)[id];
      var unseen := NewBases(contexts[id].bases, searched);
      queue', searched' := queue[1..] + unseen, searched + SetOf(unseen);
      ProgressStep(all, ids, queue, searched, visited, d, queue', searched', visited + [id]);
      StillReady(all, ids, visited, id);
      FreezeOneMore(all, visited, id);
      var w := FreezeAndRead(id);
      label read:
      d' := Merge(d, w);
      Untouched@read();
    }

    /** The walk of squash: freezes every context it visits and merges its writes, up to a missing context. */
    method FreezeVisited(ids: seq<Id>) returns (complete: bool, d: Delta, searched: set<Id>, ghost visited: seq<Id>)
      requires Valid() && SquashReady(Registered(), ids)
      modifies contexts.Values
      ensures Registered() == FreezeAll(old(Registered()), visited)
      ensures if complete then Progress(old(Registered()), ids, [], searched, visited, d)
              else SquashTrail(old(Registered()), ids) == Trail(visited, false)
    {
      var queue := ids;
      searched := SetOf(ids);
      d := NoDelta;
      ghost var all := Registered();
      visited := [];
      ProgressStart(all, ids);
      while queue != []
        invariant Registered() == FreezeAll(all, visited)
        invariant Progress(all, ids, queue, searched, visited, d)
        decreases |Mentioned(GraphOf(all)) - searched| + |queue|
      {
        var id := queue[0];
        if id !in contexts {
          ProgressMissing(all, ids, queue, searched, visited, d);
          return false, d, searched, visited;
        }
        queue, searched, d := Visit(queue, searched, d, all, ids, visited);
        visited := visited + [id];
      }
      complete := true;
    }

    /** The walk of squash and what it collects, in terms of the whole walk. */
    method CollectWrites(ids: seq<Id>) returns (complete: bool, d: Delta, searched: set<Id>)
      requires Valid() && SquashReady(Registered(), ids)
      modifies contexts.Values
      ensures complete == SquashTrail(old(Registered()), ids).complete
      ensures Registered() == FreezeAll(old(Registered()), SquashTrail(old(Registered()), ids).visited)
      ensures complete ==> d == Collected(old(Registered()), ids)
      ensures complete ==> searched == SetOf(SquashTrail(old(Registered()), ids).visited)
    {
      ghost var visited;
      complete, d, searched, visited := FreezeVisited(ids);
      if complete {
        ProgressEnd(old(Registered()), ids, searched, visited, d);
      }
    }

    /** Squashes the given contexts and all their bases onto a tree. */
    method Squash(root: Root, ids: seq<Id>, persist: bool, cleanUp: bool) returns (r: Outcome<Root, Error>)
      requires Valid() && SquashReady(Registered(), ids)
      modifies this, contexts.Values
      ensures Valid()
      ensures (View(), r) == SquashRun(old(View()), root, ids, persist, cleanUp, rootOf)
    {
      var complete, d, searched := CollectWrites(ids);
      if !complete {
        return Err(MissingContext);
      }
      if root !in trees {
        return Err(UnknownRoot);
      }
      r := Finish(root, d, searched, persist, cleanUp);
    }

    method Finish(root: Root, d: Delta, searched: set<Id>, persist: bool, cleanUp: bool)
      returns (r: Outcome<Root, Error>)
      requires Valid() && root in trees
      modifies this
      ensures Valid()
      ensures (View(), r) == Finished(old(View()), root, d, searched, persist, cleanUp, rootOf)
    {
      var present := d.(deletes := d.deletes * trees[root].Keys);
      var newRoot := root;
      if present != NoDelta {
        var t := Update(trees[root], present);
        newRoot := rootOf(t);
        if persist {
          trees := trees[newRoot := t];
        }
      }
      Untouched();
      if cleanUp {
        DeleteContexts(searched);
      }
      r := Ok(newRoot);
    }

    method Get(cid: Id, addresses: set<Address>) returns (r: Outcome<map<Address, Option<Bytes>>, Error>)
      requires Valid() && GetReady(View(), cid, addresses)
      ensures r == ManagerSpec.Get(View(), cid, addresses)
    {
      if cid !in contexts {
        return Ok(map[]);
      }
      if exists a <- addresses :: !AddressIsValid(a) {
        return Err(NotAuthorized);
      }
      var context := contexts[cid];
      assert context.View() == Registered()[cid];
      if exists a <- addresses :: !Covered(context.readList, a) {
        return Err(NotAuthorized);
      }
      var values := map a | a in addresses && a in context.state :: context.state[a].result;
      var rest := addresses - context.state.Keys;
      if rest == {} {
        return Ok(values);
      }
      assert SetOf([cid]) == {cid};
      label searching:
      var found := FindAddressValuesInChain([cid], rest);
      Untouched@searching();
      if found.None? {
        return Ok(map[]);
      }
      values := values + found.value.values;
      if found.value.missing == {} {
        return Ok(values);
      }
      if context.root !in trees {
        return Err(UnknownRoot);
      }
      return Ok(values + FromTree(trees[context.root], found.value.missing));
    }

    /** One round of the reader thread. */
    method ReadOne()
      requires Valid() && addressQueue != [] && addressQueue[0].root in trees
      modifies this
      ensures Valid()
      ensures View() == ReaderRound(old(View()))
    {
      var item := addressQueue[0];
      var values: map<Address, Option<Bytes>> := map[];
      var todo := item.addresses;
      while todo != {}
        invariant todo <= item.addresses
        invariant values == FromTree(trees[item.root], item.addresses - todo)
      {
        var a :| a in todo;
        values := values[a := Lookup(trees[item.root], a)];
        todo := todo - {a};
      }
      assert item.addresses - {} == item.addresses;
      addressQueue := addressQueue[1..];
      inflated := inflated + [InflatedItem(item.cid, values)];
      Untouched();
    }

    /** One round of the writer thread. */
    method WriteOne()
      requires Valid() && inflated != []
      modifies this, contexts.Values
      ensures Valid()
      ensures View() == WriterRound(old(View()))
    {
      var item := inflated[0];
      inflated := inflated[1..];
      Untouched();
      if item.cid in contexts {
        label writing:
        contexts[item.cid].SetFromTree(item.values);
        OnlyAt@writing(item.cid);
      }
    }
  }

  /** How far the walk of squash has come. */
  ghost predicate Progress(all: ContextMap, ids: seq<Id>, queue: seq<Id>, searched: set<Id>, visited: seq<Id>,
                           d: Delta)
  {
    && (forall id <- visited :: id in all)
    && SquashTrail(all, ids) == Walk(GraphOf(all), queue, searched).After(visited)
    && d == Collect(NoDelta, WrittenBy(all, visited))
    && searched == SetOf(visited) + SetOf(queue)
  }

  lemma ProgressStart(all: ContextMap, ids: seq<Id>)
    ensures Progress(all, ids, ids, SetOf(ids), [], NoDelta)
    ensures FreezeAll(all, []) == all
  {
    assert SquashTrail(all, ids).After([]) == SquashTrail(all, ids);
  }

  lemma ProgressEnd(all: ContextMap, ids: seq<Id>, searched: set<Id>, visited: seq<Id>, d: Delta)
    requires Progress(all, ids, [], searched, visited, d)
    ensures SquashTrail(all, ids) == Trail(visited, true)
    ensures d == Collected(all, ids)
    ensures searched == SetOf(visited)
  {
    assert visited + [] == visited;
  }

  lemma ProgressMissing(all: ContextMap, ids: seq<Id>, queue: seq<Id>, searched: set<Id>, visited: seq<Id>, d: Delta)
    requires Progress(all, ids, queue, searched, visited, d)
    requires queue != [] && queue[0] !in all
    ensures SquashTrail(all, ids) == Trail(visited, false)
  {
    assert visited + [] == visited;
  }

  lemma CollectVisited(all: ContextMap, visited: seq<Id>, id: Id)
    requires id in all && forall v <- visited :: v in all
    ensures Collect(NoDelta, WrittenBy(all, visited + [id]))
         == Absorb(Collect(NoDelta, WrittenBy(all, visited)), all[id].Written())
  {
    CollectOneMore(NoDelta, WrittenBy(all, visited), all[id].Written());
    assert WrittenBy(all, visited + [id]) == WrittenBy(all, visited) + [all[id].Written()];
  }

  lemma ProgressStep(all: ContextMap, ids: seq<Id>, queue: seq<Id>, searched: set<Id>, visited: seq<Id>, d: Delta,
                     queue': seq<Id>, searched': set<Id>, visited': seq<Id>)
    requires Progress(all, ids, queue, searched, visited, d)
    requires queue != [] && queue[0] in all && visited' == visited + [queue[0]]
    requires queue' == queue[1..] + NewBases(all[queue[0]].bases, searched)
    requires searched' == searched + SetOf(NewBases(all[queue[0]].bases, searched))
    ensures queue[0] in SquashTrail(all, ids).visited
    ensures Progress(all, ids, queue', searched', visited', Absorb(d, all[queue[0]].Written()))
    ensures |Mentioned(GraphOf(all)) - searched'| + |queue'| < |Mentioned(GraphOf(all)) - searched| + |queue|
  {
    TrailStep(GraphOf(all), queue, searched, visited);
    SearchedStep(all[queue[0]].bases, queue, searched, visited);
    CollectVisited(all, visited, queue[0]);
  }

  /** Since squash moves backwards, a value only counts where nothing newer does. */
  method MergeSets(updates: map<Address, Bytes>, deletes: set<Address>, sets: map<Address, Bytes>)
    returns (merged: map<Address, Bytes>)
    ensures merged == updates + map a | a in sets && a !in updates && a !in deletes :: sets[a]
  {
    merged := updates;
    var todo := sets.Keys;
    while todo != {}
      invariant todo <= sets.Keys
      invariant merged.Keys == updates.Keys + (sets.Keys - todo - deletes)
      invariant forall a <- merged :: merged[a] == if a in updates then updates[a] else sets[a]
    {
      var a :| a in todo;
      if a !in merged && a !in deletes {
        merged := merged[a := sets[a]];
      }
      todo := todo - {a};
    }
  }

  method MergeDeletes(updates: map<Address, Bytes>, deletes: set<Address>, deleted: set<Address>)
    returns (merged: set<Address>)
    ensures merged == deletes + set a | a in deleted && a !in updates && a !in deletes
  {
    merged := deletes;
    var todo := deleted;
    while todo != {}
      invariant todo <= deleted
      invariant merged == deletes + (deleted - todo - updates.Keys)
    {
      var a :| a in todo;
      if a !in updates && a !in merged {
        merged := merged + {a};
      }
      todo := todo - {a};
    }
  }

  method Merge(d: Delta, w: Writes) returns (d': Delta)
    ensures d' == Absorb(d, w)
  {
    var updates := MergeSets(d.updates, d.deletes, w.sets);
    var deletes := MergeDeletes(updates, d.deletes, w.deletes);
    d' := Delta(updates, deletes);
  }

  lemma StillReady(all: ContextMap, ids: seq<Id>, visited: seq<Id>, id: Id)
    requires SquashReady(all, ids) && id in SquashTrail(all, ids).visited
    ensures FreezeAll(all, visited)[id].CanFreeze()
  {
    assert all[id].CanFreeze();
  }

  lemma SearchedStep(bases: seq<Id>, queue: seq<Id>, searched: set<Id>, visited: seq<Id>)
    requires queue != [] && searched == SetOf(visited) + SetOf(queue)
    ensures var unseen := NewBases(bases, searched);
            searched + SetOf(unseen) == SetOf(visited + [queue[0]]) + SetOf(queue[1..] + unseen)
  {
    var unseen := NewBases(bases, searched);
    SetOfAppend(queue[1..], unseen);
    SetOfAppend(visited, [queue[0]]);
    SetOfCons(queue);
  }

  lemma AfterTwice(rest: Trail, visited: seq<Id>, id: Id)
    ensures rest.After([id]).After(visited) == rest.After(visited + [id])
    ensures id in rest.After(visited + [id]).visited
  {
    assert visited + ([id] + rest.visited) == (visited + [id]) + rest.visited;
    assert (visited + [id])[|visited|] == id;
  }

  /** One round of the squash walk. */
  lemma TrailStep(g: Graph, queue: seq<Id>, searched: set<Id>, visited: seq<Id>)
    requires queue != [] && queue[0] in g
    ensures var unseen := NewBases(g[queue[0]], searched);
            var queue', searched', visited' := queue[1..] + unseen, searched + SetOf(unseen), visited + [queue[0]];
            && Walk(g, queue, searched).After(visited) == Walk(g, queue', searched').After(visited')
            && |Mentioned(g) - searched'| + |queue'| < |Mentioned(g) - searched| + |queue|
    ensures queue[0] in Walk(g, queue, searched).After(visited).visited
  {
    var unseen := NewBases(g[queue[0]], searched);
    var rest := Walk(g, queue[1..] + unseen, searched + SetOf(unseen));
    WalkShrinks(g, queue[0], searched);
    AfterTwice(rest, visited, queue[0]);
  }

  lemma {:induction false} CollectOneMore(d: Delta, ws: seq<Writes>, w: Writes)
    ensures Collect(d, ws + [w]) == Absorb(Collect(d, ws), w)
    decreases |ws|
  {
    if ws != [] {
      assert (ws + [w])[1..] == ws[1..] + [w];
      CollectOneMore(Absorb(d, ws[0]), ws[1..], w);
    }
  }

  lemma FrozenWritesSame(c: ContextState)
    ensures c.Frozen().Written() == c.Written()
  {
    assert c.Frozen().Written().sets == c.Written().sets;
    assert c.Frozen().Written().deletes == c.Written().deletes;
  }

  lemma FreezeOneMore(all: ContextMap, visited: seq<Id>, id: Id)
    requires id in all
    ensures FreezeAll(all, visited + [id]) == FreezeAll(all, visited)[id := FreezeAll(all, visited)[id].Frozen()]
    ensures FreezeAll(all, visited)[id].Written() == all[id].Written()
  {
    FrozenWritesSame(all[id]);
  }

  lemma NoPrefetch(c: ContextState)
    ensures c.WithPrefetch({}) == c
  {
    assert c.WithPrefetch({}).state == c.state;
  }

  /** Once a key enters the dictionary it stays. */
  lemma {:induction false} DictKeeps(items: seq<(Address, Bytes)>, i: nat)
    requires i < |items|
    ensures items[i].0 in DictOf(items).order
  {
    if i < |items| - 1 {
      DictKeeps(items[..|items| - 1], i);
    }
  }

  lemma AddingNothing(rest: Option<Found>)
    ensures Adding(map[], rest) == rest
  {
    if rest.Some? {
      assert map[] + rest.value.values == rest.value.values;
    }
  }

  lemma AddingAtEnd(values: map<Address, Option<Bytes>>, asked: set<Address>)
    ensures Adding(values, Some(Found(map[], asked))) == Some(Found(values, asked))
  {
    assert values + map[] == values;
  }

  lemma AddingTwice(values: map<Address, Option<Bytes>>, hits: map<Address, Option<Bytes>>, rest: Option<Found>)
    ensures Adding(values, Adding(hits, rest)) == Adding(values + hits, rest)
  {
    if rest.Some? {
      assert values + (hits + rest.value.values) == (values + hits) + rest.value.values;
    }
  }

  /** One round of the search. */
  lemma FindStep(all: ContextMap, queue: seq<Id>, searched: set<Id>, asked: set<Address>,
                 values: map<Address, Option<Bytes>>)
    requires queue != [] && asked != {} && queue[0] in all
    ensures var c := all[queue[0]];
            var unseen := NewBases(c.bases, searched);
            var hits := c.Hits(asked);
            var queue', searched' := queue[1..] + unseen, searched + SetOf(unseen);
            && Adding(values, Find(all, queue, searched, asked))
               == Adding(values + hits, Find(all, queue', searched', asked - hits.Keys))
            && (FindReady(all, queue, searched, asked)
                ==> FindReady(all, queue', searched', asked - hits.Keys))
            && |Mentioned(GraphOf(all)) - searched'| + |queue'| < |Mentioned(GraphOf(all)) - searched| + |queue|
  {
    var c := all[queue[0]];
    var unseen := NewBases(c.bases, searched);
    WalkShrinks(GraphOf(all), queue[0], searched);
    AddingTwice(values, c.Hits(asked),
                Find(all, queue[1..] + unseen, searched + SetOf(unseen), asked - c.Hits(asked).Keys));
  }
}
