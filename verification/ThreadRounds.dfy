/** The thread bodies' rounds are runs of the small steps, in whatever order addresses are delivered. */
module ThreadRounds {
  import opened Options
  import opened Squash
  import opened Contexts
  import opened ManagerSpec
  import opened ManagerRuns

  /** Taking a request and answering it is one round of the reader. */
  lemma ReaderRoundIsSteps(w: World, rootOf: Tree -> Root)
    requires w.reading.None? && w.m.addressQueue != [] && w.m.addressQueue[0].root in w.m.trees
    ensures IsRun(w, [ReaderTake, ReaderPut], rootOf)
    ensures After(w, [ReaderTake, ReaderPut], rootOf) == w.(m := ReaderRound(w.m))
  {
    var taken := Next(w, ReaderTake, rootOf);
    assert [ReaderTake, ReaderPut][1..] == [ReaderPut] && [ReaderPut][1..] == [];
    assert IsRun(taken, [ReaderPut], rootOf);
  }

  function Deliveries(order: seq<Address>): seq<Event> {
    if order == [] then [WriterDone] else [WriterSet(order[0])] + Deliveries(order[1..])
  }

  lemma DeliverOne(c: ContextState, values: map<Address, Option<Bytes>>, a: Address)
    requires a in values
    ensures WithTreeAt(c, a, values[a]).WithTreeValues(values - {a}) == c.WithTreeValues(values)
  {
  }

  lemma DeliverNothing(c: ContextState)
    ensures c.WithTreeValues(map[]) == c
  {
    assert c.WithTreeValues(map[]).state == c.state;
  }

  /** The state with the whole item delivered. */
  function Delivered(w: World, item: InflatedItem): World
    requires item.cid in w.m.contexts
  {
    var c := w.m.contexts[item.cid].WithTreeValues(item.values);
    w.(m := w.m.(contexts := w.m.contexts[item.cid := c]), writing := None)
  }

  lemma DeliveredOne(w: World, item: InflatedItem, a: Address, rootOf: Tree -> Root)
    requires w.writing == Some(item) && item.cid in w.m.contexts && a in item.values
    ensures Delivered(Next(w, WriterSet(a), rootOf), item.(values := item.values - {a})) == Delivered(w, item)
  {
    DeliverOne(w.m.contexts[item.cid], item.values, a);
  }

  lemma RestOfOrder(values: map<Address, Option<Bytes>>, order: seq<Address>)
    requires Distinct(order) && SetOf(order) == values.Keys && order != []
    ensures order[0] in values && Distinct(order[1..]) && SetOf(order[1..]) == (values - {order[0]}).Keys
  {
    SetOfCons(order);
    assert order[0] in SetOf(order) && order[0] !in SetOf(order[1..]);
  }

  /** Delivering all values one address at a time, in any order, delivers them all. */
  lemma {:induction false} DeliveriesDeliver(w: World, item: InflatedItem, order: seq<Address>, rootOf: Tree -> Root)
    requires w.writing == Some(item) && item.cid in w.m.contexts
    requires Distinct(order) && SetOf(order) == item.values.Keys
    ensures IsRun(w, Deliveries(order), rootOf)
    ensures After(w, Deliveries(order), rootOf) == Delivered(w, item)
    decreases |order|
  {
    if order == [] {
      assert item.values == map[];
      DeliverNothing(w.m.contexts[item.cid]);
    } else {
      var a, rest := order[0], item.(values := item.values - {order[0]});
      RestOfOrder(item.values, order);
      DeliveredOne(w, item, a, rootOf);
      DeliveriesDeliver(Next(w, WriterSet(a), rootOf), rest, order[1..], rootOf);
      assert Deliveries(order)[1..] == Deliveries(order[1..]);
    }
  }

  /** Taking an answer and delivering it is one round of the writer; a lost context's answer is dropped. */
  lemma WriterRoundIsSteps(w: World, order: seq<Address>, rootOf: Tree -> Root)
    requires w.writing.None? && w.m.inflated != []
    requires Distinct(order) && SetOf(order) == w.m.inflated[0].values.Keys
    ensures var events := [WriterTake] + if w.m.inflated[0].cid in w.m.contexts then Deliveries(order) else [];
      IsRun(w, events, rootOf) && After(w, events, rootOf) == w.(m := WriterRound(w.m))
  {
    var item, taken := w.m.inflated[0], Next(w, WriterTake, rootOf);
    if item.cid in w.m.contexts {
      DeliveriesDeliver(taken, item, order, rootOf);
      assert ([WriterTake] + Deliveries(order))[1..] == Deliveries(order);
    } else {
      assert [WriterTake] + [] == [WriterTake] && [WriterTake][1..] == [];
    }
  }
}
