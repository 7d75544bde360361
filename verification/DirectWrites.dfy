/** What a set or delete of several addresses leaves behind, address by address. */
module DirectWrites {
  import opened Options
  import opened ContextGraph
  import opened Squash
  import opened Contexts
  import opened ManagerSpec
  import opened ManagerRuns
  import opened LateWrites
  import opened GraphReads

  // How far a set or delete gets

  /** The addresses a set or delete gets to before the first unauthorised one. */
  function Authorized(prefixes: seq<string>, order: seq<Address>): seq<Address> {
    if order == [] || !Covered(prefixes, order[0]) then []
    else [order[0]] + Authorized(prefixes, order[1..])
  }

  /** They are the longest prefix whose addresses all start with an entry of the list. */
  lemma {:induction false} AuthorizedIsLongest(prefixes: seq<string>, order: seq<Address>)
    ensures var n := |Authorized(prefixes, order)|;
      && n <= |order| && Authorized(prefixes, order) == order[..n]
      && (forall a <- order[..n] :: exists p <- prefixes :: p <= a)
      && (n < |order| ==> forall p <- prefixes :: !(p <= order[n]))
    decreases |order|
  {
    if order != [] && Covered(prefixes, order[0]) {
      AuthorizedIsLongest(prefixes, order[1..]);
      var n := |Authorized(prefixes, order[1..])|;
      assert order[..n + 1] == [order[0]] + order[1..][..n];
    }
  }

  /** A set gives every address it gets to the address's own value, and leaves all others alone. */
  lemma {:induction false} SetAt(c: ContextState, order: seq<Address>, values: map<Address, Bytes>, a: Address)
    requires forall b <- order :: b in values
    ensures var done := Authorized(c.writeList, order);
      var c' := c.SetAll(order, values);
      && (a in done ==> a in values)
      && (a in c'.state <==> a in c.state || a in done)
      && (a in c'.state ==> c'.state[a] == if a in done then c.FutureAt(a).WithDirect(values[a]) else c.state[a])
    decreases |order|
  {
    if order != [] && Covered(c.writeList, order[0]) {
      SetAt(c.With(order[0], c.FutureAt(order[0]).WithDirect(values[order[0]])), order[1..], values, a);
    }
  }

  lemma {:induction false} DeleteAt(c: ContextState, order: seq<Address>, a: Address)
    ensures var done := Authorized(c.writeList, order);
      var c' := c.DeleteAll(order);
      && (a in c'.state <==> a in c.state || a in done)
      && (a in c'.state ==> c'.state[a] == if a in done then c.FutureAt(a).WithDelete() else c.state[a])
    decreases |order|
  {
    if order != [] && Covered(c.writeList, order[0]) {
      DeleteAt(c.With(order[0], c.FutureAt(order[0]).WithDelete()), order[1..], a);
    }
  }

  // The dictionary a set builds from its pairs

  /** This pair is the last that names the address. */
  ghost predicate LastAt(items: seq<(Address, Bytes)>, a: Address, i: int) {
    0 <= i < |items| && items[i].0 == a && forall j :: i < j < |items| ==> items[j].0 != a
  }

  /** The last pair that names the address gives it this value. */
  ghost predicate LastGiven(items: seq<(Address, Bytes)>, a: Address, v: Bytes) {
    exists i :: LastAt(items, a, i) && items[i].1 == v
  }

  ghost predicate IsNamed(items: seq<(Address, Bytes)>, a: Address) {
    exists i :: 0 <= i < |items| && items[i].0 == a
  }

  lemma LastOfMore(items: seq<(Address, Bytes)>, n: nat, a: Address, v: Bytes)
    requires n == |items| - 1
    requires if items[n].0 == a then v == items[n].1 else LastGiven(items[..n], a, v)
    ensures LastGiven(items, a, v)
  {
    if items[n].0 == a {
      assert LastAt(items, a, n);
    } else {
      var i :| LastAt(items[..n], a, i) && items[..n][i].1 == v;
      assert forall j :: 0 <= j < n ==> items[..n][j] == items[j];
      assert LastAt(items, a, i);
    }
  }

  lemma NamedByMore(items: seq<(Address, Bytes)>, n: nat, a: Address)
    requires n == |items| - 1
    ensures IsNamed(items, a) <==> items[n].0 == a || IsNamed(items[..n], a)
  {
    assert forall j :: 0 <= j < n ==> items[..n][j] == items[j];
  }

  /** The dictionary holds exactly the addresses named, each with the value of the last pair that names it. */
  lemma {:induction false} DictHoldsLast(items: seq<(Address, Bytes)>, a: Address)
    ensures a in DictOf(items).values <==> IsNamed(items, a)
    ensures a in DictOf(items).values ==> LastGiven(items, a, DictOf(items).values[a])
  {
    if items != [] {
      var n := |items| - 1;
      DictHoldsLast(items[..n], a);
      NamedByMore(items, n, a);
      if a in DictOf(items).values {
        LastOfMore(items, n, a, DictOf(items).values[a]);
      }
    }
  }

  lemma LastIsOne(items: seq<(Address, Bytes)>, a: Address, u: Bytes, v: Bytes)
    requires LastGiven(items, a, u) && LastGiven(items, a, v)
    ensures u == v
  {
    var i :| LastAt(items, a, i) && items[i].1 == u;
    var j :| LastAt(items, a, j) && items[j].1 == v;
    assert i == j;
  }

  /** The first pair that names the address. */
  ghost predicate FirstNamed(items: seq<(Address, Bytes)>, a: Address, i: nat) {
    i < |items| && items[i].0 == a && forall j :: 0 <= j < i ==> items[j].0 != a
  }

  lemma FirstStays(items: seq<(Address, Bytes)>, n: nat, a: Address, i: nat)
    requires n == |items| - 1 && FirstNamed(items, a, i) && IsNamed(items[..n], a)
    ensures FirstNamed(items[..n], a, i)
  {
    assert forall j :: 0 <= j < n ==> items[..n][j] == items[j];
  }

  lemma FirstIsNamedBefore(items: seq<(Address, Bytes)>, n: nat, a: Address, i: nat)
    requires n == |items| - 1 && FirstNamed(items, a, i)
    ensures i < n ==> IsNamed(items[..n], a)
  {
    if i < n {
      assert items[..n][i].0 == a;
    }
  }

  /** Addresses come in the order in which they are first named. */
  lemma {:induction false} DictInOrder(items: seq<(Address, Bytes)>, k: nat, l: nat, i: nat, j: nat)
    requires k < l < |DictOf(items).order|
    requires FirstNamed(items, DictOf(items).order[k], i) && FirstNamed(items, DictOf(items).order[l], j)
    ensures i < j
  {
    var n := |items| - 1;
    var rest, order := items[..n], DictOf(items[..n]).order;
    var a, b := DictOf(items).order[k], DictOf(items).order[l];
    assert k < |order| && order[k] == a;
    DictHoldsLast(rest, a);
    FirstStays(items, n, a, i);
    DictHoldsLast(rest, b);
    if l < |order| {
      assert order[l] == b;
      FirstStays(items, n, b, j);
      DictInOrder(rest, k, l, i, j);
    } else {
      FirstIsNamedBefore(items, n, b, j);
    }
  }

  // Setting and deleting through the manager

  /** When a set succeeds, finds no context, or is refused. */
  lemma SetAnswersExactly(m: ManagerState, cid: Id, items: seq<(Address, Bytes)>)
    ensures var r := SetValues(m, cid, items).1;
      && (r == Ok(false) <==> cid !in m.contexts)
      && (r == Ok(true) <==> cid in m.contexts && forall i :: 0 <= i < |items| ==>
            AddressIsValid(items[i].0) && exists p <- m.contexts[cid].writeList :: p <= items[i].0)
      && (r != Ok(false) && r != Ok(true) ==> r == Err(NotAuthorized))
  {
    forall a
      ensures a in DictOf(items).order <==> IsNamed(items, a)
    {
      DictHoldsLast(items, a);
    }
    assert forall i :: 0 <= i < |items| ==> items[i].0 in DictOf(items).order;
  }

  lemma DeleteAnswersExactly(m: ManagerState, cid: Id, addresses: seq<Address>)
    ensures var r := DeleteValues(m, cid, addresses).1;
      && (r == Ok(false) <==> cid !in m.contexts)
      && (r == Ok(true) <==> cid in m.contexts && forall a <- addresses ::
            AddressIsValid(a) && exists p <- m.contexts[cid].writeList :: p <= a)
      && (r != Ok(false) && r != Ok(true) ==> r == Err(NotAuthorized))
  {
  }

  lemma AllAuthorized(prefixes: seq<string>, order: seq<Address>)
    requires forall a <- order :: Covered(prefixes, a)
    ensures Authorized(prefixes, order) == order
  {
    AuthorizedIsLongest(prefixes, order);
  }

  /** What the context itself writes is what squashing it keeps. */
  lemma OwnWriteIsKept(contexts: ContextMap, t: Tree, cid: Id, a: Address)
    requires cid in contexts && contexts[cid].Written().Touches(a)
    ensures Lookup(SquashedOnto(t, contexts, [cid]), a) == contexts[cid].Written().Effect(a)
  {
    WalkStartsThere(contexts, cid);
    SquashTakesWriter(contexts, t, [cid], a);
  }

  /** A read of an address that the context holds returns the future's result, if the address may be read. */
  lemma ReadsOwn(m: ManagerState, cid: Id, a: Address)
    requires cid in m.contexts && AddressIsValid(a) && a in m.contexts[cid].state
    ensures Get(m, cid, {a}) ==
      if Covered(m.contexts[cid].readList, a) then Ok(map[a := m.contexts[cid].state[a].result]) else Err(NotAuthorized)
  {
    if Covered(m.contexts[cid].readList, a) {
      ReadsHeld(m, cid, a);
    } else {
      assert a in {a};
    }
  }

  lemma SetFuture(m: ManagerState, cid: Id, items: seq<(Address, Bytes)>, a: Address, v: Bytes)
    requires ContextsWf(m) && SetValues(m, cid, items).1 == Ok(true) && !m.contexts[cid].readOnly
    requires LastGiven(items, a, v)
    ensures AddressIsValid(a)
    ensures var c' := SetValues(m, cid, items).0.contexts[cid];
      && c'.readList == m.contexts[cid].readList
      && a in c'.state && c'.state[a].result == Some(v) && c'.state[a].setInContext && !c'.state[a].deleted
  {
    var c, d := m.contexts[cid], DictOf(items);
    DictHoldsLast(items, a);
    assert IsNamed(items, a);
    LastIsOne(items, a, d.values[a], v);
    assert ContextOk(c);
    AllAuthorized(c.writeList, d.order);
    SetAt(c, d.order, d.values, a);
    SetAllKeepsFrame(c, d.order, d.values);
  }

  /**
   * After a set that succeeds on a context that is not frozen, every address named
   * reads (where it may be read) and squashes as the last value given for it.
   */
  lemma SetTakesEffect(m: ManagerState, cid: Id, items: seq<(Address, Bytes)>, a: Address, v: Bytes, t: Tree)
    requires ContextsWf(m) && SetValues(m, cid, items).1 == Ok(true) && !m.contexts[cid].readOnly
    requires LastGiven(items, a, v)
    ensures var m' := SetValues(m, cid, items).0;
      && Get(m', cid, {a}) ==
           (if exists p <- m.contexts[cid].readList :: p <= a then Ok(map[a := Some(v)]) else Err(NotAuthorized))
      && Lookup(SquashedOnto(t, m'.contexts, [cid]), a) == Some(v)
  {
    var m' := SetValues(m, cid, items).0;
    SetFuture(m, cid, items, a, v);
    ReadsOwn(m', cid, a);
    OwnWriteIsKept(m'.contexts, t, cid, a);
  }

  /** A set, also one refused part way, leaves other contexts and addresses not named as they were. */
  lemma SetLeavesRest(m: ManagerState, cid: Id, items: seq<(Address, Bytes)>)
    requires cid in m.contexts
    ensures var m' := SetValues(m, cid, items).0;
      && m' == m.(contexts := m'.contexts) && m'.contexts.Keys == m.contexts.Keys
      && (forall id <- m.contexts :: id != cid ==> m'.contexts[id] == m.contexts[id])
      && forall a :: !IsNamed(items, a) ==>
           && (a in m'.contexts[cid].state <==> a in m.contexts[cid].state)
           && (a in m.contexts[cid].state ==> m'.contexts[cid].state[a] == m.contexts[cid].state[a])
  {
    var c, d := m.contexts[cid], DictOf(items);
    AuthorizedIsLongest(c.writeList, d.order);
    forall a | !IsNamed(items, a)
      ensures a in c.SetAll(d.order, d.values).state <==> a in c.state
      ensures a in c.state ==> c.SetAll(d.order, d.values).state[a] == c.state[a]
    {
      DictHoldsLast(items, a);
      SetAt(c, d.order, d.values, a);
    }
  }

  /**
   * After a delete that succeeds, squash keeps no value at any address named, while
   * a read, where it may be read, still returns what the context held there before.
   */
  lemma DeleteTakesEffect(m: ManagerState, cid: Id, addresses: seq<Address>, a: Address, t: Tree)
    requires ContextsWf(m) && DeleteValues(m, cid, addresses).1 == Ok(true) && a in addresses
    ensures var m', c := DeleteValues(m, cid, addresses).0, m.contexts[cid];
      && Lookup(SquashedOnto(t, m'.contexts, [cid]), a) == None
      && Get(m', cid, {a}) ==
           if exists p <- c.readList :: p <= a
           then Ok(map[a := if a in c.state then c.state[a].result else None]) else Err(NotAuthorized)
  {
    var m', c := DeleteValues(m, cid, addresses).0, m.contexts[cid];
    AllAuthorized(c.writeList, addresses);
    DeleteAt(c, addresses, a);
    DeleteAllKeepsFrame(c, addresses);
    OwnWriteIsKept(m'.contexts, t, cid, a);
    ReadsOwn(m', cid, a);
  }
}
