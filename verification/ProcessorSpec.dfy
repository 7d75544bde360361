/** Pools of registered transaction processors as values. */
module ProcessorSpec {
  import opened Options
  import opened RoundRobins

  type ConnId = string

  datatype ProcessorType = ProcessorType(name: string, version: string)

  datatype Proc = Proc(id: ConnId, max: nat, occupancy: int) {
    predicate HasVacancy() {
      occupancy < max
    }

    function Plus(n: int): Proc {
      this.(occupancy := occupancy + n)
    }
  }

  /** The processors of one type and where the round robin stands. */
  datatype Ring = Ring(procs: seq<Proc>, pos: nat) {
    predicate Fits() {
      if procs == [] then pos == 0 else pos < |procs|
    }

    function Vacancies(): (v: seq<bool>)
      ensures |v| == |procs| && forall i :: 0 <= i < |v| ==> v[i] == procs[i].HasVacancy()
    {
      seq(|procs|, i requires 0 <= i < |procs| => procs[i].HasVacancy())
    }

    /** The index of the processor the next call selects. */
    function Chosen(): (k: Option<nat>)
      requires Fits()
      ensures k.Some? ==> k.value < |procs| && procs[k.value].HasVacancy()
      ensures k.None? ==> forall i :: 0 <= i < |procs| ==> !procs[i].HasVacancy()
    {
      if procs != [] then SelectIsNearest(Vacancies(), pos); Select(Vacancies(), pos) else None
    }

    /** The ring after one call, which moves only the position. */
    function Advanced(): (ring: Ring)
      requires Fits()
      ensures ring.Fits() && ring.procs == procs
    {
      if Chosen().Some? then this.(pos := Next(|procs|, Chosen().value)) else this
    }

    function Adjusted(k: nat, n: int): (ring: Ring)
      requires Fits() && k < |procs|
      ensures ring.Fits() && |ring.procs| == |procs|
    {
      this.(procs := procs[k := procs[k].Plus(n)])
    }

    function Added(p: Proc): (ring: Ring)
      ensures ring.Fits()
    {
      Ring(procs + [p], 0)
    }

    function Removed(k: nat): (ring: Ring)
      requires k < |procs|
      ensures ring.Fits()
    {
      Ring(procs[..k] + procs[k + 1..], 0)
    }
  }

  const NoRing := Ring([], 0)

  /** The first index with the connection. */
  function IndexOf(procs: seq<Proc>, id: ConnId): (k: Option<nat>)
    ensures k.Some? ==> k.value < |procs| && procs[k.value].id == id
    ensures k.None? <==> forall i :: 0 <= i < |procs| ==> procs[i].id != id
    ensures k.Some? ==> forall i :: 0 <= i < k.value ==> procs[i].id != id
  {
    if procs == [] then None
    else if procs[0].id == id then Some(0)
    else
      var rest := IndexOf(procs[1..], id);
      if rest.None? then
        assert forall i :: 0 < i < |procs| ==> procs[i] == procs[1..][i - 1];
        None
      else
        assert forall i :: 0 < i <= rest.value ==> procs[i] == procs[1..][i - 1];
        Some(rest.value + 1)
  }

  function Ids(procs: seq<Proc>): (ids: seq<ConnId>)
    ensures |ids| == |procs| && forall i :: 0 <= i < |ids| ==> ids[i] == procs[i].id
  {
    seq(|procs|, i requires 0 <= i < |procs| => procs[i].id)
  }

  /** How many processors of the connection there are. */
  function Copies(procs: seq<Proc>, id: ConnId): nat {
    multiset(Ids(procs))[id]
  }

  /** How often the connection's list names the type. */
  function Listings(identities: map<ConnId, seq<ProcessorType>>, id: ConnId, t: ProcessorType): nat {
    if id in identities then multiset(identities[id])[t] else 0
  }

  /** All rings, by type, and which types each connection registered for. */
  datatype Pool = Pool(rings: map<ProcessorType, Ring>, identities: map<ConnId, seq<ProcessorType>>) {
    predicate Fits() {
      forall t <- rings :: rings[t].Fits()
    }

    /** Connections are listed for every processor they have. */
    ghost predicate Listed() {
      forall t, id :: t in rings ==> Copies(rings[t].procs, id) <= Listings(identities, id, t)
    }

    /** What removing a connection leaves; a connection that never registered is skipped. */
    function Without(id: ConnId): (map<ProcessorType, Ring>, bool) {
      if id in identities then Unregistered(rings, identities[id], id) else (rings, true)
    }

    function With(t: ProcessorType, ring: Ring): Pool {
      this.(rings := rings[t := ring])
    }

    function Registered(t: ProcessorType, p: Proc): Pool {
      var ring := if t in rings then rings[t] else NoRing;
      Pool(rings[t := ring.Added(p)],
           identities[p.id := (if p.id in identities then identities[p.id] else []) + [t]])
    }

    /** A dispatch: the ring advances and the chosen processor is occupied once more. */
    function Dispatched(t: ProcessorType): Pool
      requires Fits() && t in rings && rings[t].Chosen().Some?
    {
      With(t, rings[t].Advanced().Adjusted(rings[t].Chosen().value, 1))
    }

    /** The vacancy test of a waiting dispatch has already moved the ring. */
    function Probed(t: ProcessorType): Pool
      requires Fits() && t in rings
    {
      With(t, rings[t].Advanced())
    }

    function Released(t: ProcessorType, id: ConnId): Pool
      requires Fits() && t in rings && IndexOf(rings[t].procs, id).Some?
    {
      With(t, rings[t].Adjusted(IndexOf(rings[t].procs, id).value, -1))
    }
  }

  /** The rings after one processor of the connection has been taken out of a ring. */
  function Dropping(rings: map<ProcessorType, Ring>, u: ProcessorType, k: nat): map<ProcessorType, Ring>
    requires u in rings && k < |rings[u].procs|
  {
    var ring := rings[u].Removed(k);
    if ring.procs == [] then rings - {u} else rings[u := ring]
  }

  /** Takes a connection out of the rings of its types, in order; false if one of them does not have it. */
  function Unregistered(rings: map<ProcessorType, Ring>, types: seq<ProcessorType>, id: ConnId)
    : (map<ProcessorType, Ring>, bool)
    decreases |types|
  {
    if types == [] then (rings, true)
    else
      var t := types[0];
      if t !in rings then Unregistered(rings, types[1..], id)
      else
        var k := IndexOf(rings[t].procs, id);
        if k.None? then (rings, false)
        else
          Unregistered(Dropping(rings, t, k.value), types[1..], id)
  }

  // How processors are listed

  lemma CopiesOf(procs: seq<Proc>, id: ConnId)
    ensures IndexOf(procs, id).None? <==> Copies(procs, id) == 0
  {
    if IndexOf(procs, id).Some? {
      assert Ids(procs)[IndexOf(procs, id).value] in Ids(procs);
    }
  }

  lemma AddCopies(procs: seq<Proc>, p: Proc, id: ConnId)
    ensures Copies(procs + [p], id) == Copies(procs, id) + if id == p.id then 1 else 0
  {
    assert Ids(procs + [p]) == Ids(procs) + [p.id];
  }

  lemma RemoveCopies(procs: seq<Proc>, k: nat, id: ConnId)
    requires k < |procs|
    ensures Copies(procs, id) == Copies(procs[..k] + procs[k + 1..], id) + if id == procs[k].id then 1 else 0
  {
    assert Ids(procs) == Ids(procs)[..k] + [procs[k].id] + Ids(procs)[k + 1..];
    assert Ids(procs[..k] + procs[k + 1..]) == Ids(procs)[..k] + Ids(procs)[k + 1..];
  }

  lemma RegisterKeepsListed(pool: Pool, t: ProcessorType, p: Proc)
    requires pool.Listed()
    ensures pool.Registered(t, p).Listed()
  {
    var pool' := pool.Registered(t, p);
    forall u, id | u in pool'.rings
      ensures Copies(pool'.rings[u].procs, id) <= Listings(pool'.identities, id, u)
    {
      AddCopies(if t in pool.rings then pool.rings[t].procs else [], p, id);
      assert u in pool.rings ==> Copies(pool.rings[u].procs, id) <= Listings(pool.identities, id, u);
    }
  }

  /** Occupancy and position do not matter to how processors are listed. */
  lemma SameIdsKeepListed(pool: Pool, t: ProcessorType, ring: Ring)
    requires pool.Listed() && t in pool.rings && Ids(ring.procs) == Ids(pool.rings[t].procs)
    ensures pool.With(t, ring).Listed()
  {
    forall u, id | u in pool.With(t, ring).rings
      ensures Copies(pool.With(t, ring).rings[u].procs, id) <= Listings(pool.identities, id, u)
    {
      assert Copies(pool.rings[u].procs, id) <= Listings(pool.identities, id, u);
    }
  }

  lemma CountFirst<T>(s: seq<T>, x: T)
    requires s != []
    ensures multiset(s)[x] == multiset(s[1..])[x] + if s[0] == x then 1 else 0
  {
    assert s == [s[0]] + s[1..];
  }

  lemma DroppingCounts(rings: map<ProcessorType, Ring>, u: ProcessorType, k: nat, t: ProcessorType, id: ConnId)
    requires u in rings && k < |rings[u].procs| && t in Dropping(rings, u, k)
    ensures t in rings
    ensures Copies(rings[t].procs, id)
         == Copies(Dropping(rings, u, k)[t].procs, id) + if t == u && rings[u].procs[k].id == id then 1 else 0
  {
    RemoveCopies(rings[u].procs, k, id);
  }

  lemma {:induction false} RemovalShrinks(rings: map<ProcessorType, Ring>, types: seq<ProcessorType>, id: ConnId,
                                          t: ProcessorType, other: ConnId)
    requires t in Unregistered(rings, types, id).0
    ensures t in rings && Copies(Unregistered(rings, types, id).0[t].procs, other) <= Copies(rings[t].procs, other)
    decreases |types|
  {
    if types != [] {
      var u := types[0];
      if u !in rings {
        RemovalShrinks(rings, types[1..], id, t, other);
      } else if IndexOf(rings[u].procs, id).Some? {
        var k := IndexOf(rings[u].procs, id).value;
        RemovalShrinks(Dropping(rings, u, k), types[1..], id, t, other);
        DroppingCounts(rings, u, k, t, other);
      }
    }
  }

  /** Every type named that is still there has lost one processor of the connection for each time it was named. */
  lemma {:induction false} RemovalCounts(rings: map<ProcessorType, Ring>, types: seq<ProcessorType>, id: ConnId,
                                         t: ProcessorType)
    requires t in Unregistered(rings, types, id).0 && Unregistered(rings, types, id).1
    ensures t in rings
    ensures Copies(Unregistered(rings, types, id).0[t].procs, id) + multiset(types)[t] == Copies(rings[t].procs, id)
    decreases |types|
  {
    if types != [] {
      var u := types[0];
      CountFirst(types, t);
      if u !in rings {
        RemovalCounts(rings, types[1..], id, t);
      } else {
        var k := IndexOf(rings[u].procs, id).value;
        RemovalCounts(Dropping(rings, u, k), types[1..], id, t);
        DroppingCounts(rings, u, k, t, id);
      }
    }
  }

  lemma RemovalKeepsListed(pool: Pool, id: ConnId)
    requires pool.Listed()
    ensures pool.(rings := pool.Without(id).0).Listed()
  {
    var rings := pool.Without(id).0;
    forall t, other | t in rings
      ensures Copies(rings[t].procs, other) <= Listings(pool.identities, other, t)
    {
      if id in pool.identities {
        RemovalShrinks(pool.rings, pool.identities[id], id, t, other);
      }
      assert Copies(pool.rings[t].procs, other) <= Listings(pool.identities, other, t);
    }
  }

  /** After a removal that did not fail, no type has a processor of the connection. */
  lemma RemovalClears(pool: Pool, id: ConnId, t: ProcessorType)
    requires pool.Listed() && pool.Without(id).1 && t in pool.Without(id).0
    ensures IndexOf(pool.Without(id).0[t].procs, id).None?
  {
    if id in pool.identities {
      RemovalCounts(pool.rings, pool.identities[id], id, t);
    }
    assert Copies(pool.rings[t].procs, id) <= Listings(pool.identities, id, t);
    CopiesOf(pool.Without(id).0[t].procs, id);
  }
}
