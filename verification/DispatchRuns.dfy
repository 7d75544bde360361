/** Dispatching in turn: the iterator is fair, and exactly when the executor is. */
module DispatchRuns {
  import opened Options
  import opened RoundRobins
  import opened ProcessorSpec
  import opened Executor

  // Runs of calls of the iterator

  /**
   * The ring as each call finds it: always the same number of processors, with any
   * occupancies, and the position where the call before has left it.
   */
  ghost predicate AreCalls(rings: seq<Ring>) {
    && rings != [] && rings[0].procs != []
    && (forall t :: 0 <= t < |rings| ==> rings[t].Fits() && |rings[t].procs| == |rings[0].procs|)
    && forall t :: 0 < t < |rings| ==> rings[t].pos == rings[t - 1].Advanced().pos
  }

  function Vacant(rings: seq<Ring>): (calls: seq<seq<bool>>)
    ensures |calls| == |rings| && forall t :: 0 <= t < |rings| ==> calls[t] == rings[t].Vacancies()
  {
    seq(|rings|, t requires 0 <= t < |rings| => rings[t].Vacancies())
  }

  /** Calls of the iterator are calls of the round robin. */
  lemma {:induction false} CallsAreRoundRobin(rings: seq<Ring>, t: nat)
    requires AreCalls(rings) && t < |rings|
    ensures var n, pos, calls := |rings[0].procs|, rings[0].pos, Vacant(rings);
      && RoundRobins.IsRun(n, pos, calls)
      && PosAt(n, pos, calls, t) == rings[t].pos && Choice(n, pos, calls, t) == rings[t].Chosen()
    decreases t
  {
    if t > 0 {
      CallsAreRoundRobin(rings, t - 1);
    }
  }

  /** Between two calls that choose one processor, every other one that had vacancy meanwhile is chosen. */
  lemma IteratorIsFair(rings: seq<Ring>, t1: nat, t2: nat, r: nat, p: nat)
    requires AreCalls(rings) && t1 < t2 < |rings| && p < |rings[0].procs| && p != r
    requires rings[t1].Chosen() == Some(r) && rings[t2].Chosen() == Some(r)
    requires forall t :: t1 < t <= t2 ==> rings[t].procs[p].HasVacancy()
    ensures exists t :: t1 < t < t2 && rings[t].Chosen() == Some(p)
  {
    var n, pos, calls := |rings[0].procs|, rings[0].pos, Vacant(rings);
    CallsAreRoundRobin(rings, t1);
    CallsAreRoundRobin(rings, t2);
    Fair(n, pos, calls, t1, t2, r, p);
    var t :| t1 < t < t2 && Choice(n, pos, calls, t) == Some(p);
    CallsAreRoundRobin(rings, t);
  }

  /** Among n processors, one that has vacancy at n calls in a row is chosen by one of them. */
  lemma IteratorStarvesNobody(rings: seq<Ring>, t1: nat, p: nat)
    requires AreCalls(rings) && p < |rings[0].procs| && t1 + |rings[0].procs| <= |rings|
    requires forall t :: t1 <= t < t1 + |rings[0].procs| ==> rings[t].procs[p].HasVacancy()
    ensures exists t :: t1 <= t < t1 + |rings[0].procs| && rings[t].Chosen() == Some(p)
  {
    var n, pos, calls := |rings[0].procs|, rings[0].pos, Vacant(rings);
    CallsAreRoundRobin(rings, t1);
    NobodyStarves(n, pos, calls, t1, p);
    var t :| t1 <= t < t1 + n && Choice(n, pos, calls, t) == Some(p);
    CallsAreRoundRobin(rings, t);
  }

  /** After a processor joins or leaves, the next call takes the first of the list that has vacancy. */
  lemma RestartsAtFirst(ring: Ring, ring': Ring, k: nat)
    requires (exists p :: ring' == ring.Added(p)) || exists j: nat :: j < |ring.procs| && ring' == ring.Removed(j)
    ensures ring'.Chosen() == Some(k) <==>
      && k < |ring'.procs| && ring'.procs[k].HasVacancy()
      && forall j :: 0 <= j < k ==> !ring'.procs[j].HasVacancy()
  {
    if ring'.procs != [] {
      ChosenIsNearest(ring', k);
      assert forall j :: 0 <= j < |ring'.procs| ==> Dist(|ring'.procs|, ring'.pos, j) == j;
      assert forall j :: 0 <= j < |ring'.procs| ==> ring'.Vacancies()[j] == ring'.procs[j].HasVacancy();
    }
  }

  // Which dispatches take the processor whose turn it is

  /** At most one processor of the ring has vacancy. */
  ghost predicate OneVacant(ring: Ring) {
    forall i, j :: 0 <= i < j < |ring.procs| ==> !(ring.procs[i].HasVacancy() && ring.procs[j].HasVacancy())
  }

  /** The dispatch has not waited for a vacancy, or there is only one to take. */
  ghost predicate InTurn(s: State, i: nat)
    requires i < |s.waiting| && s.waiting[i].kind in s.pool.rings
  {
    s.waiting[i].forVacancy ==> OneVacant(s.pool.rings[s.waiting[i].kind])
  }

  /** After a call, the processor it chose is the last in turn. */
  lemma ChosenIsLast(ring: Ring, k: nat, j: nat)
    requires ring.Fits() && ring.Chosen() == Some(k) && j < |ring.procs|
    ensures j != k ==> Dist(|ring.procs|, ring.Advanced().pos, j) < Dist(|ring.procs|, ring.Advanced().pos, k)
  {
  }

  lemma ChosenIsNearest(ring: Ring, k: nat)
    requires ring.Fits() && ring.procs != []
    ensures ring.Chosen() == Some(k) <==> IsNearest(ring.Vacancies(), ring.pos, k)
  {
    SelectIsNearest(ring.Vacancies(), ring.pos);
  }

  /** A second call chooses the same processor if and only if no other has vacancy. */
  lemma SecondCallExactly(ring: Ring)
    requires ring.Fits() && ring.Chosen().Some?
    ensures ring.Advanced().Chosen() == ring.Chosen() <==> OneVacant(ring)
    ensures OneVacant(ring) ==> ring.Advanced().Advanced() == ring.Advanced()
  {
    var k, ring' := ring.Chosen().value, ring.Advanced();
    ChosenIsNearest(ring, k);
    ChosenIsNearest(ring', k);
    forall j | 0 <= j < |ring.procs| && ring.procs[j].HasVacancy() && j != k
      ensures !OneVacant(ring) && ring'.Chosen() != Some(k)
    {
      ChosenIsLast(ring, k, j);
      assert ring'.Vacancies()[j];
    }
  }

  /** Where the executor sends the transaction. */
  function SentTo(s: State, i: nat): ConnId
    requires Enabled(s, Dispatch(i))
  {
    NextState(s, Dispatch(i)).flight[|s.flight|].conn
  }

  /**
   * A dispatch chooses the vacant processor whose turn it is if and only if it has
   * not waited for a vacancy, or there is only one; the ring then moves on by one call.
   */
  lemma DispatchInTurnExactly(s: State, i: nat)
    requires Enabled(s, Dispatch(i))
    ensures var kind := s.waiting[i].kind;
      var ring, ring' := s.pool.rings[kind], RingFor(s.pool, s.waiting[i]);
      && SentTo(s, i) == ring.procs[ring'.Chosen().value].id
      && (ring'.Chosen() == ring.Chosen() <==> InTurn(s, i))
      && (InTurn(s, i) ==> NextState(s, Dispatch(i)).pool.rings[kind].pos == ring.Advanced().pos)
  {
    SecondCallExactly(s.pool.rings[s.waiting[i].kind]);
  }

  // The dispatches of one type

  /** The event changes who is registered for the type. */
  predicate Changes(s: State, e: Event, kind: ProcessorType)
    requires kind in s.pool.rings
  {
    || (e.Register? && e.kind == kind)
    || (e.Unregister? && IndexOf(s.pool.rings[kind].procs, e.conn).Some?)
  }

  predicate Dispatches(s: State, e: Event, kind: ProcessorType) {
    e.Dispatch? && e.i < |s.waiting| && s.waiting[e.i].kind == kind
  }

  /** The type's processors stay the same, and its dispatches take turns. */
  ghost predicate TakesTurns(s: State, events: seq<Event>, kind: ProcessorType)
    requires Executor.IsRun(s, events)
    decreases |events|
  {
    events != [] ==>
      && kind in s.pool.rings && !Changes(s, events[0], kind)
      && (Dispatches(s, events[0], kind) ==> InTurn(s, events[0].i))
      && TakesTurns(NextState(s, events[0]), events[1..], kind)
  }

  /** The type's ring before each of its dispatches. */
  ghost function Turns(s: State, events: seq<Event>, kind: ProcessorType): seq<Ring>
    requires Executor.IsRun(s, events)
    decreases |events|
  {
    if events == [] then []
    else if Dispatches(s, events[0], kind)
    then [s.pool.rings[kind]] + Turns(NextState(s, events[0]), events[1..], kind)
    else Turns(NextState(s, events[0]), events[1..], kind)
  }

  /** The connections its transactions are sent to, in order. */
  ghost function Sends(s: State, events: seq<Event>, kind: ProcessorType): (conns: seq<ConnId>)
    requires Executor.IsRun(s, events)
    ensures |conns| == |Turns(s, events, kind)|
    decreases |events|
  {
    if events == [] then []
    else if Dispatches(s, events[0], kind)
    then [SentTo(s, events[0].i)] + Sends(NextState(s, events[0]), events[1..], kind)
    else Sends(NextState(s, events[0]), events[1..], kind)
  }

  lemma {:induction false} RemovalLeavesRing(rings: map<ProcessorType, Ring>, types: seq<ProcessorType>, conn: ConnId,
                                             kind: ProcessorType)
    requires kind in rings && IndexOf(rings[kind].procs, conn).None?
    ensures kind in Unregistered(rings, types, conn).0 && Unregistered(rings, types, conn).0[kind] == rings[kind]
    decreases |types|
  {
    if types != [] {
      var t := types[0];
      if t !in rings {
        RemovalLeavesRing(rings, types[1..], conn, kind);
      } else if IndexOf(rings[t].procs, conn).Some? {
        RemovalLeavesRing(Dropping(rings, t, IndexOf(rings[t].procs, conn).value), types[1..], conn, kind);
      }
    }
  }

  /** Other steps do not move the ring. */
  lemma StepLeavesRing(s: State, e: Event, kind: ProcessorType)
    requires Enabled(s, e) && kind in s.pool.rings && !Changes(s, e, kind) && !Dispatches(s, e, kind)
    ensures var rings := NextState(s, e).pool.rings;
      kind in rings && rings[kind].pos == s.pool.rings[kind].pos
      && Ids(rings[kind].procs) == Ids(s.pool.rings[kind].procs)
  {
    if e.Unregister? && e.conn in s.pool.identities {
      RemovalLeavesRing(s.pool.rings, s.pool.identities[e.conn], e.conn, kind);
    }
  }

  lemma DispatchLeavesIds(s: State, i: nat)
    requires Enabled(s, Dispatch(i))
    ensures var kind := s.waiting[i].kind;
      var rings := NextState(s, Dispatch(i)).pool.rings;
      kind in rings && Ids(rings[kind].procs) == Ids(s.pool.rings[kind].procs)
  {
  }

  /** What links the dispatches of one type to the calls of its iterator. */
  ghost predicate Links(ids: seq<ConnId>, pos: nat, turns: seq<Ring>, sends: seq<ConnId>) {
    && |turns| == |sends| && (turns != [] ==> turns[0].pos == pos)
    && (forall t :: 0 <= t < |turns| ==>
          && turns[t].Fits() && Ids(turns[t].procs) == ids
          && turns[t].Chosen().Some? && sends[t] == ids[turns[t].Chosen().value])
    && forall t :: 0 < t < |turns| ==> turns[t].pos == turns[t - 1].Advanced().pos
  }

  lemma LinkMore(ids: seq<ConnId>, ring: Ring, conn: ConnId, turns: seq<Ring>, sends: seq<ConnId>)
    requires ring.Fits() && Ids(ring.procs) == ids && ring.Chosen().Some? && conn == ids[ring.Chosen().value]
    requires Links(ids, ring.Advanced().pos, turns, sends)
    ensures Links(ids, ring.pos, [ring] + turns, [conn] + sends)
  {
  }

  lemma {:induction false} DispatchesAreCalls(s: State, events: seq<Event>, kind: ProcessorType)
    requires Executor.IsRun(s, events) && kind in s.pool.rings && TakesTurns(s, events, kind)
    ensures var ring := s.pool.rings[kind];
      Links(Ids(ring.procs), ring.pos, Turns(s, events, kind), Sends(s, events, kind))
    decreases |events|
  {
    if events != [] {
      var s', rest := NextState(s, events[0]), events[1..];
      if Dispatches(s, events[0], kind) {
        DispatchInTurnExactly(s, events[0].i);
        DispatchLeavesIds(s, events[0].i);
        DispatchesAreCalls(s', rest, kind);
        var ring := s.pool.rings[kind];
        LinkMore(Ids(ring.procs), ring, SentTo(s, events[0].i), Turns(s', rest, kind), Sends(s', rest, kind));
      } else {
        StepLeavesRing(s, events[0], kind);
        DispatchesAreCalls(s', rest, kind);
      }
    }
  }

  // Fairness over every run

  lemma LinkedAreCalls(ids: seq<ConnId>, pos: nat, turns: seq<Ring>, sends: seq<ConnId>)
    requires Links(ids, pos, turns, sends) && turns != []
    ensures AreCalls(turns) && |turns[0].procs| == |ids|
  {
    assert turns[0].Chosen().Some?;
  }

  lemma LinkedIsFair(ids: seq<ConnId>, pos: nat, turns: seq<Ring>, sends: seq<ConnId>, t1: nat, t2: nat, p: nat)
    requires Links(ids, pos, turns, sends) && t1 < t2 < |turns| && p < |ids|
    requires forall i, j :: 0 <= i < j < |ids| ==> ids[i] != ids[j]
    requires sends[t1] == sends[t2] != ids[p]
    requires forall t :: t1 < t <= t2 ==> turns[t].procs[p].HasVacancy()
    ensures exists t :: t1 < t < t2 && sends[t] == ids[p]
  {
    LinkedAreCalls(ids, pos, turns, sends);
    var r := turns[t1].Chosen().value;
    assert turns[t2].Chosen().value == r && r != p;
    IteratorIsFair(turns, t1, t2, r, p);
    var t :| t1 < t < t2 && turns[t].Chosen() == Some(p);
    assert sends[t] == ids[p];
  }

  /** The processor at a place of the type's ring has vacancy at all the dispatches. */
  ghost predicate VacantAt(turns: seq<Ring>, p: nat, t1: nat, t2: nat)
    requires t2 <= |turns|
  {
    forall t :: t1 <= t < t2 ==> p < |turns[t].procs| && turns[t].procs[p].HasVacancy()
  }

  /**
   * After every run with fresh registrations, while the processors of a type stay
   * the same and its dispatches are in turn: between two transactions sent to one
   * connection, every other connection with vacancy at all dispatches since is sent one.
   */
  lemma ExecutorIsFair(before: seq<Event>, s: State, events: seq<Event>, kind: ProcessorType, t1: nat, t2: nat, p: nat)
    requires Executor.IsRun(Start, before) && RegistersFresh(Start, before) && s == Executor.After(Start, before)
    requires Executor.IsRun(s, events) && TakesTurns(s, events, kind) && kind in s.pool.rings
    requires t1 < t2 < |Sends(s, events, kind)| && p < |s.pool.rings[kind].procs|
    requires Sends(s, events, kind)[t1] == Sends(s, events, kind)[t2] != s.pool.rings[kind].procs[p].id
    requires VacantAt(Turns(s, events, kind), p, t1 + 1, t2 + 1)
    ensures exists t :: t1 < t < t2 && Sends(s, events, kind)[t] == s.pool.rings[kind].procs[p].id
  {
    var ring := s.pool.rings[kind];
    RunBalancesExactly(Start, before);
    BalancedInTheEnd(Start, before);
    assert Counted(s.flight, kind, ring);
    DispatchesAreCalls(s, events, kind);
    LinkedIsFair(Ids(ring.procs), ring.pos, Turns(s, events, kind), Sends(s, events, kind), t1, t2, p);
  }

  lemma {:induction false} BalancedInTheEnd(s: State, events: seq<Event>)
    requires Executor.IsRun(s, events) && AlwaysBalanced(s, events)
    ensures Balanced(Executor.After(s, events))
    decreases |events|
  {
    if events != [] {
      BalancedInTheEnd(NextState(s, events[0]), events[1..]);
    }
  }

  /** And one with vacancy at as many dispatches in a row as there are processors is sent a transaction. */
  lemma ExecutorStarvesNobody(s: State, events: seq<Event>, kind: ProcessorType, t1: nat, p: nat)
    requires Executor.IsRun(s, events) && kind in s.pool.rings && TakesTurns(s, events, kind)
    requires p < |s.pool.rings[kind].procs| && t1 + |s.pool.rings[kind].procs| <= |Turns(s, events, kind)|
    requires VacantAt(Turns(s, events, kind), p, t1, t1 + |s.pool.rings[kind].procs|)
    ensures var n, conn := |s.pool.rings[kind].procs|, s.pool.rings[kind].procs[p].id;
      exists t :: t1 <= t < t1 + n && Sends(s, events, kind)[t] == conn
  {
    var ring, turns := s.pool.rings[kind], Turns(s, events, kind);
    DispatchesAreCalls(s, events, kind);
    LinkedAreCalls(Ids(ring.procs), ring.pos, turns, Sends(s, events, kind));
    IteratorStarvesNobody(turns, t1, p);
    var t :| t1 <= t < t1 + |ring.procs| && turns[t].Chosen() == Some(p);
    assert Sends(s, events, kind)[t] == Ids(ring.procs)[p];
  }

  // Types without processors

  ghost predicate NoneEmpty(rings: map<ProcessorType, Ring>) {
    forall t <- rings :: rings[t].procs != []
  }

  lemma {:induction false} RemovalEmptiesNone(rings: map<ProcessorType, Ring>, types: seq<ProcessorType>, conn: ConnId)
    requires NoneEmpty(rings)
    ensures NoneEmpty(Unregistered(rings, types, conn).0)
    decreases |types|
  {
    if types != [] {
      var t := types[0];
      if t !in rings {
        RemovalEmptiesNone(rings, types[1..], conn);
      } else if IndexOf(rings[t].procs, conn).Some? {
        RemovalEmptiesNone(Dropping(rings, t, IndexOf(rings[t].procs, conn).value), types[1..], conn);
      }
    }
  }

  lemma StepEmptiesNone(s: State, e: Event)
    requires Enabled(s, e) && NoneEmpty(s.pool.rings)
    ensures NoneEmpty(NextState(s, e).pool.rings)
  {
    if e.Unregister? && e.conn in s.pool.identities {
      RemovalEmptiesNone(s.pool.rings, s.pool.identities[e.conn], e.conn);
    }
  }

  /** In every run a type is known only while it has a processor. */
  lemma {:induction false} KnownTypesHaveProcessors(s: State, events: seq<Event>)
    requires Executor.IsRun(s, events) && NoneEmpty(s.pool.rings)
    ensures NoneEmpty(Executor.After(s, events).pool.rings)
    decreases |events|
  {
    if events != [] {
      StepEmptiesNone(s, events[0]);
      KnownTypesHaveProcessors(NextState(s, events[0]), events[1..]);
    }
  }

  // When there is a processor to send to

  /**
   * After every run with fresh registrations a transaction can be sent if and only
   * if its type has a processor with fewer requests in flight than its maximum.
   */
  lemma CanSendExactly(events: seq<Event>, s: State, i: nat)
    requires Executor.IsRun(Start, events) && RegistersFresh(Start, events) && s == Executor.After(Start, events)
    requires i < |s.waiting|
    ensures var kind := s.waiting[i].kind;
      Enabled(s, Dispatch(i)) <==>
        kind in s.pool.rings && exists p <- s.pool.rings[kind].procs :: InFlight(s.flight, kind, p.id) < p.max
  {
    var kind := s.waiting[i].kind;
    RunBalancesExactly(Start, events);
    BalancedInTheEnd(Start, events);
    if kind in s.pool.rings {
      var ring := s.pool.rings[kind];
      assert Counted(s.flight, kind, ring);
      if ring.Chosen().Some? {
        assert ring.procs[ring.Chosen().value] in ring.procs;
      }
    }
  }
}
