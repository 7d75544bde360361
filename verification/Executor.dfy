/** Dispatching transactions to processors and handling their responses. */
module Executor {
  import opened ProcessorSpec

  type TxnId = string

  /**
   * A transaction that waits for a processor: in the scheduling thread or as a
   * retry, for its type to register or, later, for a vacancy.
   */
  datatype Waiting = Waiting(txn: TxnId, kind: ProcessorType, retry: bool, forVacancy: bool)

  /** A request sent to a processor and not answered yet. */
  datatype Request = Request(txn: TxnId, kind: ProcessorType, conn: ConnId)

  datatype Status = Valid | Invalid | InternalError

  /**
   * The executor's state: transactions taken from the scheduler, those waiting
   * for a processor, those sent, those given up without a result, the results
   * reported, and whether the scheduling thread has ended by an exception.
   */
  datatype State = State(
    pool: Pool,
    taken: set<TxnId>,
    waiting: seq<Waiting>,
    flight: seq<Request>,
    dropped: seq<TxnId>,
    reports: seq<(TxnId, bool)>,
    halted: bool)

  datatype Event =
    | Register(kind: ProcessorType, conn: ConnId, max: nat)
    | Unregister(conn: ConnId)
    | Take(txn: TxnId, kind: ProcessorType, accepted: bool)
    | Park(i: nat)
    | Dispatch(i: nat)
    | Lose(i: nat)
    | Cancel(i: nat)
    | Respond(i: nat, status: Status, scheduled: bool)

  function Without<T>(s: seq<T>, i: nat): seq<T>
    requires i < |s|
  {
    s[..i] + s[i + 1..]
  }

  /** The ring a dispatch chooses from: the vacancy test of a waiting one has moved it. */
  function RingFor(pool: Pool, w: Waiting): (ring: Ring)
    requires pool.Fits() && w.kind in pool.rings
    ensures ring.Fits() && ring.procs == pool.rings[w.kind].procs
  {
    if w.forVacancy then pool.rings[w.kind].Advanced() else pool.rings[w.kind]
  }

  /** The next processor of the type has vacancy. */
  predicate CanSend(s: State, kind: ProcessorType)
    requires s.pool.Fits()
  {
    kind in s.pool.rings && s.pool.rings[kind].Chosen().Some?
  }

  function Send(s: State, i: nat): State
    requires s.pool.Fits() && i < |s.waiting| && CanSend(s, s.waiting[i].kind)
  {
    var w := s.waiting[i];
    var ring := RingFor(s.pool, w);
    var k := ring.Chosen().value;
    s.(pool := s.pool.With(w.kind, ring.Advanced().Adjusted(k, 1)),
       waiting := Without(s.waiting, i),
       flight := s.flight + [Request(w.txn, w.kind, ring.procs[k].id)])
  }

  /**
   * An exception ends the wait: the transaction is given up, and so is the thread
   * that took it. A cancelled wait is caught, but its handler raises again, because
   * it asks the serialized request for a signature.
   */
  function GiveUp(s: State, i: nat): State
    requires i < |s.waiting|
  {
    var w := s.waiting[i];
    s.(waiting := Without(s.waiting, i), dropped := s.dropped + [w.txn], halted := s.halted || !w.retry)
  }

  /** The request's processor is still registered. */
  predicate Served(rings: map<ProcessorType, Ring>, r: Request) {
    r.kind in rings && IndexOf(rings[r.kind].procs, r.conn).Some?
  }

  /** What the response callback does: frees the processor, then reports, retries or gives up. */
  function Handled(s: State, r: Request, status: Status, scheduled: bool): State
    requires s.pool.Fits() && Served(s.pool.rings, r)
  {
    var freed := s.(pool := s.pool.Released(r.kind, r.conn));
    match status
    case Valid => freed.(reports := s.reports + [(r.txn, true)])
    case Invalid => freed.(reports := s.reports + [(r.txn, false)])
    case InternalError =>
      if scheduled then freed.(waiting := s.waiting + [Waiting(r.txn, r.kind, true, false)])
      else freed.(dropped := s.dropped + [r.txn])
  }

  /** A response; a callback that does not find its processor raises, and the answer is lost. */
  function Answer(s: State, i: nat, status: Status, scheduled: bool): State
    requires s.pool.Fits() && i < |s.flight|
  {
    var r := s.flight[i];
    var s' := s.(flight := Without(s.flight, i));
    if Served(s.pool.rings, r) then Handled(s', r, status, scheduled) else s'.(dropped := s.dropped + [r.txn])
  }

  predicate Enabled(s: State, e: Event) {
    && s.pool.Fits()
    && match e
       case Register(kind, conn, max) => true
       case Unregister(conn) => true
       // The scheduler yields each transaction once
       case Take(txn, kind, accepted) => !s.halted && txn !in s.taken
       case Park(i) =>
         && i < |s.waiting| && !s.waiting[i].forVacancy
         && s.waiting[i].kind in s.pool.rings && !CanSend(s, s.waiting[i].kind)
       case Dispatch(i) => i < |s.waiting| && CanSend(s, s.waiting[i].kind)
       case Lose(i) => i < |s.waiting| && s.waiting[i].forVacancy && s.waiting[i].kind !in s.pool.rings
       case Cancel(i) => i < |s.waiting|
       case Respond(i, status, scheduled) => i < |s.flight|
  }

  function NextState(s: State, e: Event): State
    requires Enabled(s, e)
  {
    match e
    case Register(kind, conn, max) => s.(pool := s.pool.Registered(kind, Proc(conn, max, 0)))
    case Unregister(conn) => s.(pool := s.pool.(rings := s.pool.Without(conn).0))
    case Take(txn, kind, accepted) =>
      if accepted then s.(taken := s.taken + {txn}, waiting := s.waiting + [Waiting(txn, kind, false, false)])
      else s.(taken := s.taken + {txn}, reports := s.reports + [(txn, false)])
    case Park(i) => s.(waiting := s.waiting[i := s.waiting[i].(forVacancy := true)])
    case Dispatch(i) => Send(s, i)
    case Lose(i) => GiveUp(s, i)
    case Cancel(i) => GiveUp(s, i)
    case Respond(i, status, scheduled) => Answer(s, i, status, scheduled)
  }

  const Start := State(Pool(map[], map[]), {}, [], [], [], [], false)

  /** The events of a run, each enabled when it happens. */
  predicate IsRun(s: State, events: seq<Event>)
    decreases |events|
  {
    events == [] || (Enabled(s, events[0]) && IsRun(NextState(s, events[0]), events[1..]))
  }

  function After(s: State, events: seq<Event>): State
    requires IsRun(s, events)
    decreases |events|
  {
    if events == [] then s else After(NextState(s, events[0]), events[1..])
  }

  // What every step keeps of the pool

  lemma {:induction false} UnregisterFits(rings: map<ProcessorType, Ring>, types: seq<ProcessorType>, conn: ConnId)
    requires forall t <- rings :: rings[t].Fits()
    ensures forall t <- Unregistered(rings, types, conn).0 :: Unregistered(rings, types, conn).0[t].Fits()
    decreases |types|
  {
    if types != [] {
      var t := types[0];
      if t !in rings {
        UnregisterFits(rings, types[1..], conn);
      } else if IndexOf(rings[t].procs, conn).Some? {
        UnregisterFits(Dropping(rings, t, IndexOf(rings[t].procs, conn).value), types[1..], conn);
      }
    }
  }

  lemma SendKeepsListed(s: State, i: nat)
    requires s.pool.Fits() && s.pool.Listed() && i < |s.waiting| && CanSend(s, s.waiting[i].kind)
    ensures Send(s, i).pool.Listed()
  {
    var ring := RingFor(s.pool, s.waiting[i]);
    var ring' := ring.Advanced().Adjusted(ring.Chosen().value, 1);
    assert Ids(ring'.procs) == Ids(ring.procs);
    SameIdsKeepListed(s.pool, s.waiting[i].kind, ring');
  }

  lemma AnswerKeepsListed(s: State, i: nat, status: Status, scheduled: bool)
    requires s.pool.Fits() && s.pool.Listed() && i < |s.flight|
    ensures Answer(s, i, status, scheduled).pool.Listed()
  {
    var r := s.flight[i];
    if Served(s.pool.rings, r) {
      var ring := s.pool.rings[r.kind];
      var ring' := ring.Adjusted(IndexOf(ring.procs, r.conn).value, -1);
      assert Ids(ring'.procs) == Ids(ring.procs);
      SameIdsKeepListed(s.pool, r.kind, ring');
    }
  }

  lemma UnregisterKeepsPool(s: State, conn: ConnId)
    requires Enabled(s, Unregister(conn)) && s.pool.Listed()
    ensures NextState(s, Unregister(conn)).pool.Fits() && NextState(s, Unregister(conn)).pool.Listed()
  {
    RemovalKeepsListed(s.pool, conn);
    if conn in s.pool.identities {
      UnregisterFits(s.pool.rings, s.pool.identities[conn], conn);
    }
  }

  lemma RegisterKeepsPool(s: State, kind: ProcessorType, p: Proc)
    requires s.pool.Fits() && s.pool.Listed()
    ensures s.pool.Registered(kind, p).Fits() && s.pool.Registered(kind, p).Listed()
  {
    RegisterKeepsListed(s.pool, kind, p);
  }

  /** Rings keep their shape and processors stay listed, whatever happens. */
  lemma StepKeepsPool(s: State, e: Event)
    requires Enabled(s, e) && s.pool.Listed()
    ensures NextState(s, e).pool.Fits() && NextState(s, e).pool.Listed()
  {
    match e
    case Register(kind, conn, max) => RegisterKeepsPool(s, kind, Proc(conn, max, 0));
    case Unregister(conn) => UnregisterKeepsPool(s, conn);
    case Take(txn, kind, accepted) =>
    case Park(i) =>
    case Dispatch(i) => SendKeepsListed(s, i);
    case Lose(i) =>
    case Cancel(i) =>
    case Respond(i, status, scheduled) => AnswerKeepsListed(s, i, status, scheduled);
  }

  lemma {:induction false} RunKeepsPool(s: State, events: seq<Event>)
    requires IsRun(s, events) && s.pool.Fits() && s.pool.Listed()
    ensures After(s, events).pool.Fits() && After(s, events).pool.Listed()
    decreases |events|
  {
    if events != [] {
      StepKeepsPool(s, events[0]);
      RunKeepsPool(NextState(s, events[0]), events[1..]);
    }
  }

  /**
   * After every run: a connection that is removed without an error leaves no
   * processor that a response to one of its requests could find.
   */
  lemma RemovalUnserves(events: seq<Event>, conn: ConnId, r: Request)
    requires IsRun(Start, events) && r.conn == conn
    ensures var (rings, ok) := After(Start, events).pool.Without(conn);
      ok ==> !Served(rings, r)
  {
    var pool := After(Start, events).pool;
    RunKeepsPool(Start, events);
    if pool.Without(conn).1 && r.kind in pool.Without(conn).0 {
      RemovalClears(pool, conn, r.kind);
    }
  }

  // Occupancy

  ghost predicate DistinctIds(procs: seq<Proc>) {
    forall i, j :: 0 <= i < j < |procs| ==> procs[i].id != procs[j].id
  }

  function Targets(flight: seq<Request>): (targets: seq<(ProcessorType, ConnId)>)
    ensures |targets| == |flight| && forall i :: 0 <= i < |flight| ==> targets[i] == (flight[i].kind, flight[i].conn)
  {
    seq(|flight|, i requires 0 <= i < |flight| => (flight[i].kind, flight[i].conn))
  }

  /** How many requests to the processor are in flight. */
  function InFlight(flight: seq<Request>, kind: ProcessorType, conn: ConnId): nat {
    multiset(Targets(flight))[(kind, conn)]
  }

  /** The connections of a ring differ, and every occupancy counts the requests in flight, within its bound. */
  ghost predicate Counted(flight: seq<Request>, kind: ProcessorType, ring: Ring) {
    && ring.Fits() && DistinctIds(ring.procs)
    && forall p <- ring.procs :: 0 <= p.occupancy <= p.max && p.occupancy == InFlight(flight, kind, p.id)
  }

  ghost predicate Balances(rings: map<ProcessorType, Ring>, flight: seq<Request>) {
    forall t <- rings :: Counted(flight, t, rings[t])
  }

  /** Every connection has one processor per type, whose occupancy is the number of its requests in flight. */
  ghost predicate Balanced(s: State) {
    Balances(s.pool.rings, s.flight)
  }

  /** The connection has no processor of the type and no request of it in flight. */
  ghost predicate Fresh(s: State, kind: ProcessorType, conn: ConnId) {
    && InFlight(s.flight, kind, conn) == 0
    && (kind in s.pool.rings ==> forall p <- s.pool.rings[kind].procs :: p.id != conn)
  }

  lemma WithoutElements<T>(s: seq<T>, i: nat)
    requires i < |s|
    ensures multiset(Without(s, i)) == multiset(s) - multiset{s[i]}
  {
    assert s == s[..i] + [s[i]] + s[i + 1..];
  }

  lemma SendTargets(flight: seq<Request>, r: Request)
    ensures multiset(Targets(flight + [r])) == multiset(Targets(flight)) + multiset{(r.kind, r.conn)}
  {
    assert Targets(flight + [r]) == Targets(flight) + [(r.kind, r.conn)];
  }

  lemma AnswerTargets(flight: seq<Request>, i: nat)
    requires i < |flight|
    ensures var target := (flight[i].kind, flight[i].conn);
      && multiset(Targets(Without(flight, i))) == multiset(Targets(flight)) - multiset{target}
      && target in multiset(Targets(flight))
  {
    assert Targets(Without(flight, i)) == Without(Targets(flight), i);
    WithoutElements(Targets(flight), i);
    assert Targets(flight)[i] in Targets(flight);
  }

  /** Changing one occupancy together with the count of its requests keeps the ring counted. */
  lemma AdjustKeepsCounted(flight: seq<Request>, flight': seq<Request>, kind: ProcessorType, ring: Ring, k: nat, n: int)
    requires Counted(flight, kind, ring) && k < |ring.procs|
    requires 0 <= ring.procs[k].occupancy + n <= ring.procs[k].max
    requires InFlight(flight', kind, ring.procs[k].id) == InFlight(flight, kind, ring.procs[k].id) + n
    requires forall conn :: conn != ring.procs[k].id ==> InFlight(flight', kind, conn) == InFlight(flight, kind, conn)
    ensures Counted(flight', kind, ring.Adjusted(k, n))
  {
    var ring' := ring.Adjusted(k, n);
    forall p | p in ring'.procs
      ensures 0 <= p.occupancy <= p.max && p.occupancy == InFlight(flight', kind, p.id)
    {
      var i :| 0 <= i < |ring'.procs| && ring'.procs[i] == p;
      if i != k {
        assert ring.procs[i] == p && p in ring.procs;
      } else {
        assert ring.procs[k] in ring.procs;
      }
    }
  }

  lemma SendKeepsBalance(rings: map<ProcessorType, Ring>, flight: seq<Request>, kind: ProcessorType, ring: Ring,
                         request: Request)
    requires Balances(rings, flight) && kind in rings && ring.Fits() && ring.procs == rings[kind].procs
    requires ring.Chosen().Some? && request == Request(request.txn, kind, ring.procs[ring.Chosen().value].id)
    ensures Balances(rings[kind := ring.Advanced().Adjusted(ring.Chosen().value, 1)], flight + [request])
  {
    var k := ring.Chosen().value;
    SendTargets(flight, request);
    assert Counted(flight, kind, rings[kind]) && ring.procs[k] in ring.procs;
    AdjustKeepsCounted(flight, flight + [request], kind, ring.Advanced(), k, 1);
    assert forall t <- rings :: Counted(flight, t, rings[t]);
  }

  lemma SendKeepsBalanced(s: State, i: nat)
    requires Balanced(s) && Enabled(s, Dispatch(i))
    ensures Balanced(Send(s, i))
  {
    var w := s.waiting[i];
    var ring := RingFor(s.pool, w);
    var request := Request(w.txn, w.kind, ring.procs[ring.Chosen().value].id);
    SendKeepsBalance(s.pool.rings, s.flight, w.kind, ring, request);
  }

  lemma AnswerKeepsBalance(rings: map<ProcessorType, Ring>, flight: seq<Request>, i: nat, r: Request)
    requires Balances(rings, flight) && i < |flight| && r == flight[i] && Served(rings, r)
    ensures var ring := rings[r.kind];
      Balances(rings[r.kind := ring.Adjusted(IndexOf(ring.procs, r.conn).value, -1)], Without(flight, i))
  {
    var ring, flight' := rings[r.kind], Without(flight, i);
    var k := IndexOf(ring.procs, r.conn).value;
    AnswerTargets(flight, i);
    assert Counted(flight, r.kind, ring) && ring.procs[k] in ring.procs;
    AdjustKeepsCounted(flight, flight', r.kind, ring, k, -1);
    assert forall t <- rings :: Counted(flight, t, rings[t]);
  }

  /** A request without a processor is counted nowhere. */
  lemma LostAnswerKeepsBalance(rings: map<ProcessorType, Ring>, flight: seq<Request>, i: nat)
    requires Balances(rings, flight) && i < |flight| && !Served(rings, flight[i])
    ensures Balances(rings, Without(flight, i))
  {
    AnswerTargets(flight, i);
    forall t | t in rings
      ensures Counted(Without(flight, i), t, rings[t])
    {
      assert Counted(flight, t, rings[t]);
    }
  }

  lemma AnswerKeepsBalanced(s: State, i: nat, status: Status, scheduled: bool)
    requires Balanced(s) && Enabled(s, Respond(i, status, scheduled))
    ensures Balanced(Answer(s, i, status, scheduled))
  {
    if Served(s.pool.rings, s.flight[i]) {
      AnswerKeepsBalance(s.pool.rings, s.flight, i, s.flight[i]);
    } else {
      LostAnswerKeepsBalance(s.pool.rings, s.flight, i);
    }
  }

  lemma AddIsCountedExactly(flight: seq<Request>, kind: ProcessorType, ring: Ring, p: Proc)
    requires ring == NoRing || Counted(flight, kind, ring)
    requires p.occupancy == 0
    ensures Counted(flight, kind, ring.Added(p))
       <==> InFlight(flight, kind, p.id) == 0 && forall q <- ring.procs :: q.id != p.id
  {
    var procs := ring.Added(p).procs;
    assert procs[|ring.procs|] == p;
    if q :| q in ring.procs && q.id == p.id {
      var i :| 0 <= i < |ring.procs| && ring.procs[i] == q;
      assert procs[i] == q;
    }
    if forall q <- ring.procs :: q.id != p.id {
      assert forall i :: 0 <= i < |ring.procs| ==> procs[i] == ring.procs[i] && ring.procs[i] in ring.procs;
    }
  }

  lemma RegisterBalancesExactly(s: State, kind: ProcessorType, conn: ConnId, max: nat)
    requires Balanced(s) && Enabled(s, Register(kind, conn, max))
    ensures Balanced(NextState(s, Register(kind, conn, max))) <==> Fresh(s, kind, conn)
  {
    var ring := if kind in s.pool.rings then s.pool.rings[kind] else NoRing;
    var rings' := s.pool.Registered(kind, Proc(conn, max, 0)).rings;
    AddIsCountedExactly(s.flight, kind, ring, Proc(conn, max, 0));
    assert rings'[kind] == ring.Added(Proc(conn, max, 0));
    assert forall t <- rings' :: t != kind ==> rings'[t] == s.pool.rings[t] && Counted(s.flight, t, rings'[t]);
  }

  lemma RemovedIsCounted(flight: seq<Request>, kind: ProcessorType, ring: Ring, k: nat)
    requires Counted(flight, kind, ring) && k < |ring.procs|
    ensures Counted(flight, kind, ring.Removed(k))
  {
  }

  lemma {:induction false} UnregisterKeepsBalance(rings: map<ProcessorType, Ring>, types: seq<ProcessorType>,
                                                  conn: ConnId, flight: seq<Request>)
    requires Balances(rings, flight)
    ensures Balances(Unregistered(rings, types, conn).0, flight)
    decreases |types|
  {
    if types != [] {
      var t := types[0];
      if t !in rings {
        UnregisterKeepsBalance(rings, types[1..], conn, flight);
      } else if IndexOf(rings[t].procs, conn).Some? {
        var k := IndexOf(rings[t].procs, conn).value;
        RemovedIsCounted(flight, t, rings[t], k);
        UnregisterKeepsBalance(Dropping(rings, t, k), types[1..], conn, flight);
      }
    }
  }

  /** Removing a connection, busy or not, keeps the rest balanced. */
  lemma UnregisterKeepsBalanced(s: State, conn: ConnId)
    requires Balanced(s) && Enabled(s, Unregister(conn))
    ensures Balanced(NextState(s, Unregister(conn)))
  {
    if conn in s.pool.identities {
      UnregisterKeepsBalance(s.pool.rings, s.pool.identities[conn], conn, s.flight);
    }
  }

  /** A step keeps everything balanced unless it registers a connection that is not fresh. */
  lemma StepBalancesExactly(s: State, e: Event)
    requires Balanced(s) && Enabled(s, e)
    ensures Balanced(NextState(s, e)) <==> (e.Register? ==> Fresh(s, e.kind, e.conn))
  {
    match e
    case Register(kind, conn, max) => RegisterBalancesExactly(s, kind, conn, max);
    case Unregister(conn) => UnregisterKeepsBalanced(s, conn);
    case Take(txn, kind, accepted) =>
    case Park(i) =>
    case Dispatch(i) => SendKeepsBalanced(s, i);
    case Lose(i) =>
    case Cancel(i) =>
    case Respond(i, status, scheduled) => AnswerKeepsBalanced(s, i, status, scheduled);
  }

  ghost predicate AlwaysBalanced(s: State, events: seq<Event>)
    requires IsRun(s, events)
    decreases |events|
  {
    Balanced(s) && (events != [] ==> AlwaysBalanced(NextState(s, events[0]), events[1..]))
  }

  ghost predicate RegistersFresh(s: State, events: seq<Event>)
    requires IsRun(s, events)
    decreases |events|
  {
    events != [] ==>
      && (events[0].Register? ==> Fresh(s, events[0].kind, events[0].conn))
      && RegistersFresh(NextState(s, events[0]), events[1..])
  }

  lemma {:induction false} RunBalancesExactly(s: State, events: seq<Event>)
    requires IsRun(s, events) && Balanced(s)
    ensures AlwaysBalanced(s, events) <==> RegistersFresh(s, events)
    decreases |events|
  {
    if events != [] {
      StepBalancesExactly(s, events[0]);
      if Balanced(NextState(s, events[0])) {
        RunBalancesExactly(NextState(s, events[0]), events[1..]);
      }
    }
  }

  /**
   * Throughout a run from the start, each processor's occupancy is the number of
   * its requests in flight, between zero and its maximum, if and only if no
   * connection registers for a type while it has a processor or a request of it.
   */
  lemma OccupancyIsConservedExactly(events: seq<Event>)
    requires IsRun(Start, events)
    ensures AlwaysBalanced(Start, events) <==> RegistersFresh(Start, events)
  {
    RunBalancesExactly(Start, events);
  }

  // Which responses find their processor

  ghost predicate AllServed(s: State) {
    forall r <- s.flight :: Served(s.pool.rings, r)
  }

  /** The types a removal takes the connection out of before it ends or fails. */
  function TakenOut(rings: map<ProcessorType, Ring>, types: seq<ProcessorType>, conn: ConnId): set<ProcessorType>
    decreases |types|
  {
    if types == [] then {}
    else
      var t := types[0];
      if t !in rings then TakenOut(rings, types[1..], conn)
      else
        var k := IndexOf(rings[t].procs, conn);
        if k.None? then {}
        else {t} + TakenOut(Dropping(rings, t, k.value), types[1..], conn)
  }

  /** No request in flight is to a processor that the removal takes out. */
  ghost predicate Harmless(s: State, conn: ConnId) {
    conn in s.pool.identities ==>
      forall r <- s.flight :: r.conn == conn ==> r.kind !in TakenOut(s.pool.rings, s.pool.identities[conn], conn)
  }

  lemma RemovedServesExactly(ring: Ring, k: nat, conn: ConnId, other: ConnId)
    requires ring.Fits() && DistinctIds(ring.procs) && k < |ring.procs| && ring.procs[k].id == conn
    ensures IndexOf(ring.Removed(k).procs, other).Some? <==> IndexOf(ring.procs, other).Some? && other != conn
    ensures DistinctIds(ring.Removed(k).procs)
  {
    var procs := ring.Removed(k).procs;
    if IndexOf(ring.procs, other).Some? && other != conn {
      var i := IndexOf(ring.procs, other).value;
      assert procs[if i < k then i else i - 1].id == other;
    }
  }

  lemma {:induction false} UnregisterServesExactly(rings: map<ProcessorType, Ring>, types: seq<ProcessorType>,
                                                   conn: ConnId, r: Request)
    requires forall t <- rings :: rings[t].Fits() && DistinctIds(rings[t].procs)
    ensures Served(Unregistered(rings, types, conn).0, r)
       <==> Served(rings, r) && !(r.conn == conn && r.kind in TakenOut(rings, types, conn))
    decreases |types|
  {
    if types != [] {
      var t := types[0];
      if t !in rings {
        UnregisterServesExactly(rings, types[1..], conn, r);
      } else if IndexOf(rings[t].procs, conn).Some? {
        var k := IndexOf(rings[t].procs, conn).value;
        var rings' := Dropping(rings, t, k);
        RemovedServesExactly(rings[t], k, conn, r.conn);
        UnregisterServesExactly(rings', types[1..], conn, r);
        assert Served(rings', r) <==> Served(rings, r) && !(r.conn == conn && r.kind == t);
      }
    }
  }

  lemma SameIdsServe(rings: map<ProcessorType, Ring>, kind: ProcessorType, ring: Ring, r: Request)
    requires kind in rings && Ids(ring.procs) == Ids(rings[kind].procs)
    ensures Served(rings[kind := ring], r) <==> Served(rings, r)
  {
    CopiesOf(ring.procs, r.conn);
    CopiesOf(rings[kind].procs, r.conn);
  }

  lemma AddServes(pool: Pool, kind: ProcessorType, p: Proc, r: Request)
    requires Served(pool.rings, r)
    ensures Served(pool.Registered(kind, p).rings, r)
  {
    var k := IndexOf(pool.rings[r.kind].procs, r.conn).value;
    if r.kind == kind {
      assert pool.Registered(kind, p).rings[kind].procs[k].id == r.conn;
    }
  }

  lemma SendServes(s: State, i: nat)
    requires AllServed(s) && Enabled(s, Dispatch(i))
    ensures AllServed(Send(s, i))
  {
    var ring := RingFor(s.pool, s.waiting[i]);
    var k := ring.Chosen().value;
    var ring', s' := ring.Advanced().Adjusted(k, 1), Send(s, i);
    forall r | r in s'.flight
      ensures Served(s'.pool.rings, r)
    {
      assert Ids(ring'.procs) == Ids(ring.procs);
      SameIdsServe(s.pool.rings, s.waiting[i].kind, ring', r);
      if r !in s.flight {
        assert ring.procs[k].id == r.conn;
      }
    }
  }

  lemma AnswerServes(s: State, i: nat, status: Status, scheduled: bool)
    requires AllServed(s) && Enabled(s, Respond(i, status, scheduled))
    ensures AllServed(Answer(s, i, status, scheduled))
  {
    var q, s' := s.flight[i], Answer(s, i, status, scheduled);
    var ring := s.pool.rings[q.kind];
    var ring' := ring.Adjusted(IndexOf(ring.procs, q.conn).value, -1);
    forall r | r in s'.flight
      ensures Served(s'.pool.rings, r)
    {
      assert Ids(ring'.procs) == Ids(ring.procs);
      SameIdsServe(s.pool.rings, q.kind, ring', r);
      assert r in s.flight;
    }
  }

  /** While balanced, all requests in flight keep their processors exactly when no removal takes one of them out. */
  lemma StepServesExactly(s: State, e: Event)
    requires Balanced(s) && AllServed(s) && Enabled(s, e)
    ensures AllServed(NextState(s, e)) <==> (e.Unregister? ==> Harmless(s, e.conn))
  {
    match e
    case Register(kind, conn, max) =>
      forall r | r in s.flight
        ensures Served(NextState(s, e).pool.rings, r)
      {
        AddServes(s.pool, kind, Proc(conn, max, 0), r);
      }
    case Unregister(conn) =>
      if conn in s.pool.identities {
        forall r | r in s.flight
          ensures Served(NextState(s, e).pool.rings, r)
             <==> !(r.conn == conn && r.kind in TakenOut(s.pool.rings, s.pool.identities[conn], conn))
        {
          UnregisterServesExactly(s.pool.rings, s.pool.identities[conn], conn, r);
        }
      }
    case Take(txn, kind, accepted) =>
    case Park(i) =>
    case Dispatch(i) => SendServes(s, i);
    case Lose(i) =>
    case Cancel(i) =>
    case Respond(i, status, scheduled) => AnswerServes(s, i, status, scheduled);
  }

  ghost predicate AlwaysServed(s: State, events: seq<Event>)
    requires IsRun(s, events)
    decreases |events|
  {
    AllServed(s) && (events != [] ==> AlwaysServed(NextState(s, events[0]), events[1..]))
  }

  ghost predicate RemovesHarmlessly(s: State, events: seq<Event>)
    requires IsRun(s, events)
    decreases |events|
  {
    events != [] ==>
      && (events[0].Unregister? ==> Harmless(s, events[0].conn))
      && RemovesHarmlessly(NextState(s, events[0]), events[1..])
  }

  lemma {:induction false} RunServesExactly(s: State, events: seq<Event>)
    requires IsRun(s, events) && Balanced(s) && AllServed(s) && RegistersFresh(s, events)
    ensures AlwaysServed(s, events) <==> RemovesHarmlessly(s, events)
    decreases |events|
  {
    if events != [] {
      StepBalancesExactly(s, events[0]);
      StepServesExactly(s, events[0]);
      if AllServed(NextState(s, events[0])) {
        RunServesExactly(NextState(s, events[0]), events[1..]);
      }
    }
  }

  /**
   * Throughout a run from the start with fresh registrations, every response
   * would find its processor if and only if no removal takes out a processor
   * that has a request in flight.
   */
  lemma ResponsesAreServedExactly(events: seq<Event>)
    requires IsRun(Start, events) && RegistersFresh(Start, events)
    ensures AlwaysServed(Start, events) <==> RemovesHarmlessly(Start, events)
  {
    RunServesExactly(Start, events);
  }
}
