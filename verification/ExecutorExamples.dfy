/** Runs of the executor in which its promises fail. */
module ExecutorExamples {
  import opened Options
  import opened ProcessorSpec
  import opened Executor

  /** One processor that takes one request at a time. */
  function OneProcessor(kind: ProcessorType, conn: ConnId, occupancy: int): Pool {
    Pool(map[kind := Ring([Proc(conn, 1, occupancy)], 0)], map[conn := [kind]])
  }

  function Gone(kind: ProcessorType, conn: ConnId): Pool {
    Pool(map[], map[conn := [kind]])
  }

  function Sent(pool: Pool, txn: TxnId, kind: ProcessorType, conn: ConnId): State {
    State(pool, {txn}, [], [Request(txn, kind, conn)], [], [], false)
  }

  lemma {:induction false} Traces(events: seq<Event>, states: seq<State>)
    requires |states| == |events| + 1
    requires forall i :: 0 <= i < |events| ==> Enabled(states[i], events[i])
    requires forall i :: 0 <= i < |events| ==> NextState(states[i], events[i]) == states[i + 1]
    ensures IsRun(states[0], events) && After(states[0], events) == states[|events|]
    decreases |events|
  {
    if events != [] {
      Traces(events[1..], states[1..]);
    }
  }

  lemma ChoosesOnly(conn: ConnId, occupancy: int)
    ensures var ring := Ring([Proc(conn, 1, occupancy)], 0);
      ring.Chosen() == if occupancy < 1 then Some(0) else None
  {
    var ring := Ring([Proc(conn, 1, occupancy)], 0);
    assert ring.Chosen().None? <==> !ring.procs[0].HasVacancy();
  }

  lemma SendsOnly(txn: TxnId, kind: ProcessorType, conn: ConnId)
    ensures var s := State(OneProcessor(kind, conn, 0), {txn}, [Waiting(txn, kind, false, false)], [], [], [], false);
      Enabled(s, Dispatch(0)) && NextState(s, Dispatch(0)) == Sent(OneProcessor(kind, conn, 1), txn, kind, conn)
  {
    ChoosesOnly(conn, 0);
    var ring := Ring([Proc(conn, 1, 0)], 0);
    assert ring.Advanced() == ring && ring.Adjusted(0, 1) == Ring([Proc(conn, 1, 1)], 0);
    assert OneProcessor(kind, conn, 0).With(kind, ring.Adjusted(0, 1)) == OneProcessor(kind, conn, 1);
    assert Without([Waiting(txn, kind, false, false)], 0) == [];
  }

  lemma RemovesOnly(kind: ProcessorType, conn: ConnId, occupancy: int)
    ensures OneProcessor(kind, conn, occupancy).Without(conn) == (map[], true)
  {
    var pool := OneProcessor(kind, conn, occupancy);
    var none: map<ProcessorType, Ring> := map[];
    assert pool.rings[kind].Removed(0).procs == [];
    assert pool.rings - {kind} == none && [kind][1..] == [];
    assert Unregistered(none, [], conn) == (none, true);
    assert IndexOf(pool.rings[kind].procs, conn) == Some(0);
  }

  lemma RegistersOnly(kind: ProcessorType, conn: ConnId)
    ensures Pool(map[], map[]).Registered(kind, Proc(conn, 1, 0)) == OneProcessor(kind, conn, 0)
  {
    var procs: seq<Proc>, kinds: seq<ProcessorType> := [], [];
    assert procs + [Proc(conn, 1, 0)] == [Proc(conn, 1, 0)] && kinds + [kind] == [kind];
  }

  lemma RegistersAgain(kind: ProcessorType, conn: ConnId)
    ensures Gone(kind, conn).Registered(kind, Proc(conn, 1, 0))
         == Pool(map[kind := Ring([Proc(conn, 1, 0)], 0)], map[conn := [kind, kind]])
  {
    var procs: seq<Proc> := [];
    assert procs + [Proc(conn, 1, 0)] == [Proc(conn, 1, 0)] && [kind] + [kind] == [kind, kind];
  }

  function SendingRun(txn: TxnId, kind: ProcessorType, conn: ConnId): seq<Event> {
    [Register(kind, conn, 1), Take(txn, kind, true), Dispatch(0)]
  }

  function Steps(txn: TxnId, kind: ProcessorType, conn: ConnId): seq<State> {
    var pool := OneProcessor(kind, conn, 0);
    [Start, State(pool, {}, [], [], [], [], false),
     State(pool, {txn}, [Waiting(txn, kind, false, false)], [], [], [], false),
     Sent(OneProcessor(kind, conn, 1), txn, kind, conn),
     Sent(Gone(kind, conn), txn, kind, conn)]
  }

  lemma SendingSteps(txn: TxnId, kind: ProcessorType, conn: ConnId)
    ensures var events, steps := SendingRun(txn, kind, conn) + [Unregister(conn)], Steps(txn, kind, conn);
      forall i :: 0 <= i < 4 ==> Enabled(steps[i], events[i]) && NextState(steps[i], events[i]) == steps[i + 1]
  {
    var steps := Steps(txn, kind, conn);
    RegistersOnly(kind, conn);
    assert NextState(steps[0], Register(kind, conn, 1)) == steps[1];
    SendsOnly(txn, kind, conn);
    RemovesOnly(kind, conn, 1);
  }

  /** A processor that unregisters before it answers: its valid answer is dropped. */
  function BusyRun(txn: TxnId, kind: ProcessorType, conn: ConnId): seq<Event> {
    SendingRun(txn, kind, conn) + [Unregister(conn)] + [Respond(0, Valid, true)]
  }

  lemma BusyRemovalLosesAnswer(txn: TxnId, kind: ProcessorType, conn: ConnId)
    ensures var events := BusyRun(txn, kind, conn);
      && IsRun(Start, events) && RegistersFresh(Start, events)
      && After(Start, events).reports == [] && After(Start, events).dropped == [txn]
  {
    var events, steps := BusyRun(txn, kind, conn), Steps(txn, kind, conn);
    var last := State(Gone(kind, conn), {txn}, [], [], [txn], [], false);
    SendingSteps(txn, kind, conn);
    assert Without([Request(txn, kind, conn)], 0) == [];
    assert NextState(steps[4], Respond(0, Valid, true)) == last;
    Traces(events, steps + [last]);
    RegistersOnce(Start, events);
  }

  lemma {:induction false} RegistersOnce(s: State, events: seq<Event>)
    requires IsRun(s, events) && s.pool.rings == map[] && s.flight == []
    requires events != [] && forall e <- events[1..] :: !e.Register?
    ensures RegistersFresh(s, events)
  {
    NoTargets(s);
    RegistersNever(NextState(s, events[0]), events[1..]);
  }

  lemma NoTargets(s: State)
    requires s.flight == []
    ensures forall kind, conn :: InFlight(s.flight, kind, conn) == 0
  {
    assert Targets(s.flight) == [];
  }

  lemma {:induction false} RegistersNever(s: State, events: seq<Event>)
    requires IsRun(s, events) && forall e <- events :: !e.Register?
    ensures RegistersFresh(s, events)
    decreases |events|
  {
    if events != [] {
      RegistersNever(NextState(s, events[0]), events[1..]);
    }
  }

  /** A processor that leaves and registers again before the old answer arrives. */
  function ReturningRun(txn: TxnId, kind: ProcessorType, conn: ConnId): seq<Event> {
    SendingRun(txn, kind, conn) + [Unregister(conn)] + [Register(kind, conn, 1), Respond(0, Valid, true)]
  }

  lemma AnsweredOnReturn(txn: TxnId, kind: ProcessorType, conn: ConnId, back: Pool, free: Pool)
    requires back == Pool(map[kind := Ring([Proc(conn, 1, 0)], 0)], map[conn := [kind, kind]])
    requires free == Pool(map[kind := Ring([Proc(conn, 1, -1)], 0)], map[conn := [kind, kind]])
    ensures NextState(Sent(back, txn, kind, conn), Respond(0, Valid, true))
         == State(free, {txn}, [], [], [], [(txn, true)], false)
  {
    assert Without([Request(txn, kind, conn)], 0) == [];
    assert IndexOf(back.rings[kind].procs, conn) == Some(0);
    assert free.rings[kind] == back.rings[kind].Adjusted(0, -1);
    assert back.With(kind, free.rings[kind]) == free;
  }

  /** The answer is counted against the new processor, whose occupancy falls below zero. */
  lemma ReturnBreaksOccupancy(txn: TxnId, kind: ProcessorType, conn: ConnId)
    ensures var events := ReturningRun(txn, kind, conn);
      && IsRun(Start, events) && !RegistersFresh(Start, events)
      && After(Start, events).pool.rings == map[kind := Ring([Proc(conn, 1, -1)], 0)]
  {
    var events, steps := ReturningRun(txn, kind, conn), Steps(txn, kind, conn);
    var back := Pool(map[kind := Ring([Proc(conn, 1, 0)], 0)], map[conn := [kind, kind]]);
    var free := Pool(map[kind := Ring([Proc(conn, 1, -1)], 0)], map[conn := [kind, kind]]);
    var s5, s6 := Sent(back, txn, kind, conn), State(free, {txn}, [], [], [], [(txn, true)], false);
    SendingSteps(txn, kind, conn);
    RegistersAgain(kind, conn);
    assert NextState(steps[4], Register(kind, conn, 1)) == s5;
    AnsweredOnReturn(txn, kind, conn, back, free);
    Traces(events, steps + [s5, s6]);
    var p := free.rings[kind].procs[0];
    assert p in free.rings[kind].procs && !Balanced(s6);
    EndsUnbalanced(Start, events);
    OccupancyIsConservedExactly(events);
  }

  lemma {:induction false} EndsUnbalanced(s: State, events: seq<Event>)
    requires IsRun(s, events) && !Balanced(After(s, events))
    ensures !AlwaysBalanced(s, events)
    decreases |events|
  {
    if events != [] {
      EndsUnbalanced(NextState(s, events[0]), events[1..]);
    }
  }

  /** The only processor leaves while a second transaction waits for it to have vacancy. */
  function LeavingRun(txn: TxnId, other: TxnId, kind: ProcessorType, conn: ConnId): seq<Event> {
    SendingRun(txn, kind, conn) + [Take(other, kind, true), Park(0), Unregister(conn), Lose(0)]
  }

  /** The waiting transaction is dropped, and the scheduling thread with it. */
  lemma LeavingHaltsExecutor(txn: TxnId, other: TxnId, kind: ProcessorType, conn: ConnId)
    requires txn != other
    ensures var events := LeavingRun(txn, other, kind, conn);
      && IsRun(Start, events)
      && After(Start, events).halted && After(Start, events).dropped == [other]
  {
    var events, steps := LeavingRun(txn, other, kind, conn), Steps(txn, kind, conn);
    var w := Waiting(other, kind, false, false);
    var s4 := steps[3].(taken := {txn, other}, waiting := [w]);
    var s5 := s4.(waiting := [w.(forVacancy := true)]);
    var s6 := s5.(pool := Gone(kind, conn));
    var s7 := s6.(waiting := [], dropped := [other], halted := true);
    SendingSteps(txn, kind, conn);
    ChoosesOnly(conn, 1);
    RemovesOnly(kind, conn, 1);
    assert NextState(steps[3], Take(other, kind, true)) == s4;
    assert NextState(s4, Park(0)) == s5;
    assert NextState(s5, Unregister(conn)) == s6;
    assert Without([w.(forVacancy := true)], 0) == [];
    assert NextState(s6, Lose(0)) == s7;
    Traces(events, steps[..4] + [s4, s5, s6, s7]);
  }
}
