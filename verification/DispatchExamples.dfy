/** A run of the executor in which a waiting transaction passes over the processor whose turn it is. */
module DispatchExamples {
  import opened Options
  import opened ProcessorSpec
  import opened Executor
  import opened DispatchRuns
  import ExecutorExamples

  /** Two processors that take one request at a time. */
  function Pair(a: ConnId, b: ConnId, x: int, y: int, pos: nat): Ring {
    Ring([Proc(a, 1, x), Proc(b, 1, y)], pos)
  }

  function PairOf(kind: ProcessorType, a: ConnId, b: ConnId, ring: Ring): Pool {
    Pool(map[kind := ring], map[a := [kind], b := [kind]])
  }

  function New(txn: TxnId, kind: ProcessorType): seq<Waiting> {
    [Waiting(txn, kind, false, false)]
  }

  lemma PairChooses(ring: Ring, k: nat)
    requires |ring.procs| == 2 && ring.pos < 2 && k < 2 && ring.procs[k].HasVacancy()
    requires k == ring.pos || !ring.procs[ring.pos].HasVacancy()
    ensures ring.Chosen() == Some(k)
  {
    ChosenIsNearest(ring, k);
  }

  lemma PairIsFull(a: ConnId, b: ConnId)
    ensures Pair(a, b, 1, 1, 0).Chosen() == None
  {
    var ring := Pair(a, b, 1, 1, 0);
    assert !ring.procs[0].HasVacancy() && !ring.procs[1].HasVacancy();
  }

  lemma RegistersPair(kind: ProcessorType, a: ConnId, b: ConnId)
    requires a != b
    ensures ExecutorExamples.OneProcessor(kind, a, 0).Registered(kind, Proc(b, 1, 0))
         == PairOf(kind, a, b, Pair(a, b, 0, 0, 0))
  {
    var none: seq<ProcessorType> := [];
    assert none + [kind] == [kind];
    assert [Proc(a, 1, 0)] + [Proc(b, 1, 0)] == [Proc(a, 1, 0), Proc(b, 1, 0)];
  }

  /** Sends the one waiting transaction, which has not waited for a vacancy. */
  lemma SendsTo(s: State, kind: ProcessorType, txn: TxnId, ring: Ring, k: nat, ring': Ring)
    requires s.pool.rings == map[kind := ring] && ring.Fits() && ring.Chosen() == Some(k) && s.waiting == New(txn, kind)
    requires ring' == ring.Advanced().Adjusted(k, 1)
    ensures Enabled(s, Dispatch(0))
    ensures NextState(s, Dispatch(0)) ==
      s.(pool := s.pool.(rings := map[kind := ring']), waiting := [],
         flight := s.flight + [Request(txn, kind, ring.procs[k].id)])
  {
    assert Without(s.waiting, 0) == [];
    assert s.pool.With(kind, ring').rings == map[kind := ring'];
  }

  lemma Answers(s: State, kind: ProcessorType, txn: TxnId, conn: ConnId, rest: seq<Request>, ring: Ring, k: nat)
    requires s.pool.rings == map[kind := ring] && ring.Fits() && s.flight == [Request(txn, kind, conn)] + rest
    requires IndexOf(ring.procs, conn) == Some(k)
    ensures Enabled(s, Respond(0, Valid, true))
    ensures NextState(s, Respond(0, Valid, true)) ==
      s.(pool := s.pool.(rings := map[kind := ring.Adjusted(k, -1)]), flight := rest,
         reports := s.reports + [(txn, true)])
  {
    assert Without(s.flight, 0) == rest;
    assert s.pool.With(kind, ring.Adjusted(k, -1)).rings == map[kind := ring.Adjusted(k, -1)];
  }

  // Two transactions fill the processors, a third one waits, and both processors answer

  function FillingRun(kind: ProcessorType, a: ConnId, b: ConnId, t: seq<TxnId>): seq<Event>
    requires |t| == 3
  {
    [Register(kind, a, 1), Register(kind, b, 1), Take(t[0], kind, true), Dispatch(0), Take(t[1], kind, true),
     Dispatch(0)]
  }

  function WaitingRun(kind: ProcessorType, t: seq<TxnId>): seq<Event>
    requires |t| == 3
  {
    [Take(t[2], kind, true), Park(0), Respond(0, Valid, true), Respond(0, Valid, true)]
  }

  function Filled(kind: ProcessorType, a: ConnId, b: ConnId, t: seq<TxnId>): State
    requires |t| == 3
  {
    State(PairOf(kind, a, b, Pair(a, b, 1, 1, 0)), {t[0], t[1]}, [],
          [Request(t[0], kind, a), Request(t[1], kind, b)], [], [], false)
  }

  function Freed(kind: ProcessorType, a: ConnId, b: ConnId, t: seq<TxnId>): State
    requires |t| == 3
  {
    State(PairOf(kind, a, b, Pair(a, b, 0, 0, 0)), {t[0], t[1], t[2]}, [Waiting(t[2], kind, false, true)],
          [], [], [(t[0], true), (t[1], true)], false)
  }

  /** Takes a transaction and sends it. */
  lemma TakesAndSends(s: State, kind: ProcessorType, a: ConnId, b: ConnId, txn: TxnId, ring: Ring, k: nat, ring': Ring,
                      s1: State, s2: State)
    requires s.pool == PairOf(kind, a, b, ring) && txn !in s.taken && s.waiting == [] && !s.halted
    requires ring.Fits() && ring.Chosen() == Some(k) && ring' == ring.Advanced().Adjusted(k, 1)
    requires s1 == s.(taken := s.taken + {txn}, waiting := New(txn, kind))
    requires s2 == s.(pool := PairOf(kind, a, b, ring'), taken := s.taken + {txn},
                      flight := s.flight + [Request(txn, kind, ring.procs[k].id)])
    ensures Enabled(s, Take(txn, kind, true)) && NextState(s, Take(txn, kind, true)) == s1
    ensures Enabled(s1, Dispatch(0)) && NextState(s1, Dispatch(0)) == s2
  {
    assert s.waiting + New(txn, kind) == New(txn, kind);
    SendsTo(s1, kind, txn, ring, k, ring');
  }

  lemma Fills(kind: ProcessorType, a: ConnId, b: ConnId, t: seq<TxnId>)
    requires a != b && |t| == 3 && t[0] != t[1]
    ensures Executor.IsRun(Start, FillingRun(kind, a, b, t))
    ensures Executor.After(Start, FillingRun(kind, a, b, t)) == Filled(kind, a, b, t)
  {
    var idle, one, both := Pair(a, b, 0, 0, 0), Pair(a, b, 1, 0, 1), Pair(a, b, 1, 1, 0);
    var s1 := State(ExecutorExamples.OneProcessor(kind, a, 0), {}, [], [], [], [], false);
    var s2 := State(PairOf(kind, a, b, idle), {}, [], [], [], [], false);
    var s3 := s2.(taken := {t[0]}, waiting := New(t[0], kind));
    var s4 := State(PairOf(kind, a, b, one), {t[0]}, [], [Request(t[0], kind, a)], [], [], false);
    var s5 := s4.(taken := {t[0], t[1]}, waiting := New(t[1], kind));
    ExecutorExamples.RegistersOnly(kind, a);
    RegistersPair(kind, a, b);
    PairChooses(idle, 0);
    TakesAndSends(s2, kind, a, b, t[0], idle, 0, one, s3, s4);
    PairChooses(one, 1);
    TakesAndSends(s4, kind, a, b, t[1], one, 1, both, s5, Filled(kind, a, b, t));
    ExecutorExamples.Traces(FillingRun(kind, a, b, t), [Start, s1, s2, s3, s4, s5, Filled(kind, a, b, t)]);
  }

  lemma PairIndexes(ring: Ring, a: ConnId, b: ConnId)
    requires a != b && |ring.procs| == 2 && ring.procs[0].id == a && ring.procs[1].id == b
    ensures IndexOf(ring.procs, a) == Some(0) && IndexOf(ring.procs, b) == Some(1)
  {
  }

  lemma TakesAndParks(s: State, kind: ProcessorType, a: ConnId, b: ConnId, txn: TxnId, s1: State, s2: State)
    requires s.pool == PairOf(kind, a, b, Pair(a, b, 1, 1, 0)) && txn !in s.taken && s.waiting == [] && !s.halted
    requires s1 == s.(taken := s.taken + {txn}, waiting := New(txn, kind))
    requires s2 == s1.(waiting := [Waiting(txn, kind, false, true)])
    ensures Enabled(s, Take(txn, kind, true)) && NextState(s, Take(txn, kind, true)) == s1
    ensures Enabled(s1, Park(0)) && NextState(s1, Park(0)) == s2
  {
    PairIsFull(a, b);
    assert s.waiting + New(txn, kind) == New(txn, kind);
  }

  lemma AnswersBoth(s: State, kind: ProcessorType, a: ConnId, b: ConnId, t: seq<TxnId>, s1: State, s2: State)
    requires a != b && |t| == 3 && s.pool == PairOf(kind, a, b, Pair(a, b, 1, 1, 0)) && s.reports == []
    requires s.flight == [Request(t[0], kind, a), Request(t[1], kind, b)]
    requires s1 == s.(pool := PairOf(kind, a, b, Pair(a, b, 0, 1, 0)), flight := [Request(t[1], kind, b)],
                      reports := [(t[0], true)])
    requires s2 == s.(pool := PairOf(kind, a, b, Pair(a, b, 0, 0, 0)), flight := [],
                      reports := [(t[0], true), (t[1], true)])
    ensures Enabled(s, Respond(0, Valid, true)) && NextState(s, Respond(0, Valid, true)) == s1
    ensures Enabled(s1, Respond(0, Valid, true)) && NextState(s1, Respond(0, Valid, true)) == s2
  {
    var full, half := Pair(a, b, 1, 1, 0), Pair(a, b, 0, 1, 0);
    PairIndexes(full, a, b);
    Answers(s, kind, t[0], a, [Request(t[1], kind, b)], full, 0);
    assert full.Adjusted(0, -1) == half && half.Adjusted(1, -1) == Pair(a, b, 0, 0, 0);
    PairIndexes(half, a, b);
    assert s1.flight == [Request(t[1], kind, b)] + [];
    Answers(s1, kind, t[1], b, [], half, 1);
  }

  lemma Frees(kind: ProcessorType, a: ConnId, b: ConnId, t: seq<TxnId>)
    requires a != b && |t| == 3 && t[2] != t[0] && t[2] != t[1]
    ensures Executor.IsRun(Filled(kind, a, b, t), WaitingRun(kind, t))
    ensures Executor.After(Filled(kind, a, b, t), WaitingRun(kind, t)) == Freed(kind, a, b, t)
  {
    var s6 := Filled(kind, a, b, t);
    var s7 := s6.(taken := s6.taken + {t[2]}, waiting := New(t[2], kind));
    var s8 := s7.(waiting := [Waiting(t[2], kind, false, true)]);
    var s9 := s8.(pool := PairOf(kind, a, b, Pair(a, b, 0, 1, 0)), flight := [Request(t[1], kind, b)],
                  reports := [(t[0], true)]);
    TakesAndParks(s6, kind, a, b, t[2], s7, s8);
    AnswersBoth(s8, kind, a, b, t, s9, Freed(kind, a, b, t));
    ExecutorExamples.Traces(WaitingRun(kind, t), [s6, s7, s8, s9, Freed(kind, a, b, t)]);
  }

  /**
   * The second processor was sent the last transaction, both are idle and it is the
   * first one's turn; yet the transaction that waited is sent to the second again.
   */
  lemma WaitingPassesOver(kind: ProcessorType, a: ConnId, b: ConnId, t: seq<TxnId>)
    requires a != b && |t| == 3 && t[0] != t[1] && t[2] != t[0] && t[2] != t[1]
    ensures Executor.IsRun(Start, FillingRun(kind, a, b, t))
    ensures var filled := Executor.After(Start, FillingRun(kind, a, b, t));
      && filled.flight == [Request(t[0], kind, a), Request(t[1], kind, b)]
      && Executor.IsRun(filled, WaitingRun(kind, t))
      && var s := Executor.After(filled, WaitingRun(kind, t));
         && Enabled(s, Dispatch(0)) && s.flight == [] && s.pool.rings == map[kind := Pair(a, b, 0, 0, 0)]
         && s.pool.rings[kind].Chosen() == Some(0) && SentTo(s, 0) == b
  {
    Fills(kind, a, b, t);
    Frees(kind, a, b, t);
    PairChooses(Pair(a, b, 0, 0, 0), 0);
    PairChooses(Pair(a, b, 0, 0, 1), 1);
    assert Pair(a, b, 0, 0, 0).Advanced() == Pair(a, b, 0, 0, 1);
    DispatchInTurnExactly(Freed(kind, a, b, t), 0);
  }
}
