/** What becomes of every transaction the executor takes. */
module ExecutorRuns {
  import opened Options
  import opened ProcessorSpec
  import opened Executor

  // Every transaction is in one place

  /** The transactions a list of things names. */
  function Named<T>(things: seq<T>, txnOf: T -> TxnId): (txns: seq<TxnId>)
    ensures |txns| == |things| && forall i :: 0 <= i < |txns| ==> txns[i] == txnOf(things[i])
  {
    seq(|things|, i requires 0 <= i < |things| => txnOf(things[i]))
  }

  function WaitingTxns(waiting: seq<Waiting>): (txns: seq<TxnId>) {
    Named(waiting, (w: Waiting) => w.txn)
  }

  function SentTxns(flight: seq<Request>): (txns: seq<TxnId>) {
    Named(flight, (r: Request) => r.txn)
  }

  function ReportedTxns(reports: seq<(TxnId, bool)>): (txns: seq<TxnId>) {
    Named(reports, (report: (TxnId, bool)) => report.0)
  }

  /** Where transactions are, each as often as it is there. */
  function Places(s: State): multiset<TxnId> {
    multiset(WaitingTxns(s.waiting)) + multiset(SentTxns(s.flight))
    + multiset(s.dropped) + multiset(ReportedTxns(s.reports))
  }

  /** Every transaction taken is waiting, sent, dropped or reported: exactly one of these, once. */
  ghost predicate Accounted(s: State) {
    Places(s) == multiset(s.taken)
  }

  lemma OneMore<T>(things: seq<T>, txnOf: T -> TxnId, x: T)
    ensures multiset(Named(things + [x], txnOf)) == multiset(Named(things, txnOf)) + multiset{txnOf(x)}
  {
    assert Named(things + [x], txnOf) == Named(things, txnOf) + [txnOf(x)];
  }

  lemma OneLess<T>(things: seq<T>, txnOf: T -> TxnId, i: nat)
    requires i < |things|
    ensures multiset(Named(things, txnOf)) == multiset(Named(Without(things, i), txnOf)) + multiset{txnOf(things[i])}
  {
    assert Named(Without(things, i), txnOf) == Without(Named(things, txnOf), i);
    WithoutElements(Named(things, txnOf), i);
    assert Named(things, txnOf)[i] in Named(things, txnOf);
  }

  lemma WaitMore(waiting: seq<Waiting>, w: Waiting)
    ensures multiset(WaitingTxns(waiting + [w])) == multiset(WaitingTxns(waiting)) + multiset{w.txn}
  {
    OneMore(waiting, (x: Waiting) => x.txn, w);
  }

  lemma WaitLess(waiting: seq<Waiting>, i: nat)
    requires i < |waiting|
    ensures multiset(WaitingTxns(waiting)) == multiset(WaitingTxns(Without(waiting, i))) + multiset{waiting[i].txn}
  {
    OneLess(waiting, (x: Waiting) => x.txn, i);
  }

  lemma SendMore(flight: seq<Request>, r: Request)
    ensures multiset(SentTxns(flight + [r])) == multiset(SentTxns(flight)) + multiset{r.txn}
  {
    OneMore(flight, (x: Request) => x.txn, r);
  }

  lemma SendLess(flight: seq<Request>, i: nat)
    requires i < |flight|
    ensures multiset(SentTxns(flight)) == multiset(SentTxns(Without(flight, i))) + multiset{flight[i].txn}
  {
    OneLess(flight, (x: Request) => x.txn, i);
  }

  lemma ReportMore(reports: seq<(TxnId, bool)>, txn: TxnId, valid: bool)
    ensures multiset(ReportedTxns(reports + [(txn, valid)])) == multiset(ReportedTxns(reports)) + multiset{txn}
  {
    OneMore(reports, (report: (TxnId, bool)) => report.0, (txn, valid));
  }

  lemma HandledAddsPlace(s: State, r: Request, status: Status, scheduled: bool)
    requires s.pool.Fits() && Served(s.pool.rings, r)
    ensures Places(Handled(s, r, status, scheduled)) == Places(s) + multiset{r.txn}
  {
    match status
    case Valid => ReportMore(s.reports, r.txn, true);
    case Invalid => ReportMore(s.reports, r.txn, false);
    case InternalError => WaitMore(s.waiting, Waiting(r.txn, r.kind, true, false));
  }

  lemma AnswerKeepsPlaces(s: State, i: nat, status: Status, scheduled: bool)
    requires Enabled(s, Respond(i, status, scheduled))
    ensures Places(Answer(s, i, status, scheduled)) == Places(s)
  {
    var s' := s.(flight := Without(s.flight, i));
    SendLess(s.flight, i);
    assert Places(s) == Places(s') + multiset{s.flight[i].txn};
    if Served(s.pool.rings, s.flight[i]) {
      HandledAddsPlace(s', s.flight[i], status, scheduled);
    }
  }

  lemma SendKeepsPlaces(s: State, i: nat)
    requires Enabled(s, Dispatch(i))
    ensures Places(NextState(s, Dispatch(i))) == Places(s)
  {
    var s' := Send(s, i);
    WaitLess(s.waiting, i);
    SendMore(s.flight, s'.flight[|s.flight|]);
  }

  lemma TakeAddsPlace(s: State, txn: TxnId, kind: ProcessorType, accepted: bool)
    requires Enabled(s, Take(txn, kind, accepted))
    ensures Places(NextState(s, Take(txn, kind, accepted))) == Places(s) + multiset{txn}
    ensures multiset(s.taken + {txn}) == multiset(s.taken) + multiset{txn}
  {
    WaitMore(s.waiting, Waiting(txn, kind, false, false));
    ReportMore(s.reports, txn, false);
  }

  lemma GiveUpKeepsPlaces(s: State, i: nat)
    requires i < |s.waiting|
    ensures Places(GiveUp(s, i)) == Places(s)
  {
    WaitLess(s.waiting, i);
  }

  lemma ParkKeepsPlaces(s: State, i: nat)
    requires Enabled(s, Park(i))
    ensures Places(NextState(s, Park(i))) == Places(s)
  {
    assert WaitingTxns(NextState(s, Park(i)).waiting) == WaitingTxns(s.waiting);
  }

  lemma StepKeepsPlaces(s: State, e: Event)
    requires Enabled(s, e) && !e.Take?
    ensures Places(NextState(s, e)) == Places(s)
  {
    match e
    case Register(kind, conn, max) =>
    case Unregister(conn) =>
    case Park(i) => ParkKeepsPlaces(s, i);
    case Dispatch(i) => SendKeepsPlaces(s, i);
    case Lose(i) => GiveUpKeepsPlaces(s, i);
    case Cancel(i) => GiveUpKeepsPlaces(s, i);
    case Respond(i, status, scheduled) => AnswerKeepsPlaces(s, i, status, scheduled);
  }

  lemma StepTakes(s: State, e: Event)
    requires Enabled(s, e)
    ensures NextState(s, e).taken == if e.Take? then s.taken + {e.txn} else s.taken
  {
  }

  lemma StepKeepsAccounted(s: State, e: Event)
    requires Enabled(s, e) && Accounted(s)
    ensures Accounted(NextState(s, e))
  {
    StepTakes(s, e);
    if e.Take? {
      TakeAddsPlace(s, e.txn, e.kind, e.accepted);
    } else {
      StepKeepsPlaces(s, e);
    }
  }

  lemma {:induction false} RunKeepsAccounted(s: State, events: seq<Event>)
    requires IsRun(s, events) && Accounted(s)
    ensures Accounted(After(s, events))
    decreases |events|
  {
    if events != [] {
      StepKeepsAccounted(s, events[0]);
      RunKeepsAccounted(NextState(s, events[0]), events[1..]);
    }
  }

  /** In every run each transaction is reported at most once, and never while it waits, is sent or was dropped. */
  lemma AtMostOneResult(events: seq<Event>)
    requires IsRun(Start, events)
    ensures var s := After(Start, events);
      && Distinct(ReportedTxns(s.reports))
      && (forall report <- s.reports :: report.0 in s.taken && report.0 !in s.dropped
            && report.0 !in WaitingTxns(s.waiting) && report.0 !in SentTxns(s.flight))
  {
    var s := After(Start, events);
    RunKeepsAccounted(Start, events);
    OnceIsDistinct(ReportedTxns(s.reports), s.taken);
    forall report | report in s.reports
      ensures report.0 in ReportedTxns(s.reports)
    {
      var i :| 0 <= i < |s.reports| && s.reports[i] == report;
      assert ReportedTxns(s.reports)[i] == report.0;
    }
    OnceIsElsewhere(s, s.taken);
  }

  lemma Occurrences(txns: seq<TxnId>, i: nat, j: nat)
    requires i < j < |txns|
    ensures multiset(txns)[txns[j]] >= if txns[i] == txns[j] then 2 else 1
  {
    assert txns == txns[..j] + [txns[j]] + txns[j + 1..];
    assert txns[i] in txns[..j];
  }

  lemma OnceIsDistinct(txns: seq<TxnId>, taken: set<TxnId>)
    requires multiset(txns) <= multiset(taken)
    ensures Distinct(txns)
  {
    forall i, j | 0 <= i < j < |txns|
      ensures txns[i] != txns[j]
    {
      Occurrences(txns, i, j);
      assert multiset(taken)[txns[j]] <= 1;
    }
  }

  lemma OnceIsElsewhere(s: State, taken: set<TxnId>)
    requires Places(s) == multiset(taken)
    ensures forall txn <- ReportedTxns(s.reports) ::
      txn in taken && txn !in s.dropped && txn !in WaitingTxns(s.waiting) && txn !in SentTxns(s.flight)
  {
    forall txn | txn in ReportedTxns(s.reports)
      ensures txn in taken && txn !in s.dropped && txn !in WaitingTxns(s.waiting) && txn !in SentTxns(s.flight)
    {
      assert multiset(taken)[txn] <= 1;
      assert txn in multiset(ReportedTxns(s.reports));
      assert txn in s.dropped ==> txn in multiset(s.dropped);
      assert txn in WaitingTxns(s.waiting) ==> txn in multiset(WaitingTxns(s.waiting));
      assert txn in SentTxns(s.flight) ==> txn in multiset(SentTxns(s.flight));
    }
  }

  // What is reported and what is dropped

  /** What one step should report: a transaction failed at once, or an answer that finds its processor. */
  function Verdict(s: State, e: Event): seq<(TxnId, bool)>
    requires Enabled(s, e)
  {
    match e
    case Take(txn, _, accepted) => if accepted then [] else [(txn, false)]
    case Respond(i, status, _) =>
      if status != InternalError && Served(s.pool.rings, s.flight[i]) then [(s.flight[i].txn, status == Valid)] else []
    case _ => []
  }

  /**
   * What one step should drop: a wait that ends by an exception, an answer that
   * does not find its processor, or an internal error no longer scheduled.
   */
  function Loss(s: State, e: Event): seq<TxnId>
    requires Enabled(s, e)
  {
    match e
    case Lose(i) => [s.waiting[i].txn]
    case Cancel(i) => [s.waiting[i].txn]
    case Respond(i, status, scheduled) =>
      if !Served(s.pool.rings, s.flight[i]) || (status == InternalError && !scheduled) then [s.flight[i].txn] else []
    case _ => []
  }

  function Verdicts(s: State, events: seq<Event>): seq<(TxnId, bool)>
    requires IsRun(s, events)
    decreases |events|
  {
    if events == [] then [] else Verdict(s, events[0]) + Verdicts(NextState(s, events[0]), events[1..])
  }

  function Losses(s: State, events: seq<Event>): seq<TxnId>
    requires IsRun(s, events)
    decreases |events|
  {
    if events == [] then [] else Loss(s, events[0]) + Losses(NextState(s, events[0]), events[1..])
  }

  lemma StepReports(s: State, e: Event)
    requires Enabled(s, e)
    ensures NextState(s, e).reports == s.reports + Verdict(s, e)
    ensures NextState(s, e).dropped == s.dropped + Loss(s, e)
  {
  }

  lemma Grouped<T>(a: seq<T>, b: seq<T>, c: seq<T>)
    ensures (a + b) + c == a + (b + c)
  {
  }

  /** Every run reports exactly its verdicts and drops exactly its losses, in order. */
  lemma {:induction false} RunReportsExactly(s: State, events: seq<Event>)
    requires IsRun(s, events)
    ensures After(s, events).reports == s.reports + Verdicts(s, events)
    ensures After(s, events).dropped == s.dropped + Losses(s, events)
    decreases |events|
  {
    if events != [] {
      var s' := NextState(s, events[0]);
      StepReports(s, events[0]);
      RunReportsExactly(s', events[1..]);
      Grouped(s.reports, Verdict(s, events[0]), Verdicts(s', events[1..]));
      Grouped(s.dropped, Loss(s, events[0]), Losses(s', events[1..]));
    }
  }

  /** Every response of the run with a result, so no internal error, is among the reports. */
  ghost predicate AnswersIn(s: State, events: seq<Event>, reports: seq<(TxnId, bool)>)
    requires IsRun(s, events)
    decreases |events|
  {
    events != [] ==>
      && (events[0].Respond? && events[0].status != InternalError ==>
            (s.flight[events[0].i].txn, events[0].status == Valid) in reports)
      && AnswersIn(NextState(s, events[0]), events[1..], reports)
  }

  lemma VerdictIsReported(s: State, e: Event, rest: seq<(TxnId, bool)>)
    requires Enabled(s, e) && e.Respond? && e.status != InternalError && Served(s.pool.rings, s.flight[e.i])
    ensures (s.flight[e.i].txn, e.status == Valid) in NextState(s, e).reports + rest
  {
    StepReports(s, e);
    assert Verdict(s, e)[0] in NextState(s, e).reports;
  }

  lemma {:induction false} ServedAnswersIn(s: State, events: seq<Event>)
    requires IsRun(s, events) && AlwaysServed(s, events)
    ensures AnswersIn(s, events, After(s, events).reports)
    decreases |events|
  {
    if events != [] {
      var s' := NextState(s, events[0]);
      ServedAnswersIn(s', events[1..]);
      RunReportsExactly(s', events[1..]);
      if events[0].Respond? && events[0].status != InternalError {
        VerdictIsReported(s, events[0], Verdicts(s', events[1..]));
      }
    }
  }

  /**
   * With fresh registrations and harmless removals, every answer of the run but
   * an internal error is among its reports, valid if and only if the answer was.
   */
  lemma AnswersAreReported(events: seq<Event>)
    requires IsRun(Start, events) && RegistersFresh(Start, events) && RemovesHarmlessly(Start, events)
    ensures AnswersIn(Start, events, After(Start, events).reports)
  {
    ResponsesAreServedExactly(events);
    ServedAnswersIn(Start, events);
  }

  // Which transactions are retries, and when the scheduling thread ends

  /** The transactions answered by an internal error while scheduled, by a processor still registered. */
  function Retried(s: State, events: seq<Event>): set<TxnId>
    requires IsRun(s, events)
    decreases |events|
  {
    if events == [] then {}
    else
      var e, rest := events[0], Retried(NextState(s, events[0]), events[1..]);
      if e.Respond? && e.status == InternalError && e.scheduled && Served(s.pool.rings, s.flight[e.i])
      then {s.flight[e.i].txn} + rest else rest
  }

  /** Exactly the transactions of the set wait as retries. */
  ghost predicate RetriesAre(s: State, retried: set<TxnId>) {
    retried <= s.taken && forall w <- s.waiting :: w.retry <==> w.txn in retried
  }

  lemma SentIsNotWaiting(s: State, i: nat)
    requires Accounted(s) && i < |s.flight|
    ensures s.flight[i].txn in s.taken && forall w <- s.waiting :: w.txn != s.flight[i].txn
  {
    var txn := s.flight[i].txn;
    assert SentTxns(s.flight)[i] == txn && txn in multiset(SentTxns(s.flight));
    assert Places(s)[txn] == multiset(s.taken)[txn] <= 1;
    forall w | w in s.waiting
      ensures w.txn != txn
    {
      var j :| 0 <= j < |s.waiting| && s.waiting[j] == w;
      assert WaitingTxns(s.waiting)[j] == w.txn && w.txn in multiset(WaitingTxns(s.waiting));
    }
  }

  lemma AnswerKeepsRetries(s: State, e: Event, retried: set<TxnId>)
    requires Accounted(s) && RetriesAre(s, retried) && e.Respond? && Enabled(s, e)
    ensures RetriesAre(NextState(s, e),
      if e.status == InternalError && e.scheduled && Served(s.pool.rings, s.flight[e.i])
      then retried + {s.flight[e.i].txn} else retried)
  {
    SentIsNotWaiting(s, e.i);
  }

  lemma WaitingIsTaken(s: State, txn: TxnId, retried: set<TxnId>)
    requires RetriesAre(s, retried) && txn !in s.taken
    ensures txn !in retried
  {
  }

  lemma StepKeepsRetries(s: State, e: Event, retried: set<TxnId>)
    requires Accounted(s) && RetriesAre(s, retried) && Enabled(s, e) && !e.Respond?
    ensures RetriesAre(NextState(s, e), retried)
  {
    StepTakes(s, e);
    forall w | w in NextState(s, e).waiting
      ensures w.retry <==> w.txn in retried
    {
      if e.Park? {
        assert s.waiting[e.i] in s.waiting;
      }
      if w !in s.waiting && e.Take? {
        WaitingIsTaken(s, e.txn, retried);
      }
    }
  }

  lemma {:induction false} RunKeepsRetries(s: State, events: seq<Event>, retried: set<TxnId>)
    requires IsRun(s, events) && Accounted(s) && RetriesAre(s, retried)
    ensures RetriesAre(After(s, events), retried + Retried(s, events))
    decreases |events|
  {
    if events == [] {
      assert retried + {} == retried;
    } else {
      var e, s' := events[0], NextState(s, events[0]);
      StepKeepsAccounted(s, e);
      if e.Respond? {
        AnswerKeepsRetries(s, e, retried);
        var more := if e.status == InternalError && e.scheduled && Served(s.pool.rings, s.flight[e.i])
                    then {s.flight[e.i].txn} else {};
        assert retried + more + Retried(s', events[1..]) == retried + Retried(s, events);
        assert retried + {} == retried;
        RunKeepsRetries(s', events[1..], retried + more);
      } else {
        StepKeepsRetries(s, e, retried);
        RunKeepsRetries(s', events[1..], retried);
      }
    }
  }

  /** In every run a waiting transaction is a retry if and only if it was answered by an internal error. */
  lemma RetriesExactly(events: seq<Event>)
    requires IsRun(Start, events)
    ensures forall w <- After(Start, events).waiting :: w.retry <==> w.txn in Retried(Start, events)
  {
    RunKeepsRetries(Start, events, {});
    assert {} + Retried(Start, events) == Retried(Start, events);
  }

  /** Some step of the run gives up a transaction that is not a retry. */
  predicate GivesUpScheduled(s: State, events: seq<Event>)
    requires IsRun(s, events)
    decreases |events|
  {
    events != [] &&
    (|| ((events[0].Lose? || events[0].Cancel?) && !s.waiting[events[0].i].retry)
     || GivesUpScheduled(NextState(s, events[0]), events[1..]))
  }

  /** The scheduling thread has ended if and only if a transaction that was no retry was given up. */
  lemma {:induction false} HaltsExactly(s: State, events: seq<Event>)
    requires IsRun(s, events)
    ensures After(s, events).halted <==> s.halted || GivesUpScheduled(s, events)
    decreases |events|
  {
    if events != [] {
      HaltsExactly(NextState(s, events[0]), events[1..]);
    }
  }
}
