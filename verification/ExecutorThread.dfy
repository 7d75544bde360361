/** The executor thread over the processor manager. */
module ExecutorThreads {
  import opened Options
  import opened ProcessorSpec
  import opened Processors
  import opened Executor

  /** What asking for a processor for a waiting transaction leads to; None if it waits on as before. */
  function Attempt(s: State, i: nat): Option<Event>
    requires s.pool.Fits() && i < |s.waiting|
  {
    var w := s.waiting[i];
    if w.kind !in s.pool.rings then if w.forVacancy then Some(Lose(i)) else None
    else if CanSend(s, w.kind) then Some(Dispatch(i))
    else if w.forVacancy then None else Some(Park(i))
  }

  /** The attempt makes the one step that the machine allows, and none if it allows none. */
  lemma AttemptIsTheStep(s: State, i: nat, e: Event)
    requires s.pool.Fits() && i < |s.waiting| && e in {Park(i), Dispatch(i), Lose(i)}
    ensures Enabled(s, e) <==> Attempt(s, i) == Some(e)
  {
  }

  class TransactionExecutorThread {
    const manager: ProcessorManager
    var taken: set<TxnId>
    var waiting: seq<Waiting>
    var flight: seq<Request>
    var dropped: seq<TxnId>
    var reports: seq<(TxnId, bool)>
    var halted: bool

    ghost function View(): State
      reads this, manager
    {
      State(manager.View(), taken, waiting, flight, dropped, reports, halted)
    }

    constructor (manager: ProcessorManager)
      requires manager.View() == Pool(map[], map[])
      ensures this.manager == manager && View() == Start
    {
      this.manager := manager;
      taken, waiting, flight, dropped, reports, halted := {}, [], [], [], [], false;
    }

    /** Takes a transaction from the scheduler; one refused by configuration is failed at once. */
    method Schedule(txn: TxnId, kind: ProcessorType, accepted: bool)
      requires Enabled(View(), Take(txn, kind, accepted))
      modifies this
      ensures View() == NextState(old(View()), Take(txn, kind, accepted))
    {
      taken := taken + {txn};
      if accepted {
        waiting := waiting + [Waiting(txn, kind, false, false)];
      } else {
        reports := reports + [(txn, false)];
      }
    }

    /** A processor for a waiting transaction, asked for again if it waits for a vacancy. */
    method NextProcessor(w: Waiting) returns (found: Found)
      requires manager.Valid()
      modifies manager
      ensures manager.Valid()
      ensures found.Missing? <==> w.kind !in old(manager.rings)
      ensures found.Vacant? <==> CanSend(old(View()), w.kind)
      ensures if found.Vacant?
        then
          var ring := RingFor(old(manager.View()), w);
          && found.id == ring.procs[ring.Chosen().value].id
          && manager.View() == old(manager.View()).With(w.kind, ring.Advanced().Adjusted(ring.Chosen().value, 1))
        else manager.View() == old(manager.View())
    {
      if w.forVacancy {
        found := manager.WaitForVacancy(w.kind);
      } else {
        found := manager.GetNextOfType(w.kind);
      }
    }

    /**
     * Asks for a processor for a waiting transaction and sends it there. A type
     * that is gone while it waits for vacancy raises and ends the calling thread.
     */
    method Execute(i: nat) returns (e: Option<Event>)
      requires manager.Valid() && i < |waiting|
      modifies this, manager
      ensures manager.Valid() && e == Attempt(old(View()), i)
      ensures View() == if e.Some? then NextState(old(View()), e.value) else old(View())
    {
      var w := waiting[i];
      var found := NextProcessor(w);
      match found
      case Vacant(conn) =>
        waiting := waiting[..i] + waiting[i + 1..];
        flight := flight + [Request(w.txn, w.kind, conn)];
        return Some(Dispatch(i));
      case Full =>
        if w.forVacancy {
          return None;
        }
        waiting := waiting[i := w.(forVacancy := true)];
        return Some(Park(i));
      case Missing =>
        if !w.forVacancy {
          return None;
        }
        waiting := waiting[..i] + waiting[i + 1..];
        dropped := dropped + [w.txn];
        halted := halted || !w.retry;
        return Some(Lose(i));
    }

    /**
     * Handles a response. An internal error is retried while the transaction is
     * still scheduled. False where the processor is not found, which raises.
     */
    method FutureDoneCallback(r: Request, status: Status, scheduled: bool) returns (ok: bool)
      requires manager.Valid()
      modifies this, manager
      ensures manager.Valid() && ok == Served(old(manager.rings), r)
      ensures View() == if ok then Handled(old(View()), r, status, scheduled) else old(View())
    {
      ok := manager.Release(r.kind, r.conn);
      if ok {
        match status
        case Valid => reports := reports + [(r.txn, true)];
        case Invalid => reports := reports + [(r.txn, false)];
        case InternalError =>
          if scheduled {
            waiting := waiting + [Waiting(r.txn, r.kind, true, false)];
          } else {
            dropped := dropped + [r.txn];
          }
      }
    }

    /** A response arrives; an exception in the callback is logged, and the answer is lost. */
    method Receive(i: nat, status: Status, scheduled: bool)
      requires manager.Valid() && i < |flight|
      modifies this, manager
      ensures manager.Valid() && View() == NextState(old(View()), Respond(i, status, scheduled))
    {
      var r := flight[i];
      flight := flight[..i] + flight[i + 1..];
      var ok := FutureDoneCallback(r, status, scheduled);
      if !ok {
        dropped := dropped + [r.txn];
      }
    }

    /**
     * Removes a connection that does not answer pings and answers its open
     * requests with internal errors, in any order, so that they are retried. But
     * the first of these callbacks finds no processor and raises: whatever the
     * open requests are, nothing is retried, and the removal is all that happens.
     */
    method RemoveBrokenConnection(conn: ConnId, open: seq<Request>, scheduled: set<TxnId>)
      requires manager.Valid() && forall r <- open :: r.conn == conn
      modifies this, manager
      ensures manager.Valid() && View() == NextState(old(View()), Unregister(conn))
      ensures waiting == old(waiting)
    {
      ghost var pool := manager.View();
      var removed := manager.Remove(conn);
      if !removed {
        return;
      }
      for i := 0 to |open|
        invariant i == 0 && manager.Valid() && View() == NextState(old(View()), Unregister(conn))
      {
        if open[i].kind in manager.rings {
          RemovalClears(pool, conn, open[i].kind);
        }
        var ok := FutureDoneCallback(open[i], InternalError, open[i].txn in scheduled);
        if !ok {
          return;
        }
      }
    }
  }
}
