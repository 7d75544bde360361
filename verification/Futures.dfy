/** The future that holds one address's value inside an execution context. */
module Futures {
  import opened Options

  /** The fields of a `_ContextFuture`, as a value. */
  datatype FutureState = FutureState(
    result: Option<Bytes>,
    setInContext: bool,
    waitForTree: bool,
    treeHasSet: bool,
    readOnly: bool,
    deleted: bool)
  {
    /** `make_read_only` waits while this holds. */
    predicate Blocked() {
      waitForTree && !setInContext && !treeHasSet
    }

    /** `result` returns without waiting when this holds. */
    predicate Ready() {
      readOnly || !Blocked()
    }

    predicate Untouched() {
      !setInContext && !deleted
    }

    function Frozen(): FutureState {
      this.(readOnly := true)
    }

    function WithDirect(value: Bytes): FutureState {
      if readOnly then this
      else this.(result := Some(value), setInContext := true, deleted := false)
    }

    function WithTree(value: Option<Bytes>): FutureState {
      if readOnly || setInContext then this
      else this.(result := value, treeHasSet := true)
    }

    /** Deleting neither clears the result nor looks at the read-only flag. */
    function WithDelete(): FutureState {
      this.(setInContext := false, deleted := true)
    }

    /** A set future carries a value and is not also deleted. */
    predicate Sound() {
      setInContext ==> result.Some? && !deleted
    }
  }

  /** A future created with a value, or empty, and not waiting. */
  function Initial(value: Option<Bytes>): FutureState {
    FutureState(value, false, false, false, false, false)
  }

  /** A future that waits for the value read from the Merkle tree. */
  function Prefetch(): FutureState {
    FutureState(None, false, true, false, false, false)
  }

  class ContextFuture {
    var result: Option<Bytes>
    var setInContext: bool
    var waitForTree: bool
    var treeHasSet: bool
    var readOnly: bool
    var deleted: bool

    ghost function View(): FutureState
      reads this
    {
      FutureState(result, setInContext, waitForTree, treeHasSet, readOnly, deleted)
    }

    constructor (initial: Option<Bytes>, wait: bool)
      ensures View() == if wait then Prefetch().(result := initial) else Initial(initial)
    {
      result := initial;
      setInContext := false;
      waitForTree := wait;
      treeHasSet := false;
      readOnly := false;
      deleted := false;
    }

    /** The precondition is the condition the source waits for. */
    method MakeReadOnly()
      requires !View().Blocked()
      modifies this
      ensures View() == old(View()).Frozen()
    {
      readOnly := true;
    }

    /** The precondition is the condition the source waits for. */
    method Result() returns (value: Option<Bytes>)
      requires View().Ready()
      ensures value == View().result
    {
      value := result;
    }

    method SetDeleted()
      modifies this
      ensures View() == old(View()).WithDelete()
    {
      setInContext := false;
      deleted := true;
    }

    method SetDirect(value: Bytes)
      modifies this
      ensures View() == old(View()).WithDirect(value)
    {
      if readOnly {
        return;
      }
      result := Some(value);
      setInContext := true;
      deleted := false;
    }

    method SetFromTree(value: Option<Bytes>)
      modifies this
      ensures View() == old(View()).WithTree(value)
    {
      if readOnly {
        return;
      }
      if !setInContext {
        result := value;
        treeHasSet := true;
      }
    }
  }

  // Interleavings of the direct operations with the tree delivery

  datatype FutureEvent =
    | DirectSet(value: Bytes)
    | DirectDelete
    | TreeDelivery(found: Option<Bytes>)
    | Freeze

  function Step(f: FutureState, e: FutureEvent): FutureState {
    match e
    case DirectSet(v) => f.WithDirect(v)
    case DirectDelete => f.WithDelete()
    case TreeDelivery(v) => f.WithTree(v)
    case Freeze => f.Frozen()
  }

  function Run(f: FutureState, events: seq<FutureEvent>): FutureState {
    if events == [] then f
    else Step(Run(f, events[..|events| - 1]), events[|events| - 1])
  }

  /** What squash reads off a future. */
  datatype Observation = WasSet(value: Bytes) | WasDeleted | NotWritten

  function Observed(f: FutureState): Observation {
    if f.setInContext && f.result.Some? then WasSet(f.result.value)
    else if f.deleted then WasDeleted
    else NotWritten
  }

  /**
   * The effect of the last direct operation that counts: any delete, or a set
   * made before the future was frozen. Tree deliveries play no part in it.
   */
  function LastDirect(events: seq<FutureEvent>): Observation {
    if events == [] then NotWritten
    else
      var before := events[..|events| - 1];
      match events[|events| - 1]
      case DirectSet(v) => if Freeze in before then LastDirect(before) else WasSet(v)
      case DirectDelete => WasDeleted
      case _ => LastDirect(before)
  }

  function DirectOnly(events: seq<FutureEvent>): seq<FutureEvent> {
    if events == [] then []
    else
      var before := DirectOnly(events[..|events| - 1]);
      if events[|events| - 1].TreeDelivery? then before else before + [events[|events| - 1]]
  }

  predicate Fresh(f: FutureState) {
    f.Untouched() && !f.readOnly
  }

  /** Squash sees exactly the last direct operation that counts. */
  lemma {:induction false} ObservedIsLastDirect(f: FutureState, events: seq<FutureEvent>)
    requires Fresh(f)
    ensures Run(f, events).Sound()
    ensures Run(f, events).readOnly <==> Freeze in events
    ensures Observed(Run(f, events)) == LastDirect(events)
  {
    if events != [] {
      var before := events[..|events| - 1];
      assert events == before + [events[|events| - 1]];
      ObservedIsLastDirect(f, before);
    }
  }

  lemma {:induction false} DirectOnlyKeepsFreeze(events: seq<FutureEvent>)
    ensures Freeze in DirectOnly(events) <==> Freeze in events
  {
    if events != [] {
      SplitLast(events);
      DirectOnlyKeepsFreeze(events[..|events| - 1]);
    }
  }

  lemma OneMoreDirect(events: seq<FutureEvent>, last: FutureEvent)
    ensures LastDirect(events + [last]) == match last
      case DirectSet(v) => if Freeze in events then LastDirect(events) else WasSet(v)
      case DirectDelete => WasDeleted
      case _ => LastDirect(events)
  {
    assert (events + [last])[..|events|] == events;
  }

  lemma {:induction false} LastDirectIgnoresTree(events: seq<FutureEvent>)
    ensures Freeze in DirectOnly(events) <==> Freeze in events
    ensures LastDirect(DirectOnly(events)) == LastDirect(events)
  {
    DirectOnlyKeepsFreeze(events);
    if events != [] {
      var before, last := events[..|events| - 1], events[|events| - 1];
      LastDirectIgnoresTree(before);
      OneMoreDirect(DirectOnly(before), last);
    }
  }

  /**
   * However tree deliveries interleave with the direct operations, and whether
   * or not the future was waiting, squash observes the same thing.
   */
  lemma InterleavingIndependence(f: FutureState, g: FutureState,
                                 events: seq<FutureEvent>, others: seq<FutureEvent>)
    requires Fresh(f) && Fresh(g)
    requires DirectOnly(events) == DirectOnly(others)
    ensures Observed(Run(f, events)) == Observed(Run(g, others))
  {
    ObservedIsLastDirect(f, events);
    ObservedIsLastDirect(g, others);
    LastDirectIgnoresTree(events);
    LastDirectIgnoresTree(others);
  }
}
