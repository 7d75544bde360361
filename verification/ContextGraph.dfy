/** The breadth-first walk over base contexts used by lookup and by squash. */
module ContextGraph {
  import opened Options

  /** A context id. The source's random ids become numbers handed out in order. */
  type Id = nat

  /** Each registered context with the ids of its base contexts. */
  type Graph = map<Id, seq<Id>>

  /** Every id a walk that starts from registered contexts can meet. */
  ghost function Mentioned(g: Graph): set<Id> {
    g.Keys + set i, k | i in g.Keys && 0 <= k < |g[i]| :: g[i][k]
  }

  /** The bases not seen before, in order, each once. */
  function NewBases(bases: seq<Id>, seen: set<Id>): (unseen: seq<Id>)
    ensures Distinct(unseen)
    ensures SetOf(unseen) == SetOf(bases) - seen
  {
    if bases == [] then []
    else
      SetOfCons(bases);
      if bases[0] in seen then NewBases(bases[1..], seen)
      else
        var rest := NewBases(bases[1..], seen + {bases[0]});
        SetOfCons([bases[0]] + rest);
        assert bases[0] !in SetOf(rest);
        [bases[0]] + rest
  }

  /** Distinct bases of which none was seen are all new. */
  lemma {:induction false} AllAreNew(bases: seq<Id>, seen: set<Id>)
    requires Distinct(bases) && forall b <- bases :: b !in seen
    ensures NewBases(bases, seen) == bases
  {
    if bases != [] {
      assert forall i :: 1 <= i < |bases| ==> bases[0] != bases[i];
      AllAreNew(bases[1..], seen + {bases[0]});
      assert bases == [bases[0]] + bases[1..];
    }
  }

  /** Enqueueing new bases uses up as many unseen ids as it adds to the queue. */
  lemma WalkShrinks(g: Graph, id: Id, seen: set<Id>)
    requires id in g
    ensures var unseen := NewBases(g[id], seen);
            |Mentioned(g) - (seen + SetOf(unseen))| + |unseen| == |Mentioned(g) - seen|
  {
    var unseen := NewBases(g[id], seen);
    DistinctSize(unseen);
    assert forall b | b in g[id] :: b in Mentioned(g);
    assert SetOf(unseen) <= Mentioned(g) - seen;
    assert Mentioned(g) - (seen + SetOf(unseen)) == (Mentioned(g) - seen) - SetOf(unseen);
  }

  /**
   * The contexts a walk visits, in order. It is incomplete when the walk pops
   * an id that is not registered (the source raises KeyError there).
   */
  datatype Trail = Trail(visited: seq<Id>, complete: bool)
  {
    function After(first: seq<Id>): Trail {
      this.(visited := first + visited)
    }
  }

  ghost function Walk(g: Graph, queue: seq<Id>, seen: set<Id>): Trail
    decreases |Mentioned(g) - seen| + |queue|
  {
    if queue == [] then Trail([], true)
    else if queue[0] !in g then Trail([], false)
    else
      WalkShrinks(g, queue[0], seen);
      var unseen := NewBases(g[queue[0]], seen);
      Walk(g, queue[1..] + unseen, seen + SetOf(unseen)).After([queue[0]])
  }

  ghost function WalkFrom(g: Graph, ids: seq<Id>): Trail {
    Walk(g, ids, SetOf(ids))
  }

  // Reachability, independently of any walk

  /** A path along base references; only its last id may be unregistered. */
  ghost predicate IsPath(g: Graph, path: seq<Id>) {
    && path != []
    && forall i :: 0 <= i < |path| - 1 ==> path[i] in g && path[i + 1] in g[path[i]]
  }

  ghost predicate PathTo(g: Graph, path: seq<Id>, ids: seq<Id>, id: Id) {
    IsPath(g, path) && path[0] in ids && path[|path| - 1] == id
  }

  ghost predicate Reachable(g: Graph, ids: seq<Id>, id: Id) {
    exists path :: PathTo(g, path, ids, id)
  }

  lemma BaseIsReachable(g: Graph, ids: seq<Id>, id: Id, base: Id)
    requires Reachable(g, ids, id) && id in g && base in g[id]
    ensures Reachable(g, ids, base)
  {
    var path :| PathTo(g, path, ids, id);
    assert PathTo(g, path + [base], ids, base);
  }

  /** Every step of the walk stays inside what is reachable. */
  lemma {:induction false} WalkIsSound(g: Graph, ids: seq<Id>, queue: seq<Id>, seen: set<Id>)
    requires forall id <- queue :: Reachable(g, ids, id)
    ensures forall id <- Walk(g, queue, seen).visited :: id in g && Reachable(g, ids, id)
    ensures !Walk(g, queue, seen).complete ==> exists id :: id !in g && Reachable(g, ids, id)
    decreases |Mentioned(g) - seen| + |queue|
  {
    if queue != [] && queue[0] in g {
      WalkShrinks(g, queue[0], seen);
      var unseen := NewBases(g[queue[0]], seen);
      assert queue[0] in queue;
      forall id | id in unseen
        ensures Reachable(g, ids, id)
      {
        assert id in SetOf(unseen);
        BaseIsReachable(g, ids, queue[0], id);
      }
      WalkIsSound(g, ids, queue[1..] + unseen, seen + SetOf(unseen));
    }
  }

  ghost predicate ClosedInto(g: Graph, ids: set<Id>, seen: set<Id>) {
    forall id <- ids :: id in g && SetOf(g[id]) <= seen
  }

  /** Visiting the head of the queue keeps the visited set closed. */
  lemma VisitKeepsClosed(g: Graph, done: set<Id>, queue: seq<Id>, seen: set<Id>)
    requires queue != [] && queue[0] in g
    requires seen == done + SetOf(queue) && ClosedInto(g, done, seen)
    ensures var unseen := NewBases(g[queue[0]], seen);
            var done', seen' := done + {queue[0]}, seen + SetOf(unseen);
            seen' == done' + SetOf(queue[1..] + unseen) && ClosedInto(g, done', seen')
  {
    var unseen := NewBases(g[queue[0]], seen);
    SetOfAppend(queue[1..], unseen);
    SetOfCons(queue);
  }

  ghost predicate Covers(g: Graph, done: set<Id>, seen: set<Id>, order: seq<Id>) {
    seen <= done + SetOf(order) && ClosedInto(g, done + SetOf(order), done + SetOf(order))
  }

  lemma CoversMore(g: Graph, done: set<Id>, id: Id, seen: set<Id>, seen': set<Id>, order: seq<Id>)
    requires Covers(g, done + {id}, seen', order) && seen <= seen'
    ensures Covers(g, done, seen, [id] + order)
  {
    SetOfAppend([id], order);
    assert done + SetOf([id] + order) == (done + {id}) + SetOf(order);
  }

  /** A successful walk leaves nothing enqueued behind. */
  lemma {:induction false} WalkIsComplete(g: Graph, done: set<Id>, queue: seq<Id>, seen: set<Id>)
    requires seen == done + SetOf(queue) && ClosedInto(g, done, seen)
    ensures Walk(g, queue, seen).complete ==> Covers(g, done, seen, Walk(g, queue, seen).visited)
    decreases |Mentioned(g) - seen| + |queue|
  {
    if queue == [] {
      assert done + SetOf([]) == done;
    } else if queue[0] in g {
      WalkShrinks(g, queue[0], seen);
      VisitKeepsClosed(g, done, queue, seen);
      var unseen := NewBases(g[queue[0]], seen);
      var rest, seen' := queue[1..] + unseen, seen + SetOf(unseen);
      WalkIsComplete(g, done + {queue[0]}, rest, seen');
      if Walk(g, rest, seen').complete {
        CoversMore(g, done, queue[0], seen, seen', Walk(g, rest, seen').visited);
      }
    }
  }

  lemma {:induction false} ClosedHoldsPath(g: Graph, all: set<Id>, path: seq<Id>)
    requires ClosedInto(g, all, all) && IsPath(g, path) && path[0] in all
    ensures path[|path| - 1] in all
  {
    if |path| > 1 {
      ClosedHoldsPath(g, all, path[1..]);
    }
  }

  /**
   * On any finite base graph, cyclic or not, the walk completes exactly when
   * every reachable context is registered, and then it visits exactly the
   * reachable contexts.
   */
  lemma WalkVisitsReachable(g: Graph, ids: seq<Id>)
    ensures WalkFrom(g, ids).complete <==> forall id :: Reachable(g, ids, id) ==> id in g
    ensures WalkFrom(g, ids).complete ==>
              forall id :: id in WalkFrom(g, ids).visited <==> Reachable(g, ids, id)
  {
    forall id | id in ids
      ensures Reachable(g, ids, id)
    {
      assert PathTo(g, [id], ids, id);
    }
    WalkIsSound(g, ids, ids, SetOf(ids));
    WalkIsComplete(g, {}, ids, SetOf(ids));
    if WalkFrom(g, ids).complete {
      var order := WalkFrom(g, ids).visited;
      assert {} + SetOf(order) == SetOf(order);
      forall id | Reachable(g, ids, id)
        ensures id in order
      {
        var path :| PathTo(g, path, ids, id);
        ClosedHoldsPath(g, SetOf(order), path);
      }
    }
  }

  lemma QueueStaysDistinct(queue: seq<Id>, unseen: seq<Id>, seen: set<Id>)
    requires queue != [] && Distinct(queue) && SetOf(queue) <= seen
    requires Distinct(unseen) && SetOf(unseen) !! seen
    ensures Distinct(queue[1..] + unseen)
    ensures queue[0] in seen && queue[0] !in queue[1..] + unseen
    ensures SetOf(queue[1..] + unseen) <= seen + SetOf(unseen)
  {
    var rest := queue[1..] + unseen;
    assert forall id <- queue :: id in SetOf(queue);
    assert forall id <- unseen :: id in SetOf(unseen);
    forall i, j | 0 <= i < j < |rest|
      ensures rest[i] != rest[j]
    {
      if i < |queue| - 1 <= j {
        assert rest[i] in queue && rest[j] in unseen;
      }
    }
  }

  /** From distinct ids, no context is visited twice. */
  lemma {:induction false} WalkVisitsOnce(g: Graph, queue: seq<Id>, seen: set<Id>)
    requires Distinct(queue) && SetOf(queue) <= seen
    ensures var order := Walk(g, queue, seen).visited;
            Distinct(order) && forall id <- order :: id in queue || id !in seen
    decreases |Mentioned(g) - seen| + |queue|
  {
    if queue != [] && queue[0] in g {
      WalkShrinks(g, queue[0], seen);
      var unseen := NewBases(g[queue[0]], seen);
      QueueStaysDistinct(queue, unseen, seen);
      WalkVisitsOnce(g, queue[1..] + unseen, seen + SetOf(unseen));
    }
  }
}
