/** When squashing a graph of contexts does not depend on the order of the walk. */
module DagSquash {
  import opened Options
  import opened ContextGraph
  import opened Squash

  /** `older` can be reached from `newer` by following at least one base reference. */
  ghost predicate Ancestor(g: Graph, newer: Id, older: Id) {
    exists path :: |path| > 1 && PathTo(g, path, [newer], older)
  }

  /** Oldest first: no context comes before one of its ancestors. */
  ghost predicate Topological(g: Graph, ids: seq<Id>) {
    && Distinct(ids)
    && forall i, j :: 0 <= i < j < |ids| ==> !Ancestor(g, ids[i], ids[j])
  }

  /** Newest first: every context is visited before its ancestors. */
  ghost predicate BeforeAncestors(g: Graph, order: seq<Id>) {
    forall i, j :: 0 <= i < j < |order| ==> !Ancestor(g, order[j], order[i])
  }

  /** Two contexts that write the same address are related. */
  ghost predicate SharedWritesRelated(g: Graph, ids: seq<Id>, writes: map<Id, Writes>)
    requires forall id <- ids :: id in writes
  {
    forall x, y, a {:trigger writes[x].Touches(a), writes[y].Touches(a)} ::
      x in ids && y in ids && x != y && writes[x].Touches(a) && writes[y].Touches(a)
      ==> Ancestor(g, x, y) || Ancestor(g, y, x)
  }

  function WritesOf(ids: seq<Id>, writes: map<Id, Writes>): (ws: seq<Writes>)
    requires forall id <- ids :: id in writes
    ensures |ws| == |ids| && forall i :: 0 <= i < |ids| ==> ws[i] == writes[ids[i]]
  {
    seq(|ids|, i requires 0 <= i < |ids| => writes[ids[i]])
  }

  /** The last writer of an address is the same in every topological order. */
  lemma LastWriterIsFixed(g: Graph, writes: map<Id, Writes>, s: seq<Id>, r: seq<Id>,
                          a: Address, i: int, j: int)
    requires Topological(g, s) && Topological(g, r)
    requires SetOf(s) == SetOf(r)
    requires forall id <- s :: id in writes
    requires forall id <- r :: id in writes
    requires SharedWritesRelated(g, s, writes)
    requires LastTouch(WritesOf(s, writes), a, i) && LastTouch(WritesOf(r, writes), a, j)
    ensures s[i] == r[j]
  {
    var x, y := s[i], r[j];
    assert y in SetOf(s) && x in SetOf(r);
    var i' :| 0 <= i' < |s| && s[i'] == y;
    var j' :| 0 <= j' < |r| && r[j'] == x;
    assert i' <= i && j' <= j;
  }

  lemma SameSetSameWriters(writes: map<Id, Writes>, s: seq<Id>, r: seq<Id>, a: Address)
    requires SetOf(s) == SetOf(r)
    requires forall id <- s :: id in writes
    requires forall id <- r :: id in writes
    requires exists w <- WritesOf(s, writes) :: w.Touches(a)
    ensures exists w <- WritesOf(r, writes) :: w.Touches(a)
  {
    var ws := WritesOf(s, writes);
    var k :| 0 <= k < |ws| && ws[k].Touches(a);
    assert s[k] in SetOf(r);
    var j :| 0 <= j < |r| && r[j] == s[k];
    assert WritesOf(r, writes)[j] == ws[k];
  }

  /** Replaying in any topological order gives the same tree. */
  lemma ReplayIsOrderIndependent(g: Graph, writes: map<Id, Writes>, t: Tree, s: seq<Id>, r: seq<Id>)
    requires Topological(g, s) && Topological(g, r)
    requires SetOf(s) == SetOf(r)
    requires forall id <- s :: id in writes
    requires forall id <- r :: id in writes
    requires SharedWritesRelated(g, s, writes)
    ensures Replay(t, WritesOf(s, writes)) == Replay(t, WritesOf(r, writes))
  {
    var ws, wr := WritesOf(s, writes), WritesOf(r, writes);
    forall a: Address
      ensures Lookup(Replay(t, ws), a) == Lookup(Replay(t, wr), a)
    {
      if exists w <- ws :: w.Touches(a) {
        SameSetSameWriters(writes, s, r, a);
        var i := FindLastTouch(ws, a);
        var j := FindLastTouch(wr, a);
        LastWriterIsFixed(g, writes, s, r, a, i, j);
        ReplayAt(t, ws, a, i);
        ReplayAt(t, wr, a, j);
      } else {
        if exists w <- wr :: w.Touches(a) {
          SameSetSameWriters(writes, r, s, a);
        }
        ReplayFrame(t, ws, a);
        ReplayFrame(t, wr, a);
      }
    }
    SameTree(Replay(t, ws), Replay(t, wr));
  }

  lemma ReversedWrites(order: seq<Id>, writes: map<Id, Writes>)
    requires forall id <- order :: id in writes
    ensures forall id <- Reverse(order) :: id in writes
    ensures Reverse(WritesOf(order, writes)) == WritesOf(Reverse(order), writes)
  {
    ReverseElements(order);
    ReverseElements(WritesOf(order, writes));
  }

  lemma ReversedOrder(g: Graph, order: seq<Id>)
    requires Distinct(order) && BeforeAncestors(g, order)
    ensures Topological(g, Reverse(order)) && SetOf(Reverse(order)) == SetOf(order)
  {
    ReverseElements(order);
  }

  /**
   * If unrelated contexts write different addresses and every context is
   * visited before its ancestors, squash is replay in any topological order.
   */
  lemma SquashIsTopologicalReplay(g: Graph, writes: map<Id, Writes>, t: Tree, order: seq<Id>, topo: seq<Id>)
    requires Distinct(order) && BeforeAncestors(g, order)
    requires Topological(g, topo) && SetOf(topo) == SetOf(order)
    requires forall id <- order :: id in writes
    requires forall id <- topo :: id in writes
    requires SharedWritesRelated(g, order, writes)
    ensures SquashedTree(t, WritesOf(order, writes)) == Replay(t, WritesOf(topo, writes))
  {
    SquashIsReplay(t, WritesOf(order, writes));
    ReversedWrites(order, writes);
    ReversedOrder(g, order);
    ReverseElements(order);
    ReplayIsOrderIndependent(g, writes, t, Reverse(order), topo);
  }

  /** Squash and topological replay agree whatever the contexts write. */
  ghost predicate AgreesOnAllWrites(g: Graph, order: seq<Id>, topo: seq<Id>) {
    forall writes: map<Id, Writes>, t: Tree ::
      (forall id <- order :: id in writes) && (forall id <- topo :: id in writes)
      && SharedWritesRelated(g, order, writes)
      ==> SquashedTree(t, WritesOf(order, writes)) == Replay(t, WritesOf(topo, writes))
  }

  const Probe: Address := "00"

  /** Only an ancestor and its descendant write, both at the same address. */
  function ProbeWrites(ids: seq<Id>, older: Id, newer: Id): map<Id, Writes> {
    map id | id in ids ::
      if id == older then Writes(map[Probe := [0]], {})
      else if id == newer then Writes(map[Probe := [1]], {})
      else Writes(map[], {})
  }

  lemma ProbeSquashed(order: seq<Id>, i: int, j: int)
    requires Distinct(order) && 0 <= i < j < |order|
    ensures var ws := WritesOf(order, ProbeWrites(order, order[i], order[j]));
            Lookup(SquashedTree(map[], ws), Probe) == Some([0])
  {
    var ws := WritesOf(order, ProbeWrites(order, order[i], order[j]));
    SquashIsReplay(map[], ws);
    ReverseElements(ws);
    var k := |order| - 1 - i;
    forall n | k < n < |ws|
      ensures !Reverse(ws)[n].Touches(Probe)
    {
      assert order[|ws| - 1 - n] != order[i] && order[|ws| - 1 - n] != order[j];
    }
    ReplayAt(map[], Reverse(ws), Probe, k);
  }

  lemma ProbeReplayed(topo: seq<Id>, writes: map<Id, Writes>, o: int, n: int)
    requires Distinct(topo) && 0 <= o < n < |topo|
    requires forall id <- topo :: id in writes && writes[id] == ProbeWrites(topo, topo[o], topo[n])[id]
    ensures Lookup(Replay(map[], WritesOf(topo, writes)), Probe) == Some([1])
  {
    var ws := WritesOf(topo, writes);
    forall k | n < k < |ws|
      ensures !ws[k].Touches(Probe)
    {
      assert topo[k] != topo[o] && topo[k] != topo[n];
    }
    ReplayAt(map[], ws, Probe, n);
  }

  lemma ProbeIsRelated(g: Graph, order: seq<Id>, older: Id, newer: Id)
    requires Ancestor(g, newer, older)
    ensures SharedWritesRelated(g, order, ProbeWrites(order, older, newer))
  {
    var writes := ProbeWrites(order, older, newer);
    assert forall id, a | id in order && writes[id].Touches(a) :: id == older || id == newer;
  }

  lemma AncestorIsEarlier(g: Graph, topo: seq<Id>, older: Id, newer: Id) returns (o: nat, n: nat)
    requires Topological(g, topo) && Ancestor(g, newer, older) && newer != older
    requires newer in SetOf(topo) && older in SetOf(topo)
    ensures o < n < |topo| && topo[o] == older && topo[n] == newer
  {
    n :| n < |topo| && topo[n] == newer;
    o :| o < |topo| && topo[o] == older;
  }

  /** An ancestor visited too early overrides its descendant. */
  lemma EarlyAncestorWins(g: Graph, order: seq<Id>, topo: seq<Id>, i: int, j: int)
    requires Distinct(order) && Topological(g, topo) && SetOf(topo) == SetOf(order)
    requires 0 <= i < j < |order| && Ancestor(g, order[j], order[i])
    ensures !AgreesOnAllWrites(g, order, topo)
  {
    var older, newer := order[i], order[j];
    var writes := ProbeWrites(order, older, newer);
    assert forall id <- topo :: id in SetOf(order);
    assert newer in SetOf(topo) && older in SetOf(topo);
    var o, n := AncestorIsEarlier(g, topo, older, newer);
    ProbeSquashed(order, i, j);
    ProbeReplayed(topo, writes, o, n);
    ProbeIsRelated(g, order, older, newer);
    assert SquashedTree(map[], WritesOf(order, writes)) != Replay(map[], WritesOf(topo, writes));
  }

  /**
   * The exact condition, on the graph alone: squash agrees with topological
   * replay for every choice of writes if and only if the walk visits every
   * context before its ancestors.
   */
  lemma SquashAgreesExactly(g: Graph, order: seq<Id>, topo: seq<Id>)
    requires Distinct(order) && Topological(g, topo) && SetOf(topo) == SetOf(order)
    ensures AgreesOnAllWrites(g, order, topo) <==> BeforeAncestors(g, order)
  {
    if BeforeAncestors(g, order) {
      forall writes: map<Id, Writes>, t: Tree
        | (forall id <- order :: id in writes) && (forall id <- topo :: id in writes)
          && SharedWritesRelated(g, order, writes)
        ensures SquashedTree(t, WritesOf(order, writes)) == Replay(t, WritesOf(topo, writes))
      {
        SquashIsTopologicalReplay(g, writes, t, order, topo);
      }
    } else {
      var i, j :| 0 <= i < j < |order| && Ancestor(g, order[j], order[i]);
      EarlyAncestorWins(g, order, topo, i, j);
    }
  }

  // The condition can fail: context 2 is based on 0 and 1, and 1 is based on 0.

  const UnevenDiamond: Graph := map[0 := [], 1 := [0], 2 := [0, 1]]

  lemma WalkOnce(g: Graph, queue: seq<Id>, seen: set<Id>, rest: seq<Id>, seen': set<Id>)
    requires queue != [] && queue[0] in g
    requires rest == queue[1..] + NewBases(g[queue[0]], seen)
    requires seen' == seen + SetOf(NewBases(g[queue[0]], seen))
    ensures Walk(g, queue, seen) == Walk(g, rest, seen').After([queue[0]])
  {
  }

  lemma NoneAreNew(bases: seq<Id>, seen: set<Id>)
    requires forall b <- bases :: b in seen
    ensures NewBases(bases, seen) == []
  {
    var unseen := NewBases(bases, seen);
    assert SetOf(unseen) == {};
    assert forall b <- unseen :: b in SetOf(unseen);
  }

  lemma WalkLastTwo(g: Graph, x: Id, y: Id, all: set<Id>)
    requires x in g && y in g && (forall b <- g[x] :: b in all) && (forall b <- g[y] :: b in all)
    ensures Walk(g, [x, y], all) == Trail([x, y], true)
  {
    var bases, last, none: seq<Id> := [x, y], [y], [];
    NoneAreNew(g[x], all);
    NoneAreNew(g[y], all);
    WalkOnce(g, last, all, none, all);
    WalkOnce(g, bases, all, last, all);
  }

  /** A walk from a context with two bases that lead nowhere else. */
  lemma WalkTwoBases(g: Graph, top: Id, x: Id, y: Id)
    requires top in g && x in g && y in g && top != x && top != y && x != y && g[top] == [x, y]
    requires (forall b <- g[x] :: b == x || b == y) && (forall b <- g[y] :: b == x || b == y)
    ensures WalkFrom(g, [top]) == Trail([top, x, y], true)
  {
    var start, bases: seq<Id> := [top], [x, y];
    WalkLastTwo(g, x, y, {top, x, y});
    AllAreNew(bases, {top});
    assert SetOf(start) == {top} && SetOf(bases) == {x, y};
    WalkOnce(g, start, {top}, bases, {top, x, y});
    assert start + bases == [top, x, y];
  }

  lemma UnevenDiamondWalk()
    ensures WalkFrom(UnevenDiamond, [2]) == Trail([2, 0, 1], true)
  {
    WalkTwoBases(UnevenDiamond, 2, 0, 1);
  }

  lemma UnevenDiamondOrder()
    ensures Topological(UnevenDiamond, [0, 1, 2])
  {
    forall newer, older | Ancestor(UnevenDiamond, newer, older)
      ensures older < newer
    {
      var path :| |path| > 1 && PathTo(UnevenDiamond, path, [newer], older);
      PathsDescend(path);
    }
  }

  /** On the uneven diamond, squash can keep an ancestor's value over its descendant's. */
  lemma UnevenDiamondDisagrees()
    ensures WalkFrom(UnevenDiamond, [2]) == Trail([2, 0, 1], true)
    ensures Topological(UnevenDiamond, [0, 1, 2])
    ensures !AgreesOnAllWrites(UnevenDiamond, [2, 0, 1], [0, 1, 2])
  {
    UnevenDiamondWalk();
    UnevenDiamondOrder();
    var g, order, topo := UnevenDiamond, [2, 0, 1], [0, 1, 2];
    assert PathTo(g, [1, 0], [1], 0);
    assert SetOf(topo) == SetOf(order);
    EarlyAncestorWins(g, order, topo, 1, 2);
  }

  lemma {:induction false} PathsDescend(path: seq<Id>)
    requires |path| > 1 && IsPath(UnevenDiamond, path)
    ensures path[|path| - 1] < path[0]
  {
    assert path[1] in UnevenDiamond[path[0]];
    if |path| > 2 {
      PathsDescend(path[1..]);
    }
  }
}
