/** The level-order walk of a fork graph. */
module ForkWalk {
  import opened Options
  import opened ForkGraphs

  /** The block is one of this node's and has children of its own. */
  predicate IsChild(nodes: Nodes, p: BlockId, child: BlockId) {
    p in nodes && child in nodes && child in nodes[p].siblings
  }

  /**
   * A tree in levels: below the root every node has exactly one parent, and a
   * node's children are one number above it.
   */
  ghost predicate Levelled(nodes: Nodes, root: BlockId) {
    && root in nodes
    && (forall p <- nodes :: nodes[p].previous == p)
    && (forall p, c :: IsChild(nodes, p, c) ==> nodes[c].num == nodes[p].num + 1 && c != root)
    && (forall p, q, c :: IsChild(nodes, p, c) && IsChild(nodes, q, c) ==> p == q)
    && (forall c <- nodes :: c != root ==> exists p :: IsChild(nodes, p, c))
  }

  ghost predicate Rising(nodes: Nodes, keys: seq<BlockId>)
    requires forall k <- keys :: k in nodes
  {
    forall i, j :: 0 <= i < j < |keys| ==> nodes[keys[i]].num <= nodes[keys[j]].num
  }

  /** What was yielded, then what is queued, in level order and without repetition. */
  ghost predicate InOrder(nodes: Nodes, done: seq<BlockId>, queue: seq<BlockId>) {
    && (forall k <- done + queue :: k in nodes)
    && Distinct(done + queue) && Rising(nodes, done + queue)
    && (forall k <- queue :: nodes[k].num <= nodes[queue[0]].num + 1)
  }

  /** Children of yielded nodes are yielded or queued, and nothing else is but the start, which is the lowest. */
  ghost predicate Parented(nodes: Nodes, start: BlockId, done: seq<BlockId>, queue: seq<BlockId>) {
    && start in nodes && start in done + queue
    && (forall k <- done + queue :: k in nodes && nodes[start].num <= nodes[k].num)
    && (forall p, c :: p in done && IsChild(nodes, p, c) ==> c in done + queue)
    && (forall c <- done + queue :: c != start ==> exists p :: p in done && IsChild(nodes, p, c))
  }

  ghost predicate WalkInv(nodes: Nodes, start: BlockId, done: seq<BlockId>, queue: seq<BlockId>) {
    InOrder(nodes, done, queue) && Parented(nodes, start, done, queue)
  }

  /** The node is the start or lies above it. */
  ghost predicate Descends(nodes: Nodes, start: BlockId, k: BlockId)
    requires k in nodes
    decreases nodes[k].num
  {
    k == start || exists p :: IsChild(nodes, p, k) && nodes[p].num < nodes[k].num && Descends(nodes, start, p)
  }

  lemma RisingAppend(nodes: Nodes, keys: seq<BlockId>, more: seq<BlockId>, level: nat)
    requires forall k <- keys + more :: k in nodes
    requires Rising(nodes, keys)
    requires forall k <- keys :: nodes[k].num <= level
    requires forall k <- more :: nodes[k].num == level
    ensures Rising(nodes, keys + more)
  {
    var all := keys + more;
    forall i, j | 0 <= i < j < |all|
      ensures nodes[all[i]].num <= nodes[all[j]].num
    {
      if i < |keys| <= j {
        assert all[i] in keys && all[j] in more;
      } else if |keys| <= i {
        assert all[i] in more && all[j] in more;
      }
    }
  }

  lemma DistinctAppend<T>(s: seq<T>, t: seq<T>)
    requires Distinct(s) && Distinct(t) && forall x <- t :: x !in s
    ensures Distinct(s + t)
  {
    var all := s + t;
    forall i, j | 0 <= i < j < |all|
      ensures all[i] != all[j]
    {
      if i < |s| <= j {
        assert all[i] in s && all[j] in t;
      }
    }
  }

  /** The first queued node is a node and has not been yielded. */
  lemma HeadIsNew(nodes: Nodes, done: seq<BlockId>, queue: seq<BlockId>)
    requires InOrder(nodes, done, queue) && queue != []
    ensures queue[0] in nodes && queue[0] !in done
    ensures nodes.Keys - SetOf(done + [queue[0]]) < nodes.Keys - SetOf(done)
  {
    var all := done + queue;
    assert all[|done|] == queue[0];
    assert forall i :: 0 <= i < |done| ==> all[i] == done[i];
    SetOfAppend(done, [queue[0]]);
    assert queue[0] in nodes.Keys - SetOf(done);
  }

  /** Children of a node that has not been yielded are not queued either. */
  lemma ChildrenAreNew(nodes: Nodes, root: BlockId, start: BlockId, done: seq<BlockId>, queue: seq<BlockId>,
                       p: BlockId, c: BlockId)
    requires Levelled(nodes, root) && Parented(nodes, start, done, queue)
    requires p in queue && p !in done && IsChild(nodes, p, c)
    ensures c !in done + queue
  {
  }

  lemma EarlierIsLower(nodes: Nodes, done: seq<BlockId>, queue: seq<BlockId>)
    requires InOrder(nodes, done, queue) && queue != []
    ensures forall k <- done + queue :: nodes[k].num <= nodes[queue[0]].num + 1
  {
    var all := done + queue;
    forall k | k in all
      ensures nodes[k].num <= nodes[queue[0]].num + 1
    {
      if k !in queue {
        var i :| 0 <= i < |done| && done[i] == k;
        assert nodes[all[i]].num <= nodes[all[|done|]].num;
      }
    }
  }

  lemma StillInOrder(nodes: Nodes, done: seq<BlockId>, queue: seq<BlockId>, children: seq<BlockId>)
    requires InOrder(nodes, done, queue) && queue != [] && Distinct(children)
    requires forall c <- children :: c in nodes && c !in done + queue && nodes[c].num == nodes[queue[0]].num + 1
    ensures InOrder(nodes, done + [queue[0]], queue[1..] + children)
  {
    var all, p := done + queue, queue[0];
    EarlierIsLower(nodes, done, queue);
    DistinctAppend(all, children);
    RisingAppend(nodes, all, children, nodes[p].num + 1);
    assert (done + [p]) + (queue[1..] + children) == all + children;
    StillLevel(nodes, done + [p], queue[1..] + children);
  }

  lemma StillLevel(nodes: Nodes, done: seq<BlockId>, queue: seq<BlockId>)
    requires done != [] && (forall k <- done + queue :: k in nodes) && Rising(nodes, done + queue)
    requires forall k <- queue :: nodes[k].num <= nodes[done[|done| - 1]].num + 1
    ensures forall k <- queue :: nodes[k].num <= nodes[queue[0]].num + 1
  {
    if queue != [] {
      var all := done + queue;
      assert nodes[all[|done| - 1]].num <= nodes[all[|done|]].num;
    }
  }

  lemma StillParented(nodes: Nodes, start: BlockId, done: seq<BlockId>, queue: seq<BlockId>, children: seq<BlockId>)
    requires Parented(nodes, start, done, queue) && queue != []
    requires forall c :: c in children <==> IsChild(nodes, queue[0], c)
    requires queue[0] in nodes && forall c <- children :: c in nodes && nodes[c].num == nodes[queue[0]].num + 1
    ensures Parented(nodes, start, done + [queue[0]], queue[1..] + children)
  {
    var done', queue' := done + [queue[0]], queue[1..] + children;
    assert done' + queue' == (done + queue) + children && queue[0] in done + queue;
    forall c | c in done' + queue' && c != start
      ensures exists p :: p in done' && IsChild(nodes, p, c)
    {
      if c in children {
        assert queue[0] in done' && IsChild(nodes, queue[0], c);
      } else {
        assert c in done + queue;
        var p :| p in done && IsChild(nodes, p, c);
        assert p in done';
      }
    }
  }

  /** Yielding the first queued node and queueing its children keeps the invariant. */
  lemma WalkStep(nodes: Nodes, root: BlockId, start: BlockId, done: seq<BlockId>, queue: seq<BlockId>,
                 children: seq<BlockId>)
    requires Levelled(nodes, root) && WalkInv(nodes, start, done, queue) && queue != []
    requires Distinct(children) && forall c :: c in children <==> IsChild(nodes, queue[0], c)
    ensures WalkInv(nodes, start, done + [queue[0]], queue[1..] + children)
  {
    HeadIsNew(nodes, done, queue);
    forall c | c in children
      ensures c !in done + queue
    {
      ChildrenAreNew(nodes, root, start, done, queue, queue[0], c);
    }
    StillInOrder(nodes, done, queue, children);
    StillParented(nodes, start, done, queue, children);
  }

  /** When the queue is empty exactly the nodes above the start have been yielded. */
  lemma {:induction false} WalkReachesExactly(nodes: Nodes, root: BlockId, start: BlockId, done: seq<BlockId>,
                                              k: BlockId)
    requires Levelled(nodes, root) && WalkInv(nodes, start, done, []) && k in nodes
    ensures k in done <==> Descends(nodes, start, k)
    decreases nodes[k].num
  {
    assert done + [] == done;
    if k != start {
      forall p | IsChild(nodes, p, k)
        ensures p in done <==> Descends(nodes, start, p)
      {
        WalkReachesExactly(nodes, root, start, done, p);
      }
    }
  }

  /** Every node of a tree in levels is above its root. */
  lemma {:induction false} AllDescend(nodes: Nodes, root: BlockId, k: BlockId)
    requires Levelled(nodes, root) && k in nodes
    ensures Descends(nodes, root, k)
    decreases nodes[k].num
  {
    if k != root {
      var p :| IsChild(nodes, p, k);
      AllDescend(nodes, root, p);
    }
  }

  /** Nodes of the graph, none twice, in nondecreasing block number. */
  ghost predicate InLevels(nodes: Nodes, yielded: seq<Node>) {
    && (forall i :: 0 <= i < |yielded| ==> yielded[i].previous in nodes && yielded[i] == nodes[yielded[i].previous])
    && (forall i, j :: 0 <= i < j < |yielded| ==> yielded[i].previous != yielded[j].previous)
    && (forall i, j :: 0 <= i < j < |yielded| ==> yielded[i].num <= yielded[j].num)
  }

  ghost predicate YieldsAbove(nodes: Nodes, start: BlockId, yielded: seq<Node>) {
    forall k <- nodes :: Yields(yielded, k) <==> Descends(nodes, start, k)
  }

  /** What a walk yields: exactly the nodes above its start, once each, in nondecreasing block number. */
  ghost predicate IsWalk(nodes: Nodes, start: BlockId, yielded: seq<Node>) {
    InLevels(nodes, yielded) && YieldsAbove(nodes, start, yielded)
  }

  ghost predicate Yields(yielded: seq<Node>, k: BlockId) {
    exists i :: 0 <= i < |yielded| && yielded[i].previous == k
  }

  /** The nodes stored under these ids, in their order. */
  ghost predicate AreNodes(nodes: Nodes, done: seq<BlockId>, yielded: seq<Node>) {
    && |yielded| == |done|
    && forall i :: 0 <= i < |done| ==>
         done[i] in nodes && nodes[done[i]].previous == done[i] && yielded[i] == nodes[done[i]]
  }

  lemma OneMoreNode(nodes: Nodes, done: seq<BlockId>, yielded: seq<Node>, key: BlockId)
    requires AreNodes(nodes, done, yielded) && key in nodes && nodes[key].previous == key
    ensures AreNodes(nodes, done + [key], yielded + [nodes[key]])
  {
  }

  lemma YieldsDone(nodes: Nodes, done: seq<BlockId>, yielded: seq<Node>, k: BlockId)
    requires AreNodes(nodes, done, yielded)
    ensures Yields(yielded, k) <==> k in done
  {
  }

  lemma WalkKeepsOrder(nodes: Nodes, done: seq<BlockId>, yielded: seq<Node>)
    requires InOrder(nodes, done, []) && AreNodes(nodes, done, yielded)
    ensures InLevels(nodes, yielded)
  {
    assert done + [] == done;
  }

  lemma WalkYieldsAbove(nodes: Nodes, root: BlockId, start: BlockId, done: seq<BlockId>, yielded: seq<Node>)
    requires Levelled(nodes, root) && WalkInv(nodes, start, done, []) && AreNodes(nodes, done, yielded)
    ensures YieldsAbove(nodes, start, yielded)
  {
    forall k | k in nodes
      ensures Yields(yielded, k) <==> Descends(nodes, start, k)
    {
      WalkReachesExactly(nodes, root, start, done, k);
      YieldsDone(nodes, done, yielded, k);
    }
  }

  /** Since numbers never fall, all nodes of one number are yielded one after another. */
  lemma LevelsAreContiguous(nodes: Nodes, yielded: seq<Node>, i: int, j: int, k: int)
    requires InLevels(nodes, yielded) && 0 <= i <= j <= k < |yielded|
    requires yielded[i].num == yielded[k].num
    ensures yielded[j].num == yielded[i].num
  {
  }

  /** The children a node queues, in some order; the dictionary's order is not relied on. */
  method Children(nodes: set<BlockId>, siblings: set<BlockId>) returns (children: seq<BlockId>)
    ensures Distinct(children) && forall c :: c in children <==> c in siblings && c in nodes
  {
    children := [];
    var todo := siblings;
    while todo != {}
      invariant todo <= siblings
      invariant Distinct(children)
      invariant forall c :: c in children <==> c in siblings - todo && c in nodes
    {
      var c :| c in todo;
      if c in nodes {
        DistinctAppend(children, [c]);
        children := children + [c];
      }
      todo := todo - {c};
    }
  }

  /** What one round of the walk yields and queues. */
  method VisitNode(g: ForkGraph, key: BlockId) returns (node: Node, children: seq<BlockId>)
    requires g.Valid() && key in g.graph
    ensures key in g.Contents() && node == g.Contents()[key]
    ensures Distinct(children) && forall c :: c in children <==> IsChild(g.Contents(), key, c)
  {
    var found := g.graph[key];
    assert found.View() == g.Contents()[key];
    node := Node(found.num, found.previous, found.siblings);
    children := Children(g.graph.Keys, found.siblings.Keys);
  }

  /** Walks the graph from a node; a queued node is named by the id it is stored under. */
  method WalkFrom(g: ForkGraph, start: BlockId, ghost root: BlockId) returns (yielded: seq<Node>)
    requires g.Valid() && Levelled(g.Contents(), root) && start in g.graph
    ensures IsWalk(g.Contents(), start, yielded)
  {
    ghost var nodes := g.Contents();
    var queue := [start];
    yielded := [];
    ghost var done: seq<BlockId> := [];
    while queue != []
      invariant g.Contents() == nodes
      invariant WalkInv(nodes, start, done, queue) && AreNodes(nodes, done, yielded)
      decreases nodes.Keys - SetOf(done)
    {
      HeadIsNew(nodes, done, queue);
      var node, children := VisitNode(g, queue[0]);
      OneMoreNode(nodes, done, yielded, queue[0]);
      yielded := yielded + [node];
      WalkStep(nodes, root, start, done, queue, children);
      done := done + [queue[0]];
      queue := queue[1..] + children;
    }
    WalkYieldsAbove(nodes, root, start, done, yielded);
    WalkKeepsOrder(nodes, done, yielded);
  }

  /** Walks from the given node or from the root; an empty graph has no node to start from. */
  method Walk(g: ForkGraph, head: Option<BlockId>) returns (r: Option<seq<Node>>)
    requires g.Valid() && (head.Some? ==> head.value in g.graph)
    requires g.graph != map[] ==> g.rootBlock.Some? && Levelled(g.Contents(), g.rootBlock.value.previous)
    ensures r.None? <==> g.graph == map[]
    ensures r.Some? ==>
      IsWalk(g.Contents(), if head.Some? then head.value else g.rootBlock.value.previous, r.value)
  {
    if head.None? && g.rootNode == null {
      return None;
    }
    var start := if head.Some? then head.value else g.rootNode.previous;
    var yielded := WalkFrom(g, start, g.rootBlock.value.previous);
    return Some(yielded);
  }
}
