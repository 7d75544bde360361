/** Chains of hash-linked blocks seen at several peers, and how a graph records them. */
module ChainNetwork {
  import opened ForkGraphs
  import opened ForkWalk

  /** A chain as a peer serves it: from its head back to the genesis block. */
  type BlockChain = seq<Block>

  function At(c: BlockChain, n: nat): Block
    requires n < |c|
  {
    c[|c| - 1 - n]
  }

  /** Blocks are numbered from the genesis block and linked by their parent's id. */
  ghost predicate Linked(c: BlockChain) {
    && c != []
    && (forall n: nat :: n < |c| ==> At(c, n).num == n)
    && (forall n: nat, m: nat :: n < m < |c| && m == n + 1 ==> At(c, m).previous == At(c, n).ident)
  }

  /** An id names one block wherever it is seen. */
  ghost predicate IdsAgree(c: BlockChain, d: BlockChain) {
    forall n: nat, m: nat {:trigger At(c, n), At(d, m)} ::
      n < |c| && m < |d| && At(c, n).ident == At(d, m).ident ==> At(c, n) == At(d, m)
  }

  /** The parent id of the second chain's genesis block names no block of the first. */
  ghost predicate StartsOutside(c: BlockChain, d: BlockChain) {
    d != [] && forall n: nat :: n < |c| ==> At(c, n).ident != At(d, 0).previous
  }

  /** Linked chains that agree on what an id names. */
  ghost predicate Network(chains: seq<BlockChain>) {
    && chains != []
    && (forall i {:trigger Linked(chains[i])} :: 0 <= i < |chains| ==> Linked(chains[i]))
    && (forall i, j {:trigger IdsAgree(chains[i], chains[j])} ::
          0 <= i < |chains| && 0 <= j < |chains| ==> IdsAgree(chains[i], chains[j]))
    && (forall i, j {:trigger StartsOutside(chains[i], chains[j])} ::
          0 <= i < |chains| && 0 <= j < |chains| ==> StartsOutside(chains[i], chains[j]))
  }

  /** The block is at its own height in the chain. */
  predicate Has(c: BlockChain, b: Block) {
    b.num < |c| && At(c, b.num) == b
  }

  lemma HasIsIn(c: BlockChain, b: Block)
    requires Linked(c)
    ensures Has(c, b) <==> b in c
  {
    if b in c {
      var i :| 0 <= i < |c| && c[i] == b;
      assert At(c, |c| - 1 - i) == b;
    }
  }

  /** Blocks with the same parent are at the same height. */
  lemma SameParentSameHeight(chains: seq<BlockChain>, i: nat, j: nat, b: Block, c: Block)
    requires Network(chains) && i < |chains| && j < |chains|
    requires Has(chains[i], b) && Has(chains[j], c) && b.previous == c.previous
    ensures b.num == c.num
  {
    assert Linked(chains[i]) && Linked(chains[j]);
    assert StartsOutside(chains[i], chains[j]) && StartsOutside(chains[j], chains[i]);
    assert b.num > 0 ==> At(chains[i], b.num - 1).ident == b.previous;
    assert c.num > 0 ==> At(chains[j], c.num - 1).ident == c.previous;
    if b.num > 0 && c.num > 0 {
      assert IdsAgree(chains[i], chains[j]);
      assert At(chains[i], b.num - 1) == At(chains[j], c.num - 1);
    }
  }

  /** A block whose parent id is another block's id is one above it. */
  lemma ParentIsOneBelow(chains: seq<BlockChain>, i: nat, j: nat, parent: Block, child: Block)
    requires Network(chains) && i < |chains| && j < |chains|
    requires Has(chains[i], parent) && Has(chains[j], child) && child.previous == parent.ident
    ensures child.num == parent.num + 1
  {
    assert Linked(chains[i]) && Linked(chains[j]);
    assert StartsOutside(chains[i], chains[j]) && At(chains[i], parent.num).ident == child.previous;
    assert IdsAgree(chains[i], chains[j]);
    assert At(chains[j], child.num - 1) == At(chains[i], parent.num);
  }

  // What the graph records

  /** The part of a peer's chain from height `low[i]` up contains the block. */
  ghost predicate Added(chains: seq<BlockChain>, low: seq<nat>, i: Peer, b: Block)
    requires |low| == |chains|
  {
    i < |chains| && low[i] <= b.num && Has(chains[i], b)
  }

  /** The graph lists exactly the peers and blocks added so far, each once. */
  ghost predicate Recorded(nodes: Nodes, chains: seq<BlockChain>, low: seq<nat>) {
    && |low| == |chains| && Tidy(nodes)
    && forall i, b :: Listed(nodes, i, b) <==> Added(chains, low, i, b)
  }

  /** Every node holds some block that was added. */
  lemma SomeListed(nodes: Nodes, chains: seq<BlockChain>, low: seq<nat>, p: BlockId) returns (i: Peer, b: Block)
    requires Recorded(nodes, chains, low) && p in nodes
    ensures Listed(nodes, i, b) && Added(chains, low, i, b) && b.previous == p && b.num == nodes[p].num
  {
    var id :| id in nodes[p].siblings;
    i := nodes[p].siblings[id][0];
    b := Block(nodes[p].num, id, p);
    assert Listed(nodes, i, b);
  }

  /** The next block down a chain can always be stored, and is not stored yet. */
  lemma NextFits(nodes: Nodes, chains: seq<BlockChain>, low: seq<nat>, i: Peer, b: Block)
    requires Network(chains) && Recorded(nodes, chains, low)
    requires i < |chains| && Has(chains[i], b) && b.num + 1 == low[i]
    ensures Fits(nodes, b) && !Listed(nodes, i, b)
  {
    assert !Added(chains, low, i, b);
    if b.previous in nodes {
      var j, c := SomeListed(nodes, chains, low, b.previous);
      SameParentSameHeight(chains, i, j, b, c);
    }
  }

  lemma RecordNext(nodes: Nodes, chains: seq<BlockChain>, low: seq<nat>, i: Peer, b: Block)
    requires Network(chains) && Recorded(nodes, chains, low)
    requires i < |chains| && Has(chains[i], b) && b.num + 1 == low[i]
    ensures Fits(nodes, b) && Recorded(Add(nodes, i, b), chains, low[i := b.num])
  {
    NextFits(nodes, chains, low, i, b);
    AddLists(nodes, i, b);
    AddKeepsTidy(nodes, i, b);
    var low' := low[i := b.num];
    forall j, c
      ensures Added(chains, low', j, c) <==> Added(chains, low, j, c) || (j == i && c == b)
    {
    }
  }

  // The finished graph

  function Level(count: nat, n: nat): (low: seq<nat>)
    ensures |low| == count && forall i :: 0 <= i < count ==> low[i] == n
  {
    seq(count, _ => n)
  }

  /** All chains have the same block at this height. */
  ghost predicate Same(chains: seq<BlockChain>, n: nat) {
    && (forall i :: 0 <= i < |chains| ==> n < |chains[i]|)
    && (forall i :: 0 <= i < |chains| ==> At(chains[i], n) == At(chains[0], n))
  }

  lemma RootIsNode(nodes: Nodes, chains: seq<BlockChain>, n: nat)
    requires Network(chains) && Same(chains, n) && Recorded(nodes, chains, Level(|chains|, n))
    ensures At(chains[0], n).previous in nodes && nodes[At(chains[0], n).previous].num == n
  {
    assert Linked(chains[0]) && Added(chains, Level(|chains|, n), 0, At(chains[0], n));
    assert Listed(nodes, 0, At(chains[0], n));
  }

  lemma ChildIsAbove(nodes: Nodes, chains: seq<BlockChain>, n: nat, p: BlockId, c: BlockId)
    requires Network(chains) && Same(chains, n) && Recorded(nodes, chains, Level(|chains|, n))
    requires IsChild(nodes, p, c)
    ensures nodes[c].num == nodes[p].num + 1 && c != At(chains[0], n).previous
  {
    var low := Level(|chains|, n);
    var b := Block(nodes[p].num, c, p);
    var i := nodes[p].siblings[c][0];
    assert Listed(nodes, i, b) && Added(chains, low, i, b);
    var j, d := SomeListed(nodes, chains, low, c);
    ParentIsOneBelow(chains, i, j, b, d);
    RootIsNode(nodes, chains, n);
  }

  lemma OneParent(nodes: Nodes, chains: seq<BlockChain>, n: nat, p: BlockId, q: BlockId, c: BlockId)
    requires Network(chains) && Recorded(nodes, chains, Level(|chains|, n))
    requires IsChild(nodes, p, c) && IsChild(nodes, q, c)
    ensures p == q
  {
    var low := Level(|chains|, n);
    var b, b' := Block(nodes[p].num, c, p), Block(nodes[q].num, c, q);
    var i, i' := nodes[p].siblings[c][0], nodes[q].siblings[c][0];
    assert Listed(nodes, i, b) && Added(chains, low, i, b);
    assert Listed(nodes, i', b') && Added(chains, low, i', b');
    assert IdsAgree(chains[i], chains[i']);
    assert At(chains[i], b.num) == At(chains[i'], b'.num);
  }

  lemma SomeParent(nodes: Nodes, chains: seq<BlockChain>, n: nat, c: BlockId)
    requires Network(chains) && Same(chains, n) && Recorded(nodes, chains, Level(|chains|, n))
    requires c in nodes && c != At(chains[0], n).previous
    ensures exists p :: IsChild(nodes, p, c)
  {
    var low := Level(|chains|, n);
    var j, d := SomeListed(nodes, chains, low, c);
    assert Linked(chains[j]) && d == At(chains[j], d.num) && At(chains[j], n) == At(chains[0], n);
    var parent := At(chains[j], d.num - 1);
    assert Added(chains, low, j, parent);
    assert Listed(nodes, j, parent);
    assert IsChild(nodes, parent.previous, c);
  }

  /** A graph of all blocks down to a common one is a tree in levels above it. */
  lemma RecordedIsLevelled(nodes: Nodes, chains: seq<BlockChain>, n: nat)
    requires Network(chains) && Same(chains, n) && Recorded(nodes, chains, Level(|chains|, n))
    ensures Levelled(nodes, At(chains[0], n).previous)
  {
    var root := At(chains[0], n).previous;
    RootIsNode(nodes, chains, n);
    forall p, c | IsChild(nodes, p, c)
      ensures nodes[c].num == nodes[p].num + 1 && c != root
    {
      ChildIsAbove(nodes, chains, n, p, c);
    }
    forall p, q, c | IsChild(nodes, p, c) && IsChild(nodes, q, c)
      ensures p == q
    {
      OneParent(nodes, chains, n, p, q, c);
    }
    forall c | c in nodes && c != root
      ensures exists p :: IsChild(nodes, p, c)
    {
      SomeParent(nodes, chains, n, c);
    }
  }

  // What the comparison promises

  /** The highest block that all chains contain. */
  ghost predicate IsCommonAncestor(chains: seq<BlockChain>, b: Block) {
    && (forall i :: 0 <= i < |chains| ==> b in chains[i])
    && forall c :: (forall i :: 0 <= i < |chains| ==> c in chains[i]) ==> c.num <= b.num
  }

  lemma FirstSameIsCommonAncestor(chains: seq<BlockChain>, n: nat, lowest: nat)
    requires Network(chains) && Same(chains, n) && n <= lowest
    requires forall k :: n < k <= lowest ==> !Same(chains, k)
    requires exists i :: 0 <= i < |chains| && |chains[i]| == lowest + 1
    ensures IsCommonAncestor(chains, At(chains[0], n))
  {
    var b := At(chains[0], n);
    assert Linked(chains[0]);
    forall i | 0 <= i < |chains|
      ensures b in chains[i]
    {
      assert At(chains[i], n) == b;
    }
    forall c | forall i :: 0 <= i < |chains| ==> c in chains[i]
      ensures c.num <= n
    {
      forall i | 0 <= i < |chains|
        ensures Has(chains[i], c)
      {
        assert Linked(chains[i]);
        HasIsIn(chains[i], c);
      }
      if c.num > n {
        assert Same(chains, c.num);
      }
    }
  }
}
