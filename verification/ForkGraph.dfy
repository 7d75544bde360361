/** The fork graph: blocks of several chains, stored under their parent's id. */
module ForkGraphs {
  import opened Options

  type BlockId = string

  /** A node of the network whose chain is compared. */
  type Peer = nat

  datatype Block = Block(num: nat, ident: BlockId, previous: BlockId)

  /** All blocks with one parent, each with the peers that have it. */
  datatype Node = Node(num: nat, previous: BlockId, siblings: map<BlockId, seq<Peer>>)
  {
    function With(peer: Peer, ident: BlockId): Node {
      this.(siblings := siblings[ident := (if ident in siblings then siblings[ident] else []) + [peer]])
    }
  }

  type Nodes = map<BlockId, Node>

  /** The block can be stored: its parent's other children have its number. */
  predicate Fits(nodes: Nodes, b: Block) {
    b.previous in nodes ==> nodes[b.previous].num == b.num
  }

  function Add(nodes: Nodes, peer: Peer, b: Block): Nodes {
    var node := if b.previous in nodes then nodes[b.previous] else Node(b.num, b.previous, map[]);
    nodes[b.previous := node.With(peer, b.ident)]
  }

  /** The peer is recorded as having the block. */
  predicate Listed(nodes: Nodes, peer: Peer, b: Block) {
    && b.previous in nodes
    && nodes[b.previous].num == b.num
    && b.ident in nodes[b.previous].siblings
    && peer in nodes[b.previous].siblings[b.ident]
  }

  /** Nodes sit under their parent's id, and every list names someone, nobody twice. */
  ghost predicate Tidy(nodes: Nodes) {
    forall p <- nodes ::
      && nodes[p].previous == p
      && nodes[p].siblings != map[]
      && forall id <- nodes[p].siblings :: nodes[p].siblings[id] != [] && Distinct(nodes[p].siblings[id])
  }

  /** Storing a block records that block for that peer and nothing else. */
  lemma AddLists(nodes: Nodes, peer: Peer, b: Block)
    requires Fits(nodes, b)
    ensures forall q, c :: Listed(Add(nodes, peer, b), q, c) <==> Listed(nodes, q, c) || (q == peer && c == b)
  {
    var nodes' := Add(nodes, peer, b);
    forall q, c
      ensures Listed(nodes', q, c) <==> Listed(nodes, q, c) || (q == peer && c == b)
    {
      if c.previous == b.previous && c.ident == b.ident {
        var before := if b.previous in nodes && b.ident in nodes[b.previous].siblings
                      then nodes[b.previous].siblings[b.ident] else [];
        assert nodes'[b.previous].siblings[b.ident] == before + [peer];
      }
    }
  }

  lemma AddKeepsTidy(nodes: Nodes, peer: Peer, b: Block)
    requires Tidy(nodes) && Fits(nodes, b) && !Listed(nodes, peer, b)
    ensures Tidy(Add(nodes, peer, b))
  {
  }

  lemma PutTwice(nodes: Nodes, p: BlockId, first: Node, second: Node)
    ensures nodes[p := first][p := second] == nodes[p := second]
    ensures p in nodes && nodes[p] == second ==> nodes[p := second] == nodes
  {
  }

  class ForkGraphNode {
    const num: nat
    const previous: BlockId
    var siblings: map<BlockId, seq<Peer>>

    ghost function View(): Node
      reads this
    {
      Node(num, previous, siblings)
    }

    constructor (num: nat, previous: BlockId)
      ensures View() == Node(num, previous, map[])
    {
      this.num := num;
      this.previous := previous;
      siblings := map[];
    }

    /** Fails, changing nothing, where the source's assertions fail. */
    method AddSibling(peer: Peer, block: Block) returns (ok: bool)
      modifies this
      ensures ok <==> block.num == num && block.previous == previous
      ensures View() == if ok then old(View()).With(peer, block.ident) else old(View())
    {
      if block.num != num || block.previous != previous {
        return false;
      }
      if block.ident !in siblings {
        siblings := siblings[block.ident := []];
      }
      siblings := siblings[block.ident := siblings[block.ident] + [peer]];
      return true;
    }
  }

  class ForkGraph {
    var graph: map<BlockId, ForkGraphNode>
    var rootNode: ForkGraphNode?
    var rootBlock: Option<Block>

    /** Nodes sit under their parent's id, so no two keys share a node. */
    ghost predicate Valid()
      reads this, graph.Values
    {
      && (forall p <- graph :: graph[p].previous == p)
      && (rootNode == null <==> rootBlock.None?)
      && (rootBlock.Some? ==>
            && rootBlock.value.previous in graph
            && rootNode == graph[rootBlock.value.previous]
            && rootNode.num == rootBlock.value.num)
    }

    ghost function Contents(): Nodes
      reads this, graph.Values
    {
      map p | p in graph :: graph[p].View()
    }

    constructor ()
      ensures Valid() && Contents() == map[] && rootBlock == None && graph == map[]
    {
      graph := map[];
      rootNode := null;
      rootBlock := None;
    }

    /** The node for a parent, created empty with the given number if there is none. */
    method NodeFor(num: nat, previous: BlockId) returns (node: ForkGraphNode)
      requires Valid()
      modifies this`graph
      ensures Valid() && fresh(graph.Values - old(graph.Values))
      ensures previous in graph && node == graph[previous]
      ensures node.View() == if previous in old(graph) then old(Contents())[previous] else Node(num, previous, map[])
      ensures Contents() == old(Contents())[previous := node.View()]
    {
      if previous !in graph {
        node := new ForkGraphNode(num, previous);
        graph := graph[previous := node];
      } else {
        node := graph[previous];
      }
    }

    /** Changing one node changes the contents there and nowhere else. */
    twostate lemma OnlyAt(p: BlockId)
      requires old(Valid()) && unchanged(this) && p in graph
      requires forall q <- graph :: q != p ==> unchanged(graph[q])
      ensures Contents() == old(Contents())[p := graph[p].View()]
    {
    }

    method AddBlock(peer: Peer, block: Block) returns (ok: bool)
      requires Valid()
      modifies this, graph.Values
      ensures Valid() && fresh(graph.Values - old(graph.Values))
      ensures ok <==> Fits(old(Contents()), block)
      ensures ok ==> Contents() == Add(old(Contents()), peer, block)
      ensures !ok ==> Contents() == old(Contents())
      ensures rootBlock == if ok && (old(rootBlock).None? || old(rootBlock).value.num > block.num)
                           then Some(block) else old(rootBlock)
    {
      var node := NodeFor(block.num, block.previous);
      label found:
      ok := node.AddSibling(peer, block);
      OnlyAt@found(block.previous);
      PutTwice(old(Contents()), block.previous, old@found(node.View()), node.View());
      if ok && (rootNode == null || rootNode.num > block.num) {
        SetRoot(node, block);
      }
    }

    method SetRoot(node: ForkGraphNode, block: Block)
      requires forall p <- graph :: graph[p].previous == p
      requires block.previous in graph && graph[block.previous] == node && node.num == block.num
      modifies this`rootNode, this`rootBlock
      ensures Valid() && rootBlock == Some(block) && Contents() == old(Contents())
    {
      rootNode := node;
      rootBlock := Some(block);
    }
  }
}
