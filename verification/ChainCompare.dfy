/** Comparing the chains of several peers back to their common ancestor. */
module ChainCompare {
  import opened Options
  import opened ForkGraphs
  import opened ForkWalk
  import opened ChainNetwork

  /** What the block generators still have to deliver, chain by chain. */
  type Streams = seq<seq<Block>>

  /** Every stream has been read down to, and including, the block at this height. */
  ghost predicate ReadTo(streams: Streams, chains: seq<BlockChain>, n: nat) {
    && |streams| == |chains|
    && forall i :: 0 <= i < |chains| ==> n < |chains[i]| && streams[i] == chains[i][|chains[i]| - n..]
  }

  /** The part of a chain from a height up, oldest first. */
  ghost predicate IsTail(tail: seq<Block>, c: BlockChain, n: nat) {
    n < |c| && |tail| == |c| - n && forall k :: 0 <= k < |tail| ==> tail[k] == At(c, n + k)
  }

  /** The height of the shortest chain. */
  ghost predicate IsLowest(chains: seq<BlockChain>, n: nat) {
    && (forall i :: 0 <= i < |chains| ==> n < |chains[i]|)
    && exists i :: 0 <= i < |chains| && |chains[i]| == n + 1
  }

  /**
   * A stream read back to the first block that is low enough, or to its end: the
   * blocks read, oldest first, and what is left.
   */
  ghost predicate ReadsDown(stream: seq<Block>, min: nat, tail: seq<Block>, rest: seq<Block>) {
    && tail != [] && |tail| + |rest| == |stream|
    && (forall k :: 0 <= k < |tail| ==> tail[k] == stream[|tail| - 1 - k])
    && rest == stream[|tail|..]
    && (forall k :: 0 < k < |tail| ==> tail[k].num > min)
    && (tail[0].num <= min || rest == [])
  }

  /** Reads one stream back until its tail starts low enough; false if it runs dry before. */
  method ExtendTail(stream: seq<Block>, min: nat) returns (tail: seq<Block>, rest: seq<Block>, ok: bool)
    requires stream != []
    ensures ReadsDown(stream, min, tail, rest) && (ok <==> tail[0].num <= min)
  {
    tail, rest := [stream[0]], stream[1..];
    while tail[0].num > min
      invariant tail != [] && |tail| + |rest| == |stream| && rest == stream[|tail|..]
      invariant forall k :: 0 <= k < |tail| ==> tail[k] == stream[|tail| - 1 - k]
      invariant forall k :: 0 < k < |tail| ==> tail[k].num > min
      decreases |rest|
    {
      if rest == [] {
        return tail, rest, false;
      }
      tail := [rest[0]] + tail;
      rest := rest[1..];
    }
    return tail, rest, true;
  }

  /** The least number of a first block. */
  ghost predicate IsLeastHead(streams: Streams, min: nat) {
    && (exists i :: 0 <= i < |streams| && streams[i] != [] && streams[i][0].num == min)
    && (forall i :: 0 <= i < |streams| && streams[i] != [] ==> min <= streams[i][0].num)
  }

  /** The first blocks of the streams that have one. */
  method FirstBlocks(streams: Streams) returns (heads: seq<Block>, bad: seq<Peer>)
    ensures forall i: nat :: i in bad <==> i < |streams| && streams[i] == []
    ensures forall b :: b in heads <==> exists i :: 0 <= i < |streams| && streams[i] != [] && streams[i][0] == b
  {
    heads, bad := [], [];
    for i := 0 to |streams|
      invariant forall j: nat :: j in bad <==> j < i && streams[j] == []
      invariant forall b :: b in heads <==> exists j :: 0 <= j < i && streams[j] != [] && streams[j][0] == b
    {
      if streams[i] == [] {
        bad := bad + [i];
      } else {
        heads := heads + [streams[i][0]];
      }
    }
  }

  /** The tails, what is left of the streams, and the peers whose stream ran dry. */
  datatype Tails = Tails(min: nat, tails: seq<seq<Block>>, rest: Streams, bad: seq<Peer>)

  /** How one stream was read: not at all if it was dry from the start. */
  ghost predicate IsRead(stream: seq<Block>, min: nat, tail: seq<Block>, rest: seq<Block>, bad: bool) {
    if stream == [] then tail == [] && rest == [] && bad
    else ReadsDown(stream, min, tail, rest) && (bad <==> tail[0].num > min)
  }

  /** Reads all streams down to the least number of their first blocks; None if all are dry from the start. */
  method GetTails(streams: Streams) returns (r: Option<Tails>)
    ensures r.None? <==> forall i :: 0 <= i < |streams| ==> streams[i] == []
    ensures r.Some? ==>
      && IsLeastHead(streams, r.value.min) && |r.value.tails| == |streams| == |r.value.rest|
      && forall i: nat :: i < |streams| ==>
           IsRead(streams[i], r.value.min, r.value.tails[i], r.value.rest[i], i in r.value.bad)
  {
    var heads, dry := FirstBlocks(streams);
    if heads == [] {
      assert forall i :: 0 <= i < |streams| && streams[i] != [] ==> streams[i][0] in heads;
      return None;
    }
    assert heads[0] in heads;
    var min := MinNum(heads);
    assert IsLeastHead(streams, min);
    var tails: seq<seq<Block>>, rest: Streams, bad: seq<Peer> := [], [], dry;
    for i := 0 to |streams|
      invariant |tails| == i == |rest|
      invariant forall j: nat :: j < i ==> IsRead(streams[j], min, tails[j], rest[j], j in bad)
      invariant forall j: nat :: j >= i ==> (j in bad <==> j in dry)
    {
      if i in bad {
        tails, rest := tails + [[]], rest + [[]];
      } else {
        var tail, left, ok := ExtendTail(streams[i], min);
        if !ok {
          bad := bad + [i];
        }
        tails, rest := tails + [tail], rest + [left];
      }
    }
    return Some(Tails(min, tails, rest, bad));
  }

  /** The least number among some blocks. */
  method MinNum(blocks: seq<Block>) returns (min: nat)
    requires blocks != []
    ensures forall b <- blocks :: min <= b.num
    ensures exists b <- blocks :: b.num == min
  {
    min := blocks[0].num;
    for i := 1 to |blocks|
      invariant forall j :: 0 <= j < i ==> min <= blocks[j].num
      invariant exists b <- blocks :: b.num == min
    {
      if blocks[i].num < min {
        min := blocks[i].num;
      }
    }
  }

  lemma HeadNum(c: BlockChain)
    requires Linked(c)
    ensures c[0].num == |c| - 1
  {
    assert c[0] == At(c, |c| - 1);
  }

  /** Of whole chains the least first block is the head of the shortest one. */
  lemma LowestHead(chains: seq<BlockChain>, min: nat)
    requires Network(chains) && IsLeastHead(chains, min)
    ensures IsLowest(chains, min)
  {
    forall i | 0 <= i < |chains|
      ensures chains[i] != [] && chains[i][0].num == |chains[i]| - 1
    {
      assert Linked(chains[i]);
      HeadNum(chains[i]);
    }
  }

  /** A whole chain is read down to the wanted height and does not run dry. */
  lemma ReadDownIsTail(c: BlockChain, min: nat, tail: seq<Block>, rest: seq<Block>)
    requires Linked(c) && min < |c| && ReadsDown(c, min, tail, rest)
    ensures IsTail(tail, c, min) && rest == c[|c| - min..]
  {
    assert forall k :: 0 <= k < |tail| ==> tail[k] == At(c, |rest| + k) && tail[k].num == |rest| + k;
    assert tail[0].num == |rest|;
    if |tail| > 1 {
      assert tail[1].num == |rest| + 1;
    }
  }

  /** The tails of whole chains, from the height of the shortest one up, and the rest of them. */
  lemma TailsOfChains(chains: seq<BlockChain>, t: Tails)
    requires Network(chains) && IsLeastHead(chains, t.min) && |t.tails| == |chains| == |t.rest|
    requires forall i: nat :: i < |chains| ==> IsRead(chains[i], t.min, t.tails[i], t.rest[i], i in t.bad)
    ensures IsLowest(chains, t.min) && ReadTo(t.rest, chains, t.min)
    ensures forall i: nat :: i < |chains| ==> IsTail(t.tails[i], chains[i], t.min) && i !in t.bad
  {
    LowestHead(chains, t.min);
    forall i: nat | i < |chains|
      ensures IsTail(t.tails[i], chains[i], t.min) && t.rest[i] == chains[i][|chains[i]| - t.min..]
    {
      assert Linked(chains[i]) && IsRead(chains[i], t.min, t.tails[i], t.rest[i], i in t.bad);
      ReadDownIsTail(chains[i], t.min, t.tails[i], t.rest[i]);
    }
    forall i: nat | i < |chains|
      ensures i !in t.bad
    {
      assert IsRead(chains[i], t.min, t.tails[i], t.rest[i], i in t.bad) && t.tails[i][0] == At(chains[i], t.min);
      assert Linked(chains[i]);
    }
  }

  // Building the graph

  /** The first chain's lowest added block is the root, since it is added first at every height. */
  ghost predicate RootAt(root: Option<Block>, chains: seq<BlockChain>, n: nat) {
    chains != [] && n < |chains[0]| && root == Some(At(chains[0], n))
  }

  /** Stores the next block down one chain. */
  method AddNext(graph: ForkGraph, i: Peer, b: Block, ghost chains: seq<BlockChain>, ghost low: seq<nat>)
    requires graph.Valid() && Network(chains) && Recorded(graph.Contents(), chains, low)
    requires i < |chains| && Has(chains[i], b) && b.num + 1 == low[i]
    modifies graph, graph.graph.Values
    ensures graph.Valid() && fresh(graph.graph.Values - old(graph.graph.Values))
    ensures Recorded(graph.Contents(), chains, low[i := b.num])
    ensures graph.rootBlock == if old(graph.rootBlock).None? || old(graph.rootBlock).value.num > b.num
                               then Some(b) else old(graph.rootBlock)
  {
    RecordNext(graph.Contents(), chains, low, i, b);
    var ok := graph.AddBlock(i, b);
  }

  /** Stores one tail, newest block first. */
  method AddTail(graph: ForkGraph, i: Peer, tail: seq<Block>,
                 ghost chains: seq<BlockChain>, ghost low: seq<nat>, ghost n: nat)
    requires graph.Valid() && Network(chains) && Recorded(graph.Contents(), chains, low)
    requires i < |chains| && IsTail(tail, chains[i], n) && low[i] == |chains[i]|
    requires if i == 0 then graph.rootBlock.None? else RootAt(graph.rootBlock, chains, n)
    modifies graph, graph.graph.Values
    ensures graph.Valid() && fresh(graph.graph.Values - old(graph.graph.Values))
    ensures Recorded(graph.Contents(), chains, low[i := n])
    ensures RootAt(graph.rootBlock, chains, n)
  {
    ghost var now := low;
    assert Linked(chains[i]) && Linked(chains[0]);
    assert low[i := |chains[i]|] == low;
    for k := |tail| downto 0
      invariant graph.Valid() && fresh(graph.graph.Values - old(graph.graph.Values))
      invariant Recorded(graph.Contents(), chains, low[i := n + k])
      invariant if i == 0 && k == |tail| then graph.rootBlock.None?
                else RootAt(graph.rootBlock, chains, if i == 0 then n + k else n)
    {
      AddNext(graph, i, tail[k], chains, low[i := n + k + 1]);
      assert low[i := n + k + 1][i := n + k] == low[i := n + k];
    }
  }

  /** Heights down to which chains are stored when the first `i` have been dealt with. */
  ghost function Lows(chains: seq<BlockChain>, i: nat, n: nat, above: seq<nat>): (low: seq<nat>)
    requires |above| == |chains|
    ensures |low| == |chains| && forall j :: 0 <= j < |low| ==> low[j] == if j < i then n else above[j]
  {
    seq(|chains|, j requires 0 <= j < |chains| => if j < i then n else above[j])
  }

  ghost function Lengths(chains: seq<BlockChain>): (ls: seq<nat>)
    ensures |ls| == |chains| && forall j :: 0 <= j < |ls| ==> ls[j] == |chains[j]|
  {
    seq(|chains|, j requires 0 <= j < |chains| => |chains[j]|)
  }

  lemma NothingRecorded(chains: seq<BlockChain>)
    ensures Recorded(map[], chains, Lengths(chains))
  {
  }

  /** Stores all tails, chain by chain. */
  method AddTails(tails: seq<seq<Block>>, ghost chains: seq<BlockChain>, ghost n: nat) returns (graph: ForkGraph)
    requires Network(chains) && |tails| == |chains|
    requires forall i :: 0 <= i < |chains| ==> IsTail(tails[i], chains[i], n)
    ensures fresh(graph) && fresh(graph.graph.Values) && BuiltTo(graph, chains, n)
  {
    graph := new ForkGraph();
    ghost var ls := Lengths(chains);
    NothingRecorded(chains);
    assert Lows(chains, 0, n, ls) == ls;
    for i := 0 to |tails|
      invariant fresh(graph) && fresh(graph.graph.Values) && graph.Valid()
      invariant Recorded(graph.Contents(), chains, Lows(chains, i, n, ls))
      invariant if i == 0 then graph.rootBlock.None? else RootAt(graph.rootBlock, chains, n)
    {
      AddTail(graph, i, tails[i], chains, Lows(chains, i, n, ls), n);
      assert Lows(chains, i, n, ls)[i := n] == Lows(chains, i + 1, n, ls);
    }
    assert Lows(chains, |chains|, n, ls) == Level(|chains|, n);
  }

  lemma ReadOneMore(streams: Streams, rest: Streams, heads: seq<Block>, chains: seq<BlockChain>, n: nat)
    requires ReadTo(streams, chains, n) && n > 0 && |heads| == |streams| && |rest| == |streams|
    requires forall i :: 0 <= i < |streams| ==>
      streams[i] != [] && heads[i] == streams[i][0] && rest[i] == streams[i][1..]
    ensures ReadTo(rest, chains, n - 1)
    ensures forall i :: 0 <= i < |chains| ==> n < |chains[i]| && heads[i] == At(chains[i], n - 1)
  {
  }

  /** Stores one block of every chain, all at one height. */
  method AddHeads(graph: ForkGraph, heads: seq<Block>, ghost chains: seq<BlockChain>, ghost n: nat)
    requires Network(chains) && n > 0 && |heads| == |chains| && BuiltTo(graph, chains, n)
    requires forall i :: 0 <= i < |chains| ==> n < |chains[i]| && heads[i] == At(chains[i], n - 1)
    modifies graph, graph.graph.Values
    ensures BuiltTo(graph, chains, n - 1) && fresh(graph.graph.Values - old(graph.graph.Values))
  {
    ghost var above := Level(|chains|, n);
    assert Lows(chains, 0, n - 1, above) == above;
    assert forall i :: 0 <= i < |chains| ==> Linked(chains[i]);
    for i := 0 to |heads|
      invariant graph.Valid() && fresh(graph.graph.Values - old(graph.graph.Values))
      invariant Recorded(graph.Contents(), chains, Lows(chains, i, n - 1, above))
      invariant RootAt(graph.rootBlock, chains, if i == 0 then n else n - 1)
    {
      AddNext(graph, i, heads[i], chains, Lows(chains, i, n - 1, above));
      assert Lows(chains, i, n - 1, above)[i := n - 1] == Lows(chains, i + 1, n - 1, above);
    }
    assert Lows(chains, |chains|, n - 1, above) == Level(|chains|, n - 1);
  }

  method Idents(blocks: seq<Block>) returns (ids: seq<BlockId>)
    ensures |ids| == |blocks| && forall i :: 0 <= i < |ids| ==> ids[i] == blocks[i].ident
  {
    ids := seq(|blocks|, i requires 0 <= i < |blocks| => blocks[i].ident);
  }

  /** Whether the blocks at one height, one of each chain, are all the same block. */
  method AllSame(heads: seq<Block>, ghost chains: seq<BlockChain>, ghost n: nat) returns (same: bool)
    requires Network(chains) && |heads| == |chains|
    requires forall i :: 0 <= i < |chains| ==> n < |chains[i]| && heads[i] == At(chains[i], n)
    ensures same <==> Same(chains, n)
  {
    var ids := Idents(heads);
    same := CompareAcross(ids);
    if same {
      forall i | 0 <= i < |chains|
        ensures At(chains[i], n) == At(chains[0], n)
      {
        assert ids[i] == ids[0] && IdsAgree(chains[i], chains[0]);
      }
    }
  }

  /** All chains have the same block at this height, and not at the next one up to the lowest head. */
  ghost predicate Meets(chains: seq<BlockChain>, n: nat, lowest: nat) {
    Same(chains, n) && (n < lowest ==> !Same(chains, n + 1))
  }

  /** Chains that share a block share all blocks below it. */
  lemma {:induction false} SameBelow(chains: seq<BlockChain>, n: nat, m: nat)
    requires Network(chains) && Same(chains, n) && m <= n
    ensures Same(chains, m)
    decreases n
  {
    if m < n {
      forall i | 0 <= i < |chains|
        ensures At(chains[i], n - 1) == At(chains[0], n - 1)
      {
        assert Linked(chains[i]) && Linked(chains[0]);
        assert At(chains[i], n).previous == At(chains[i], n - 1).ident;
        assert At(chains[0], n).previous == At(chains[0], n - 1).ident;
        assert IdsAgree(chains[i], chains[0]);
      }
      SameBelow(chains, n - 1, m);
    }
  }

  /** What holds of the graph once every chain is stored down to a height. */
  ghost predicate BuiltTo(graph: ForkGraph, chains: seq<BlockChain>, n: nat)
    reads graph, graph.graph.Values
  {
    && graph.Valid() && RootAt(graph.rootBlock, chains, n)
    && Recorded(graph.Contents(), chains, Level(|chains|, n))
  }

  /** Every peer, in order. */
  function Everyone(n: nat): seq<Peer> {
    seq(n, i => i)
  }

  /**
   * The next block of every stream, and what is left. A stream that is dry is bad,
   * and the block read last, here or in an earlier round, stands for its block;
   * without any there is no result.
   */
  method ReadRound(streams: Streams, last: Option<Block>)
    returns (heads: Option<seq<Block>>, rest: Streams, bad: seq<Peer>)
    ensures (forall i :: 0 <= i < |streams| ==> streams[i] != []) ==>
      && bad == [] && heads.Some? && |heads.value| == |streams| == |rest|
      && forall i :: 0 <= i < |streams| ==> heads.value[i] == streams[i][0] && rest[i] == streams[i][1..]
    ensures streams != [] && (forall i :: 0 <= i < |streams| ==> streams[i] == []) ==>
      if last.None? then heads.None? else heads.Some? && bad == Everyone(|streams|)
  {
    var head, read := last, [];
    rest, bad := streams, [];
    for i := 0 to |streams|
      invariant |read| == i && |rest| == |streams|
      invariant forall j :: i <= j < |streams| ==> rest[j] == streams[j]
      invariant (forall j :: 0 <= j < |streams| ==> streams[j] != []) ==>
        bad == [] && forall j :: 0 <= j < i ==> read[j] == streams[j][0] && rest[j] == streams[j][1..]
      invariant (forall j :: 0 <= j < |streams| ==> streams[j] == []) ==>
        head == last && bad == Everyone(i) && (i > 0 ==> last.Some?)
    {
      if streams[i] == [] {
        bad := bad + [i];
        if head.None? {
          return None, rest, bad;
        }
      } else {
        head := Some(streams[i][0]);
        rest := rest[i := streams[i][1..]];
      }
      read := read + [head.value];
    }
    return Some(read), rest, bad;
  }

  datatype BuildError = NoHead

  /** Stores the blocks of one height and tells whether they are all the same. */
  method AddRound(graph: ForkGraph, streams: Streams, rest: Streams, heads: seq<Block>,
                  ghost chains: seq<BlockChain>, ghost n: nat) returns (same: bool)
    requires Network(chains) && ReadTo(streams, chains, n) && n > 0 && BuiltTo(graph, chains, n)
    requires |heads| == |streams| == |rest|
    requires forall i :: 0 <= i < |streams| ==>
      streams[i] != [] && heads[i] == streams[i][0] && rest[i] == streams[i][1..]
    modifies graph, graph.graph.Values
    ensures fresh(graph.graph.Values - old(graph.graph.Values))
    ensures ReadTo(rest, chains, n - 1) && BuiltTo(graph, chains, n - 1)
    ensures same <==> Same(chains, n - 1)
  {
    ReadOneMore(streams, rest, heads, chains, n);
    AddHeads(graph, heads, chains, n);
    same := AllSame(heads, chains, n - 1);
  }

  /** Streams read to a height are all dry, or none is. */
  lemma DryTogether(streams: Streams, chains: seq<BlockChain>, n: nat)
    requires ReadTo(streams, chains, n)
    ensures if n == 0 then forall i :: 0 <= i < |streams| ==> streams[i] == []
            else forall i :: 0 <= i < |streams| ==> streams[i] != []
  {
  }

  /** One step back of all chains, or the end of all of them. */
  datatype Round = Stepped(same: bool, rest: Streams, head: Block) | Dry(r: Outcome<seq<Peer>, BuildError>)

  /** All chains are stored and read down to a height, and did not meet above it. */
  ghost predicate Walking(graph: ForkGraph, rest: Streams, last: Option<Block>, chains: seq<BlockChain>,
                          n: nat, lowest: nat)
    reads graph, graph.graph.Values
  {
    && n <= lowest && ReadTo(rest, chains, n) && BuiltTo(graph, chains, n)
    && (n < lowest ==> !Same(chains, n + 1)) && (last.None? <==> n == lowest)
  }

  method StepBack(streams: Streams, last: Option<Block>, graph: ForkGraph,
                  ghost chains: seq<BlockChain>, ghost n: nat, ghost lowest: nat)
    returns (round: Round)
    requires Network(chains) && Walking(graph, streams, last, chains, n, lowest) && !Same(chains, n)
    modifies graph, graph.graph.Values
    ensures fresh(graph.graph.Values - old(graph.graph.Values))
    ensures n == 0 <==> round.Dry?
    ensures round.Dry? ==> round.r == if lowest == 0 then Err(NoHead) else Ok(Everyone(|chains|))
    ensures round.Stepped? ==> Walking(graph, round.rest, Some(round.head), chains, n - 1, lowest)
    ensures round.Stepped? ==> (round.same <==> Same(chains, n - 1))
  {
    DryTogether(streams, chains, n);
    var heads, rest, bad := ReadRound(streams, last);
    if heads.None? {
      return Dry(Err(NoHead));
    }
    if bad != [] {
      return Dry(Ok(bad));
    }
    var same := AddRound(graph, streams, rest, heads.value, chains, n);
    return Stepped(same, rest, heads.value[|heads.value| - 1]);
  }

  /**
   * Steps all chains back together, storing the blocks, until they meet. Chains
   * that never meet run dry together, and everyone is reported.
   */
  method WalkBack(streams: Streams, graph: ForkGraph, ghost chains: seq<BlockChain>, ghost lowest: nat)
    returns (r: Outcome<seq<Peer>, BuildError>, ghost n: nat)
    requires Network(chains) && ReadTo(streams, chains, lowest)
    requires BuiltTo(graph, chains, lowest) && !Same(chains, lowest)
    modifies graph, graph.graph.Values
    ensures r == Ok([]) ==> BuiltTo(graph, chains, n) && n <= lowest && Meets(chains, n, lowest)
    ensures r != Ok([]) ==> !Same(chains, 0) && r == if lowest == 0 then Err(NoHead) else Ok(Everyone(|chains|))
  {
    n := lowest;
    var rest, last, same := streams, None, false;
    while !same
      invariant Walking(graph, rest, last, chains, n, lowest) && same == Same(chains, n)
      invariant fresh(graph.graph.Values - old(graph.graph.Values))
      decreases n
    {
      var round := StepBack(rest, last, graph, chains, n, lowest);
      if round.Dry? {
        return round.r, n;
      }
      rest, last, same := round.rest, Some(round.head), round.same;
      n := n - 1;
    }
    return Ok([]), n;
  }

  /**
   * The graph records every block of every chain down to the highest block all
   * chains share, lists exactly the peers that have it, once each, and has that
   * highest common block as its root.
   */
  ghost predicate IsForkGraph(graph: ForkGraph, chains: seq<BlockChain>)
    reads graph, graph.graph.Values
  {
    && graph.Valid() && graph.rootBlock.Some?
    && IsCommonAncestor(chains, graph.rootBlock.value)
    && Recorded(graph.Contents(), chains, Level(|chains|, graph.rootBlock.value.num))
    && Levelled(graph.Contents(), graph.rootBlock.value.previous)
  }

  /**
   * Builds the fork graph from the tails and what is left of the streams. Whole
   * chains that share no block are all reported, or stop the search where the
   * shortest is a genesis block alone.
   */
  method BuildForkGraph(streams: Streams, tails: seq<seq<Block>>, ghost chains: seq<BlockChain>, ghost lowest: nat)
    returns (graph: ForkGraph, r: Outcome<seq<Peer>, BuildError>)
    requires Network(chains) && |tails| == |chains| && IsLowest(chains, lowest) && ReadTo(streams, chains, lowest)
    requires forall i: nat :: i < |chains| ==> IsTail(tails[i], chains[i], lowest)
    ensures fresh(graph) && (r == Ok([]) <==> Same(chains, 0))
    ensures r == Ok([]) ==> IsForkGraph(graph, chains)
    ensures r != Ok([]) ==> r == if lowest == 0 then Err(NoHead) else Ok(Everyone(|chains|))
  {
    ghost var n := lowest;
    graph := AddTails(tails, chains, n);
    var oldest := Oldest(tails);
    var same := AllSame(oldest, chains, n);
    r := Ok([]);
    if !same {
      r, n := WalkBack(streams, graph, chains, n);
    }
    if r == Ok([]) {
      SameBelow(chains, n, 0);
      Finished(graph, chains, n, lowest);
    }
  }

  lemma Finished(graph: ForkGraph, chains: seq<BlockChain>, n: nat, lowest: nat)
    requires Network(chains) && BuiltTo(graph, chains, n) && IsLowest(chains, lowest)
    requires n <= lowest && Meets(chains, n, lowest)
    ensures IsForkGraph(graph, chains)
  {
    assert Linked(chains[0]);
    forall k | n < k <= lowest
      ensures !Same(chains, k)
    {
      if Same(chains, k) {
        SameBelow(chains, k, n + 1);
      }
    }
    FirstSameIsCommonAncestor(chains, n, lowest);
    RecordedIsLevelled(graph.Contents(), chains, n);
  }

  method Oldest(tails: seq<seq<Block>>) returns (blocks: seq<Block>)
    requires forall i :: 0 <= i < |tails| ==> tails[i] != []
    ensures |blocks| == |tails| && forall i :: 0 <= i < |tails| ==> blocks[i] == tails[i][0]
  {
    blocks := seq(|tails|, i requires 0 <= i < |tails| && tails[i] != [] => tails[i][0]);
  }

  /** Whether all keys are equal. */
  method CompareAcross(keys: seq<BlockId>) returns (equal: bool)
    ensures equal <==> forall i, j :: 0 <= i < |keys| && 0 <= j < |keys| ==> keys[i] == keys[j]
  {
    if |keys| < 2 {
      return true;
    }
    for i := 1 to |keys|
      invariant forall j :: 0 <= j < i ==> keys[j] == keys[0]
    {
      if keys[i] != keys[0] {
        return false;
      }
    }
    return true;
  }

  /**
   * The whole comparison succeeds if and only if the chains share their genesis
   * block. The walk of the finished graph yields every node once, level by level,
   * and each of its blocks lists exactly the peers whose chain contains it, once each.
   */
  method CompareChains(chains: seq<BlockChain>) returns (r: Option<(Block, seq<Node>)>)
    requires Network(chains)
    ensures r.Some? <==> Same(chains, 0)
    ensures r.Some? ==>
      var (root, yielded) := r.value;
      && IsCommonAncestor(chains, root) && ListsExactly(chains, root, yielded)
      && forall i, j :: 0 <= i < j < |yielded| ==> yielded[i].num <= yielded[j].num
  {
    assert Linked(chains[0]);
    var t := GetTails(chains);
    TailsOfChains(chains, t.value);
    var graph, built := BuildForkGraph(t.value.rest, t.value.tails, chains, t.value.min);
    if built != Ok([]) {
      return None;
    }
    var yielded := ShowGraph(graph, chains);
    return Some((graph.rootBlock.value, yielded));
  }

  method ShowGraph(graph: ForkGraph, ghost chains: seq<BlockChain>) returns (yielded: seq<Node>)
    requires Network(chains) && IsForkGraph(graph, chains)
    ensures ListsExactly(chains, graph.rootBlock.value, yielded)
    ensures forall i, j :: 0 <= i < j < |yielded| ==> yielded[i].num <= yielded[j].num
  {
    var walked := Walk(graph, None);
    yielded := walked.value;
    WalkListsExactly(graph.Contents(), chains, graph.rootBlock.value, yielded);
  }

  /** Some yielded node lists the peer under the block. */
  predicate Shows(yielded: seq<Node>, peer: Peer, b: Block) {
    exists i :: 0 <= i < |yielded| && ShowsAt(yielded[i], peer, b)
  }

  predicate ShowsAt(node: Node, peer: Peer, b: Block) {
    && node.num == b.num && node.previous == b.previous
    && b.ident in node.siblings && peer in node.siblings[b.ident]
  }

  ghost predicate ListsExactly(chains: seq<BlockChain>, root: Block, yielded: seq<Node>) {
    && (forall peer: Peer, b: Block ::
          Shows(yielded, peer, b) <==> peer < |chains| && b in chains[peer] && b.num >= root.num)
    && (forall i, j :: 0 <= i < j < |yielded| ==> yielded[i].previous != yielded[j].previous)
    && (forall i, id :: 0 <= i < |yielded| && id in yielded[i].siblings ==> Distinct(yielded[i].siblings[id]))
  }

  lemma WalkListsExactly(nodes: Nodes, chains: seq<BlockChain>, root: Block, yielded: seq<Node>)
    requires Network(chains) && Levelled(nodes, root.previous) && IsWalk(nodes, root.previous, yielded)
    requires Recorded(nodes, chains, Level(|chains|, root.num))
    ensures ListsExactly(chains, root, yielded)
  {
    forall peer: Peer, b: Block
      ensures Shows(yielded, peer, b) <==> peer < |chains| && b in chains[peer] && b.num >= root.num
    {
      ShownIsListed(nodes, root.previous, yielded, peer, b);
      assert Listed(nodes, peer, b) <==> Added(chains, Level(|chains|, root.num), peer, b);
      if peer < |chains| {
        HasIsIn(chains[peer], b);
      }
    }
  }

  /** The walk from the root shows exactly what the graph lists. */
  lemma ShownIsListed(nodes: Nodes, root: BlockId, yielded: seq<Node>, peer: Peer, b: Block)
    requires Levelled(nodes, root) && IsWalk(nodes, root, yielded)
    ensures Shows(yielded, peer, b) <==> Listed(nodes, peer, b)
  {
    if Listed(nodes, peer, b) {
      AllDescend(nodes, root, b.previous);
      assert Yields(yielded, b.previous);
    }
  }
}
