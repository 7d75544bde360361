/** Block stores that hold exactly one chain of blocks. */
module ChainStores {
  import opened Options
  import opened Indexes
  import opened Blockstores

  /** The parent id of the first block of a chain. */
  const NullId: BlockId := "0000000000000000"

  /** Linked blocks, oldest first, with rising numbers. */
  ghost predicate IsChain(chain: seq<StoredBlock>) {
    && (forall i :: 0 <= i < |chain| ==> chain[i].id != NullId)
    && (chain != [] ==> chain[0].previous == NullId)
    && (forall i, j :: 0 <= i < j < |chain| && j == i + 1 ==> chain[j].previous == chain[i].id)
    && (forall i, j :: 0 <= i < j < |chain| ==> chain[i].id != chain[j].id && chain[i].num < chain[j].num)
  }

  ghost predicate AllTidy(blocks: seq<StoredBlock>) {
    forall i :: 0 <= i < |blocks| ==> Tidy(blocks[i])
  }

  ghost predicate FoundAt(blocks: seq<StoredBlock>, id: BlockId, k: int) {
    0 <= k < |blocks| && blocks[k].id == id
  }

  /** The table holds exactly these blocks. */
  ghost predicate Holds(main: map<BlockId, StoredBlock>, blocks: seq<StoredBlock>) {
    && (forall i :: 0 <= i < |blocks| ==> blocks[i].id in main && main[blocks[i].id] == blocks[i])
    && (forall id <- main :: exists i :: FoundAt(blocks, id, i))
  }

  /** The store holds one chain, with exact indexes. */
  ghost predicate StoreIs(s: Store, chain: seq<StoredBlock>) {
    IsChain(chain) && AllTidy(chain) && ExactStore(s) && Holds(s.main, chain)
  }

  /** The last entry of the number index refers to this block. */
  ghost predicate PointsToHead(s: Store, head: BlockId) {
    exists key :: ByteOrder.IsLast(s.nums.Keys, key) && s.nums[key] == head
  }

  // The same stores, built block by block

  /** The store after putting the blocks into an empty store, oldest first. */
  function StoreOf(chain: seq<StoredBlock>): Store {
    if chain == [] then EmptyStore
    else PutBlock(StoreOf(chain[..|chain| - 1]), chain[|chain| - 1])
  }

  /** The block continues a chain that is stored. */
  ghost predicate Extends(s: Store, chain: seq<StoredBlock>, b: StoredBlock) {
    && Tidy(b) && Fits(s, b)
    && b.id != NullId && b.id !in s.main
    && if chain == [] then b.previous == NullId
       else b.previous == chain[|chain| - 1].id && chain[|chain| - 1].num < b.num
  }

  /** Every block continues the ones before it. */
  ghost predicate Storable(chain: seq<StoredBlock>) {
    chain == []
    || (var rest := chain[..|chain| - 1];
        Storable(rest) && Extends(StoreOf(rest), rest, chain[|chain| - 1]))
  }

  lemma SameStore(s: Store, t: Store)
    requires ExactStore(s) && ExactStore(t) && s.main == t.main
    ensures s == t
  {
    ExactIsUnique(s.main, s.nums, t.nums, NumKeys);
    ExactIsUnique(s.main, s.txns, t.txns, TxnKeys);
    ExactIsUnique(s.main, s.batches, t.batches, BatchKeys);
  }

  lemma PutThenDelete(s: Store, b: StoredBlock, s': Store)
    requires ExactStore(s) && Fits(s, b) && Tidy(b) && b.id !in s.main && s' == PutBlock(s, b)
    ensures DeleteBlock(s', b.id).1 == Ok(()) && ExactStore(DeleteBlock(s', b.id).0)
    ensures DeleteBlock(s', b.id).0.main == s.main
  {
    PutKeepsStore(s, b);
    DeleteKeepsStore(s', b.id);
    PutThenRemove(s.main, b.id, b);
  }

  /** Deleting a block undoes putting it. */
  lemma DeleteUndoesPut(s: Store, b: StoredBlock)
    requires ExactStore(s) && Fits(s, b) && Tidy(b) && b.id !in s.main
    ensures DeleteBlock(PutBlock(s, b), b.id) == (s, Ok(()))
  {
    var s' := PutBlock(s, b);
    PutThenDelete(s, b, s');
    SameStore(s, DeleteBlock(s', b.id).0);
  }

  /** Every block of the store has at most the number of the newest one. */
  ghost predicate Tops(main: map<BlockId, StoredBlock>, chain: seq<StoredBlock>) {
    if chain == [] then main == map[]
    else
      var newest := chain[|chain| - 1];
      newest.id in main && main[newest.id] == newest && forall id <- main :: main[id].num <= newest.num
  }

  lemma {:induction false} StorableIsExact(chain: seq<StoredBlock>)
    requires Storable(chain)
    ensures ExactStore(StoreOf(chain)) && Tops(StoreOf(chain).main, chain)
  {
    if chain != [] {
      var rest, b := chain[..|chain| - 1], chain[|chain| - 1];
      StorableIsExact(rest);
      PutKeepsStore(StoreOf(rest), b);
    }
  }

  lemma HeadIsNewest(chain: seq<StoredBlock>, head: BlockId)
    requires Storable(chain) && PointsToHead(StoreOf(chain), head)
    ensures chain != [] && head == chain[|chain| - 1].id
    ensures Lookup(StoreOf(chain).main, head) == Some(chain[|chain| - 1])
  {
    var s := StoreOf(chain);
    StorableIsExact(chain);
    var key :| ByteOrder.IsLast(s.nums.Keys, key) && s.nums[key] == head;
    LastKeyIsHead(s, key);
  }

  lemma EmptyChain(chain: seq<StoredBlock>)
    requires Storable(chain)
    ensures chain == [] <==> StoreOf(chain).nums == map[]
  {
    if chain != [] {
      StorableIsExact(chain);
      BlocksHaveKeys(StoreOf(chain));
    }
  }

  /** Deleting the newest block leaves the rest of the chain. */
  lemma DeleteNewest(chain: seq<StoredBlock>, n: nat)
    requires Storable(chain) && |chain| == n + 1
    ensures Storable(chain[..n])
    ensures DeleteBlock(StoreOf(chain), chain[n].id) == (StoreOf(chain[..n]), Ok(()))
  {
    StorableIsExact(chain[..n]);
    DeleteUndoesPut(StoreOf(chain[..n]), chain[n]);
  }

  lemma {:induction false} PrefixIsStorable(chain: seq<StoredBlock>, n: nat)
    requires Storable(chain) && n <= |chain|
    ensures Storable(chain[..n])
    decreases |chain| - n
  {
    if n == |chain| {
      assert chain[..n] == chain;
    } else {
      PrefixIsStorable(chain, n + 1);
      assert chain[..n + 1][..n] == chain[..n];
    }
  }

  // Being stored block by block is the same as holding exactly one chain

  lemma AppendIsChain(chain: seq<StoredBlock>, b: StoredBlock)
    requires IsChain(chain) && b.id != NullId && forall i :: 0 <= i < |chain| ==> chain[i].id != b.id
    requires if chain == [] then b.previous == NullId
             else b.previous == chain[|chain| - 1].id && chain[|chain| - 1].num < b.num
    ensures IsChain(chain + [b])
  {
  }

  lemma HoldsMore(main: map<BlockId, StoredBlock>, chain: seq<StoredBlock>, b: StoredBlock)
    requires Holds(main, chain) && b.id !in main
    ensures Holds(main[b.id := b], chain + [b])
  {
    var longer, main' := chain + [b], main[b.id := b];
    forall id | id in main'
      ensures exists i :: FoundAt(longer, id, i)
    {
      if id == b.id {
        assert FoundAt(longer, id, |chain|);
      } else {
        var i :| FoundAt(chain, id, i);
        assert FoundAt(longer, id, i);
      }
    }
  }

  lemma {:induction false} StorableIsChain(chain: seq<StoredBlock>)
    requires Storable(chain)
    ensures IsChain(chain) && Holds(StoreOf(chain).main, chain)
  {
    if chain != [] {
      var rest, b := chain[..|chain| - 1], chain[|chain| - 1];
      SplitLast(chain);
      StorableIsChain(rest);
      AppendIsChain(rest, b);
      HoldsMore(StoreOf(rest).main, rest, b);
    }
  }

  lemma {:induction false} StorableIsTidy(chain: seq<StoredBlock>)
    requires Storable(chain)
    ensures AllTidy(chain)
  {
    if chain != [] {
      SplitLast(chain);
      StorableIsTidy(chain[..|chain| - 1]);
    }
  }

  lemma PrefixIsChain(chain: seq<StoredBlock>, n: nat)
    requires IsChain(chain) && n <= |chain|
    ensures IsChain(chain[..n])
  {
  }

  lemma HoldsRest(main: map<BlockId, StoredBlock>, chain: seq<StoredBlock>, n: nat)
    requires IsChain(chain) && Holds(main, chain) && |chain| == n + 1
    ensures Holds(main - {chain[n].id}, chain[..n])
  {
    var rest := chain[..n];
    forall id | id in main - {chain[n].id}
      ensures exists i :: FoundAt(rest, id, i)
    {
      var i :| FoundAt(chain, id, i);
      assert FoundAt(rest, id, i);
    }
  }

  lemma RestIsStored(s: Store, chain: seq<StoredBlock>, n: nat)
    requires StoreIs(s, chain) && |chain| == n + 1
    ensures StoreIs(DeleteBlock(s, chain[n].id).0, chain[..n])
  {
    var newest := chain[n];
    assert s.main[newest.id] == newest;
    DeleteKeepsStore(s, newest.id);
    PrefixIsChain(chain, n);
    HoldsRest(s.main, chain, n);
  }

  /** Putting back a deleted block undoes deleting it. */
  lemma PutUndoesDelete(s: Store, b: StoredBlock)
    requires ExactStore(s) && b.id in s.main && s.main[b.id] == b && Tidy(b)
    ensures Fits(DeleteBlock(s, b.id).0, b) && PutBlock(DeleteBlock(s, b.id).0, b) == s
  {
    var s' := DeleteBlock(s, b.id).0;
    DeleteKeepsStore(s, b.id);
    ExactIsFree(s.main, s.nums, NumKeys, b.id);
    ExactIsFree(s.main, s.txns, TxnKeys, b.id);
    ExactIsFree(s.main, s.batches, BatchKeys, b.id);
    PutKeepsStore(s', b);
    RemoveThenPut(s.main, b.id);
    SameStore(s, PutBlock(s', b));
  }

  lemma {:induction false} ChainIsStorable(s: Store, chain: seq<StoredBlock>)
    requires StoreIs(s, chain)
    ensures Storable(chain) && StoreOf(chain) == s
    decreases |chain|
  {
    if chain == [] {
      SameStore(s, EmptyStore);
    } else {
      var n := |chain| - 1;
      var b := chain[n];
      RestIsStored(s, chain, n);
      ChainIsStorable(DeleteBlock(s, b.id).0, chain[..n]);
      PutUndoesDelete(s, b);
      assert n > 0 ==> chain[n].previous == chain[n - 1].id;
      DeleteKeepsStore(s, b.id);
    }
  }

  /** A store holds exactly one chain, with exact indexes, if and only if it was built block by block. */
  lemma StoredIsStorable(s: Store, chain: seq<StoredBlock>)
    ensures StoreIs(s, chain) <==> Storable(chain) && s == StoreOf(chain)
  {
    if StoreIs(s, chain) {
      ChainIsStorable(s, chain);
    }
    if Storable(chain) {
      StorableIsExact(chain);
      StorableIsChain(chain);
      StorableIsTidy(chain);
    }
  }

  // Climbing from a block to its parent

  /** After at most so many steps comes the start of a chain, or a block that is not stored. */
  ghost predicate EndsWithin(main: map<BlockId, StoredBlock>, id: BlockId, n: nat)
    decreases n
  {
    id == NullId || id !in main || (n > 0 && EndsWithin(main, main[id].previous, n - 1))
  }

  /** The climb is not caught in a cycle of parents. */
  ghost predicate Ends(main: map<BlockId, StoredBlock>, id: BlockId) {
    exists n: nat :: EndsWithin(main, id, n)
  }

  lemma {:induction false} EndsLater(main: map<BlockId, StoredBlock>, id: BlockId, n: nat, m: nat)
    requires EndsWithin(main, id, n) && n <= m
    ensures EndsWithin(main, id, m)
    decreases n
  {
    if id != NullId && id in main {
      EndsLater(main, main[id].previous, n - 1, m - 1);
    }
  }

  ghost function LeastWithin(main: map<BlockId, StoredBlock>, id: BlockId, n: nat): (least: nat)
    requires EndsWithin(main, id, n)
    ensures EndsWithin(main, id, least) && (least > 0 ==> !EndsWithin(main, id, least - 1))
    decreases n
  {
    if n > 0 && EndsWithin(main, id, n - 1) then LeastWithin(main, id, n - 1) else n
  }

  /** The number of steps the climb takes. */
  ghost function Height(main: map<BlockId, StoredBlock>, id: BlockId): (n: nat)
    requires Ends(main, id)
    ensures EndsWithin(main, id, n) && (n > 0 ==> !EndsWithin(main, id, n - 1))
  {
    var n: nat :| EndsWithin(main, id, n);
    LeastWithin(main, id, n)
  }

  lemma StepLowers(main: map<BlockId, StoredBlock>, id: BlockId)
    requires Ends(main, id) && id != NullId && id in main
    ensures Ends(main, main[id].previous) && Height(main, main[id].previous) < Height(main, id)
  {
    var up := main[id].previous;
    assert EndsWithin(main, up, Height(main, id) - 1);
    var h := Height(main, up);
    if Height(main, id) <= h {
      EndsLater(main, up, Height(main, id) - 1, h - 1);
    }
  }

  lemma {:induction false} ChainEnds(main: map<BlockId, StoredBlock>, chain: seq<StoredBlock>, n: nat)
    requires IsChain(chain) && Holds(main, chain) && n < |chain|
    ensures EndsWithin(main, chain[n].id, n + 1)
  {
    if n > 0 {
      assert chain[n].previous == chain[n - 1].id;
      ChainEnds(main, chain, n - 1);
    }
  }

  /** In a stored chain every climb ends. */
  lemma StorableEnds(chain: seq<StoredBlock>, id: BlockId)
    requires Storable(chain)
    ensures Ends(StoreOf(chain).main, id)
  {
    var main := StoreOf(chain).main;
    StorableIsChain(chain);
    if id in main {
      var i :| FoundAt(chain, id, i);
      ChainEnds(main, chain, i);
    } else {
      assert EndsWithin(main, id, 0);
    }
  }
}
