/** The commands that shorten and extend a stored chain. */
module BlockstoreCommands {
  import opened Options
  import opened Blockstores
  import opened ChainStores

  datatype CliError = ArgumentError | EnvironmentError

  // Prune

  lemma DeleteShrinks(s: Store, id: BlockId)
    requires DeleteBlock(s, id).1.Ok?
    ensures |DeleteBlock(s, id).0.main| < |s.main|
  {
    var s' := DeleteBlock(s, id).0;
    var gone := s.main[id].id;
    assert s'.main.Keys == s.main.Keys - {gone};
  }

  /** Deletes from a block downward until the named block is gone. */
  function PruneFrom(s: Store, current: StoredBlock, id: BlockId): (Store, Outcome<(), CliError>)
    decreases |s.main|
  {
    var (s', deleted) := DeleteBlock(s, current.id);
    if deleted.Err? then (s', Err(EnvironmentError))
    else if current.id == id then (s', Ok(()))
    else if current.previous !in s'.main then (s', Err(EnvironmentError))
    else
      DeleteShrinks(s, current.id);
      PruneFrom(s', s'.main[current.previous], id)
  }

  /** What pruning a block does to a store. */
  ghost predicate IsPrune(s: Store, id: BlockId, s': Store, r: Outcome<(), CliError>) {
    if id !in s.main then s' == s && r == Err(ArgumentError)
    else if s.nums == map[] then s' == s && r == Err(EnvironmentError)
    else
      exists head ::
        && PointsToHead(s, head)
        && (s', r) == if head in s.main then PruneFrom(s, s.main[head], id) else (s, Err(EnvironmentError))
  }

  method Prune(store: Blockstore, id: BlockId) returns (r: Outcome<(), CliError>)
    modifies store
    ensures IsPrune(old(store.View()), id, store.View(), r)
  {
    ghost var s := store.View();
    var named := store.Get(id);
    if named.Err? {
      return Err(ArgumentError);
    }
    var head := store.GetChainHead();
    if head.Err? {
      return Err(EnvironmentError);
    }
    assert PointsToHead(s, head.value);
    var found := store.Get(head.value);
    if found.Err? {
      return Err(EnvironmentError);
    }
    var current := found.value;
    while true
      invariant PruneFrom(store.View(), current, id) == PruneFrom(s, s.main[head.value], id)
      decreases |store.main|
    {
      if DeleteBlock(store.View(), current.id).1.Ok? {
        DeleteShrinks(store.View(), current.id);
      }
      var deleted := store.Delete(current.id);
      if deleted.Err? {
        return Err(EnvironmentError);
      }
      if current.id == id {
        return Ok(());
      }
      var parent := store.Get(current.previous);
      if parent.Err? {
        return Err(EnvironmentError);
      }
      current := parent.value;
    }
  }

  lemma PruneStep(chain: seq<StoredBlock>, n: nat, id: BlockId)
    requires Storable(chain) && |chain| == n + 2 && id != chain[n + 1].id
    ensures PruneFrom(StoreOf(chain), chain[n + 1], id) == PruneFrom(StoreOf(chain[..n + 1]), chain[n], id)
  {
    var rest := chain[..n + 1];
    DeleteNewest(chain, n + 1);
    StorableIsExact(rest);
    assert rest[n] == chain[n] && Extends(StoreOf(rest), rest, chain[n + 1]);
  }

  lemma DistinctIds(chain: seq<StoredBlock>, i: nat, j: nat)
    requires Storable(chain) && i < j < |chain|
    ensures chain[i].id != chain[j].id
  {
    StorableIsChain(chain);
  }

  /** From the newest block of a chain, pruning a block leaves its proper ancestors. */
  lemma {:induction false} PruneFromNewest(chain: seq<StoredBlock>, n: nat, k: nat)
    requires Storable(chain) && |chain| == n + 1 && k <= n
    ensures PruneFrom(StoreOf(chain), chain[n], chain[k].id) == (StoreOf(chain[..k]), Ok(()))
    decreases n
  {
    DeleteNewest(chain, n);
    if k < n {
      var rest := chain[..n];
      assert rest[..k] == chain[..k];
      DistinctIds(chain, k, n);
      PruneStep(chain, n - 1, chain[k].id);
      PruneFromNewest(rest, n - 1, k);
    }
  }

  lemma PruneFromHead(s: Store, chain: seq<StoredBlock>, k: nat, id: BlockId, head: BlockId)
    requires Storable(chain) && s == StoreOf(chain) && k < |chain| && chain[k].id == id && PointsToHead(s, head)
    ensures head in s.main && PruneFrom(s, s.main[head], id) == (StoreOf(chain[..k]), Ok(()))
  {
    HeadIsNewest(chain, head);
    PruneFromNewest(chain, |chain| - 1, k);
  }

  /**
   * Pruning a block of a chain leaves exactly its proper ancestors, with exact
   * indexes; pruning a block that is not stored changes nothing.
   */
  lemma PruneLeavesAncestors(chain: seq<StoredBlock>, id: BlockId, s': Store, r: Outcome<(), CliError>)
    requires Storable(chain) && IsPrune(StoreOf(chain), id, s', r)
    ensures forall k :: FoundAt(chain, id, k) ==> r == Ok(()) && s' == StoreOf(chain[..k])
    ensures (forall k :: !FoundAt(chain, id, k)) ==> r == Err(ArgumentError) && s' == StoreOf(chain)
  {
    var s := StoreOf(chain);
    StorableIsChain(chain);
    EmptyChain(chain);
    forall k | FoundAt(chain, id, k)
      ensures r == Ok(()) && s' == StoreOf(chain[..k])
    {
      forall head | PointsToHead(s, head)
        ensures head in s.main && PruneFrom(s, s.main[head], id) == (StoreOf(chain[..k]), Ok(()))
      {
        PruneFromHead(s, chain, k, id, head);
      }
    }
  }

  // Import

  /** What importing a block does to a store. */
  ghost predicate IsImport(s: Store, b: StoredBlock, s': Store, r: Outcome<(), CliError>) {
    if s.nums == map[] then s' == PutBlock(s, b) && r == Ok(())
    else
      exists head ::
        && PointsToHead(s, head)
        && (s', r) == if b.previous == head then (PutBlock(s, b), Ok(())) else (s, Err(ArgumentError))
  }

  method Import(store: Blockstore, b: StoredBlock) returns (r: Outcome<(), CliError>)
    modifies store
    ensures IsImport(old(store.View()), b, store.View(), r)
  {
    var head := store.GetChainHead();
    if head.Ok? {
      assert PointsToHead(store.View(), head.value);
      if b.previous != head.value {
        return Err(ArgumentError);
      }
    }
    store.Put(b);
    return Ok(());
  }

  /** What the command leaves unchecked. */
  ghost predicate Unchecked(chain: seq<StoredBlock>, b: StoredBlock) {
    var s := StoreOf(chain);
    && Tidy(b) && Fits(s, b)
    && b.id != NullId && b.id !in s.main
    && if chain == [] then b.previous == NullId else chain[|chain| - 1].num < b.num
  }

  /**
   * Import accepts exactly the children of the newest block (any block into an
   * empty store). An accepted import stores the chain extended by that block if
   * and only if the block meets what the command leaves unchecked.
   */
  lemma ImportExtends(chain: seq<StoredBlock>, b: StoredBlock, s': Store, r: Outcome<(), CliError>)
    requires Storable(chain) && IsImport(StoreOf(chain), b, s', r)
    ensures r.Ok? <==> chain == [] || b.previous == chain[|chain| - 1].id
    ensures r.Err? ==> r == Err(ArgumentError) && s' == StoreOf(chain)
    ensures r.Ok? ==> (StoreIs(s', chain + [b]) <==> Unchecked(chain, b))
  {
    EmptyChain(chain);
    forall head | PointsToHead(StoreOf(chain), head)
      ensures chain != [] && head == chain[|chain| - 1].id
    {
      HeadIsNewest(chain, head);
    }
    assert (chain + [b])[..|chain|] == chain;
    StoredIsStorable(s', chain + [b]);
  }

  /** An empty store accepts a block whose parent is not the start of a chain, and then holds no chain. */
  lemma ImportOfOrphan(b: StoredBlock)
    requires b.previous != NullId
    ensures IsImport(EmptyStore, b, PutBlock(EmptyStore, b), Ok(()))
    ensures forall chain :: !StoreIs(PutBlock(EmptyStore, b), chain)
  {
    var s := PutBlock(EmptyStore, b);
    forall chain
      ensures !StoreIs(s, chain)
    {
      assert b.id in s.main;
    }
  }
}
