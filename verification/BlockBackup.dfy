/** Backup of a stored chain to a file, and restore from it. */
module BlockBackup {
  import opened Options
  import opened Indexes
  import opened Blockstores
  import opened ChainStores
  import opened BlockstoreCommands

  // Backup

  /** The blocks written when climbing from a block to the start of its chain. */
  ghost function BackupFrom(main: map<BlockId, StoredBlock>, current: BlockId)
    : (seq<StoredBlock>, Outcome<(), CliError>)
    requires Ends(main, current)
    decreases Height(main, current)
  {
    if current == NullId then ([], Ok(()))
    else if current !in main then ([], Err(EnvironmentError))
    else
      StepLowers(main, current);
      var (rest, r) := BackupFrom(main, main[current].previous);
      ([main[current]] + rest, r)
  }

  /** The climb from the given block, or from the newest one, ends. */
  ghost predicate BackupEnds(s: Store, start: Option<BlockId>) {
    match start
    case Some(id) => Ends(s.main, id)
    case None => forall head :: PointsToHead(s, head) ==> Ends(s.main, head)
  }

  /** What a backup writes, from the given block or the newest one, and how it ends. */
  ghost predicate IsBackup(s: Store, start: Option<BlockId>, file: seq<StoredBlock>, r: Outcome<(), CliError>)
    requires BackupEnds(s, start)
  {
    if start.Some? then (file, r) == BackupFrom(s.main, start.value)
    else if s.nums == map[] then file == [] && r == Err(EnvironmentError)
    else exists head :: PointsToHead(s, head) && (file, r) == BackupFrom(s.main, head)
  }

  method WriteFrom(store: Blockstore, first: BlockId) returns (file: seq<StoredBlock>, r: Outcome<(), CliError>)
    requires Ends(store.main, first)
    ensures (file, r) == BackupFrom(store.main, first)
  {
    var current := first;
    file := [];
    while current != NullId
      invariant Ends(store.main, current)
      invariant BackupFrom(store.main, first).0 == file + BackupFrom(store.main, current).0
      invariant BackupFrom(store.main, first).1 == BackupFrom(store.main, current).1
      decreases Height(store.main, current)
    {
      var block := store.Get(current);
      if block.Err? {
        assert file + [] == file;
        return file, Err(EnvironmentError);
      }
      StepLowers(store.main, current);
      current := block.value.previous;
      ghost var rest := BackupFrom(store.main, current).0;
      assert file + ([block.value] + rest) == file + [block.value] + rest;
      file := file + [block.value];
    }
    assert BackupFrom(store.main, NullId).0 == [] && file + [] == file;
    return file, Ok(());
  }

  method Backup(store: Blockstore, start: Option<BlockId>) returns (file: seq<StoredBlock>, r: Outcome<(), CliError>)
    requires BackupEnds(store.View(), start)
    ensures IsBackup(store.View(), start, file, r)
  {
    if start.Some? {
      file, r := WriteFrom(store, start.value);
    } else {
      var head := store.GetChainHead();
      if head.Err? {
        return [], Err(EnvironmentError);
      }
      assert PointsToHead(store.View(), head.value);
      file, r := WriteFrom(store, head.value);
    }
  }

  // Restore

  /** The store after putting blocks one after another. */
  function PutAll(s: Store, blocks: seq<StoredBlock>): Store
    decreases |blocks|
  {
    if blocks == [] then s else PutAll(PutBlock(s, blocks[0]), blocks[1..])
  }

  method Restore(store: Blockstore, file: seq<StoredBlock>)
    modifies store
    ensures store.View() == PutAll(old(store.View()), file)
  {
    var rest := file;
    while rest != []
      invariant PutAll(store.View(), rest) == PutAll(old(store.View()), file)
    {
      store.Put(rest[0]);
      rest := rest[1..];
    }
  }

  // A backup restores to the same store

  lemma {:induction false} ReverseLast<T>(s: seq<T>, n: nat)
    requires |s| == n + 1
    ensures Reverse(s) == [s[n]] + Reverse(s[..n])
    decreases n
  {
    if n == 0 {
      assert s[1..] == s[..n] == [];
    } else {
      ReverseLast(s[1..], n - 1);
      assert s[1..][..n - 1] == s[..n][1..];
    }
  }

  /** Climbing a stored chain from any of its blocks writes the chain up to there, newest first. */
  lemma {:induction false} BackupWritesChain(main: map<BlockId, StoredBlock>, chain: seq<StoredBlock>, n: nat)
    requires IsChain(chain) && Holds(main, chain) && n < |chain|
    ensures Ends(main, chain[n].id)
    ensures BackupFrom(main, chain[n].id) == (Reverse(chain[..n + 1]), Ok(()))
  {
    var upTo := chain[..n + 1];
    ChainEnds(main, chain, n);
    ReverseLast(upTo, n);
    assert upTo[..n] == chain[..n];
    assert main[chain[n].id] == chain[n];
    if n > 0 {
      assert chain[n].previous == chain[n - 1].id;
      BackupWritesChain(main, chain, n - 1);
    }
  }

  /** The blocks share no id, height, transaction or batch. */
  ghost predicate Separate(a: StoredBlock, b: StoredBlock) {
    a.id != b.id && NumKeys(a) !! NumKeys(b) && TxnKeys(a) !! TxnKeys(b) && BatchKeys(a) !! BatchKeys(b)
  }

  /** Separate blocks can be put in either order. */
  lemma PutCommutes(s: Store, a: StoredBlock, b: StoredBlock)
    requires Separate(a, b)
    ensures PutBlock(PutBlock(s, a), b) == PutBlock(PutBlock(s, b), a)
  {
    StoreCommutes(s.main, a, b);
    ReferCommutes(s.nums, NumKeys(a), a.id, NumKeys(b), b.id);
    ReferCommutes(s.txns, TxnKeys(a), a.id, TxnKeys(b), b.id);
    ReferCommutes(s.batches, BatchKeys(a), a.id, BatchKeys(b), b.id);
  }

  lemma StoreCommutes(main: map<BlockId, StoredBlock>, a: StoredBlock, b: StoredBlock)
    requires a.id != b.id
    ensures main[a.id := a][b.id := b] == main[b.id := b][a.id := a]
  {
  }

  lemma ReferCommutes(index: map<string, BlockId>, first: set<string>, a: BlockId, second: set<string>, b: BlockId)
    requires first !! second
    ensures Refer(Refer(index, first, a), second, b) == Refer(Refer(index, second, b), first, a)
  {
  }

  lemma StorableIsSeparate(chain: seq<StoredBlock>, i: nat, n: nat)
    requires Storable(chain) && |chain| == n + 1 && i < n
    ensures Separate(chain[i], chain[n])
  {
    var rest := chain[..n];
    StorableIsChain(rest);
    assert rest[i] == chain[i] && Extends(StoreOf(rest), rest, chain[n]);
    assert StoreOf(rest).main[chain[i].id] == chain[i];
  }

  /** A block put first could as well be put last, when it is separate from all others. */
  lemma {:induction false} PutFirstOrLast(s: Store, b: StoredBlock, blocks: seq<StoredBlock>)
    requires forall i :: 0 <= i < |blocks| ==> Separate(blocks[i], b)
    ensures PutAll(PutBlock(s, b), blocks) == PutBlock(PutAll(s, blocks), b)
    decreases |blocks|
  {
    if blocks != [] {
      PutCommutes(s, blocks[0], b);
      PutFirstOrLast(PutBlock(s, blocks[0]), b, blocks[1..]);
    }
  }

  lemma LastIsSeparate(chain: seq<StoredBlock>, n: nat)
    requires Storable(chain) && n == |chain| - 1
    ensures forall b <- Reverse(chain[..n]) :: Separate(b, chain[n])
  {
    ReverseElements(chain[..n]);
    forall i | 0 <= i < n
      ensures Separate(Reverse(chain[..n])[i], chain[n])
    {
      StorableIsSeparate(chain, n - 1 - i, n);
    }
  }

  lemma {:induction false} RestoreReversed(chain: seq<StoredBlock>)
    requires Storable(chain)
    ensures PutAll(EmptyStore, Reverse(chain)) == StoreOf(chain)
  {
    if chain != [] {
      var n := |chain| - 1;
      var rest, b := chain[..n], chain[n];
      RestoreReversed(rest);
      ReverseLast(chain, n);
      LastIsSeparate(chain, n);
      PutFirstOrLast(EmptyStore, b, Reverse(rest));
    }
  }

  /**
   * Restoring a backup into an empty store reproduces the store: the blocks and
   * all three indexes. A backup from an older block reproduces the chain up to it.
   */
  lemma BackupRestores(chain: seq<StoredBlock>, start: Option<BlockId>, file: seq<StoredBlock>,
                       r: Outcome<(), CliError>)
    requires Storable(chain) && BackupEnds(StoreOf(chain), start) && IsBackup(StoreOf(chain), start, file, r)
    ensures start.None? && chain != [] ==> r == Ok(()) && PutAll(EmptyStore, file) == StoreOf(chain)
    ensures start.None? && chain == [] ==> r == Err(EnvironmentError) && file == []
    ensures forall k :: start.Some? && FoundAt(chain, start.value, k) ==>
      r == Ok(()) && file == Reverse(chain[..k + 1]) && PutAll(EmptyStore, file) == StoreOf(chain[..k + 1])
  {
    EmptyChain(chain);
    if chain != [] {
      forall k | 0 <= k < |chain|
        ensures Ends(StoreOf(chain).main, chain[k].id)
        ensures BackupFrom(StoreOf(chain).main, chain[k].id) == (Reverse(chain[..k + 1]), Ok(()))
        ensures PutAll(EmptyStore, Reverse(chain[..k + 1])) == StoreOf(chain[..k + 1])
      {
        BackupUpTo(chain, k);
        RestoreUpTo(chain, k);
      }
      if start.None? {
        var head :| PointsToHead(StoreOf(chain), head) && (file, r) == BackupFrom(StoreOf(chain).main, head);
        HeadIsNewest(chain, head);
        assert chain[..|chain|] == chain;
      }
    }
  }

  /** A backup from a block that is not stored writes nothing and fails. */
  lemma UnknownBackupFails(chain: seq<StoredBlock>, start: BlockId, file: seq<StoredBlock>, r: Outcome<(), CliError>)
    requires Storable(chain) && start != NullId && forall k :: !FoundAt(chain, start, k)
    requires BackupEnds(StoreOf(chain), Some(start)) && IsBackup(StoreOf(chain), Some(start), file, r)
    ensures r == Err(EnvironmentError) && file == []
  {
    StorableIsChain(chain);
  }

  lemma StorableBackupEnds(chain: seq<StoredBlock>, start: Option<BlockId>)
    requires Storable(chain)
    ensures BackupEnds(StoreOf(chain), start)
  {
    forall id
      ensures Ends(StoreOf(chain).main, id)
    {
      StorableEnds(chain, id);
    }
  }

  lemma RestoreUpTo(chain: seq<StoredBlock>, k: nat)
    requires Storable(chain) && k < |chain|
    ensures PutAll(EmptyStore, Reverse(chain[..k + 1])) == StoreOf(chain[..k + 1])
  {
    PrefixIsStorable(chain, k + 1);
    RestoreReversed(chain[..k + 1]);
  }

  lemma BackupUpTo(chain: seq<StoredBlock>, k: nat)
    requires Storable(chain) && k < |chain|
    ensures Ends(StoreOf(chain).main, chain[k].id)
    ensures BackupFrom(StoreOf(chain).main, chain[k].id) == (Reverse(chain[..k + 1]), Ok(()))
  {
    StorableIsChain(chain);
    BackupWritesChain(StoreOf(chain).main, chain, k);
  }
}
