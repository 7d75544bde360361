/** What the commands that climb from parent to parent do on any store, broken chains included. */
module StoreClimbs {
  import opened Options
  import opened Indexes
  import opened ByteOrder
  import opened Blockstores
  import opened ChainStores
  import opened BlockstoreCommands
  import opened BlockBackup
  import opened BlockStats

  type Main = map<BlockId, StoredBlock>

  // Backup

  predicate IsParent(main: Main, b: StoredBlock, parent: StoredBlock) {
    b.previous != NullId && Lookup(main, b.previous) == Some(parent)
  }

  /**
   * The file is a climb: it starts with the given block, every block is followed by
   * its parent, and it ends at the start of the chain or, in error, where a parent
   * is not stored.
   */
  ghost predicate IsClimb(main: Main, start: BlockId, file: seq<StoredBlock>, r: Outcome<(), CliError>) {
    if file == [] then
      if start == NullId then r == Ok(()) else start !in main && r == Err(EnvironmentError)
    else
      && start != NullId && Lookup(main, start) == Some(file[0])
      && (forall i, j :: 0 <= i < j < |file| && j == i + 1 ==> IsParent(main, file[i], file[j]))
      && var end := file[|file| - 1].previous;
         if end == NullId then r == Ok(()) else end !in main && r == Err(EnvironmentError)
  }

  lemma ClimbOneMore(main: Main, start: BlockId, file: seq<StoredBlock>, r: Outcome<(), CliError>)
    requires start != NullId && start in main && IsClimb(main, main[start].previous, file, r)
    ensures IsClimb(main, start, [main[start]] + file, r)
  {
    var longer := [main[start]] + file;
    if file != [] {
      assert longer[|longer| - 1] == file[|file| - 1];
      forall i, j | 0 <= i < j < |longer| && j == i + 1
        ensures IsParent(main, longer[i], longer[j])
      {
        if i == 0 {
          assert longer[0] == main[start] && longer[1] == file[0];
        } else {
          assert longer[i] == file[i - 1] && longer[j] == file[i];
        }
      }
    }
  }

  /** On any store a backup writes the climb from its first block, and fails exactly if a parent is missing. */
  lemma {:induction false} BackupIsClimb(main: Main, start: BlockId)
    requires Ends(main, start)
    ensures var (file, r) := BackupFrom(main, start);
      IsClimb(main, start, file, r)
    decreases Height(main, start)
  {
    if start != NullId && start in main {
      StepLowers(main, start);
      BackupIsClimb(main, main[start].previous);
      var (file, r) := BackupFrom(main, main[start].previous);
      ClimbOneMore(main, start, file, r);
    }
  }

  // Statistics

  /** The families of all transactions of some blocks, block by block. */
  function FamiliesIn(blocks: seq<StoredBlock>): seq<string> {
    if blocks == [] then [] else FamiliesOf(TxnsOf(blocks[0].batches)) + FamiliesIn(blocks[1..])
  }

  /** On any store the report counts the families of a block and of what a backup from its parent writes. */
  lemma {:induction false} StatsCountBackup(main: Main, id: BlockId, counts: map<string, nat>)
    requires ClimbEnds(main, id)
    ensures var (file, r) := BackupFrom(main, main[id].previous);
      CountClimb(main, id, counts) ==
        if r.Ok? then Ok(CountAll(counts, FamiliesIn([main[id]] + file))) else Err(EnvironmentError)
    decreases Height(main, main[id].previous)
  {
    var block := main[id];
    var own, up := FamiliesOf(TxnsOf(block.batches)), block.previous;
    var file := BackupFrom(main, up).0;
    assert ([block] + file)[1..] == file;
    if up == NullId {
      assert own + [] == own;
    } else if up in main {
      ClimbGoesOn(main, id);
      StatsCountBackup(main, up, CountAll(counts, own));
      CountAllAppend(counts, own, FamiliesIn(file));
      BackupIsClimb(main, up);
    }
  }

  // Prune

  /** The blocks of a climb, by id. */
  ghost predicate IsPath(main: Main, start: BlockId, path: seq<BlockId>) {
    && (path != [] ==> path[0] == start) && (forall id <- path :: id in main)
    && forall i, j :: 0 <= i < j < |path| && j == i + 1 ==> path[i] in main && path[j] == main[path[i]].previous
  }

  /** Pruning has deleted exactly these blocks; it has succeeded if and only if the last is the named one. */
  ghost predicate Pruned(main: Main, start: BlockId, id: BlockId, path: seq<BlockId>, main': Main,
                         r: Outcome<(), CliError>)
  {
    && IsPath(main, start, path) && main' == main - SetOf(path)
    && (forall i :: 0 <= i < |path| - 1 ==> path[i] != id)
    && r == if path != [] && path[|path| - 1] == id then Ok(()) else Err(EnvironmentError)
  }

  ghost predicate KeyedById(main: Main) {
    forall id <- main :: main[id].id == id
  }

  lemma PathOneMore(main: Main, start: BlockId, id: BlockId, path: seq<BlockId>, main': Main,
                    r: Outcome<(), CliError>)
    requires start in main && start != id
    requires Pruned(main - {start}, main[start].previous, id, path, main', r)
    ensures Pruned(main, start, id, [start] + path, main', r)
  {
    SetOfAppend([start], path);
    assert SetOf([start]) == {start};
    assert main - {start} - SetOf(path) == main - SetOf([start] + path);
  }

  lemma PathOfOne(main: Main, start: BlockId, id: BlockId, main': Main)
    requires start in main && main' == main - {start}
    ensures Pruned(main, start, id, [start], main', if start == id then Ok(()) else Err(EnvironmentError))
  {
    assert SetOf([start]) == {start};
  }

  lemma DeletedIsGone(s: Store, id: BlockId)
    requires KeyedById(s.main) && DeleteBlock(s, id).1.Ok?
    ensures id in s.main && DeleteBlock(s, id).0.main == s.main - {id}
  {
  }

  /** On any store, pruning deletes blocks from the head down a path of parents, up to the named one. */
  lemma {:induction false} PruneIsPath(s: Store, current: StoredBlock, id: BlockId) returns (path: seq<BlockId>)
    requires KeyedById(s.main) && Lookup(s.main, current.id) == Some(current)
    ensures var (s', r) := PruneFrom(s, current, id);
      Pruned(s.main, current.id, id, path, s'.main, r)
    decreases |s.main|
  {
    var start := current.id;
    var (s1, deleted) := DeleteBlock(s, start);
    if deleted.Err? {
      path := [];
      assert s.main - SetOf([]) == s.main;
    } else {
      DeletedIsGone(s, start);
      PathOfOne(s.main, start, id, s1.main);
      path := [start];
      if start != id && current.previous in s1.main {
        DeleteShrinks(s, start);
        var rest := PruneIsPath(s1, s1.main[current.previous], id);
        var (s', r) := PruneFrom(s1, s1.main[current.previous], id);
        PathOneMore(s.main, start, id, rest, s'.main, r);
        path := [start] + rest;
      }
    }
  }

  // Errors of the store

  /** A delete fails with no effect, because the block is not stored or one of its index keys cannot be removed. */
  lemma DeleteFailsExactly(s: Store, id: BlockId)
    ensures var (s', r) := DeleteBlock(s, id);
      && (r == Err(NotFound) <==> id !in s.main) && (r.Err? ==> s' == s)
      && (id in s.main && s.main[id].id == id ==>
            var b := s.main[id];
            r.Ok? <==> NumKey(b.num as nat) in s.nums && Tidy(b)
                       && SetOf(TxnIds(b)) <= s.txns.Keys && SetOf(BatchIds(b)) <= s.batches.Keys)
  {
    if id in s.main {
      var b := s.main[id];
      var key := NumKey(b.num as nat);
      assert SetOf([key]) == {key};
      DropEachExactly(s.nums, [key]);
      DropEachExactly(s.txns, TxnIds(b));
      DropEachExactly(s.batches, BatchIds(b));
    }
  }

  /** A lookup meets corruption exactly where a block that was referred to is gone from the table. */
  lemma GoneIsCorrupt(s: Store, id: BlockId, key: string, keysOf: StoredBlock -> set<string>,
                      index: map<string, BlockId>)
    requires Exact(s.main, index, keysOf)
    ensures Via(s.main - {id}, index, key) == Err(Corruption) <==> id in s.main && key in keysOf(s.main[id])
    ensures Via(s.main - {id}, index, key) == Err(NotFound) <==> forall k <- s.main :: key !in keysOf(s.main[k])
  {
  }
}
