/** Counts over a stored chain. */
module BlockStats {
  import opened Options
  import opened Indexes
  import opened Blockstores
  import opened ChainStores
  import opened BlockstoreCommands

  // Counting names

  /** The counts say how often each name occurs. */
  ghost predicate Counts(counts: map<string, nat>, names: seq<string>) {
    && (forall f :: f in counts <==> f in names)
    && (forall f <- counts :: counts[f] == multiset(names)[f])
  }

  ghost function Total(counts: map<string, nat>): nat
    decreases |counts|
  {
    if counts == map[] then 0
    else
      var f :| f in counts;
      assert (counts - {f}).Keys == counts.Keys - {f};
      counts[f] + Total(counts - {f})
  }

  /** The total does not depend on which name is taken first. */
  lemma {:induction false} TotalWithout(counts: map<string, nat>, f: string)
    requires f in counts
    ensures Total(counts) == counts[f] + Total(counts - {f})
    decreases |counts|
  {
    var g :| g in counts && Total(counts) == counts[g] + Total(counts - {g});
    if f != g {
      assert (counts - {g}).Keys == counts.Keys - {g};
      assert (counts - {f}).Keys == counts.Keys - {f};
      TotalWithout(counts - {g}, f);
      TotalWithout(counts - {f}, g);
      assert counts - {g} - {f} == counts - {f} - {g};
    }
  }

  /** One more of a name. */
  function CountOne(counts: map<string, nat>, f: string): map<string, nat> {
    counts[f := (if f in counts then counts[f] else 0) + 1]
  }

  function CountAll(counts: map<string, nat>, names: seq<string>): map<string, nat> {
    if names == [] then counts else CountOne(CountAll(counts, names[..|names| - 1]), names[|names| - 1])
  }

  lemma CountOneCounts(counts: map<string, nat>, names: seq<string>, f: string)
    requires Counts(counts, names)
    ensures Counts(CountOne(counts, f), names + [f])
    ensures Total(CountOne(counts, f)) == Total(counts) + 1
  {
    TotalWithout(CountOne(counts, f), f);
    if f in counts {
      TotalWithout(counts, f);
      assert counts - {f} == CountOne(counts, f) - {f};
    } else {
      PutThenRemove(counts, f, 1);
    }
  }

  /** Counting names one by one counts them all. */
  lemma {:induction false} CountAllCounts(names: seq<string>)
    ensures Counts(CountAll(map[], names), names) && Total(CountAll(map[], names)) == |names|
  {
    if names != [] {
      var rest := names[..|names| - 1];
      SplitLast(names);
      CountAllCounts(rest);
      CountOneCounts(CountAll(map[], rest), rest, names[|names| - 1]);
    }
  }

  lemma {:induction false} CountAllAppend(counts: map<string, nat>, a: seq<string>, b: seq<string>)
    ensures CountAll(counts, a + b) == CountAll(CountAll(counts, a), b)
    decreases |b|
  {
    if b == [] {
      assert a + b == a;
    } else {
      var rest := b[..|b| - 1];
      CountAllAppend(counts, a, rest);
      assert (a + b)[..|a + b| - 1] == a + rest;
    }
  }

  // Families of a chain

  function FamiliesOf(txns: seq<Transaction>): seq<string> {
    if txns == [] then [] else FamiliesOf(txns[..|txns| - 1]) + [txns[|txns| - 1].family]
  }

  lemma {:induction false} FamiliesAppend(a: seq<Transaction>, b: seq<Transaction>)
    ensures FamiliesOf(a + b) == FamiliesOf(a) + FamiliesOf(b)
    decreases |b|
  {
    if b == [] {
      assert a + b == a;
    } else {
      FamiliesAppend(a, b[..|b| - 1]);
      assert (a + b)[..|a + b| - 1] == a + b[..|b| - 1];
    }
  }

  lemma {:induction false} FamiliesLength(txns: seq<Transaction>)
    ensures |FamiliesOf(txns)| == |txns|
  {
    if txns != [] {
      FamiliesLength(txns[..|txns| - 1]);
    }
  }

  /** The climb from a stored block ends. */
  ghost predicate ClimbEnds(main: map<BlockId, StoredBlock>, id: BlockId) {
    id in main && Ends(main, main[id].previous)
  }

  lemma ClimbGoesOn(main: map<BlockId, StoredBlock>, id: BlockId)
    requires ClimbEnds(main, id) && main[id].previous != NullId && main[id].previous in main
    ensures var up := main[id].previous;
      ClimbEnds(main, up) && Height(main, main[up].previous) < Height(main, up)
  {
    StepLowers(main, main[id].previous);
  }

  /** Counts the families of all transactions from a stored block to the start of its chain. */
  ghost function CountClimb(main: map<BlockId, StoredBlock>, id: BlockId, counts: map<string, nat>)
    : Outcome<map<string, nat>, CliError>
    requires ClimbEnds(main, id)
    decreases Height(main, main[id].previous)
  {
    var block := main[id];
    var counts' := CountAll(counts, FamiliesOf(TxnsOf(block.batches)));
    if block.previous == NullId then Ok(counts')
    else if block.previous !in main then Err(EnvironmentError)
    else
      ClimbGoesOn(main, id);
      CountClimb(main, block.previous, counts')
  }

  method CountTxns(counts: map<string, nat>, txns: seq<Transaction>) returns (counts': map<string, nat>)
    ensures counts' == CountAll(counts, FamiliesOf(txns))
  {
    counts' := counts;
    for i := 0 to |txns|
      invariant counts' == CountAll(counts, FamiliesOf(txns[..i]))
    {
      counts' := CountOne(counts', txns[i].family);
      assert txns[..i + 1][..i] == txns[..i];
    }
    assert txns[..|txns|] == txns;
  }

  method CountBatches(counts: map<string, nat>, batches: seq<Batch>) returns (counts': map<string, nat>)
    ensures counts' == CountAll(counts, FamiliesOf(TxnsOf(batches)))
  {
    counts' := counts;
    for i := 0 to |batches|
      invariant counts' == CountAll(counts, FamiliesOf(TxnsOf(batches[..i])))
    {
      ghost var done := TxnsOf(batches[..i]);
      counts' := CountTxns(counts', batches[i].txns);
      assert batches[..i + 1][..i] == batches[..i];
      FamiliesAppend(done, batches[i].txns);
      CountAllAppend(counts, FamiliesOf(done), FamiliesOf(batches[i].txns));
    }
    assert batches[..|batches|] == batches;
  }

  method CountFamilies(store: Blockstore, id: BlockId) returns (r: Outcome<map<string, nat>, CliError>)
    requires ClimbEnds(store.main, id)
    ensures r == CountClimb(store.main, id, map[])
  {
    var counts: map<string, nat> := map[];
    var current := store.main[id];
    ghost var at := id;
    while true
      invariant ClimbEnds(store.main, at) && current == store.main[at]
      invariant CountClimb(store.main, at, counts) == CountClimb(store.main, id, map[])
      decreases Height(store.main, current.previous)
    {
      counts := CountBatches(counts, current.batches);
      if current.previous == NullId {
        return Ok(counts);
      }
      var parent := store.Get(current.previous);
      if parent.Err? {
        return Err(EnvironmentError);
      }
      ClimbGoesOn(store.main, at);
      at, current := current.previous, parent.value;
    }
  }

  datatype Report = Report(blocks: nat, batches: nat, txns: nat, families: Option<map<string, nat>>)

  /** Where families are asked for, the climb from the newest block ends, if that is stored. */
  ghost predicate ReportEnds(s: Store, extended: bool) {
    extended ==> forall head :: PointsToHead(s, head) && head in s.main ==> ClimbEnds(s.main, head)
  }

  /** What the statistics command reports. */
  ghost predicate IsReport(s: Store, extended: bool, r: Outcome<Report, CliError>)
    requires ReportEnds(s, extended)
  {
    var brief := Report(|s.main|, |s.batches|, |s.txns|, None);
    if !extended then r == Ok(brief)
    else if s.nums == map[] then r == Err(EnvironmentError)
    else
      exists head ::
        && PointsToHead(s, head)
        && r == if head !in s.main || CountClimb(s.main, head, map[]).Err? then Err(EnvironmentError)
                else Ok(brief.(families := Some(CountClimb(s.main, head, map[]).value)))
  }

  method Stats(store: Blockstore, extended: bool) returns (r: Outcome<Report, CliError>)
    requires ReportEnds(store.View(), extended)
    ensures IsReport(store.View(), extended, r)
  {
    var brief := Report(|store.main|, |store.batches|, |store.txns|, None);
    if !extended {
      return Ok(brief);
    }
    var head := store.GetChainHead();
    if head.Err? {
      return Err(EnvironmentError);
    }
    assert PointsToHead(store.View(), head.value);
    if head.value !in store.main {
      return Err(EnvironmentError);
    }
    var counts := CountFamilies(store, head.value);
    if counts.Err? {
      return Err(EnvironmentError);
    }
    return Ok(brief.(families := Some(counts.value)));
  }

  // What the report says of a stored chain

  /** All transactions of a chain, newest block first. */
  function ChainTxns(chain: seq<StoredBlock>): seq<Transaction> {
    if chain == [] then [] else TxnsOf(chain[|chain| - 1].batches) + ChainTxns(chain[..|chain| - 1])
  }

  function BatchTotal(chain: seq<StoredBlock>): nat {
    if chain == [] then 0 else |chain[|chain| - 1].batches| + BatchTotal(chain[..|chain| - 1])
  }

  lemma ChainClimbEnds(main: map<BlockId, StoredBlock>, chain: seq<StoredBlock>, n: nat)
    requires IsChain(chain) && Holds(main, chain) && n < |chain|
    ensures ClimbEnds(main, chain[n].id)
  {
    assert main[chain[n].id] == chain[n];
    ChainEnds(main, chain, n);
    StepLowers(main, chain[n].id);
  }

  lemma {:induction false} ClimbMeetsChain(main: map<BlockId, StoredBlock>, chain: seq<StoredBlock>, n: nat,
                                           counts: map<string, nat>)
    requires IsChain(chain) && Holds(main, chain) && n < |chain|
    ensures ClimbEnds(main, chain[n].id)
    ensures CountClimb(main, chain[n].id, counts) == Ok(CountAll(counts, FamiliesOf(ChainTxns(chain[..n + 1]))))
  {
    var own, rest := TxnsOf(chain[n].batches), ChainTxns(chain[..n]);
    ChainClimbEnds(main, chain, n);
    assert main[chain[n].id] == chain[n] && chain[..n + 1][..n] == chain[..n];
    FamiliesAppend(own, rest);
    CountAllAppend(counts, FamiliesOf(own), FamiliesOf(rest));
    if n > 0 {
      assert chain[n].previous == chain[n - 1].id;
      ClimbMeetsChain(main, chain, n - 1, CountAll(counts, FamiliesOf(own)));
    }
  }

  /** The table of a chain has one entry for each block. */
  lemma {:induction false} TableSize(chain: seq<StoredBlock>)
    requires Storable(chain)
    ensures |StoreOf(chain).main| == |chain|
  {
    if chain != [] {
      var rest, b := chain[..|chain| - 1], chain[|chain| - 1];
      TableSize(rest);
      PutGrows(StoreOf(rest).main, b.id, b);
    }
  }

  /** The transaction index of a chain has one entry for each transaction. */
  lemma {:induction false} TxnIndexSize(chain: seq<StoredBlock>)
    requires Storable(chain)
    ensures |StoreOf(chain).txns| == |ChainTxns(chain)|
  {
    if chain != [] {
      var rest, b := chain[..|chain| - 1], chain[|chain| - 1];
      TxnIndexSize(rest);
      StorableIsExact(rest);
      PutAddsEntries(StoreOf(rest).main, StoreOf(rest).txns, TxnKeys, b.id, b);
      DistinctSize(TxnIds(b));
    }
  }

  /** The batch index of a chain has one entry for each batch. */
  lemma {:induction false} BatchIndexSize(chain: seq<StoredBlock>)
    requires Storable(chain)
    ensures |StoreOf(chain).batches| == BatchTotal(chain)
  {
    if chain != [] {
      var rest, b := chain[..|chain| - 1], chain[|chain| - 1];
      BatchIndexSize(rest);
      StorableIsExact(rest);
      PutAddsEntries(StoreOf(rest).main, StoreOf(rest).batches, BatchKeys, b.id, b);
      DistinctSize(BatchIds(b));
    }
  }

  /**
   * The report of a stored chain: its number of blocks, batches and transactions,
   * and for every family how many transactions have it; these add up to the
   * number of transactions.
   */
  lemma ReportIsExact(chain: seq<StoredBlock>, extended: bool, r: Outcome<Report, CliError>)
    requires Storable(chain) && ReportEnds(StoreOf(chain), extended) && IsReport(StoreOf(chain), extended, r)
    ensures r.Err? <==> extended && chain == []
    ensures r.Ok? ==>
      r.value.blocks == |chain| && r.value.batches == BatchTotal(chain) && r.value.txns == |ChainTxns(chain)|
    ensures r.Ok? ==> (r.value.families.Some? <==> extended)
    ensures r.Ok? && extended ==>
      && Counts(r.value.families.value, FamiliesOf(ChainTxns(chain)))
      && Total(r.value.families.value) == r.value.txns
  {
    TableSize(chain);
    TxnIndexSize(chain);
    BatchIndexSize(chain);
    EmptyChain(chain);
    if extended && chain != [] {
      StorableIsChain(chain);
      forall head | PointsToHead(StoreOf(chain), head)
        ensures ClimbEnds(StoreOf(chain).main, head)
        ensures CountClimb(StoreOf(chain).main, head, map[]) == Ok(CountAll(map[], FamiliesOf(ChainTxns(chain))))
      {
        HeadIsNewest(chain, head);
        ClimbMeetsChain(StoreOf(chain).main, chain, |chain| - 1, map[]);
        assert chain[..|chain|] == chain;
      }
      CountAllCounts(FamiliesOf(ChainTxns(chain)));
      FamiliesLength(ChainTxns(chain));
    }
  }

  lemma StorableReportEnds(chain: seq<StoredBlock>, extended: bool)
    requires Storable(chain)
    ensures ReportEnds(StoreOf(chain), extended)
  {
    var main := StoreOf(chain).main;
    forall head | head in main
      ensures ClimbEnds(main, head)
    {
      StorableEnds(chain, main[head].previous);
    }
  }
}
