/** The block store: a table of blocks with three secondary indexes. */
module Blockstores {
  import opened Options
  import opened Indexes
  import opened ByteOrder

  type BlockId = string

  datatype Transaction = Transaction(id: string, family: string)

  datatype Batch = Batch(id: string, txns: seq<Transaction>)

  datatype StoredBlock = StoredBlock(id: BlockId, num: U64, previous: BlockId, batches: seq<Batch>)

  datatype StoreError = NotFound | Corruption | WriterError

  function IdsOf(txns: seq<Transaction>): (ids: seq<string>)
    ensures |ids| == |txns| && forall i :: 0 <= i < |ids| ==> ids[i] == txns[i].id
  {
    seq(|txns|, i requires 0 <= i < |txns| => txns[i].id)
  }

  /** All transactions of a list of batches, in order. */
  function TxnsOf(batches: seq<Batch>): seq<Transaction> {
    if batches == [] then [] else TxnsOf(batches[..|batches| - 1]) + batches[|batches| - 1].txns
  }

  function TxnIds(b: StoredBlock): seq<string> {
    IdsOf(TxnsOf(b.batches))
  }

  function BatchIds(b: StoredBlock): (ids: seq<string>)
    ensures |ids| == |b.batches| && forall i :: 0 <= i < |ids| ==> ids[i] == b.batches[i].id
  {
    seq(|b.batches|, i requires 0 <= i < |b.batches| => b.batches[i].id)
  }

  // The keys each index derives from a block

  function NumKeys(b: StoredBlock): set<string> {
    {NumKey(b.num as nat)}
  }

  function TxnKeys(b: StoredBlock): set<string> {
    SetOf(TxnIds(b))
  }

  function BatchKeys(b: StoredBlock): set<string> {
    SetOf(BatchIds(b))
  }

  datatype Store = Store(
    main: map<BlockId, StoredBlock>,
    nums: map<string, BlockId>,
    txns: map<string, BlockId>,
    batches: map<string, BlockId>)

  const EmptyStore := Store(map[], map[], map[], map[])

  /** Blocks are stored under their id, and all indexes are those the table derives. */
  ghost predicate ExactStore(s: Store) {
    && (forall id <- s.main :: s.main[id].id == id)
    && Exact(s.main, s.nums, NumKeys)
    && Exact(s.main, s.txns, TxnKeys)
    && Exact(s.main, s.batches, BatchKeys)
  }

  function PutBlock(s: Store, b: StoredBlock): Store {
    Store(s.main[b.id := b],
          Refer(s.nums, NumKeys(b), b.id),
          Refer(s.txns, TxnKeys(b), b.id),
          Refer(s.batches, BatchKeys(b), b.id))
  }

  /** The block shares no height, transaction or batch with another, and drops none of its own. */
  ghost predicate Fits(s: Store, b: StoredBlock) {
    && Free(s.main, NumKeys, b.id, b) && Covers(s.main, NumKeys, b.id, b)
    && Free(s.main, TxnKeys, b.id, b) && Covers(s.main, TxnKeys, b.id, b)
    && Free(s.main, BatchKeys, b.id, b) && Covers(s.main, BatchKeys, b.id, b)
  }

  /** A put keeps the three indexes exact if and only if the block fits. */
  lemma PutKeepsStore(s: Store, b: StoredBlock)
    requires ExactStore(s)
    ensures ExactStore(PutBlock(s, b)) <==> Fits(s, b)
  {
    PutKeepsExact(s.main, s.nums, NumKeys, b.id, b);
    PutKeepsExact(s.main, s.txns, TxnKeys, b.id, b);
    PutKeepsExact(s.main, s.batches, BatchKeys, b.id, b);
  }

  /** Deletes index keys one after another; deleting an absent key is an error. */
  function DropEach(index: map<string, BlockId>, keys: seq<string>): Option<map<string, BlockId>>
    decreases |keys|
  {
    if keys == [] then Some(index)
    else if keys[0] !in index then None
    else DropEach(index - {keys[0]}, keys[1..])
  }

  lemma {:induction false} DropEachExactly(index: map<string, BlockId>, keys: seq<string>)
    ensures DropEach(index, keys).Some? <==> Distinct(keys) && SetOf(keys) <= index.Keys
    ensures DropEach(index, keys).Some? ==> DropEach(index, keys).value == index - SetOf(keys)
    decreases |keys|
  {
    if keys == [] {
      assert index - {} == index;
    } else {
      SetOfCons(keys);
      DropEachExactly(index - {keys[0]}, keys[1..]);
      assert (index - {keys[0]}).Keys == index.Keys - {keys[0]};
      assert Distinct(keys) ==> keys[0] !in SetOf(keys[1..]);
      assert (index - {keys[0]}) - SetOf(keys[1..]) == index - SetOf(keys);
      assert keys[0] !in keys[1..] && Distinct(keys[1..]) ==> Distinct(keys) by {
        if keys[0] !in keys[1..] && Distinct(keys[1..]) {
          forall i, j | 0 <= i < j < |keys|
            ensures keys[i] != keys[j]
          {
            assert keys[j] == keys[1..][j - 1];
            if i > 0 {
              assert keys[i] == keys[1..][i - 1];
            }
          }
        }
      }
    }
  }

  /** A delete either removes a block and all its index keys, or changes nothing. */
  function DeleteBlock(s: Store, id: BlockId): (Store, Outcome<(), StoreError>) {
    if id !in s.main then (s, Err(NotFound))
    else
      var b := s.main[id];
      var nums := DropEach(s.nums, [NumKey(b.num as nat)]);
      var txns := DropEach(s.txns, TxnIds(b));
      var batches := DropEach(s.batches, BatchIds(b));
      if b.id !in s.main || nums.None? || txns.None? || batches.None? then (s, Err(WriterError))
      else (Store(s.main - {b.id}, nums.value, txns.value, batches.value), Ok(()))
  }

  /** No transaction or batch id occurs twice in the block. */
  ghost predicate Tidy(b: StoredBlock) {
    Distinct(TxnIds(b)) && Distinct(BatchIds(b))
  }

  lemma ListedKeysPresent(s: Store, id: BlockId)
    requires ExactStore(s) && id in s.main
    ensures NumKeys(s.main[id]) <= s.nums.Keys
    ensures TxnKeys(s.main[id]) <= s.txns.Keys
    ensures BatchKeys(s.main[id]) <= s.batches.Keys
  {
    ExactHasKeys(s.main, s.nums, NumKeys, id);
    ExactHasKeys(s.main, s.txns, TxnKeys, id);
    ExactHasKeys(s.main, s.batches, BatchKeys, id);
  }

  /** From an exact store a delete succeeds exactly for stored, tidy blocks, and stays exact. */
  lemma DeleteKeepsStore(s: Store, id: BlockId)
    requires ExactStore(s)
    ensures DeleteBlock(s, id).1.Ok? <==> id in s.main && Tidy(s.main[id])
    ensures DeleteBlock(s, id).1.Ok? ==> DeleteBlock(s, id).0.main == s.main - {id}
    ensures ExactStore(DeleteBlock(s, id).0)
  {
    if id in s.main {
      var b := s.main[id];
      ListedKeysPresent(s, id);
      var key := NumKey(b.num as nat);
      assert SetOf([key]) == {key};
      DropEachExactly(s.nums, [key]);
      DropEachExactly(s.txns, TxnIds(b));
      DropEachExactly(s.batches, BatchIds(b));
      DeleteKeepsExact(s.main, s.nums, NumKeys, id);
      DeleteKeepsExact(s.main, s.txns, TxnKeys, id);
      DeleteKeepsExact(s.main, s.batches, BatchKeys, id);
    }
  }

  // Runs of puts and deletes

  datatype StoreOp = PutOp(b: StoredBlock) | DeleteOp(id: BlockId)

  function Perform(s: Store, op: StoreOp): Store {
    match op
    case PutOp(b) => PutBlock(s, b)
    case DeleteOp(id) => DeleteBlock(s, id).0
  }

  function PerformAll(s: Store, ops: seq<StoreOp>): Store
    decreases |ops|
  {
    if ops == [] then s else PerformAll(Perform(s, ops[0]), ops[1..])
  }

  /** Every put of the run finds room for its block. */
  ghost predicate AllFit(s: Store, ops: seq<StoreOp>)
    decreases |ops|
  {
    ops == [] || ((ops[0].PutOp? ==> Fits(s, ops[0].b)) && AllFit(Perform(s, ops[0]), ops[1..]))
  }

  ghost predicate ExactThroughout(s: Store, ops: seq<StoreOp>)
    decreases |ops|
  {
    ExactStore(s) && (ops == [] || ExactThroughout(Perform(s, ops[0]), ops[1..]))
  }

  /**
   * Over every run of puts and deletes the three indexes stay exactly those
   * the table derives, at every moment, if and only if every put's block fits.
   */
  lemma {:induction false} RunKeepsStore(s: Store, ops: seq<StoreOp>)
    requires ExactStore(s)
    ensures ExactThroughout(s, ops) <==> AllFit(s, ops)
    ensures AllFit(s, ops) ==> ExactStore(PerformAll(s, ops))
    decreases |ops|
  {
    if ops != [] {
      match ops[0]
      case PutOp(b) =>
        PutKeepsStore(s, b);
        if Fits(s, b) {
          RunKeepsStore(PutBlock(s, b), ops[1..]);
        }
      case DeleteOp(id) =>
        DeleteKeepsStore(s, id);
        RunKeepsStore(DeleteBlock(s, id).0, ops[1..]);
    }
  }

  // Lookups from an exact store

  /** A lookup through an index; a dangling index entry is reported as corruption. */
  function Via(main: map<BlockId, StoredBlock>, index: map<string, BlockId>, key: string)
    : Outcome<StoredBlock, StoreError>
  {
    if key !in index then Err(NotFound)
    else if index[key] !in main then Err(Corruption)
    else Ok(main[index[key]])
  }

  /** The answer is the stored block that matches, or that there is none. */
  ghost predicate FindsExactly(main: map<BlockId, StoredBlock>, r: Outcome<StoredBlock, StoreError>,
                               matches: StoredBlock -> bool)
  {
    && (r.Ok? ==> matches(r.value) && r.value.id in main && main[r.value.id] == r.value)
    && (forall id <- main :: matches(main[id]) ==> r == Ok(main[id]))
    && (r.Err? ==> r.error == NotFound)
  }

  /** From an exact store a lookup finds the one block with the key and never meets corruption. */
  lemma ViaExact(main: map<BlockId, StoredBlock>, index: map<string, BlockId>, key: string,
                 keysOf: StoredBlock -> set<string>)
    requires Exact(main, index, keysOf) && forall id <- main :: main[id].id == id
    ensures FindsExactly(main, Via(main, index, key), b => key in keysOf(b))
  {
  }

  /** The block with the greatest number. */
  ghost predicate IsHead(main: map<BlockId, StoredBlock>, id: BlockId) {
    id in main && forall other <- main :: other != id ==> main[other].num < main[id].num
  }

  /** The last key of the number index belongs to the block with the greatest number. */
  lemma LastKeyIsHead(s: Store, key: string)
    requires ExactStore(s) && IsLast(s.nums.Keys, key)
    ensures IsHead(s.main, s.nums[key])
  {
    var head := s.nums[key];
    var n := s.main[head].num;
    assert key == NumKey(n as nat);
    forall other | other in s.main && other != head
      ensures s.main[other].num < n
    {
      var m := s.main[other].num;
      var otherKey := NumKey(m as nat);
      assert otherKey in NumKeys(s.main[other]) && s.nums[otherKey] == other;
      KeysPreserveOrder(m, n);
    }
  }

  lemma BlocksHaveKeys(s: Store)
    requires ExactStore(s) && s.main != map[]
    ensures s.nums != map[]
  {
    var id :| id in s.main;
    assert NumKey(s.main[id].num as nat) in NumKeys(s.main[id]);
    assert NumKey(s.main[id].num as nat) in s.nums;
  }

  class Blockstore {
    var main: map<BlockId, StoredBlock>
    var nums: map<string, BlockId>
    var txns: map<string, BlockId>
    var batches: map<string, BlockId>

    ghost function View(): Store
      reads this
    {
      Store(main, nums, txns, batches)
    }

    constructor ()
      ensures View() == EmptyStore
    {
      main := map[];
      nums := map[];
      txns := map[];
      batches := map[];
    }

    method Put(block: StoredBlock)
      modifies this
      ensures View() == PutBlock(old(View()), block)
    {
      main := main[block.id := block];
      var key := NumKey(block.num as nat);
      nums := nums[key := block.id];
      txns := ReferTxns(txns, block.batches, block.id);
      batches := ReferEach(batches, BatchIds(block), block.id);
      assert nums == Refer(old(nums), NumKeys(block), block.id);
    }

    method Delete(id: BlockId) returns (r: Outcome<(), StoreError>)
      modifies this
      ensures (View(), r) == DeleteBlock(old(View()), id)
    {
      if id !in main {
        return Err(NotFound);
      }
      var block := main[id];
      if block.id !in main {
        return Err(WriterError);
      }
      var newNums := RemoveEach(nums, [NumKey(block.num as nat)]);
      var newTxns := RemoveEach(txns, TxnIds(block));
      var newBatches := RemoveEach(batches, BatchIds(block));
      if newNums.None? || newTxns.None? || newBatches.None? {
        return Err(WriterError);
      }
      main := main - {block.id};
      nums := newNums.value;
      txns := newTxns.value;
      batches := newBatches.value;
      return Ok(());
    }

    method Get(id: BlockId) returns (r: Outcome<StoredBlock, StoreError>)
      ensures r == if id in main then Ok(main[id]) else Err(NotFound)
    {
      if id !in main {
        return Err(NotFound);
      }
      return Ok(main[id]);
    }

    method GetVia(index: map<string, BlockId>, key: string) returns (r: Outcome<StoredBlock, StoreError>)
      ensures r == Via(main, index, key)
    {
      if key !in index {
        return Err(NotFound);
      }
      if index[key] !in main {
        return Err(Corruption);
      }
      r := Ok(main[index[key]]);
    }

    method GetByHeight(height: U64) returns (r: Outcome<StoredBlock, StoreError>)
      ensures r == Via(main, nums, NumKey(height as nat))
      ensures ExactStore(View()) ==> FindsExactly(main, r, (b: StoredBlock) => b.num == height)
    {
      r := GetVia(nums, NumKey(height as nat));
      if ExactStore(View()) {
        ViaExact(main, nums, NumKey(height as nat), NumKeys);
        forall b: StoredBlock
          ensures NumKey(height as nat) in NumKeys(b) <==> b.num == height
        {
          KeysPreserveOrder(height, b.num);
        }
      }
    }

    method GetByBatch(id: string) returns (r: Outcome<StoredBlock, StoreError>)
      ensures r == Via(main, batches, id)
      ensures ExactStore(View()) ==> FindsExactly(main, r, b => id in BatchIds(b))
    {
      r := GetVia(batches, id);
      if ExactStore(View()) {
        ViaExact(main, batches, id, BatchKeys);
      }
    }

    method GetByTransaction(id: string) returns (r: Outcome<StoredBlock, StoreError>)
      ensures r == Via(main, txns, id)
      ensures ExactStore(View()) ==> FindsExactly(main, r, b => id in TxnIds(b))
    {
      r := GetVia(txns, id);
      if ExactStore(View()) {
        ViaExact(main, txns, id, TxnKeys);
      }
    }

    method GetChainHead() returns (r: Outcome<BlockId, StoreError>)
      ensures r.Err? <==> nums == map[]
      ensures r.Err? ==> r.error == NotFound
      ensures r.Ok? ==> exists key :: IsLast(nums.Keys, key) && r.value == nums[key]
      ensures ExactStore(View()) ==> (r.Err? <==> main == map[]) && (r.Ok? ==> IsHead(main, r.value))
    {
      var last := Last(nums.Keys);
      if ExactStore(View()) && main != map[] {
        BlocksHaveKeys(View());
      }
      if last.None? {
        return Err(NotFound);
      }
      if ExactStore(View()) {
        LastKeyIsHead(View(), last.value);
      }
      return Ok(nums[last.value]);
    }
  }

  lemma IdsOfAppend(a: seq<Transaction>, b: seq<Transaction>)
    ensures IdsOf(a + b) == IdsOf(a) + IdsOf(b)
  {
  }

  lemma ReferTwice(index: map<string, BlockId>, first: set<string>, second: set<string>, id: BlockId)
    ensures Refer(Refer(index, first, id), second, id) == Refer(index, first + second, id)
  {
  }

  method ReferTxns(index: map<string, BlockId>, batches: seq<Batch>, id: BlockId) returns (index': map<string, BlockId>)
    ensures index' == Refer(index, SetOf(IdsOf(TxnsOf(batches))), id)
  {
    index' := index;
    for i := 0 to |batches|
      invariant index' == Refer(index, SetOf(IdsOf(TxnsOf(batches[..i]))), id)
    {
      var done, more := IdsOf(TxnsOf(batches[..i])), IdsOf(batches[i].txns);
      assert batches[..i + 1][..i] == batches[..i];
      IdsOfAppend(TxnsOf(batches[..i]), batches[i].txns);
      index' := ReferEach(index', more, id);
      ReferTwice(index, SetOf(done), SetOf(more), id);
      SetOfAppend(done, more);
    }
    assert batches[..|batches|] == batches;
  }

  method RemoveEach(index: map<string, BlockId>, keys: seq<string>) returns (index': Option<map<string, BlockId>>)
    ensures index' == DropEach(index, keys)
  {
    var left := index;
    for i := 0 to |keys|
      invariant DropEach(left, keys[i..]) == DropEach(index, keys)
    {
      if keys[i] !in left {
        return None;
      }
      left := left - {keys[i]};
      assert keys[i..][1..] == keys[i + 1..];
    }
    return Some(left);
  }
}
