/** Secondary indexes: which primary key each index key refers to. */
module Indexes {
  import opened Options

  /**
   * The index is exactly the one derived from the table: it refers every index
   * key of every stored value to that value's primary key, and holds nothing else.
   */
  ghost predicate Exact<K, V, I>(table: map<K, V>, index: map<I, K>, keysOf: V -> set<I>) {
    && (forall i <- index :: index[i] in table && i in keysOf(table[index[i]]))
    && (forall k, i :: k in table && i in keysOf(table[k]) ==> i in index && index[i] == k)
  }

  /** The index after referring every given key to one primary key. */
  function Refer<K, I>(index: map<I, K>, keys: set<I>, k: K): map<I, K> {
    map i | i in index.Keys + keys :: if i in keys then k else index[i]
  }

  /** The value's index keys are free: no other stored value has one of them. */
  ghost predicate Free<K, V, I>(table: map<K, V>, keysOf: V -> set<I>, k: K, v: V) {
    forall j <- table :: j != k ==> keysOf(table[j]) !! keysOf(v)
  }

  /** Overwriting a value orphans no index key of the old one. */
  ghost predicate Covers<K, V, I>(table: map<K, V>, keysOf: V -> set<I>, k: K, v: V) {
    k in table ==> keysOf(table[k]) <= keysOf(v)
  }

  /**
   * Storing a value and referring its keys to it keeps the index exact if and
   * only if the keys are free and none of an overwritten value is left behind.
   */
  lemma PutKeepsExact<K, V, I>(table: map<K, V>, index: map<I, K>, keysOf: V -> set<I>, k: K, v: V)
    requires Exact(table, index, keysOf)
    ensures Exact(table[k := v], Refer(index, keysOf(v), k), keysOf)
            <==> Free(table, keysOf, k, v) && Covers(table, keysOf, k, v)
  {
    var table', index' := table[k := v], Refer(index, keysOf(v), k);
    if Exact(table', index', keysOf) {
      forall j | j in table && j != k
        ensures keysOf(table[j]) !! keysOf(v)
      {
        forall i | i in keysOf(table[j])
          ensures i !in keysOf(v)
        {
          assert table'[j] == table[j] && i in index' && index'[i] == j;
        }
      }
      if k in table {
        forall i | i in keysOf(table[k])
          ensures i in keysOf(v)
        {
          assert index[i] == k && i in index' && index'[i] == k;
        }
      }
    } else if Free(table, keysOf, k, v) && Covers(table, keysOf, k, v) {
      PutFreeIsExact(table, index, keysOf, k, v);
      assert false;
    }
  }

  lemma PutFreeIsExact<K, V, I>(table: map<K, V>, index: map<I, K>, keysOf: V -> set<I>, k: K, v: V)
    requires Exact(table, index, keysOf) && Free(table, keysOf, k, v) && Covers(table, keysOf, k, v)
    ensures Exact(table[k := v], Refer(index, keysOf(v), k), keysOf)
  {
    var table', index' := table[k := v], Refer(index, keysOf(v), k);
    forall i | i in index'
      ensures index'[i] in table' && i in keysOf(table'[index'[i]])
    {
      if i !in keysOf(v) {
        assert index[i] in table && i in keysOf(table[index[i]]);
      }
    }
    forall j, i | j in table' && i in keysOf(table'[j])
      ensures i in index' && index'[i] == j
    {
      if j != k {
        assert keysOf(table[j]) !! keysOf(v);
      }
    }
  }

  /** Storing a new value adds one index entry for each of its keys. */
  lemma PutAddsEntries<K, V, I>(table: map<K, V>, index: map<I, K>, keysOf: V -> set<I>, k: K, v: V)
    requires Exact(table, index, keysOf) && Free(table, keysOf, k, v) && k !in table
    ensures |Refer(index, keysOf(v), k)| == |index| + |keysOf(v)|
  {
    assert index.Keys !! keysOf(v);
    assert Refer(index, keysOf(v), k).Keys == index.Keys + keysOf(v);
  }

  /** Removing a value together with its index keys keeps the index exact. */
  lemma DeleteKeepsExact<K, V, I>(table: map<K, V>, index: map<I, K>, keysOf: V -> set<I>, k: K)
    requires Exact(table, index, keysOf) && k in table
    ensures Exact(table - {k}, index - keysOf(table[k]), keysOf)
  {
    var table', index' := table - {k}, index - keysOf(table[k]);
    forall i | i in index'
      ensures index'[i] in table' && i in keysOf(table'[index'[i]])
    {
      assert index[i] in table && i in keysOf(table[index[i]]);
    }
    forall j, i | j in table' && i in keysOf(table'[j])
      ensures i in index' && index'[i] == j
    {
      assert i in index && index[i] == j;
    }
  }

  lemma ExactHasKeys<K, V, I>(table: map<K, V>, index: map<I, K>, keysOf: V -> set<I>, k: K)
    requires Exact(table, index, keysOf) && k in table
    ensures keysOf(table[k]) <= index.Keys
  {
  }

  /** Under an exact index no two stored values share an index key. */
  lemma ExactIsFree<K, V, I>(table: map<K, V>, index: map<I, K>, keysOf: V -> set<I>, k: K)
    requires Exact(table, index, keysOf) && k in table
    ensures Free(table - {k}, keysOf, k, table[k])
  {
    forall j | j in table && j != k
      ensures keysOf(table[j]) !! keysOf(table[k])
    {
      forall i | i in keysOf(table[j])
        ensures i !in keysOf(table[k])
      {
        assert index[i] == j;
      }
    }
  }

  /** An exact index is determined by its table. */
  lemma ExactIsUnique<K, V, I>(table: map<K, V>, index: map<I, K>, other: map<I, K>, keysOf: V -> set<I>)
    requires Exact(table, index, keysOf) && Exact(table, other, keysOf)
    ensures index == other
  {
    forall i
      ensures i in index <==> i in other
      ensures i in index ==> index[i] == other[i]
    {
      if i in index {
        assert index[i] in table && i in keysOf(table[index[i]]);
      }
    }
  }

  method ReferEach<K, I(==)>(index: map<I, K>, keys: seq<I>, k: K) returns (index': map<I, K>)
    ensures index' == Refer(index, SetOf(keys), k)
  {
    index' := index;
    for i := 0 to |keys|
      invariant index' == Refer(index, SetOf(keys[..i]), k)
    {
      assert keys[..i + 1] == keys[..i] + [keys[i]];
      SetOfAppend(keys[..i], [keys[i]]);
      index' := index'[keys[i] := k];
    }
    assert keys[..|keys|] == keys;
  }

  /** Deletes the keys that are present. */
  method RemovePresent<K, I(==)>(index: map<I, K>, keys: seq<I>) returns (index': map<I, K>)
    ensures index' == index - SetOf(keys)
  {
    index' := index;
    for i := 0 to |keys|
      invariant index' == index - SetOf(keys[..i])
    {
      assert keys[..i + 1] == keys[..i] + [keys[i]];
      SetOfAppend(keys[..i], [keys[i]]);
      if keys[i] in index' {
        index' := index' - {keys[i]};
      }
    }
    assert keys[..|keys|] == keys;
  }
}
