/** A table of packed values with named secondary indexes computed from the values. */
module IndexedDatabases {
  import opened Options
  import opened Indexes

  /** Keys and packed values are strings of bytes. */
  type Raw = string

  type Table = map<Raw, Raw>

  /** How values are packed, and the keys each index derives from a value. */
  datatype Schema<!V(!new)> = Schema(pack: V -> Raw, unpack: Raw -> V, keyFns: map<string, V -> seq<Raw>>) {
    /** What the two functions promise each other. */
    ghost predicate Faithful() {
      forall v :: unpack(pack(v)) == v
    }

    /** The keys the named index derives from a packed value. */
    function KeysOf(name: string): Raw -> set<Raw>
      requires name in keyFns
    {
      var keyFn := keyFns[name];
      packed => SetOf(keyFn(unpack(packed)))
    }
  }

  datatype Db = Db(main: Table, indexes: map<string, Table>)

  /** There is one index for each key function, and each is exactly the one the table derives. */
  ghost predicate ExactDb<V(!new)>(schema: Schema<V>, db: Db) {
    && db.indexes.Keys == schema.keyFns.Keys
    && forall name <- db.indexes :: Exact(db.main, db.indexes[name], schema.KeysOf(name))
  }

  // Updates

  /** Every index without the keys of a packed value. */
  function Without<V(!new)>(schema: Schema<V>, indexes: map<string, Table>, packed: Raw): map<string, Table>
    requires indexes.Keys == schema.keyFns.Keys
  {
    map name | name in indexes :: indexes[name] - schema.KeysOf(name)(packed)
  }

  /** Every index with the keys of a packed value referring to its primary key. */
  function Referring<V(!new)>(schema: Schema<V>, indexes: map<string, Table>, packed: Raw, key: Raw): map<string, Table>
    requires indexes.Keys == schema.keyFns.Keys
  {
    map name | name in indexes :: Refer(indexes[name], schema.KeysOf(name)(packed), key)
  }

  function Dropped<V(!new)>(schema: Schema<V>, db: Db, key: Raw): Db
    requires db.indexes.Keys == schema.keyFns.Keys
  {
    if key !in db.main then db
    else Db(db.main - {key}, Without(schema, db.indexes, db.main[key]))
  }

  function Stored<V(!new)>(schema: Schema<V>, db: Db, key: Raw, packed: Raw): Db
    requires db.indexes.Keys == schema.keyFns.Keys
  {
    Db(db.main[key := packed], Referring(schema, db.indexes, packed, key))
  }

  function DroppedAll<V(!new)>(schema: Schema<V>, db: Db, keys: seq<Raw>): (db': Db)
    requires db.indexes.Keys == schema.keyFns.Keys
    ensures db'.indexes.Keys == schema.keyFns.Keys
  {
    if keys == [] then db else Dropped(schema, DroppedAll(schema, db, keys[..|keys| - 1]), keys[|keys| - 1])
  }

  function StoredAll<V(!new)>(schema: Schema<V>, db: Db, puts: seq<(Raw, Raw)>): (db': Db)
    requires db.indexes.Keys == schema.keyFns.Keys
    ensures db'.indexes.Keys == schema.keyFns.Keys
  {
    if puts == [] then db
    else Stored(schema, StoredAll(schema, db, puts[..|puts| - 1]), puts[|puts| - 1].0, puts[|puts| - 1].1)
  }

  function Packed<V(!new)>(schema: Schema<V>, puts: seq<(Raw, V)>): (packed: seq<(Raw, Raw)>)
    ensures |packed| == |puts|
    ensures forall i :: 0 <= i < |puts| ==> packed[i] == (puts[i].0, schema.pack(puts[i].1))
  {
    seq(|puts|, i requires 0 <= i < |puts| => (puts[i].0, schema.pack(puts[i].1)))
  }

  /** A put packs the value for the table, but derives the index keys from the value itself. */
  function Put<V(!new)>(schema: Schema<V>, db: Db, key: Raw, value: V): Db
    requires db.indexes.Keys == schema.keyFns.Keys
  {
    Db(db.main[key := schema.pack(value)], Listing(schema, db.indexes, value, key))
  }

  /** Every index with the keys of a value referring to its primary key. */
  function Listing<V(!new)>(schema: Schema<V>, indexes: map<string, Table>, value: V, key: Raw): map<string, Table>
    requires indexes.Keys == schema.keyFns.Keys
  {
    map name | name in indexes :: Refer(indexes[name], SetOf(schema.keyFns[name](value)), key)
  }

  function PutAll<V(!new)>(schema: Schema<V>, db: Db, puts: seq<(Raw, V)>): (db': Db)
    requires db.indexes.Keys == schema.keyFns.Keys
    ensures db'.indexes.Keys == schema.keyFns.Keys
  {
    if puts == [] then db
    else Put(schema, PutAll(schema, db, puts[..|puts| - 1]), puts[|puts| - 1].0, puts[|puts| - 1].1)
  }

  /** Deletes first, so that new values can take over the index keys of deleted ones. */
  function Updated<V(!new)>(schema: Schema<V>, db: Db, puts: seq<(Raw, V)>, deletes: seq<Raw>): Db
    requires db.indexes.Keys == schema.keyFns.Keys
  {
    PutAll(schema, DroppedAll(schema, db, deletes), puts)
  }

  /** Packing the values and unpacking them again does not change their index keys. */
  ghost predicate Consistent<V(!new)>(schema: Schema<V>, puts: seq<(Raw, V)>) {
    forall name, i :: name in schema.keyFns && 0 <= i < |puts| ==>
      SetOf(schema.keyFns[name](puts[i].1)) == schema.KeysOf(name)(schema.pack(puts[i].1))
  }

  lemma ListingIsReferring<V(!new)>(schema: Schema<V>, indexes: map<string, Table>, value: V, key: Raw)
    requires indexes.Keys == schema.keyFns.Keys
    requires forall name <- schema.keyFns ::
      SetOf(schema.keyFns[name](value)) == schema.KeysOf(name)(schema.pack(value))
    ensures Listing(schema, indexes, value, key) == Referring(schema, indexes, schema.pack(value), key)
  {
  }

  lemma {:induction false} PutAllIsStored<V(!new)>(schema: Schema<V>, db: Db, puts: seq<(Raw, V)>)
    requires db.indexes.Keys == schema.keyFns.Keys && Consistent(schema, puts)
    ensures PutAll(schema, db, puts) == StoredAll(schema, db, Packed(schema, puts))
  {
    if puts != [] {
      var rest, i := puts[..|puts| - 1], |puts| - 1;
      PutAllIsStored(schema, db, rest);
      assert Packed(schema, puts)[..i] == Packed(schema, rest);
      ListingIsReferring(schema, PutAll(schema, db, rest).indexes, puts[i].1, puts[i].0);
    }
  }

  lemma DropKeepsExact<V(!new)>(schema: Schema<V>, db: Db, key: Raw)
    requires ExactDb(schema, db)
    ensures ExactDb(schema, Dropped(schema, db, key))
  {
    if key in db.main {
      forall name | name in db.indexes
        ensures Exact(db.main - {key}, db.indexes[name] - schema.KeysOf(name)(db.main[key]), schema.KeysOf(name))
      {
        DeleteKeepsExact(db.main, db.indexes[name], schema.KeysOf(name), key);
      }
    }
  }

  /** Deletes remove exactly the named entries and always keep the indexes exact. */
  lemma {:induction false} DropAllKeepsExact<V(!new)>(schema: Schema<V>, db: Db, keys: seq<Raw>)
    requires ExactDb(schema, db)
    ensures ExactDb(schema, DroppedAll(schema, db, keys))
    ensures DroppedAll(schema, db, keys).main == db.main - SetOf(keys)
  {
    if keys == [] {
      assert db.main - SetOf(keys) == db.main;
    } else {
      var rest, key := keys[..|keys| - 1], keys[|keys| - 1];
      DropAllKeepsExact(schema, db, rest);
      DropKeepsExact(schema, DroppedAll(schema, db, rest), key);
      SplitLast(keys);
      SetOfAppend(rest, [key]);
      assert db.main - SetOf(rest) - {key} == db.main - SetOf(keys);
    }
  }

  /** In every index, no two stored values share a key. */
  ghost predicate Disjoint<V(!new)>(schema: Schema<V>, main: Table) {
    forall name, j, k :: name in schema.keyFns && j in main && k in main && j != k ==>
      schema.KeysOf(name)(main[j]) !! schema.KeysOf(name)(main[k])
  }

  lemma ExactIsDisjoint<V(!new)>(schema: Schema<V>, db: Db)
    requires ExactDb(schema, db)
    ensures Disjoint(schema, db.main)
  {
    forall name, j, k | name in schema.keyFns && j in db.main && k in db.main && j != k
      ensures schema.KeysOf(name)(db.main[j]) !! schema.KeysOf(name)(db.main[k])
    {
      assert Exact(db.main, db.indexes[name], schema.KeysOf(name));
      ExactIsFree(db.main, db.indexes[name], schema.KeysOf(name), k);
      assert j in db.main - {k};
    }
  }

  lemma DisjointIsFree<V(!new)>(schema: Schema<V>, main: Table, key: Raw, packed: Raw, name: string)
    requires Disjoint(schema, main[key := packed]) && name in schema.keyFns
    ensures Free(main, schema.KeysOf(name), key, packed)
  {
    var main' := main[key := packed];
    forall j | j in main && j != key
      ensures schema.KeysOf(name)(main[j]) !! schema.KeysOf(name)(packed)
    {
      assert main'[j] == main[j] && main'[key] == packed;
    }
  }

  /** In every index, the value's keys are free and cover those of a value it overwrites. */
  ghost predicate HasRoom<V(!new)>(schema: Schema<V>, main: Table, key: Raw, packed: Raw) {
    forall name <- schema.keyFns ::
      Free(main, schema.KeysOf(name), key, packed) && Covers(main, schema.KeysOf(name), key, packed)
  }

  lemma StoreKeepsIndex<V(!new)>(schema: Schema<V>, db: Db, key: Raw, packed: Raw, name: string)
    requires ExactDb(schema, db) && name in db.indexes
    ensures Exact(db.main[key := packed], Stored(schema, db, key, packed).indexes[name], schema.KeysOf(name)) <==>
            Free(db.main, schema.KeysOf(name), key, packed) && Covers(db.main, schema.KeysOf(name), key, packed)
  {
    PutKeepsExact(db.main, db.indexes[name], schema.KeysOf(name), key, packed);
  }

  lemma RoomKeepsExact<V(!new)>(schema: Schema<V>, db: Db, key: Raw, packed: Raw, db': Db)
    requires ExactDb(schema, db) && HasRoom(schema, db.main, key, packed) && db' == Stored(schema, db, key, packed)
    ensures ExactDb(schema, db')
  {
    forall name | name in db'.indexes
      ensures Exact(db'.main, db'.indexes[name], schema.KeysOf(name))
    {
      StoreKeepsIndex(schema, db, key, packed, name);
    }
  }

  lemma ExactHadRoom<V(!new)>(schema: Schema<V>, db: Db, key: Raw, packed: Raw, db': Db)
    requires ExactDb(schema, db) && ExactDb(schema, db') && db' == Stored(schema, db, key, packed)
    ensures HasRoom(schema, db.main, key, packed)
  {
    forall name | name in schema.keyFns
      ensures Free(db.main, schema.KeysOf(name), key, packed) && Covers(db.main, schema.KeysOf(name), key, packed)
    {
      assert Exact(db'.main, db'.indexes[name], schema.KeysOf(name));
      StoreKeepsIndex(schema, db, key, packed, name);
    }
  }

  /** Storing one value, under a new key or over an old value, keeps the indexes exact if and only if it has room. */
  lemma StoreKeepsExact<V(!new)>(schema: Schema<V>, db: Db, key: Raw, packed: Raw)
    requires ExactDb(schema, db)
    ensures ExactDb(schema, Stored(schema, db, key, packed)) <==> HasRoom(schema, db.main, key, packed)
  {
    var db' := Stored(schema, db, key, packed);
    if HasRoom(schema, db.main, key, packed) {
      RoomKeepsExact(schema, db, key, packed, db');
    }
    if ExactDb(schema, db') {
      ExactHadRoom(schema, db, key, packed, db');
    }
  }

  lemma NewKeyHasRoom<V(!new)>(schema: Schema<V>, main: Table, key: Raw, packed: Raw)
    requires key !in main && Disjoint(schema, main[key := packed])
    ensures HasRoom(schema, main, key, packed)
  {
    forall name | name in schema.keyFns
      ensures Free(main, schema.KeysOf(name), key, packed)
    {
      DisjointIsFree(schema, main, key, packed, name);
    }
  }

  function PutKeys(puts: seq<(Raw, Raw)>): (keys: seq<Raw>)
    ensures |keys| == |puts| && forall i :: 0 <= i < |puts| ==> keys[i] == puts[i].0
  {
    seq(|puts|, i requires 0 <= i < |puts| => puts[i].0)
  }

  lemma {:induction false} StoredKeys<V(!new)>(schema: Schema<V>, db: Db, puts: seq<(Raw, Raw)>)
    requires db.indexes.Keys == schema.keyFns.Keys
    ensures StoredAll(schema, db, puts).main.Keys == db.main.Keys + SetOf(PutKeys(puts))
  {
    if puts != [] {
      var rest := puts[..|puts| - 1];
      StoredKeys(schema, db, rest);
      assert PutKeys(puts) == PutKeys(rest) + [puts[|puts| - 1].0];
      SetOfAppend(PutKeys(rest), [puts[|puts| - 1].0]);
    }
  }

  lemma DisjointBefore<V(!new)>(schema: Schema<V>, main: Table, key: Raw, packed: Raw)
    requires Disjoint(schema, main[key := packed]) && key !in main
    ensures Disjoint(schema, main)
  {
    var main' := main[key := packed];
    assert forall k <- main :: main'[k] == main[k];
  }

  /** Storing under distinct new keys keeps the indexes exact when no index key is shared in the end. */
  lemma {:induction false} StoreAllKeepsExact<V(!new)>(schema: Schema<V>, db: Db, puts: seq<(Raw, Raw)>)
    requires ExactDb(schema, db) && Distinct(PutKeys(puts)) && forall key <- PutKeys(puts) :: key !in db.main
    requires Disjoint(schema, StoredAll(schema, db, puts).main)
    ensures ExactDb(schema, StoredAll(schema, db, puts))
  {
    if puts != [] {
      var rest, key, packed := puts[..|puts| - 1], puts[|puts| - 1].0, puts[|puts| - 1].1;
      var before := StoredAll(schema, db, rest);
      StoredKeys(schema, db, rest);
      assert PutKeys(puts) == PutKeys(rest) + [key] && key in PutKeys(puts);
      assert key !in PutKeys(rest);
      DisjointBefore(schema, before.main, key, packed);
      StoreAllKeepsExact(schema, db, rest);
      NewKeyHasRoom(schema, before.main, key, packed);
      RoomKeepsExact(schema, before, key, packed, Stored(schema, before, key, packed));
    }
  }

  /**
   * An update whose put keys are distinct and not stored after the deletes keeps
   * every index exact if and only if, in the end, no two values share an index
   * key: new values may take over the index keys of deleted ones.
   */
  lemma UpdateKeepsExact<V(!new)>(schema: Schema<V>, db: Db, puts: seq<(Raw, V)>, deletes: seq<Raw>)
    requires ExactDb(schema, db) && Consistent(schema, puts) && Distinct(PutKeys(Packed(schema, puts)))
    requires forall key <- PutKeys(Packed(schema, puts)) :: key in db.main ==> key in deletes
    ensures ExactDb(schema, Updated(schema, db, puts, deletes))
       <==> Disjoint(schema, Updated(schema, db, puts, deletes).main)
  {
    DropAllKeepsExact(schema, db, deletes);
    PutAllIsStored(schema, DroppedAll(schema, db, deletes), puts);
    if Disjoint(schema, Updated(schema, db, puts, deletes).main) {
      StoreAllKeepsExact(schema, DroppedAll(schema, db, deletes), Packed(schema, puts));
    } else if ExactDb(schema, Updated(schema, db, puts, deletes)) {
      ExactIsDisjoint(schema, Updated(schema, db, puts, deletes));
      assert false;
    }
  }

  /** No later put has the same key. */
  ghost predicate LastPut<V(!new)>(puts: seq<(Raw, V)>, i: int) {
    0 <= i < |puts| && forall j :: i < j < |puts| ==> puts[j].0 != puts[i].0
  }

  ghost predicate IsPut<V(!new)>(puts: seq<(Raw, V)>, key: Raw) {
    exists i :: 0 <= i < |puts| && puts[i].0 == key
  }

  lemma {:induction false} LastPutStays<V(!new)>(schema: Schema<V>, db: Db, puts: seq<(Raw, V)>, i: int)
    requires db.indexes.Keys == schema.keyFns.Keys && LastPut(puts, i)
    ensures Lookup(PutAll(schema, db, puts).main, puts[i].0) == Some(schema.pack(puts[i].1))
  {
    var n := |puts| - 1;
    if i < n {
      assert puts[..n][i] == puts[i];
      LastPutStays(schema, db, puts[..n], i);
    }
  }

  lemma {:induction false} PutsLeaveRest<V(!new)>(schema: Schema<V>, db: Db, puts: seq<(Raw, V)>, key: Raw)
    requires db.indexes.Keys == schema.keyFns.Keys && !IsPut(puts, key)
    ensures Lookup(PutAll(schema, db, puts).main, key) == Lookup(db.main, key)
  {
    if puts != [] {
      var n := |puts| - 1;
      assert forall j :: 0 <= j < n ==> puts[..n][j] == puts[j];
      PutsLeaveRest(schema, db, puts[..n], key);
    }
  }

  /**
   * After an update a key that was put has the value of the last put of it, and
   * every other entry is gone if deleted, else unchanged.
   */
  lemma UpdateStores<V(!new)>(schema: Schema<V>, db: Db, puts: seq<(Raw, V)>, deletes: seq<Raw>)
    requires ExactDb(schema, db) && schema.Faithful()
    ensures var main := Updated(schema, db, puts, deletes).main;
      && (forall i :: LastPut(puts, i) ==> puts[i].0 in main && schema.unpack(main[puts[i].0]) == puts[i].1)
      && (forall k :: !IsPut(puts, k) ==> Lookup(main, k) == if k in deletes then None else Lookup(db.main, k))
  {
    DropAllKeepsExact(schema, db, deletes);
    var dropped, main := DroppedAll(schema, db, deletes), Updated(schema, db, puts, deletes).main;
    forall i | LastPut(puts, i)
      ensures puts[i].0 in main && schema.unpack(main[puts[i].0]) == puts[i].1
    {
      LastPutStays(schema, dropped, puts, i);
    }
    forall k | !IsPut(puts, k)
      ensures Lookup(main, k) == if k in deletes then None else Lookup(db.main, k)
    {
      PutsLeaveRest(schema, dropped, puts, k);
    }
  }

  // Indexed reads

  datatype DbError = UnknownIndex | OutOfSync

  /** Looks up one key, through an index if one is given. */
  function Fetch(main: Table, index: Option<Table>, key: Raw): Outcome<Option<(Raw, Raw)>, DbError> {
    match index
    case None => Ok(if key in main then Some((key, main[key])) else None)
    case Some(t) =>
      if key !in t || t[key] == "" then Ok(None)
      else if t[key] !in main then Err(OutOfSync)
      else Ok(Some((t[key], main[t[key]])))
  }

  /** The entries found, in the order of the keys; stops at the first error. */
  function FetchAll(main: Table, index: Option<Table>, keys: seq<Raw>): Outcome<seq<(Raw, Raw)>, DbError> {
    if keys == [] then Ok([])
    else
      var found := FetchAll(main, index, keys[..|keys| - 1]);
      var next := Fetch(main, index, keys[|keys| - 1]);
      if found.Err? then found
      else if next.Err? then Err(next.error)
      else if next.value.None? then found
      else Ok(found.value + [next.value.value])
  }

  /** The entries whose values list one of the keys, in the order of the keys. */
  ghost function Selected(main: Table, keysOf: Raw -> set<Raw>, keys: seq<Raw>): seq<(Raw, Raw)> {
    if keys == [] then []
    else
      Selected(main, keysOf, keys[..|keys| - 1]) +
      if k :| k in main && keys[|keys| - 1] in keysOf(main[k]) then [(k, main[k])] else []
  }

  /** Through an exact index a read finds exactly the values that list the key and never reports it out of sync. */
  lemma {:induction false} FetchIsExact(main: Table, index: Table, keysOf: Raw -> set<Raw>, keys: seq<Raw>)
    requires Exact(main, index, keysOf) && "" !in main
    ensures FetchAll(main, Some(index), keys) == Ok(Selected(main, keysOf, keys))
  {
    if keys != [] {
      var rest, key := keys[..|keys| - 1], keys[|keys| - 1];
      FetchIsExact(main, index, keysOf, rest);
      if key in index {
        assert forall k :: k in main && key in keysOf(main[k]) ==> k == index[key];
      } else {
        assert Selected(main, keysOf, rest) + [] == Selected(main, keysOf, rest);
      }
    }
  }

  // Reads of the main table

  /** The stored ones of the keys, in order, with their packed values. */
  function Present(main: Table, keys: seq<Raw>): seq<(Raw, Raw)> {
    if keys == [] then []
    else (if keys[0] in main then [(keys[0], main[keys[0]])] else []) + Present(main, keys[1..])
  }

  lemma {:induction false} PresentLast(main: Table, keys: seq<Raw>, key: Raw)
    ensures Present(main, keys + [key]) == Present(main, keys) + if key in main then [(key, main[key])] else []
    decreases |keys|
  {
    if keys == [] {
      assert keys + [key] == [key] && [key][1..] == [];
    } else {
      PresentLast(main, keys[1..], key);
      assert (keys + [key])[1..] == keys[1..] + [key];
    }
  }

  /** Without an index a read never fails, and finds exactly the stored keys. */
  lemma {:induction false} FetchesPresent(main: Table, keys: seq<Raw>)
    ensures FetchAll(main, None, keys) == Ok(Present(main, keys))
  {
    if keys != [] {
      var rest, key := keys[..|keys| - 1], keys[|keys| - 1];
      FetchesPresent(main, rest);
      SplitLast(keys);
      PresentLast(main, rest, key);
      assert key !in main ==> Present(main, rest) + [] == Present(main, rest);
    }
  }

  /** The keys of the puts, in order. */
  function KeysPut<V>(puts: seq<(Raw, V)>): (keys: seq<Raw>)
    ensures |keys| == |puts| && forall i :: 0 <= i < |puts| ==> keys[i] == puts[i].0
  {
    seq(|puts|, i requires 0 <= i < |puts| => puts[i].0)
  }

  lemma {:induction false} PresentAfterPuts<V(!new)>(schema: Schema<V>, main: Table, puts: seq<(Raw, V)>)
    requires forall i :: 0 <= i < |puts| ==> puts[i].0 in main && schema.unpack(main[puts[i].0]) == puts[i].1
    ensures Decodes(schema, Ok(puts), Ok(Present(main, KeysPut(puts))))
    decreases |puts|
  {
    if puts != [] {
      PresentAfterPuts(schema, main, puts[1..]);
      assert KeysPut(puts)[1..] == KeysPut(puts[1..]);
    }
  }

  /** Reading back the keys just put returns exactly the puts. */
  lemma PutsReadBack<V(!new)>(schema: Schema<V>, db: Db, puts: seq<(Raw, V)>, deletes: seq<Raw>)
    requires ExactDb(schema, db) && schema.Faithful() && Distinct(KeysPut(puts))
    ensures Decodes(schema, Ok(puts), Ok(Present(Updated(schema, db, puts, deletes).main, KeysPut(puts))))
  {
    UpdateStores(schema, db, puts, deletes);
    var keys := KeysPut(puts);
    forall i | 0 <= i < |puts|
      ensures LastPut(puts, i)
    {
      assert forall j :: i < j < |puts| ==> keys[j] != keys[i];
    }
    PresentAfterPuts(schema, Updated(schema, db, puts, deletes).main, puts);
  }

  // Reads through any index

  /** The primary keys that the index keys refer to, in order. */
  function Targets(index: Table, keys: seq<Raw>): seq<Raw> {
    if keys == [] then []
    else (if keys[0] in index && index[keys[0]] != "" then [index[keys[0]]] else []) + Targets(index, keys[1..])
  }

  /** The key refers to an entry that the table does not have. */
  predicate Dangles(main: Table, index: Table, key: Raw) {
    key in index && index[key] != "" && index[key] !in main
  }

  lemma {:induction false} TargetsLast(index: Table, keys: seq<Raw>, key: Raw)
    ensures Targets(index, keys + [key]) ==
      Targets(index, keys) + if key in index && index[key] != "" then [index[key]] else []
    decreases |keys|
  {
    if keys == [] {
      assert keys + [key] == [key] && [key][1..] == [];
    } else {
      TargetsLast(index, keys[1..], key);
      assert (keys + [key])[1..] == keys[1..] + [key];
    }
  }

  ghost predicate AnyDangles(main: Table, index: Table, keys: seq<Raw>) {
    exists key <- keys :: Dangles(main, index, key)
  }

  lemma DanglesLast(main: Table, index: Table, keys: seq<Raw>, key: Raw)
    ensures AnyDangles(main, index, keys + [key]) <==> AnyDangles(main, index, keys) || Dangles(main, index, key)
  {
    assert key in keys + [key] && forall k <- keys :: k in keys + [key];
  }

  /** Through any index a read is out of sync exactly if a key dangles, and otherwise finds what the keys refer to. */
  lemma {:induction false} FetchesTargets(main: Table, index: Table, keys: seq<Raw>)
    ensures FetchAll(main, Some(index), keys) ==
      if AnyDangles(main, index, keys) then Err(OutOfSync) else Ok(Present(main, Targets(index, keys)))
  {
    if keys != [] {
      var rest, key := keys[..|keys| - 1], keys[|keys| - 1];
      FetchesTargets(main, index, rest);
      SplitLast(keys);
      DanglesLast(main, index, rest, key);
      TargetsLast(index, rest, key);
      if key in index && index[key] != "" {
        PresentLast(main, Targets(index, rest), index[key]);
      } else {
        assert Targets(index, rest) + [] == Targets(index, rest);
      }
    }
  }

  // The database

  /** Indexes part way from one version to another. */
  ghost function Mixed(before: map<string, Table>, after: map<string, Table>, todo: set<string>): map<string, Table>
    requires before.Keys == after.Keys
  {
    map name | name in before :: if name in todo then before[name] else after[name]
  }

  lemma MixedEnds(before: map<string, Table>, after: map<string, Table>)
    requires before.Keys == after.Keys
    ensures Mixed(before, after, before.Keys) == before
    ensures Mixed(before, after, {}) == after
  {
  }

  lemma MixedNext(before: map<string, Table>, after: map<string, Table>, todo: set<string>, name: string)
    requires before.Keys == after.Keys && name in before && name in todo
    ensures Mixed(before, after, todo)[name := after[name]] == Mixed(before, after, todo - {name})
    ensures Mixed(before, after, todo)[name] == before[name]
  {
  }

  class IndexedDatabase<V(!new)> {
    const schema: Schema<V>
    var main: Table
    var indexes: map<string, Table>

    ghost predicate Valid()
      reads this
    {
      indexes.Keys == schema.keyFns.Keys
    }

    ghost function View(): Db
      reads this
    {
      Db(main, indexes)
    }

    constructor (schema: Schema<V>)
      ensures this.schema == schema && Valid() && main == map[] && ExactDb(schema, View())
    {
      this.schema := schema;
      main := map[];
      indexes := map name | name in schema.keyFns :: map[];
    }

    method DropFromIndexes(packed: Raw)
      requires Valid()
      modifies this`indexes
      ensures indexes == Without(schema, old(indexes), packed)
    {
      ghost var target := Without(schema, indexes, packed);
      MixedEnds(indexes, target);
      var value := schema.unpack(packed);
      var todo := indexes.Keys;
      while todo != {}
        invariant todo <= target.Keys && indexes == Mixed(old(indexes), target, todo)
      {
        var name :| name in todo;
        var index := RemovePresent(indexes[name], schema.keyFns[name](value));
        MixedNext(old(indexes), target, todo, name);
        indexes := indexes[name := index];
        todo := todo - {name};
      }
    }

    method AddToIndexes(value: V, key: Raw)
      requires Valid()
      modifies this`indexes
      ensures indexes == Listing(schema, old(indexes), value, key)
    {
      ghost var target := Listing(schema, indexes, value, key);
      MixedEnds(indexes, target);
      var todo := indexes.Keys;
      while todo != {}
        invariant todo <= target.Keys && indexes == Mixed(old(indexes), target, todo)
      {
        var name :| name in todo;
        var index := ReferEach(indexes[name], schema.keyFns[name](value), key);
        MixedNext(old(indexes), target, todo, name);
        indexes := indexes[name := index];
        todo := todo - {name};
      }
    }

    method Update(puts: seq<(Raw, V)>, deletes: seq<Raw>)
      requires Valid()
      modifies this
      ensures Valid() && View() == Updated(schema, old(View()), puts, deletes)
    {
      for i := 0 to |deletes|
        invariant Valid() && View() == DroppedAll(schema, old(View()), deletes[..i])
      {
        assert deletes[..i + 1][..i] == deletes[..i];
        if deletes[i] in main {
          var packed := main[deletes[i]];
          main := main - {deletes[i]};
          DropFromIndexes(packed);
        }
      }
      assert deletes[..|deletes|] == deletes;
      ghost var dropped := View();
      for i := 0 to |puts|
        invariant Valid() && View() == PutAll(schema, dropped, puts[..i])
      {
        assert puts[..i + 1][..i] == puts[..i];
        var (key, value) := puts[i];
        main := main[key := schema.pack(value)];
        AddToIndexes(value, key);
      }
      assert puts[..|puts|] == puts;
    }

    method GetMulti(keys: seq<Raw>, index: Option<string>) returns (r: Outcome<seq<(Raw, V)>, DbError>)
      ensures r == Err(UnknownIndex) <==> index.Some? && index.value !in indexes
      ensures r != Err(UnknownIndex) ==>
        Decodes(schema, r, FetchAll(main, if index.Some? then Some(indexes[index.value]) else None, keys))
      ensures index.None? ==> Decodes(schema, r, Ok(Present(main, keys)))
      ensures index.Some? && index.value in indexes ==>
        var t := indexes[index.value];
        if AnyDangles(main, t, keys) then r == Err(OutOfSync)
        else Decodes(schema, r, Ok(Present(main, Targets(t, keys))))
    {
      if index.Some? && index.value !in indexes {
        return Err(UnknownIndex);
      }
      var table := if index.Some? then Some(indexes[index.value]) else None;
      FetchesPresent(main, keys);
      if table.Some? {
        FetchesTargets(main, table.value, keys);
      }
      var result: seq<(Raw, V)> := [];
      for i := 0 to |keys|
        invariant Decodes(schema, Ok(result), FetchAll(main, table, keys[..i]))
      {
        assert keys[..i + 1][..i] == keys[..i];
        var next := Fetch(main, table, keys[i]);
        if next.Err? {
          FetchFails(main, table, keys, i);
          return Err(OutOfSync);
        }
        if next.value.Some? {
          result := result + [(next.value.value.0, schema.unpack(next.value.value.1))];
        }
      }
      assert keys[..|keys|] == keys;
      return Ok(result);
    }
  }

  /** The entries are those found, unpacked. */
  ghost predicate Decodes<V(!new)>(schema: Schema<V>, r: Outcome<seq<(Raw, V)>, DbError>,
                                   found: Outcome<seq<(Raw, Raw)>, DbError>)
  {
    match (r, found)
    case (Ok(entries), Ok(raw)) =>
      |entries| == |raw| && forall i :: 0 <= i < |raw| ==> entries[i] == (raw[i].0, schema.unpack(raw[i].1))
    case (Err(e), Err(f)) => e == f
    case _ => false
  }

  lemma {:induction false} FetchFails(main: Table, index: Option<Table>, keys: seq<Raw>, i: nat)
    requires i < |keys| && Fetch(main, index, keys[i]).Err?
    ensures FetchAll(main, index, keys) == Err(OutOfSync)
  {
    if i < |keys| - 1 {
      FetchFails(main, index, keys[..|keys| - 1], i);
    } else if FetchAll(main, index, keys[..|keys| - 1]).Err? {
      FetchError(main, index, keys[..|keys| - 1]);
    }
  }

  lemma {:induction false} FetchError(main: Table, index: Option<Table>, keys: seq<Raw>)
    ensures FetchAll(main, index, keys).Err? ==> FetchAll(main, index, keys).error == OutOfSync
  {
    if keys != [] {
      FetchError(main, index, keys[..|keys| - 1]);
    }
  }
}
