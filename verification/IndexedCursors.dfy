/** Cursors that follow index entries to packed values, in key order. */
module IndexedCursors {
  import opened Options
  import opened Indexes
  import opened ByteOrder
  import opened IndexedDatabases

  // Key order

  lemma LastIsUnique(keys: set<string>, k: string, l: string)
    requires IsLast(keys, k) && IsLast(keys, l)
    ensures k == l
  {
    if k != l {
      LessTransitive(k, l, k);
      LessIrreflexive(k);
    }
  }

  lemma {:induction false} LastExists(keys: set<string>)
    requires keys != {}
    ensures exists k :: IsLast(keys, k)
  {
    var k :| k in keys;
    if keys == {k} {
      assert IsLast(keys, k);
    } else {
      var rest := keys - {k};
      LastExists(rest);
      var l :| IsLast(rest, l);
      assert keys == rest + {k};
      if Less(l, k) {
        BelowNew(rest, l, k);
      } else {
        LessTotal(l, k);
        assert IsLast(keys, l);
      }
    }
  }

  /** The keys in the order a cursor meets them. */
  ghost function Ordered(keys: set<string>): seq<string> {
    if keys == {} then []
    else
      LastExists(keys);
      var k :| IsLast(keys, k);
      Ordered(keys - {k}) + [k]
  }

  ghost predicate Ascending(keys: seq<string>) {
    forall i, j :: 0 <= i < j < |keys| ==> Less(keys[i], keys[j])
  }

  lemma {:induction false} OrderedIsAscending(keys: set<string>)
    ensures SetOf(Ordered(keys)) == keys && Ascending(Ordered(keys))
  {
    if keys != {} {
      LastExists(keys);
      var k :| IsLast(keys, k) && Ordered(keys) == Ordered(keys - {k}) + [k];
      OrderedIsAscending(keys - {k});
      SetOfAppend(Ordered(keys - {k}), [k]);
      forall i | 0 <= i < |Ordered(keys - {k})|
        ensures Less(Ordered(keys - {k})[i], k)
      {
        assert Ordered(keys - {k})[i] in SetOf(Ordered(keys - {k}));
      }
    }
  }

  method SortedKeys(keys: set<string>) returns (sorted: seq<string>)
    ensures sorted == Ordered(keys)
  {
    sorted := [];
    var todo := keys;
    while todo != {}
      invariant Ordered(keys) == Ordered(todo) + sorted
    {
      var last := Last(todo);
      ghost var k :| IsLast(todo, k) && Ordered(todo) == Ordered(todo - {k}) + [k];
      LastIsUnique(todo, k, last.value);
      todo := todo - {last.value};
      sorted := [last.value] + sorted;
    }
  }

  // Following references

  /** Follows a key through tables of references to the packed value at the end. */
  function Follow(key: Raw, chain: seq<Table>): Outcome<Raw, DbError>
    decreases |chain|
  {
    if chain == [] then Ok(key)
    else if key !in chain[0] || chain[0][key] == "" then Err(OutOfSync)
    else Follow(chain[0][key], chain[1..])
  }

  method Read(initial: Raw, chain: seq<Table>) returns (r: Outcome<Raw, DbError>)
    ensures r == Follow(initial, chain)
  {
    var key := initial;
    for i := 0 to |chain|
      invariant Follow(initial, chain) == Follow(key, chain[i..])
    {
      assert chain[i..][1..] == chain[i + 1..];
      if key !in chain[i] || chain[i][key] == "" {
        return Err(OutOfSync);
      }
      key := chain[i][key];
    }
    return Ok(key);
  }

  /** What iterating over keys of the first table yields, and how it ends. */
  function Yielded(first: Table, keys: seq<Raw>, chain: seq<Table>): (seq<Raw>, Outcome<(), DbError>)
    requires forall key <- keys :: key in first
    decreases |keys|
  {
    if keys == [] then ([], Ok(()))
    else
      var next := Follow(first[keys[0]], chain);
      if next.Err? then ([], Err(next.error))
      else
        var (rest, r) := Yielded(first, keys[1..], chain);
        ([next.value] + rest, r)
  }

  method Iterate(first: Table, keys: seq<Raw>, chain: seq<Table>) returns (values: seq<Raw>, r: Outcome<(), DbError>)
    requires forall key <- keys :: key in first
    ensures (values, r) == Yielded(first, keys, chain)
  {
    values := [];
    var todo := keys;
    while todo != []
      invariant forall key <- todo :: key in first
      invariant Yielded(first, keys, chain).0 == values + Yielded(first, todo, chain).0
      invariant Yielded(first, keys, chain).1 == Yielded(first, todo, chain).1
    {
      var next := Read(first[todo[0]], chain);
      if next.Err? {
        assert values + [] == values;
        return values, Err(next.error);
      }
      ghost var rest := Yielded(first, todo[1..], chain).0;
      assert values + ([next.value] + rest) == values + [next.value] + rest;
      values := values + [next.value];
      todo := todo[1..];
    }
    assert Yielded(first, [], chain).0 == [] && values + [] == values;
    return values, Ok(());
  }

  /** The keys a cursor visits, forward or in reverse. */
  ghost function Visited(table: Table, reverse: bool): seq<Raw> {
    if reverse then Reverse(Ordered(table.Keys)) else Ordered(table.Keys)
  }

  lemma VisitedKeys(table: Table, reverse: bool)
    ensures forall key :: key in Visited(table, reverse) <==> key in table
  {
    var keys := Ordered(table.Keys);
    OrderedIsAscending(table.Keys);
    ReverseElements(keys);
    assert forall key :: key in keys <==> key in SetOf(keys);
  }

  /** What a cursor over the database yields. */
  ghost predicate IsIteration(db: Db, index: Option<string>, reverse: bool, values: seq<Raw>, r: Outcome<(), DbError>) {
    match index
    case None =>
      VisitedKeys(db.main, reverse);
      (values, r) == Yielded(db.main, Visited(db.main, reverse), [])
    case Some(name) =>
      if name !in db.indexes then values == [] && r == Err(UnknownIndex)
      else
        VisitedKeys(db.indexes[name], reverse);
        (values, r) == Yielded(db.indexes[name], Visited(db.indexes[name], reverse), [db.main])
  }

  method Reversed(keys: seq<Raw>) returns (reversed: seq<Raw>)
    ensures reversed == Reverse(keys)
  {
    ReverseElements(keys);
    reversed := seq(|keys|, i requires 0 <= i < |keys| => keys[|keys| - 1 - i]);
  }

  method CursorIter(main: Table, indexes: map<string, Table>, index: Option<string>, reverse: bool)
    returns (values: seq<Raw>, r: Outcome<(), DbError>)
    ensures IsIteration(Db(main, indexes), index, reverse, values, r)
  {
    if index.Some? && index.value !in indexes {
      return [], Err(UnknownIndex);
    }
    var first := if index.Some? then indexes[index.value] else main;
    var chain := if index.Some? then [main] else [];
    var keys := SortedKeys(first.Keys);
    if reverse {
      keys := Reversed(keys);
    }
    VisitedKeys(first, reverse);
    values, r := Iterate(first, keys, chain);
  }

  // The order of the keys

  /** All the keys, each once: forward each is less than the next, in reverse greater. */
  ghost predicate InKeyOrder(keys: seq<Raw>, all: set<Raw>, reverse: bool) {
    && (forall key :: key in keys <==> key in all)
    && forall i :: 0 < i < |keys| ==> if reverse then Less(keys[i], keys[i - 1]) else Less(keys[i - 1], keys[i])
  }

  lemma VisitedInOrder(table: Table, reverse: bool)
    ensures InKeyOrder(Visited(table, reverse), table.Keys, reverse)
  {
    VisitedKeys(table, reverse);
    OrderedIsAscending(table.Keys);
    ReverseElements(Ordered(table.Keys));
  }

  // What cursors yield

  /** The key leads to a value that does not pack to nothing. */
  predicate Leads(main: Table, index: Table, key: Raw) {
    key in index && index[key] in main && main[index[key]] != ""
  }

  /** The values the keys lead to, in order, up to the first that leads nowhere, where the cursor stops. */
  ghost predicate ReadsInOrder(main: Table, index: Table, keys: seq<Raw>, values: seq<Raw>, r: Outcome<(), DbError>) {
    && |values| <= |keys|
    && (forall i :: 0 <= i < |values| ==> Leads(main, index, keys[i]) && values[i] == main[index[keys[i]]])
    && if |values| == |keys| then r == Ok(()) else r == Err(OutOfSync) && !Leads(main, index, keys[|values|])
  }

  lemma FollowOne(main: Table, key: Raw)
    ensures Follow(key, [main]) == if key !in main || main[key] == "" then Err(OutOfSync) else Ok(main[key])
  {
    assert [main][1..] == [];
  }

  lemma {:induction false} YieldsInOrder(main: Table, index: Table, keys: seq<Raw>)
    requires forall key <- keys :: key in index
    ensures var (values, r) := Yielded(index, keys, [main]);
      ReadsInOrder(main, index, keys, values, r)
    decreases |keys|
  {
    if keys != [] {
      assert keys[0] in index;
      FollowOne(main, index[keys[0]]);
      YieldsInOrder(main, index, keys[1..]);
    }
  }

  lemma {:induction false} YieldsMain(main: Table, keys: seq<Raw>)
    requires forall key <- keys :: key in main
    ensures var (values, r) := Yielded(main, keys, []);
      r == Ok(()) && |values| == |keys| && forall i :: 0 <= i < |keys| ==> keys[i] in main && values[i] == main[keys[i]]
    decreases |keys|
  {
    if keys != [] {
      assert keys[0] in main;
      YieldsMain(main, keys[1..]);
    }
  }

  /**
   * Over any index a cursor goes through its keys in byte order, or the reverse,
   * and yields the value each key leads to. It stops, out of sync, at the first
   * key that leads to no value or to one that packs to nothing.
   */
  lemma CursorFollowsKeys(db: Db, name: string, reverse: bool, values: seq<Raw>, r: Outcome<(), DbError>)
    requires IsIteration(db, Some(name), reverse, values, r)
    ensures name !in db.indexes ==> values == [] && r == Err(UnknownIndex)
    ensures name in db.indexes ==> exists keys ::
      InKeyOrder(keys, db.indexes[name].Keys, reverse) && ReadsInOrder(db.main, db.indexes[name], keys, values, r)
  {
    if name in db.indexes {
      VisitedInOrder(db.indexes[name], reverse);
      YieldsInOrder(db.main, db.indexes[name], Visited(db.indexes[name], reverse));
    }
  }

  lemma CompletesExactly(main: Table, index: Table, reverse: bool, keys: seq<Raw>, values: seq<Raw>,
                         r: Outcome<(), DbError>)
    requires InKeyOrder(keys, index.Keys, reverse) && ReadsInOrder(main, index, keys, values, r)
    ensures r.Ok? <==> forall key <- index :: Leads(main, index, key)
  {
    if r.Ok? {
      forall key | key in index
        ensures Leads(main, index, key)
      {
        var i :| 0 <= i < |keys| && keys[i] == key;
        assert values[i] == main[index[keys[i]]];
      }
    } else {
      assert keys[|values|] in keys && keys[|values|] in index;
    }
  }

  /**
   * From an exact database, moreover, each value yielded lists its key, and the
   * cursor completes if and only if no value packs to nothing.
   */
  lemma CursorIsExact<V(!new)>(schema: Schema<V>, db: Db, name: string, reverse: bool, values: seq<Raw>,
                               r: Outcome<(), DbError>)
    requires ExactDb(schema, db) && name in db.indexes && IsIteration(db, Some(name), reverse, values, r)
    ensures exists keys ::
      && InKeyOrder(keys, db.indexes[name].Keys, reverse) && ReadsInOrder(db.main, db.indexes[name], keys, values, r)
      && forall i :: 0 <= i < |values| ==> keys[i] in schema.KeysOf(name)(values[i])
    ensures r.Ok? <==> forall key <- db.indexes[name] ::
      db.indexes[name][key] in db.main && db.main[db.indexes[name][key]] != ""
  {
    var main, index := db.main, db.indexes[name];
    CursorFollowsKeys(db, name, reverse, values, r);
    var keys :| InKeyOrder(keys, index.Keys, reverse) && ReadsInOrder(main, index, keys, values, r);
    assert Exact(main, index, schema.KeysOf(name));
    ListsKeys(main, index, schema.KeysOf(name), keys, values, r);
    CompletesExactly(main, index, reverse, keys, values, r);
    assert forall key <- index :: Leads(main, index, key) <==> main[index[key]] != "";
  }

  lemma ListsKeys(main: Table, index: Table, keysOf: Raw -> set<Raw>, keys: seq<Raw>, values: seq<Raw>,
                  r: Outcome<(), DbError>)
    requires Exact(main, index, keysOf) && ReadsInOrder(main, index, keys, values, r)
    ensures forall i :: 0 <= i < |values| ==> keys[i] in keysOf(values[i])
  {
    forall i | 0 <= i < |values|
      ensures keys[i] in keysOf(values[i])
    {
      assert Leads(main, index, keys[i]);
    }
  }

  /** A cursor over the main table goes through its keys in the same order and yields all their values. */
  lemma MainCursorIsExact(db: Db, reverse: bool, values: seq<Raw>, r: Outcome<(), DbError>)
    requires IsIteration(db, None, reverse, values, r)
    ensures r == Ok(())
    ensures exists keys ::
      && InKeyOrder(keys, db.main.Keys, reverse) && |values| == |keys|
      && forall i :: 0 <= i < |keys| ==> keys[i] in db.main && values[i] == db.main[keys[i]]
  {
    var keys := Visited(db.main, reverse);
    VisitedInOrder(db.main, reverse);
    YieldsMain(db.main, keys);
    assert |values| == |keys|;
  }

  /** Values are packed as they are, and listed under one index key. */
  const PlainSchema: Schema<string> := Schema((v: string) => v, (raw: Raw) => raw, map["by" := (v: string) => ["i"]])

  lemma PlainIsExact(main: Table, index: Table)
    requires main == map["k" := ""] && index == map["i" := "k"]
    ensures PlainSchema.Faithful() && ExactDb(PlainSchema, Db(main, map["by" := index]))
  {
    assert forall packed :: PlainSchema.KeysOf("by")(packed) == {"i"};
  }

  lemma OrderedOne(key: string)
    ensures Ordered({key}) == [key]
  {
    LastExists({key});
    var k :| IsLast({key}, k) && Ordered({key}) == Ordered({key} - {k}) + [k];
    assert k == key && {key} - {k} == {};
  }

  lemma StopsAtEmpty(main: Table, index: Table, i: Raw, k: Raw)
    requires main == map[k := ""] && index == map[i := k]
    ensures Yielded(index, [i], [main]) == ([], Err(OutOfSync))
  {
    FollowOne(main, k);
  }

  /** A value that packs to nothing makes an exact index look out of sync. */
  lemma EmptyValueStopsCursor()
    ensures var db := Db(map["k" := ""], map["by" := map["i" := "k"]]);
      && PlainSchema.Faithful() && ExactDb(PlainSchema, db)
      && IsIteration(db, Some("by"), false, [], Err(OutOfSync))
  {
    var main: Table, index: Table := map["k" := ""], map["i" := "k"];
    PlainIsExact(main, index);
    OrderedOne("i");
    assert index.Keys == {"i"};
    StopsAtEmpty(main, index, "i", "k");
    VisitedKeys(index, false);
  }
}
