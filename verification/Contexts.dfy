/** The execution context a transaction reads and writes through. */
module Contexts {
  import opened Options
  import opened Futures
  import opened ContextGraph
  import opened Squash

  type Root = string

  /** The address starts with one of the listed addresses or namespaces. */
  predicate Covered(prefixes: seq<string>, a: Address) {
    exists p <- prefixes :: p <= a
  }

  /** The fields of an `ExecutionContext`, as a value. */
  datatype ContextState = ContextState(
    root: Root,
    readList: seq<string>,
    writeList: seq<string>,
    bases: seq<Id>,
    state: map<Address, FutureState>,
    readOnly: bool)
  {
    predicate IsSet(a: Address) {
      a in state && state[a].setInContext && state[a].result.Some?
    }

    predicate IsDeleted(a: Address) {
      a in state && state[a].deleted
    }

    /** What a search through the base contexts takes from this context. */
    function Held(a: Address): Option<Bytes>
      requires a in state
    {
      if state[a].deleted then None else state[a].result
    }

    function Hits(asked: set<Address>): map<Address, Option<Bytes>> {
      map a | a in asked && a in state :: Held(a)
    }

    predicate HitsReady(asked: set<Address>) {
      forall a <- asked :: a in state && !state[a].deleted ==> state[a].Ready()
    }

    /** What squash collects from this context. */
    function Written(): Writes {
      Writes(map a | a in state && IsSet(a) :: state[a].result.value,
             set a | a in state && IsDeleted(a))
    }

    function With(a: Address, f: FutureState): ContextState {
      this.(state := state[a := f])
    }

    function FutureAt(a: Address): FutureState {
      if a in state then state[a] else Initial(None)
    }

    /** `set_direct`: sets each address in turn, stopping at the first unauthorised one. */
    function SetAll(order: seq<Address>, values: map<Address, Bytes>): ContextState
      requires forall a <- order :: a in values
      decreases |order|
    {
      if order == [] || !Covered(writeList, order[0]) then this
      else With(order[0], FutureAt(order[0]).WithDirect(values[order[0]])).SetAll(order[1..], values)
    }

    /** `delete_direct`: likewise for deletes. */
    function DeleteAll(order: seq<Address>): ContextState
      decreases |order|
    {
      if order == [] || !Covered(writeList, order[0]) then this
      else With(order[0], FutureAt(order[0]).WithDelete()).DeleteAll(order[1..])
    }

    function WithPrefetch(addresses: set<Address>): ContextState {
      this.(state := map a | a in state.Keys + addresses ::
                       if a in addresses then Prefetch() else state[a])
    }

    function WithInitial(values: map<Address, Option<Bytes>>): ContextState {
      this.(state := map a | a in state.Keys + values.Keys ::
                       if a in values then Initial(values[a]) else state[a])
    }

    function WithTreeValues(values: map<Address, Option<Bytes>>): ContextState {
      this.(state := map a | a in state ::
                       if a in values then state[a].WithTree(values[a]) else state[a])
    }

    function Frozen(): ContextState {
      if readOnly then this
      else this.(state := map a | a in state :: state[a].Frozen(), readOnly := true)
    }

    /** Freezing, and then reading what was written, waits for no future. */
    predicate CanFreeze() {
      if readOnly then forall a <- state :: state[a].deleted ==> state[a].Ready()
      else forall a <- state :: !state[a].Blocked()
    }

    /** Every set or deleted address is covered by the outputs. */
    predicate WritesCovered() {
      forall a <- state :: !state[a].Untouched() ==> Covered(writeList, a)
    }
  }

  /**
   * The context object. Each future belongs to one address of one context, so
   * the dictionary holds future states by value.
   */
  class ExecutionContext {
    const root: Root
    const readList: seq<string>
    const writeList: seq<string>
    const bases: seq<Id>
    var state: map<Address, FutureState>
    var readOnly: bool

    ghost function View(): ContextState
      reads this
    {
      ContextState(root, readList, writeList, bases, state, readOnly)
    }

    constructor (root: Root, readList: seq<string>, writeList: seq<string>, bases: seq<Id>)
      ensures View() == ContextState(root, readList, writeList, bases, map[], false)
    {
      this.root := root;
      this.readList := readList;
      this.writeList := writeList;
      this.bases := bases;
      state := map[];
      readOnly := false;
    }

    method SetDirect(order: seq<Address>, values: map<Address, Bytes>) returns (ok: bool)
      requires forall a <- order :: a in values
      modifies this
      ensures ok <==> forall a <- order :: Covered(writeList, a)
      ensures View() == old(View()).SetAll(order, values)
    {
      for i := 0 to |order|
        invariant forall a <- order[..i] :: Covered(writeList, a)
        invariant View().SetAll(order[i..], values) == old(View()).SetAll(order, values)
      {
        assert order[i..][1..] == order[i + 1..];
        var a := order[i];
        if !Covered(writeList, a) {
          return false;
        }
        if a in state {
          state := state[a := state[a].WithDirect(values[a])];
        } else {
          state := state[a := Initial(None).WithDirect(values[a])];
        }
      }
      return true;
    }

    method DeleteDirect(order: seq<Address>) returns (ok: bool)
      modifies this
      ensures ok <==> forall a <- order :: Covered(writeList, a)
      ensures View() == old(View()).DeleteAll(order)
    {
      for i := 0 to |order|
        invariant forall a <- order[..i] :: Covered(writeList, a)
        invariant View().DeleteAll(order[i..]) == old(View()).DeleteAll(order)
      {
        assert order[i..][1..] == order[i + 1..];
        var a := order[i];
        if !Covered(writeList, a) {
          return false;
        }
        if a in state {
          state := state[a := state[a].WithDelete()];
        } else {
          state := state[a := Initial(None).WithDelete()];
        }
      }
      return true;
    }

    method CreatePrefetch(addresses: set<Address>)
      modifies this
      ensures View() == old(View()).WithPrefetch(addresses)
    {
      var todo := addresses;
      while todo != {}
        invariant todo <= addresses
        invariant View() == old(View()).WithPrefetch(addresses - todo)
      {
        var a :| a in todo;
        state := state[a := Prefetch()];
        todo := todo - {a};
      }
    }

    method CreateInitial(values: map<Address, Option<Bytes>>)
      modifies this
      ensures View() == old(View()).WithInitial(values)
    {
      var todo := values.Keys;
      while todo != {}
        invariant todo <= values.Keys
        invariant View() == old(View()).WithInitial(values - todo)
      {
        var a :| a in todo;
        assert values - (todo - {a}) == (values - todo)[a := values[a]];
        state := state[a := Initial(values[a])];
        todo := todo - {a};
      }
    }

    method SetFromTree(values: map<Address, Option<Bytes>>)
      modifies this
      ensures View() == old(View()).WithTreeValues(values)
    {
      var todo := values.Keys;
      while todo != {}
        invariant todo <= values.Keys
        invariant View() == old(View()).WithTreeValues(values - todo)
      {
        var a :| a in todo;
        if a in state {
          state := state[a := state[a].WithTree(values[a])];
        }
        todo := todo - {a};
      }
    }

    /** The precondition is what the source waits for, future by future. */
    method MakeReadOnly()
      requires View().CanFreeze()
      modifies this
      ensures View() == old(View()).Frozen()
    {
      if !readOnly {
        var todo := state.Keys;
        while todo != {}
          invariant todo <= state.Keys == old(state.Keys) && !readOnly
          invariant forall a <- state ::
            state[a] == if a in todo then old(state)[a] else old(state)[a].Frozen()
        {
          var a :| a in todo;
          state := state[a := state[a].Frozen()];
          todo := todo - {a};
        }
        readOnly := true;
      }
    }

    method GetIfDeleted(addresses: set<Address>) returns (found: set<Address>)
      ensures found == set a | a in addresses && View().IsDeleted(a)
    {
      found := {};
      var todo := addresses;
      while todo != {}
        invariant todo <= addresses
        invariant found == set a | a in addresses - todo && View().IsDeleted(a)
      {
        var a :| a in todo;
        if a in state && state[a].deleted {
          found := found + {a};
        }
        todo := todo - {a};
      }
    }

    method GetIfSet(addresses: set<Address>) returns (values: map<Address, Bytes>)
      ensures values == map a | a in addresses && View().IsSet(a) :: state[a].result.value
    {
      values := map[];
      var todo := addresses;
      while todo != {}
        invariant todo <= addresses
        invariant values == map a | a in addresses - todo && View().IsSet(a) :: state[a].result.value
      {
        var a :| a in todo;
        if a in state && state[a].setInContext && state[a].result.Some? {
          values := values[a := state[a].result.value];
        }
        todo := todo - {a};
      }
    }

    /** Reads values that are in the context but were not set there, waiting for each. */
    method GetIfNotSet(addresses: set<Address>) returns (values: map<Address, Option<Bytes>>)
      requires forall a <- addresses :: a in state ==> state[a].Ready()
      ensures values.Keys == addresses
      ensures forall a <- addresses ::
        values[a] == if a in state && !state[a].setInContext then state[a].result else None
    {
      values := map[];
      var todo := addresses;
      while todo != {}
        invariant todo <= addresses && values.Keys == addresses - todo
        invariant forall a <- addresses - todo ::
          values[a] == if a in state && !state[a].setInContext then state[a].result else None
      {
        var a :| a in todo;
        if a in state && !state[a].setInContext {
          values := values[a := state[a].result];
        } else {
          values := values[a := None];
        }
        todo := todo - {a};
      }
    }

    /** Answers what it can: addresses deleted here, set here, then read here. */
    method Search(asked: set<Address>) returns (hits: map<Address, Option<Bytes>>)
      requires View().HitsReady(asked)
      ensures hits == View().Hits(asked)
    {
      var deleted := GetIfDeleted(asked);
      var values := GetIfSet(asked - deleted);
      var inputs := set a | a in asked - deleted - values.Keys && a in state;
      var others := GetIfNotSet(inputs);
      var none: map<Address, Option<Bytes>> := map a | a in deleted :: None;
      hits := none + (map a | a in values :: Some(values[a])) + others;
      HitsAssemble(View(), asked, hits);
    }

    method GetAllIfSet() returns (values: map<Address, Bytes>)
      ensures values == View().Written().sets
    {
      values := map[];
      var todo := state.Keys;
      while todo != {}
        invariant todo <= state.Keys
        invariant values == map a | a in state && a !in todo && View().IsSet(a) :: state[a].result.value
      {
        var a :| a in todo;
        if state[a].setInContext && state[a].result.Some? {
          values := values[a := state[a].result.value];
        }
        todo := todo - {a};
      }
    }

    method GetAllIfDeleted() returns (addresses: set<Address>)
      requires forall a <- state :: state[a].deleted ==> state[a].Ready()
      ensures addresses == View().Written().deletes
    {
      addresses := {};
      var todo := state.Keys;
      while todo != {}
        invariant todo <= state.Keys
        invariant addresses == set a | a in state && a !in todo && View().IsDeleted(a)
      {
        var a :| a in todo;
        if state[a].deleted {
          addresses := addresses + {a};
        }
        todo := todo - {a};
      }
    }
  }

  lemma HitsAssemble(c: ContextState, asked: set<Address>, hits: map<Address, Option<Bytes>>)
    requires forall a :: a in hits <==> a in asked && a in c.state
    requires forall a <- hits :: hits[a] == c.Held(a)
    ensures hits == c.Hits(asked)
  {
  }
}
