/** Runs that show why the hypotheses of the context theorems are needed. */
module ContextExamples {
  import opened Options
  import opened Futures
  import opened ContextGraph
  import opened Squash
  import opened Contexts
  import opened ManagerSpec
  import opened ManagerRuns
  import opened PrefetchRuns
  import opened ReadCoherence
  import LateWrites
  import CoherentRuns

  /** A full address: seventy lowercase hexadecimal digits. */
  predicate IsFull(a: Address) {
    |a| == 70 && forall c <- a :: IsHexDigit(c)
  }

  lemma FullIsValid(a: Address)
    requires IsFull(a)
    ensures AddressIsValid(a) && NamespaceIsValid(a) && Covered([a], a) && Wanted([a]) == {a}
  {
    assert a[69] in a;
    assert BeforeNewline(a) == a;
    assert a in [a] && a <= a;
  }

  function One(trees: map<Root, Tree>, c: ContextState, queue: seq<ReadItem>, inflated: seq<InflatedItem>)
    : ManagerState
  {
    ManagerState(trees, map[0 := c], 1, queue, inflated)
  }

  function Holding(root: Root, a: Address, f: FutureState): ContextState {
    ContextState(root, [a], [a], [], map[a := f], false)
  }

  /** Creating a context on an empty manager prefetches its one input. */
  lemma FirstCreate(root: Root, t: Tree, a: Address, rootOf: Tree -> Root)
    requires IsFull(a)
    ensures var w, e := Start(map[root := t]), DoCreate(root, [], [a], [a]);
            && Enabled(w, e, rootOf)
            && Next(w, e, rootOf)
               == World(One(map[root := t], Holding(root, a, Prefetch()), [ReadItem(0, root, {a})], []), None, None)
  {
    FullIsValid(a);
    var found := Found(map[], {a});
    assert Find(map[], [], SetOf<Id>([]), {a}) == Some(found);
    assert NewContext(root, [], [a], [a], found).state == map[a := Prefetch()];
    assert forall s <- [a] + [a] :: s == a;
  }

  lemma OnePair(a: Address, v: Bytes)
    ensures DictOf([(a, v)]) == Dict([a], map[a := v])
  {
    assert [(a, v)][..0] == [];
  }

  lemma SetsOne(c: ContextState, a: Address, v: Bytes)
    requires Covered(c.writeList, a)
    ensures c.SetAll([a], map[a := v]) == c.With(a, c.FutureAt(a).WithDirect(v))
  {
    assert [a][1..] == [];
  }

  /** Setting one address of a context that may write it replaces that address's future. */
  lemma SetsAddress(m: ManagerState, cid: Id, a: Address, v: Bytes)
    requires IsFull(a) && cid in m.contexts && Covered(m.contexts[cid].writeList, a)
    ensures var c := m.contexts[cid];
      SetValues(m, cid, [(a, v)]).0 == m.(contexts := m.contexts[cid := c.With(a, c.FutureAt(a).WithDirect(v))])
  {
    FullIsValid(a);
    OnePair(a, v);
    SetsOne(m.contexts[cid], a, v);
  }

  lemma HoldingSets(root: Root, a: Address, v: Bytes, f: FutureState)
    ensures var c := Holding(root, a, f);
      c.With(a, c.FutureAt(a).WithDirect(v)) == Holding(root, a, f.WithDirect(v))
  {
    assert map[a := f][a := f.WithDirect(v)] == map[a := f.WithDirect(v)];
  }

  lemma SetOne(root: Root, a: Address, v: Bytes, f: FutureState, w: World, rootOf: Tree -> Root)
    requires IsFull(a) && w.m.contexts == map[0 := Holding(root, a, f)]
    ensures Next(w, DoSet(0, [(a, v)]), rootOf)
      == w.(m := w.m.(contexts := map[0 := Holding(root, a, f.WithDirect(v))]))
  {
    FullIsValid(a);
    SetsAddress(w.m, 0, a, v);
    HoldingSets(root, a, v, f);
  }

  lemma DeleteOne(root: Root, a: Address, f: FutureState, w: World, rootOf: Tree -> Root)
    requires IsFull(a) && w.m.contexts == map[0 := Holding(root, a, f)]
    ensures Next(w, DoDelete(0, [a]), rootOf) == w.(m := w.m.(contexts := map[0 := Holding(root, a, f.WithDelete())]))
  {
    FullIsValid(a);
    assert [a][1..] == [];
    assert Holding(root, a, f).DeleteAll([a]) == Holding(root, a, f.WithDelete());
  }

  lemma {:induction false} Traces(es: seq<Event>, ws: seq<World>, rootOf: Tree -> Root)
    requires |ws| == |es| + 1
    requires forall i :: 0 <= i < |es| ==> Enabled(ws[i], es[i], rootOf) && Next(ws[i], es[i], rootOf) == ws[i + 1]
    ensures IsRun(ws[0], es, rootOf) && After(ws[0], es, rootOf) == ws[|es|]
    decreases |es|
  {
    if es != [] {
      Traces(es[1..], ws[1..], rootOf);
    }
  }

  lemma {:induction false} Concatenates(w: World, first: seq<Event>, rest: seq<Event>, rootOf: Tree -> Root)
    requires IsRun(w, first, rootOf) && IsRun(After(w, first, rootOf), rest, rootOf)
    ensures IsRun(w, first + rest, rootOf)
    ensures After(w, first + rest, rootOf) == After(After(w, first, rootOf), rest, rootOf)
    decreases |first|
  {
    if first == [] {
      assert first + rest == rest;
    } else {
      assert (first + rest)[1..] == first[1..] + rest;
      Concatenates(Next(w, first[0], rootOf), first[1..], rest, rootOf);
    }
  }

  /** One more event at the end of a run. */
  lemma RunOn(w: World, events: seq<Event>, w1: World, e: Event, w2: World, rootOf: Tree -> Root)
    requires IsRun(w, events, rootOf) && After(w, events, rootOf) == w1
    requires Enabled(w1, e, rootOf) && Next(w1, e, rootOf) == w2
    ensures IsRun(w, events + [e], rootOf) && After(w, events + [e], rootOf) == w2
  {
    Traces([e], [w1, w2], rootOf);
    Concatenates(w, events, [e], rootOf);
  }

  /** Creating a context that looks nothing up registers it and asks for nothing. */
  lemma CreateBare(w: World, root: Root, bases: seq<Id>, inputs: seq<string>, outputs: seq<string>,
                   rootOf: Tree -> Root)
    requires root in w.m.trees && Wanted(inputs) == {} && forall b <- bases :: b in w.m.contexts
    requires forall s <- inputs + outputs :: NamespaceIsValid(s)
    ensures var e := DoCreate(root, bases, inputs, outputs);
      && Enabled(w, e, rootOf)
      && Next(w, e, rootOf) == w.(m := WithContext(w.m, ContextState(root, inputs, outputs, bases, map[], false), {}))
  {
    assert NewContext(root, bases, inputs, outputs, Found(map[], {})).state == map[];
  }

  /** Setting one address in a context that holds nothing yet. */
  lemma SetBare(w: World, cid: Id, a: Address, v: Bytes, rootOf: Tree -> Root)
    requires IsFull(a) && cid in w.m.contexts
    requires w.m.contexts[cid].state == map[] && Covered(w.m.contexts[cid].writeList, a)
    ensures var c' := w.m.contexts[cid].(state := map[a := Initial(None).WithDirect(v)]);
      Next(w, DoSet(cid, [(a, v)]), rootOf) == w.(m := w.m.(contexts := w.m.contexts[cid := c']))
  {
    SetsAddress(w.m, cid, a, v);
  }

  /** The reader fetches the tree's value for the new context. */
  lemma Fetches(root: Root, t: Tree, a: Address, rootOf: Tree -> Root)
    requires IsFull(a)
    ensures var w, es := Start(map[root := t]), [DoCreate(root, [], [a], [a]), ReaderTake, ReaderPut];
            && IsRun(w, es, rootOf)
            && After(w, es, rootOf)
               == World(One(map[root := t], Holding(root, a, Prefetch()), [], [InflatedItem(0, FromTree(t, {a}))]),
                        None, None)
  {
    var trees, c, item := map[root := t], Holding(root, a, Prefetch()), ReadItem(0, root, {a});
    FirstCreate(root, t, a, rootOf);
    var w1 := World(One(trees, c, [item], []), None, None);
    var w2 := World(One(trees, c, [], []), Some(item), None);
    var w3 := World(One(trees, c, [], [InflatedItem(0, FromTree(t, {a}))]), None, None);
    assert Next(w1, ReaderTake, rootOf) == w2;
    assert Next(w2, ReaderPut, rootOf) == w3;
    Traces([DoCreate(root, [], [a], [a]), ReaderTake, ReaderPut], [Start(trees), w1, w2, w3], rootOf);
  }

  /** A delivery to an address set meanwhile is dropped. */
  lemma Drops(root: Root, trees: map<Root, Tree>, a: Address, v: Bytes, f: FutureState, answer: InflatedItem,
              rootOf: Tree -> Root)
    requires answer.cid == 0 && answer.values.Keys == {a} && f.setInContext
    ensures var w := World(One(trees, Holding(root, a, f), [], [answer]), None, None);
            var es := [WriterTake, WriterSet(a), WriterDone];
            && IsRun(w, es, rootOf)
            && After(w, es, rootOf) == World(One(trees, Holding(root, a, f), [], []), None, None)
  {
    var c := Holding(root, a, f);
    var w0 := World(One(trees, c, [], [answer]), None, None);
    var w1 := World(One(trees, c, [], []), None, Some(answer));
    var w2 := World(One(trees, c, [], []), None, Some(InflatedItem(0, map[])));
    var w3 := World(One(trees, c, [], []), None, None);
    assert answer.values - {a} == map[];
    assert c.With(a, f) == c;
    assert Next(w0, WriterTake, rootOf) == w1;
    assert Next(w1, WriterSet(a), rootOf) == w2;
    assert Next(w2, WriterDone, rootOf) == w3;
    Traces([WriterTake, WriterSet(a), WriterDone], [w0, w1, w2, w3], rootOf);
  }

  /** The transaction sets before the prefetched value arrives, and deletes after. */
  function StrandingRun(root: Root, a: Address, v: Bytes): seq<Event> {
    [DoCreate(root, [], [a], [a]), ReaderTake, ReaderPut]
    + ([DoSet(0, [(a, v)])] + ([WriterTake, WriterSet(a), WriterDone] + [DoDelete(0, [a])]))
  }

  /**
   * Setting an address before its prefetched value arrives and deleting it
   * afterwards leaves a future that nothing under way can wake.
   */
  lemma StrandingRunBlocks(root: Root, t: Tree, a: Address, v: Bytes, rootOf: Tree -> Root)
    requires IsFull(a)
    ensures IsRun(Start(map[root := t]), StrandingRun(root, a, v), rootOf)
    ensures var w := After(Start(map[root := t]), StrandingRun(root, a, v), rootOf);
            && Quiescent(w) && 0 in w.m.contexts && a in w.m.contexts[0].state
            && !w.m.contexts[0].state[a].Ready()
  {
    var trees, answer := map[root := t], InflatedItem(0, FromTree(t, {a}));
    var f, g := Prefetch(), Prefetch().WithDirect(v);
    var w1 := World(One(trees, Holding(root, a, f), [], [answer]), None, None);
    var w2 := World(One(trees, Holding(root, a, g), [], [answer]), None, None);
    var w3 := World(One(trees, Holding(root, a, g), [], []), None, None);
    var w4 := World(One(trees, Holding(root, a, g.WithDelete()), [], []), None, None);
    Fetches(root, t, a, rootOf);
    SetOne(root, a, v, f, w1, rootOf);
    Traces([DoSet(0, [(a, v)])], [w1, w2], rootOf);
    Drops(root, trees, a, v, g, answer, rootOf);
    DeleteOne(root, a, g, w3, rootOf);
    Traces([DoDelete(0, [a])], [w3, w4], rootOf);
    var e1, e2, e3, e4 := [DoCreate(root, [], [a], [a]), ReaderTake, ReaderPut],
      [DoSet(0, [(a, v)])], [WriterTake, WriterSet(a), WriterDone], [DoDelete(0, [a])];
    Concatenates(w2, e3, e4, rootOf);
    Concatenates(w1, e2, e3 + e4, rootOf);
    Concatenates(Start(trees), e1, e2 + (e3 + e4), rootOf);
  }

  // A base written after a context was built on it

  /** A context without inputs that has set one address. */
  function Setter(root: Root, a: Address, v: Bytes): ContextState {
    ContextState(root, [], [a], [], map[a := Initial(None).WithDirect(v)], false)
  }

  /** A context based on the setter that took the value over. */
  function Reader(root: Root, a: Address, v: Bytes): ContextState {
    ContextState(root, [a], [], [0], map[a := Initial(Some(v))], false)
  }

  lemma SetterSets(m: ManagerState, root: Root, a: Address, u: Bytes, v: Bytes)
    requires IsFull(a) && 0 in m.contexts && m.contexts[0] == Setter(root, a, u)
    ensures SetValues(m, 0, [(a, v)]).0 == m.(contexts := m.contexts[0 := Setter(root, a, v)])
  {
    FullIsValid(a);
    SetsAddress(m, 0, a, v);
    var f, g := Initial(None).WithDirect(u), Initial(None).WithDirect(v);
    assert map[a := f][a := g] == map[a := g];
  }

  /** Both contexts, with the base's value and the one taken over from it. */
  function Pair(root: Root, t: Tree, a: Address, based: Bytes, taken: Bytes): ManagerState {
    ManagerState(map[root := t], map[0 := Setter(root, a, based), 1 := Reader(root, a, taken)], 2, [], [])
  }

  lemma PairReads(root: Root, t: Tree, a: Address, based: Bytes, taken: Bytes)
    requires IsFull(a)
    ensures Get(Pair(root, t, a, based, taken), 1, {a}) == Ok(map[a := Some(taken)])
  {
    FullIsValid(a);
    var m := Pair(root, t, a, based, taken);
    var c := m.contexts[1];
    assert {a} - c.state.Keys == {};
    GetAssembles(m, 1, {a}, Found(map[], {}));
    assert Assembled(c, t, {a}, Found(map[], {})) == map[a := Some(taken)];
  }

  lemma PairSquashes(root: Root, t: Tree, a: Address, based: Bytes, taken: Bytes)
    ensures Chain(Pair(root, t, a, based, taken).contexts, 1)
    ensures Lookup(SquashedOnto(t, Pair(root, t, a, based, taken).contexts, [1]), a) == Some(based)
  {
    var contexts := Pair(root, t, a, based, taken).contexts;
    assert Chain(contexts, 0);
    SquashOfChain(contexts, t, 1);
  }

  lemma PairSets(root: Root, t: Tree, a: Address, u: Bytes, v: Bytes)
    requires IsFull(a)
    ensures SetValues(Pair(root, t, a, u, u), 0, [(a, v)]).0 == Pair(root, t, a, v, u)
  {
    SetterSets(Pair(root, t, a, u, u), root, a, u, v);
    FirstReplaced(Setter(root, a, u), Setter(root, a, v), Reader(root, a, u));
  }

  lemma FirstReplaced(c: ContextState, c': ContextState, other: ContextState)
    ensures map[0 := c, 1 := other][0 := c'] == map[0 := c', 1 := other]
  {
  }

  /** A context is built, set, built upon, and then set again. */
  function LateRun(root: Root, a: Address, u: Bytes, v: Bytes): seq<Event> {
    [DoCreate(root, [], [], [a]), DoSet(0, [(a, u)]), DoCreate(root, [0], [a], []), DoSet(0, [(a, v)])]
  }

  lemma ReaderFinds(root: Root, a: Address, u: Bytes)
    ensures var contexts := map[0 := Setter(root, a, u)];
      && FindReady(contexts, [0], {0}, {a})
      && Find(contexts, [0], {0}, {a}) == Some(Found(map[a := Some(u)], {}))
  {
    var contexts := map[0 := Setter(root, a, u)];
    var c := Setter(root, a, u);
    assert c.Hits({a}) == map[a := Some(u)];
    assert {a} - c.Hits({a}).Keys == {};
    assert Find(contexts, [0][1..] + NewBases([], {0}), {0} + SetOf(NewBases([], {0})), {}) == Some(Found(map[], {}));
    assert map[a := Some(u)] + map[] == map[a := Some(u)];
  }

  lemma CreateReader(root: Root, t: Tree, a: Address, u: Bytes, w: World, rootOf: Tree -> Root)
    requires IsFull(a) && w == World(One(map[root := t], Setter(root, a, u), [], []), None, None)
    ensures var e := DoCreate(root, [0], [a], []);
      Enabled(w, e, rootOf) && Next(w, e, rootOf) == World(Pair(root, t, a, u, u), None, None)
  {
    FullIsValid(a);
    ReaderFinds(root, a, u);
    var found, bases: seq<Id> := Found(map[a := Some(u)], {}), [0];
    assert SetOf(bases) == {0};
    assert forall s <- [a] + [] :: s == a;
    assert NewContext(root, bases, [a], [], found).state == map[a := Initial(Some(u))];
    assert Create(w.m, root, bases, [a], []).1.Ok?;
    assert map[0 := Setter(root, a, u)][1 := Reader(root, a, u)] == Pair(root, t, a, u, u).contexts;
  }

  lemma SetterWritten(root: Root, a: Address, u: Bytes, v: Bytes)
    requires IsFull(a)
    ensures CoherentRuns.Written(Setter(root, a, u), DoSet(0, [(a, v)])) == Setter(root, a, v)
  {
    FullIsValid(a);
    OnePair(a, v);
    SetsOne(Setter(root, a, u), a, v);
    var f, g := Initial(None).WithDirect(u), Initial(None).WithDirect(v);
    assert map[a := f][a := g] == map[a := g];
  }

  lemma SetterShows(root: Root, a: Address, u: Bytes)
    ensures Setter(root, a, u).Written() == Writes(map[a := u], {})
  {
  }

  lemma PairIsOvertaken(root: Root, t: Tree, a: Address, u: Bytes, v: Bytes)
    requires IsFull(a) && u != v
    ensures CoherentRuns.ComesLate(World(Pair(root, t, a, u, u), None, None), DoSet(0, [(a, v)]))
  {
    var m := Pair(root, t, a, u, u);
    SetterWritten(root, a, u, v);
    SetterShows(root, a, u);
    SetterShows(root, a, v);
    assert Chain(m.contexts, 0) && Chain(m.contexts, 1);
    assert LateWrites.Through(m.contexts, 1, 0, a);
    assert LateWrites.OvertakesAt(m, 0, Setter(root, a, v), 1, a);
  }

  lemma FirstRun(root: Root, t: Tree, inputs: seq<string>, outputs: seq<string>, rootOf: Tree -> Root)
    requires Wanted(inputs) == {} && forall s <- inputs + outputs :: NamespaceIsValid(s)
    ensures var start, events := Start(map[root := t]), [DoCreate(root, [], inputs, outputs)];
      && IsRun(start, events, rootOf)
      && After(start, events, rootOf) ==
         World(One(map[root := t], ContextState(root, inputs, outputs, [], map[], false), [], []), None, None)
  {
    var start, e := Start(map[root := t]), DoCreate(root, [], inputs, outputs);
    CreateBare(start, root, [], inputs, outputs, rootOf);
    RunOn(start, [], start, e, Next(start, e, rootOf), rootOf);
    assert [] + [e] == [e];
  }

  /** A first context is created and sets one address. */
  lemma SetterRun(root: Root, t: Tree, inputs: seq<string>, outputs: seq<string>, a: Address, v: Bytes,
                  rootOf: Tree -> Root)
    requires Wanted(inputs) == {} && forall s <- inputs + outputs :: NamespaceIsValid(s)
    requires IsFull(a) && Covered(outputs, a)
    ensures var start, events := Start(map[root := t]), [DoCreate(root, [], inputs, outputs), DoSet(0, [(a, v)])];
      && IsRun(start, events, rootOf)
      && After(start, events, rootOf) == World(One(map[root := t],
           ContextState(root, inputs, outputs, [], map[a := Initial(None).WithDirect(v)], false), [], []), None, None)
  {
    var start, e := Start(map[root := t]), DoCreate(root, [], inputs, outputs);
    FirstRun(root, t, inputs, outputs, rootOf);
    var w := After(start, [e], rootOf);
    SetBare(w, 0, a, v, rootOf);
    RunOn(start, [e], w, DoSet(0, [(a, v)]), Next(w, DoSet(0, [(a, v)]), rootOf), rootOf);
    assert [e] + [DoSet(0, [(a, v)])] == [e, DoSet(0, [(a, v)])];
  }

  lemma LateRunLeaves(root: Root, t: Tree, a: Address, u: Bytes, v: Bytes, rootOf: Tree -> Root)
    requires IsFull(a)
    ensures IsRun(Start(map[root := t]), LateRun(root, a, u, v)[..3], rootOf)
    ensures After(Start(map[root := t]), LateRun(root, a, u, v)[..3], rootOf)
      == World(Pair(root, t, a, u, u), None, None)
  {
    var events := LateRun(root, a, u, v);
    var w := World(One(map[root := t], Setter(root, a, u), [], []), None, None);
    FullIsValid(a);
    SetterRun(root, t, [], [a], a, u, rootOf);
    CreateReader(root, t, a, u, w, rootOf);
    var first := [DoCreate(root, [], [], [a]), DoSet(0, [(a, u)])];
    RunOn(Start(map[root := t]), first, w, events[2], World(Pair(root, t, a, u, u), None, None), rootOf);
    assert first + [events[2]] == events[..3];
  }

  lemma LateRunEnds(root: Root, t: Tree, a: Address, u: Bytes, v: Bytes, rootOf: Tree -> Root)
    requires IsFull(a)
    ensures var start, events := Start(map[root := t]), LateRun(root, a, u, v);
      && IsRun(start, events, rootOf)
      && After(start, events, rootOf) == World(Pair(root, t, a, v, u), None, None)
  {
    var start, events, late := Start(map[root := t]), LateRun(root, a, u, v), DoSet(0, [(a, v)]);
    var w3, w4 := World(Pair(root, t, a, u, u), None, None), World(Pair(root, t, a, v, u), None, None);
    LateRunLeaves(root, t, a, u, v, rootOf);
    PairSets(root, t, a, u, v);
    RunOn(start, events[..3], w3, late, w4, rootOf);
    assert events == events[..3] + [late];
  }

  /** Writing a base after a context was built on it makes reads disagree with squash. */
  lemma LateBaseWriteBreaksReads(root: Root, t: Tree, a: Address, u: Bytes, v: Bytes, rootOf: Tree -> Root)
    requires IsFull(a) && u != v
    ensures var start, events := Start(map[root := t]), LateRun(root, a, u, v);
      && IsRun(start, events[..3], rootOf) && IsRun(start, events, rootOf)
      && CoherentRuns.ComesLate(After(start, events[..3], rootOf), events[3])
      && var m := After(start, events, rootOf).m;
         && Get(m, 1, {a}) == Ok(map[a := Some(u)])
         && Lookup(SquashedOnto(t, m.contexts, [1]), a) == Some(v)
  {
    LateRunLeaves(root, t, a, u, v, rootOf);
    LateRunEnds(root, t, a, u, v, rootOf);
    PairIsOvertaken(root, t, a, u, v);
    PairReads(root, t, a, v, u);
    PairSquashes(root, t, a, v, u);
  }

  // An address deleted in the reading context itself

  /** A context that may touch any address and has looked none up. */
  function Anywhere(root: Root, state: map<Address, FutureState>): ContextState {
    ContextState(root, [""], [""], [], state, false)
  }

  lemma AnywhereDelete(root: Root, w: World, a: Address, f: FutureState, rootOf: Tree -> Root)
    requires IsFull(a) && w.m.contexts == map[0 := Anywhere(root, map[a := f])]
    ensures Next(w, DoDelete(0, [a]), rootOf)
      == w.(m := w.m.(contexts := map[0 := Anywhere(root, map[a := f.WithDelete()])]))
  {
    FullIsValid(a);
    assert "" in [""] && "" <= a;
    assert [a][1..] == [];
    var c, c' := Anywhere(root, map[a := f]), Anywhere(root, map[a := f.WithDelete()]);
    assert c.state[a := f.WithDelete()] == c'.state;
    assert c.DeleteAll([a]) == c';
    assert map[0 := c][0 := c'] == map[0 := c'];
  }

  lemma DeletedIsRead(root: Root, t: Tree, a: Address, v: Bytes, m: ManagerState)
    requires IsFull(a)
    requires m == One(map[root := t], Anywhere(root, map[a := Initial(None).WithDirect(v).WithDelete()]), [], [])
    ensures Get(m, 0, {a}) == Ok(map[a := Some(v)])
    ensures Chain(m.contexts, 0) && Lookup(SquashedOnto(t, m.contexts, [0]), a) == None
  {
    FullIsValid(a);
    assert "" in [""] && "" <= a;
    LateWrites.ReadsHeld(m, 0, a);
    SquashOfChain(m.contexts, t, 0);
    assert a in m.contexts[0].Written().deletes && a !in m.contexts[0].Written().sets;
  }

  function StaleRun(root: Root, a: Address, v: Bytes): seq<Event> {
    [DoCreate(root, [], [""], [""]), DoSet(0, [(a, v)]), DoDelete(0, [a])]
  }

  lemma StaleRunLeaves(root: Root, t: Tree, a: Address, v: Bytes, rootOf: Tree -> Root)
    requires IsFull(a)
    ensures IsRun(Start(map[root := t]), StaleRun(root, a, v), rootOf)
    ensures After(Start(map[root := t]), StaleRun(root, a, v), rootOf).m ==
      One(map[root := t], Anywhere(root, map[a := Initial(None).WithDirect(v).WithDelete()]), [], [])
  {
    var events, f := StaleRun(root, a, v), Initial(None).WithDirect(v);
    var w := World(One(map[root := t], Anywhere(root, map[a := f]), [], []), None, None);
    assert "" in [""] && "" <= a && Wanted([""]) == {};
    SetterRun(root, t, [""], [""], a, v, rootOf);
    AnywhereDelete(root, w, a, f, rootOf);
    var first := [DoCreate(root, [], [""], [""]), DoSet(0, [(a, v)])];
    RunOn(Start(map[root := t]), first, w, events[2], Next(w, events[2], rootOf), rootOf);
    assert first + [events[2]] == events;
  }

  /** Setting and then deleting an address makes the context read a value that squash does not keep. */
  lemma StaleReadRun(root: Root, t: Tree, a: Address, v: Bytes, rootOf: Tree -> Root)
    requires IsFull(a)
    ensures IsRun(Start(map[root := t]), StaleRun(root, a, v), rootOf)
    ensures var m := After(Start(map[root := t]), StaleRun(root, a, v), rootOf).m;
      Get(m, 0, {a}) == Ok(map[a := Some(v)]) && Lookup(SquashedOnto(t, m.contexts, [0]), a) == None
  {
    StaleRunLeaves(root, t, a, v, rootOf);
    DeletedIsRead(root, t, a, v, After(Start(map[root := t]), StaleRun(root, a, v), rootOf).m);
  }
}
