/** Runs of the manager whose contexts have several bases. */
module GraphExamples {
  import opened Options
  import opened Futures
  import opened ContextGraph
  import opened Squash
  import opened DagSquash
  import opened Contexts
  import opened ManagerSpec
  import opened ManagerRuns
  import opened ReadCoherence
  import opened GraphReads
  import opened GraphCoherence
  import opened GraphRuns
  import opened GraphChains
  import opened ContextExamples
  import ThreadRounds

  // An uneven diamond: the ancestor's value wins

  /** A context that has set one address. */
  function SetterOn(root: Root, bases: seq<Id>, a: Address, v: Bytes): ContextState {
    ContextState(root, [], [a], bases, map[a := Initial(None).WithDirect(v)], false)
  }

  function Diamond(root: Root, a: Address, u: Bytes, v: Bytes): ContextMap {
    map[0 := SetterOn(root, [], a, u),
        1 := SetterOn(root, [0], a, v),
        2 := ContextState(root, [], [], [0, 1], map[], false)]
  }

  function DiamondRun(root: Root, a: Address, u: Bytes, v: Bytes): seq<Event> {
    [DoCreate(root, [], [], [a]), DoSet(0, [(a, u)])] + [DoCreate(root, [0], [], [a])] + [DoSet(1, [(a, v)])]
    + [DoCreate(root, [0, 1], [], [])]
  }

  function Two(root: Root, t: Tree, c0: ContextState, c1: ContextState): World {
    World(ManagerState(map[root := t], map[0 := c0, 1 := c1], 2, [], []), None, None)
  }

  lemma SecondCreate(root: Root, t: Tree, a: Address, u: Bytes, w: World, rootOf: Tree -> Root)
    requires IsFull(a) && w == World(One(map[root := t], SetterOn(root, [], a, u), [], []), None, None)
    ensures var e := DoCreate(root, [0], [], [a]);
      && Enabled(w, e, rootOf)
      && Next(w, e, rootOf) == Two(root, t, SetterOn(root, [], a, u), ContextState(root, [], [a], [0], map[], false))
  {
    FullIsValid(a);
    CreateBare(w, root, [0], [], [a], rootOf);
    assert map[0 := SetterOn(root, [], a, u)][1 := ContextState(root, [], [a], [0], map[], false)]
        == map[0 := SetterOn(root, [], a, u), 1 := ContextState(root, [], [a], [0], map[], false)];
  }

  lemma SecondSet(root: Root, t: Tree, a: Address, u: Bytes, v: Bytes, w: World, rootOf: Tree -> Root)
    requires IsFull(a) && w == Two(root, t, SetterOn(root, [], a, u), ContextState(root, [], [a], [0], map[], false))
    ensures Next(w, DoSet(1, [(a, v)]), rootOf) == Two(root, t, SetterOn(root, [], a, u), SetterOn(root, [0], a, v))
  {
    FullIsValid(a);
    SetBare(w, 1, a, v, rootOf);
    assert w.m.contexts[1 := SetterOn(root, [0], a, v)]
        == map[0 := SetterOn(root, [], a, u), 1 := SetterOn(root, [0], a, v)];
  }

  lemma ThirdCreate(root: Root, t: Tree, a: Address, u: Bytes, v: Bytes, w: World, rootOf: Tree -> Root)
    requires w == Two(root, t, SetterOn(root, [], a, u), SetterOn(root, [0], a, v))
    ensures var e := DoCreate(root, [0, 1], [], []);
      && Enabled(w, e, rootOf)
      && Next(w, e, rootOf) == World(ManagerState(map[root := t], Diamond(root, a, u, v), 3, [], []), None, None)
  {
    CreateBare(w, root, [0, 1], [], [], rootOf);
    assert w.m.contexts[2 := ContextState(root, [], [], [0, 1], map[], false)] == Diamond(root, a, u, v);
  }

  lemma DiamondRunLeaves(root: Root, t: Tree, a: Address, u: Bytes, v: Bytes, rootOf: Tree -> Root)
    requires IsFull(a)
    ensures IsRun(Start(map[root := t]), DiamondRun(root, a, u, v), rootOf)
    ensures After(Start(map[root := t]), DiamondRun(root, a, u, v), rootOf).m.contexts == Diamond(root, a, u, v)
  {
    var start, first := Start(map[root := t]), [DoCreate(root, [], [], [a]), DoSet(0, [(a, u)])];
    var w2 := World(One(map[root := t], SetterOn(root, [], a, u), [], []), None, None);
    var w3 := Two(root, t, SetterOn(root, [], a, u), ContextState(root, [], [a], [0], map[], false));
    var w4 := Two(root, t, SetterOn(root, [], a, u), SetterOn(root, [0], a, v));
    FullIsValid(a);
    SetterRun(root, t, [], [a], a, u, rootOf);
    SecondCreate(root, t, a, u, w2, rootOf);
    RunOn(start, first, w2, DoCreate(root, [0], [], [a]), w3, rootOf);
    SecondSet(root, t, a, u, v, w3, rootOf);
    RunOn(start, first + [DoCreate(root, [0], [], [a])], w3, DoSet(1, [(a, v)]), w4, rootOf);
    ThirdCreate(root, t, a, u, v, w4, rootOf);
    var e := DoCreate(root, [0, 1], [], []);
    RunOn(start, first + [DoCreate(root, [0], [], [a])] + [DoSet(1, [(a, v)])], w4, e, Next(w4, e, rootOf), rootOf);
  }

  lemma SetterOnWrites(root: Root, bases: seq<Id>, a: Address, v: Bytes)
    ensures SetterOn(root, bases, a, v).Written() == Writes(map[a := v], {})
  {
  }

  lemma SecondWrites(contexts: ContextMap, order: seq<Id>, a: Address)
    requires |order| >= 2 && forall id <- order :: id in contexts
    requires !contexts[order[0]].Written().Touches(a) && contexts[order[1]].Written().Touches(a)
    ensures FirstWriter(contexts, order, a) == Some(order[1])
  {
    assert FirstWriter(contexts, order, a) == FirstWriter(contexts, order[1..], a);
  }

  lemma DiamondGraph(root: Root, a: Address, u: Bytes, v: Bytes)
    ensures GraphOf(Diamond(root, a, u, v)) == UnevenDiamond
    ensures SquashTrail(Diamond(root, a, u, v), [2]) == Trail([2, 0, 1], true)
  {
    assert GraphOf(Diamond(root, a, u, v)) == UnevenDiamond;
    UnevenDiamondWalk();
  }

  lemma DiamondSquashes(root: Root, t: Tree, a: Address, u: Bytes, v: Bytes)
    ensures Lookup(SquashedOnto(t, Diamond(root, a, u, v), [2]), a) == Some(u)
  {
    var contexts, order: seq<Id> := Diamond(root, a, u, v), [2, 0, 1];
    DiamondGraph(root, a, u, v);
    SetterOnWrites(root, [], a, u);
    SecondWrites(contexts, order, a);
    SquashTakesWriter(contexts, t, [2], a);
  }

  lemma DiamondReplays(root: Root, t: Tree, a: Address, u: Bytes, v: Bytes)
    ensures Lookup(Replay(t, WrittenBy(Diamond(root, a, u, v), [0, 1, 2])), a) == Some(v)
  {
    var ws := WrittenBy(Diamond(root, a, u, v), [0, 1, 2]);
    SetterOnWrites(root, [0], a, v);
    assert ws[1].Touches(a) && !ws[2].Touches(a);
    ReplayAt(t, ws, a, 1);
  }

  /**
   * A run whose contexts form the uneven diamond: squash keeps the ancestor's
   * value, while replay in topological order keeps its descendant's.
   */
  lemma DiamondRunDisagrees(root: Root, t: Tree, a: Address, u: Bytes, v: Bytes, rootOf: Tree -> Root)
    requires IsFull(a)
    ensures IsRun(Start(map[root := t]), DiamondRun(root, a, u, v), rootOf)
    ensures var contexts := After(Start(map[root := t]), DiamondRun(root, a, u, v), rootOf).m.contexts;
      && contexts.Keys == {0, 1, 2} && Topological(GraphOf(contexts), [0, 1, 2])
      && Lookup(SquashedOnto(t, contexts, [2]), a) == Some(u)
      && Lookup(Replay(t, WrittenBy(contexts, [0, 1, 2])), a) == Some(v)
  {
    DiamondRunLeaves(root, t, a, u, v, rootOf);
    DiamondGraph(root, a, u, v);
    UnevenDiamondOrder();
    DiamondSquashes(root, t, a, u, v);
    DiamondReplays(root, t, a, u, v);
  }

  // Two unrelated bases: one sets an address, the one asked first only read it

  /** A context that asked for one address and may write nothing. */
  function Asker(root: Root, a: Address, f: FutureState): ContextState {
    ContextState(root, [a], [], [], map[a := f], false)
  }

  /** A context on both bases, the asker first, that may read anything and holds nothing. */
  function Child(root: Root): ContextState {
    ContextState(root, [""], [], [1, 0], map[], false)
  }

  function Siblings(root: Root, a: Address, f: FutureState, v: Bytes): ContextMap {
    map[0 := SetterOn(root, [], a, v), 1 := Asker(root, a, f), 2 := Child(root)]
  }

  function SiblingsRun(root: Root, a: Address, v: Bytes): seq<Event> {
    [DoCreate(root, [], [], [a]), DoSet(0, [(a, v)])] + [DoCreate(root, [], [a], [])]
    + [ReaderTake, ReaderPut] + [WriterTake, WriterSet(a), WriterDone] + [DoCreate(root, [1, 0], [""], [])]
  }

  /** The two bases, with what is queued for the asker. */
  function Asking(root: Root, t: Tree, a: Address, f: FutureState, v: Bytes,
                  queue: seq<ReadItem>, inflated: seq<InflatedItem>): World
  {
    var contexts := map[0 := SetterOn(root, [], a, v), 1 := Asker(root, a, f)];
    World(ManagerState(map[root := t], contexts, 2, queue, inflated), None, None)
  }

  lemma CreateAsker(root: Root, t: Tree, a: Address, v: Bytes, w: World, rootOf: Tree -> Root)
    requires IsFull(a) && w == World(One(map[root := t], SetterOn(root, [], a, v), [], []), None, None)
    ensures var e := DoCreate(root, [], [a], []);
      Enabled(w, e, rootOf) && Next(w, e, rootOf) == Asking(root, t, a, Prefetch(), v, [ReadItem(1, root, {a})], [])
  {
    FullIsValid(a);
    var found, bases: seq<Id> := Found(map[], {a}), [];
    assert Find(w.m.contexts, bases, SetOf(bases), {a}) == Some(found);
    assert forall s <- [a] + [] :: s == a;
    assert NewContext(root, bases, [a], [], found).state == map[a := Prefetch()];
    assert Create(w.m, root, bases, [a], []).1.Ok?;
    assert w.m.contexts[1 := Asker(root, a, Prefetch())]
        == map[0 := SetterOn(root, [], a, v), 1 := Asker(root, a, Prefetch())];
  }

  lemma AskerIsAnswered(root: Root, t: Tree, a: Address, v: Bytes, rootOf: Tree -> Root)
    ensures var w, events := Asking(root, t, a, Prefetch(), v, [ReadItem(1, root, {a})], []), [ReaderTake, ReaderPut];
      && IsRun(w, events, rootOf)
      && After(w, events, rootOf) == Asking(root, t, a, Prefetch(), v, [], [InflatedItem(1, FromTree(t, {a}))])
  {
    var w := Asking(root, t, a, Prefetch(), v, [ReadItem(1, root, {a})], []);
    ThreadRounds.ReaderRoundIsSteps(w, rootOf);
  }

  lemma AskerIsGiven(root: Root, t: Tree, a: Address, v: Bytes, rootOf: Tree -> Root)
    ensures var w := Asking(root, t, a, Prefetch(), v, [], [InflatedItem(1, FromTree(t, {a}))]);
      var events := [WriterTake, WriterSet(a), WriterDone];
      && IsRun(w, events, rootOf)
      && After(w, events, rootOf) == Asking(root, t, a, Prefetch().WithTree(Lookup(t, a)), v, [], [])
  {
    var w := Asking(root, t, a, Prefetch(), v, [], [InflatedItem(1, FromTree(t, {a}))]);
    assert SetOf([a]) == {a} == FromTree(t, {a}).Keys;
    ThreadRounds.WriterRoundIsSteps(w, [a], rootOf);
    assert [WriterTake] + ThreadRounds.Deliveries([a]) == [WriterTake, WriterSet(a), WriterDone];
    var given := Asker(root, a, Prefetch().WithTree(Lookup(t, a)));
    assert Asker(root, a, Prefetch()).WithTreeValues(FromTree(t, {a})).state == given.state;
    assert w.m.contexts[1 := given] == map[0 := SetterOn(root, [], a, v), 1 := given];
  }

  lemma CreateChild(root: Root, t: Tree, a: Address, f: FutureState, v: Bytes, rootOf: Tree -> Root)
    ensures var w, e := Asking(root, t, a, f, v, [], []), DoCreate(root, [1, 0], [""], []);
      && Enabled(w, e, rootOf)
      && Next(w, e, rootOf) == World(ManagerState(map[root := t], Siblings(root, a, f, v), 3, [], []), None, None)
  {
    var w := Asking(root, t, a, f, v, [], []);
    assert Wanted([""]) == {};
    CreateBare(w, root, [1, 0], [""], [], rootOf);
    assert w.m.contexts[2 := Child(root)] == Siblings(root, a, f, v);
  }

  const TwoBases: Graph := map[0 := [], 1 := [], 2 := [1, 0]]

  lemma TwoBasesWalk()
    ensures WalkFrom(TwoBases, [2]) == Trail([2, 1, 0], true)
  {
    WalkTwoBases(TwoBases, 2, 1, 0);
  }

  lemma SiblingsTrail(contexts: ContextMap)
    requires GraphOf(contexts) == TwoBases
    ensures SquashTrail(contexts, [2]) == Trail([2, 1, 0], true)
  {
    TwoBasesWalk();
  }

  lemma ThirdWrites(contexts: ContextMap, order: seq<Id>, a: Address)
    requires |order| >= 3 && forall id <- order :: id in contexts
    requires !contexts[order[0]].Written().Touches(a) && !contexts[order[1]].Written().Touches(a)
    requires contexts[order[2]].Written().Touches(a)
    ensures FirstWriter(contexts, order, a) == Some(order[2])
  {
    SecondWrites(contexts, order[1..], a);
    assert FirstWriter(contexts, order, a) == FirstWriter(contexts, order[1..], a);
  }

  lemma SecondHolds(contexts: ContextMap, order: seq<Id>, a: Address)
    requires |order| >= 2 && forall id <- order :: id in contexts
    requires a !in contexts[order[0]].state && a in contexts[order[1]].state
    ensures FirstHolder(contexts, order, a) == Some(order[1])
  {
    assert FirstHolder(contexts, order, a) == FirstHolder(contexts, order[1..], a);
  }

  lemma SiblingsGraph(root: Root, a: Address, f: FutureState, v: Bytes)
    ensures GraphOf(Siblings(root, a, f, v)) == TwoBases
    ensures SquashTrail(Siblings(root, a, f, v), [2]) == Trail([2, 1, 0], true)
  {
    assert GraphOf(Siblings(root, a, f, v)) == TwoBases;
    SiblingsTrail(Siblings(root, a, f, v));
  }

  lemma SiblingsSquash(root: Root, t: Tree, a: Address, f: FutureState, v: Bytes)
    requires f.Untouched()
    ensures Lookup(SquashedOnto(t, Siblings(root, a, f, v), [2]), a) == Some(v)
  {
    var contexts, order: seq<Id> := Siblings(root, a, f, v), [2, 1, 0];
    SiblingsGraph(root, a, f, v);
    SetterOnWrites(root, [], a, v);
    ThirdWrites(contexts, order, a);
    SquashTakesWriter(contexts, t, [2], a);
  }

  /** A read takes the value of the second context of the walk if that is the first to hold the address. */
  lemma ReadsSecond(m: ManagerState, id: Id, order: seq<Id>, a: Address)
    requires id in m.contexts && m.contexts[id].root in m.trees && SquashTrail(m.contexts, [id]) == Trail(order, true)
    requires AddressIsValid(a) && Covered(m.contexts[id].readList, a)
    requires |order| >= 2 && order[0] == id && a !in m.contexts[id].state && a in m.contexts[order[1]].state
    ensures Get(m, id, {a}) == Ok(map[a := m.contexts[order[1]].Held(a)])
  {
    SecondHolds(m.contexts, order, a);
    GetTakesHolders(m, id, {a}, order);
    assert Get(m, id, {a}).value == map[a := m.contexts[order[1]].Held(a)];
  }

  lemma SiblingsRead(root: Root, t: Tree, a: Address, f: FutureState, v: Bytes, m: ManagerState)
    requires IsFull(a) && !f.deleted && m.contexts == Siblings(root, a, f, v) && m.trees == map[root := t]
    ensures Get(m, 2, {a}) == Ok(map[a := f.result])
  {
    FullIsValid(a);
    assert "" in [""] && "" <= a;
    SiblingsGraph(root, a, f, v);
    ReadsSecond(m, 2, [2, 1, 0], a);
  }

  lemma SiblingsRunLeaves(root: Root, t: Tree, a: Address, v: Bytes, rootOf: Tree -> Root)
    requires IsFull(a)
    ensures IsRun(Start(map[root := t]), SiblingsRun(root, a, v), rootOf)
    ensures After(Start(map[root := t]), SiblingsRun(root, a, v), rootOf).m ==
      ManagerState(map[root := t], Siblings(root, a, Prefetch().WithTree(Lookup(t, a)), v), 3, [], [])
  {
    var start, first := Start(map[root := t]), [DoCreate(root, [], [], [a]), DoSet(0, [(a, v)])];
    var w2 := World(One(map[root := t], SetterOn(root, [], a, v), [], []), None, None);
    var w3 := Asking(root, t, a, Prefetch(), v, [ReadItem(1, root, {a})], []);
    FullIsValid(a);
    SetterRun(root, t, [], [a], a, v, rootOf);
    CreateAsker(root, t, a, v, w2, rootOf);
    RunOn(start, first, w2, DoCreate(root, [], [a], []), w3, rootOf);
    SiblingsRunEnds(start, first + [DoCreate(root, [], [a], [])], root, t, a, v, rootOf);
  }

  lemma SiblingsRunEnds(start: World, events: seq<Event>, root: Root, t: Tree, a: Address, v: Bytes,
                        rootOf: Tree -> Root)
    requires IsRun(start, events, rootOf)
    requires After(start, events, rootOf) == Asking(root, t, a, Prefetch(), v, [ReadItem(1, root, {a})], [])
    ensures var all := events + [ReaderTake, ReaderPut] + [WriterTake, WriterSet(a), WriterDone]
                       + [DoCreate(root, [1, 0], [""], [])];
      && IsRun(start, all, rootOf)
      && After(start, all, rootOf).m ==
         ManagerState(map[root := t], Siblings(root, a, Prefetch().WithTree(Lookup(t, a)), v), 3, [], [])
  {
    var read, written := [ReaderTake, ReaderPut], [WriterTake, WriterSet(a), WriterDone];
    var f, e := Prefetch().WithTree(Lookup(t, a)), DoCreate(root, [1, 0], [""], []);
    AskerIsAnswered(root, t, a, v, rootOf);
    Concatenates(start, events, read, rootOf);
    AskerIsGiven(root, t, a, v, rootOf);
    Concatenates(start, events + read, written, rootOf);
    CreateChild(root, t, a, f, v, rootOf);
    var w := Asking(root, t, a, f, v, [], []);
    RunOn(start, events + read + written, w, e, Next(w, e, rootOf), rootOf);
  }

  /** What squashing the asker and its sibling's child keeps. */
  lemma SiblingsKept(root: Root, t: Tree, a: Address, f: FutureState, v: Bytes, m: ManagerState)
    requires f.Untouched() && m.contexts == Siblings(root, a, f, v) && m.trees == map[root := t]
    ensures Whole(m.contexts, 1) && Whole(m.contexts, 2)
    ensures Kept(m, 1, a) == Lookup(t, a) && Kept(m, 2, a) == Some(v)
  {
    assert Chain(m.contexts, 1);
    ChainKept(m, 1, a);
    SiblingsGraph(root, a, f, v);
    KeptIsSquashed(m, 2, a);
    SiblingsSquash(root, t, a, f, v);
  }

  lemma SiblingsAcross(root: Root, t: Tree, a: Address, f: FutureState, v: Bytes, m: ManagerState)
    requires f.Untouched() && m.contexts == Siblings(root, a, f, v) && m.trees == map[root := t]
    ensures SeesAcross(m, 2, a) <==> Lookup(t, a) != Some(v)
  {
    SiblingsKept(root, t, a, f, v, m);
    SiblingsGraph(root, a, f, v);
    SecondHolds(m.contexts, [2, 1, 0], a);
  }

  /**
   * A run after which a context on two bases reads the tree's value, because the
   * base asked first has read it, while squash keeps the value the other has set.
   */
  lemma SiblingsRunDisagrees(root: Root, t: Tree, a: Address, v: Bytes, rootOf: Tree -> Root)
    requires IsFull(a)
    ensures IsRun(Start(map[root := t]), SiblingsRun(root, a, v), rootOf)
    ensures var m := After(Start(map[root := t]), SiblingsRun(root, a, v), rootOf).m;
      && Get(m, 2, {a}) == Ok(map[a := Lookup(t, a)])
      && Lookup(SquashedOnto(t, m.contexts, [2]), a) == Some(v)
      && (SeesAcross(m, 2, a) <==> Lookup(t, a) != Some(v))
  {
    var f := Prefetch().WithTree(Lookup(t, a));
    SiblingsRunLeaves(root, t, a, v, rootOf);
    var m := After(Start(map[root := t]), SiblingsRun(root, a, v), rootOf).m;
    SiblingsRead(root, t, a, f, v, m);
    SiblingsSquash(root, t, a, f, v);
    SiblingsAcross(root, t, a, f, v, m);
  }

  // A context on both bases that asks for the address takes the wrong value over

  lemma BothWalk(root: Root, a: Address, f: FutureState, v: Bytes)
    ensures SquashTrail(Siblings(root, a, f, v), [1, 0]) == Trail([1, 0], true)
  {
    var both: seq<Id> := [1, 0];
    SiblingsGraph(root, a, f, v);
    assert SetOf(both) == {1, 0};
    WalkLastTwo(TwoBases, 1, 0, {1, 0});
  }

  lemma SiblingsTakeAcross(root: Root, t: Tree, a: Address, f: FutureState, v: Bytes, m: ManagerState)
    requires f.Untouched() && m.contexts == Siblings(root, a, f, v) && m.trees == map[root := t]
    ensures TakesAcross(m, root, [1, 0], a) <==> Lookup(t, a) != Some(v)
  {
    var both: seq<Id> := [1, 0];
    BothWalk(root, a, f, v);
    SiblingsKept(root, t, a, f, v, m);
    SetterOnWrites(root, [], a, v);
    SecondWrites(m.contexts, both, a);
    assert FirstHolder(m.contexts, both, a) == Some(1);
  }

  lemma AskingIsAccepted(m: ManagerState, root: Root, bases: seq<Id>, inputs: seq<string>)
    requires SquashTrail(m.contexts, bases).complete && forall b <- bases :: b in m.contexts
    requires forall s <- inputs :: NamespaceIsValid(s)
    ensures Create(m, root, bases, inputs, []).1.Ok?
  {
    FindTakesHolders(m.contexts, bases, SetOf(bases), Wanted(inputs));
    assert inputs + [] == inputs;
  }

  /** A creation that asks for one address spoils what is held exactly if it takes that across. */
  lemma AskingSpoils(m: ManagerState, root: Root, bases: seq<Id>, a: Address)
    requires IsFull(a) && Create(m, root, bases, [a], []).1.Ok?
    ensures SpoilsByCreating(m, DoCreate(root, bases, [a], [])) <==> TakesAcross(m, root, bases, a)
  {
    assert Wanted([a]) == {a};
  }

  /** After the same run, creating such a context spoils what is held exactly if the tree has another value. */
  lemma SiblingsRunSpoils(root: Root, t: Tree, a: Address, v: Bytes, rootOf: Tree -> Root)
    requires IsFull(a)
    ensures IsRun(Start(map[root := t]), SiblingsRun(root, a, v), rootOf)
    ensures SpoilsHeld(After(Start(map[root := t]), SiblingsRun(root, a, v), rootOf), DoCreate(root, [1, 0], [a], []))
       <==> Lookup(t, a) != Some(v)
  {
    SiblingsRunLeaves(root, t, a, v, rootOf);
    var f, m := Prefetch().WithTree(Lookup(t, a)), After(Start(map[root := t]), SiblingsRun(root, a, v), rootOf).m;
    FullIsValid(a);
    SiblingsTakeAcross(root, t, a, f, v, m);
    BothWalk(root, a, f, v);
    AskingIsAccepted(m, root, [1, 0], [a]);
    AskingSpoils(m, root, [1, 0], a);
  }
}
