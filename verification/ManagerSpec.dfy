/** What each operation of the context manager computes, on values. */
module ManagerSpec {
  import opened Options
  import opened ContextGraph
  import opened Squash
  import opened Contexts

  /** A request to the reader thread: fetch these addresses for this context. */
  datatype ReadItem = ReadItem(cid: Id, root: Root, addresses: set<Address>)

  /** What the reader thread hands to the writer thread. */
  datatype InflatedItem = InflatedItem(cid: Id, values: map<Address, Option<Bytes>>)

  type ContextMap = map<Id, ContextState>

  datatype ManagerState = ManagerState(
    trees: map<Root, Tree>,
    contexts: ContextMap,
    nextId: Id,
    addressQueue: seq<ReadItem>,
    inflated: seq<InflatedItem>)

  datatype Error = NotAuthorized | InvalidNamespace | MissingContext | UnknownRoot

  // Address syntax

  predicate IsHexDigit(c: char) {
    '0' <= c <= '9' || 'a' <= c <= 'f'
  }

  /** A regular expression that ends in `$` also matches before one final newline. */
  function BeforeNewline(s: string): string {
    if s != "" && s[|s| - 1] == '\n' then s[..|s| - 1] else s
  }

  predicate AddressIsValid(s: string) {
    var digits := BeforeNewline(s);
    |digits| == 70 && forall c <- digits :: IsHexDigit(c)
  }

  predicate NamespaceIsValid(s: string) {
    var digits := BeforeNewline(s);
    |digits| <= 70 && |digits| % 2 == 0 && forall c <- digits :: IsHexDigit(c)
  }

  // The search through base contexts

  function GraphOf(contexts: ContextMap): Graph {
    map id | id in contexts :: contexts[id].bases
  }

  /** Values found in some context, and the addresses no context holds. */
  datatype Found = Found(values: map<Address, Option<Bytes>>, missing: set<Address>)

  function Adding(values: map<Address, Option<Bytes>>, rest: Option<Found>): Option<Found> {
    if rest.None? then None else Some(rest.value.(values := values + rest.value.values))
  }

  /** The breadth-first search; None is the KeyError for an unregistered context. */
  ghost function Find(contexts: ContextMap, queue: seq<Id>, seen: set<Id>, asked: set<Address>): Option<Found>
    decreases |Mentioned(GraphOf(contexts)) - seen| + |queue|
  {
    if asked == {} || queue == [] then Some(Found(map[], asked))
    else if queue[0] !in contexts then None
    else
      WalkShrinks(GraphOf(contexts), queue[0], seen);
      var c := contexts[queue[0]];
      var unseen := NewBases(c.bases, seen);
      Adding(c.Hits(asked),
             Find(contexts, queue[1..] + unseen, seen + SetOf(unseen), asked - c.Hits(asked).Keys))
  }

  /** The search waits for no future. */
  ghost predicate FindReady(contexts: ContextMap, queue: seq<Id>, seen: set<Id>, asked: set<Address>)
    decreases |Mentioned(GraphOf(contexts)) - seen| + |queue|
  {
    if asked == {} || queue == [] || queue[0] !in contexts then true
    else
      WalkShrinks(GraphOf(contexts), queue[0], seen);
      var c := contexts[queue[0]];
      var unseen := NewBases(c.bases, seen);
      && c.HitsReady(asked)
      && FindReady(contexts, queue[1..] + unseen, seen + SetOf(unseen), asked - c.Hits(asked).Keys)
  }

  // Creating a context

  /** Only full addresses among the inputs are looked up in advance. */
  function Wanted(inputs: seq<string>): set<Address> {
    set a | a in inputs && |a| == 70
  }

  ghost function NewContext(root: Root, bases: seq<Id>, inputs: seq<string>, outputs: seq<string>, found: Found)
    : ContextState
  {
    ContextState(root, inputs, outputs, bases, map[], false).WithInitial(found.values).WithPrefetch(found.missing)
  }

  ghost function Create(m: ManagerState, root: Root, bases: seq<Id>, inputs: seq<string>, outputs: seq<string>):
    (ManagerState, Outcome<Id, Error>)
  {
    var found := Find(m.contexts, bases, SetOf(bases), Wanted(inputs));
    if exists s <- inputs + outputs :: !NamespaceIsValid(s) then (m, Err(InvalidNamespace))
    else if found.None? || exists b <- bases :: b !in m.contexts then (m, Err(MissingContext))
    else
      (WithContext(m, NewContext(root, bases, inputs, outputs, found.value), found.value.missing), Ok(m.nextId))
  }

  /** Registers a context and asks for its missing addresses. */
  function WithContext(m: ManagerState, c: ContextState, missing: set<Address>): ManagerState {
    m.(contexts := m.contexts[m.nextId := c],
       nextId := m.nextId + 1,
       addressQueue := if missing == {} then m.addressQueue
                       else m.addressQueue + [ReadItem(m.nextId, c.root, missing)])
  }

  // Direct operations

  /** A list of address-value pairs as the insertion-ordered dictionary built from it. */
  datatype Dict = Dict(order: seq<Address>, values: map<Address, Bytes>)

  function DictOf(items: seq<(Address, Bytes)>): (d: Dict)
    ensures forall a :: a in d.order <==> a in d.values
  {
    if items == [] then Dict([], map[])
    else
      var d := DictOf(items[..|items| - 1]);
      var (a, v) := items[|items| - 1];
      Dict(if a in d.values then d.order else d.order + [a], d.values[a := v])
  }

  ghost function SetValues(m: ManagerState, cid: Id, items: seq<(Address, Bytes)>)
    : (ManagerState, Outcome<bool, Error>)
  {
    var d := DictOf(items);
    if cid !in m.contexts then (m, Ok(false))
    else if exists a <- d.order :: !AddressIsValid(a) then (m, Err(NotAuthorized))
    else
      var c := m.contexts[cid];
      (m.(contexts := m.contexts[cid := c.SetAll(d.order, d.values)]),
       if forall a <- d.order :: Covered(c.writeList, a) then Ok(true) else Err(NotAuthorized))
  }

  ghost function DeleteValues(m: ManagerState, cid: Id, order: seq<Address>): (ManagerState, Outcome<bool, Error>) {
    if cid !in m.contexts then (m, Ok(false))
    else if exists a <- order :: !AddressIsValid(a) then (m, Err(NotAuthorized))
    else
      var c := m.contexts[cid];
      (m.(contexts := m.contexts[cid := c.DeleteAll(order)]),
       if forall a <- order :: Covered(c.writeList, a) then Ok(true) else Err(NotAuthorized))
  }

  // Reading

  ghost function Get(m: ManagerState, cid: Id, addresses: set<Address>): Outcome<map<Address, Option<Bytes>>, Error> {
    if cid !in m.contexts then Ok(map[])
    else if exists a <- addresses :: !AddressIsValid(a) then Err(NotAuthorized)
    else
      var c := m.contexts[cid];
      if exists a <- addresses :: !Covered(c.readList, a) then Err(NotAuthorized)
      else
        var direct := map a | a in addresses && a in c.state :: c.state[a].result;
        var rest := addresses - c.state.Keys;
        var found := Find(m.contexts, [cid], {cid}, rest);
        if rest == {} then Ok(direct)
        else if found.None? then Ok(map[])
        else if found.value.missing == {} then Ok(direct + found.value.values)
        else if c.root !in m.trees then Err(UnknownRoot)
        else Ok(direct + found.value.values + FromTree(m.trees[c.root], found.value.missing))
  }

  function FromTree(t: Tree, addresses: set<Address>): map<Address, Option<Bytes>> {
    map a | a in addresses :: Lookup(t, a)
  }

  /** Reading waits for no future. */
  ghost predicate GetReady(m: ManagerState, cid: Id, addresses: set<Address>) {
    cid in m.contexts ==>
      var c := m.contexts[cid];
      && (forall a <- addresses :: a in c.state ==> c.state[a].Ready())
      && FindReady(m.contexts, [cid], {cid}, addresses - c.state.Keys)
  }

  // The two threads

  /** The reader thread answers its next request from the tree of the request's root. */
  function ReaderRound(m: ManagerState): ManagerState
    requires m.addressQueue != [] && m.addressQueue[0].root in m.trees
  {
    var item := m.addressQueue[0];
    m.(addressQueue := m.addressQueue[1..],
       inflated := m.inflated + [InflatedItem(item.cid, FromTree(m.trees[item.root], item.addresses))])
  }

  /** The writer thread delivers the next answer to its context, if still registered. */
  function WriterRound(m: ManagerState): ManagerState
    requires m.inflated != []
  {
    var item := m.inflated[0];
    var rest := m.(inflated := m.inflated[1..]);
    if item.cid !in m.contexts then rest
    else rest.(contexts := m.contexts[item.cid := m.contexts[item.cid].WithTreeValues(item.values)])
  }

  // Squash

  function FreezeAll(contexts: ContextMap, visited: seq<Id>): ContextMap {
    map id | id in contexts :: if id in visited then contexts[id].Frozen() else contexts[id]
  }

  function WrittenBy(contexts: ContextMap, visited: seq<Id>): (ws: seq<Writes>)
    requires forall id <- visited :: id in contexts
    ensures |ws| == |visited| && forall i :: 0 <= i < |ws| ==> ws[i] == contexts[visited[i]].Written()
  {
    seq(|visited|, i requires 0 <= i < |visited| => contexts[visited[i]].Written())
  }

  lemma {:induction false} WalkStaysRegistered(g: Graph, queue: seq<Id>, seen: set<Id>)
    ensures forall id <- Walk(g, queue, seen).visited :: id in g
    decreases |Mentioned(g) - seen| + |queue|
  {
    if queue != [] && queue[0] in g {
      WalkShrinks(g, queue[0], seen);
      var unseen := NewBases(g[queue[0]], seen);
      WalkStaysRegistered(g, queue[1..] + unseen, seen + SetOf(unseen));
    }
  }

  ghost function SquashTrail(contexts: ContextMap, ids: seq<Id>): (trail: Trail)
    ensures forall id <- trail.visited :: id in contexts
  {
    WalkStaysRegistered(GraphOf(contexts), ids, SetOf(ids));
    WalkFrom(GraphOf(contexts), ids)
  }

  ghost function Collected(contexts: ContextMap, ids: seq<Id>): Delta {
    Collect(NoDelta, WrittenBy(contexts, SquashTrail(contexts, ids).visited))
  }

  /** The tree a squash of these contexts makes out of another. */
  ghost function SquashedOnto(t: Tree, contexts: ContextMap, ids: seq<Id>): Tree {
    SquashedTree(t, WrittenBy(contexts, SquashTrail(contexts, ids).visited))
  }

  ghost function SquashRun(m: ManagerState, root: Root, ids: seq<Id>, persist: bool, cleanUp: bool,
                           rootOf: Tree -> Root):
    (ManagerState, Outcome<Root, Error>)
  {
    var trail := SquashTrail(m.contexts, ids);
    var frozen := m.(contexts := FreezeAll(m.contexts, trail.visited));
    if !trail.complete then (frozen, Err(MissingContext))
    else if root !in m.trees then (frozen, Err(UnknownRoot))
    else Finished(frozen, root, Collected(m.contexts, ids), SetOf(trail.visited), persist, cleanUp, rootOf)
  }

  /** Applies the collected changes to the tree and forgets the visited contexts if asked to. */
  ghost function Finished(m: ManagerState, root: Root, d: Delta, visited: set<Id>,
                          persist: bool, cleanUp: bool, rootOf: Tree -> Root): (ManagerState, Outcome<Root, Error>)
    requires root in m.trees
  {
    var present := d.(deletes := d.deletes * m.trees[root].Keys);
    var t := Update(m.trees[root], present);
    var newRoot := if present == NoDelta then root else rootOf(t);
    (m.(trees := if present == NoDelta || !persist then m.trees else m.trees[newRoot := t],
        contexts := if cleanUp then m.contexts - visited else m.contexts),
     Ok(newRoot))
  }

  /** Squash waits for no future. */
  ghost predicate SquashReady(contexts: ContextMap, ids: seq<Id>) {
    forall id <- SquashTrail(contexts, ids).visited :: contexts[id].CanFreeze()
  }
}
