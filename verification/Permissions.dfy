/** Contexts read and write only what their inputs and outputs name. */
module Permissions {
  import opened Options
  import opened ContextGraph
  import opened Squash
  import opened Contexts
  import opened ManagerSpec
  import opened ManagerRuns
  import opened ReadRuns
  import opened DirectWrites

  /** The address is malformed, or starts with no entry of the list. */
  ghost predicate Refused(list: seq<string>, a: Address) {
    !AddressIsValid(a) || forall p <- list :: !(p <= a)
  }

  // Reads

  /**
   * A read is refused if and only if it asks for an address that is malformed or
   * starts with no entry of the context's read list; so no answer holds one.
   */
  lemma GetRefusesExactly(m: ManagerState, cid: Id, addresses: set<Address>)
    requires cid in m.contexts
    ensures Get(m, cid, addresses) == Err(NotAuthorized) <==>
      exists a <- addresses :: Refused(m.contexts[cid].readList, a)
    ensures Get(m, cid, addresses).Ok? ==>
      forall a <- Get(m, cid, addresses).value :: a in addresses && !Refused(m.contexts[cid].readList, a)
  {
    var c := m.contexts[cid];
    FindWithin(m.contexts, [cid], {cid}, addresses - c.state.Keys);
    forall a | a in addresses
      ensures Refused(c.readList, a) <==> !AddressIsValid(a) || !Covered(c.readList, a)
    {
    }
  }

  // What contexts were given when they were created

  datatype Grant = Grant(inputs: seq<string>, outputs: seq<string>)

  /** The inputs and outputs given for each context the run creates. */
  ghost function Grants(w: World, events: seq<Event>, rootOf: Tree -> Root): map<Id, Grant>
    requires IsRun(w, events, rootOf)
    decreases |events|
  {
    if events == [] then map[]
    else
      var e, rest := events[0], Grants(Next(w, events[0], rootOf), events[1..], rootOf);
      if e.DoCreate? && Create(w.m, e.root, e.bases, e.inputs, e.outputs).1.Ok?
      then map[Create(w.m, e.root, e.bases, e.inputs, e.outputs).1.value := Grant(e.inputs, e.outputs)] + rest
      else rest
  }

  predicate Lists(c: ContextState, g: Grant) {
    c.readList == g.inputs && c.writeList == g.outputs
  }

  /** A step leaves the lists of every context as they were, and a new context gets those of its creation. */
  ghost predicate KeepsLists(w: World, e: Event, w': World) {
    forall id <- w'.m.contexts ::
      if id in w.m.contexts then
        w'.m.contexts[id].readList == w.m.contexts[id].readList
        && w'.m.contexts[id].writeList == w.m.contexts[id].writeList
      else
        && e.DoCreate? && Create(w.m, e.root, e.bases, e.inputs, e.outputs).1 == Ok(id)
        && Lists(w'.m.contexts[id], Grant(e.inputs, e.outputs))
  }

  lemma CreateKeepsLists(w: World, e: Event, rootOf: Tree -> Root)
    requires Wf(w) && e.DoCreate? && Enabled(w, e, rootOf)
    ensures KeepsLists(w, e, Next(w, e, rootOf))
  {
  }

  lemma WriteKeepsLists(w: World, e: Event, rootOf: Tree -> Root)
    requires (e.DoSet? || e.DoDelete?) && Enabled(w, e, rootOf)
    ensures KeepsLists(w, e, Next(w, e, rootOf))
  {
    if e.cid in w.m.contexts {
      if e.DoSet? {
        SetAllKeepsFrame(w.m.contexts[e.cid], DictOf(e.items).order, DictOf(e.items).values);
      } else {
        DeleteAllKeepsFrame(w.m.contexts[e.cid], e.addresses);
      }
    }
  }

  lemma SquashKeepsLists(w: World, e: Event, rootOf: Tree -> Root)
    requires e.DoSquash? && Enabled(w, e, rootOf)
    ensures KeepsLists(w, e, Next(w, e, rootOf))
  {
    SquashEffect(w.m, e.root, e.ids, e.persist, e.cleanUp, rootOf);
  }

  lemma StepKeepsLists(w: World, e: Event, rootOf: Tree -> Root)
    requires Wf(w) && Enabled(w, e, rootOf)
    ensures KeepsLists(w, e, Next(w, e, rootOf))
  {
    match e
    case DoCreate(_, _, _, _) => CreateKeepsLists(w, e, rootOf);
    case DoSet(_, _) => WriteKeepsLists(w, e, rootOf);
    case DoDelete(_, _) => WriteKeepsLists(w, e, rootOf);
    case DoSquash(_, _, _, _) => SquashKeepsLists(w, e, rootOf);
    case _ =>
  }

  /** Ids are handed out once: a later creation does not give an older id. */
  lemma {:induction false} GrantsAreNew(w: World, events: seq<Event>, rootOf: Tree -> Root)
    requires IsRun(w, events, rootOf)
    ensures forall id <- Grants(w, events, rootOf) :: id >= w.m.nextId
    ensures w.m.nextId <= After(w, events, rootOf).m.nextId
    decreases |events|
  {
    if events != [] {
      GrantsAreNew(Next(w, events[0], rootOf), events[1..], rootOf);
    }
  }

  /** After any run a context has the lists it had before, or those it was created with. */
  lemma {:induction false} RunKeepsLists(w: World, events: seq<Event>, rootOf: Tree -> Root, id: Id)
    requires Wf(w) && IsRun(w, events, rootOf) && id in After(w, events, rootOf).m.contexts
    ensures var c := After(w, events, rootOf).m.contexts[id];
      if id in w.m.contexts then Lists(c, Grant(w.m.contexts[id].readList, w.m.contexts[id].writeList))
      else id in Grants(w, events, rootOf) && Lists(c, Grants(w, events, rootOf)[id])
    decreases |events|
  {
    if events != [] {
      var w' := Next(w, events[0], rootOf);
      StepKeepsWf(w, events[0], rootOf);
      StepKeepsLists(w, events[0], rootOf);
      RunKeepsLists(w', events[1..], rootOf, id);
      GrantsAreNew(w', events[1..], rootOf);
    }
  }

  // Every run

  /**
   * In every reachable state a read is refused if and only if it asks for an address
   * that is malformed or starts with none of the inputs given when its context was
   * created; and a set or delete likewise, with the outputs.
   */
  lemma RunsAreAuthorized(trees: map<Root, Tree>, events: seq<Event>, rootOf: Tree -> Root, cid: Id,
                          asked: set<Address>, items: seq<(Address, Bytes)>, addresses: seq<Address>)
    requires IsRun(Start(trees), events, rootOf)
    requires cid in After(Start(trees), events, rootOf).m.contexts
    ensures cid in Grants(Start(trees), events, rootOf)
    ensures var m, grant := After(Start(trees), events, rootOf).m, Grants(Start(trees), events, rootOf)[cid];
      && (Get(m, cid, asked) == Err(NotAuthorized) <==> exists a <- asked :: Refused(grant.inputs, a))
      && (Get(m, cid, asked).Ok? ==>
            forall a <- Get(m, cid, asked).value :: a in asked && !Refused(grant.inputs, a))
      && (SetValues(m, cid, items).1 == Err(NotAuthorized) <==>
            exists i :: 0 <= i < |items| && Refused(grant.outputs, items[i].0))
      && (DeleteValues(m, cid, addresses).1 == Err(NotAuthorized) <==>
            exists a <- addresses :: Refused(grant.outputs, a))
  {
    var m := After(Start(trees), events, rootOf).m;
    RunKeepsLists(Start(trees), events, rootOf, cid);
    GetRefusesExactly(m, cid, asked);
    SetAnswersExactly(m, cid, items);
    DeleteAnswersExactly(m, cid, addresses);
  }
}
