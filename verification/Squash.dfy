/** Collapsing the writes of many contexts into one tree update. */
module Squash {
  import opened Options

  type Address = string

  /** The contents of the Merkle tree under one root. */
  type Tree = map<Address, Bytes>

  /** What one context writes: the addresses it has set and those it has deleted. */
  datatype Writes = Writes(sets: map<Address, Bytes>, deletes: set<Address>)
  {
    predicate Touches(a: Address) {
      a in sets || a in deletes
    }

    function Effect(a: Address): Option<Bytes> {
      Lookup(sets, a)
    }
  }

  /** The updates and deletes collected so far, newest context first. */
  datatype Delta = Delta(updates: map<Address, Bytes>, deletes: set<Address>)
  {
    predicate Disjoint() {
      updates.Keys !! deletes
    }

    predicate Has(a: Address) {
      a in updates || a in deletes
    }
  }

  const NoDelta := Delta(map[], {})

  /** Adds the writes of an older context without disturbing newer ones. */
  function Absorb(d: Delta, w: Writes): (d': Delta)
    ensures d.Disjoint() ==> d'.Disjoint()
    ensures forall a :: d'.Has(a) <==> d.Has(a) || w.Touches(a)
  {
    var updates := d.updates + map a | a in w.sets && !d.Has(a) :: w.sets[a];
    Delta(updates, d.deletes + set a | a in w.deletes && a !in updates && a !in d.deletes)
  }

  function Collect(d: Delta, visited: seq<Writes>): Delta
    decreases |visited|
  {
    if visited == [] then d else Collect(Absorb(d, visited[0]), visited[1..])
  }

  /** `MerkleDatabase.update`: remove the deleted addresses, then put the updates. */
  function Update(t: Tree, d: Delta): Tree {
    (t - d.deletes) + d.updates
  }

  /** The tree squash produces: deletes are first cut down to addresses present. */
  function SquashedTree(t: Tree, visited: seq<Writes>): Tree {
    var d := Collect(NoDelta, visited);
    Update(t, d.(deletes := d.deletes * t.Keys))
  }

  // Sequential replay, the reference meaning

  function Apply(t: Tree, w: Writes): Tree {
    (t - w.deletes) + w.sets
  }

  function Replay(t: Tree, oldestFirst: seq<Writes>): Tree {
    if oldestFirst == [] then t
    else Apply(Replay(t, oldestFirst[..|oldestFirst| - 1]), oldestFirst[|oldestFirst| - 1])
  }

  lemma SameTree(t: Tree, u: Tree)
    requires forall a: Address :: Lookup(t, a) == Lookup(u, a)
    ensures t == u
  {
    forall a: Address
      ensures a in t <==> a in u
      ensures a in t ==> t[a] == u[a]
    {
      assert Lookup(t, a) == Lookup(u, a);
    }
  }

  lemma AbsorbIsApply(t: Tree, d: Delta, w: Writes)
    requires d.Disjoint()
    ensures Update(t, Absorb(d, w)) == Update(Apply(t, w), d)
  {
    SameTree(Update(t, Absorb(d, w)), Update(Apply(t, w), d));
  }

  /** Deleting an absent address is no change, so squash may skip it. */
  lemma FilterIsUpdate(t: Tree, d: Delta)
    ensures Update(t, d.(deletes := d.deletes * t.Keys)) == Update(t, d)
  {
    SameTree(Update(t, d.(deletes := d.deletes * t.Keys)), Update(t, d));
  }

  lemma UpdateNothing(t: Tree)
    ensures Update(t, NoDelta) == t
  {
    SameTree(Update(t, NoDelta), t);
  }

  lemma {:induction false} CollectIsReplay(t: Tree, d: Delta, visited: seq<Writes>)
    requires d.Disjoint()
    ensures Collect(d, visited).Disjoint()
    ensures Update(t, Collect(d, visited)) == Update(Replay(t, Reverse(visited)), d)
    decreases |visited|
  {
    if visited != [] {
      var older := Reverse(visited[1..]);
      CollectIsReplay(t, Absorb(d, visited[0]), visited[1..]);
      AbsorbIsApply(Replay(t, older), d, visited[0]);
      assert (older + [visited[0]])[..|older|] == older;
    }
  }

  /**
   * Squash is replay: the collected updates and deletes never overlap, and
   * applying them is the same as applying every visited context's own writes
   * one context at a time, last visited first.
   */
  lemma SquashIsReplay(t: Tree, visited: seq<Writes>)
    ensures Collect(NoDelta, visited).Disjoint()
    ensures SquashedTree(t, visited) == Replay(t, Reverse(visited))
  {
    CollectIsReplay(t, NoDelta, visited);
    FilterIsUpdate(t, Collect(NoDelta, visited));
    UpdateNothing(Replay(t, Reverse(visited)));
  }

  // The value at one address after a replay

  ghost predicate LastTouch(ws: seq<Writes>, a: Address, k: int) {
    && 0 <= k < |ws|
    && ws[k].Touches(a)
    && forall j :: k < j < |ws| ==> !ws[j].Touches(a)
  }

  /** After a replay an address holds what its last writer left there. */
  lemma {:induction false} ReplayAt(t: Tree, ws: seq<Writes>, a: Address, k: int)
    requires LastTouch(ws, a, k)
    ensures Lookup(Replay(t, ws), a) == ws[k].Effect(a)
  {
    var before := ws[..|ws| - 1];
    if k < |before| {
      ReplayAt(t, before, a, k);
      assert !ws[|ws| - 1].Touches(a);
    }
  }

  /** An address nobody writes keeps its value. */
  lemma {:induction false} ReplayFrame(t: Tree, ws: seq<Writes>, a: Address)
    requires forall w <- ws :: !w.Touches(a)
    ensures Lookup(Replay(t, ws), a) == Lookup(t, a)
  {
    if ws != [] {
      var before := ws[..|ws| - 1];
      assert forall w <- before :: w in ws;
      assert ws[|ws| - 1] in ws;
      ReplayFrame(t, before, a);
    }
  }

  lemma {:induction false} FindLastTouch(ws: seq<Writes>, a: Address) returns (k: int)
    requires exists w <- ws :: w.Touches(a)
    ensures LastTouch(ws, a, k)
  {
    k := |ws| - 1;
    if !ws[k].Touches(a) {
      var before := ws[..k];
      assert exists w <- before :: w.Touches(a) by {
        var w :| w in ws && w.Touches(a);
        assert w in before;
      }
      k := FindLastTouch(before, a);
    }
  }

  /** Squash leaves alone every address outside the writes of all visited contexts. */
  lemma SquashFrame(t: Tree, visited: seq<Writes>, a: Address)
    requires forall w <- visited :: !w.Touches(a)
    ensures Lookup(SquashedTree(t, visited), a) == Lookup(t, a)
  {
    SquashIsReplay(t, visited);
    ReverseElements(visited);
    ReplayFrame(t, Reverse(visited), a);
  }
}
