/** Registered transaction processors and the allocator that hands them out. */
module Processors {
  import opened Options
  import opened RoundRobins
  import opened ProcessorSpec

  class Processor {
    const connectionId: ConnId
    const maxOccupancy: nat
    var currentOccupancy: int

    function View(): Proc
      reads this
    {
      Proc(connectionId, maxOccupancy, currentOccupancy)
    }

    constructor (connectionId: ConnId, maxOccupancy: nat)
      ensures View() == Proc(connectionId, maxOccupancy, 0)
    {
      this.connectionId := connectionId;
      this.maxOccupancy := maxOccupancy;
      currentOccupancy := 0;
    }

    method IncOccupancy()
      modifies this
      ensures View() == old(View()).Plus(1)
    {
      currentOccupancy := currentOccupancy + 1;
    }

    method DecOccupancy()
      modifies this
      ensures View() == old(View()).Plus(-1)
    {
      currentOccupancy := currentOccupancy - 1;
    }

    method HasVacancy() returns (vacant: bool)
      ensures vacant == View().HasVacancy()
    {
      vacant := currentOccupancy < maxOccupancy;
    }
  }

  class RoundRobinProcessorIterator {
    var processors: seq<Processor>
    var pos: nat

    ghost predicate Valid()
      reads this
    {
      Distinct(processors) && if processors == [] then pos == 0 else pos < |processors|
    }

    ghost function View(): (ring: Ring)
      requires Valid()
      reads this, processors
      ensures ring.Fits() && |ring.procs| == |processors|
    {
      Ring(seq(|processors|, i requires 0 <= i < |processors| reads this, processors => processors[i].View()), pos)
    }

    constructor ()
      ensures Valid() && View() == NoRing && processors == []
    {
      processors := [];
      pos := 0;
    }

    /** The next processor with vacancy, trying each at most once; None if there is none. */
    method NextProcessor() returns (r: Option<Processor>)
      requires Valid()
      modifies this`pos
      ensures Valid() && processors == old(processors) && View() == old(View()).Advanced()
      ensures match old(View()).Chosen()
        case Some(k) => r == Some(processors[k])
        case None => r == None
    {
      ghost var ring, n := View(), |processors|;
      ghost var start := pos;
      for i := 0 to |processors|
        invariant Valid() && (n > 0 ==> pos == if start + i < n then start + i else start + i - n)
        invariant SelectFrom(ring.Vacancies(), pos, n - i) == Select(ring.Vacancies(), start)
      {
        var processor := processors[pos];
        pos := if pos + 1 == |processors| then 0 else pos + 1;
        var vacant := processor.HasVacancy();
        if vacant {
          return Some(processor);
        }
      }
      return None;
    }

    method AddProcessor(processor: Processor)
      requires Valid() && processor !in processors
      modifies this
      ensures Valid() && processors == old(processors) + [processor] && View() == old(View()).Added(processor.View())
    {
      processors := processors + [processor];
      pos := 0;
    }

    /** The first processor of a connection. */
    method FindProcessor(id: ConnId) returns (k: Option<nat>)
      requires Valid()
      ensures k == IndexOf(View().procs, id)
    {
      ghost var procs := View().procs;
      for i := 0 to |processors|
        invariant forall j :: 0 <= j < i ==> procs[j].id != id
      {
        if processors[i].connectionId == id {
          assert procs[i].id == id;
          return Some(i);
        }
      }
      return None;
    }

    /** Fails, changing nothing, if the connection has no processor here. */
    method RemoveProcessor(id: ConnId) returns (ok: bool)
      requires Valid()
      modifies this
      ensures Valid() && SetOf(processors) <= SetOf(old(processors))
      ensures match IndexOf(old(View()).procs, id)
        case Some(k) => ok && View() == old(View()).Removed(k)
        case None => !ok && View() == old(View())
    {
      var k := FindProcessor(id);
      if k.None? {
        return false;
      }
      ghost var procs := View().procs;
      processors := processors[..k.value] + processors[k.value + 1..];
      pos := 0;
      assert View().procs == procs[..k.value] + procs[k.value + 1..];
      return true;
    }
  }

  /** What asking for a processor of a type finds: no such type, none with vacancy, or one that is now occupied. */
  datatype Found = Missing | Full | Vacant(id: ConnId)

  /** The manager, with each type's iterator held as a value. */
  class ProcessorManager {
    var rings: map<ProcessorType, Ring>
    var identities: map<ConnId, seq<ProcessorType>>

    ghost predicate Valid()
      reads this
    {
      View().Fits() && View().Listed()
    }

    ghost function View(): Pool
      reads this
    {
      Pool(rings, identities)
    }

    constructor ()
      ensures Valid() && View() == Pool(map[], map[])
    {
      rings := map[];
      identities := map[];
    }

    method Register(t: ProcessorType, p: Proc)
      requires Valid()
      modifies this
      ensures Valid() && View() == old(View()).Registered(t, p)
    {
      RegisterKeepsListed(View(), t, p);
      if t !in rings {
        rings := rings[t := NoRing.Added(p)];
      } else {
        rings := rings[t := rings[t].Added(p)];
      }
      if p.id !in identities {
        identities := identities[p.id := []];
      }
      identities := identities[p.id := identities[p.id] + [t]];
    }

    /** Fails where an iterator does not have the connection, keeping what was removed before. */
    method Remove(id: ConnId) returns (ok: bool)
      requires Valid()
      modifies this
      ensures Valid() && identities == old(identities) && (rings, ok) == old(View()).Without(id)
    {
      RemovalKeepsListed(View(), id);
      if id !in identities {
        return true;
      }
      var types := identities[id];
      for i := 0 to |types|
        invariant View().Fits() && identities == old(identities)
        invariant Unregistered(rings, types[i..], id) == Unregistered(old(rings), types, id)
      {
        assert types[i..][1..] == types[i + 1..];
        var t := types[i];
        if t in rings {
          var k := IndexOf(rings[t].procs, id);
          if k.None? {
            return false;
          }
          var ring := rings[t].Removed(k.value);
          assert rings[t := ring] - {t} == rings - {t};
          rings := rings[t := ring];
          if rings[t].procs == [] {
            rings := rings - {t};
          }
        }
      }
      return true;
    }

    /** Hands out a processor with vacancy; otherwise the caller has to wait. */
    method GetNextOfType(t: ProcessorType) returns (r: Found)
      requires Valid()
      modifies this`rings
      ensures Valid()
      ensures r.Missing? <==> t !in old(rings)
      ensures r.Full? <==> t in old(rings) && old(rings)[t].Chosen().None?
      ensures if r.Vacant?
        then r.id == old(rings)[t].procs[old(rings)[t].Chosen().value].id && View() == old(View()).Dispatched(t)
        else rings == old(rings)
    {
      if t !in rings {
        return Missing;
      }
      var k := rings[t].Chosen();
      if k.None? {
        return Full;
      }
      var processor := rings[t].procs[k.value];
      ghost var ring := rings[t].Advanced().Adjusted(k.value, 1);
      assert Ids(ring.procs) == Ids(rings[t].procs);
      SameIdsKeepListed(View(), t, ring);
      rings := rings[t := rings[t].Advanced().Adjusted(k.value, 1)];
      return Vacant(processor.id);
    }

    /**
     * A caller that waits for vacancy wakes up: a successful test is followed by
     * another call. The test of a type that is gone raises.
     */
    method WaitForVacancy(t: ProcessorType) returns (r: Found)
      requires Valid()
      modifies this`rings
      ensures Valid()
      ensures r.Missing? <==> t !in old(rings)
      ensures r.Full? <==> t in old(rings) && old(rings)[t].Chosen().None?
      ensures if r.Vacant?
        then
          var probed := old(rings)[t].Advanced();
          && probed.Chosen().Some? && r.id == probed.procs[probed.Chosen().value].id
          && View() == old(View()).Probed(t).Dispatched(t)
        else rings == old(rings)
    {
      if t !in rings {
        return Missing;
      }
      var available := rings[t].Chosen();
      SameIdsKeepListed(View(), t, rings[t].Advanced());
      rings := rings[t := rings[t].Advanced()];
      if available.None? {
        return Full;
      }
      r := GetNextOfType(t);
    }

    /** Frees a processor after its response; fails, changing nothing, if it is not registered. */
    method Release(t: ProcessorType, id: ConnId) returns (ok: bool)
      requires Valid()
      modifies this`rings
      ensures Valid()
      ensures ok <==> t in old(rings) && IndexOf(old(rings)[t].procs, id).Some?
      ensures View() == if ok then old(View()).Released(t, id) else old(View())
    {
      if t !in rings {
        return false;
      }
      var k := IndexOf(rings[t].procs, id);
      if k.None? {
        return false;
      }
      ghost var ring := rings[t].Adjusted(k.value, -1);
      assert Ids(ring.procs) == Ids(rings[t].procs);
      SameIdsKeepListed(View(), t, ring);
      rings := rings[t := rings[t].Adjusted(k.value, -1)];
      return true;
    }
  }
}
