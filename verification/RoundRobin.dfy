/** Round-robin choice among processors, skipping those without vacancy. */
module RoundRobins {
  import opened Options

  // Positions on a ring of n places

  function Next(n: nat, i: nat): nat
    requires i < n
    ensures Next(n, i) < n
  {
    if i + 1 == n then 0 else i + 1
  }

  /** How many steps ahead of a position a place lies. */
  function Dist(n: nat, pos: nat, k: nat): (d: nat)
    requires pos < n && k < n
    ensures d < n
  {
    if pos <= k then k - pos else k + n - pos
  }

  // One call

  /** The search as the iterator makes it: at most so many tries, starting at a position. */
  function SelectFrom(vacant: seq<bool>, pos: nat, tries: nat): Option<nat>
    requires tries > 0 ==> pos < |vacant|
    decreases tries
  {
    if tries == 0 then None
    else if vacant[pos] then Some(pos)
    else SelectFrom(vacant, Next(|vacant|, pos), tries - 1)
  }

  function Select(vacant: seq<bool>, pos: nat): Option<nat>
    requires vacant != [] ==> pos < |vacant|
  {
    SelectFrom(vacant, pos, |vacant|)
  }

  /** The place is vacant and no vacant place lies closer ahead. */
  ghost predicate IsNearest(vacant: seq<bool>, pos: nat, k: nat)
    requires pos < |vacant|
  {
    k < |vacant| && vacant[k] &&
    forall j :: 0 <= j < |vacant| && vacant[j] ==> Dist(|vacant|, pos, k) <= Dist(|vacant|, pos, j)
  }

  lemma {:induction false} SelectFromScans(vacant: seq<bool>, pos: nat, tries: nat)
    requires pos < |vacant| && tries <= |vacant|
    ensures match SelectFrom(vacant, pos, tries)
      case Some(k) => k < |vacant| && vacant[k] && Dist(|vacant|, pos, k) < tries &&
        forall j :: 0 <= j < |vacant| && Dist(|vacant|, pos, j) < Dist(|vacant|, pos, k) ==> !vacant[j]
      case None => forall j :: 0 <= j < |vacant| && Dist(|vacant|, pos, j) < tries ==> !vacant[j]
    decreases tries
  {
    if tries > 0 && !vacant[pos] {
      var n, next := |vacant|, Next(|vacant|, pos);
      SelectFromScans(vacant, next, tries - 1);
      assert forall j :: 0 <= j < n && j != pos ==> Dist(n, next, j) == Dist(n, pos, j) - 1;
      assert Dist(n, next, pos) == n - 1;
    }
  }

  /** A call fails only if nobody has vacancy; otherwise it selects the nearest vacant processor. */
  lemma SelectIsNearest(vacant: seq<bool>, pos: nat)
    requires pos < |vacant|
    ensures Select(vacant, pos) == None <==> forall j :: 0 <= j < |vacant| ==> !vacant[j]
    ensures forall k: nat :: Select(vacant, pos) == Some(k) <==> IsNearest(vacant, pos, k)
  {
    var n := |vacant|;
    SelectFromScans(vacant, pos, n);
    forall k: nat
      ensures Select(vacant, pos) == Some(k) <==> IsNearest(vacant, pos, k)
    {
      if Select(vacant, pos).Some? && IsNearest(vacant, pos, k) {
        var selected := Select(vacant, pos).value;
        assert Dist(n, pos, k) <= Dist(n, pos, selected) && Dist(n, pos, selected) <= Dist(n, pos, k);
      }
    }
  }

  // Runs of calls on a fixed list, with any change of vacancy between calls

  ghost predicate IsRun(n: nat, pos: nat, calls: seq<seq<bool>>) {
    pos < n && forall t :: 0 <= t < |calls| ==> |calls[t]| == n
  }

  /** The position before a call. */
  function PosAt(n: nat, pos: nat, calls: seq<seq<bool>>, t: nat): (p: nat)
    requires IsRun(n, pos, calls) && t <= |calls|
    ensures p < n
  {
    if t == 0 then pos
    else
      var before := PosAt(n, pos, calls, t - 1);
      var k := Select(calls[t - 1], before);
      if k.Some? then SelectIsNearest(calls[t - 1], before); Next(n, k.value) else before
  }

  /** The processor a call selects. */
  function Choice(n: nat, pos: nat, calls: seq<seq<bool>>, t: nat): Option<nat>
    requires IsRun(n, pos, calls) && t < |calls|
  {
    Select(calls[t], PosAt(n, pos, calls, t))
  }

  /** Selecting a nearer processor brings the position closer to every one beyond it. */
  lemma StepNears(n: nat, pos: nat, s: nat, p: nat)
    requires pos < n && s < n && p < n && Dist(n, pos, s) < Dist(n, pos, p)
    ensures Dist(n, Next(n, s), p) == Dist(n, pos, p) - Dist(n, pos, s) - 1
  {
  }

  /** While a vacant processor waits, the position stays short of the one selected before. */
  lemma {:induction false} ApproachesWaiting(n: nat, pos: nat, calls: seq<seq<bool>>, t1: nat, t: nat, r: nat, p: nat)
    requires IsRun(n, pos, calls) && t1 < t <= |calls| && p < n && p != r
    requires Choice(n, pos, calls, t1) == Some(r)
    requires forall u :: t1 < u < t ==> calls[u][p] && Choice(n, pos, calls, u) != Some(p)
    ensures r < n && Dist(n, PosAt(n, pos, calls, t), p) < Dist(n, PosAt(n, pos, calls, t), r)
    decreases t
  {
    SelectIsNearest(calls[t1], PosAt(n, pos, calls, t1));
    if t > t1 + 1 {
      ApproachesWaiting(n, pos, calls, t1, t - 1, r, p);
      var before := PosAt(n, pos, calls, t - 1);
      SelectIsNearest(calls[t - 1], before);
      var s := Choice(n, pos, calls, t - 1).value;
      assert IsNearest(calls[t - 1], before, s);
      assert Dist(n, before, s) < Dist(n, before, p) by {
        assert Dist(n, before, s) <= Dist(n, before, p) && s != p;
      }
      StepNears(n, before, s, p);
      StepNears(n, before, s, r);
    }
  }

  /**
   * Round robin is fair: between two selections of one processor, every other
   * processor that had vacancy at all calls in between is selected.
   */
  lemma Fair(n: nat, pos: nat, calls: seq<seq<bool>>, t1: nat, t2: nat, r: nat, p: nat)
    requires IsRun(n, pos, calls) && t1 < t2 < |calls| && p < n && p != r
    requires Choice(n, pos, calls, t1) == Some(r) && Choice(n, pos, calls, t2) == Some(r)
    requires forall t :: t1 < t <= t2 ==> calls[t][p]
    ensures exists t :: t1 < t < t2 && Choice(n, pos, calls, t) == Some(p)
  {
    if forall t :: t1 < t < t2 ==> Choice(n, pos, calls, t) != Some(p) {
      ApproachesWaiting(n, pos, calls, t1, t2, r, p);
      SelectIsNearest(calls[t2], PosAt(n, pos, calls, t2));
    }
  }

  lemma {:induction false} WaitShrinks(n: nat, pos: nat, calls: seq<seq<bool>>, t1: nat, i: nat, p: nat)
    requires IsRun(n, pos, calls) && t1 + i <= |calls| && p < n
    requires forall t :: t1 <= t < t1 + i ==> calls[t][p] && Choice(n, pos, calls, t) != Some(p)
    ensures Dist(n, PosAt(n, pos, calls, t1 + i), p) + i < n
    decreases i
  {
    if i > 0 {
      var t := t1 + i - 1;
      WaitShrinks(n, pos, calls, t1, i - 1, p);
      var before := PosAt(n, pos, calls, t);
      SelectIsNearest(calls[t], before);
      var s := Choice(n, pos, calls, t).value;
      assert IsNearest(calls[t], before, s);
      assert Dist(n, before, s) <= Dist(n, before, p) && s != p;
      StepNears(n, before, s, p);
    }
  }

  /** Nobody starves: among n processors, one with vacancy at n calls in a row is selected by one of them. */
  lemma NobodyStarves(n: nat, pos: nat, calls: seq<seq<bool>>, t1: nat, p: nat)
    requires IsRun(n, pos, calls) && t1 + n <= |calls| && p < n
    requires forall t :: t1 <= t < t1 + n ==> calls[t][p]
    ensures exists t :: t1 <= t < t1 + n && Choice(n, pos, calls, t) == Some(p)
  {
    if forall t :: t1 <= t < t1 + n ==> Choice(n, pos, calls, t) != Some(p) {
      WaitShrinks(n, pos, calls, t1, n, p);
    }
  }
}
