/** The integer-key workload generator, replayed through each of the two transaction handlers. */
module IntKeyWorkload {
  import opened Options

  const HALF_MAX_VALUE := 2_147_483_647
  const MAX_VALUE := 4_294_967_295
  const INCS_AND_DECS_PER_SET := 200_000
  const MAX_NAME_LEN := 20

  datatype Payload = Payload(verb: string, name: string, value: nat)

  // The handlers

  type Values = map<string, int>

  /** The Python handler lets a set overwrite; the Rust handler refuses a set of a name it knows. */
  datatype Handler = Overwriting | Refusing

  /** The values after a transaction, or None where the handler refuses it. */
  function Apply(handler: Handler, values: Values, p: Payload): Option<Values> {
    match handler
    case Overwriting => ApplyOverwriting(values, p)
    case Refusing => ApplyRefusing(values, p)
  }

  function ApplyOverwriting(values: Values, p: Payload): Option<Values> {
    match p.verb
    case "set" => Some(values[p.name := p.value])
    case "inc" =>
      if p.name !in values || values[p.name] + p.value > MAX_VALUE then None
      else Some(values[p.name := values[p.name] + p.value])
    case "dec" =>
      if p.name !in values || values[p.name] - p.value < 0 then None
      else Some(values[p.name := values[p.name] - p.value])
    case "mul" =>
      if p.name !in values || values[p.name] * p.value < 0 then None
      else Some(values[p.name := values[p.name] * p.value])
    case _ => None
  }

  function ApplyRefusing(values: Values, p: Payload): Option<Values> {
    if |p.name| > MAX_NAME_LEN || p.value > MAX_VALUE then None
    else
      match p.verb
      case "set" => if p.name in values then None else Some(values[p.name := p.value])
      case "inc" =>
        if p.name !in values || MAX_VALUE - values[p.name] < p.value then None
        else Some(values[p.name := values[p.name] + p.value])
      case "dec" =>
        if p.name !in values || p.value > values[p.name] then None
        else Some(values[p.name := values[p.name] - p.value])
      case _ => None
  }

  /** All values are numbers of 32 bits. */
  ghost predicate InRange(values: Values) {
    forall n <- values :: 0 <= values[n] <= MAX_VALUE
  }

  /**
   * The two handlers do the same, except that one refuses a name that is too long,
   * an operand of more than 32 bits, a set of a known name, and every multiplication.
   */
  lemma HandlersDifferExactly(values: Values, p: Payload)
    requires InRange(values)
    ensures Apply(Overwriting, values, p) != Apply(Refusing, values, p) <==>
      && Apply(Overwriting, values, p).Some?
      && (|p.name| > 20 || p.value > 4_294_967_295 || p.verb == "mul" || (p.verb == "set" && p.name in values))
  {
  }

  /** What a handler accepts changes the named value alone; set and inc and dec as their names say. */
  lemma HandlerChangesOne(handler: Handler, values: Values, p: Payload)
    requires Apply(handler, values, p).Some?
    ensures p.verb in {"set", "inc", "dec", "mul"} && (p.verb != "set" ==> p.name in values)
    ensures Apply(handler, values, p).value == values[p.name :=
      match p.verb
      case "set" => p.value
      case "inc" => values[p.name] + p.value
      case "dec" => values[p.name] - p.value
      case _ => values[p.name] * p.value]
  {
  }

  /**
   * Values stay within 32 bits, except that the overwriting handler does not check
   * what it sets or multiplies to.
   */
  lemma HandlerStaysInRangeExactly(handler: Handler, values: Values, p: Payload)
    requires InRange(values) && Apply(handler, values, p).Some?
    ensures InRange(Apply(handler, values, p).value) <==>
      (handler.Overwriting? ==>
         && (p.verb == "set" ==> p.value <= 4_294_967_295)
         && (p.verb == "mul" ==> values[p.name] * p.value <= 4_294_967_295))
  {
    HandlerChangesOne(handler, values, p);
    var values' := Apply(handler, values, p).value;
    assert p.name in values';
    assert forall n <- values :: n != p.name ==> values'[n] == values[n];
  }

  /** A set of more than 32 bits is accepted by one handler and refused by the other. */
  lemma OversizedSetIsAccepted(name: string)
    ensures Apply(Overwriting, map[], Payload("set", name, 4_294_967_296)) == Some(map[name := 4_294_967_296])
    ensures Apply(Refusing, map[], Payload("set", name, 4_294_967_296)) == None
  {
  }

  // The generator

  /** What the random generator yields for one payload. */
  datatype Draw = Draw(valid: bool, name: string, pick: string, up: bool, amount: nat)

  /** Names have twenty characters, amounts are one to nine, and a pick is from the names in use. */
  predicate Legal(names: map<string, nat>, numNames: nat, draw: Draw) {
    && |draw.name| == MAX_NAME_LEN && 1 <= draw.amount < 10
    && (draw.valid && |names| >= numNames && names != map[] ==> draw.pick in names)
  }

  /** The payload picks from no names at all, where the generator panics. */
  predicate Panics(names: map<string, nat>, numNames: nat, draw: Draw) {
    draw.valid && |names| >= numNames && names == map[]
  }

  predicate IsSet(names: map<string, nat>, numNames: nat, draw: Draw) {
    draw.valid && |names| < numNames
  }

  function Generated(numNames: nat, names: map<string, nat>, draw: Draw): (map<string, nat>, Payload)
    requires Legal(names, numNames, draw) && !Panics(names, numNames, draw)
  {
    if !draw.valid then (names, Payload("invalid", draw.name, 0))
    else if |names| < numNames then (names[draw.name := 0], Payload("set", draw.name, HALF_MAX_VALUE))
    else
      var count := names[draw.pick];
      (if count < INCS_AND_DECS_PER_SET then names[draw.pick := count + 1] else names - {draw.pick},
       Payload(if draw.up then "inc" else "dec", draw.pick, draw.amount))
  }

  class IntKeyIterator {
    const numNames: nat
    var names: map<string, nat>

    constructor (numNames: nat)
      ensures this.numNames == numNames && names == map[]
    {
      this.numNames := numNames;
      names := map[];
    }

    /** None where picking from no names panics. */
    method Next(draw: Draw) returns (p: Option<Payload>)
      requires Legal(names, numNames, draw)
      modifies this
      ensures p.None? <==> Panics(old(names), numNames, draw)
      ensures p.None? ==> names == old(names)
      ensures p.Some? ==> (names, p.value) == Generated(numNames, old(names), draw)
    {
      if !draw.valid {
        return Some(Payload("invalid", draw.name, 0));
      }
      if |names| < numNames {
        names := names[draw.name := 0];
        return Some(Payload("set", draw.name, HALF_MAX_VALUE));
      }
      if names == map[] {
        return None;
      }
      var count := names[draw.pick];
      if count < INCS_AND_DECS_PER_SET {
        names := names[draw.pick := count + 1];
      } else {
        names := names - {draw.pick};
      }
      return Some(Payload(if draw.up then "inc" else "dec", draw.pick, draw.amount));
    }
  }

  /** With no names to keep in use, and only then, a generator that has started from nothing panics. */
  lemma PanicsExactly(numNames: nat, names: map<string, nat>, draw: Draw)
    ensures Panics(names, numNames, draw) <==> draw.valid && numNames == 0 && names == map[]
  {
    if names == map[] {
      assert |names| == 0;
    }
  }

  // Replay

  predicate Near(value: int, steps: nat) {
    HALF_MAX_VALUE - 9 * steps <= value <= HALF_MAX_VALUE + 9 * steps
  }

  /** Names in use have values as near the middle as their counts say; all values stay near it. */
  ghost predicate Tracked(names: map<string, nat>, values: Values) {
    && (forall n <- names ::
          n in values && |n| == MAX_NAME_LEN && names[n] <= INCS_AND_DECS_PER_SET && Near(values[n], names[n]))
    && (forall n <- values :: Near(values[n], INCS_AND_DECS_PER_SET + 1))
  }

  datatype Replay = Replay(names: map<string, nat>, values: Values)

  const Empty := Replay(map[], map[])

  predicate CanStep(numNames: nat, w: Replay, draw: Draw) {
    Legal(w.names, numNames, draw) && !Panics(w.names, numNames, draw)
  }

  predicate Accepted(handler: Handler, numNames: nat, w: Replay, draw: Draw)
    requires CanStep(numNames, w, draw)
  {
    Apply(handler, w.values, Generated(numNames, w.names, draw).1).Some?
  }

  /** Generates one payload and hands it to the handler; a refused one changes no value. */
  function Step(handler: Handler, numNames: nat, w: Replay, draw: Draw): Replay
    requires CanStep(numNames, w, draw)
  {
    var (names, p) := Generated(numNames, w.names, draw);
    var values := Apply(handler, w.values, p);
    Replay(names, if values.Some? then values.value else w.values)
  }

  /** The generator sets a name that already has a value. */
  predicate Repeats(numNames: nat, w: Replay, draw: Draw) {
    IsSet(w.names, numNames, draw) && draw.name in w.values
  }

  /**
   * While values are tracked, a handler accepts exactly the payloads generated
   * as valid, but for a set of a known name, which one of them refuses.
   */
  lemma StepIsAccepted(handler: Handler, numNames: nat, w: Replay, draw: Draw)
    requires Tracked(w.names, w.values) && CanStep(numNames, w, draw)
    ensures Accepted(handler, numNames, w, draw)
       <==> draw.valid && !(handler.Refusing? && Repeats(numNames, w, draw))
  {
  }

  /** Giving one name a value, and a count that fits it or none, keeps all values tracked. */
  lemma UpdateStaysTracked(names: map<string, nat>, values: Values, names': map<string, nat>, n: string, v: int)
    requires Tracked(names, values) && Near(v, INCS_AND_DECS_PER_SET + 1)
    requires names' - {n} == names - {n}
    requires n in names' ==> |n| == MAX_NAME_LEN && names'[n] <= INCS_AND_DECS_PER_SET && Near(v, names'[n])
    ensures Tracked(names', values[n := v])
  {
    forall m | m in names' && m != n
      ensures m in names && names'[m] == names[m]
    {
      assert m in names' - {n};
    }
  }

  /** What an inc or a dec of a tracked name leaves, whichever the handler. */
  lemma MoveStep(handler: Handler, numNames: nat, w: Replay, draw: Draw)
    requires Tracked(w.names, w.values) && CanStep(numNames, w, draw) && draw.valid && |w.names| >= numNames
    ensures draw.pick in w.names && draw.pick in w.values
    ensures Step(handler, numNames, w, draw).names - {draw.pick} == w.names - {draw.pick}
    ensures Step(handler, numNames, w, draw).values
         == w.values[draw.pick := if draw.up then w.values[draw.pick] + draw.amount
                                  else w.values[draw.pick] - draw.amount]
  {
  }

  lemma StepStaysTracked(handler: Handler, numNames: nat, w: Replay, draw: Draw)
    requires Tracked(w.names, w.values) && CanStep(numNames, w, draw)
    requires handler.Overwriting? || !Repeats(numNames, w, draw)
    ensures Tracked(Step(handler, numNames, w, draw).names, Step(handler, numNames, w, draw).values)
  {
    var w' := Step(handler, numNames, w, draw);
    if IsSet(w.names, numNames, draw) {
      UpdateStaysTracked(w.names, w.values, w'.names, draw.name, HALF_MAX_VALUE);
    } else if draw.valid {
      MoveStep(handler, numNames, w, draw);
      UpdateStaysTracked(w.names, w.values, w'.names, draw.pick, w'.values[draw.pick]);
    }
  }

  ghost predicate IsRun(handler: Handler, numNames: nat, w: Replay, draws: seq<Draw>)
    decreases |draws|
  {
    draws == []
    || (CanStep(numNames, w, draws[0]) && IsRun(handler, numNames, Step(handler, numNames, w, draws[0]), draws[1..]))
  }

  function After(handler: Handler, numNames: nat, w: Replay, draws: seq<Draw>): Replay
    requires IsRun(handler, numNames, w, draws)
    decreases |draws|
  {
    if draws == [] then w else After(handler, numNames, Step(handler, numNames, w, draws[0]), draws[1..])
  }

  /** Every valid payload of the run is accepted. */
  ghost predicate AllAccepted(handler: Handler, numNames: nat, w: Replay, draws: seq<Draw>)
    requires IsRun(handler, numNames, w, draws)
    decreases |draws|
  {
    draws == []
    || ((draws[0].valid ==> Accepted(handler, numNames, w, draws[0]))
        && AllAccepted(handler, numNames, Step(handler, numNames, w, draws[0]), draws[1..]))
  }

  /** No set of the run names a name that has a value. */
  ghost predicate NeverRepeats(handler: Handler, numNames: nat, w: Replay, draws: seq<Draw>)
    requires IsRun(handler, numNames, w, draws)
    decreases |draws|
  {
    draws == []
    || (!Repeats(numNames, w, draws[0])
        && NeverRepeats(handler, numNames, Step(handler, numNames, w, draws[0]), draws[1..]))
  }

  lemma {:induction false} RunStaysTracked(handler: Handler, numNames: nat, w: Replay, draws: seq<Draw>)
    requires IsRun(handler, numNames, w, draws) && Tracked(w.names, w.values)
    requires handler.Overwriting? || NeverRepeats(handler, numNames, w, draws)
    ensures Tracked(After(handler, numNames, w, draws).names, After(handler, numNames, w, draws).values)
    decreases |draws|
  {
    if draws != [] {
      StepStaysTracked(handler, numNames, w, draws[0]);
      RunStaysTracked(handler, numNames, Step(handler, numNames, w, draws[0]), draws[1..]);
    }
  }

  lemma {:induction false} RunIsAccepted(handler: Handler, numNames: nat, w: Replay, draws: seq<Draw>)
    requires IsRun(handler, numNames, w, draws) && Tracked(w.names, w.values)
    ensures AllAccepted(handler, numNames, w, draws)
       <==> handler.Overwriting? || NeverRepeats(handler, numNames, w, draws)
    decreases |draws|
  {
    if draws != [] {
      StepIsAccepted(handler, numNames, w, draws[0]);
      if handler.Overwriting? || !Repeats(numNames, w, draws[0]) {
        StepStaysTracked(handler, numNames, w, draws[0]);
        RunIsAccepted(handler, numNames, Step(handler, numNames, w, draws[0]), draws[1..]);
      }
    }
  }

  /**
   * From nothing, the overwriting handler accepts every valid payload of every
   * run; the refusing one does so exactly in the runs that never set a known name.
   */
  lemma ReplayIsAcceptedExactly(handler: Handler, numNames: nat, draws: seq<Draw>)
    requires IsRun(handler, numNames, Empty, draws)
    ensures AllAccepted(handler, numNames, Empty, draws)
       <==> handler.Overwriting? || NeverRepeats(handler, numNames, Empty, draws)
  {
    RunIsAccepted(handler, numNames, Empty, draws);
  }

  /**
   * In those runs all values stay within 1,800,009 of the middle, so within 32
   * bits, and what the handler does with the next payload is known beforehand.
   */
  lemma ReplayStaysInRange(handler: Handler, numNames: nat, draws: seq<Draw>, next: Draw)
    requires IsRun(handler, numNames, Empty, draws)
    requires handler.Overwriting? || NeverRepeats(handler, numNames, Empty, draws)
    requires CanStep(numNames, After(handler, numNames, Empty, draws), next)
    ensures var w := After(handler, numNames, Empty, draws);
      && (forall n <- w.values :: 2_145_683_638 <= w.values[n] <= 2_149_283_656)
      && (Accepted(handler, numNames, w, next)
          <==> next.valid && !(handler.Refusing? && Repeats(numNames, w, next)))
  {
    RunStaysTracked(handler, numNames, Empty, draws);
    StepIsAccepted(handler, numNames, After(handler, numNames, Empty, draws), next);
  }

  // What a repeated name does to the refusing handler

  /** Two draws of one name: the second set is valid, and refused. */
  lemma RepeatedNameIsRefused(name: string, numNames: nat)
    requires |name| == MAX_NAME_LEN && numNames >= 2
    ensures var draw := Draw(true, name, name, true, 9);
      && IsRun(Refusing, numNames, Empty, [draw, draw])
      && !AllAccepted(Refusing, numNames, Empty, [draw, draw])
  {
    var draw := Draw(true, name, name, true, 9);
    var w := Step(Refusing, numNames, Empty, draw);
    assert |Empty.names| == 0;
    assert w == Replay(map[name := 0], map[name := HALF_MAX_VALUE]);
    assert |w.names| == 1;
    assert [draw, draw][1..] == [draw] && [draw][1..] == [];
  }

  /** One name in use, always drawn again and always raised by nine. */
  function Same(name: string, n: nat): seq<Draw> {
    seq(n, _ => Draw(true, name, name, true, 9))
  }

  /** The state after so many raises since the first set, with the name still in use. */
  function Drifted(name: string, raises: nat): Replay {
    Replay(map[name := raises % (INCS_AND_DECS_PER_SET + 1)], map[name := HALF_MAX_VALUE + 9 * raises])
  }

  ghost predicate Reaches(name: string, n: nat, w: Replay) {
    && IsRun(Refusing, 1, Empty, Same(name, n))
    && After(Refusing, 1, Empty, Same(name, n)) == w
  }

  lemma {:induction false} RunOn(w: Replay, draws: seq<Draw>, draw: Draw)
    requires IsRun(Refusing, 1, w, draws) && CanStep(1, After(Refusing, 1, w, draws), draw)
    ensures IsRun(Refusing, 1, w, draws + [draw])
    ensures After(Refusing, 1, w, draws + [draw]) == Step(Refusing, 1, After(Refusing, 1, w, draws), draw)
    decreases |draws|
  {
    if draws == [] {
      assert draws + [draw] == [draw] && [draw][1..] == [];
    } else {
      assert (draws + [draw])[1..] == draws[1..] + [draw];
      RunOn(Step(Refusing, 1, w, draws[0]), draws[1..], draw);
    }
  }

  lemma ReachesNext(name: string, n: nat, w: Replay)
    requires Reaches(name, n, w) && CanStep(1, w, Draw(true, name, name, true, 9))
    ensures Reaches(name, n + 1, Step(Refusing, 1, w, Draw(true, name, name, true, 9)))
  {
    RunOn(Empty, Same(name, n), Draw(true, name, name, true, 9));
    assert Same(name, n + 1) == Same(name, n) + [Draw(true, name, name, true, 9)];
  }

  lemma SetsFirst(name: string)
    requires |name| == MAX_NAME_LEN
    ensures Reaches(name, 1, Drifted(name, 0))
  {
    assert |Empty.names| == 0;
    assert Same(name, 0) == [];
    assert Reaches(name, 0, Empty);
    ReachesNext(name, 0, Empty);
  }

  /** A raise of the only name in use: the value follows, and the count ends at its limit. */
  lemma RaiseOnce(name: string, count: nat, value: nat)
    requires |name| == MAX_NAME_LEN && value + 9 <= MAX_VALUE
    ensures var w, draw := Replay(map[name := count], map[name := value]), Draw(true, name, name, true, 9);
      && CanStep(1, w, draw)
      && Step(Refusing, 1, w, draw).names == (if count < INCS_AND_DECS_PER_SET then map[name := count + 1] else map[])
      && Step(Refusing, 1, w, draw).values == map[name := value + 9]
  {
    var names: map<string, nat> := map[name := count];
    assert |names| == 1 && names - {name} == map[];
  }

  lemma CountOn(raises: nat)
    ensures var n := INCS_AND_DECS_PER_SET + 1;
      (raises + 1) % n == if raises % n == INCS_AND_DECS_PER_SET then 0 else raises % n + 1
  {
  }

  lemma RaiseStep(name: string, raises: nat)
    requires |name| == MAX_NAME_LEN && HALF_MAX_VALUE + 9 * (raises + 1) <= MAX_VALUE
    ensures var w, draw := Drifted(name, raises), Draw(true, name, name, true, 9);
      var last := raises % (INCS_AND_DECS_PER_SET + 1) == INCS_AND_DECS_PER_SET;
      && CanStep(1, w, draw)
      && Step(Refusing, 1, w, draw)
         == if last then Replay(map[], Drifted(name, raises + 1).values) else Drifted(name, raises + 1)
  {
    RaiseOnce(name, raises % (INCS_AND_DECS_PER_SET + 1), HALF_MAX_VALUE + 9 * raises);
    CountOn(raises);
  }

  lemma RefusedStep(name: string, raises: nat)
    requires |name| == MAX_NAME_LEN && raises % (INCS_AND_DECS_PER_SET + 1) == 0
    ensures var w, draw := Replay(map[], Drifted(name, raises).values), Draw(true, name, name, true, 9);
      CanStep(1, w, draw) && Repeats(1, w, draw) && Step(Refusing, 1, w, draw) == Drifted(name, raises)
  {
    var names: map<string, nat> := map[];
    assert |names| == 0;
  }

  /** A raise within the count, or the last one followed by the refused set. */
  lemma Raises(name: string, n: nat, raises: nat)
    requires |name| == MAX_NAME_LEN && HALF_MAX_VALUE + 9 * (raises + 1) <= MAX_VALUE
    requires Reaches(name, n, Drifted(name, raises))
    ensures Reaches(name, n + 1, Drifted(name, raises + 1)) || Reaches(name, n + 2, Drifted(name, raises + 1))
  {
    RaiseStep(name, raises);
    ReachesNext(name, n, Drifted(name, raises));
    if raises % (INCS_AND_DECS_PER_SET + 1) == INCS_AND_DECS_PER_SET {
      RefusedStep(name, raises + 1);
      ReachesNext(name, n + 1, Replay(map[], Drifted(name, raises + 1).values));
    }
  }

  /**
   * After a refused set the count starts again but the value does not: however
   * far from the middle within 32 bits, some run raises the value that far.
   */
  lemma {:induction false} RefusedSetsDrift(name: string, raises: nat)
    requires |name| == MAX_NAME_LEN && HALF_MAX_VALUE + 9 * raises <= MAX_VALUE
    ensures exists n :: Reaches(name, n, Drifted(name, raises))
    decreases raises
  {
    if raises == 0 {
      SetsFirst(name);
    } else {
      RefusedSetsDrift(name, raises - 1);
      var n :| Reaches(name, n, Drifted(name, raises - 1));
      Raises(name, n, raises - 1);
    }
  }

  /** So the range of `ReplayStaysInRange` is left, and in the end a valid raise is refused too. */
  lemma DriftIsRefused(name: string)
    requires |name| == MAX_NAME_LEN
    ensures exists n :: Reaches(name, n, Drifted(name, 200_002))
    ensures exists n :: Reaches(name, n, Drifted(name, 238_609_294))
    ensures Drifted(name, 200_002).values[name] > 2_149_283_656
    ensures var w, draw := Drifted(name, 238_609_294), Draw(true, name, name, true, 9);
      CanStep(1, w, draw) && !IsSet(w.names, 1, draw) && !Accepted(Refusing, 1, w, draw)
  {
    RefusedSetsDrift(name, 200_002);
    RefusedSetsDrift(name, 238_609_294);
    assert |Drifted(name, 238_609_294).names| == 1;
  }
}
