/** Board layouts: drawing, appending, saving and loading, and random generation. */
module BoardLayouts {
  import opened Options
  import opened Battleship

  /** The array shows the grid, with dashes elsewhere. */
  ghost predicate Shows(board: array2<char>, size: nat, grid: Grid)
    reads board
  {
    && board.Length0 == size && board.Length1 == size
    && (forall c <- grid :: grid[c] != '-')
    && forall r, c :: 0 <= r < size && 0 <= c < size ==> board[r, c] == if (r, c) in grid then grid[(r, c)] else '-'
  }

  method DrawShip(board: array2<char>, size: nat, p: ShipPosition, ghost grid: Grid) returns (error: Option<BoardError>)
    requires Shows(board, size, grid)
    modifies board
    ensures match DrawFrom(size, grid, p, 0)
      case Ok(grid') => error == None && Shows(board, size, grid')
      case Err(e) => error == Some(e)
  {
    ghost var drawn := grid;
    for i := 0 to |p.text|
      invariant Shows(board, size, drawn) && DrawFrom(size, drawn, p, i) == DrawFrom(size, grid, p, 0)
    {
      if !OnBoard(size, p, i) {
        return Some(OutOfRange);
      }
      var (row, col) := CellAt(size, p, i);
      if board[row, col] != '-' {
        return Some(if Lettered(p) then Occupied else OutOfRange);
      }
      board[row, col] := p.text[i];
      drawn := Mark(drawn, (row, col), p.text[i]);
    }
    return None;
  }

  function Texts(ships: seq<ShipPosition>): (texts: seq<string>)
    ensures |texts| == |ships| && forall i :: 0 <= i < |ships| ==> texts[i] == ships[i].text
  {
    seq(|ships|, i requires 0 <= i < |ships| => ships[i].text)
  }

  lemma TextsAppend(ships: seq<ShipPosition>, p: ShipPosition)
    ensures Texts(ships + [p]) == Texts(ships) + [p.text]
  {
  }

  /** One random draw: an orientation and two numbers to reduce to their ranges. */
  datatype Draw = Draw(orientation: Orientation, row: nat, column: nat)

  /** A drawn number brought into a range. */
  function Reduced(n: nat, bound: nat): (r: nat)
    requires 0 < bound
    ensures r < bound && (n < bound ==> r == n)
  {
    if n < bound then n else Reduced(n - bound, bound)
  }

  predicate HasPlaces(size: nat, ship: string) {
    0 < size && |ship| <= size
  }

  /** The place drawn for a ship that is not too long for the board. */
  function PlaceOf(size: nat, ship: string, draw: Draw): (p: ShipPosition)
    requires HasPlaces(size, ship)
    ensures p.text == ship && p.orientation == draw.orientation && LiesOnBoard(size, p)
    ensures 0 <= p.column <= size && (ship != "" ==> p.column < size)
  {
    match draw.orientation
    case Horizontal =>
      ShipPosition(ship, Reduced(draw.row, size), Reduced(draw.column, size - |ship| + 1), Horizontal)
    case Vertical =>
      ShipPosition(ship, Reduced(draw.row, size - |ship| + 1), Reduced(draw.column, size), Vertical)
  }

  datatype GenerateError = OutOfDraws | EmptyRange | ReportFailed

  /** How one draw for a ship ends. */
  function Tried(size: nat, ships: seq<ShipPosition>, ship: string, draw: Draw): Outcome<bool, GenerateError> {
    if !HasPlaces(size, ship) then Err(EmptyRange)
    else
      match Appended(size, ships, PlaceOf(size, ship, draw)).1
      case Ok(_) => Ok(true)
      case Err(Occupied) => Ok(false)
      case Err(OutOfRange) => Err(ReportFailed)
  }

  /** How the draws for one ship end: it has its place, the layout is given up, or an exception. */
  datatype Placing =
    | PlacedAs(ships: seq<ShipPosition>, rest: seq<Draw>)
    | GivenUp(rest: seq<Draw>)
    | Failed(error: GenerateError)

  /** Draws places for one ship, some attempts having failed, until one is free or there were too many. */
  function PlaceFrom(size: nat, ships: seq<ShipPosition>, ship: string, attempts: nat, maxAttempts: nat,
                     draws: seq<Draw>): (r: Placing)
    ensures r.PlacedAs? || r.GivenUp? ==> |r.rest| < |draws|
    decreases |draws|
  {
    if draws == [] then Failed(OutOfDraws)
    else
      match Tried(size, ships, ship, draws[0])
      case Err(e) => Failed(e)
      case Ok(true) => PlacedAs(ships + [PlaceOf(size, ship, draws[0])], draws[1..])
      case Ok(false) =>
        if attempts + 1 > maxAttempts then GivenUp(draws[1..])
        else PlaceFrom(size, ships, ship, attempts + 1, maxAttempts, draws[1..])
  }

  /** Places the remaining ships, starting over with all of them whenever a layout is given up. */
  function GenerateFrom(size: nat, all: seq<string>, remaining: seq<string>, ships: seq<ShipPosition>,
                        maxAttempts: nat, draws: seq<Draw>): Outcome<seq<ShipPosition>, GenerateError>
    decreases |draws|
  {
    if remaining == [] then Ok(ships)
    else
      match PlaceFrom(size, ships, remaining[0], 0, maxAttempts, draws)
      case PlacedAs(ships', rest) => GenerateFrom(size, all, remaining[1..], ships', maxAttempts, rest)
      case GivenUp(rest) => GenerateFrom(size, all, all, [], maxAttempts, rest)
      case Failed(e) => Err(e)
  }

  // Which of the draws a ship is placed by

  /** The first n draws name places that are taken. */
  ghost predicate AllTaken(size: nat, ships: seq<ShipPosition>, ship: string, draws: seq<Draw>, n: nat)
    requires HasPlaces(size, ship) && n <= |draws|
  {
    forall i :: 0 <= i < n ==>
      var p := PlaceOf(size, ship, draws[i]);
      Lettered(p) && Blocked(size, ships, p)
  }

  /** What a draw is worth to a layout that draws. */
  lemma TriedExactly(size: nat, ships: seq<ShipPosition>, ship: string, draw: Draw)
    requires DrawAll(size, ships).Ok? && HasPlaces(size, ship)
    ensures var r, p := Tried(size, ships, ship, draw), PlaceOf(size, ship, draw);
      && (r == Ok(true) <==> Free(size, ships, p))
      && (r == Ok(false) <==> Lettered(p) && Blocked(size, ships, p))
      && (r.Err? ==> r == Err(ReportFailed) && !Lettered(p) && size > 10)
  {
    AppendExactly(size, ships, PlaceOf(size, ship, draw));
  }

  /**
   * A ship is placed by the first of its draws whose place is free, among as many as
   * the attempts allow. The layout is given up if all of these places are taken, and
   * the draws run out if all of fewer are. A taken place in a column without a
   * letter ends it, on boards wider than ten.
   */
  ghost predicate TakesFirstFree(size: nat, ships: seq<ShipPosition>, ship: string, attempts: nat, maxAttempts: nat,
                                 draws: seq<Draw>, r: Placing)
    requires HasPlaces(size, ship)
  {
    match r
    case PlacedAs(ships', rest) =>
      && |rest| < |draws| && attempts + |draws| - |rest| <= maxAttempts + 1
      && var n := |draws| - |rest| - 1;
         var p := PlaceOf(size, ship, draws[n]);
         && rest == draws[n + 1..] && AllTaken(size, ships, ship, draws, n)
         && Free(size, ships, p) && ships' == ships + [p]
    case GivenUp(rest) =>
      && |rest| < |draws| && attempts + |draws| - |rest| == maxAttempts + 1
      && rest == draws[|draws| - |rest|..] && AllTaken(size, ships, ship, draws, |draws| - |rest|)
    case Failed(OutOfDraws) => attempts + |draws| <= maxAttempts && AllTaken(size, ships, ship, draws, |draws|)
    case Failed(ReportFailed) =>
      size > 10 && exists n: nat ::
        && n < |draws| && attempts + n <= maxAttempts && AllTaken(size, ships, ship, draws, n)
        && !Lettered(PlaceOf(size, ship, draws[n])) && !Free(size, ships, PlaceOf(size, ship, draws[n]))
    case Failed(EmptyRange) => false
  }

  lemma TakenOneMore(size: nat, ships: seq<ShipPosition>, ship: string, draws: seq<Draw>, n: nat)
    requires HasPlaces(size, ship) && n < |draws| && AllTaken(size, ships, ship, draws[1..], n)
    requires var p := PlaceOf(size, ship, draws[0]); Lettered(p) && Blocked(size, ships, p)
    ensures AllTaken(size, ships, ship, draws, n + 1)
  {
    assert forall i :: 0 < i < |draws| ==> draws[i] == draws[1..][i - 1];
  }

  lemma FirstFreeLater(size: nat, ships: seq<ShipPosition>, ship: string, attempts: nat, maxAttempts: nat,
                       draws: seq<Draw>, r: Placing)
    requires HasPlaces(size, ship) && draws != []
    requires TakesFirstFree(size, ships, ship, attempts + 1, maxAttempts, draws[1..], r)
    requires var p := PlaceOf(size, ship, draws[0]); Lettered(p) && Blocked(size, ships, p)
    ensures TakesFirstFree(size, ships, ship, attempts, maxAttempts, draws, r)
  {
    match r
    case PlacedAs(_, rest) => TakenOneMore(size, ships, ship, draws, |draws| - |rest| - 2);
    case GivenUp(rest) => TakenOneMore(size, ships, ship, draws, |draws| - |rest| - 1);
    case Failed(OutOfDraws) => TakenOneMore(size, ships, ship, draws, |draws| - 1);
    case Failed(ReportFailed) =>
      var n: nat :| n < |draws| - 1 && attempts + 1 + n <= maxAttempts && AllTaken(size, ships, ship, draws[1..], n)
        && !Lettered(PlaceOf(size, ship, draws[1..][n])) && !Free(size, ships, PlaceOf(size, ship, draws[1..][n]));
      TakenOneMore(size, ships, ship, draws, n);
      assert draws[n + 1] == draws[1..][n];
  }

  /** The end of the search where the first draw decides it. */
  lemma FirstDrawDecides(size: nat, ships: seq<ShipPosition>, ship: string, attempts: nat, maxAttempts: nat,
                         draws: seq<Draw>, r: Placing)
    requires DrawAll(size, ships).Ok? && HasPlaces(size, ship) && attempts <= maxAttempts && draws != []
    requires match Tried(size, ships, ship, draws[0])
      case Err(e) => r == Failed(e)
      case Ok(true) => r == PlacedAs(ships + [PlaceOf(size, ship, draws[0])], draws[1..])
      case Ok(false) => attempts == maxAttempts && r == GivenUp(draws[1..])
    ensures TakesFirstFree(size, ships, ship, attempts, maxAttempts, draws, r)
  {
    TriedExactly(size, ships, ship, draws[0]);
    assert AllTaken(size, ships, ship, draws, 0);
  }

  lemma {:induction false} PlacesFirstFree(size: nat, ships: seq<ShipPosition>, ship: string, attempts: nat,
                                           maxAttempts: nat, draws: seq<Draw>)
    requires DrawAll(size, ships).Ok? && HasPlaces(size, ship) && attempts <= maxAttempts
    ensures TakesFirstFree(size, ships, ship, attempts, maxAttempts, draws,
                           PlaceFrom(size, ships, ship, attempts, maxAttempts, draws))
    decreases |draws|
  {
    if draws != [] {
      var r := PlaceFrom(size, ships, ship, attempts, maxAttempts, draws);
      if Tried(size, ships, ship, draws[0]) == Ok(false) && attempts < maxAttempts {
        TriedExactly(size, ships, ship, draws[0]);
        PlacesFirstFree(size, ships, ship, attempts + 1, maxAttempts, draws[1..]);
        FirstFreeLater(size, ships, ship, attempts, maxAttempts, draws, r);
      } else {
        FirstDrawDecides(size, ships, ship, attempts, maxAttempts, draws, r);
      }
    }
  }

  /** Placing a ship adds it to the layout, which still draws. */
  lemma {:induction false} PlaceFromKeeps(size: nat, ships: seq<ShipPosition>, ship: string, attempts: nat,
                                          maxAttempts: nat, draws: seq<Draw>)
    requires DrawAll(size, ships).Ok?
    ensures match PlaceFrom(size, ships, ship, attempts, maxAttempts, draws)
      case PlacedAs(ships', _) => DrawAll(size, ships').Ok? && Texts(ships') == Texts(ships) + [ship]
      case GivenUp(_) => true
      case Failed(e) => (e == EmptyRange ==> !HasPlaces(size, ship)) && (e == ReportFailed ==> size > 10)
    decreases |draws|
  {
    if draws != [] && HasPlaces(size, ship) {
      var p := PlaceOf(size, ship, draws[0]);
      TriedExactly(size, ships, ship, draws[0]);
      TextsAppend(ships, p);
      AppendExactly(size, ships, p);
      if Tried(size, ships, ship, draws[0]) == Ok(false) && attempts + 1 <= maxAttempts {
        PlaceFromKeeps(size, ships, ship, attempts + 1, maxAttempts, draws[1..]);
      }
    }
  }

  /** What is promised of the layout, however generation ends. */
  ghost predicate IsGenerated(size: nat, all: seq<string>, r: Outcome<seq<ShipPosition>, GenerateError>) {
    match r
    case Ok(ships) => Texts(ships) == all && DrawAll(size, ships).Ok?
    case Err(EmptyRange) => size == 0 || exists ship <- all :: |ship| > size
    case Err(ReportFailed) => size > 10
    case Err(OutOfDraws) => true
  }

  lemma NextShip(texts: seq<string>, remaining: seq<string>, all: seq<string>)
    requires remaining != [] && texts + remaining == all
    ensures remaining[0] in all && (texts + [remaining[0]]) + remaining[1..] == all
  {
    assert remaining[0] in remaining;
  }

  lemma NoTexts(ships: seq<ShipPosition>, all: seq<string>)
    requires ships == []
    ensures Texts(ships) + all == all
  {
  }

  lemma FailureIsGenerated(size: nat, all: seq<string>, ship: string, e: GenerateError)
    requires ship in all
    requires (e == EmptyRange ==> !HasPlaces(size, ship)) && (e == ReportFailed ==> size > 10)
    ensures IsGenerated(size, all, Err(e))
  {
  }

  /** A generated layout draws and holds exactly the given ships in order, however often it started over. */
  lemma {:induction false} GeneratesAll(size: nat, all: seq<string>, remaining: seq<string>, ships: seq<ShipPosition>,
                                        maxAttempts: nat, draws: seq<Draw>, none: seq<ShipPosition>)
    requires DrawAll(size, ships).Ok? && Texts(ships) + remaining == all && none == []
    ensures IsGenerated(size, all, GenerateFrom(size, all, remaining, ships, maxAttempts, draws))
    decreases |draws|
  {
    if remaining == [] {
      assert Texts(ships) + remaining == Texts(ships);
    } else {
      NextShip(Texts(ships), remaining, all);
      PlaceFromKeeps(size, ships, remaining[0], 0, maxAttempts, draws);
      match PlaceFrom(size, ships, remaining[0], 0, maxAttempts, draws)
      case PlacedAs(ships', rest) => GeneratesAll(size, all, remaining[1..], ships', maxAttempts, rest, none);
      case GivenUp(rest) =>
        NoTexts(none, all);
        GeneratesAll(size, all, all, none, maxAttempts, rest, none);
      case Failed(e) => FailureIsGenerated(size, all, remaining[0], e);
    }
  }

  class BoardLayout {
    var shipPositions: seq<ShipPosition>
    const size: nat

    constructor (size: nat)
      ensures this.size == size && shipPositions == []
    {
      shipPositions := [];
      this.size := size;
    }

    /** Draws the board, or says what is wrong with the layout. */
    method Render() returns (r: Outcome<array2<char>, BoardError>)
      ensures match DrawAll(size, shipPositions)
        case Ok(grid) => r.Ok? && fresh(r.value) && Shows(r.value, size, grid)
        case Err(e) => r == Err(e)
    {
      var board := new char[size, size]((_, _) => '-');
      ghost var grid: Grid := map[];
      for i := 0 to |shipPositions|
        invariant DrawAll(size, shipPositions[..i]) == Ok(grid) && Shows(board, size, grid)
      {
        assert shipPositions[..i + 1][..i] == shipPositions[..i];
        var error := DrawShip(board, size, shipPositions[i], grid);
        if error.Some? {
          DrawFails(size, shipPositions, i + 1);
          return Err(error.value);
        }
        grid := DrawFrom(size, grid, shipPositions[i], 0).value;
      }
      assert shipPositions[..|shipPositions|] == shipPositions;
      return Ok(board);
    }

    method Append(p: ShipPosition) returns (r: Outcome<(), BoardError>)
      modifies this
      ensures (shipPositions, r) == Appended(size, old(shipPositions), p)
    {
      shipPositions := shipPositions + [p];
      var board := Render();
      if board.Ok? {
        return Ok(());
      }
      if board.error == Occupied {
        shipPositions := shipPositions[..|shipPositions| - 1];
      }
      return Err(board.error);
    }

    method Save() returns (data: LayoutData)
      ensures data == LayoutData(size, shipPositions)
    {
      var positions := [];
      for i := 0 to |shipPositions|
        invariant positions == shipPositions[..i]
      {
        positions := positions + [shipPositions[i]];
      }
      data := LayoutData(size, positions);
    }

    static method Load(data: LayoutData) returns (r: Outcome<BoardLayout, BoardError>)
      ensures match Loaded(data.size, [], data.positions)
        case Ok(ships) => r.Ok? && fresh(r.value) && r.value.size == data.size && r.value.shipPositions == ships
        case Err(e) => r == Err(e)
    {
      var layout := new BoardLayout(data.size);
      for i := 0 to |data.positions|
        invariant Loaded(data.size, layout.shipPositions, data.positions[i..]) == Loaded(data.size, [], data.positions)
      {
        assert data.positions[i..][1..] == data.positions[i + 1..];
        var appended := layout.Append(data.positions[i]);
        if appended.Err? {
          return Err(appended.error);
        }
      }
      return Ok(layout);
    }

    /** Tries one random place; a ship too long for the board leaves no place to draw from. */
    method TryPlace(ship: string, draw: Draw) returns (r: Outcome<bool, GenerateError>)
      requires DrawAll(size, shipPositions).Ok?
      modifies this
      ensures r == Tried(size, old(shipPositions), ship, draw)
      ensures r == Err(EmptyRange) ==> size == 0 || |ship| > size
      ensures r == Err(ReportFailed) ==> size > 10
      ensures r != Err(OutOfDraws)
      ensures r.Ok? ==> DrawAll(size, shipPositions).Ok?
      ensures r == Ok(false) ==> shipPositions == old(shipPositions)
      ensures r == Ok(true) ==> shipPositions == old(shipPositions) + [PlaceOf(size, ship, draw)]
      ensures r == Ok(true) ==> Texts(shipPositions) == Texts(old(shipPositions)) + [ship]
    {
      if size == 0 || |ship| > size {
        return Err(EmptyRange);
      }
      var p := PlaceOf(size, ship, draw);
      AppendExactly(size, shipPositions, p);
      TextsAppend(shipPositions, p);
      var appended := Append(p);
      match appended
      case Ok(_) => return Ok(true);
      case Err(Occupied) => return Ok(false);
      case Err(OutOfRange) => return Err(ReportFailed);
    }
  }

  /** Tries random places for one ship; Ok(false) means too many attempts failed. */
  method PlaceShip(layout: BoardLayout, ship: string, maxAttempts: nat, draws: seq<Draw>, start: nat)
    returns (r: Outcome<bool, GenerateError>, used: nat)
    requires DrawAll(layout.size, layout.shipPositions).Ok? && start <= |draws|
    modifies layout
    ensures r.Ok? ==> start < used <= |draws| && DrawAll(layout.size, layout.shipPositions).Ok?
    ensures r == Ok(true) ==> Texts(layout.shipPositions) == Texts(old(layout.shipPositions)) + [ship]
    ensures r == Err(EmptyRange) ==> layout.size == 0 || |ship| > layout.size
    ensures r == Err(ReportFailed) ==> layout.size > 10
    ensures match PlaceFrom(layout.size, old(layout.shipPositions), ship, 0, maxAttempts, draws[start..])
      case PlacedAs(ships, rest) => r == Ok(true) && layout.shipPositions == ships && rest == draws[used..]
      case GivenUp(rest) => r == Ok(false) && layout.shipPositions == old(layout.shipPositions) && rest == draws[used..]
      case Failed(e) => r == Err(e)
  {
    var attempts := 0;
    used := start;
    ghost var ships, size := layout.shipPositions, layout.size;
    while used < |draws|
      invariant start <= used <= |draws| && DrawAll(size, layout.shipPositions).Ok?
      invariant layout.shipPositions == ships
      invariant PlaceFrom(size, ships, ship, attempts, maxAttempts, draws[used..])
             == PlaceFrom(size, ships, ship, 0, maxAttempts, draws[start..])
    {
      assert draws[used..][0] == draws[used] && draws[used..][1..] == draws[used + 1..];
      attempts, used := attempts + 1, used + 1;
      var tried := layout.TryPlace(ship, draws[used - 1]);
      if tried.Err? {
        return Err(tried.error), used;
      }
      if tried.value || attempts > maxAttempts {
        return tried, used;
      }
    }
    return Err(OutOfDraws), used;
  }

  /**
   * Places the ships in order at random places, starting over after too many
   * failed attempts. A layout that is returned draws and holds exactly the given
   * ships in the given order, however often it started over. The other ends are
   * a ship too long for the board, a board too wide to report on, or no end yet.
   */
  method Generate(ships: seq<string>, size: nat, maxAttempts: nat, draws: seq<Draw>)
    returns (r: Outcome<BoardLayout, GenerateError>)
    ensures r.Ok? ==> fresh(r.value) && r.value.size == size
    ensures r.Ok? ==> Texts(r.value.shipPositions) == ships && DrawAll(size, r.value.shipPositions).Ok?
    ensures r == Err(EmptyRange) ==> size == 0 || exists ship <- ships :: |ship| > size
    ensures r == Err(ReportFailed) ==> size > 10
    ensures match GenerateFrom(size, ships, ships, [], maxAttempts, draws)
      case Ok(placed) => r.Ok? && r.value.shipPositions == placed
      case Err(e) => r == Err(e)
  {
    var remaining := ships;
    var layout := new BoardLayout(size);
    var used := 0;
    assert draws[0..] == draws;
    NoTexts([], ships);
    GeneratesAll(size, ships, ships, [], maxAttempts, draws, []);
    while remaining != []
      invariant fresh(layout) && layout.size == size && DrawAll(size, layout.shipPositions).Ok? && used <= |draws|
      invariant GenerateFrom(size, ships, remaining, layout.shipPositions, maxAttempts, draws[used..])
             == GenerateFrom(size, ships, ships, [], maxAttempts, draws)
      decreases |draws| - used
    {
      var ship := remaining[0];
      remaining := remaining[1..];
      var placed;
      placed, used := PlaceShip(layout, ship, maxAttempts, draws, used);
      if placed.Err? {
        return Err(placed.error);
      }
      if !placed.value {
        layout := new BoardLayout(size);
        remaining := ships;
      }
    }
    return Ok(layout);
  }

  lemma {:induction false} DrawFails(size: nat, ships: seq<ShipPosition>, n: nat)
    requires n <= |ships| && DrawAll(size, ships[..n]).Err?
    ensures DrawAll(size, ships) == DrawAll(size, ships[..n])
    decreases |ships| - n
  {
    if n == |ships| {
      assert ships[..n] == ships;
    } else {
      assert ships[..n + 1][..n] == ships[..n];
      DrawFails(size, ships, n + 1);
    }
  }
}
