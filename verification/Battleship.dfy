/** Game boards: ships placed on a square, checked by drawing them. */
module Battleship {
  import opened Options

  datatype Orientation = Horizontal | Vertical

  datatype ShipPosition = ShipPosition(text: string, row: int, column: int, orientation: Orientation)

  /** An occupied cell is reported; an index out of range, on the board or in the ten letters, is not caught. */
  datatype BoardError = Occupied | OutOfRange

  type Cell = (int, int)

  /** The cells that do not show a dash. */
  type Grid = map<Cell, char>

  /** List indexes count from the end when they are negative. */
  predicate InRange(size: nat, i: int) {
    0 <= i + size && i < size
  }

  function Wrapped(size: nat, i: int): int {
    if i < 0 then i + size else i
  }

  /** The report names the column by one of ten letters. */
  predicate Lettered(p: ShipPosition) {
    InRange(10, p.column)
  }

  function RowAt(p: ShipPosition, k: nat): int {
    if p.orientation == Horizontal then p.row else p.row + k
  }

  function ColumnAt(p: ShipPosition, k: nat): int {
    if p.orientation == Horizontal then p.column + k else p.column
  }

  /** The ship's k-th cell exists. */
  predicate OnBoard(size: nat, p: ShipPosition, k: nat) {
    InRange(size, RowAt(p, k)) && InRange(size, ColumnAt(p, k))
  }

  function CellAt(size: nat, p: ShipPosition, k: nat): Cell {
    (Wrapped(size, RowAt(p, k)), Wrapped(size, ColumnAt(p, k)))
  }

  function Mark(grid: Grid, c: Cell, ch: char): Grid {
    if ch == '-' then grid else grid[c := ch]
  }

  /** Draws the rest of a ship from its i-th cell on. */
  function DrawFrom(size: nat, grid: Grid, p: ShipPosition, i: nat): Outcome<Grid, BoardError>
    requires i <= |p.text|
    decreases |p.text| - i
  {
    if i == |p.text| then Ok(grid)
    else
      var c := CellAt(size, p, i);
      if !OnBoard(size, p, i) then Err(OutOfRange)
      else if c in grid then Err(if Lettered(p) then Occupied else OutOfRange)
      else DrawFrom(size, Mark(grid, c, p.text[i]), p, i + 1)
  }

  function DrawAll(size: nat, ships: seq<ShipPosition>): Outcome<Grid, BoardError> {
    if ships == [] then Ok(map[])
    else
      var before := DrawAll(size, ships[..|ships| - 1]);
      if before.Err? then before else DrawFrom(size, before.value, ships[|ships| - 1], 0)
  }

  // What drawing checks

  /** A cell of the ship from the i-th on is one that an earlier of them marks, around the edge of the board. */
  ghost predicate MeetsItself(size: nat, p: ShipPosition, i: nat) {
    exists k, l :: i <= k < l < |p.text| && p.text[k] != '-' && CellAt(size, p, k) == CellAt(size, p, l)
  }

  /** Every cell of the ship from the i-th on is on the board and shows a dash when it comes to it. */
  ghost predicate HasRoom(size: nat, grid: Grid, p: ShipPosition, i: nat) {
    && (forall k :: i <= k < |p.text| ==> OnBoard(size, p, k) && CellAt(size, p, k) !in grid)
    && !MeetsItself(size, p, i)
  }

  /** A ship on the board meets itself only if it is longer than the board is wide. */
  lemma ShortShipsAreApart(size: nat, p: ShipPosition)
    requires |p.text| <= size && forall k :: 0 <= k < |p.text| ==> OnBoard(size, p, k)
    ensures !MeetsItself(size, p, 0)
  {
  }

  /** The number of characters from the i-th on that mark a cell. */
  function Marks(text: string, i: nat): nat
    requires i <= |text|
    decreases |text| - i
  {
    if i == |text| then 0 else (if text[i] == '-' then 0 else 1) + Marks(text, i + 1)
  }

  /** The grid with all marks of the ship from the i-th cell on. */
  ghost predicate AddsShip(size: nat, grid: Grid, grid': Grid, p: ShipPosition, i: nat) {
    && (forall c <- grid :: c in grid' && grid'[c] == grid[c])
    && (forall k :: i <= k < |p.text| && p.text[k] != '-' ==>
          CellAt(size, p, k) in grid' && grid'[CellAt(size, p, k)] == p.text[k])
    && (forall c <- grid' :: c in grid || MarkedFrom(size, p, i, c))
  }

  /** One of the ship's characters from the i-th on marks the cell. */
  ghost predicate MarkedFrom(size: nat, p: ShipPosition, i: nat, c: Cell) {
    exists k :: i <= k < |p.text| && c == CellAt(size, p, k) && p.text[k] != '-'
  }

  lemma RoomAfterMark(size: nat, grid: Grid, p: ShipPosition, i: nat)
    requires i < |p.text|
    ensures HasRoom(size, grid, p, i)
       <==> && OnBoard(size, p, i) && CellAt(size, p, i) !in grid
            && HasRoom(size, Mark(grid, CellAt(size, p, i), p.text[i]), p, i + 1)
  {
    assert MeetsItself(size, p, i)
      <==> (MeetsItself(size, p, i + 1)
            || exists l :: i < l < |p.text| && p.text[i] != '-' && CellAt(size, p, i) == CellAt(size, p, l));
  }

  /** Drawing succeeds if and only if the ship has room. */
  lemma {:induction false} DrawsIfRoom(size: nat, grid: Grid, p: ShipPosition, i: nat)
    requires i <= |p.text|
    ensures DrawFrom(size, grid, p, i).Ok? <==> HasRoom(size, grid, p, i)
    decreases |p.text| - i
  {
    if i < |p.text| {
      RoomAfterMark(size, grid, p, i);
      DrawsIfRoom(size, Mark(grid, CellAt(size, p, i), p.text[i]), p, i + 1);
    }
  }

  lemma {:induction false} DrawAddsShip(size: nat, grid: Grid, p: ShipPosition, i: nat)
    requires i <= |p.text| && DrawFrom(size, grid, p, i).Ok?
    ensures AddsShip(size, grid, DrawFrom(size, grid, p, i).value, p, i)
    decreases |p.text| - i
  {
    if i < |p.text| {
      var c := CellAt(size, p, i);
      DrawAddsShip(size, Mark(grid, c, p.text[i]), p, i + 1);
      assert forall d :: MarkedFrom(size, p, i, d) <==> MarkedFrom(size, p, i + 1, d) || (d == c && p.text[i] != '-');
    }
  }

  lemma {:induction false} DrawAddsMarks(size: nat, grid: Grid, p: ShipPosition, i: nat)
    requires i <= |p.text| && DrawFrom(size, grid, p, i).Ok?
    ensures |DrawFrom(size, grid, p, i).value| == |grid| + Marks(p.text, i)
    decreases |p.text| - i
  {
    if i < |p.text| {
      PutGrows(grid, CellAt(size, p, i), p.text[i]);
      DrawAddsMarks(size, Mark(grid, CellAt(size, p, i), p.text[i]), p, i + 1);
    }
  }

  /** The cell shows a character of one of the ships. */
  ghost predicate Marked(size: nat, ships: seq<ShipPosition>, c: Cell) {
    exists p <- ships :: MarkedFrom(size, p, 0, c)
  }

  function TotalMarks(ships: seq<ShipPosition>): nat {
    if ships == [] then 0 else TotalMarks(ships[..|ships| - 1]) + Marks(ships[|ships| - 1].text, 0)
  }

  /** A drawn board shows exactly the ships' marks; they are as many as the ships have together. */
  lemma {:induction false} BoardShowsShips(size: nat, ships: seq<ShipPosition>)
    requires DrawAll(size, ships).Ok?
    ensures forall c :: c in DrawAll(size, ships).value <==> Marked(size, ships, c)
    ensures |DrawAll(size, ships).value| == TotalMarks(ships)
  {
    if ships != [] {
      var rest, p := ships[..|ships| - 1], ships[|ships| - 1];
      var grid, grid' := DrawAll(size, rest).value, DrawAll(size, ships).value;
      BoardShowsShips(size, rest);
      DrawAddsShip(size, grid, p, 0);
      DrawAddsMarks(size, grid, p, 0);
      SplitLast(ships);
      forall c
        ensures c in grid' <==> Marked(size, ships, c)
      {
        assert Marked(size, ships, c) <==> Marked(size, rest, c) || MarkedFrom(size, p, 0, c);
      }
    }
  }

  // Which cell shows which character

  /** The list index names the place, counting from the end when it is negative. */
  predicate Names(size: nat, i: int, place: int) {
    0 <= place < size && (i == place || i + size == place)
  }

  /** The k-th character of the ship belongs at the cell: along its row, or down its column. */
  predicate BelongsAt(size: nat, p: ShipPosition, k: nat, row: int, column: int) {
    match p.orientation
    case Horizontal => Names(size, p.row, row) && Names(size, p.column + k, column)
    case Vertical => Names(size, p.row + k, row) && Names(size, p.column, column)
  }

  ghost predicate ShowsAt(size: nat, p: ShipPosition, row: int, column: int, ch: char) {
    ch != '-' && exists k: nat :: k < |p.text| && p.text[k] == ch && BelongsAt(size, p, k, row, column)
  }

  lemma CellIsWhereItBelongs(size: nat, p: ShipPosition, k: nat, row: int, column: int)
    requires 0 <= row < size && 0 <= column < size
    ensures CellAt(size, p, k) == (row, column) <==> BelongsAt(size, p, k, row, column)
  {
  }

  lemma AddedShows(size: nat, grid: Grid, grid': Grid, p: ShipPosition, row: int, column: int, ch: char)
    requires AddsShip(size, grid, grid', p, 0) && 0 <= row < size && 0 <= column < size
    requires HasRoom(size, grid, p, 0)
    ensures Lookup(grid', (row, column)) == Some(ch)
       <==> Lookup(grid, (row, column)) == Some(ch) || ShowsAt(size, p, row, column, ch)
  {
    forall k: nat | k < |p.text|
      ensures CellAt(size, p, k) == (row, column) <==> BelongsAt(size, p, k, row, column)
    {
      CellIsWhereItBelongs(size, p, k, row, column);
    }
    if (row, column) in grid' && (row, column) !in grid {
      var k :| 0 <= k < |p.text| && (row, column) == CellAt(size, p, k) && p.text[k] != '-';
      assert BelongsAt(size, p, k, row, column);
    }
  }

  /** A drawn board shows a character at a cell if and only if a ship has it there. */
  lemma {:induction false} BoardShowsExactly(size: nat, ships: seq<ShipPosition>, row: int, column: int, ch: char)
    requires DrawAll(size, ships).Ok? && 0 <= row < size && 0 <= column < size
    ensures Lookup(DrawAll(size, ships).value, (row, column)) == Some(ch)
       <==> exists p <- ships :: ShowsAt(size, p, row, column, ch)
  {
    if ships != [] {
      var rest, p := ships[..|ships| - 1], ships[|ships| - 1];
      var grid, grid' := DrawAll(size, rest).value, DrawAll(size, ships).value;
      BoardShowsExactly(size, rest, row, column, ch);
      DrawsIfRoom(size, grid, p, 0);
      DrawAddsShip(size, grid, p, 0);
      AddedShows(size, grid, grid', p, row, column, ch);
      SplitLast(ships);
    }
  }

  /** A text without dashes marks one cell for each character. */
  lemma {:induction false} DashlessMarks(text: string, i: nat)
    requires '-' !in text && i <= |text|
    ensures Marks(text, i) == |text| - i
    decreases |text| - i
  {
    if i < |text| {
      DashlessMarks(text, i + 1);
    }
  }

  function TotalLength(ships: seq<ShipPosition>): nat {
    if ships == [] then 0 else TotalLength(ships[..|ships| - 1]) + |ships[|ships| - 1].text|
  }

  lemma {:induction false} DashlessTotal(ships: seq<ShipPosition>)
    requires forall p <- ships :: '-' !in p.text
    ensures TotalMarks(ships) == TotalLength(ships)
  {
    if ships != [] {
      DashlessTotal(ships[..|ships| - 1]);
      DashlessMarks(ships[|ships| - 1].text, 0);
    }
  }

  /** On a drawn board of ships without dashes, as many cells are occupied as the ships are long together. */
  lemma OccupiedCells(size: nat, ships: seq<ShipPosition>)
    requires DrawAll(size, ships).Ok? && forall p <- ships :: '-' !in p.text
    ensures |DrawAll(size, ships).value| == TotalLength(ships)
  {
    BoardShowsShips(size, ships);
    DashlessTotal(ships);
  }

  // Appending

  /** The ships after an append, and how it ends; only an occupied cell takes the ship back. */
  function Appended(size: nat, ships: seq<ShipPosition>, p: ShipPosition)
    : (seq<ShipPosition>, Outcome<(), BoardError>)
  {
    match DrawAll(size, ships + [p])
    case Ok(_) => (ships + [p], Ok(()))
    case Err(Occupied) => (ships, Err(Occupied))
    case Err(OutOfRange) => (ships + [p], Err(OutOfRange))
  }

  ghost predicate LiesOnBoard(size: nat, p: ShipPosition) {
    forall k :: 0 <= k < |p.text| ==> OnBoard(size, p, k)
  }

  /** The ship lies on the board, off all marks of earlier ships and off its own. */
  ghost predicate Free(size: nat, ships: seq<ShipPosition>, p: ShipPosition) {
    && LiesOnBoard(size, p) && !MeetsItself(size, p, 0)
    && forall k :: 0 <= k < |p.text| ==> !Marked(size, ships, CellAt(size, p, k))
  }

  /** The ship's k-th cell is one that the ship has marked since its i-th. */
  ghost predicate MeetsOwn(size: nat, p: ShipPosition, i: nat, k: nat) {
    exists j :: i <= j < k && j < |p.text| && p.text[j] != '-' && CellAt(size, p, j) == CellAt(size, p, k)
  }

  /** From the i-th cell on, the ship comes to a marked cell before it leaves the board. */
  ghost predicate MeetsFirst(size: nat, grid: Grid, p: ShipPosition, i: nat) {
    exists k: nat :: MeetsAt(size, grid, p, i, k)
  }

  ghost predicate MeetsAt(size: nat, grid: Grid, p: ShipPosition, i: nat, k: nat) {
    && i <= k < |p.text| && (forall j :: i <= j <= k ==> OnBoard(size, p, j))
    && (CellAt(size, p, k) in grid || MeetsOwn(size, p, i, k))
  }

  lemma MeetsOwnStep(size: nat, p: ShipPosition, i: nat, k: nat)
    requires i < k && i < |p.text|
    ensures MeetsOwn(size, p, i, k)
       <==> (p.text[i] != '-' && CellAt(size, p, i) == CellAt(size, p, k)) || MeetsOwn(size, p, i + 1, k)
  {
  }

  lemma MeetsAtStep(size: nat, grid: Grid, p: ShipPosition, i: nat, k: nat)
    requires i < k && i < |p.text| && CellAt(size, p, i) !in grid
    ensures MeetsAt(size, grid, p, i, k)
       <==> OnBoard(size, p, i) && MeetsAt(size, Mark(grid, CellAt(size, p, i), p.text[i]), p, i + 1, k)
  {
    MeetsOwnStep(size, p, i, k);
  }

  lemma MeetsFirstStep(size: nat, grid: Grid, p: ShipPosition, i: nat)
    requires i < |p.text| && OnBoard(size, p, i) && CellAt(size, p, i) !in grid
    ensures MeetsFirst(size, grid, p, i)
       <==> MeetsFirst(size, Mark(grid, CellAt(size, p, i), p.text[i]), p, i + 1)
  {
    var grid' := Mark(grid, CellAt(size, p, i), p.text[i]);
    if MeetsFirst(size, grid, p, i) {
      var k: nat :| MeetsAt(size, grid, p, i, k);
      MeetsAtStep(size, grid, p, i, k);
    }
    if MeetsFirst(size, grid', p, i + 1) {
      var k: nat :| MeetsAt(size, grid', p, i + 1, k);
      MeetsAtStep(size, grid, p, i, k);
    }
  }

  /** Drawing reports an occupied cell if and only if it comes to one before an edge, in a lettered column. */
  lemma {:induction false} OccupiedExactly(size: nat, grid: Grid, p: ShipPosition, i: nat)
    requires i <= |p.text|
    ensures DrawFrom(size, grid, p, i) == Err(Occupied) <==> Lettered(p) && MeetsFirst(size, grid, p, i)
    decreases |p.text| - i
  {
    if i < |p.text| {
      if OnBoard(size, p, i) && CellAt(size, p, i) !in grid {
        MeetsFirstStep(size, grid, p, i);
        OccupiedExactly(size, Mark(grid, CellAt(size, p, i), p.text[i]), p, i + 1);
      } else if OnBoard(size, p, i) {
        assert MeetsAt(size, grid, p, i, i);
      }
    }
  }

  /** The ship comes to a cell that an earlier ship or itself has marked before it leaves the board. */
  ghost predicate Blocked(size: nat, ships: seq<ShipPosition>, p: ShipPosition) {
    exists k: nat :: BlockedAt(size, ships, p, k)
  }

  ghost predicate BlockedAt(size: nat, ships: seq<ShipPosition>, p: ShipPosition, k: nat) {
    && k < |p.text| && (forall j :: 0 <= j <= k ==> OnBoard(size, p, j))
    && (Marked(size, ships, CellAt(size, p, k)) || MeetsOwn(size, p, 0, k))
  }

  lemma BlockedIsMet(size: nat, ships: seq<ShipPosition>, p: ShipPosition)
    requires DrawAll(size, ships).Ok?
    ensures Blocked(size, ships, p) <==> MeetsFirst(size, DrawAll(size, ships).value, p, 0)
  {
    BoardShowsShips(size, ships);
    var grid := DrawAll(size, ships).value;
    if Blocked(size, ships, p) {
      var k: nat :| BlockedAt(size, ships, p, k);
      assert MeetsAt(size, grid, p, 0, k);
    }
    if MeetsFirst(size, grid, p, 0) {
      var k: nat :| MeetsAt(size, grid, p, 0, k);
      assert BlockedAt(size, ships, p, k);
    }
  }

  /** A ship on the board that is not free is blocked. */
  lemma OnBoardIsBlocked(size: nat, ships: seq<ShipPosition>, p: ShipPosition)
    requires LiesOnBoard(size, p) && !Free(size, ships, p)
    ensures Blocked(size, ships, p)
  {
    if MeetsItself(size, p, 0) {
      var j, k :| 0 <= j < k < |p.text| && p.text[j] != '-' && CellAt(size, p, j) == CellAt(size, p, k);
      assert MeetsOwn(size, p, 0, k);
      assert BlockedAt(size, ships, p, k);
    } else {
      var k :| 0 <= k < |p.text| && Marked(size, ships, CellAt(size, p, k));
      assert BlockedAt(size, ships, p, k);
    }
  }

  lemma DrawNext(size: nat, ships: seq<ShipPosition>, p: ShipPosition)
    requires DrawAll(size, ships).Ok?
    ensures DrawAll(size, ships + [p]) == DrawFrom(size, DrawAll(size, ships).value, p, 0)
  {
    assert (ships + [p])[..|ships|] == ships;
  }

  lemma FreeIsRoom(size: nat, ships: seq<ShipPosition>, p: ShipPosition)
    requires DrawAll(size, ships).Ok?
    ensures DrawFrom(size, DrawAll(size, ships).value, p, 0).Ok? <==> Free(size, ships, p)
  {
    BoardShowsShips(size, ships);
    DrawsIfRoom(size, DrawAll(size, ships).value, p, 0);
  }

  /**
   * Appending to a layout that draws succeeds if and only if the ship lies on the
   * board and off all ships, itself included. A refused ship leaves the layout
   * unchanged if and only if it starts in a lettered column and comes to a marked
   * cell before it leaves the board; any other refused ship stays in the layout.
   */
  lemma AppendExactly(size: nat, ships: seq<ShipPosition>, p: ShipPosition)
    requires DrawAll(size, ships).Ok?
    ensures var (ships', r) := Appended(size, ships, p);
      && (r.Ok? <==> Free(size, ships, p))
      && (r.Ok? ==> ships' == ships + [p] && DrawAll(size, ships').Ok?)
      && (r.Err? ==>
            && ships' == (if Lettered(p) && Blocked(size, ships, p) then ships else ships + [p])
            && (r == Err(Occupied) <==> Lettered(p) && Blocked(size, ships, p)))
      && (r.Err? && LiesOnBoard(size, p) ==> Blocked(size, ships, p))
  {
    DrawNext(size, ships, p);
    FreeIsRoom(size, ships, p);
    BlockedIsMet(size, ships, p);
    OccupiedExactly(size, DrawAll(size, ships).value, p, 0);
    if LiesOnBoard(size, p) && !Free(size, ships, p) {
      OnBoardIsBlocked(size, ships, p);
    }
  }

  /** A layout that does not draw, such as one a refused ship has stayed in, refuses every further ship alike. */
  lemma BrokenRefusesAll(size: nat, ships: seq<ShipPosition>, p: ShipPosition)
    requires DrawAll(size, ships).Err?
    ensures Appended(size, ships, p).1 == Err(DrawAll(size, ships).error)
  {
    assert (ships + [p])[..|ships|] == ships;
  }

  /** A ship over the edge of an empty board stays in the layout. */
  lemma OverhangingShipStays()
    ensures var p := ShipPosition("AB", 0, 9, Horizontal);
      Lettered(p) && Appended(10, [], p) == ([p], Err(OutOfRange))
  {
    var p := ShipPosition("AB", 0, 9, Horizontal);
    var none: seq<ShipPosition> := [];
    DrawNext(10, none, p);
    assert DrawFrom(10, map[(0, 9) := 'A'], p, 1) == Err(OutOfRange);
    assert none + [p] == [p];
  }

  /** The same ship is taken back if its first cell is occupied. */
  lemma OverhangingShipIsTakenBack()
    ensures var q, p := ShipPosition("C", 0, 9, Horizontal), ShipPosition("AB", 0, 9, Horizontal);
      Appended(10, [q], p) == ([q], Err(Occupied))
  {
    var q, p := ShipPosition("C", 0, 9, Horizontal), ShipPosition("AB", 0, 9, Horizontal);
    assert [q][..0] == [];
    assert DrawFrom(10, map[], q, 0) == DrawFrom(10, map[(0, 9) := 'C'], q, 1) == Ok(map[(0, 9) := 'C']);
    DrawNext(10, [q], p);
  }

  /** On a board of eleven columns, placing a ship twice in the last one leaves it there twice. */
  lemma UnletteredColumnKeepsShip()
    ensures var p := ShipPosition("A", 0, 10, Horizontal);
      DrawAll(11, [p]).Ok? && Appended(11, [p], p) == ([p, p], Err(OutOfRange))
  {
    var p := ShipPosition("A", 0, 10, Horizontal);
    assert [p][..0] == [];
    assert DrawFrom(11, map[], p, 0) == DrawFrom(11, map[(0, 10) := 'A'], p, 1) == Ok(map[(0, 10) := 'A']);
    DrawNext(11, [p], p);
    assert [p] + [p] == [p, p];
  }

  /** A ship that starts one place before the first column wraps around to the last one and draws. */
  lemma NegativeColumnWraps()
    ensures Free(10, [], ShipPosition("AB", 0, -1, Horizontal))
    ensures CellAt(10, ShipPosition("AB", 0, -1, Horizontal), 0) == (0, 9)
    ensures CellAt(10, ShipPosition("AB", 0, -1, Horizontal), 1) == (0, 0)
  {
    ShortShipsAreApart(10, ShipPosition("AB", 0, -1, Horizontal));
  }

  // Round trip

  datatype LayoutData = LayoutData(size: nat, positions: seq<ShipPosition>)

  /** Appends positions one after another until one fails. */
  function Loaded(size: nat, ships: seq<ShipPosition>, positions: seq<ShipPosition>)
    : Outcome<seq<ShipPosition>, BoardError>
    decreases |positions|
  {
    if positions == [] then Ok(ships)
    else
      var (ships', r) := Appended(size, ships, positions[0]);
      if r.Err? then Err(r.error) else Loaded(size, ships', positions[1..])
  }

  lemma {:induction false} PrefixDraws(size: nat, ships: seq<ShipPosition>, n: nat)
    requires DrawAll(size, ships).Ok? && n <= |ships|
    ensures DrawAll(size, ships[..n]).Ok?
    decreases |ships| - n
  {
    if n == |ships| {
      assert ships[..n] == ships;
    } else {
      PrefixDraws(size, ships, n + 1);
      assert ships[..n + 1][..n] == ships[..n];
    }
  }

  lemma {:induction false} LoadsPrefix(size: nat, ships: seq<ShipPosition>, n: nat)
    requires n <= |ships| && DrawAll(size, ships[..n]).Ok?
    ensures Loaded(size, ships[..n], ships[n..]) == Ok(ships) <==> DrawAll(size, ships).Ok?
    ensures Loaded(size, ships[..n], ships[n..]).Ok? ==> DrawAll(size, ships).Ok?
    decreases |ships| - n
  {
    if n == |ships| {
      assert ships[..n] == ships;
    } else {
      assert ships[..n] + [ships[n]] == ships[..n + 1] && ships[n..][1..] == ships[n + 1..];
      if DrawAll(size, ships[..n + 1]).Ok? {
        LoadsPrefix(size, ships, n + 1);
      } else if DrawAll(size, ships).Ok? {
        PrefixDraws(size, ships, n + 1);
        assert false;
      }
    }
  }

  /** Loading what a layout was saved as gives the layout back if and only if the layout draws. */
  lemma LoadUndoesSave(size: nat, ships: seq<ShipPosition>)
    ensures Loaded(size, [], ships) == Ok(ships) <==> DrawAll(size, ships).Ok?
  {
    assert ships[..0] == [] && ships[0..] == ships;
    LoadsPrefix(size, ships, 0);
  }
}
