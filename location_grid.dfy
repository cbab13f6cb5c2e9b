/**
 * The object-graph side of the src engine: the grid behind `IGrid`, the
 * `Location` records of a search, and `LocationGrid`, the per-search state
 * the `AStar` and `CellBasedPathfinder` searches share (the open and closed
 * sets, the current location, the neighbour table, and one location per
 * grid position).
 *
 * A `Location` is a class, and the grid's matrix holds one distinct
 * instance per position that is never re-pointed; so a location is referred
 * to by its position, and the fields of all of them form the map
 * `locations` from position to value. `Parent` is the parent's position.
 */
module LocationGrids {
  import opened Outcomes
  import opened Coordinates
  import opened DirectionIndexes
  import opened FastSettings
  import SrcSettings
  import GridModel

  /** `IGridCell`. */
  datatype GridCell = GridCell(isWalkable: bool, isOccupied: bool, weight: real)

  /** `IGrid.Matrix`: `height` rows of `width` cells, read at [y, x]. */
  datatype Grid = Grid(height: int, width: int, rows: seq<seq<GridCell>>)

  predicate Rectangular(g: Grid) {
    g.height >= 0 && g.width >= 0 && |g.rows| == g.height && forall y :: 0 <= y < |g.rows| ==> |g.rows[y]| == g.width
  }

  /** `IsPositionValid`: inside the grid's width and height. */
  predicate InGrid(g: Grid, x: int, y: int) {
    GridModel.IsPositionValid(x, y, g.width, g.height)
  }

  /** `Location`: a position, the three scores and the parent. */
  datatype Location = Location(position: Coordinate, scoreF: real, scoreH: real, scoreG: real, parent: Option<Coordinate>) {
    /** `Reset`: the scores to 0 and the parent to null; the position stays. */
    function Reset(): Location {
      this.(scoreF := 0.0, scoreG := 0.0, scoreH := 0.0, parent := None)
    }
  }

  /** A location as the `LocationGrid` constructor makes it. */
  function NewLocation(position: Coordinate): Location {
    Location(position, 0.0, 0.0, 0.0, None)
  }

  /** A reset location is a new location at the same position, and a second `Reset` changes nothing. */
  lemma LocationResetClears(l: Location)
    ensures l.Reset() == NewLocation(l.position)
    ensures l.Reset().Reset() == l.Reset()
  {
  }

  /** The single-cell `GetWalkableLocation(x, y)` passes: inside, walkable, and not occupied while occupancy counts. */
  ghost predicate Passable(g: Grid, s: FastPathfinderSettings, x: int, y: int)
    requires Rectangular(g)
  {
    InGrid(g, x, y) &&
    var c := g.rows[y][x];
    !((s.isCalculatingOccupiedCells && c.isOccupied) || !c.isWalkable)
  }

  /** Rows y .. y + m - 1 of the size × size square at (x, y) pass, as the clearance loops test them. */
  ghost predicate RowsClear(g: Grid, s: FastPathfinderSettings, x: int, y: int, size: int, m: int)
    requires Rectangular(g)
    decreases m
  {
    m <= 0 || (RowsClear(g, s, x, y, size, m - 1) && RowClear(g, s, x, y + m - 1, size))
  }

  /** Columns x .. x + n - 1 of row py pass. */
  ghost predicate RowClear(g: Grid, s: FastPathfinderSettings, x: int, py: int, n: int)
    requires Rectangular(g)
    decreases n
  {
    n <= 0 || (RowClear(g, s, x, py, n - 1) && Passable(g, s, x + n - 1, py))
  }

  /** What `GetWalkableLocation(x, y, agentSize)` returns: the location at (x, y), or null. */
  ghost function Candidate(g: Grid, s: FastPathfinderSettings, x: int, y: int, size: int): Option<Coordinate>
    requires Rectangular(g)
  {
    if Passable(g, s, x, y) && RowsClear(g, s, x, y, size, size) then Some(Coordinate(x, y)) else None
  }

  /** A row passes exactly when each of its cells does. */
  lemma {:induction false} RowClearEach(g: Grid, s: FastPathfinderSettings, x: int, py: int, n: int)
    requires Rectangular(g)
    ensures RowClear(g, s, x, py, n) <==> forall px :: x <= px < x + n ==> Passable(g, s, px, py)
    decreases n
  {
    if n > 0 {
      RowClearEach(g, s, x, py, n - 1);
    }
  }

  /** The square passes exactly when each of its cells does. */
  lemma {:induction false} RowsClearEach(g: Grid, s: FastPathfinderSettings, x: int, y: int, size: int, m: int)
    requires Rectangular(g)
    ensures RowsClear(g, s, x, y, size, m) <==>
              forall px, py :: x <= px < x + size && y <= py < y + m ==> Passable(g, s, px, py)
    decreases m
  {
    if m > 0 {
      RowsClearEach(g, s, x, y, size, m - 1);
      RowClearEach(g, s, x, y + m - 1, size);
    }
  }

  /**
   * The location returned for (x, y) is the one there, exactly when every
   * cell of the agent's square passes; for sizes below 1 the cell itself
   * must pass.
   */
  lemma CandidateMeans(g: Grid, s: FastPathfinderSettings, x: int, y: int, size: int)
    requires Rectangular(g)
    ensures Candidate(g, s, x, y, size).Some? ==> Candidate(g, s, x, y, size) == Some(Coordinate(x, y))
    ensures Candidate(g, s, x, y, size).Some? <==>
              Passable(g, s, x, y) && forall px, py :: x <= px < x + size && y <= py < y + size ==> Passable(g, s, px, py)
  {
    RowsClearEach(g, s, x, y, size, size);
  }

  /**
   * Slot k of the table `GetNeighbors` returns for the location at c:
   * Left, Right, Up (y - 1) and Down (y + 1), then with diagonal movement
   * the four diagonals, each only when one of its two cardinals is open or
   * corner cutting is allowed. Slot numbering is that of `DirectionIndexes`.
   */
  ghost function Slot(g: Grid, s: FastPathfinderSettings, c: Coordinate, size: int, k: int): Option<Coordinate>
    requires Rectangular(g)
  {
    if k < DiagonalStart then Cardinal(g, s, c, size, k)
    else
      var horizontal := if k == SouthWest || k == NorthWest then West else East;
      var vertical := if k == SouthWest || k == SouthEast then South else North;
      var dx, dy := if horizontal == West then -1 else 1, if vertical == North then -1 else 1;
      if s.isDiagonalMovementEnabled &&
         (Cardinal(g, s, c, size, horizontal).Some? || Cardinal(g, s, c, size, vertical).Some? || s.isMovementBetweenCornersEnabled)
      then Candidate(g, s, c.x + dx, c.y + dy, size)
      else None
  }

  /** The four cardinal slots: the walkable location one step left, right, up or down. */
  ghost function Cardinal(g: Grid, s: FastPathfinderSettings, c: Coordinate, size: int, k: int): Option<Coordinate>
    requires Rectangular(g)
  {
    if k == West then Candidate(g, s, c.x - 1, c.y, size)
    else if k == East then Candidate(g, s, c.x + 1, c.y, size)
    else if k == North then Candidate(g, s, c.x, c.y - 1, size)
    else Candidate(g, s, c.x, c.y + 1, size)
  }

  /** The first k slots of the table. */
  ghost function Slots(g: Grid, s: FastPathfinderSettings, c: Coordinate, size: int, k: nat): seq<Option<Coordinate>>
    requires Rectangular(g)
  {
    if k == 0 then [] else Slots(g, s, c, size, k - 1) + [Slot(g, s, c, size, k - 1)]
  }

  /** The whole table `GetNeighbors` fills. */
  ghost function NeighborTable(g: Grid, s: FastPathfinderSettings, c: Coordinate, size: int): seq<Option<Coordinate>>
    requires Rectangular(g)
  {
    Slots(g, s, c, size, MaxNeighbors)
  }

  /** The table slot by slot. */
  lemma TableSlots(g: Grid, s: FastPathfinderSettings, c: Coordinate, size: int)
    requires Rectangular(g)
    ensures |NeighborTable(g, s, c, size)| == MaxNeighbors
    ensures forall k :: 0 <= k < MaxNeighbors ==> NeighborTable(g, s, c, size)[k] == Slot(g, s, c, size, k)
  {
    var t := NeighborTable(g, s, c, size);
    assert t == Slots(g, s, c, size, 7) + [Slot(g, s, c, size, 7)];
    assert Slots(g, s, c, size, 7) == Slots(g, s, c, size, 6) + [Slot(g, s, c, size, 6)];
    assert Slots(g, s, c, size, 6) == Slots(g, s, c, size, 5) + [Slot(g, s, c, size, 5)];
    assert Slots(g, s, c, size, 5) == Slots(g, s, c, size, 4) + [Slot(g, s, c, size, 4)];
    assert Slots(g, s, c, size, 4) == Slots(g, s, c, size, 3) + [Slot(g, s, c, size, 3)];
    assert Slots(g, s, c, size, 3) == Slots(g, s, c, size, 2) + [Slot(g, s, c, size, 2)];
    assert Slots(g, s, c, size, 2) == Slots(g, s, c, size, 1) + [Slot(g, s, c, size, 1)];
    assert Slots(g, s, c, size, 1) == [Slot(g, s, c, size, 0)];
  }

  /** One move of a search: b is in the neighbour table of a. */
  ghost predicate Step(g: Grid, s: FastPathfinderSettings, size: int, a: Coordinate, b: Coordinate)
    requires Rectangular(g)
  {
    Some(b) in NeighborTable(g, s, a, size)
  }

  /**
   * A move goes to one of the eight squares around a, the agent fits there,
   * and without diagonal movement it is a straight move.
   */
  lemma StepIsMove(g: Grid, s: FastPathfinderSettings, size: int, a: Coordinate, b: Coordinate)
    requires Rectangular(g) && Step(g, s, size, a, b)
    ensures GridModel.IsKingMove(a, b) && Candidate(g, s, b.x, b.y, size) == Some(b)
    ensures !s.isDiagonalMovementEnabled ==> GridModel.Abs(a.x - b.x) + GridModel.Abs(a.y - b.y) == 1
  {
    var t := NeighborTable(g, s, a, size);
    TableSlots(g, s, a, size);
    var k :| 0 <= k < 8 && t[k] == Some(b);
    assert Slot(g, s, a, size, k) == Some(b);
    var dx, dy := DeltaX(k), DeltaY(k);
    assert b == Coordinate(a.x + dx, a.y + dy);
  }

  /** A sequence of positions, each a move from the one before. */
  ghost predicate Walk(g: Grid, s: FastPathfinderSettings, size: int, w: seq<Coordinate>)
    requires Rectangular(g)
  {
    forall j :: 0 < j < |w| ==> Step(g, s, size, w[j - 1], w[j])
  }

  ghost predicate Reachable(g: Grid, s: FastPathfinderSettings, size: int, a: Coordinate, b: Coordinate)
    requires Rectangular(g)
  {
    exists w :: Walk(g, s, size, w) && |w| > 0 && w[0] == a && w[|w| - 1] == b
  }

  /** Which grid positions have a location: every position inside the grid. */
  ghost predicate Matrix(g: Grid, locations: map<Coordinate, Location>) {
    (forall c :: c in locations <==> InGrid(g, c.x, c.y)) &&
    (forall c :: c in locations ==> locations[c].position == c)
  }

  class LocationGrid {
    const grid: Grid
    const settings: SrcSettings.PathfinderSettings
    const width: int
    const height: int
    const neighbors: array<Option<Coordinate>>    // _neighbors
    var locations: map<Coordinate, Location>       // the objects of _matrix, by position
    var openSet: seq<Coordinate>                   // OpenSet's keys, in enumeration order
    var closedSet: set<Coordinate>                 // ClosedSet's keys
    var current: Option<Coordinate>                // Current

    ghost predicate Valid()
      reads this
    {
      Rectangular(grid) && width == grid.width && height == grid.height && neighbors.Length == MaxNeighbors &&
      Matrix(grid, locations)
    }

    /** The options a search reads from the shared settings object. */
    function Options(): FastPathfinderSettings
      reads settings
    {
      SrcSettings.Snapshot(settings)
    }

    /** One new location per position of the grid, in columns as the constructor's loops run. */
    constructor (grid: Grid, settings: SrcSettings.PathfinderSettings)
      requires Rectangular(grid)
      ensures this.grid == grid && this.settings == settings && Valid()
      ensures forall c :: c in locations ==> locations[c] == NewLocation(c)
      ensures openSet == [] && closedSet == {} && current == None && fresh(neighbors)
    {
      this.grid := grid;
      this.settings := settings;
      height := grid.height;
      width := grid.width;
      var matrix: map<Coordinate, Location> := map[];
      for x := 0 to grid.width
        invariant forall c :: c in matrix <==> 0 <= c.x < x && 0 <= c.y < grid.height
        invariant forall c :: c in matrix ==> matrix[c] == NewLocation(c)
      {
        for y := 0 to grid.height
          invariant forall c :: c in matrix <==> (0 <= c.x < x && 0 <= c.y < grid.height) || (c.x == x && 0 <= c.y < y)
          invariant forall c :: c in matrix ==> matrix[c] == NewLocation(c)
        {
          matrix := matrix[Coordinate(x, y) := NewLocation(Coordinate(x, y))];
        }
      }
      locations := matrix;
      openSet := [];
      closedSet := {};
      current := None;
      neighbors := new Option<Coordinate>[MaxNeighbors](_ => None);
    }

    /** `GetLocation`: the location at the position, or null outside the grid. */
    function GetLocation(position: Coordinate): (r: Option<Coordinate>)
      reads this
      requires Valid()
      ensures r.Some? <==> position in locations
      ensures r.Some? ==> r.value == position && locations[r.value].position == position
    {
      if !InGrid(grid, position.x, position.y) then None else Some(position)
    }

    /** The single-cell `GetWalkableLocation(x, y)`. */
    method GetWalkableCell(x: int, y: int) returns (r: Option<Coordinate>)
      requires Valid()
      ensures r.Some? <==> Passable(grid, Options(), x, y)
      ensures r.Some? ==> r == Some(Coordinate(x, y))
    {
      if !InGrid(grid, x, y) {
        return None;
      }
      var cell := grid.rows[y][x];
      r := if (settings.isCalculatingOccupiedCells && cell.isOccupied) || !cell.isWalkable then None
           else Some(Coordinate(x, y));
    }

    /**
     * `GetWalkableLocation(x, y, agentSize)`: the location at (x, y) when
     * it passes and so does every cell of the agent's square; the loop also
     * runs for an agent of size 1.
     */
    method GetWalkableLocation(x: int, y: int, agentSize: int) returns (r: Option<Coordinate>)
      requires Valid()
      ensures r == Candidate(grid, Options(), x, y, agentSize)
    {
      var location := GetWalkableCell(x, y);
      if location == None {
        return None;
      }
      var nY := 0;
      while nY < agentSize
        invariant 0 <= nY && (nY <= agentSize || nY == 0)
        invariant RowsClear(grid, Options(), x, y, agentSize, nY)
      {
        var nX := 0;
        while nX < agentSize
          invariant 0 <= nX <= agentSize
          invariant RowClear(grid, Options(), x, y + nY, nX)
        {
          var neighbor := GetWalkableCell(x + nX, y + nY);
          if neighbor == None {
            FailedCell(grid, Options(), x, y, agentSize, nX, nY);
            return None;
          }
          nX := nX + 1;
        }
        nY := nY + 1;
      }
      r := location;
    }

    /**
     * `GetNeighbors`: all eight slots are nulled first, then the cardinals
     * and, with diagonal movement, the guarded diagonals are filled.
     */
    method GetNeighbors(position: Coordinate, agentSize: int) returns (t: array<Option<Coordinate>>)
      requires Valid()
      modifies neighbors
      ensures t == neighbors && neighbors[..] == NeighborTable(grid, Options(), position, agentSize)
    {
      for i := 0 to neighbors.Length
        invariant forall j :: 0 <= j < i ==> neighbors[j] == None
      {
        neighbors[i] := None;
      }
      FillCardinals(position, agentSize);
      if settings.isDiagonalMovementEnabled {
        FillDiagonals(position, agentSize);
      }
      t := neighbors;
      TableSlots(grid, Options(), position, agentSize);
    }

    /** The four cardinal slots of `GetNeighbors`. */
    method FillCardinals(position: Coordinate, agentSize: int)
      requires Valid()
      modifies neighbors
      ensures forall k :: 0 <= k < DiagonalStart ==> neighbors[k] == Cardinal(grid, Options(), position, agentSize, k)
      ensures forall k :: DiagonalStart <= k < MaxNeighbors ==> neighbors[k] == old(neighbors[k])
    {
      var left := GetWalkableLocation(position.x - 1, position.y, agentSize);
      var right := GetWalkableLocation(position.x + 1, position.y, agentSize);
      var down := GetWalkableLocation(position.x, position.y + 1, agentSize);
      var up := GetWalkableLocation(position.x, position.y - 1, agentSize);
      neighbors[West] := left;
      neighbors[East] := right;
      neighbors[South] := down;
      neighbors[North] := up;
    }

    /** The four diagonal slots of `GetNeighbors`, with diagonal movement on and the diagonals null. */
    method FillDiagonals(position: Coordinate, agentSize: int)
      requires Valid() && settings.isDiagonalMovementEnabled
      requires forall k :: 0 <= k < DiagonalStart ==> neighbors[k] == Cardinal(grid, Options(), position, agentSize, k)
      requires forall k :: DiagonalStart <= k < MaxNeighbors ==> neighbors[k] == None
      modifies neighbors
      ensures forall k :: 0 <= k < MaxNeighbors ==> neighbors[k] == Slot(grid, Options(), position, agentSize, k)
    {
      FillDiagonal(position, agentSize, SouthWest);
      FillDiagonal(position, agentSize, NorthWest);
      FillDiagonal(position, agentSize, SouthEast);
      FillDiagonal(position, agentSize, NorthEast);
    }

    /**
     * One diagonal slot: the walkable location there, looked up when one of
     * the two cardinals it lies between is open or corner cutting is allowed.
     */
    method FillDiagonal(position: Coordinate, agentSize: int, k: int)
      requires Valid() && settings.isDiagonalMovementEnabled && DiagonalStart <= k < MaxNeighbors
      requires forall j :: 0 <= j < DiagonalStart ==> neighbors[j] == Cardinal(grid, Options(), position, agentSize, j)
      requires neighbors[k] == None
      modifies neighbors
      ensures neighbors[k] == Slot(grid, Options(), position, agentSize, k)
      ensures forall j :: 0 <= j < MaxNeighbors && j != k ==> neighbors[j] == old(neighbors[j])
    {
      var horizontal := if k == SouthWest || k == NorthWest then West else East;
      var vertical := if k == SouthWest || k == SouthEast then South else North;
      if neighbors[horizontal] != None || neighbors[vertical] != None || settings.isMovementBetweenCornersEnabled {
        var dx, dy := if horizontal == West then -1 else 1, if vertical == North then -1 else 1;
        var l := GetWalkableLocation(position.x + dx, position.y + dy, agentSize);
        neighbors[k] := l;
      }
    }

    /** `Reset`: both sets emptied, no current location, and every location reset, row by row. */
    method Reset()
      requires Valid()
      modifies this
      ensures Valid() && openSet == [] && closedSet == {} && current == None
      ensures forall c :: c in locations <==> c in old(locations)
      ensures forall c :: c in locations ==> locations[c] == old(locations[c]).Reset()
    {
      openSet := [];
      closedSet := {};
      current := None;
      ghost var before := locations;
      for y := 0 to height
        invariant Valid() && openSet == [] && closedSet == {} && current == None
        invariant forall c :: c in locations <==> c in before
        invariant forall c :: c in locations ==> locations[c] == if c.y < y then before[c].Reset() else before[c]
      {
        for x := 0 to width
          invariant Valid() && openSet == [] && closedSet == {} && current == None
          invariant forall c :: c in locations <==> c in before
          invariant forall c :: c in locations ==>
                      locations[c] == if c.y < y || (c.y == y && c.x < x) then before[c].Reset() else before[c]
        {
          var item := Coordinate(x, y);
          locations := locations[item := locations[item].Reset()];
        }
      }
    }
  }

  /** A cell of the square that fails the test fails the whole square. */
  lemma FailedCell(g: Grid, s: FastPathfinderSettings, x: int, y: int, size: int, nX: int, nY: int)
    requires Rectangular(g) && 0 <= nX < size && 0 <= nY < size && !Passable(g, s, x + nX, y + nY)
    ensures !RowsClear(g, s, x, y, size, size)
  {
    RowsClearEach(g, s, x, y, size, size);
  }
}
