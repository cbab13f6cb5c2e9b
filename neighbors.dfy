/**
 * Neighbour enumeration of the grid engines: the single-cell walkability
 * test, the clearance test for agents larger than one cell, and the
 * eight-slot neighbour table `PopulateNeighbors` fills in place.
 */
module Neighbors {
  import opened Coordinates
  import opened Cells
  import opened DirectionIndexes
  import opened GridModel
  import opened CellProviders

  /** The single-cell `GetWalkableLocation(x, y)`. */
  method GetWalkableCell(p: CellProvider, g: Setup, x: int, y: int) returns (r: int)
    requires p.Serves(g) && 0 <= x < g.pw && 0 <= y < g.ph
    ensures Passable(g, p.cells[..], x, y) ==> r == CellAt(g, x, y)
    ensures !Passable(g, p.cells[..], x, y) ==> r == Null
  {
    var i := CellAt(g, x, y);
    var cell := p.cells[i];
    r := if (g.s.isCalculatingOccupiedCells && cell.isOccupied) || !cell.isWalkable then Null else i;
  }

  /**
   * `GetWalkableLocation(x, y, agentSize)`: the cell at (x, y) when it is
   * inside the bounds and the agent's whole footprint passes, else null. The
   * clearance loop runs only for sizes other than 1 and bounds-checks each
   * cell of the footprint, as the src `Pathfinder` does; the terrain
   * engine's unchecked loop is `TerrainClearance.GetWalkableLocationAsWritten`.
   */
  method GetWalkableLocation(p: CellProvider, g: Setup, x: int, y: int) returns (r: int)
    requires p.Serves(g) && Sane(g)
    ensures r == Candidate(g, p.cells[..], x, y)
  {
    ghost var cs := p.cells[..];
    if !IsPositionValid(x, y, g.w, g.h) {
      return Null;
    }
    var location := GetWalkableCell(p, g, x, y);
    if location == Null {
      return Null;
    }
    if g.agentSize == SingleCellAgentSize {
      assert RowClear(g, cs, x, y, 0) && RowsClear(g, cs, x, y, 0);
      return location;
    }
    var nY := 0;
    while nY < g.agentSize
      invariant 0 <= nY && (nY <= g.agentSize || nY == 0)
      invariant RowsClear(g, cs, x, y, nY)
    {
      var nX := 0;
      while nX < g.agentSize
        invariant 0 <= nX <= g.agentSize
        invariant RowClear(g, cs, x, y + nY, nX)
      {
        if !IsPositionValid(x + nX, y + nY, g.w, g.h) {
          FailedCell(g, cs, x, y, nX, nY);
          return Null;
        }
        var neighbor := GetWalkableCell(p, g, x + nX, y + nY);
        if neighbor == Null {
          FailedCell(g, cs, x, y, nX, nY);
          return Null;
        }
        nX := nX + 1;
      }
      nY := nY + 1;
    }
    r := location;
  }

  /** A cell of the square that fails the test fails the whole square. */
  lemma FailedCell(g: Setup, cs: seq<Cell>, x: int, y: int, nX: int, nY: int)
    requires |cs| == g.pw * g.ph && 0 <= nX < g.agentSize && 0 <= nY < g.agentSize
    requires !FootCellClear(g, cs, x + nX, y + nY)
    ensures !FootprintClear(g, cs, x, y)
  {
    RowsClearEach(g, cs, x, y, g.agentSize);
  }

  /**
   * `PopulateNeighbor`: slot k gets the candidate at (x, y) when it should be
   * populated; otherwise the scaled engines null it and the terrain engine
   * leaves it as it was.
   */
  method PopulateNeighbor(p: CellProvider, ghost cs: seq<Cell>, g: Setup, x: int, y: int, neighbors: array<int>,
                          k: int, shouldPopulate: bool)
    requires p.Serves(g) && Sane(g) && |cs| == g.pw * g.ph && SameGrid(cs, p.cells[..]) && neighbors.Length == MaxNeighbors && IsSlot(k)
    modifies neighbors
    ensures shouldPopulate ==> neighbors[k] == Candidate(g, cs, x, y)
    ensures !shouldPopulate ==> neighbors[k] == if g.variant.clearsSkippedSlots then Null else old(neighbors[k])
    ensures forall j :: 0 <= j < MaxNeighbors && j != k ==> neighbors[j] == old(neighbors[j])
  {
    if !shouldPopulate {
      if g.variant.clearsSkippedSlots {
        neighbors[k] := Null;
      }
      return;
    }
    var r := GetWalkableLocation(p, g, x, y);
    FitsOnSameGrid(g, cs, p.cells[..], x, y);
    neighbors[k] := r;
  }

  /**
   * `PopulateNeighbors` for the cell at `c`: the four cardinal slots always
   * get their candidates; with diagonals off the diagonal slots are nulled;
   * with them on, a diagonal is populated only when one of its two adjacent
   * cardinals is open or corner cutting is allowed.
   */
  method PopulateNeighbors(p: CellProvider, ghost cs: seq<Cell>, g: Setup, c: Coordinate, neighbors: array<int>)
    requires p.Serves(g) && Sane(g) && |cs| == g.pw * g.ph && SameGrid(cs, p.cells[..]) && neighbors.Length == MaxNeighbors
    modifies neighbors
    ensures neighbors[West] == Candidate(g, cs, c.x - 1, c.y) && neighbors[East] == Candidate(g, cs, c.x + 1, c.y)
    ensures neighbors[South] == Candidate(g, cs, c.x, c.y + 1) && neighbors[North] == Candidate(g, cs, c.x, c.y - 1)
    ensures !g.s.isDiagonalMovementEnabled ==> forall k :: DiagonalStart <= k < MaxNeighbors ==> neighbors[k] == Null
    ensures g.s.isDiagonalMovementEnabled ==>
              var w, e, s, n := neighbors[West] != Null, neighbors[East] != Null, neighbors[South] != Null, neighbors[North] != Null;
              var corners, clears := g.s.isMovementBetweenCornersEnabled, g.variant.clearsSkippedSlots;
              (if w || s || corners then neighbors[SouthWest] == Candidate(g, cs, c.x - 1, c.y + 1)
               else neighbors[SouthWest] == if clears then Null else old(neighbors[SouthWest])) &&
              (if w || n || corners then neighbors[NorthWest] == Candidate(g, cs, c.x - 1, c.y - 1)
               else neighbors[NorthWest] == if clears then Null else old(neighbors[NorthWest])) &&
              (if e || s || corners then neighbors[SouthEast] == Candidate(g, cs, c.x + 1, c.y + 1)
               else neighbors[SouthEast] == if clears then Null else old(neighbors[SouthEast])) &&
              (if e || n || corners then neighbors[NorthEast] == Candidate(g, cs, c.x + 1, c.y - 1)
               else neighbors[NorthEast] == if clears then Null else old(neighbors[NorthEast]))
  {
    PopulateNeighbor(p, cs, g, c.x - 1, c.y, neighbors, West, true);
    PopulateNeighbor(p, cs, g, c.x + 1, c.y, neighbors, East, true);
    PopulateNeighbor(p, cs, g, c.x, c.y + 1, neighbors, South, true);
    PopulateNeighbor(p, cs, g, c.x, c.y - 1, neighbors, North, true);

    if !g.s.isDiagonalMovementEnabled {
      for i := DiagonalStart to neighbors.Length
        invariant neighbors[West] == Candidate(g, cs, c.x - 1, c.y) && neighbors[East] == Candidate(g, cs, c.x + 1, c.y)
        invariant neighbors[South] == Candidate(g, cs, c.x, c.y + 1) && neighbors[North] == Candidate(g, cs, c.x, c.y - 1)
        invariant forall k :: DiagonalStart <= k < i ==> neighbors[k] == Null
      {
        neighbors[i] := Null;
      }
      return;
    }
    PopulateDiagonals(p, cs, g, c, neighbors);
  }

  /** The diagonal half of `PopulateNeighbors`, with diagonal movement on. */
  method PopulateDiagonals(p: CellProvider, ghost cs: seq<Cell>, g: Setup, c: Coordinate, neighbors: array<int>)
    requires p.Serves(g) && Sane(g) && |cs| == g.pw * g.ph && SameGrid(cs, p.cells[..]) && neighbors.Length == MaxNeighbors
    modifies neighbors
    ensures forall k :: 0 <= k < DiagonalStart ==> neighbors[k] == old(neighbors[k])
    ensures
              var w, e, s, n := neighbors[West] != Null, neighbors[East] != Null, neighbors[South] != Null, neighbors[North] != Null;
              var corners, clears := g.s.isMovementBetweenCornersEnabled, g.variant.clearsSkippedSlots;
              (if w || s || corners then neighbors[SouthWest] == Candidate(g, cs, c.x - 1, c.y + 1)
               else neighbors[SouthWest] == if clears then Null else old(neighbors[SouthWest])) &&
              (if w || n || corners then neighbors[NorthWest] == Candidate(g, cs, c.x - 1, c.y - 1)
               else neighbors[NorthWest] == if clears then Null else old(neighbors[NorthWest])) &&
              (if e || s || corners then neighbors[SouthEast] == Candidate(g, cs, c.x + 1, c.y + 1)
               else neighbors[SouthEast] == if clears then Null else old(neighbors[SouthEast])) &&
              (if e || n || corners then neighbors[NorthEast] == Candidate(g, cs, c.x + 1, c.y - 1)
               else neighbors[NorthEast] == if clears then Null else old(neighbors[NorthEast]))
  {
    var canGoWest := neighbors[West] != Null;
    var canGoEast := neighbors[East] != Null;
    var canGoSouth := neighbors[South] != Null;
    var canGoNorth := neighbors[North] != Null;
    var isCornersCutAllowed := g.s.isMovementBetweenCornersEnabled;

    PopulateNeighbor(p, cs, g, c.x - 1, c.y + 1, neighbors, SouthWest, canGoWest || canGoSouth || isCornersCutAllowed);
    PopulateNeighbor(p, cs, g, c.x - 1, c.y - 1, neighbors, NorthWest, canGoWest || canGoNorth || isCornersCutAllowed);
    PopulateNeighbor(p, cs, g, c.x + 1, c.y + 1, neighbors, SouthEast, canGoEast || canGoSouth || isCornersCutAllowed);
    PopulateNeighbor(p, cs, g, c.x + 1, c.y - 1, neighbors, NorthEast, canGoEast || canGoNorth || isCornersCutAllowed);
  }
}
