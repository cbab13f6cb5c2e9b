/**
 * The pure parts of the grid engines (the atomic, migs and src `Pathfinder`
 * and the src `TerrainPathfinder`): positions, the Manhattan heuristic, the
 * step cost, and which cells an agent may stand on.
 *
 * The cell provider is a row-major buffer of `ph` rows of `pw` cells; a cell
 * is referred to by its index in that buffer (the `Cell*` the provider's
 * `GetCellPointer(x, y)` returns). The engine checks positions against its
 * own bounds `w` × `h`: the provider's `Width`/`Height` in the atomic and
 * migs engines, the constructor's arguments in the src ones.
 */
module GridModel {
  import opened Coordinates
  import opened Cells
  import opened GridIndex
  import opened DirectionIndexes
  import opened FastSettings

  const SingleCellAgentSize: int := 1

  /** How the score G of a step is made up, see `NeighborScoreG`. */
  datatype CostRule = ScaledByHeuristic | Additive

  /**
   * What tells the engines apart: the cost formula, and whether
   * `PopulateNeighbor` nulls a diagonal slot it does not populate.
   */
  datatype Variant = Variant(cost: CostRule, clearsSkippedSlots: bool)

  /** The atomic, migs and src `Pathfinder`. */
  const ScaledEngine: Variant := Variant(ScaledByHeuristic, true)

  /**
   * The src `TerrainPathfinder`, with its clearance loop bounds-checked as
   * in the src `Pathfinder`; `TerrainClearance` models the loop as written.
   */
  const TerrainEngine: Variant := Variant(Additive, false)

  /**
   * The fixed inputs of one `GetPath` call: the provider's extent, the
   * engine's bounds, the agent's `Size`, the options read during the call
   * and the engine variant.
   */
  datatype Setup = Setup(pw: int, ph: int, w: int, h: int, agentSize: int,
                         s: FastPathfinderSettings, variant: Variant)

  /** The engine's bounds lie inside the provider. */
  predicate Sane(g: Setup) {
    0 <= g.w <= g.pw && 0 <= g.h <= g.ph
  }

  /** `IsPositionValid`. */
  predicate IsPositionValid(x: int, y: int, width: int, height: int) {
    x >= 0 && x < width && y >= 0 && y < height
  }

  function Abs(v: int): nat {
    if v < 0 then -v else v
  }

  /** `GetH`: the Manhattan distance, an integer computed into a float. */
  function GetH(startX: int, startY: int, destX: int, destY: int): (r: real)
    ensures r >= 0.0
    ensures r == 0.0 <==> startX == destX && startY == destY
  {
    (Abs(destX - startX) + Abs(destY - startY)) as real
  }

  /** The heuristic is a metric on grid positions. */
  lemma ManhattanIsAMetric(x1: int, y1: int, x2: int, y2: int, x3: int, y3: int)
    ensures GetH(x1, y1, x2, y2) == GetH(x2, y2, x1, y1)
    ensures GetH(x1, y1, x3, y3) <= GetH(x1, y1, x2, y2) + GetH(x2, y2, x3, y3)
    ensures GetH(x1, y1, x1 + 1, y1) == 1.0 && GetH(x1, y1, x1 + 1, y1 + 1) == 2.0
  {
  }

  /** `IsDiagonalMovement`: both coordinates change. */
  predicate IsDiagonalMovement(startX: int, startY: int, destX: int, destY: int) {
    startX != destX && startY != destY
  }

  /** The moves of the diagonal slots are exactly the diagonal movements. */
  lemma DiagonalSlotsMoveDiagonally(x: int, y: int, k: int)
    requires IsSlot(k)
    ensures IsDiagonalMovement(x, y, x + DeltaX(k), y + DeltaY(k)) <==> IsDiagonalSlot(k)
  {
  }

  /**
   * `GetNeighborTravelWeightMultiplier` (scaled engines) and
   * `GetNeighborTravelWeight` (`TerrainPathfinder`): the diagonal or the
   * straight option, by the kind of movement.
   */
  function TravelWeight(s: FastPathfinderSettings, a: Coordinate, b: Coordinate): real {
    if IsDiagonalMovement(a.x, a.y, b.x, b.y) then s.diagonalMovementMultiplier else s.straightMovementMultiplier
  }

  /** `GetCellWeightMultiplier` / `GetCellWeight`: the cell's weight, or 0 when weights are off. */
  function CellWeight(s: FastPathfinderSettings, c: Cell): real {
    if s.isCellWeightEnabled then c.weight else 0.0
  }

  /**
   * The score G the search offers a neighbour reached from `current`. The
   * scaled engines multiply both the travel weight and the cell weight by
   * the neighbour's heuristic h'; the terrain engine adds h', the travel
   * cost and the cell weight.
   */
  function NeighborScoreG(g: Setup, current: Cell, neighbor: Cell, to: Coordinate): real {
    var h := GetH(neighbor.coordinate.x, neighbor.coordinate.y, to.x, to.y);
    var travel := TravelWeight(g.s, current.coordinate, neighbor.coordinate);
    var weight := CellWeight(g.s, neighbor);
    match g.variant.cost
    case ScaledByHeuristic => current.scoreG + travel * h + weight * h
    case Additive => current.scoreG + h + travel + weight
  }

  /** Options under which no step can lower a score. */
  predicate NonNegativeOptions(s: FastPathfinderSettings, neighbor: Cell) {
    s.straightMovementMultiplier >= 0.0 && s.diagonalMovementMultiplier >= 0.0 &&
    (s.isCellWeightEnabled ==> neighbor.weight >= 0.0)
  }

  /**
   * In the scaled engines a step onto the destination itself costs nothing
   * (h' = 0), and a step's cost grows linearly with h'. In the terrain
   * engine a step costs at least h' plus the travel cost.
   */
  lemma StepCosts(g: Setup, current: Cell, neighbor: Cell, to: Coordinate)
    ensures g.variant.cost == ScaledByHeuristic && neighbor.coordinate == to ==>
              NeighborScoreG(g, current, neighbor, to) == current.scoreG
    ensures g.variant.cost == ScaledByHeuristic ==>
              NeighborScoreG(g, current, neighbor, to) - current.scoreG ==
              (TravelWeight(g.s, current.coordinate, neighbor.coordinate) + CellWeight(g.s, neighbor)) *
              GetH(neighbor.coordinate.x, neighbor.coordinate.y, to.x, to.y)
    ensures NonNegativeOptions(g.s, neighbor) ==> NeighborScoreG(g, current, neighbor, to) >= current.scoreG
    ensures g.variant.cost == Additive && NonNegativeOptions(g.s, neighbor) ==>
              NeighborScoreG(g, current, neighbor, to) >=
              current.scoreG + GetH(neighbor.coordinate.x, neighbor.coordinate.y, to.x, to.y) +
              TravelWeight(g.s, current.coordinate, neighbor.coordinate)
  {
    var h := GetH(neighbor.coordinate.x, neighbor.coordinate.y, to.x, to.y);
    var travel := TravelWeight(g.s, current.coordinate, neighbor.coordinate);
    var weight := CellWeight(g.s, neighbor);
    if NonNegativeOptions(g.s, neighbor) {
      assert travel >= 0.0 && weight >= 0.0 && h >= 0.0;
      assert travel * h >= 0.0 && weight * h >= 0.0;
    }
  }

  /** A king move: one of the eight neighbouring positions. */
  predicate IsKingMove(a: Coordinate, b: Coordinate) {
    a != b && Abs(a.x - b.x) <= 1 && Abs(a.y - b.y) <= 1
  }

  /** The slot offsets are king moves. */
  lemma SlotsAreNeighbors(c: Coordinate, k: int)
    requires IsSlot(k)
    ensures IsKingMove(c, Coordinate(c.x + DeltaX(k), c.y + DeltaY(k)))
  {
  }

  /** The provider's buffer: cell i sits at (i mod pw, i div pw). */
  ghost predicate Laid(cs: seq<Cell>, pw: int, ph: int) {
    pw > 0 && ph > 0 && |cs| == pw * ph &&
    forall i :: 0 <= i < |cs| ==> cs[i].coordinate == Coordinate(i % pw, i / pw)
  }

  /** The buffer index of a position inside the provider. */
  function CellAt(g: Setup, x: int, y: int): (i: int)
    requires 0 <= x < g.pw && 0 <= y < g.ph
    ensures 0 <= i < g.pw * g.ph
  {
    IndexInGrid(x, y, g.pw, g.ph);
    GetCellIndex(x, y, g.pw)
  }

  /** The cell at a buffer index carries that index's position, and back. */
  lemma CellAtInverse(g: Setup, cs: seq<Cell>, i: int)
    requires Laid(cs, g.pw, g.ph) && 0 <= i < |cs|
    ensures 0 <= cs[i].coordinate.x < g.pw && 0 <= cs[i].coordinate.y < g.ph
    ensures CellAt(g, cs[i].coordinate.x, cs[i].coordinate.y) == i
  {
    IndexOnto(i, g.pw, g.ph);
  }

  lemma CoordinateAtCell(g: Setup, cs: seq<Cell>, x: int, y: int)
    requires Laid(cs, g.pw, g.ph) && 0 <= x < g.pw && 0 <= y < g.ph
    ensures cs[CellAt(g, x, y)].coordinate == Coordinate(x, y)
  {
    IndexInverse(x, y, g.pw);
  }

  /**
   * The single-cell `GetWalkableLocation(x, y)`: inside the provider, and
   * neither unwalkable nor occupied while occupancy is counted.
   */
  ghost predicate Passable(g: Setup, cs: seq<Cell>, x: int, y: int)
    requires |cs| == g.pw * g.ph
  {
    0 <= x < g.pw && 0 <= y < g.ph &&
    var c := cs[CellAt(g, x, y)];
    !((g.s.isCalculatingOccupiedCells && c.isOccupied) || !c.isWalkable)
  }

  /**
   * The clearance test, row by row as the clearance loops run it: rows
   * y .. y + m - 1 of the agent's square whose top-left corner is (x, y)
   * pass (`RowsClear`), each row cell by cell (`RowClear`).
   */
  ghost predicate RowsClear(g: Setup, cs: seq<Cell>, x: int, y: int, m: int)
    requires |cs| == g.pw * g.ph
    decreases m
  {
    m <= 0 || (RowsClear(g, cs, x, y, m - 1) && RowClear(g, cs, x, y + m - 1, g.agentSize))
  }

  /** Columns x .. x + n - 1 of row py pass. */
  ghost predicate RowClear(g: Setup, cs: seq<Cell>, x: int, py: int, n: int)
    requires |cs| == g.pw * g.ph
    decreases n
  {
    n <= 0 || (RowClear(g, cs, x, py, n - 1) && FootCellClear(g, cs, x + n - 1, py))
  }

  /** The whole agentSize × agentSize square passes. */
  ghost predicate FootprintClear(g: Setup, cs: seq<Cell>, x: int, y: int)
    requires |cs| == g.pw * g.ph
  {
    RowsClear(g, cs, x, y, g.agentSize)
  }

  /** A row passes exactly when each of its cells does. */
  lemma {:induction false} RowClearEach(g: Setup, cs: seq<Cell>, x: int, py: int, n: int)
    requires |cs| == g.pw * g.ph
    ensures RowClear(g, cs, x, py, n) <==> forall px :: x <= px < x + n ==> FootCellClear(g, cs, px, py)
    decreases n
  {
    if n > 0 {
      RowClearEach(g, cs, x, py, n - 1);
    }
  }

  /** Rows pass exactly when each cell of the rectangle does. */
  lemma {:induction false} RowsClearEach(g: Setup, cs: seq<Cell>, x: int, y: int, m: int)
    requires |cs| == g.pw * g.ph
    ensures RowsClear(g, cs, x, y, m) <==>
              forall px, py :: x <= px < x + g.agentSize && y <= py < y + m ==> FootCellClear(g, cs, px, py)
    decreases m
  {
    if m > 0 {
      RowsClearEach(g, cs, x, y, m - 1);
      RowClearEach(g, cs, x, y + m - 1, g.agentSize);
    }
  }

  /** One cell of the footprint passes the clearance loop's test. */
  ghost predicate FootCellClear(g: Setup, cs: seq<Cell>, px: int, py: int)
    requires |cs| == g.pw * g.ph
  {
    IsPositionValid(px, py, g.w, g.h) && Passable(g, cs, px, py)
  }

  /** The agent can stand with its top-left corner on (x, y). */
  ghost predicate Fits(g: Setup, cs: seq<Cell>, x: int, y: int)
    requires |cs| == g.pw * g.ph
  {
    IsPositionValid(x, y, g.w, g.h) && Passable(g, cs, x, y) && FootprintClear(g, cs, x, y)
  }

  /** What `GetWalkableLocation(x, y, agentSize)` returns: the cell, or null. */
  ghost function Candidate(g: Setup, cs: seq<Cell>, x: int, y: int): int
    requires Sane(g) && |cs| == g.pw * g.ph
  {
    if Fits(g, cs, x, y) then CellAt(g, x, y) else Null
  }

  /** The agent can stand on the cell with buffer index i. */
  ghost predicate CellFits(g: Setup, cs: seq<Cell>, i: int)
    requires |cs| == g.pw * g.ph
  {
    0 <= i < |cs| && Fits(g, cs, cs[i].coordinate.x, cs[i].coordinate.y)
  }

  /** A returned candidate is the in-bounds cell at (x, y), and the agent fits on it. */
  lemma CandidateFits(g: Setup, cs: seq<Cell>, x: int, y: int)
    requires Sane(g) && Laid(cs, g.pw, g.ph)
    ensures Candidate(g, cs, x, y) != Null <==> Fits(g, cs, x, y)
    ensures Candidate(g, cs, x, y) != Null ==>
              IsPositionValid(x, y, g.w, g.h) &&
              cs[Candidate(g, cs, x, y)].coordinate == Coordinate(x, y) &&
              CellFits(g, cs, Candidate(g, cs, x, y))
  {
    if Fits(g, cs, x, y) {
      CoordinateAtCell(g, cs, x, y);
    }
  }

  /** Whether the agent fits depends on the grid facts of the cells only. */
  ghost predicate SameGrid(cs0: seq<Cell>, cs: seq<Cell>) {
    |cs| == |cs0| && forall i :: 0 <= i < |cs| ==> cs[i].GridFacts() == cs0[i].GridFacts()
  }

  lemma PassableOnSameGrid(g: Setup, cs0: seq<Cell>, cs: seq<Cell>, x: int, y: int)
    requires |cs0| == g.pw * g.ph && SameGrid(cs0, cs)
    ensures Passable(g, cs, x, y) <==> Passable(g, cs0, x, y)
  {
    if 0 <= x < g.pw && 0 <= y < g.ph {
      var i := CellAt(g, x, y);
      assert cs[i].GridFacts() == cs0[i].GridFacts();
    }
  }

  lemma FitsOnSameGrid(g: Setup, cs0: seq<Cell>, cs: seq<Cell>, x: int, y: int)
    requires |cs0| == g.pw * g.ph && SameGrid(cs0, cs)
    ensures Fits(g, cs, x, y) <==> Fits(g, cs0, x, y)
  {
    forall px, py
      ensures FootCellClear(g, cs, px, py) <==> FootCellClear(g, cs0, px, py)
    {
      PassableOnSameGrid(g, cs0, cs, px, py);
    }
    RowsClearEach(g, cs, x, y, g.agentSize);
    RowsClearEach(g, cs0, x, y, g.agentSize);
  }

  /** `PathResult`: `IsPathFound` holds when the path is not empty. */
  datatype PathResult = PathResult(path: seq<Coordinate>) {
    predicate IsPathFound() { |path| > 0 }
  }
}
