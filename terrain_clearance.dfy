/**
 * The clearance loop of the src `TerrainPathfinder` as written. Unlike the
 * src `Pathfinder`, it reads the cells of the agent's footprint without an
 * `IsPositionValid` test. `ICellProvider` does not say what
 * `GetCellPointer` returns outside the provider, so the read is modelled
 * here on the row-major provider of the demo `Battlefield`: the index
 * `y * width + x`, and `IndexOutOfRangeException` past the buffer. A
 * footprint that crosses the right edge then reads cells of the next row,
 * and one that crosses the bottom edge throws. The search model uses the
 * bounds-checked loop of `Neighbors.GetWalkableLocation` instead.
 */
module TerrainClearance {
  import opened Outcomes
  import opened Cells
  import opened GridModel
  import opened CellProviders

  /** `GetCellPointer(x, y)` of a row-major provider that throws past its buffer. */
  function RowMajorRead(g: Setup, x: int, y: int): (r: Result<int>)
    ensures r.Ok? ==> 0 <= r.value < g.pw * g.ph
    ensures 0 <= x < g.pw && 0 <= y < g.ph ==> r == Ok(CellAt(g, x, y))
    ensures 0 < g.pw == x && 0 <= y < g.ph - 1 ==> r == Ok(CellAt(g, 0, y + 1))
    ensures 0 <= g.pw && 0 <= x && g.ph <= y ==> r == Err(IndexOutOfRange)
  {
    assert 0 <= g.pw && g.ph <= y ==> y * g.pw == (y - g.ph) * g.pw + g.ph * g.pw && (y - g.ph) * g.pw >= 0;
    if x < 0 || y < 0 || !(0 <= y * g.pw + x < g.pw * g.ph) then Err(IndexOutOfRange) else Ok(y * g.pw + x)
  }

  /** The single-cell `GetWalkableLocation` on the cell read: walkable and, when occupancy counts, free. */
  predicate Open(g: Setup, c: Cell) {
    !((g.s.isCalculatingOccupiedCells && c.isOccupied) || !c.isWalkable)
  }

  /**
   * The clearance loop from footprint cell (nX, nY) on, row by row: a read
   * past the buffer throws, and the first closed cell gives null.
   */
  function ScanFrom(g: Setup, cs: seq<Cell>, x: int, y: int, nY: int, nX: int): Result<bool>
    requires |cs| == g.pw * g.ph
    decreases g.agentSize - nY, g.agentSize - nX
  {
    if nY >= g.agentSize then Ok(true)
    else if nX >= g.agentSize then ScanFrom(g, cs, x, y, nY + 1, 0)
    else match RowMajorRead(g, x + nX, y + nY)
      case Err(e) => Err(e)
      case Ok(i) => if Open(g, cs[i]) then ScanFrom(g, cs, x, y, nY, nX + 1) else Ok(false)
  }

  /** What the terrain `GetWalkableLocation(x, y, agentSize)` returns as written. */
  function WalkableLocationAsWritten(g: Setup, cs: seq<Cell>, x: int, y: int): Result<int>
    requires Sane(g) && |cs| == g.pw * g.ph
  {
    if !IsPositionValid(x, y, g.w, g.h) || !Open(g, cs[CellAt(g, x, y)]) then Ok(Null)
    else if g.agentSize == SingleCellAgentSize then Ok(CellAt(g, x, y))
    else match ScanFrom(g, cs, x, y, 0, 0)
      case Err(e) => Err(e)
      case Ok(clear) => Ok(if clear then CellAt(g, x, y) else Null)
  }

  /** The terrain `GetWalkableLocation(x, y, agentSize)` as written, on the row-major provider. */
  method GetWalkableLocationAsWritten(p: CellProvider, g: Setup, x: int, y: int) returns (r: Result<int>)
    requires p.Serves(g) && Sane(g)
    ensures r == WalkableLocationAsWritten(g, p.cells[..], x, y)
  {
    ghost var cs := p.cells[..];
    if !IsPositionValid(x, y, g.w, g.h) {
      return Ok(Null);
    }
    var location := CellAt(g, x, y);
    if !Open(g, p.cells[location]) {
      return Ok(Null);
    }
    if g.agentSize == SingleCellAgentSize {
      return Ok(location);
    }
    var nY := 0;
    while nY < g.agentSize
      invariant 0 <= nY
      invariant ScanFrom(g, cs, x, y, nY, 0) == ScanFrom(g, cs, x, y, 0, 0)
    {
      var nX := 0;
      while nX < g.agentSize
        invariant 0 <= nX <= g.agentSize
        invariant ScanFrom(g, cs, x, y, nY, nX) == ScanFrom(g, cs, x, y, 0, 0)
      {
        var read := RowMajorRead(g, x + nX, y + nY);
        if read.Err? {
          return Err(read.error);
        }
        if !Open(g, p.cells[read.value]) {
          return Ok(Null);
        }
        nX := nX + 1;
      }
      nY := nY + 1;
    }
    r := Ok(location);
  }

  /** Every cell of the footprint from (nX, nY) on passes the bounds-checked test. */
  ghost predicate ClearFrom(g: Setup, cs: seq<Cell>, x: int, y: int, nY: int, nX: int)
    requires |cs| == g.pw * g.ph
  {
    forall px, py ::
      x <= px < x + g.agentSize && y + nY <= py < y + g.agentSize && (py > y + nY || px >= x + nX) ==>
        FootCellClear(g, cs, px, py)
  }

  /** Inside the engine's bounds the loop as written reads exactly the footprint cells. */
  lemma {:induction false} ScanInside(g: Setup, cs: seq<Cell>, x: int, y: int, nY: int, nX: int)
    requires Sane(g) && |cs| == g.pw * g.ph
    requires 0 <= x && 0 <= y && x + g.agentSize <= g.w && y + g.agentSize <= g.h
    requires 0 <= nY && 0 <= nX
    ensures ScanFrom(g, cs, x, y, nY, nX) == Ok(ClearFrom(g, cs, x, y, nY, nX))
    decreases g.agentSize - nY, g.agentSize - nX
  {
    if nY >= g.agentSize {
    } else if nX >= g.agentSize {
      ScanInside(g, cs, x, y, nY + 1, 0);
      assert ClearFrom(g, cs, x, y, nY, nX) == ClearFrom(g, cs, x, y, nY + 1, 0);
    } else {
      var px, py := x + nX, y + nY;
      assert RowMajorRead(g, px, py) == Ok(CellAt(g, px, py));
      assert Open(g, cs[CellAt(g, px, py)]) == FootCellClear(g, cs, px, py);
      ScanInside(g, cs, x, y, nY, nX + 1);
      assert ClearFrom(g, cs, x, y, nY, nX) == (FootCellClear(g, cs, px, py) && ClearFrom(g, cs, x, y, nY, nX + 1));
    }
  }

  /**
   * Where the whole footprint lies inside the engine's bounds, the loop as
   * written gives the bounds-checked candidate: the two differ only at the
   * right and bottom edges.
   */
  lemma AsWrittenAgreesInside(g: Setup, cs: seq<Cell>, x: int, y: int)
    requires Sane(g) && |cs| == g.pw * g.ph
    requires IsPositionValid(x, y, g.w, g.h) && x + g.agentSize <= g.w && y + g.agentSize <= g.h
    ensures WalkableLocationAsWritten(g, cs, x, y) == Ok(Candidate(g, cs, x, y))
  {
    RowsClearEach(g, cs, x, y, g.agentSize);
    ScanInside(g, cs, x, y, 0, 0);
    if g.agentSize == SingleCellAgentSize {
      assert FootprintClear(g, cs, x, y) <==> FootCellClear(g, cs, x, y);
    }
  }

  /**
   * An agent of size 2 in the last column of a provider the size of the
   * engine: the loop reads (0, y + 1) and (0, y + 2) for the two cells past
   * the edge, and accepts the cell when those and the column's own two are
   * open. The bounds-checked test rejects it.
   */
  lemma RightEdgeWraps(g: Setup, cs: seq<Cell>, y: int)
    requires Sane(g) && |cs| == g.pw * g.ph && g.pw == g.w && g.ph == g.h && g.agentSize == 2
    requires 0 < g.w && 0 <= y && y + 2 < g.h
    requires Passable(g, cs, g.w - 1, y) && Passable(g, cs, 0, y + 1)
    requires Passable(g, cs, g.w - 1, y + 1) && Passable(g, cs, 0, y + 2)
    ensures RowMajorRead(g, g.w, y) == Ok(CellAt(g, 0, y + 1))
    ensures WalkableLocationAsWritten(g, cs, g.w - 1, y) == Ok(CellAt(g, g.w - 1, y))
    ensures Candidate(g, cs, g.w - 1, y) == Null
  {
    var x := g.w - 1;
    assert ScanFrom(g, cs, x, y, 1, 2) == Ok(true);
    assert RowMajorRead(g, x + 1, y + 1) == Ok(CellAt(g, 0, y + 2));
    assert Open(g, cs[CellAt(g, 0, y + 2)]);
    assert ScanFrom(g, cs, x, y, 1, 1) == Ok(true);
    assert RowMajorRead(g, x, y + 1) == Ok(CellAt(g, x, y + 1));
    assert Open(g, cs[CellAt(g, x, y + 1)]);
    assert ScanFrom(g, cs, x, y, 1, 0) == Ok(true);
    assert ScanFrom(g, cs, x, y, 0, 2) == Ok(true);
    assert RowMajorRead(g, x + 1, y) == Ok(CellAt(g, 0, y + 1));
    assert Open(g, cs[CellAt(g, 0, y + 1)]);
    assert ScanFrom(g, cs, x, y, 0, 1) == Ok(true);
    assert RowMajorRead(g, x, y) == Ok(CellAt(g, x, y));
    assert Open(g, cs[CellAt(g, x, y)]);
    assert ScanFrom(g, cs, x, y, 0, 0) == Ok(true);
    assert !FootCellClear(g, cs, x + 1, y);
    RowsClearEach(g, cs, x, y, g.agentSize);
  }

  /**
   * An agent of size 2 in the last row of a provider the size of the
   * engine: once the row's two cells pass, the read of the row below is
   * past the buffer and throws. The bounds-checked test gives null.
   */
  lemma BottomEdgeThrows(g: Setup, cs: seq<Cell>, x: int)
    requires Sane(g) && |cs| == g.pw * g.ph && g.pw == g.w && g.ph == g.h && g.agentSize == 2
    requires 0 <= x && x + 2 <= g.w && 0 < g.h
    requires Passable(g, cs, x, g.h - 1) && Passable(g, cs, x + 1, g.h - 1)
    ensures WalkableLocationAsWritten(g, cs, x, g.h - 1) == Err(IndexOutOfRange)
    ensures Candidate(g, cs, x, g.h - 1) == Null
  {
    var y := g.h - 1;
    assert RowMajorRead(g, x, y + 1) == Err(IndexOutOfRange);
    assert ScanFrom(g, cs, x, y, 0, 2) == Err(IndexOutOfRange);
    assert ScanFrom(g, cs, x, y, 0, 0) == Err(IndexOutOfRange);
    assert !FootCellClear(g, cs, x, y + 1);
    RowsClearEach(g, cs, x, y, g.agentSize);
  }
}
