/**
 * The grid cell structs. The atomic, migs and src `Data/Cell` structs
 * declare the same fields and the same `Reset`, so one record models all
 * three; `CellPathfindingData` is the migs record of search fields alone.
 *
 * A struct method that assigns its own fields is modelled as the function
 * from the struct's old value to its new value: `cells[i].Reset()` on an
 * element of the cell buffer becomes `cells[i] := cells[i].Reset()`.
 *
 * The `QueueIndex` field is read and written only by the priority queue, so
 * the queue model keeps it (`FastPriorityQueue.queueIndex`, keyed by cell);
 * `Reset` does not touch it.
 */
module Cells {
  import opened Coordinates

  /** A cell is referred to by its index in the cell buffer; `Null` is the null `Cell*`. */
  const Null: int := -1

  datatype Cell = Cell(
    // grid facts, owned by the cell provider
    coordinate: Coordinate,
    isWalkable: bool,
    isOccupied: bool,
    weight: real,
    // search state, owned by the pathfinder
    isClosed: bool,
    scoreF: real,
    scoreH: real,
    scoreG: real,
    depth: int,
    parentCoordinate: Coordinate)
  {
    /**
     * `Reset`: clears the closed flag, the three scores and the depth.
     * `ParentCoordinate.Reset()` runs on the copy the property getter
     * returns, so the stored parent coordinate is left as it was.
     */
    function Reset(): Cell {
      this.(isClosed := false, scoreF := 0.0, scoreH := 0.0, scoreG := 0.0, depth := 0)
    }

    /** The grid facts of the cell: what the pathfinder never writes. */
    function GridFacts(): (Coordinate, bool, bool, real) {
      (coordinate, isWalkable, isOccupied, weight)
    }
  }

  /** A cell as `Reset` leaves it: nothing of a previous search survives. */
  predicate IsFresh(c: Cell) {
    !c.isClosed && c.scoreF == 0.0 && c.scoreH == 0.0 && c.scoreG == 0.0 && c.depth == 0
  }

  lemma ResetClearsSearchState(c: Cell)
    ensures IsFresh(c.Reset())
    ensures c.Reset().GridFacts() == c.GridFacts()
    ensures c.Reset().parentCoordinate == c.parentCoordinate
  {
  }

  lemma ResetIdempotent(c: Cell)
    ensures c.Reset().Reset() == c.Reset()
    ensures IsFresh(c) ==> c.Reset() == c
  {
  }

  /** The migs `CellPathfindingData` struct: the search fields of a cell. */
  datatype CellPathfindingData = CellPathfindingData(
    isClosed: bool,
    scoreF: real,
    scoreH: real,
    scoreG: real,
    depth: int,
    parentCoordinate: Coordinate)
  {
    /** `Reset`: as for `Cell`, the parent coordinate is reset on a copy only. */
    function Reset(): CellPathfindingData {
      this.(isClosed := false, scoreF := 0.0, scoreH := 0.0, scoreG := 0.0, depth := 0)
    }
  }

  lemma PathfindingDataResetClears(d: CellPathfindingData)
    ensures !d.Reset().isClosed
    ensures d.Reset().scoreF == 0.0 && d.Reset().scoreH == 0.0 && d.Reset().scoreG == 0.0
    ensures d.Reset().depth == 0
    ensures d.Reset().parentCoordinate == d.parentCoordinate
    ensures d.Reset().Reset() == d.Reset()
  {
  }
}
