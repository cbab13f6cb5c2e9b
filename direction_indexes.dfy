/**
 * The slot numbering of the eight-entry neighbour table (`DirectionIndexes`,
 * identical in the atomic and migs engines) and the candidate offset that
 * `PopulateNeighbors` fills each slot from. Y grows southwards: the South
 * slot is filled from (x, y + 1).
 */
module DirectionIndexes {
  const West: int := 0
  const East: int := 1
  const North: int := 2
  const South: int := 3
  const SouthWest: int := 4
  const NorthWest: int := 5
  const SouthEast: int := 6
  const NorthEast: int := 7

  const DiagonalStart: int := SouthWest

  /** `MaxNeighbors`, the length of the neighbour table. */
  const MaxNeighbors: int := 8

  /** The eight constants in declaration order. */
  const Table: seq<int> := [West, East, North, South, SouthWest, NorthWest, SouthEast, NorthEast]

  predicate IsSlot(k: int) { 0 <= k < MaxNeighbors }

  predicate IsDiagonalSlot(k: int) { DiagonalStart <= k < MaxNeighbors }

  function DeltaX(k: int): int
    requires IsSlot(k)
  {
    if k == West || k == SouthWest || k == NorthWest then -1
    else if k == East || k == SouthEast || k == NorthEast then 1
    else 0
  }

  function DeltaY(k: int): int
    requires IsSlot(k)
  {
    if k == South || k == SouthWest || k == SouthEast then 1
    else if k == North || k == NorthWest || k == NorthEast then -1
    else 0
  }

  /** The horizontal cardinal next to a diagonal slot (West or East). */
  function HorizontalGuard(k: int): int
    requires IsDiagonalSlot(k)
  {
    if k == SouthWest || k == NorthWest then West else East
  }

  /** The vertical cardinal next to a diagonal slot (South or North). */
  function VerticalGuard(k: int): int
    requires IsDiagonalSlot(k)
  {
    if k == SouthWest || k == SouthEast then South else North
  }

  lemma TableFitsNeighborArray()
    ensures |Table| == MaxNeighbors
    ensures forall i :: 0 <= i < |Table| ==> IsSlot(Table[i])
    ensures forall i, j :: 0 <= i < j < |Table| ==> Table[i] != Table[j]
  {
  }

  /** The slots from `DiagonalStart` on are exactly the diagonal moves. */
  lemma DiagonalStartSplitsTable(k: int)
    requires IsSlot(k)
    ensures IsDiagonalSlot(k) <==> DeltaX(k) != 0 && DeltaY(k) != 0
    ensures !IsDiagonalSlot(k) ==> (DeltaX(k) == 0) != (DeltaY(k) == 0)
  {
  }

  /** The table enumerates the eight king moves, each once. */
  lemma SlotsAreKingMoves(dx: int, dy: int)
    ensures (exists k :: IsSlot(k) && DeltaX(k) == dx && DeltaY(k) == dy)
            <==> -1 <= dx <= 1 && -1 <= dy <= 1 && (dx, dy) != (0, 0)
    ensures forall k1, k2 :: IsSlot(k1) && IsSlot(k2) && DeltaX(k1) == DeltaX(k2) && DeltaY(k1) == DeltaY(k2) ==> k1 == k2
  {
    if -1 <= dx <= 1 && -1 <= dy <= 1 && (dx, dy) != (0, 0) {
      var k := if dy == 0 then (if dx < 0 then West else East)
               else if dx == 0 then (if dy > 0 then South else North)
               else if dx < 0 then (if dy > 0 then SouthWest else NorthWest)
               else (if dy > 0 then SouthEast else NorthEast);
      assert IsSlot(k) && DeltaX(k) == dx && DeltaY(k) == dy;
    }
  }

  /** A diagonal is guarded by the two cardinals it is made of. */
  lemma GuardsAreComponents(k: int)
    requires IsDiagonalSlot(k)
    ensures !IsDiagonalSlot(HorizontalGuard(k)) && !IsDiagonalSlot(VerticalGuard(k))
    ensures DeltaX(HorizontalGuard(k)) == DeltaX(k) && DeltaY(HorizontalGuard(k)) == 0
    ensures DeltaX(VerticalGuard(k)) == 0 && DeltaY(VerticalGuard(k)) == DeltaY(k)
  {
  }
}
