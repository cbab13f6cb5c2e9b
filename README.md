# Atomic.Pathfinding in Dafny

A model of the grid pathfinding core of Atomic.Pathfinding (C#), with proofs about it. It covers:

- the pointer-based grid A\* engines: the atomic `Pathfinder`, the migs `Pathfinder`, and the src `Pathfinder<T>` and `TerrainPathfinder<T>`;
- their binary-heap priority queues: the atomic `FastPriorityQueue`, and the src `FastPriorityQueue<T>` and `FasterPriorityQueue` with `PriorityQueueItem`;
- the dictionary-based engines over a `LocationGrid`: `AStar` and `CellBasedPathfinder`, with `PathHelpers.GetLowestCostLocation`;
- the small value types: the cell structs, the terrain `Cell`, `Location`, `Coordinate`, `FastPathfinderSettings`, `DirectionIndexes`, `Utils.GetCellIndex` and the demo's `Utils.FieldCellComparison`.

How the model is built:

- **Cells and queue items are records in arrays.** A cell pointer is the cell's index in the provider's buffer, and `Null` (-1) is the null pointer.
- **Struct methods become functions.** A struct method that assigns its own fields is modelled as a function from the old value of the struct to the new one.
- **Classes stay classes.** The pathfinders, the queues, the cell provider, the location grids and the settings objects are classes. Their fields are updated in place, and every method that changes them states the whole new state.

The grid engines:

- The four grid engines run one search, `GridSearch.FindPath`. It is parameterised by an engine `Variant`, because the four engines differ in only two respects:
  - the cost rule: the heuristic-scaled step of the atomic, migs and src engines, or the additive step of the terrain engine;
  - whether a skipped diagonal slot is cleared.
- The terrain clearance loop does not bounds-check the agent's footprint. The search model corrects it to the src `Pathfinder`'s check, and `TerrainClearance` models the loop as written (see "## Findings").
- The proofs show that the search keeps its invariant at every step:
  - every reached cell was put in the open set by a walk of allowed moves;
  - parent links lead back to the start;
  - every move out of a closed cell leads to a cell already reached.
- From that invariant they show that the returned path meets its promise:
  - a non-empty path, read back along the parent links, is a walk of allowed moves from the start to the destination;
  - an empty path means the destination is the start, or no walk reaches it.
- These facts hold whatever the queue order. The heap is not re-sifted when a score improves, so heap order is not an invariant of the search.

The queues:

- Each queue works on a slot sequence and an index map.
- The proofs show that every operation keeps the index map and the slots consistent, and keeps exactly the expected members.
- When the heap is ordered before an operation, it is ordered after it, so the dequeued item is a minimal one.

The location grids:

- A location is named by its position. A location grid's dictionary of locations and its open and closed sets are fields the methods reassign.
- `LocationSearch.GetPathResult` is the loop shared by `AStar` and `CellBasedPathfinder`. For a start inside the grid, it returns a path exactly when the destination is reachable, and that path is a walk from the start to the destination.

## Model

| member | source | states |
|---|---|---|
| Cells.ResetClearsSearchState | atomic-pathfinding-source/Atomic.Pathfinding.Core/Data/Cell.cs:25-33 | After `Reset` the closed flag is down and the three scores and the depth are 0. The grid facts and the stored parent coordinate are unchanged, since `ParentCoordinate.Reset()` runs on a copy. |
| Cells.ResetIdempotent | src/Atomic.Pathfinding.Core/Data/Cell.cs:22-30 | A second `Reset` changes nothing, and `Reset` of a cell already in that state is the identity. |
| Cells.PathfindingDataResetClears | migs-pathfinding-source/Migs.Pathfinding.Core/Data/CellPathfindingData.cs:14-23 | `CellPathfindingData.Reset` clears the flag, the scores and the depth, keeps the parent coordinate, and is idempotent. |
| TerrainCells.ResetRestoresDefault | src/Atomic.Pathfinding.Core/Terrain/Cell.cs:18-29 | The terrain `Reset` gives `default(Cell)` from any cell. Two cells agree after `Reset`, and `Reset` is idempotent. |
| TerrainCells.SettersWriteOneField | src/Atomic.Pathfinding.Core/Terrain/Cell.cs:31-76 | Each `Set*` writes its own field, raises `IsInitialized` and leaves every other field. `SetQueueItem` leaves the flag alone. |
| TerrainCells.InitializedTracksSetters | src/Atomic.Pathfinding.Core/Terrain/Cell.cs:18-76 | After any sequence of calls, `IsInitialized` is down exactly when every raising setter was followed by a later `Reset`, and either a `Reset` was called or the flag was down at the start. |
| TerrainCells.ResetForgetsHistory | src/Atomic.Pathfinding.Core/Terrain/Cell.cs:18-29 | The state after `Reset` and later calls does not depend on anything before the `Reset`. |
| TerrainCells.SettersCommute | src/Atomic.Pathfinding.Core/Terrain/Cell.cs:48-70 | `SetF`, `SetG`, `SetH` and `SetDepth` commute with one another, a second `SetF` wins, and `SetQueueItem` leaves the search fields alone. |
| Coordinates.EqualsIsValueEquality | src/Atomic.Pathfinding.Core/Data/Coordinate.cs:22-25 | `Equals(Coordinate)` holds exactly for equal components. It is reflexive, symmetric and transitive. |
| Coordinates.EqualsObjectOnlyForCoordinates | src/Atomic.Pathfinding.Core/Data/Coordinate.cs:27-30 | `Equals(object)` is false for null and for a non-coordinate. For a coordinate it agrees with `Equals(Coordinate)`. |
| Coordinates.OperatorsAgreeWithEquals | src/Atomic.Pathfinding.Core/Data/Coordinate.cs:12-20 | `==` throws `NullReferenceException` when either operand is null, and otherwise is value equality. `!=` gives the negation, or the same exception. |
| Coordinates.GetHashCode | src/Atomic.Pathfinding.Core/Data/Coordinate.cs:32-38 | The hash is a 32-bit int: the wrapped product `X * 397` XOR `Y`. |
| Coordinates.HashAgreesWithEquals | src/Atomic.Pathfinding.Core/Data/Coordinate.cs:22-38 | Equal coordinates have equal hashes. |
| Coordinates.HashOfRowZero | src/Atomic.Pathfinding.Core/Data/Coordinate.cs:32-38 | With `Y == 0` the hash is `unchecked(X * 397)`. |
| Coordinates.HashSeparatesRows | src/Atomic.Pathfinding.Core/Data/Coordinate.cs:32-38 | For a fixed `X`, distinct in-range `Y` values give distinct hashes. |
| Coordinates.IntRoundTrip | src/Atomic.Pathfinding.Core/Data/Coordinate.cs:40-43 | The decimal text of an int, with its '-' sign, parses back to the int. |
| Coordinates.ToStringRoundTrip | src/Atomic.Pathfinding.Core/Data/Coordinate.cs:40-43 | The "X:Y" text of `ToString` parses back to the coordinate. |
| Coordinates.ToStringInjective | src/Atomic.Pathfinding.Core/Data/Coordinate.cs:40-43 | Distinct coordinates have distinct `ToString` texts. |
| DirectionIndexes.TableFitsNeighborArray | atomic-pathfinding-source/Atomic.Pathfinding.Core/Helpers/DirectionIndexes.cs:8-17 | The eight constants are distinct indices of the eight-entry neighbour array. |
| DirectionIndexes.DiagonalStartSplitsTable | migs-pathfinding-source/Migs.Pathfinding.Core/Helpers/DirectionIndexes.cs:8-17 | The slots from `DiagonalStart` on are exactly those whose offset changes both coordinates. The others change exactly one. |
| DirectionIndexes.SlotsAreKingMoves | atomic-pathfinding-source/Atomic.Pathfinding.Core/Pathfinder.cs:138-166 | The offsets the slots are filled from are the eight king moves, each exactly once. |
| DirectionIndexes.GuardsAreComponents | atomic-pathfinding-source/Atomic.Pathfinding.Core/Pathfinder.cs:153-166 | Each diagonal is guarded by the two cardinal slots it is made of. |
| GridIndex.IndexSteps | src/Atomic.Pathfinding.Core/Helpers/Utils.cs:8 | `GetCellIndex` is 0 at the origin, and steps by 1 along x and by the stride along y. |
| GridIndex.IndexInverse | src/Atomic.Pathfinding.Core/Helpers/Utils.cs:8 | Within a row, `index % stride` and `index / stride` give back x and y. |
| GridIndex.IndexInjective | src/Atomic.Pathfinding.Core/Helpers/Utils.cs:8 | Two in-row positions share an index exactly when they are equal. |
| GridIndex.IndexInGrid | src/Atomic.Pathfinding.Core/Helpers/Utils.cs:8 | Positions of a w×h grid land in [0, w·h). |
| GridIndex.IndexOnto | src/Atomic.Pathfinding.Core/Helpers/Utils.cs:8 | Every index of a w×h grid comes from an in-grid position. |
| FieldCellOrder.ComparisonByRowThenColumn | migs-pathfinding-unity/Assets/Demo/Code/Utils.cs:5-9 | The comparison orders by Y, then by X. It is 0 exactly for equal coordinates, and antisymmetric. |
| FieldCellOrder.ComparisonTransitive | migs-pathfinding-unity/Assets/Demo/Code/Utils.cs:5-9 | The comparison is transitive. |
| FieldCellOrder.ComparisonIsRowMajor | migs-pathfinding-unity/Assets/Demo/Code/Utils.cs:5-9 | Inside a grid of row length w, "less" is "smaller row-major index". |
| FieldCellOrder.SortedFieldIsRowMajor | migs-pathfinding-unity/Assets/Demo/Code/Battlefield.cs:44 | A sorted field of one cell per position holds the cell of (x, y) at index y·w + x, the index `GetFieldIndex` reads. |
| AtomicSettings.PathfinderSettings.constructor | atomic-pathfinding-source/Atomic.Pathfinding.Core/Data/PathfinderSettings.cs:8-26 | The defaults: diagonals on, occupancy counted, no corner cutting, weights on, multipliers 1 and 1.41, no buffer size. |
| FastSettings.FromSettings | atomic-pathfinding-source/Atomic.Pathfinding.Core/Internal/FastPathfinderSettings.cs:27-32 | The snapshot copies the four flags and the two multipliers. |
| FastSettings.SnapshotDeterminedBySixOptions | atomic-pathfinding-source/Atomic.Pathfinding.Core/Internal/FastPathfinderSettings.cs:15-32 | Settings that agree on the six copied options give equal snapshots, whatever `InitialBufferSize` is. |
| SrcSettings.PathfinderSettings.constructor | src/Atomic.Pathfinding.Core/Data/PathfinderSettings.cs:8-38 | The src defaults: as the atomic ones, with costs 1 and 1.5 and open-set capacity 10000. |
| SrcSettings.DefaultCosts | src/Atomic.Pathfinding.Core/Data/PathfinderSettings.cs:8-33 | The options of default src settings: the flags as above, with costs 1 and 1.5. |
| CellProviders.CellProvider.ResetCells | atomic-pathfinding-source/Atomic.Pathfinding.Tools/Maze.cs:67-77 | Every cell of the buffer becomes its `Reset`, and the buffer stays laid out by position. |
| CellProviders.CellProvider.constructor | src/Atomic.Pathfinding.Tools/Maze.cs:145-157 | A provider of the given extent over a buffer laid out by position: the cell of (x, y) at index y·width + x, as `Utils.GetCellIndex` places it. The index stands for the cell pointer. |
| GridModel.GetH | atomic-pathfinding-source/Atomic.Pathfinding.Core/Pathfinder.cs:237-240 | The heuristic is non-negative, and 0 exactly at the destination. |
| GridModel.CellAt | atomic-pathfinding-source/Atomic.Pathfinding.Core/Pathfinder.cs:183-190 | The pointer of an in-bounds position lies inside the width·height buffer. |
| GridModel.ManhattanIsAMetric | src/Atomic.Pathfinding.Core/Pathfinder.cs:240-243 | The heuristic is symmetric and obeys the triangle inequality. It is 1 across a straight step and 2 across a diagonal one. |
| GridModel.DiagonalSlotsMoveDiagonally | atomic-pathfinding-source/Atomic.Pathfinding.Core/Pathfinder.cs:120-125 | `IsDiagonalMovement` along a slot's offset holds exactly for the diagonal slots. So the diagonal multiplier is used exactly for them. |
| GridModel.StepCosts | atomic-pathfinding-source/Atomic.Pathfinding.Core/Pathfinder.cs:65-73 | A scaled step into the destination adds nothing to G. A scaled step is G + (travel + weight)·H. With non-negative options no step lowers G. A terrain step adds at least H and the travel cost. |
| GridModel.SlotsAreNeighbors | atomic-pathfinding-source/Atomic.Pathfinding.Core/Pathfinder.cs:138-166 | Every slot's offset is a king move. |
| GridModel.CellAtInverse | src/Atomic.Pathfinding.Tools/Maze.cs:145-157 | In a buffer laid out by position, the cell at an index carries the position that maps back to that index. |
| GridModel.CoordinateAtCell | src/Atomic.Pathfinding.Tools/Maze.cs:145-157 | In a buffer laid out by position, the index of (x, y), which stands for `GetCellPointer(x, y)`, holds the cell whose coordinate is (x, y). |
| GridModel.RowsClearEach | atomic-pathfinding-source/Atomic.Pathfinding.Core/Pathfinder.cs:210-225 | The clearance loop passes exactly when every cell of the agentSize × agentSize square is in bounds and walkable. |
| GridModel.CandidateFits | atomic-pathfinding-source/Atomic.Pathfinding.Core/Pathfinder.cs:193-228 | `GetWalkableLocation(x, y, size)` returns a cell exactly when the agent fits with its corner at (x, y), and then it is the cell at (x, y). |
| GridModel.FitsOnSameGrid | atomic-pathfinding-source/Atomic.Pathfinding.Core/Pathfinder.cs:183-228 | Whether an agent fits depends only on the grid facts, which the search never writes. |
| Neighbors.GetWalkableCell | atomic-pathfinding-source/Atomic.Pathfinding.Core/Pathfinder.cs:183-190 | The single-cell test returns the cell exactly when it is walkable and, if occupancy counts, not occupied. Otherwise it returns null. |
| Neighbors.GetWalkableLocation | atomic-pathfinding-source/Atomic.Pathfinding.Core/Pathfinder.cs:193-228 | The clearance loop returns the candidate cell: null out of bounds, null on a failed cell of the footprint, the cell otherwise. Every footprint cell is bounds-checked. The terrain engine uses this corrected loop too. |
| Neighbors.FailedCell | atomic-pathfinding-source/Atomic.Pathfinding.Core/Pathfinder.cs:211-225 | One failing cell of the footprint makes the whole clearance test fail, the early `return null`. |
| Neighbors.PopulateNeighbor | atomic-pathfinding-source/Atomic.Pathfinding.Core/Pathfinder.cs:170-180 | Writes the candidate into its slot, or null when it should not populate. The terrain engine leaves the slot as it was. No other slot changes. |
| Neighbors.PopulateNeighbors | atomic-pathfinding-source/Atomic.Pathfinding.Core/Pathfinder.cs:134-167 | The four cardinals are the candidates at their offsets. Without diagonals the diagonal slots are null. With them, each diagonal is its candidate when a guard cardinal is open or corner cutting is on. |
| Neighbors.PopulateDiagonals | src/Atomic.Pathfinding.Core/TerrainPathfinder.cs:153-162 | The diagonal half: the cardinals unchanged. A guarded diagonal is its candidate, and an unguarded one is cleared or, in the terrain engine, left stale. |
| GridSearch.StepIsMove | atomic-pathfinding-source/Atomic.Pathfinding.Core/Pathfinder.cs:55-63 | Every move the neighbour table allows is a king move to a cell the agent fits on. |
| GridSearch.Moves | atomic-pathfinding-source/Atomic.Pathfinding.Core/Pathfinder.cs:134-167 | The table of allowed moves has eight entries, each null or a cell of the buffer. |
| GridSearch.MoveOffset | atomic-pathfinding-source/Atomic.Pathfinding.Core/Pathfinder.cs:138-166 | A non-null table entry is the candidate at one of the eight offsets. |
| GridSearch.RelaxKeeps | atomic-pathfinding-source/Atomic.Pathfinding.Core/Pathfinder.cs:57-93 | One pass of the neighbour loop keeps the search invariant, opens nothing closed, and leaves the slot's cell reached. |
| GridSearch.RelaxStep | atomic-pathfinding-source/Atomic.Pathfinding.Core/Pathfinder.cs:59-92 | The relaxation of one slot keeps the queue links well formed and the buffer size. |
| GridSearch.RelaxEnqueues | atomic-pathfinding-source/Atomic.Pathfinding.Core/Pathfinder.cs:75-85 | An unclosed cell not in the open set is adopted: it keeps its grid facts, takes the current cell as parent at depth + 1, and joins the open set. No other cell changes. |
| GridSearch.RelaxAdopts | atomic-pathfinding-source/Atomic.Pathfinding.Core/Pathfinder.cs:86-92 | Any pass that changes the state is such an adoption of the slot's cell by the current cell. Nothing else changes and nothing leaves the open set. |
| GridSearch.Relax | atomic-pathfinding-source/Atomic.Pathfinding.Core/Pathfinder.cs:59-92 | The pass over one slot: the new buffer and queue are the relaxation step of the old ones. |
| GridSearch.RelaxSlots | atomic-pathfinding-source/Atomic.Pathfinding.Core/Pathfinder.cs:57-93 | The `foreach` over the table: all eight passes applied in order, the invariant kept. |
| GridSearch.RelaxSlot | atomic-pathfinding-source/Atomic.Pathfinding.Core/Pathfinder.cs:59-92 | One turn of the neighbour loop: slot k relaxed, what the earlier slots gave kept. |
| GridSearch.FillTable | src/Atomic.Pathfinding.Core/TerrainPathfinder.cs:135-163 | The table after `PopulateNeighbors` is fine: every entry is null or a cell the agent fits on. Every present move is in its slot. |
| GridSearch.CloseKeeps | atomic-pathfinding-source/Atomic.Pathfinding.Core/Pathfinder.cs:46-53 | Closing the dequeued cell keeps the invariant, with that cell as the one being expanded. |
| GridSearch.Reconstruct | atomic-pathfinding-source/Atomic.Pathfinding.Core/Pathfinder.cs:104-113 | The `Depth`-long array filled back from the goal: entry j is a cell of depth j + 1 the agent fits on, and the last entry is the goal. The parent links chain each entry to the one before it, and the first to the start. The start, of depth 0, is no entry of the path. In the scaled engines each consecutive pair is an allowed move. |
| GridSearch.ReconstructedWalks | migs-pathfinding-source/Migs.Pathfinding.Core/Pathfinder.cs:111-126 | In the scaled engines the start followed by the reconstructed cells is a walk of allowed moves to the goal. |
| GridSearch.ExhaustedUnreachable | atomic-pathfinding-source/Atomic.Pathfinding.Core/Pathfinder.cs:44-101 | When the open set runs empty, the start is closed and no walk reaches the goal. |
| GridSearch.ClosedCellsEnclose | atomic-pathfinding-source/Atomic.Pathfinding.Core/Pathfinder.cs:44-94 | When no allowed move leaves the closed cells, nothing outside them is reachable from inside. |
| GridSearch.WalkStaysClosed | atomic-pathfinding-source/Atomic.Pathfinding.Core/Pathfinder.cs:44-94 | A walk that starts among closed cells and never takes a move out of them stays among them. |
| GridSearch.SearchedExactly | src/Atomic.Pathfinding.Core/Pathfinder.cs:99-118 | In the scaled engines the path is non-empty exactly when the start is not the goal and some walk reaches the goal. |
| GridSearch.DequeuedGoal | atomic-pathfinding-source/Atomic.Pathfinding.Core/Pathfinder.cs:46-51 | An open cell has depth 0 exactly when it is the start, the only closed cell of depth 0 is the start, and the parent links are traced. |
| GridSearch.StartKeeps | atomic-pathfinding-source/Atomic.Pathfinding.Core/Pathfinder.cs:34-40 | After the reset and the enqueue of the start with F = H, the invariant holds. |
| GridSearch.StartSearch | atomic-pathfinding-source/Atomic.Pathfinding.Core/Pathfinder.cs:34-40 | The reset, the cleared open set and the enqueued start cell establish the invariant. |
| GridSearch.CloseCurrent | atomic-pathfinding-source/Atomic.Pathfinding.Core/Pathfinder.cs:53 | Closing the dequeued cell sets its flag only, and the invariant holds with it as the cell being expanded. |
| GridSearch.Expand | atomic-pathfinding-source/Atomic.Pathfinding.Core/Pathfinder.cs:53-93 | Closing, filling the table and relaxing it: the invariant holds again, and exactly the dequeued cell has been closed. |
| GridSearch.RelaxTable | atomic-pathfinding-source/Atomic.Pathfinding.Core/Pathfinder.cs:57-93 | Relaxing a fine table restores the invariant without exception and changes no closed flag. |
| GridSearch.Visit | atomic-pathfinding-source/Atomic.Pathfinding.Core/Pathfinder.cs:46-93 | One turn of the `while`: the dequeued goal ends the loop. Otherwise the dequeued cell, not closed before, is closed and expanded, and the invariant holds. |
| GridSearch.Explore | atomic-pathfinding-source/Atomic.Pathfinding.Core/Pathfinder.cs:44-94 | The loop ends with the goal dequeued or with the open set empty, and what holds then is enough to answer. |
| GridSearch.FindPath | atomic-pathfinding-source/Atomic.Pathfinding.Core/Pathfinder.cs:29-116 | An invalid destination throws and changes nothing. Otherwise the grid facts stay as they were and the result is a searched answer: empty, or the reconstructed path from start to goal, which ends at the goal and leaves out the start. |
| Pathfinders.AtInjective | src/Atomic.Pathfinding.Tools/Maze.cs:145-157 | Distinct positions inside the provider are distinct cells, so `current->Coordinate == to` is "the goal cell". |
| Pathfinders.ScaledOutcome | atomic-pathfinding-source/Atomic.Pathfinding.Core/Pathfinder.cs:96-115 | For a valid destination the path is non-empty exactly when the destination is not the start and is reachable. |
| Pathfinders.DefaultOptions | atomic-pathfinding-source/Atomic.Pathfinding.Core/Data/PathfinderSettings.cs:8-23 | The options of default settings, as the engines read them. |
| Pathfinders.AtomicPathfinder.SetupFor | atomic-pathfinding-source/Atomic.Pathfinding.Core/Pathfinder.cs:231-234 | The atomic engine's bounds are the provider's, and its options are the settings' snapshot. |
| Pathfinders.AtomicPathfinder.constructor | atomic-pathfinding-source/Atomic.Pathfinding.Core/Pathfinder.cs:20-26 | A null settings argument becomes the defaults. The open set is new and empty. |
| Pathfinders.AtomicPathfinder.GetPath | atomic-pathfinding-source/Atomic.Pathfinding.Core/Pathfinder.cs:29-116 | An invalid destination throws and changes nothing. Otherwise the path is a searched answer, non-empty exactly when the destination is another reachable position. A non-empty path ends at the destination and leaves out the start. |
| Pathfinders.MigsPathfinder.SetupFor | migs-pathfinding-source/Migs.Pathfinding.Core/Pathfinder.cs:247-250 | The migs bounds are the extent cached at construction. |
| Pathfinders.MigsPathfinder.constructor | migs-pathfinding-source/Migs.Pathfinding.Core/Pathfinder.cs:22-32 | Caches the provider's extent and takes the settings' snapshot, or the defaults for null settings. The open set is new and empty. |
| Pathfinders.MigsPathfinder.GetPath | migs-pathfinding-source/Migs.Pathfinding.Core/Pathfinder.cs:35-132 | As the atomic `GetPath`, with the destination checked against the cached extent. |
| Pathfinders.SrcPathfinder.SetupFor | src/Atomic.Pathfinding.Core/Pathfinder.cs:234-237 | The src bounds are the constructor's width and height. The options are the settings with costs in place of multipliers. |
| Pathfinders.SrcPathfinder.constructor | src/Atomic.Pathfinding.Core/Pathfinder.cs:23-30 | Keeps the width and height. A null settings argument becomes the defaults, with costs 1 and 1.5. The open set is new and empty. |
| Pathfinders.SrcPathfinder.GetPath | src/Atomic.Pathfinding.Core/Pathfinder.cs:33-119 | As the atomic `GetPath`, over the provider passed in. |
| Pathfinders.TerrainPathfinder.SetupFor | src/Atomic.Pathfinding.Core/TerrainPathfinder.cs:222-225 | The terrain engine: the constructor's bounds, the additive cost rule, stale slots, and the bounds-checked footprint of `Neighbors.GetWalkableLocation`. |
| Pathfinders.TerrainPathfinder.constructor | src/Atomic.Pathfinding.Core/TerrainPathfinder.cs:23-31 | Keeps the width and height. A null settings argument becomes the defaults. The open set is new and empty. |
| Pathfinders.TerrainPathfinder.GetPath | src/Atomic.Pathfinding.Core/TerrainPathfinder.cs:34-117 | An invalid destination throws and changes nothing. Otherwise the grid facts stay as they were, the path is empty when the destination is the start, and an empty path to another position means it is unreachable. A non-empty path ends at the destination and leaves out the start. It covers any provider at least the engine's size. The clearance loop is the bounds-checked one. |
| TerrainClearance.RowMajorRead | atomic-pathfinding-unity/Assets/Demo/Code/Battlefield.cs:50-60 | The row-major `GetCellPointer`: inside the provider it is the cell's own index. One past a row's end it is the first cell of the next row. Below the last row it throws `IndexOutOfRangeException`. |
| TerrainClearance.GetWalkableLocationAsWritten | src/Atomic.Pathfinding.Core/TerrainPathfinder.cs:186-219 | The terrain clearance loop as written, anchor check and single-cell shortcut included, reading footprint cells with no bounds test. Its result is `WalkableLocationAsWritten`. |
| TerrainClearance.ScanInside | src/Atomic.Pathfinding.Core/TerrainPathfinder.cs:204-216 | While the footprint lies inside the engine's bounds, the unchecked loop passes exactly when every remaining footprint cell passes the checked test. |
| TerrainClearance.AsWrittenAgreesInside | src/Atomic.Pathfinding.Core/TerrainPathfinder.cs:186-219 | For a footprint inside the engine's bounds, the loop as written gives the bounds-checked candidate. The two differ only at the right and bottom edges. |
| TerrainClearance.RightEdgeWraps | src/Atomic.Pathfinding.Core/TerrainPathfinder.cs:204-216 | A Size-2 agent in the last column of an engine-sized provider: the loop reads (0, y + 1) and (0, y + 2), and accepts a cell the checked test rejects. |
| TerrainClearance.BottomEdgeThrows | src/Atomic.Pathfinding.Core/TerrainPathfinder.cs:204-216 | A Size-2 agent in the last row of an engine-sized provider: once the row's cells pass, the read below the buffer throws. The checked test gives null. |
| HeapOrder.RootIsMin | atomic-pathfinding-source/Atomic.Pathfinding.Core/Internal/FastPriorityQueue.cs:47-72 | In an ordered heap the root's key is the least. |
| HeapOrder.Swap | atomic-pathfinding-source/Atomic.Pathfinding.Core/Internal/FastPriorityQueue.cs:91-108 | The exchanged slots hold each other's values, and no other slot changes. |
| HeapOrder.UpStep | atomic-pathfinding-source/Atomic.Pathfinding.Core/Internal/FastPriorityQueue.cs:91-108 | Swapping a hole with a larger parent moves the one misordered place a level up. |
| HeapOrder.DownStep | atomic-pathfinding-source/Atomic.Pathfinding.Core/Internal/FastPriorityQueue.cs:111-154 | Swapping a hole with its smaller child moves the one misordered place a level down. |
| IndexedHeap.MembersAreEntries | atomic-pathfinding-source/Atomic.Pathfinding.Core/Internal/FastPriorityQueue.cs:75-78 | In a well-formed queue, an item passes `Contains` exactly when it occupies a slot, and slots 1..Count hold distinct items. |
| IndexedHeap.RootIsMinimal | src/Atomic.Pathfinding.Core/Internal/FastPriorityQueue.cs:32-52 | In an ordered queue the item at slot 1 has the least priority of all members. |
| IndexedHeap.SmallerChild | src/Atomic.Pathfinding.Core/Internal/FastPriorityQueue.cs:118-262 | The child `CascadeDown` compares with is the smaller one. On equal keys it is the right child in the src queues and the left one in the atomic queue. |
| IndexedHeap.SiftUpKeeps | atomic-pathfinding-source/Atomic.Pathfinding.Core/Internal/FastPriorityQueue.cs:91-108 | Sift-up keeps the members and the index/slot agreement, and restores heap order when only the item's place was out of order. |
| IndexedHeap.SiftDownKeeps | atomic-pathfinding-source/Atomic.Pathfinding.Core/Internal/FastPriorityQueue.cs:111-154 | The same for sift-down. |
| IndexedHeap.EnqueueKeeps | src/Atomic.Pathfinding.Core/Internal/FastPriorityQueue.cs:22-29 | Enqueue adds exactly the item and keeps an ordered heap ordered. |
| IndexedHeap.DequeueKeeps | src/Atomic.Pathfinding.Core/Internal/FastPriorityQueue.cs:32-52 | Dequeue removes exactly the root, empties the old last slot, and keeps an ordered heap ordered. |
| IndexedHeap.DequeueSifted | src/Atomic.Pathfinding.Core/Internal/FastPriorityQueue.cs:44-51 | With two or more members, moving the last node to the root and sifting it down removes exactly the root and keeps an ordered heap ordered. |
| IndexedHeap.UpdateKeeps | src/Atomic.Pathfinding.Core/Internal/FastPriorityQueue.cs:55-59 | A priority update followed by `OnItemUpdated` keeps the members, and re-sifts an ordered heap to an ordered one. |
| AtomicQueue.Grown | atomic-pathfinding-source/Atomic.Pathfinding.Core/Internal/FastPriorityQueue.cs:33-40 | The list grows by one slot exactly when `Count` reaches its length. |
| AtomicQueue.EnqueueResult | atomic-pathfinding-source/Atomic.Pathfinding.Core/Internal/FastPriorityQueue.cs:27-44 | After `Enqueue` the members are the old ones plus the item, and an ordered heap stays ordered. |
| AtomicQueue.FastPriorityQueue.Members | atomic-pathfinding-source/Atomic.Pathfinding.Core/Internal/FastPriorityQueue.cs:75-78 | `Contains` holds exactly for the cells in slots 1..Count, each held once. |
| AtomicQueue.FastPriorityQueue.constructor | atomic-pathfinding-source/Atomic.Pathfinding.Core/Internal/FastPriorityQueue.cs:16-24 | An empty queue whose list holds only the unused null slot 0. |
| AtomicQueue.FastPriorityQueue.Contains | atomic-pathfinding-source/Atomic.Pathfinding.Core/Internal/FastPriorityQueue.cs:75-78 | True exactly for a member: its `QueueIndex` is at most `Count`, and its slot holds it. |
| AtomicQueue.FastPriorityQueue.Clear | atomic-pathfinding-source/Atomic.Pathfinding.Core/Internal/FastPriorityQueue.cs:81-88 | Slots 1..Count become null and `Count` 0. The list keeps its length, so nothing is a member. |
| AtomicQueue.FastPriorityQueue.Enqueue | atomic-pathfinding-source/Atomic.Pathfinding.Core/Internal/FastPriorityQueue.cs:27-44 | Sets the cell's `ScoreF` and adds it, growing the list when full. The links are `EnqueueLinks`, the members are the old ones plus the item, and an ordered heap stays ordered. |
| AtomicQueue.EnqueuePlace | atomic-pathfinding-source/Atomic.Pathfinding.Core/Internal/FastPriorityQueue.cs:33-43 | Putting a non-member last keeps the links well formed, makes it a member, and then sifting it up is the reference enqueue `EnqueueLinks`. |
| AtomicQueue.FastPriorityQueue.Place | atomic-pathfinding-source/Atomic.Pathfinding.Core/Internal/FastPriorityQueue.cs:33-42 | The list part of `Enqueue`: the item stored last, `Count` one more, the item a member. |
| AtomicQueue.FastPriorityQueue.Dequeue | atomic-pathfinding-source/Atomic.Pathfinding.Core/Internal/FastPriorityQueue.cs:47-72 | An empty queue raises `InvalidOperationException` and changes nothing. Otherwise it returns the root, which is a least-`ScoreF` member of an ordered heap, and removes exactly it. |
| AtomicQueue.FastPriorityQueue.RemoveRoot | atomic-pathfinding-source/Atomic.Pathfinding.Core/Internal/FastPriorityQueue.cs:56-70 | With one member the root is nulled. Otherwise the last node moves to the root and is sifted down: the reference dequeue `DequeueLinks`, `Count` one less. |
| AtomicQueue.FastPriorityQueue.CascadeUp | atomic-pathfinding-source/Atomic.Pathfinding.Core/Internal/FastPriorityQueue.cs:91-108 | The loop computes the sift-up of the item. |
| AtomicQueue.FastPriorityQueue.CascadeDown | atomic-pathfinding-source/Atomic.Pathfinding.Core/Internal/FastPriorityQueue.cs:111-154 | The loop computes the sift-down of the item, taking the left child on ties. |
| SrcQueue.DownPass | src/Atomic.Pathfinding.Core/Internal/FastPriorityQueue.cs:118-262 | One pass of the src `CascadeDown` body, case by case, is one step of the right-on-tie sift-down. |
| SrcQueue.FastPriorityQueue.constructor | src/Atomic.Pathfinding.Core/Internal/FastPriorityQueue.cs:15-19 | An empty queue of `maxNodes` slots, 10000 by default. A `maxNodes` of 0 gives a queue without slots. |
| SrcQueue.FastPriorityQueue.Faster | src/Atomic.Pathfinding.Core/Internal/FasterPriorityQueue.cs:12-16 | An empty `FasterPriorityQueue` of `maxNodes + 1` slots. A `maxNodes` of -1 gives a queue without slots. |
| SrcQueue.FastPriorityQueue.Contains | src/Atomic.Pathfinding.Core/Internal/FastPriorityQueue.cs:62-65 | True exactly for a member. An item whose `QueueIndex` is 0 is never one. On a queue without slots the slot read raises `IndexOutOfRangeException`, and only there. |
| SrcQueue.FastPriorityQueue.Clear | src/Atomic.Pathfinding.Core/Internal/FastPriorityQueue.cs:68-72 | Slots 1..Count become null and `Count` 0. On a queue without slots the range from index 1 raises `IndexOutOfRangeException` and nothing changes. |
| SrcQueue.FastPriorityQueue.Enqueue | src/Atomic.Pathfinding.Core/Internal/FasterPriorityQueue.cs:19-26 | Sets the priority, increments `Count` and adds the item, so the members are the old ones plus the item and an ordered heap stays ordered. When `Count + 1` reaches the array length, the write past its end raises `IndexOutOfRangeException`, with `Count` already incremented. This includes every enqueue on a queue without slots. |
| SrcQueue.FastPriorityQueue.Place | src/Atomic.Pathfinding.Core/Internal/FasterPriorityQueue.cs:19-26 | The stored item sifted up gives the reference enqueue `EnqueueLinks`. |
| SrcQueue.FastPriorityQueue.Dequeue | src/Atomic.Pathfinding.Core/Internal/FasterPriorityQueue.cs:29-49 | An empty queue raises `IndexOutOfRangeException` when the array has at most one slot, and otherwise dereferences the null root (`NullReferenceException`). A non-empty queue returns the root, a least-priority member when the heap is ordered, and removes exactly it. |
| SrcQueue.FastPriorityQueue.RemoveRoot | src/Atomic.Pathfinding.Core/Internal/FasterPriorityQueue.cs:31-48 | The root removed as in the reference dequeue `DequeueLinks`, with the right child taken on ties. `Count` is one less. |
| SrcQueue.FastPriorityQueue.UpdatePriority | src/Atomic.Pathfinding.Core/Internal/FastPriorityQueue.cs:55-59 | The new priority is stored and the item re-sifted. The members are unchanged and an ordered heap stays ordered. |
| SrcQueue.FastPriorityQueue.OnItemUpdated | src/Atomic.Pathfinding.Core/Internal/FasterPriorityQueue.cs:271-280 | Sift-up when the item is now smaller than its parent, sift-down otherwise. |
| SrcQueue.FastPriorityQueue.CascadeUp | src/Atomic.Pathfinding.Core/Internal/FasterPriorityQueue.cs:72-112 | The loop computes the sift-up of the item. |
| SrcQueue.FastPriorityQueue.CascadeDown | src/Atomic.Pathfinding.Core/Internal/FasterPriorityQueue.cs:115-259 | The loop computes the sift-down of the item, taking the right child on ties. |
| SrcQueue.PriorityQueueItem.constructor | src/Atomic.Pathfinding.Core/Internal/FasterPriorityQueue.cs:290-296 | A new item holds its cell index, queue index 0 and priority 0. |
| SrcQueue.PriorityQueueItem.SetQueueIndex | src/Atomic.Pathfinding.Core/Internal/FasterPriorityQueue.cs:298-302 | Writes the queue index only. |
| SrcQueue.PriorityQueueItem.SetPriority | src/Atomic.Pathfinding.Core/Internal/FasterPriorityQueue.cs:304-308 | Writes the priority only. |
| SrcQueue.PriorityQueueItem.SetCellIndex | src/Atomic.Pathfinding.Core/Internal/FasterPriorityQueue.cs:310-314 | Writes the cell index only. |
| LocationGrids.LocationResetClears | src/Atomic.Pathfinding.Core/Internal/Location.cs:11-17 | `Reset` zeroes the scores and drops the parent, keeping the position. It is idempotent. |
| LocationGrids.RowsClearEach | src/Atomic.Pathfinding.Core/Internal/LocationGrid.cs:144-155 | The clearance loop passes exactly when every cell of the square is in the grid and walkable. |
| LocationGrids.FailedCell | src/Atomic.Pathfinding.Core/Internal/LocationGrid.cs:144-155 | One failing cell of the square makes the whole clearance test fail. |
| LocationGrids.CandidateMeans | src/Atomic.Pathfinding.Core/Internal/LocationGrid.cs:133-158 | `GetWalkableLocation(x, y, size)` is the location at (x, y) exactly when its cell and the whole square pass. Otherwise it is null. |
| LocationGrids.TableSlots | src/Atomic.Pathfinding.Core/Internal/LocationGrid.cs:63-104 | The neighbour array has eight entries, each the slot rule for its index. |
| LocationGrids.StepIsMove | src/Atomic.Pathfinding.Core/Internal/LocationGrid.cs:63-104 | Every non-null neighbour is a king move to a location the agent fits on. Without diagonals it is a cardinal move. |
| LocationGrids.LocationGrid.constructor | src/Atomic.Pathfinding.Core/Internal/LocationGrid.cs:37-56 | One fresh location per grid position, each holding its own position. The sets are empty and nothing is current. |
| LocationGrids.LocationGrid.GetLocation | src/Atomic.Pathfinding.Core/Internal/LocationGrid.cs:58-61 | The location at an in-grid position, or null outside the grid. |
| LocationGrids.LocationGrid.GetWalkableCell | src/Atomic.Pathfinding.Core/Internal/LocationGrid.cs:123-131 | The location when the position is in the grid and its cell is walkable and, if occupancy counts, not occupied. Otherwise null. |
| LocationGrids.LocationGrid.GetWalkableLocation | src/Atomic.Pathfinding.Core/Internal/LocationGrid.cs:133-158 | The clearance test, with no single-cell shortcut: the candidate location or null. |
| LocationGrids.LocationGrid.GetNeighbors | src/Atomic.Pathfinding.Core/Internal/LocationGrid.cs:63-104 | The shared array, nulled and then filled with the neighbour table of the position. |
| LocationGrids.LocationGrid.FillCardinals | src/Atomic.Pathfinding.Core/Internal/LocationGrid.cs:65-73 | The four cardinal slots set to their candidates, the diagonal slots unchanged. |
| LocationGrids.LocationGrid.FillDiagonals | src/Atomic.Pathfinding.Core/Internal/LocationGrid.cs:75-101 | Given the cardinals, each diagonal is filled by the slot rule: its candidate when diagonals are on and a guard cardinal is open or corner cutting is on, otherwise null. The whole table then follows the slot rule. |
| LocationGrids.LocationGrid.FillDiagonal | src/Atomic.Pathfinding.Core/Internal/LocationGrid.cs:83-101 | One diagonal slot set to its slot rule, every other slot unchanged. |
| LocationGrids.LocationGrid.Reset | src/Atomic.Pathfinding.Core/Internal/LocationGrid.cs:106-116 | The sets are emptied, nothing is current, and every location is reset. |
| LocationSearch.PreloadedGridsAmount | src/Atomic.Pathfinding.Core/AStar.cs:33-35 | The requested amount, raised to at least 1. |
| LocationSearch.GetScoreH | src/Atomic.Pathfinding.Core/AStar.cs:204-207 | The Manhattan distance, 0 exactly for equal positions. |
| LocationSearch.GetNeighborTravelWeight | src/Atomic.Pathfinding.Core/AStar.cs:192-202 | A distance over 2 throws. Distance 1 costs the straight cost, and distance 0 or 2 the diagonal cost. |
| LocationSearch.MovesHaveTravelWeight | src/Atomic.Pathfinding.Core/AStar.cs:132-134 | Along an allowed move the travel weight never throws, and it is the straight cost for cardinal and the diagonal cost for diagonal moves. |
| LocationSearch.Without | src/Atomic.Pathfinding.Core/AStar.cs:121 | `OpenSet.Remove`: every key but the removed one remains. |
| LocationSearch.WithoutDistinct | src/Atomic.Pathfinding.Core/AStar.cs:121 | Removing a key keeps the keys distinct. |
| LocationSearch.LineageShape | src/Atomic.Pathfinding.Core/AStar.cs:170-185 | Following parent links from a reached location gives a walk from the start to it. |
| LocationSearch.ClosedSetEncloses | src/Atomic.Pathfinding.Core/AStar.cs:111-156 | When the open set is empty and the goal was never dequeued, no walk reaches the goal. |
| LocationSearch.WalkStaysIn | src/Atomic.Pathfinding.Core/Internal/LocationGrid.cs:63-104 | A walk that starts inside a set no allowed move leaves stays inside it. |
| LocationSearch.StartKeeps | src/Atomic.Pathfinding.Core/AStar.cs:104-109 | After the reset, with the start the only open location and nothing closed, the invariant holds. |
| LocationSearch.CloseKeeps | src/Atomic.Pathfinding.Core/AStar.cs:120-121 | Closing the current location keeps the search invariant. |
| LocationSearch.RelaxKeeps | src/Atomic.Pathfinding.Core/AStar.cs:125-155 | One neighbour pass keeps the invariant and leaves the neighbour in the search. |
| LocationSearch.OfferAdopts | src/Atomic.Pathfinding.Core/CellBasedPathfinder.cs:118-133 | A new or improved neighbour takes the current location as parent, with the better G. |
| LocationSearch.Select | src/Atomic.Pathfinding.Core/AStar.cs:113 | `Current` becomes an open location. For `AStar` it is the first cheapest one and the open set is unchanged. For the cell-based queue it is removed. |
| LocationSearch.Close | src/Atomic.Pathfinding.Core/AStar.cs:120-121 | The current location joins the closed set. For `AStar` it also leaves the open set. |
| LocationSearch.Relax | src/Atomic.Pathfinding.Core/CellBasedPathfinder.cs:105-134 | One neighbour pass, as the relaxation step: a null or closed slot is skipped, a new neighbour is opened, an improved one is re-parented. |
| LocationSearch.OfferAStar | src/Atomic.Pathfinding.Core/AStar.cs:136-155 | The `AStar` offer of a G score to an unclosed neighbour is the reference offer `Offer`: a new neighbour gets its scores and parent and joins the open set, and a better one is re-parented. |
| LocationSearch.OfferCellBased | src/Atomic.Pathfinding.Core/CellBasedPathfinder.cs:116-133 | The cell-based offer is the reference offer `Offer` under the cell-based rule. |
| LocationSearch.RelaxSlots | src/Atomic.Pathfinding.Core/AStar.cs:125-155 | The `foreach` over all eight slots keeps the invariant. |
| LocationSearch.RelaxSlot | src/Atomic.Pathfinding.Core/AStar.cs:125-155 | One turn of the neighbour loop: slot k relaxed, what the earlier slots gave kept. |
| LocationSearch.Expand | src/Atomic.Pathfinding.Core/CellBasedPathfinder.cs:101-134 | Closing the location and relaxing its neighbours: the invariant holds again, and exactly that location joined the closed set. |
| LocationSearch.Explore | src/Atomic.Pathfinding.Core/AStar.cs:111-156 | The loop ends with the destination current and found, or with the destination unreachable. |
| LocationSearch.ReconstructWithList | src/Atomic.Pathfinding.Core/AStar.cs:170-185 | `list.Insert(0, …)` along parent links gives the lineage from the start to the last location. |
| LocationSearch.Reversed | src/Atomic.Pathfinding.Core/CellBasedPathfinder.cs:163 | `Stack.ToArray` lists the stack from the last push back to the first. |
| LocationSearch.ReconstructWithStack | src/Atomic.Pathfinding.Core/CellBasedPathfinder.cs:150-164 | Pushing along parent links and reading the stack out gives the same lineage, start first. |
| LocationSearch.ResultPath | src/Atomic.Pathfinding.Core/AStar.cs:158-163 | The path handed back is the start-to-destination lineage when the search stopped at the destination, and empty otherwise. Either way it answers the query. |
| LocationSearch.GetPathResult | src/Atomic.Pathfinding.Core/CellBasedPathfinder.cs:83-147 | A start outside the grid dereferences null and throws. Otherwise a path is returned exactly when the destination is reachable. It is a walk of allowed moves from the start to the destination, and just the start when the two are equal. |
| PathHelpers.GetLowestCostLocation | src/Atomic.Pathfinding.Core/Helpers/PathHelpers.cs:10-23 | Null for an empty dictionary. Otherwise the first entry, in enumeration order, of least `ScoreF`. |
| PathHelpers.FirstLowestUnique | src/Atomic.Pathfinding.Core/Helpers/PathHelpers.cs:10-23 | The first cheapest entry is unique, so the enumeration order determines the result. |
| AStars.AStar.constructor | src/Atomic.Pathfinding.Core/AStar.cs:25-41 | Default settings when none are given, and a pool of `max(1, preloadedGridsAmount)` location grids. |
| AStars.AStar.New | src/Atomic.Pathfinding.Core/AStar.cs:27-28 | A null or empty grid raises `EmptyGridException`. Otherwise the pathfinder is constructed. |
| AStars.AStar.CreateLocationGrid | src/Atomic.Pathfinding.Core/AStar.cs:96-100 | A new location grid is appended to the pool. |
| AStars.AStar.GetLocationGrid | src/Atomic.Pathfinding.Core/AStar.cs:72-94 | The front grid of the pool, created first when the pool is empty. |
| AStars.AStar.GetPath | src/Atomic.Pathfinding.Core/AStar.cs:58-70 | A search on a pooled grid: a path exactly when the destination is reachable. The pool loses its front grid, which goes back to its end when the search ends normally. An empty pool gets a fresh grid for the call. |
| AStars.AStar.Release | src/Atomic.Pathfinding.Core/AStar.cs:165 | The grid is re-enqueued at the end of the pool. |
| AStars.SlotPositionsAsWritten | src/Atomic.Pathfinding.Core/AStar.cs:125-127 | As written, the loop reads `neighbor.Position` of every slot. It throws exactly when some slot is null. |
| AStars.LeftColumnExpansionThrows | src/Atomic.Pathfinding.Core/AStar.cs:123-127 | Expanding a location of column 0 throws, because its West slot is null. |
| AStars.NoDiagonalExpansionThrows | src/Atomic.Pathfinding.Core/AStar.cs:123-127 | Without diagonal movement every expansion throws, because the diagonal slots stay null. |
| CellBased.CellBasedPathfinder.constructor | src/Atomic.Pathfinding.Core/CellBasedPathfinder.cs:30-47 | Default settings when none are given, and a pool of `max(1, preloadedGridsAmount)` location grids. |
| CellBased.CellBasedPathfinder.New | src/Atomic.Pathfinding.Core/CellBasedPathfinder.cs:33-34 | A null or empty grid raises `EmptyGridException`. |
| CellBased.CellBasedPathfinder.CreateLocationGrid | src/Atomic.Pathfinding.Core/CellBasedPathfinder.cs:76-80 | A new location grid is appended to the pool. |
| CellBased.CellBasedPathfinder.GetLocationGrid | src/Atomic.Pathfinding.Core/CellBasedPathfinder.cs:65-73 | The front grid of the pool, created first when the pool is empty. |
| CellBased.CellBasedPathfinder.GetPath | src/Atomic.Pathfinding.Core/CellBasedPathfinder.cs:50-62 | A search on a pooled grid: a path exactly when the destination is reachable. The pool loses its front grid, which goes back to its end when the search ends normally. An empty pool gets a fresh grid for the call. |
| CellBased.CellBasedPathfinder.Release | src/Atomic.Pathfinding.Core/CellBasedPathfinder.cs:144 | The grid is re-enqueued at the end of the pool. |
| CellBased.GetNeighborTravelWeightAsWritten | src/Atomic.Pathfinding.Core/CellBasedPathfinder.cs:173-183 | As written: a distance over 2 throws, and the distance is compared with `StraightMovementCost`. With straight cost 1 this agrees with the corrected weight. |
| CellBased.StraightCostSwapsWeights | src/Atomic.Pathfinding.Core/CellBasedPathfinder.cs:180 | With costs 2 and 3, the as-written weight charges 3 for a straight step and 2 for a diagonal one, the reverse of the corrected weight. |

## Left out

- The engines' `IAgent` is modelled only by its `Size`, which is all the engines read. `postCallbackToAgent` and `OnPathResult` are callbacks into outside code, and are left out.
- `AStar.GetPathAsync`, the `ConcurrentQueue` pool, the retry count and `LocationGridUnreachableException` exist for concurrent callers. The model is sequential, so the pool is a sequence and the retries cannot happen.
- `float` and `double` are modelled as `real`, with no IEEE rounding. The 0.01 tolerance comparisons are kept as written.
- A generic `Exception` ("Destination is not valid") is the error `InvalidDestination`. "Can travel only to neighbors" is `ArgumentOutOfRange`.
- `PathResult`:
  - a null path and an empty path are both the empty sequence;
  - `ReadOnlySpan`, `List` and array are all sequences;
  - the migs engine's `ArrayPool` rental is not modelled, so the aliasing of a returned span with a later rental is not captured.
- The src engines:
  - `Pathfinder<T>` declares a `FastPriorityQueue<T>` and `TerrainPathfinder<T>` a `FasterPriorityQueue<T>`, neither of which fits its call sites: an unmanaged `T*`, and a non-generic `FasterPriorityQueue`. The migs engine uses an `UnsafePriorityQueue` that is not part of this model.
  - So all four grid engines run on the atomic `FastPriorityQueue` model, whose list grows and never overflows. The fixed-capacity src queues are modelled on their own.
- GridSearch.FindPath: its requires asks for the start inside the provider, and the four `GetPath` methods ask the same. `ICellProvider` does not say what `GetCellPointer` returns outside the provider's extent. The providers in the sources throw there, or return a cell of another row.
- Pathfinders.TerrainPathfinder.GetPath: it does not state that a non-empty path is a walk, because stale diagonal slots can offer cells that no allowed move reaches.
- AtomicQueue.FastPriorityQueue.Enqueue: requires the cell not to be in the queue already. The engines only enqueue non-members, and the source would store a duplicate.
- SrcQueue.FastPriorityQueue.Enqueue: requires the item not to be in the queue, for the same reason.
- SrcQueue.FastPriorityQueue.UpdatePriority: proved on the queue alone. No modelled engine calls it.
- `PriorityQueueItem` references from terrain cells (`SetQueueItem`) are opaque values. The terrain engine's cell type is the grid `Cell` record.
- `CellBasedPathfinder`:
  - its `OpenSet` type is not part of this model: it has `Enqueue`, `Dequeue` and `Contains` on a `Dictionary` property. The model removes an arbitrary open location, not a cheapest one.
  - `Location` has no `IsClosed`, `SetParent` or `SetScoreG`. These are modelled as a closed set and as field writes.
- Dictionary enumeration order is modelled as insertion order, with removal keeping the order of the rest. .NET does not promise an order.
- `ParentCoordinate.Reset()` in the cell structs runs on the copy the property getter returns. The model therefore leaves the stored parent as it was.
- `Extensions.cs` (the tuple `X()` and `Y()` helpers) is not part of this model. Positions are `Coordinate` values.
- The tests in `AStarTests.cs` and `CellBasedPathfinderTests.cs` call an `AddAgent` API of another version. `TerrainPathfinderTests.cs` builds a non-generic `TerrainPathfinder` and passes it a `Cell[]`, also another version. None of them is modelled.
- The migs settings interface members beyond the six copied options are not read by the engine, and are left out.
- LocationSearch.OfferCellBased: takes the priority `CellBasedPathfinder` passes to `OpenSet.Enqueue` (G + H) to be the location's `ScoreF`, which line 128 compares against. The `OpenSet` and `Location` types that call uses are not part of this model. With `ScoreF` left at the 0 that `Reset` writes, no open location would ever be re-parented.
- Pathfinders.MigsPathfinder.constructor: for null settings it takes the defaults of the atomic `PathfinderSettings`, because the migs settings class is not part of this model.
- Pathfinders.SrcPathfinder.GetPath: its requires asks, through `Sane`, for the provider to be at least the engine's width and height, and `TerrainPathfinder.GetPath` asks the same. `ICellProvider` does not say what `GetCellPointer` returns outside the provider's extent. The providers in the sources throw there, or return a cell of another row.
- Pathfinders.SrcPathfinder.SetupFor: src `Pathfinder.cs` lines 124-125 read `StraightMovementMultiplier` and `DiagonalMovementMultiplier`, which src `PathfinderSettings.cs` does not declare. The model reads `StraightMovementCost` and `DiagonalMovementCost` in their place.
- Coordinates.ToStringRoundTrip: `$"{X}:{Y}"` formats with the current culture, whose negative sign need not be '-'. The model writes the ints as an invariant culture does.
- Coordinates.IntRoundTrip: does not state that the text of an int contains no ':'. `ToStringRoundTrip` proves the whole "X:Y" round trip on its own.

## Findings

| source | as written | input that shows it | evidently intended | confidence | as-written member | corrected member |
|---|---|---|---|---|---|---|
| src/Atomic.Pathfinding.Core/AStar.cs:127 | The neighbour loop calls `grid.ClosedSet.HasKey(neighbor.Position)` on every slot of `GetNeighbors`, whose unfilled slots are null. | Any expansion of a location in column 0, such as the tests' start (0, 8), or any expansion with diagonal movement off. | Skip null slots, as `CellBasedPathfinder` does at line 107. | not executed | AStars.SlotPositionsAsWritten, AStars.LeftColumnExpansionThrows, AStars.NoDiagonalExpansionThrows | LocationSearch.GetPathResult, AStars.AStar.GetPath |
| src/Atomic.Pathfinding.Core/CellBasedPathfinder.cs:180 | The Manhattan distance is compared with `StraightMovementCost`, not with the distance of a straight step (1, as `AStar` uses). | `StraightMovementCost = 2`, `DiagonalMovementCost = 3`: a straight step costs 3 and a diagonal one 2. | Compare the distance with 1, so that straight steps cost `StraightMovementCost`. | not executed | CellBased.GetNeighborTravelWeightAsWritten, CellBased.StraightCostSwapsWeights | LocationSearch.GetNeighborTravelWeight, LocationSearch.MovesHaveTravelWeight |
| src/Atomic.Pathfinding.Core/TerrainPathfinder.cs:205-216 | The clearance loop reads `x + nX, y + nY` with no `IsPositionValid` test. The src `Pathfinder.cs` makes that test at line 218. | An agent of `Size` 2 at column w − 1 of a provider the size of the engine, row-major as the demo `Battlefield`. Its footprint test looks at cell (0, y + 1) and can accept the cell. In the last row the read below the buffer throws. | Test each footprint cell with `IsPositionValid`, as src `Pathfinder.cs:218-219` does. | not executed | TerrainClearance.RightEdgeWraps, TerrainClearance.BottomEdgeThrows | Neighbors.GetWalkableLocation, Pathfinders.TerrainPathfinder.GetPath |
