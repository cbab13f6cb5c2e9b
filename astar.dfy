/**
 * `AStar`: a pool of `LocationGrid`s over one grid, and the dictionary-based
 * search of `LocationSearch` with the `AStarRule`. A search takes a grid
 * from the front of the pool and puts it back at the end.
 */
module AStars {
  import opened Outcomes
  import opened Coordinates
  import opened LocationGrids
  import opened LocationSearch
  import opened DirectionIndexes
  import SrcSettings
  import FastSettings
  import GridModel

  class AStar {
    const grid: Grid
    const settings: SrcSettings.PathfinderSettings
    var locationGrids: seq<LocationGrid>       // _locationGrids, front first

    /** Every pooled location grid is over this grid and these settings. */
    ghost predicate Valid()
      reads this, locationGrids
    {
      Rectangular(grid) &&
      forall i :: 0 <= i < |locationGrids| ==>
        locationGrids[i].Valid() && locationGrids[i].grid == grid && locationGrids[i].settings == settings
    }

    /** The options every search of this pathfinder reads. */
    function Options(): FastSettings.FastPathfinderSettings
      reads settings
    {
      SrcSettings.Snapshot(settings)
    }

    /**
     * The constructor past its empty-grid test: default settings when none
     * are given, and the preloaded location grids.
     */
    constructor (grid: Grid, settings: SrcSettings.PathfinderSettings?, preloadedGridsAmount: int)
      requires Rectangular(grid) && !IsEmptyGrid(Some(grid))
      ensures Valid() && this.grid == grid
      ensures settings != null ==> this.settings == settings
      ensures settings == null ==> fresh(this.settings) && Options() == SrcSettings.DefaultCosts()
      ensures |locationGrids| == PreloadedGridsAmount(preloadedGridsAmount)
      ensures forall i :: 0 <= i < |locationGrids| ==> fresh(locationGrids[i]) && fresh(locationGrids[i].neighbors)
    {
      var s := settings;
      if s == null {
        s := new SrcSettings.PathfinderSettings();
      }
      this.settings := s;
      this.grid := grid;
      var amount := PreloadedGridsAmount(preloadedGridsAmount);
      var pool: seq<LocationGrid> := [];
      for i := 0 to amount
        invariant |pool| == i
        invariant settings == null ==> SrcSettings.Snapshot(s) == SrcSettings.DefaultCosts()
        invariant forall j :: 0 <= j < i ==> pool[j].Valid() && pool[j].grid == grid && pool[j].settings == s &&
                                             fresh(pool[j]) && fresh(pool[j].neighbors)
      {
        var lg := new LocationGrid(grid, s);
        pool := pool + [lg];
      }
      locationGrids := pool;
    }

    /** `new AStar(grid, settings, preloadedGridsAmount)`: `EmptyGridException` for a null or empty grid. */
    static method New(grid: Option<Grid>, settings: SrcSettings.PathfinderSettings?, preloadedGridsAmount: int)
      returns (r: Result<AStar>)
      requires grid.Some? ==> Rectangular(grid.value)
      ensures r.Err? <==> IsEmptyGrid(grid)
      ensures r.Err? ==> r.error == EmptyGrid
      ensures r.Ok? ==> fresh(r.value) && r.value.Valid() && r.value.grid == grid.value &&
                        |r.value.locationGrids| == PreloadedGridsAmount(preloadedGridsAmount)
    {
      if IsEmptyGrid(grid) {
        return Err(EmptyGrid);
      }
      var a := new AStar(grid.value, settings, preloadedGridsAmount);
      r := Ok(a);
    }

    /** `CreateLocationGrid`: a new location grid at the end of the pool. */
    method CreateLocationGrid()
      requires Valid()
      modifies this
      ensures Valid() && |locationGrids| == |old(locationGrids)| + 1
      ensures locationGrids[..|old(locationGrids)|] == old(locationGrids)
      ensures fresh(locationGrids[|locationGrids| - 1]) && fresh(locationGrids[|locationGrids| - 1].neighbors)
    {
      var lg := new LocationGrid(grid, settings);
      locationGrids := locationGrids + [lg];
    }

    /**
     * `GetLocationGrid`: the front of the pool, created first when the pool
     * is empty. The retries exist for concurrent callers only.
     */
    method GetLocationGrid() returns (lg: LocationGrid)
      requires Valid()
      modifies this
      ensures Valid() && lg.Valid() && lg.grid == grid && lg.settings == settings
      ensures old(locationGrids) == [] ==> locationGrids == [] && fresh(lg) && fresh(lg.neighbors)
      ensures old(locationGrids) != [] ==> lg == old(locationGrids[0]) && locationGrids == old(locationGrids[1..])
    {
      if |locationGrids| == 0 {
        CreateLocationGrid();
      }
      lg := locationGrids[0];
      locationGrids := locationGrids[1..];
    }

    /**
     * `GetPath`: a search on a pooled location grid. The grid returns to the
     * pool when the search ends normally; the exception for a start outside
     * the grid leaves it out. The path is empty exactly when the destination
     * cannot be reached; otherwise it is a walk from the start to it.
     */
    method GetPath(agentSize: int, from: Coordinate, to: Coordinate) returns (r: Result<GridModel.PathResult>)
      requires Valid()
      modifies this, locationGrids, set i | 0 <= i < |locationGrids| :: locationGrids[i].neighbors
      ensures Valid()
      ensures r.Err? <==> !InGrid(grid, from.x, from.y)
      ensures r.Err? ==> r.error == NullReference
      ensures r.Ok? ==> Answers(grid, Options(), agentSize, from, to, r.value.path)
      ensures r.Ok? ==> (r.value.IsPathFound() <==> Reachable(grid, Options(), agentSize, from, to))
      ensures |locationGrids| == (if old(locationGrids) == [] then 1 else |old(locationGrids)|) - (if r.Ok? then 0 else 1)
      ensures old(locationGrids) != [] ==>
                locationGrids == old(locationGrids[1..]) + (if r.Ok? then [old(locationGrids[0])] else [])
      ensures old(locationGrids) == [] ==> r.Ok? ==> fresh(locationGrids[0]) && fresh(locationGrids[0].neighbors)
    {
      var lg := GetLocationGrid();
      r := GetPathResult(lg, AStarRule, agentSize, from, to);
      if r.Ok? {
        Release(lg);
      }
    }

    /** `_locationGrids.Enqueue(grid)`: a location grid back at the end of the pool. */
    method Release(lg: LocationGrid)
      requires Valid() && lg.Valid() && lg.grid == grid && lg.settings == settings
      modifies this
      ensures Valid() && locationGrids == old(locationGrids) + [lg]
    {
      locationGrids := locationGrids + [lg];
    }
  }

  /**
   * The neighbour loop of `AStar` as written: it reads `neighbor.Position`
   * of every slot, and an empty slot is null. The positions read, in slot
   * order, or the exception at the first null slot.
   */
  function SlotPositionsAsWritten(table: seq<Option<Coordinate>>): (r: Result<seq<Coordinate>>)
    ensures r.Err? <==> None in table
    ensures r.Err? ==> r.error == NullReference
    ensures r.Ok? ==> |r.value| == |table| && forall k :: 0 <= k < |table| ==> table[k] == Some(r.value[k])
  {
    if table == [] then Ok([])
    else if table[0].None? then Err(NullReference)
    else match SlotPositionsAsWritten(table[1..])
      case Err(e) => Err(e)
      case Ok(positions) => Ok([table[0].value] + positions)
  }

  /**
   * A location in the leftmost column has no left neighbour, so expanding
   * it throws; the start (0, 8) of the tests is one.
   */
  lemma LeftColumnExpansionThrows(g: Grid, s: FastSettings.FastPathfinderSettings, c: Coordinate, size: int)
    requires Rectangular(g) && c.x == 0
    ensures SlotPositionsAsWritten(NeighborTable(g, s, c, size)) == Err(NullReference)
  {
    TableSlots(g, s, c, size);
    assert NeighborTable(g, s, c, size)[West] == None;
  }

  /** Without diagonal movement the diagonal slots stay null, so every expansion throws. */
  lemma NoDiagonalExpansionThrows(g: Grid, s: FastSettings.FastPathfinderSettings, c: Coordinate, size: int)
    requires Rectangular(g) && !s.isDiagonalMovementEnabled
    ensures SlotPositionsAsWritten(NeighborTable(g, s, c, size)) == Err(NullReference)
  {
    TableSlots(g, s, c, size);
    assert NeighborTable(g, s, c, size)[SouthWest] == None;
  }
}
