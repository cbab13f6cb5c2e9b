/**
 * `CellBasedPathfinder`: the same pool of `LocationGrid`s as `AStar`, and
 * the search of `LocationSearch` with the `CellBasedRule`: the open set is
 * a priority queue, and a known location is improved when its new score
 * plus its heuristic beats its old total.
 */
module CellBased {
  import opened Outcomes
  import opened Coordinates
  import opened LocationGrids
  import opened LocationSearch
  import SrcSettings
  import FastSettings
  import GridModel

  class CellBasedPathfinder {
    const grid: Grid
    const settings: SrcSettings.PathfinderSettings
    var locationGrids: seq<LocationGrid>       // _locationGrids, front first

    /** Every pooled location grid is over this grid and these settings. */
    ghost predicate Valid()
      reads this, locationGrids
    {
      Rectangular(grid) &&
      forall i :: 0 <= i < |locationGrids| ==>
        locationGrids[i].Valid() && locationGrids[i].grid == grid && locationGrids[i].settings == settings
    }

    /** The options every search of this pathfinder reads. */
    function Options(): FastSettings.FastPathfinderSettings
      reads settings
    {
      SrcSettings.Snapshot(settings)
    }

    /**
     * The constructor past its empty-grid test: default settings when none
     * are given, and the preloaded location grids.
     */
    constructor (grid: Grid, settings: SrcSettings.PathfinderSettings?, preloadedGridsAmount: int)
      requires Rectangular(grid) && !IsEmptyGrid(Some(grid))
      ensures Valid() && this.grid == grid
      ensures settings != null ==> this.settings == settings
      ensures settings == null ==> fresh(this.settings) && Options() == SrcSettings.DefaultCosts()
      ensures |locationGrids| == PreloadedGridsAmount(preloadedGridsAmount)
      ensures forall i :: 0 <= i < |locationGrids| ==> fresh(locationGrids[i]) && fresh(locationGrids[i].neighbors)
    {
      var s := settings;
      if s == null {
        s := new SrcSettings.PathfinderSettings();
      }
      this.settings := s;
      this.grid := grid;
      var amount := PreloadedGridsAmount(preloadedGridsAmount);
      var pool: seq<LocationGrid> := [];
      for i := 0 to amount
        invariant |pool| == i
        invariant settings == null ==> SrcSettings.Snapshot(s) == SrcSettings.DefaultCosts()
        invariant forall j :: 0 <= j < i ==> pool[j].Valid() && pool[j].grid == grid && pool[j].settings == s &&
                                             fresh(pool[j]) && fresh(pool[j].neighbors)
      {
        var lg := new LocationGrid(grid, s);
        pool := pool + [lg];
      }
      locationGrids := pool;
    }

    /** `new CellBasedPathfinder(grid, settings, preloadedGridsAmount)`: `EmptyGridException` for a null or empty grid. */
    static method New(grid: Option<Grid>, settings: SrcSettings.PathfinderSettings?, preloadedGridsAmount: int)
      returns (r: Result<CellBasedPathfinder>)
      requires grid.Some? ==> Rectangular(grid.value)
      ensures r.Err? <==> IsEmptyGrid(grid)
      ensures r.Err? ==> r.error == EmptyGrid
      ensures r.Ok? ==> fresh(r.value) && r.value.Valid() && r.value.grid == grid.value &&
                        |r.value.locationGrids| == PreloadedGridsAmount(preloadedGridsAmount)
    {
      if IsEmptyGrid(grid) {
        return Err(EmptyGrid);
      }
      var p := new CellBasedPathfinder(grid.value, settings, preloadedGridsAmount);
      r := Ok(p);
    }

    /** `CreateLocationGrid`: a new location grid at the end of the pool. */
    method CreateLocationGrid()
      requires Valid()
      modifies this
      ensures Valid() && |locationGrids| == |old(locationGrids)| + 1
      ensures locationGrids[..|old(locationGrids)|] == old(locationGrids)
      ensures fresh(locationGrids[|locationGrids| - 1]) && fresh(locationGrids[|locationGrids| - 1].neighbors)
    {
      var lg := new LocationGrid(grid, settings);
      locationGrids := locationGrids + [lg];
    }

    /** `GetLocationGrid`: the front of the pool, created first when the pool is empty. */
    method GetLocationGrid() returns (lg: LocationGrid)
      requires Valid()
      modifies this
      ensures Valid() && lg.Valid() && lg.grid == grid && lg.settings == settings
      ensures old(locationGrids) == [] ==> locationGrids == [] && fresh(lg) && fresh(lg.neighbors)
      ensures old(locationGrids) != [] ==> lg == old(locationGrids[0]) && locationGrids == old(locationGrids[1..])
    {
      if |locationGrids| == 0 {
        CreateLocationGrid();
      }
      lg := locationGrids[0];
      locationGrids := locationGrids[1..];
    }

    /**
     * `GetPath`: a search on a pooled location grid, which goes back to the
     * pool at the end of `GetPathResult`. A start outside the grid has a
     * null location, and enqueuing it throws (a priority queue's `Enqueue`
     * writes the item's priority first) before the grid is put back.
     * Otherwise the path is empty exactly when the destination cannot be
     * reached, and is a walk from the start to it when it can.
     */
    method GetPath(agentSize: int, from: Coordinate, to: Coordinate) returns (r: Result<GridModel.PathResult>)
      requires Valid()
      modifies this, locationGrids, set i | 0 <= i < |locationGrids| :: locationGrids[i].neighbors
      ensures Valid()
      ensures r.Err? <==> !InGrid(grid, from.x, from.y)
      ensures r.Err? ==> r.error == NullReference
      ensures r.Ok? ==> Answers(grid, Options(), agentSize, from, to, r.value.path)
      ensures r.Ok? ==> (r.value.IsPathFound() <==> Reachable(grid, Options(), agentSize, from, to))
      ensures |locationGrids| == (if old(locationGrids) == [] then 1 else |old(locationGrids)|) - (if r.Ok? then 0 else 1)
      ensures old(locationGrids) != [] ==>
                locationGrids == old(locationGrids[1..]) + (if r.Ok? then [old(locationGrids[0])] else [])
      ensures old(locationGrids) == [] ==> r.Ok? ==> fresh(locationGrids[0]) && fresh(locationGrids[0].neighbors)
    {
      var lg := GetLocationGrid();
      r := GetPathResult(lg, CellBasedRule, agentSize, from, to);
      if r.Ok? {
        Release(lg);
      }
    }

    /** `_locationGrids.Enqueue(grid)`: a location grid back at the end of the pool. */
    method Release(lg: LocationGrid)
      requires Valid() && lg.Valid() && lg.grid == grid && lg.settings == settings
      modifies this
      ensures Valid() && locationGrids == old(locationGrids) + [lg]
    {
      locationGrids := locationGrids + [lg];
    }
  }

  /**
   * `GetNeighborTravelWeight` of `CellBasedPathfinder` as written: it tests
   * the distance against the straight movement cost rather than against the
   * distance of one straight move. It agrees with the corrected weight
   * whenever the straight cost is 1, as with the default settings.
   */
  function GetNeighborTravelWeightAsWritten(s: FastSettings.FastPathfinderSettings, start: Coordinate, destination: Coordinate)
    : (r: Result<real>)
    ensures r.Err? <==> GetScoreH(start, destination) > MaxHScoreBetweenNeighbors
    ensures r.Err? ==> r.error == ArgumentOutOfRange
    ensures s.straightMovementMultiplier == HScorePerStraightMovement ==> r == GetNeighborTravelWeight(s, start, destination)
  {
    if GetScoreH(start, destination) > MaxHScoreBetweenNeighbors then Err(ArgumentOutOfRange)
    else if RealAbs(GetScoreH(start, destination) as real - s.straightMovementMultiplier) < CostTolerance
    then Ok(s.straightMovementMultiplier)
    else Ok(s.diagonalMovementMultiplier)
  }

  /**
   * With a straight cost of 2 and a diagonal cost of 3, the weight as
   * written charges 3 for a straight move and 2 for a diagonal one: the
   * two costs trade places. The corrected weight charges 2 and 3.
   */
  lemma StraightCostSwapsWeights()
    ensures var s := FastSettings.FastPathfinderSettings(true, true, false, true, 2.0, 3.0);
            var o, e, ne := Coordinate(0, 0), Coordinate(1, 0), Coordinate(1, 1);
            GetNeighborTravelWeightAsWritten(s, o, e) == Ok(3.0) &&
            GetNeighborTravelWeightAsWritten(s, o, ne) == Ok(2.0) &&
            GetNeighborTravelWeight(s, o, e) == Ok(2.0) &&
            GetNeighborTravelWeight(s, o, ne) == Ok(3.0)
  {
    var o, e, ne := Coordinate(0, 0), Coordinate(1, 0), Coordinate(1, 1);
    assert GetScoreH(o, e) == 1;
    assert GetScoreH(o, ne) == 2;
  }
}
