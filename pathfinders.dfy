/**
 * The four grid pathfinder classes. Each keeps its options, its bounds and
 * one open set across calls, and `GetPath` runs the shared search
 * (`GridSearch.FindPath`) over a cell provider with the fixed inputs the
 * class supplies: the provider's extent, the engine's own bounds, the
 * agent's size, the options and the engine variant.
 *
 * The agent (`IAgent`) is its `Size`, the only member the engines read.
 */
module Pathfinders {
  import opened Outcomes
  import opened Coordinates
  import opened Cells
  import opened GridModel
  import opened CellProviders
  import opened AtomicQueue
  import opened GridSearch
  import AtomicSettings
  import SrcSettings
  import opened FastSettings

  /** Distinct positions inside the provider are distinct cells. */
  lemma AtInjective(g: Setup, cs: seq<Cell>, a: Coordinate, b: Coordinate)
    requires Laid(cs, g.pw, g.ph) && InProvider(g, a) && InProvider(g, b)
    ensures At(g, a) == At(g, b) <==> a == b
  {
    CoordinateAtCell(g, cs, a.x, a.y);
    CoordinateAtCell(g, cs, b.x, b.y);
  }

  /**
   * The outcome of a scaled-engine search for a valid destination: the
   * path is non-empty exactly when the destination is another position
   * some walk from the start reaches.
   */
  lemma ScaledOutcome(g: Setup, cs0: seq<Cell>, cs: seq<Cell>, from: Coordinate, to: Coordinate,
                      path: seq<Coordinate>, trail: seq<int>)
    requires Sane(g) && Laid(cs0, g.pw, g.ph) && |cs| == |cs0| && InProvider(g, from) && InProvider(g, to)
    requires g.variant.clearsSkippedSlots && Searched(g, cs0, cs, At(g, from), At(g, to), path, trail)
    ensures path != [] <==> from != to && Reachable(g, cs0, At(g, from), At(g, to))
  {
    AtInjective(g, cs0, from, to);
    SearchedExactly(g, cs0, cs, At(g, from), At(g, to), path, trail);
  }

  /** The atomic `Pathfinder`: bounds and options are the provider's and the settings object's. */
  class AtomicPathfinder {
    const settings: AtomicSettings.PathfinderSettings
    const cellProvider: CellProvider
    const openSet: FastPriorityQueue

    ghost predicate Valid()
      reads this, cellProvider, cellProvider.cells, openSet
    {
      cellProvider.Valid() && openSet.Reusable()
    }

    /** The fixed inputs of a search for an agent of the given size. */
    function SetupFor(agentSize: int): (g: Setup)
      reads this, settings, cellProvider
      ensures g.variant == ScaledEngine && g.agentSize == agentSize && g.s == FromSettings(settings)
      ensures g.w == g.pw == cellProvider.width && g.h == g.ph == cellProvider.height
    {
      Setup(cellProvider.width, cellProvider.height, cellProvider.width, cellProvider.height, agentSize,
            FromSettings(settings), ScaledEngine)
    }

    /** A null settings argument is replaced by the defaults; the open set is sized to the grid. */
    constructor (cellProvider: CellProvider, settings: AtomicSettings.PathfinderSettings?)
      requires cellProvider.Valid()
      ensures this.cellProvider == cellProvider
      ensures settings != null ==> this.settings == settings
      ensures settings == null ==> fresh(this.settings) && FromSettings(this.settings) == DefaultOptions()
      ensures fresh(openSet) && openSet.count == 0 && Valid()
    {
      this.cellProvider := cellProvider;
      var s := settings;
      if s == null {
        s := new AtomicSettings.PathfinderSettings();
      }
      this.settings := s;
      openSet := new FastPriorityQueue(Some(cellProvider.width * cellProvider.height));
    }

    /**
     * `GetPath`: an invalid destination is an error and changes nothing;
     * otherwise the search runs over the provider's cells, and the path is
     * non-empty exactly when the destination is reachable and not the start.
     */
    method GetPath(agentSize: int, from: Coordinate, to: Coordinate) returns (r: Result<PathResult>, ghost trail: seq<int>)
      requires Valid() && InProvider(SetupFor(agentSize), from)
      modifies cellProvider.cells, openSet
      ensures Valid()
      ensures !IsPositionValid(to.x, to.y, cellProvider.width, cellProvider.height) <==> r == Err(InvalidDestination)
      ensures r.Err? ==> unchanged(cellProvider.cells) && unchanged(openSet)
      ensures r.Ok? ==>
                var g := SetupFor(agentSize);
                SameGrid(old(cellProvider.cells[..]), cellProvider.cells[..]) && InProvider(g, to) &&
                Searched(g, old(cellProvider.cells[..]), cellProvider.cells[..], At(g, from), At(g, to), r.value.path, trail) &&
                (r.value.path != [] <==> from != to && Reachable(g, old(cellProvider.cells[..]), At(g, from), At(g, to)))
    {
      var g := SetupFor(agentSize);
      r, trail := FindPath(cellProvider, openSet, g, from, to);
      if r.Ok? {
        ScaledOutcome(g, old(cellProvider.cells[..]), cellProvider.cells[..], from, to, r.value.path, trail);
      }
    }
  }

  /** The options of a default `PathfinderSettings`, as the engines read them. */
  function DefaultOptions(): (o: FastPathfinderSettings)
    ensures o.isDiagonalMovementEnabled && o.isCalculatingOccupiedCells && o.isCellWeightEnabled
    ensures !o.isMovementBetweenCornersEnabled
    ensures o.straightMovementMultiplier == 1.0 && o.diagonalMovementMultiplier == 1.41
  {
    FastPathfinderSettings(true, true, false, true, 1.0, 1.41)
  }

  /**
   * The migs `Pathfinder`: the provider's extent is cached at construction,
   * the options are snapshot once, and the open set's initial buffer is
   * the settings' `InitialBufferSize` (none for a null settings argument).
   */
  class MigsPathfinder {
    const settings: FastPathfinderSettings
    const cellProvider: CellProvider
    const openSet: FastPriorityQueue
    const width: int
    const height: int

    ghost predicate Valid()
      reads this, cellProvider, cellProvider.cells, openSet
    {
      cellProvider.Valid() && openSet.Reusable() && width == cellProvider.width && height == cellProvider.height
    }

    function SetupFor(agentSize: int): (g: Setup)
      reads this, cellProvider
      ensures g.variant == ScaledEngine && g.agentSize == agentSize && g.s == settings
      ensures g.pw == cellProvider.width && g.ph == cellProvider.height && g.w == width && g.h == height
    {
      Setup(cellProvider.width, cellProvider.height, width, height, agentSize, settings, ScaledEngine)
    }

    constructor (cellProvider: CellProvider, settings: AtomicSettings.PathfinderSettings?)
      requires cellProvider.Valid()
      requires settings != null && settings.initialBufferSize.Some? ==> settings.initialBufferSize.value >= 0
      ensures this.cellProvider == cellProvider && width == cellProvider.width && height == cellProvider.height
      ensures this.settings == if settings == null then DefaultOptions() else FromSettings(settings)
      ensures fresh(openSet) && openSet.count == 0 && Valid()
    {
      this.cellProvider := cellProvider;
      width := cellProvider.width;
      height := cellProvider.height;
      var s := settings;
      if s == null {
        s := new AtomicSettings.PathfinderSettings();
      }
      this.settings := FromSettings(s);
      openSet := new FastPriorityQueue(if settings == null then None else settings.initialBufferSize);
    }

    /** `GetPath`, with positions checked against the cached extent. */
    method GetPath(agentSize: int, from: Coordinate, to: Coordinate) returns (r: Result<PathResult>, ghost trail: seq<int>)
      requires Valid() && InProvider(SetupFor(agentSize), from)
      modifies cellProvider.cells, openSet
      ensures Valid()
      ensures !IsPositionValid(to.x, to.y, width, height) <==> r == Err(InvalidDestination)
      ensures r.Err? ==> unchanged(cellProvider.cells) && unchanged(openSet)
      ensures r.Ok? ==>
                var g := SetupFor(agentSize);
                SameGrid(old(cellProvider.cells[..]), cellProvider.cells[..]) && InProvider(g, to) &&
                Searched(g, old(cellProvider.cells[..]), cellProvider.cells[..], At(g, from), At(g, to), r.value.path, trail) &&
                (r.value.path != [] <==> from != to && Reachable(g, old(cellProvider.cells[..]), At(g, from), At(g, to)))
    {
      var g := SetupFor(agentSize);
      r, trail := FindPath(cellProvider, openSet, g, from, to);
      if r.Ok? {
        ScaledOutcome(g, old(cellProvider.cells[..]), cellProvider.cells[..], from, to, r.value.path, trail);
      }
    }
  }

  /**
   * The src `Pathfinder<T>`: the bounds are the constructor's arguments and
   * the provider is passed to each call; the engine bounds must lie inside
   * every provider it searches.
   */
  class SrcPathfinder {
    const settings: SrcSettings.PathfinderSettings
    const width: int
    const height: int
    const openSet: FastPriorityQueue

    ghost predicate Valid()
      reads this, openSet
    {
      openSet.Reusable()
    }

    function SetupFor(provider: CellProvider, agentSize: int): (g: Setup)
      reads this, settings, provider
      ensures g.variant == ScaledEngine && g.agentSize == agentSize && g.s == SrcSettings.Snapshot(settings)
      ensures g.pw == provider.width && g.ph == provider.height && g.w == width && g.h == height
    {
      Setup(provider.width, provider.height, width, height, agentSize, SrcSettings.Snapshot(settings), ScaledEngine)
    }

    /** The open set has room for `width * height` cells. */
    constructor (width: int, height: int, settings: SrcSettings.PathfinderSettings?)
      requires width * height >= 0
      ensures this.width == width && this.height == height
      ensures settings != null ==> this.settings == settings
      ensures settings == null ==> fresh(this.settings) && SrcSettings.Snapshot(this.settings) == SrcSettings.DefaultCosts()
      ensures fresh(openSet) && openSet.count == 0 && Valid()
    {
      var s := settings;
      if s == null {
        s := new SrcSettings.PathfinderSettings();
      }
      this.settings := s;
      this.width := width;
      this.height := height;
      openSet := new FastPriorityQueue(Some(width * height));
    }

    method GetPath(provider: CellProvider, agentSize: int, from: Coordinate, to: Coordinate)
      returns (r: Result<PathResult>, ghost trail: seq<int>)
      requires Valid() && provider.Valid() && Sane(SetupFor(provider, agentSize)) && InProvider(SetupFor(provider, agentSize), from)
      modifies provider.cells, openSet
      ensures Valid() && provider.Valid()
      ensures !IsPositionValid(to.x, to.y, width, height) <==> r == Err(InvalidDestination)
      ensures r.Err? ==> unchanged(provider.cells) && unchanged(openSet)
      ensures r.Ok? ==>
                var g := SetupFor(provider, agentSize);
                SameGrid(old(provider.cells[..]), provider.cells[..]) && InProvider(g, to) &&
                Searched(g, old(provider.cells[..]), provider.cells[..], At(g, from), At(g, to), r.value.path, trail) &&
                (r.value.path != [] <==> from != to && Reachable(g, old(provider.cells[..]), At(g, from), At(g, to)))
    {
      var g := SetupFor(provider, agentSize);
      r, trail := FindPath(provider, openSet, g, from, to);
      if r.Ok? {
        ScaledOutcome(g, old(provider.cells[..]), provider.cells[..], from, to, r.value.path, trail);
      }
    }
  }

  /**
   * The src `TerrainPathfinder<T>`: as the src `Pathfinder<T>`, with the
   * additive cost rule and stale diagonal slots. Its ends are as the other engines', but a path may
   * pass through a cell taken from a stale slot, so it need not be a walk.
   */
  class TerrainPathfinder {
    const settings: SrcSettings.PathfinderSettings
    const width: int
    const height: int
    const openSet: FastPriorityQueue

    ghost predicate Valid()
      reads this, openSet
    {
      openSet.Reusable()
    }

    function SetupFor(provider: CellProvider, agentSize: int): (g: Setup)
      reads this, settings, provider
      ensures g.variant == TerrainEngine && g.agentSize == agentSize && g.s == SrcSettings.Snapshot(settings)
      ensures g.pw == provider.width && g.ph == provider.height && g.w == width && g.h == height
    {
      Setup(provider.width, provider.height, width, height, agentSize, SrcSettings.Snapshot(settings), TerrainEngine)
    }

    constructor (width: int, height: int, settings: SrcSettings.PathfinderSettings?)
      requires width * height >= 0
      ensures this.width == width && this.height == height
      ensures settings != null ==> this.settings == settings
      ensures settings == null ==> fresh(this.settings) && SrcSettings.Snapshot(this.settings) == SrcSettings.DefaultCosts()
      ensures fresh(openSet) && openSet.count == 0 && Valid()
    {
      var s := settings;
      if s == null {
        s := new SrcSettings.PathfinderSettings();
      }
      this.settings := s;
      this.width := width;
      this.height := height;
      openSet := new FastPriorityQueue(Some(width * height));
    }

    method GetPath(provider: CellProvider, agentSize: int, from: Coordinate, to: Coordinate)
      returns (r: Result<PathResult>, ghost trail: seq<int>)
      requires Valid() && provider.Valid() && Sane(SetupFor(provider, agentSize)) && InProvider(SetupFor(provider, agentSize), from)
      modifies provider.cells, openSet
      ensures Valid() && provider.Valid()
      ensures !IsPositionValid(to.x, to.y, width, height) <==> r == Err(InvalidDestination)
      ensures r.Err? ==> unchanged(provider.cells) && unchanged(openSet)
      ensures r.Ok? ==>
                var g := SetupFor(provider, agentSize);
                SameGrid(old(provider.cells[..]), provider.cells[..]) && InProvider(g, to) &&
                Searched(g, old(provider.cells[..]), provider.cells[..], At(g, from), At(g, to), r.value.path, trail) &&
                (from == to ==> r.value.path == [])
    {
      var g := SetupFor(provider, agentSize);
      r, trail := FindPath(provider, openSet, g, from, to);
    }
  }
}
