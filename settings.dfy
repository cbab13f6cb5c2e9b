/**
 * The options objects. `PathfinderSettings` (atomic engine, also read by the
 * migs engine) and the src `PathfinderSettings` are C# classes with public
 * setters, so they are Dafny classes whose fields the caller may change
 * between searches. `FastPathfinderSettings` is a readonly struct, so it is
 * a datatype value.
 */
module AtomicSettings {
  import opened Outcomes

  class PathfinderSettings {
    var isDiagonalMovementEnabled: bool
    var isCalculatingOccupiedCells: bool
    var isMovementBetweenCornersEnabled: bool
    var isCellWeightEnabled: bool
    var straightMovementMultiplier: real
    var diagonalMovementMultiplier: real
    var initialBufferSize: Option<int>

    /** The property initialisers: diagonals on, occupancy counted, no corner cutting, weights on, 1 and 1.41. */
    constructor ()
      ensures isDiagonalMovementEnabled && isCalculatingOccupiedCells
      ensures !isMovementBetweenCornersEnabled && isCellWeightEnabled
      ensures straightMovementMultiplier == 1.0 && diagonalMovementMultiplier == 1.41
      ensures initialBufferSize == None
    {
      isDiagonalMovementEnabled := true;
      isCalculatingOccupiedCells := true;
      isMovementBetweenCornersEnabled := false;
      isCellWeightEnabled := true;
      straightMovementMultiplier := 1.0;
      diagonalMovementMultiplier := 1.41;
      initialBufferSize := None;
    }
  }
}

module FastSettings {
  import AtomicSettings

  /** The readonly snapshot; the datatype constructor plays the private constructor. */
  datatype FastPathfinderSettings = FastPathfinderSettings(
    isDiagonalMovementEnabled: bool,
    isCalculatingOccupiedCells: bool,
    isMovementBetweenCornersEnabled: bool,
    isCellWeightEnabled: bool,
    straightMovementMultiplier: real,
    diagonalMovementMultiplier: real)

  /** `FromSettings`: copies the four flags and the two multipliers. */
  function FromSettings(s: AtomicSettings.PathfinderSettings): (r: FastPathfinderSettings)
    reads s
    ensures r.isDiagonalMovementEnabled == s.isDiagonalMovementEnabled
    ensures r.isCalculatingOccupiedCells == s.isCalculatingOccupiedCells
    ensures r.isMovementBetweenCornersEnabled == s.isMovementBetweenCornersEnabled
    ensures r.isCellWeightEnabled == s.isCellWeightEnabled
    ensures r.straightMovementMultiplier == s.straightMovementMultiplier
    ensures r.diagonalMovementMultiplier == s.diagonalMovementMultiplier
  {
    FastPathfinderSettings(s.isDiagonalMovementEnabled, s.isCalculatingOccupiedCells,
      s.isMovementBetweenCornersEnabled, s.isCellWeightEnabled,
      s.straightMovementMultiplier, s.diagonalMovementMultiplier)
  }

  /** The snapshot depends on the six copied options only, not on `InitialBufferSize`. */
  lemma SnapshotDeterminedBySixOptions(a: AtomicSettings.PathfinderSettings, b: AtomicSettings.PathfinderSettings)
    ensures FromSettings(a) == FromSettings(b) <==>
      a.isDiagonalMovementEnabled == b.isDiagonalMovementEnabled &&
      a.isCalculatingOccupiedCells == b.isCalculatingOccupiedCells &&
      a.isMovementBetweenCornersEnabled == b.isMovementBetweenCornersEnabled &&
      a.isCellWeightEnabled == b.isCellWeightEnabled &&
      a.straightMovementMultiplier == b.straightMovementMultiplier &&
      a.diagonalMovementMultiplier == b.diagonalMovementMultiplier
  {
  }
}

module SrcSettings {
  import FastSettings

  /** The src `PathfinderSettings`: costs instead of multipliers, and an open-set capacity. */
  class PathfinderSettings {
    var isDiagonalMovementEnabled: bool
    var isCalculatingOccupiedCells: bool
    var isMovementBetweenCornersEnabled: bool
    var isCellWeightEnabled: bool
    var straightMovementCost: real
    var diagonalMovementCost: real
    var maxOpenSetCapacity: int

    /** The property initialisers: as the atomic defaults, with costs 1 and 1.5 and capacity 10000. */
    constructor ()
      ensures isDiagonalMovementEnabled && isCalculatingOccupiedCells
      ensures !isMovementBetweenCornersEnabled && isCellWeightEnabled
      ensures straightMovementCost == 1.0 && diagonalMovementCost == 1.5
      ensures maxOpenSetCapacity == 10000
    {
      isDiagonalMovementEnabled := true;
      isCalculatingOccupiedCells := true;
      isMovementBetweenCornersEnabled := false;
      isCellWeightEnabled := true;
      straightMovementCost := 1.0;
      diagonalMovementCost := 1.5;
      maxOpenSetCapacity := 10000;
    }
  }

  /**
   * The options a src grid search reads, as one value: nothing changes the
   * settings object during a call. The straight and diagonal costs take the
   * place of the atomic multipliers.
   */
  function Snapshot(s: PathfinderSettings): FastSettings.FastPathfinderSettings
    reads s
  {
    FastSettings.FastPathfinderSettings(s.isDiagonalMovementEnabled, s.isCalculatingOccupiedCells,
      s.isMovementBetweenCornersEnabled, s.isCellWeightEnabled,
      s.straightMovementCost, s.diagonalMovementCost)
  }

  /** The options of a default src `PathfinderSettings`: the costs 1 and 1.5 in place of the multipliers. */
  function DefaultCosts(): (o: FastSettings.FastPathfinderSettings)
    ensures o.isDiagonalMovementEnabled && o.isCalculatingOccupiedCells && o.isCellWeightEnabled
    ensures !o.isMovementBetweenCornersEnabled
    ensures o.straightMovementMultiplier == 1.0 && o.diagonalMovementMultiplier == 1.5
  {
    FastSettings.FastPathfinderSettings(true, true, false, true, 1.0, 1.5)
  }
}
