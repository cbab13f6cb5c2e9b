/**
 * The terrain `Cell` struct: search fields with private setters, a
 * reference to its `PriorityQueueItem`, and an `IsInitialized` flag. As for
 * the grid cells, a struct method that assigns its own fields is modelled
 * as the function from the struct's old value to its new value. The
 * coordinates are instances of the `Coordinate` class, so their default is
 * null, here `None`.
 */
module TerrainCells {
  import opened Outcomes
  import opened Coordinates
  import opened SrcQueue

  datatype Cell = Cell(
    isClosed: bool,
    coordinate: Option<Coordinate>,
    f: real,
    h: real,
    g: real,
    depth: int,
    parentCoordinate: Option<Coordinate>,
    isInitialized: bool,
    queueItem: PriorityQueueItem?)
  {
    /** `Reset`: every field back to its default, the flag lowered. */
    function Reset(): Cell {
      Cell(false, None, 0.0, 0.0, 0.0, 0, None, false, null)
    }

    /** `SetQueueItem`: the only setter that leaves the flag as it was. */
    function SetQueueItem(queueItem: PriorityQueueItem?): Cell {
      this.(queueItem := queueItem)
    }

    function SetIsClosed(isClosed: bool): Cell {
      this.(isInitialized := true, isClosed := isClosed)
    }

    function SetCoordinate(coordinate: Option<Coordinate>): Cell {
      this.(isInitialized := true, coordinate := coordinate)
    }

    function SetF(f: real): Cell {
      this.(isInitialized := true, f := f)
    }

    function SetH(h: real): Cell {
      this.(isInitialized := true, h := h)
    }

    function SetG(g: real): Cell {
      this.(isInitialized := true, g := g)
    }

    function SetDepth(depth: int): Cell {
      this.(isInitialized := true, depth := depth)
    }

    function SetParentCoordinate(coordinate: Option<Coordinate>): Cell {
      this.(isInitialized := true, parentCoordinate := coordinate)
    }
  }

  /** `default(Cell)`: what a fresh array of cells holds. */
  const Default: Cell := Cell(false, None, 0.0, 0.0, 0.0, 0, None, false, null)

  /** The operations that change a terrain cell: the eight public methods. */
  datatype Op =
    | ResetOp
    | SetQueueItemOp(item: PriorityQueueItem?)
    | SetIsClosedOp(isClosed: bool)
    | SetCoordinateOp(coordinate: Option<Coordinate>)
    | SetFOp(f: real)
    | SetHOp(h: real)
    | SetGOp(g: real)
    | SetDepthOp(depth: int)
    | SetParentCoordinateOp(parent: Option<Coordinate>)

  function Apply(c: Cell, op: Op): Cell {
    match op
    case ResetOp => c.Reset()
    case SetQueueItemOp(item) => c.SetQueueItem(item)
    case SetIsClosedOp(b) => c.SetIsClosed(b)
    case SetCoordinateOp(v) => c.SetCoordinate(v)
    case SetFOp(v) => c.SetF(v)
    case SetHOp(v) => c.SetH(v)
    case SetGOp(v) => c.SetG(v)
    case SetDepthOp(v) => c.SetDepth(v)
    case SetParentCoordinateOp(v) => c.SetParentCoordinate(v)
  }

  /** The cell after a sequence of method calls, in order. */
  function ApplyAll(c: Cell, ops: seq<Op>): Cell
    decreases |ops|
  {
    if ops == [] then c else ApplyAll(Apply(c, ops[0]), ops[1..])
  }

  /** The search fields a setter writes, the flag and queue item aside. */
  function SearchFields(c: Cell): (bool, Option<Coordinate>, real, real, real, int, Option<Coordinate>) {
    (c.isClosed, c.coordinate, c.f, c.h, c.g, c.depth, c.parentCoordinate)
  }

  /** `Reset` puts the cell in its default state, whatever it held, and a second `Reset` changes nothing. */
  lemma ResetRestoresDefault(c: Cell, d: Cell)
    ensures c.Reset() == Default
    ensures c.Reset() == d.Reset()
    ensures c.Reset().Reset() == c.Reset()
  {
  }

  /**
   * Each `Set*` method writes its own field, raises `IsInitialized` and
   * leaves every other field as it was; `SetQueueItem` leaves the flag.
   */
  lemma SettersWriteOneField(c: Cell)
    ensures forall v :: c.SetIsClosed(v).isClosed == v && c.SetIsClosed(v).isInitialized &&
                        c.SetIsClosed(v).(isClosed := c.isClosed, isInitialized := c.isInitialized) == c
    ensures forall v :: c.SetCoordinate(v).coordinate == v && c.SetCoordinate(v).isInitialized &&
                        c.SetCoordinate(v).(coordinate := c.coordinate, isInitialized := c.isInitialized) == c
    ensures forall v :: c.SetF(v).f == v && c.SetF(v).isInitialized &&
                        c.SetF(v).(f := c.f, isInitialized := c.isInitialized) == c
    ensures forall v :: c.SetH(v).h == v && c.SetH(v).isInitialized &&
                        c.SetH(v).(h := c.h, isInitialized := c.isInitialized) == c
    ensures forall v :: c.SetG(v).g == v && c.SetG(v).isInitialized &&
                        c.SetG(v).(g := c.g, isInitialized := c.isInitialized) == c
    ensures forall v :: c.SetDepth(v).depth == v && c.SetDepth(v).isInitialized &&
                        c.SetDepth(v).(depth := c.depth, isInitialized := c.isInitialized) == c
    ensures forall v :: c.SetParentCoordinate(v).parentCoordinate == v && c.SetParentCoordinate(v).isInitialized &&
                        c.SetParentCoordinate(v).(parentCoordinate := c.parentCoordinate, isInitialized := c.isInitialized) == c
    ensures forall v :: c.SetQueueItem(v).queueItem == v && c.SetQueueItem(v).(queueItem := c.queueItem) == c
  {
  }

  /** A call that raises `IsInitialized`: every setter but `SetQueueItem`. */
  predicate Raises(op: Op) {
    !op.ResetOp? && !op.SetQueueItemOp?
  }

  /**
   * After any calls, the flag is down exactly when every raising call was
   * followed by a later `Reset`, and either some `Reset` came or the flag
   * was down at the start.
   */
  lemma {:induction false} InitializedTracksSetters(c: Cell, ops: seq<Op>)
    ensures !ApplyAll(c, ops).isInitialized <==>
              (forall k :: 0 <= k < |ops| && Raises(ops[k]) ==> exists j :: k < j < |ops| && ops[j].ResetOp?) &&
              (!c.isInitialized || exists j :: 0 <= j < |ops| && ops[j].ResetOp?)
    decreases |ops|
  {
    if ops != [] {
      var rest := ops[1..];
      InitializedTracksSetters(Apply(c, ops[0]), rest);
      assert forall k :: 0 <= k < |rest| ==> rest[k] == ops[k + 1];
      assert forall j :: 0 < j < |ops| ==> ops[j] == rest[j - 1];
    }
  }

  /**
   * The search fields after any calls depend only on the calls since the
   * last `Reset`: a `Reset` forgets everything written before it.
   */
  lemma {:induction false} ResetForgetsHistory(c: Cell, d: Cell, before: seq<Op>, after: seq<Op>)
    ensures ApplyAll(c, before + [ResetOp] + after) == ApplyAll(d, [ResetOp] + after)
    decreases |before|
  {
    if before == [] {
      assert before + [ResetOp] + after == [ResetOp] + after;
    } else {
      assert (before + [ResetOp] + after)[1..] == before[1..] + [ResetOp] + after;
      ResetForgetsHistory(Apply(c, before[0]), d, before[1..], after);
    }
  }

  /** Setters of different fields commute, and a second write to a field wins over the first. */
  lemma SettersCommute(c: Cell, f: real, g: real, h: real, depth: int)
    ensures c.SetF(f).SetG(g) == c.SetG(g).SetF(f)
    ensures c.SetG(g).SetH(h) == c.SetH(h).SetG(g)
    ensures c.SetF(f).SetDepth(depth) == c.SetDepth(depth).SetF(f)
    ensures c.SetF(f).SetF(g) == c.SetF(g)
    ensures SearchFields(c.SetQueueItem(null)) == SearchFields(c)
  {
  }
}
