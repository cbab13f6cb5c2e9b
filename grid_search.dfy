/**
 * The search of the grid engines' `GetPath`: the A* loop over the open set,
 * the relaxation of the eight neighbour slots, and the reconstruction of
 * the path from the depth and parent fields of the cells.
 *
 * The state of a search is the cell buffer plus the open set's lists
 * (`State`). `RelaxStep` is what one pass of the `foreach` over the
 * neighbour table does to that state; `Inv` is what every state of the
 * loop satisfies, so the result of a search can be read off the cells.
 */
module GridSearch {
  import opened Outcomes
  import opened Coordinates
  import opened Cells
  import opened DirectionIndexes
  import opened GridModel
  import opened CellProviders
  import opened Neighbors
  import opened IndexedHeap
  import opened AtomicQueue

  /**
   * The neighbour table the scaled engines fill for the cell at c: the
   * moves the neighbour rules allow, slot by slot, with null for a move
   * they do not allow.
   */
  ghost function Moves(g: Setup, cs: seq<Cell>, c: Coordinate): (t: seq<int>)
    requires Sane(g) && |cs| == g.pw * g.ph
    ensures |t| == MaxNeighbors
    ensures forall k :: 0 <= k < |t| ==> t[k] == Null || 0 <= t[k] < |cs|
  {
    var w := Candidate(g, cs, c.x - 1, c.y);
    var e := Candidate(g, cs, c.x + 1, c.y);
    var s := Candidate(g, cs, c.x, c.y + 1);
    var n := Candidate(g, cs, c.x, c.y - 1);
    var diag, corners := g.s.isDiagonalMovementEnabled, g.s.isMovementBetweenCornersEnabled;
    [w, e, n, s,
     if diag && (w != Null || s != Null || corners) then Candidate(g, cs, c.x - 1, c.y + 1) else Null,
     if diag && (w != Null || n != Null || corners) then Candidate(g, cs, c.x - 1, c.y - 1) else Null,
     if diag && (e != Null || s != Null || corners) then Candidate(g, cs, c.x + 1, c.y + 1) else Null,
     if diag && (e != Null || n != Null || corners) then Candidate(g, cs, c.x + 1, c.y - 1) else Null]
  }

  /** A move the neighbour rules allow, from the cell with index a to the cell with index b. */
  ghost predicate Step(g: Setup, cs: seq<Cell>, a: int, b: int)
    requires Sane(g) && |cs| == g.pw * g.ph && 0 <= a < |cs|
  {
    b != Null && b in Moves(g, cs, cs[a].coordinate)
  }

  /** Every allowed move goes to a neighbouring position the agent fits on. */
  lemma StepIsMove(g: Setup, cs: seq<Cell>, a: int, b: int)
    requires Sane(g) && Laid(cs, g.pw, g.ph) && 0 <= a < |cs| && Step(g, cs, a, b)
    ensures 0 <= b < |cs| && CellFits(g, cs, b)
    ensures IsKingMove(cs[a].coordinate, cs[b].coordinate)
  {
    var c := cs[a].coordinate;
    var dx, dy := MoveOffset(g, cs, c, b);
    CandidateFits(g, cs, c.x + dx, c.y + dy);
  }

  /** A non-null entry of the table is the candidate at one of the eight offsets. */
  lemma MoveOffset(g: Setup, cs: seq<Cell>, c: Coordinate, b: int) returns (dx: int, dy: int)
    requires Sane(g) && |cs| == g.pw * g.ph && b != Null && b in Moves(g, cs, c)
    ensures -1 <= dx <= 1 && -1 <= dy <= 1 && (dx, dy) != (0, 0)
    ensures b == Candidate(g, cs, c.x + dx, c.y + dy)
  {
    var t := Moves(g, cs, c);
    var k :| 0 <= k < MaxNeighbors && t[k] == b;
    if k == 0 { dx, dy := -1, 0; }
    else if k == 1 { dx, dy := 1, 0; }
    else if k == 2 { dx, dy := 0, -1; }
    else if k == 3 { dx, dy := 0, 1; }
    else if k == 4 { dx, dy := -1, 1; }
    else if k == 5 { dx, dy := -1, -1; }
    else if k == 6 { dx, dy := 1, 1; }
    else { dx, dy := 1, -1; }
  }

  /** The cell buffer and the open set's lists. */
  datatype State = State(cells: seq<Cell>, ix: map<int, int>, slots: seq<int>, count: int)

  /** Cell c is in the open set. */
  ghost predicate Open(s: State, c: int) {
    InQueueOn(s.ix, s.slots, s.count, c)
  }

  /** Cell c has been put in the open set, now or earlier: it is open or closed. */
  ghost predicate Reached(s: State, c: int)
    requires 0 <= c < |s.cells|
  {
    s.cells[c].isClosed || Open(s, c)
  }

  ghost predicate Framed(g: Setup, cs0: seq<Cell>, s: State) {
    Sane(g) && Laid(cs0, g.pw, g.ph) && SameGrid(cs0, s.cells) &&
    WellFormed(s.ix, s.slots, s.count, |cs0|)
  }

  /**
   * The parent link of cell i: the parent is a closed cell one level
   * shallower, i fits the agent, and in the scaled engines i is one of the
   * parent's allowed moves.
   */
  ghost predicate Linked(g: Setup, cs0: seq<Cell>, cs: seq<Cell>, i: int)
    requires Sane(g) && |cs0| == g.pw * g.ph && |cs| == |cs0| && 0 <= i < |cs|
  {
    var pc := cs[i].parentCoordinate;
    0 <= pc.x < g.pw && 0 <= pc.y < g.ph &&
    var p := CellAt(g, pc.x, pc.y);
    cs[p].isClosed && cs[p].depth == cs[i].depth - 1 && CellFits(g, cs0, i) &&
    (g.variant.clearsSkippedSlots ==> Step(g, cs0, p, i))
  }

  /** Depths are never negative, and every cell of positive depth is linked to its parent. */
  ghost predicate Traced(g: Setup, cs0: seq<Cell>, cs: seq<Cell>)
    requires Sane(g) && |cs0| == g.pw * g.ph && |cs| == |cs0|
  {
    (forall i :: 0 <= i < |cs| ==> cs[i].depth >= 0) &&
    (forall i {:trigger Linked(g, cs0, cs, i)} :: 0 <= i < |cs| && cs[i].depth > 0 ==> Linked(g, cs0, cs, i))
  }

  /**
   * The start cell stays at depth 0, is closed as soon as any cell is, and
   * is the only reached cell of depth 0; open cells are not closed.
   */
  ghost predicate Rooted(s: State, start: int)
    requires 0 <= start < |s.cells|
  {
    s.cells[start].depth == 0 && Reached(s, start) &&
    (forall i :: 0 <= i < |s.cells| && s.cells[i].isClosed ==> s.cells[start].isClosed) &&
    (forall i :: 0 <= i < |s.cells| && s.cells[i].depth == 0 && Reached(s, i) ==> i == start) &&
    (forall c :: Open(s, c) ==> 0 <= c < |s.cells| && !s.cells[c].isClosed)
  }

  /** Every allowed move out of a closed cell other than `except` leads to a reached cell. */
  ghost predicate Covered(g: Setup, cs0: seq<Cell>, s: State, except: int)
    requires Sane(g) && |cs0| == g.pw * g.ph && |s.cells| == |cs0|
  {
    forall i, e :: 0 <= i < |cs0| && 0 <= e < |cs0| && i != except && s.cells[i].isClosed && Step(g, cs0, i, e) ==>
      Reached(s, e)
  }

  /**
   * The invariant of the search loop on the grid `cs0`, from cell `start`
   * to cell `goal`; `except` is the cell being expanded, if any (`Null`
   * otherwise). The goal is never closed.
   */
  ghost predicate Inv(g: Setup, cs0: seq<Cell>, s: State, start: int, goal: int, except: int) {
    Framed(g, cs0, s) && 0 <= start < |cs0| && 0 <= goal < |cs0| &&
    Traced(g, cs0, s.cells) && Rooted(s, start) && Covered(g, cs0, s, except) &&
    !s.cells[goal].isClosed
  }

  /**
   * What a slot of the table may hold when `current` is expanded: null, or
   * a cell the agent fits on that, in the scaled engines, is one of
   * `current`'s allowed moves (the terrain engine may leave a stale entry).
   */
  ghost predicate SlotFine(g: Setup, cs0: seq<Cell>, current: int, e: int)
    requires Sane(g) && |cs0| == g.pw * g.ph && 0 <= current < |cs0|
  {
    e == Null || (0 <= e < |cs0| && CellFits(g, cs0, e) && (g.variant.clearsSkippedSlots ==> Step(g, cs0, current, e)))
  }

  /** The fields `GetPath` writes when `current` adopts the cell n, with score `scoreG`. */
  function Adopt(n: Cell, cur: Cell, scoreG: real): Cell {
    n.(parentCoordinate := cur.coordinate, depth := cur.depth + 1, scoreG := scoreG)
  }

  /**
   * One pass of the `foreach` over the neighbour table, for the entry `nb`
   * of the table of `current`: a null or closed entry is skipped; a cell
   * not in the open set is adopted by `current`, gets H = h', and is
   * enqueued with F = G + H; an open cell whose G + H would drop below its
   * F is adopted in place with the new F and is not moved in the heap.
   */
  ghost function RelaxStep(g: Setup, s: State, current: int, nb: int, to: Coordinate): (r: State)
    requires WellFormed(s.ix, s.slots, s.count, |s.cells|) && 0 <= current < |s.cells|
    requires nb == Null || 0 <= nb < |s.cells|
    ensures WellFormed(r.ix, r.slots, r.count, |r.cells|) && |r.cells| == |s.cells|
  {
    if nb == Null || s.cells[nb].isClosed then s
    else
      var cur, n := s.cells[current], s.cells[nb];
      var h := GetH(n.coordinate.x, n.coordinate.y, to.x, to.y);
      var scoreG := NeighborScoreG(g, cur, n, to);
      if !Open(s, nb) then
        var mid := s.cells[nb := Adopt(n, cur, scoreG).(scoreH := h)];
        var cs := mid[nb := mid[nb].(scoreF := scoreG + h)];
        var links := EnqueueLinks(cs, ScoreF, s.ix, Grown(s.slots, s.count), s.count, nb);
        EnqueueResult(mid, s.ix, s.slots, s.count, nb, scoreG + h, links.0, links.1);
        State(cs, links.0, links.1, s.count + 1)
      else if scoreG + n.scoreH < n.scoreF then
        State(s.cells[nb := Adopt(n, cur, scoreG).(scoreF := scoreG + n.scoreH)], s.ix, s.slots, s.count)
      else s
  }

  /**
   * A relaxation keeps the invariant, changes no closed flag and not the
   * expanded cell, loses no reached cell, and leaves the slot's cell reached.
   */
  lemma RelaxKeeps(g: Setup, cs0: seq<Cell>, s: State, start: int, goal: int, current: int, nb: int, to: Coordinate)
    requires Inv(g, cs0, s, start, goal, current) && 0 <= current < |cs0| && s.cells[current].isClosed
    requires SlotFine(g, cs0, current, nb)
    ensures Inv(g, cs0, RelaxStep(g, s, current, nb, to), start, goal, current)
    ensures Kept(s, RelaxStep(g, s, current, nb, to), current)
    ensures nb != Null ==> Reached(RelaxStep(g, s, current, nb, to), nb)
  {
    var r := RelaxStep(g, s, current, nb, to);
    if nb != Null && !s.cells[nb].isClosed && r != s {
      RelaxAdopts(g, s, current, nb, to);
      AdoptKeeps(g, cs0, s, r, start, goal, current, nb);
    }
  }

  /** A relaxation that changes the state adopts the slot's cell. */
  lemma RelaxAdopts(g: Setup, s: State, current: int, nb: int, to: Coordinate)
    requires WellFormed(s.ix, s.slots, s.count, |s.cells|) && 0 <= current < |s.cells| && 0 <= nb < |s.cells|
    requires s.cells[current].isClosed && !s.cells[nb].isClosed && RelaxStep(g, s, current, nb, to) != s
    ensures Adopted(s, RelaxStep(g, s, current, nb, to), current, nb)
  {
    if !Open(s, nb) {
      RelaxEnqueues(g, s, current, nb, to);
    }
  }

  /** A cell not yet in the open set is adopted and enqueued. */
  lemma RelaxEnqueues(g: Setup, s: State, current: int, nb: int, to: Coordinate)
    requires WellFormed(s.ix, s.slots, s.count, |s.cells|) && 0 <= current < |s.cells| && 0 <= nb < |s.cells|
    requires s.cells[current].isClosed && !s.cells[nb].isClosed && !Open(s, nb)
    ensures Adopted(s, RelaxStep(g, s, current, nb, to), current, nb)
  {
    var r := RelaxStep(g, s, current, nb, to);
    var cur, n := s.cells[current], s.cells[nb];
    var h := GetH(n.coordinate.x, n.coordinate.y, to.x, to.y);
    var scoreG := NeighborScoreG(g, cur, n, to);
    var mid := s.cells[nb := Adopt(n, cur, scoreG).(scoreH := h)];
    EnqueueResult(mid, s.ix, s.slots, s.count, nb, scoreG + h, r.ix, r.slots);
  }

  /** Nothing closed opens, the expanded cell is untouched, and reached cells stay reached. */
  ghost predicate Kept(s: State, r: State, current: int)
    requires |r.cells| == |s.cells| && 0 <= current < |s.cells|
  {
    (forall i :: 0 <= i < |s.cells| ==> r.cells[i].isClosed == s.cells[i].isClosed) &&
    r.cells[current] == s.cells[current] &&
    (forall e :: 0 <= e < |s.cells| && Reached(s, e) ==> Reached(r, e))
  }

  /**
   * r is s with cell nb, open and not closed, adopted by the closed cell
   * `current`, and nb added to the open set if it was not there.
   */
  ghost predicate Adopted(s: State, r: State, current: int, nb: int)
    requires |r.cells| == |s.cells| && 0 <= current < |s.cells| && 0 <= nb < |s.cells|
  {
    (forall i :: 0 <= i < |s.cells| && i != nb ==> r.cells[i] == s.cells[i]) &&
    (var m, n, cur := r.cells[nb], s.cells[nb], s.cells[current];
     m.GridFacts() == n.GridFacts() && !m.isClosed && !n.isClosed && cur.isClosed &&
     m.parentCoordinate == cur.coordinate && m.depth == cur.depth + 1) &&
    (forall c :: Open(r, c) <==> Open(s, c) || c == nb)
  }

  lemma AdoptKeeps(g: Setup, cs0: seq<Cell>, s: State, r: State, start: int, goal: int, current: int, nb: int)
    requires Inv(g, cs0, s, start, goal, current) && 0 <= current < |cs0| && 0 <= nb < |cs0|
    requires SlotFine(g, cs0, current, nb)
    requires WellFormed(r.ix, r.slots, r.count, |cs0|) && |r.cells| == |cs0| && Adopted(s, r, current, nb)
    ensures Inv(g, cs0, r, start, goal, current)
    ensures Kept(s, r, current) && Reached(r, nb)
  {
    AdoptKeepsGrid(cs0, s, r, current, nb);
    CellAtInverse(g, cs0, current);
    AdoptKeepsTraced(g, cs0, s, r, current, nb);
    AdoptKeepsRooted(s, r, start, current, nb);
    KeptOn(s, r, current, nb);
    CoveredKept(g, cs0, s, r, current);
  }

  lemma AdoptKeepsGrid(cs0: seq<Cell>, s: State, r: State, current: int, nb: int)
    requires SameGrid(cs0, s.cells) && |r.cells| == |s.cells| && 0 <= current < |s.cells| && 0 <= nb < |s.cells|
    requires Adopted(s, r, current, nb)
    ensures SameGrid(cs0, r.cells) && r.cells[nb].parentCoordinate == cs0[current].coordinate
  {
    forall i | 0 <= i < |cs0| ensures r.cells[i].GridFacts() == cs0[i].GridFacts() {
      assert s.cells[i].GridFacts() == cs0[i].GridFacts();
    }
    assert s.cells[current].GridFacts() == cs0[current].GridFacts();
  }

  lemma AdoptKeepsTraced(g: Setup, cs0: seq<Cell>, s: State, r: State, current: int, nb: int)
    requires Sane(g) && |cs0| == g.pw * g.ph && |s.cells| == |cs0| && |r.cells| == |cs0|
    requires 0 <= current < |cs0| && 0 <= nb < |cs0| && Adopted(s, r, current, nb)
    requires SlotFine(g, cs0, current, nb) && Traced(g, cs0, s.cells)
    requires var pc := r.cells[nb].parentCoordinate; 0 <= pc.x < g.pw && 0 <= pc.y < g.ph && CellAt(g, pc.x, pc.y) == current
    ensures Traced(g, cs0, r.cells)
  {
    forall i | 0 <= i < |cs0| && r.cells[i].depth > 0 ensures Linked(g, cs0, r.cells, i) {
      if i != nb {
        assert Linked(g, cs0, s.cells, i);
      }
    }
  }

  lemma AdoptKeepsRooted(s: State, r: State, start: int, current: int, nb: int)
    requires |r.cells| == |s.cells| && 0 <= start < |s.cells| && 0 <= current < |s.cells| && 0 <= nb < |s.cells|
    requires Rooted(s, start) && Adopted(s, r, current, nb) && s.cells[current].depth >= 0
    ensures Rooted(r, start)
  {
    forall i | 0 <= i < |s.cells| && r.cells[i].depth == 0 && Reached(r, i) ensures i == start {
      if i != nb {
        assert Reached(s, i);
      }
    }
  }

  lemma KeptOn(s: State, r: State, current: int, nb: int)
    requires |r.cells| == |s.cells| && 0 <= current < |s.cells| && 0 <= nb < |s.cells|
    requires Adopted(s, r, current, nb)
    ensures Kept(s, r, current) && Reached(r, nb)
  {
  }

  /** Covered survives any change that keeps the closed flags and loses no reached cell. */
  lemma CoveredKept(g: Setup, cs0: seq<Cell>, s: State, r: State, current: int)
    requires Sane(g) && |cs0| == g.pw * g.ph && |s.cells| == |cs0| && |r.cells| == |cs0| && 0 <= current < |cs0|
    requires Covered(g, cs0, s, current) && Kept(s, r, current)
    ensures Covered(g, cs0, r, current)
  {
    forall i, e | 0 <= i < |cs0| && 0 <= e < |cs0| && i != current && r.cells[i].isClosed && Step(g, cs0, i, e)
      ensures Reached(r, e)
    {
      assert Reached(s, e);
    }
  }

  /** The first k passes of the `foreach` over the table `nbs` of `current`. */
  ghost function RelaxAll(g: Setup, s: State, current: int, nbs: seq<int>, to: Coordinate, k: int): (r: State)
    requires WellFormed(s.ix, s.slots, s.count, |s.cells|) && 0 <= current < |s.cells| && 0 <= k <= |nbs|
    requires forall j :: 0 <= j < |nbs| ==> nbs[j] == Null || 0 <= nbs[j] < |s.cells|
    ensures WellFormed(r.ix, r.slots, r.count, |r.cells|) && |r.cells| == |s.cells|
    decreases k
  {
    if k == 0 then s
    else RelaxStep(g, RelaxAll(g, s, current, nbs, to, k - 1), current, nbs[k - 1], to)
  }

  lemma KeptTransitive(s: State, r1: State, r2: State, current: int)
    requires |r1.cells| == |s.cells| && |r2.cells| == |s.cells| && 0 <= current < |s.cells|
    requires Kept(s, r1, current) && Kept(r1, r2, current)
    ensures Kept(s, r2, current)
  {
    forall e | 0 <= e < |s.cells| && Reached(s, e) ensures Reached(r2, e) {
      assert Reached(r1, e);
    }
  }

  /** The search state held by the provider's buffer and the open set. */
  ghost function StateOf(p: CellProvider, q: FastPriorityQueue): State
    reads p.cells, q
  {
    State(p.cells[..], q.queueIndex, q.slots, q.count)
  }

  /**
   * One pass of the `foreach` over the neighbour table of `current`, for
   * the entry `neighbor`.
   */
  method Relax(p: CellProvider, q: FastPriorityQueue, g: Setup, current: int, neighbor: int, to: Coordinate)
    requires q.Valid(p.cells.Length) && 0 <= current < p.cells.Length
    requires neighbor == Null || 0 <= neighbor < p.cells.Length
    modifies p.cells, q
    ensures q.Valid(p.cells.Length)
    ensures StateOf(p, q) == RelaxStep(g, old(StateOf(p, q)), current, neighbor, to)
  {
    if neighbor == Null || p.cells[neighbor].isClosed {
      return;
    }
    var cur, n := p.cells[current], p.cells[neighbor];
    var scoreH := GetH(n.coordinate.x, n.coordinate.y, to.x, to.y);
    var scoreG := NeighborScoreG(g, cur, n, to);
    var contained := q.Contains(p.cells, neighbor);
    if !contained {
      p.cells[neighbor] := Adopt(n, cur, scoreG).(scoreH := scoreH);
      q.Enqueue(p.cells, neighbor, scoreG + scoreH);
    } else if scoreG + n.scoreH < n.scoreF {
      p.cells[neighbor] := Adopt(n, cur, scoreG).(scoreF := scoreG + n.scoreH);
    }
  }

  /**
   * The `foreach` over the neighbour table of the expanded cell `current`:
   * the state is the eight relaxations in slot order, and what `Relaxed`
   * promises of it holds.
   */
  method RelaxSlots(p: CellProvider, q: FastPriorityQueue, g: Setup, ghost cs0: seq<Cell>, ghost start: int,
                    ghost goal: int, current: int, neighbors: array<int>, to: Coordinate)
    requires q.Valid(p.cells.Length) && 0 <= current < p.cells.Length && neighbors.Length == MaxNeighbors
    requires forall k :: 0 <= k < MaxNeighbors ==> neighbors[k] == Null || 0 <= neighbors[k] < p.cells.Length
    requires Inv(g, cs0, StateOf(p, q), start, goal, current) && p.cells[current].isClosed
    requires forall k :: 0 <= k < MaxNeighbors ==> SlotFine(g, cs0, current, neighbors[k])
    modifies p.cells, q
    ensures q.Valid(p.cells.Length)
    ensures Relaxed(g, cs0, old(StateOf(p, q)), StateOf(p, q), start, goal, current, neighbors[..], to, MaxNeighbors)
  {
    ghost var s0, nbs := StateOf(p, q), neighbors[..];
    RelaxedStart(g, cs0, s0, start, goal, current, nbs, to);
    for k := 0 to MaxNeighbors
      invariant q.Valid(p.cells.Length) && neighbors[..] == nbs
      invariant Relaxed(g, cs0, s0, StateOf(p, q), start, goal, current, nbs, to, k)
    {
      RelaxSlot(p, q, g, cs0, s0, start, goal, current, neighbors, nbs, to, k);
    }
  }

  /** One turn of the `foreach`: slot `k` relaxed after the earlier ones. */
  method RelaxSlot(p: CellProvider, q: FastPriorityQueue, g: Setup, ghost cs0: seq<Cell>, ghost s0: State,
                   ghost start: int, ghost goal: int, current: int, neighbors: array<int>, ghost nbs: seq<int>,
                   to: Coordinate, k: int)
    requires q.Valid(p.cells.Length) && 0 <= current < p.cells.Length && 0 <= k < MaxNeighbors
    requires neighbors[..] == nbs
    requires Relaxed(g, cs0, s0, StateOf(p, q), start, goal, current, nbs, to, k)
    modifies p.cells, q
    ensures q.Valid(p.cells.Length)
    ensures Relaxed(g, cs0, s0, StateOf(p, q), start, goal, current, nbs, to, k + 1)
  {
    ghost var s1 := StateOf(p, q);
    var neighbor := neighbors[k];
    assert neighbor == nbs[k];
    Relax(p, q, g, current, neighbor, to);
    RelaxedNext(g, cs0, s0, s1, start, goal, current, nbs, to, k);
  }

  /**
   * The first k passes over the table `nbs`, from the state s0, lead to s:
   * the invariant holds with `current` as the cell being expanded, nothing
   * closed has opened, no reached cell is lost, and the cells of the first
   * k slots are reached.
   */
  ghost predicate Relaxed(g: Setup, cs0: seq<Cell>, s0: State, s: State, start: int, goal: int, current: int,
                          nbs: seq<int>, to: Coordinate, k: int)
  {
    WellFormed(s0.ix, s0.slots, s0.count, |s0.cells|) && |s0.cells| == |cs0| && |s.cells| == |cs0| &&
    0 <= current < |cs0| && |nbs| == MaxNeighbors && 0 <= k <= MaxNeighbors &&
    (forall j :: 0 <= j < |nbs| ==> nbs[j] == Null || 0 <= nbs[j] < |cs0|) &&
    Inv(g, cs0, s, start, goal, current) && s.cells[current].isClosed &&
    (forall j :: 0 <= j < MaxNeighbors ==> SlotFine(g, cs0, current, nbs[j])) &&
    Kept(s0, s, current) &&
    (forall j :: 0 <= j < k && nbs[j] != Null ==> Reached(s, nbs[j])) &&
    s == RelaxAll(g, s0, current, nbs, to, k)
  }

  /** No pass at all: `Relaxed` holds of the state itself. */
  lemma RelaxedStart(g: Setup, cs0: seq<Cell>, s: State, start: int, goal: int, current: int, nbs: seq<int>,
                     to: Coordinate)
    requires Inv(g, cs0, s, start, goal, current) && 0 <= current < |cs0| && s.cells[current].isClosed
    requires |nbs| == MaxNeighbors && forall j :: 0 <= j < MaxNeighbors ==> SlotFine(g, cs0, current, nbs[j])
    ensures Relaxed(g, cs0, s, s, start, goal, current, nbs, to, 0)
  {
  }

  /** One more pass keeps `Relaxed`. */
  lemma RelaxedNext(g: Setup, cs0: seq<Cell>, s0: State, s: State, start: int, goal: int, current: int,
                    nbs: seq<int>, to: Coordinate, k: int)
    requires Relaxed(g, cs0, s0, s, start, goal, current, nbs, to, k) && k < MaxNeighbors
    ensures Relaxed(g, cs0, s0, RelaxStep(g, s, current, nbs[k], to), start, goal, current, nbs, to, k + 1)
  {
    var r := RelaxStep(g, s, current, nbs[k], to);
    RelaxKeeps(g, cs0, s, start, goal, current, nbs[k], to);
    KeptTransitive(s0, s, r, current);
    forall j | 0 <= j < k + 1 && nbs[j] != Null ensures Reached(r, nbs[j]) {
      if j < k {
        assert Reached(s, nbs[j]);
      } else {
        assert nbs[j] == nbs[k];
      }
    }
  }

  /**
   * A slot as `PopulateNeighbors` leaves it, given its previous entry
   * `before` (null or a cell the agent fits on): it holds the allowed move
   * of its direction, if any, and otherwise null or, in the terrain engine,
   * possibly `before`.
   */
  lemma SlotMatches(g: Setup, cs0: seq<Cell>, current: int, k: int, e: int, before: int)
    requires Sane(g) && Laid(cs0, g.pw, g.ph) && 0 <= current < |cs0| && IsSlot(k)
    requires before == Null || CellFits(g, cs0, before)
    requires var t := Moves(g, cs0, cs0[current].coordinate);
             e == t[k] || (t[k] == Null && (e == Null || (!g.variant.clearsSkippedSlots && e == before)))
    ensures SlotFine(g, cs0, current, e)
    ensures Moves(g, cs0, cs0[current].coordinate)[k] != Null ==> e == Moves(g, cs0, cs0[current].coordinate)[k]
  {
    var t := Moves(g, cs0, cs0[current].coordinate);
    if e != Null && e == t[k] {
      StepIsMove(g, cs0, current, e);
    }
  }

  /**
   * `PopulateNeighbors` for the expanded cell `current`: each slot holds
   * the allowed move of its direction, if any, and otherwise null or, in
   * the terrain engine, possibly its previous entry.
   */
  method FillTable(p: CellProvider, ghost cs0: seq<Cell>, g: Setup, current: int, neighbors: array<int>)
    requires p.Serves(g) && Sane(g) && Laid(cs0, g.pw, g.ph) && SameGrid(cs0, p.cells[..]) && 0 <= current < |cs0|
    requires neighbors.Length == MaxNeighbors
    requires forall k :: 0 <= k < MaxNeighbors ==> neighbors[k] == Null || CellFits(g, cs0, neighbors[k])
    modifies neighbors
    ensures TableFine(g, cs0, current, neighbors[..])
  {
    ghost var before := neighbors[..];
    var c := p.cells[current].coordinate;
    assert p.cells[current].GridFacts() == cs0[current].GridFacts();
    PopulateNeighbors(p, cs0, g, c, neighbors);
    PopulatedFine(g, cs0, current, c, before, neighbors[..]);
  }

  /** The table `PopulateNeighbors` leaves for `current`, from a table of nulls and cells the agent fits on, is fine. */
  lemma PopulatedFine(g: Setup, cs0: seq<Cell>, current: int, c: Coordinate, before: seq<int>, after: seq<int>)
    requires Sane(g) && Laid(cs0, g.pw, g.ph) && 0 <= current < |cs0| && c == cs0[current].coordinate
    requires |before| == |after| == MaxNeighbors
    requires forall k :: 0 <= k < MaxNeighbors ==> before[k] == Null || CellFits(g, cs0, before[k])
    requires after[West] == Candidate(g, cs0, c.x - 1, c.y) && after[East] == Candidate(g, cs0, c.x + 1, c.y) &&
             after[South] == Candidate(g, cs0, c.x, c.y + 1) && after[North] == Candidate(g, cs0, c.x, c.y - 1)
    requires !g.s.isDiagonalMovementEnabled ==> forall k :: DiagonalStart <= k < MaxNeighbors ==> after[k] == Null
    requires g.s.isDiagonalMovementEnabled ==>
               var w, e, s, n := after[West] != Null, after[East] != Null, after[South] != Null, after[North] != Null;
               var corners, clears := g.s.isMovementBetweenCornersEnabled, g.variant.clearsSkippedSlots;
               (if w || s || corners then after[SouthWest] == Candidate(g, cs0, c.x - 1, c.y + 1)
                else after[SouthWest] == if clears then Null else before[SouthWest]) &&
               (if w || n || corners then after[NorthWest] == Candidate(g, cs0, c.x - 1, c.y - 1)
                else after[NorthWest] == if clears then Null else before[NorthWest]) &&
               (if e || s || corners then after[SouthEast] == Candidate(g, cs0, c.x + 1, c.y + 1)
                else after[SouthEast] == if clears then Null else before[SouthEast]) &&
               (if e || n || corners then after[NorthEast] == Candidate(g, cs0, c.x + 1, c.y - 1)
                else after[NorthEast] == if clears then Null else before[NorthEast])
    ensures TableFine(g, cs0, current, after)
  {
    FilledTableFine(g, cs0, current, before, after);
  }

  /** The table `FillTable` leaves, from a table of nulls and cells the agent fits on, is fine. */
  lemma FilledTableFine(g: Setup, cs0: seq<Cell>, current: int, before: seq<int>, after: seq<int>)
    requires Sane(g) && Laid(cs0, g.pw, g.ph) && 0 <= current < |cs0|
    requires |before| == |after| == MaxNeighbors
    requires forall k :: 0 <= k < MaxNeighbors ==> before[k] == Null || CellFits(g, cs0, before[k])
    requires forall k :: 0 <= k < MaxNeighbors ==>
               var t := Moves(g, cs0, cs0[current].coordinate);
               after[k] == t[k] ||
               (t[k] == Null && (after[k] == Null || (!g.variant.clearsSkippedSlots && after[k] == before[k])))
    ensures TableFine(g, cs0, current, after)
  {
    forall k | 0 <= k < MaxNeighbors
      ensures SlotFine(g, cs0, current, after[k])
      ensures Moves(g, cs0, cs0[current].coordinate)[k] != Null ==> after[k] == Moves(g, cs0, cs0[current].coordinate)[k]
    {
      SlotMatches(g, cs0, current, k, after[k], before[k]);
    }
  }

  /**
   * The table of the expanded cell `current` holds every allowed move of
   * `current` in its slot, and each of its slots holds null or a cell the
   * agent fits on that, in the scaled engines, is an allowed move.
   */
  ghost predicate TableFine(g: Setup, cs0: seq<Cell>, current: int, nbs: seq<int>)
    requires Sane(g) && |cs0| == g.pw * g.ph && 0 <= current < |cs0|
  {
    |nbs| == MaxNeighbors &&
    (forall k :: 0 <= k < MaxNeighbors ==> nbs[k] == Null || 0 <= nbs[k] < |cs0|) &&
    (forall k :: 0 <= k < MaxNeighbors ==> SlotFine(g, cs0, current, nbs[k])) &&
    (forall k :: 0 <= k < MaxNeighbors && Moves(g, cs0, cs0[current].coordinate)[k] != Null ==>
       nbs[k] == Moves(g, cs0, cs0[current].coordinate)[k])
  }

  /**
   * Once every allowed move of the expanded cell leads to a reached cell,
   * the invariant holds without exception.
   */
  lemma ExpandDone(g: Setup, cs0: seq<Cell>, s0: State, s: State, start: int, goal: int, current: int,
                   nbs: seq<int>, to: Coordinate)
    requires Relaxed(g, cs0, s0, s, start, goal, current, nbs, to, MaxNeighbors) && TableFine(g, cs0, current, nbs)
    ensures Inv(g, cs0, s, start, goal, Null)
  {
    var t := Moves(g, cs0, cs0[current].coordinate);
    forall i, e | 0 <= i < |cs0| && 0 <= e < |cs0| && s.cells[i].isClosed && Step(g, cs0, i, e)
      ensures Reached(s, e)
    {
      if i == current {
        var k :| 0 <= k < MaxNeighbors && t[k] == e;
        assert nbs[k] == e;
      }
    }
  }

  /** An open cell is a cell of the buffer. */
  lemma OpenInRange(s: State, size: int, c: int)
    requires WellFormed(s.ix, s.slots, s.count, size) && Open(s, c)
    ensures 0 <= c < size
  {
    assert s.slots[IndexIn(s.ix, c)] == c;
  }

  /**
   * Dequeueing the open cell `current` and closing it, when it is not the
   * goal: the invariant holds with `current` as the cell being expanded.
   */
  lemma CloseKeeps(g: Setup, cs0: seq<Cell>, s: State, d: State, start: int, goal: int, current: int)
    requires Inv(g, cs0, s, start, goal, Null) && 0 <= current < |cs0| && Open(s, current) && current != goal
    requires WellFormed(d.ix, d.slots, d.count, |cs0|)
    requires forall c :: 0 <= c ==> (Open(d, c) <==> Open(s, c) && c != current)
    requires d.cells == s.cells[current := s.cells[current].(isClosed := true)]
    ensures Inv(g, cs0, d, start, goal, current)
  {
    assert SameGrid(cs0, d.cells) by {
      forall i | 0 <= i < |cs0| ensures d.cells[i].GridFacts() == cs0[i].GridFacts() {
        assert s.cells[i].GridFacts() == cs0[i].GridFacts();
      }
    }
    assert Traced(g, cs0, d.cells) by {
      forall i | 0 <= i < |cs0| && d.cells[i].depth > 0 ensures Linked(g, cs0, d.cells, i) {
        assert Linked(g, cs0, s.cells, i);
      }
    }
    CloseKeepsRooted(g, cs0, s, d, start, current);
    assert Covered(g, cs0, d, current) by {
      forall i, e | 0 <= i < |cs0| && 0 <= e < |cs0| && i != current && d.cells[i].isClosed && Step(g, cs0, i, e)
        ensures Reached(d, e)
      {
        assert Reached(s, e);
      }
    }
  }

  lemma CloseKeepsRooted(g: Setup, cs0: seq<Cell>, s: State, d: State, start: int, current: int)
    requires Sane(g) && |cs0| == g.pw * g.ph && |s.cells| == |cs0| && WellFormed(d.ix, d.slots, d.count, |cs0|)
    requires 0 <= start < |cs0| && Rooted(s, start) && Traced(g, cs0, s.cells)
    requires 0 <= current < |cs0| && Open(s, current)
    requires forall c :: 0 <= c ==> (Open(d, c) <==> Open(s, c) && c != current)
    requires d.cells == s.cells[current := s.cells[current].(isClosed := true)]
    ensures Rooted(d, start)
  {
    if s.cells[current].depth > 0 {
      // the parent of `current` is closed, so the start is too
      assert Linked(g, cs0, s.cells, current);
    }
    forall c | Open(d, c) ensures 0 <= c < |cs0| && !d.cells[c].isClosed {
      OpenInRange(d, |cs0|, c);
    }
    forall i | 0 <= i < |cs0| && d.cells[i].depth == 0 && Reached(d, i) ensures i == start {
      if i != current {
        assert Reached(s, i);
      }
    }
  }

  /** A position inside the provider. */
  predicate InProvider(g: Setup, c: Coordinate) {
    0 <= c.x < g.pw && 0 <= c.y < g.ph
  }

  /** `GetCellPointer(c.X, c.Y)`: the index of the cell at c. */
  function At(g: Setup, c: Coordinate): (i: int)
    requires InProvider(g, c)
    ensures 0 <= i < g.pw * g.ph
  {
    CellAt(g, c.x, c.y)
  }

  /**
   * The reconstruction at the end of `GetPath`: an array of `Depth(goal)`
   * coordinates filled from the back, starting at the goal and following
   * parent coordinates. Entry j is the position of the cell trail[j], of
   * depth j + 1, which the agent fits on; the last entry is the goal's,
   * each entry is the parent of the next, and the parent of the first is
   * the start, which is not on the path. In the scaled engines each cell
   * of the trail is an allowed move from the one before, and the first
   * from the start.
   */
  method Reconstruct(p: CellProvider, g: Setup, ghost cs0: seq<Cell>, ghost cs: seq<Cell>, ghost start: int, goal: int)
    returns (path: seq<Coordinate>, ghost trail: seq<int>)
    requires p.Serves(g) && Sane(g) && Laid(cs0, g.pw, g.ph) && cs == p.cells[..] && SameGrid(cs0, cs) && Traced(g, cs0, cs)
    requires 0 <= start < |cs0| && 0 <= goal < |cs0| && cs[start].depth == 0
    requires forall i :: 0 <= i < |cs0| && cs[i].isClosed && cs[i].depth == 0 ==> i == start
    ensures Reconstructed(g, cs0, cs, start, goal, path, trail)
  {
    var last := goal;
    var depth := p.cells[last].depth;
    var stack := new Coordinate[depth];
    trail := [];
    var i := depth;
    while i > 0
      invariant 0 <= i <= depth && stack.Length == depth
      invariant Filled(g, cs0, cs, goal, stack[..], i, trail, last)
    {
      i := i - 1;
      ghost var st := stack[..];
      FilledStep(g, cs0, cs, goal, st, i + 1, trail, last);
      stack[i] := p.cells[last].coordinate;
      assert stack[..] == st[i := cs[last].coordinate];
      trail := [last] + trail;
      last := At(g, p.cells[last].parentCoordinate);
    }
    path := stack[..];
    FilledDone(g, cs0, cs, start, goal, path, trail, last);
  }

  /**
   * The state of the reconstruction loop with i entries left to fill:
   * `trail` holds the cells of the entries filled so far, `last` the cell
   * whose coordinate comes next.
   */
  ghost predicate Filled(g: Setup, cs0: seq<Cell>, cs: seq<Cell>, goal: int, st: seq<Coordinate>, i: int,
                         trail: seq<int>, last: int)
    requires Sane(g) && |cs0| == g.pw * g.ph && |cs| == |cs0|
  {
    0 <= i <= |st| && |trail| == |st| - i && 0 <= last < |cs0| && cs[last].depth == i &&
    (forall m :: 0 <= m < |trail| ==>
       0 <= trail[m] < |cs0| && st[i + m] == cs0[trail[m]].coordinate && cs[trail[m]].depth == i + m + 1 &&
       CellFits(g, cs0, trail[m])) &&
    (|trail| == 0 ==> last == goal) &&
    (|trail| > 0 ==>
       trail[|trail| - 1] == goal && cs[last].isClosed && InProvider(g, cs[trail[0]].parentCoordinate) &&
       last == At(g, cs[trail[0]].parentCoordinate) && (g.variant.clearsSkippedSlots ==> Step(g, cs0, last, trail[0]))) &&
    (forall m :: 0 < m < |trail| ==> cs[trail[m]].parentCoordinate == cs0[trail[m - 1]].coordinate) &&
    (g.variant.clearsSkippedSlots ==> forall m :: 0 < m < |trail| ==> Step(g, cs0, trail[m - 1], trail[m]))
  }

  /** One iteration of the reconstruction loop. */
  lemma FilledStep(g: Setup, cs0: seq<Cell>, cs: seq<Cell>, goal: int, st: seq<Coordinate>, i: int,
                   trail: seq<int>, last: int)
    requires Sane(g) && Laid(cs0, g.pw, g.ph) && SameGrid(cs0, cs) && Traced(g, cs0, cs)
    requires Filled(g, cs0, cs, goal, st, i, trail, last) && i > 0
    ensures InProvider(g, cs[last].parentCoordinate)
    ensures Filled(g, cs0, cs, goal, st[i - 1 := cs[last].coordinate], i - 1, [last] + trail,
                   At(g, cs[last].parentCoordinate))
  {
    LinkOf(g, cs0, cs, last);
    if |trail| > 0 {
      var pc := cs[trail[0]].parentCoordinate;
      CoordinateAtCell(g, cs0, pc.x, pc.y);
    }
    var st', trail' := st[i - 1 := cs[last].coordinate], [last] + trail;
    forall m | 0 <= m < |trail'|
      ensures 0 <= trail'[m] < |cs0| && st'[i - 1 + m] == cs0[trail'[m]].coordinate
      ensures cs[trail'[m]].depth == i + m && CellFits(g, cs0, trail'[m])
    {
      if m > 0 {
        assert trail'[m] == trail[m - 1];
      }
    }
    forall m | 0 < m < |trail'| ensures cs[trail'[m]].parentCoordinate == cs0[trail'[m - 1]].coordinate {
      if m > 1 {
        assert trail'[m] == trail[m - 1] && trail'[m - 1] == trail[m - 2];
      }
    }
  }

  /**
   * What `Reconstruct` returns, given the cells `cs` the search left: entry
   * j of the path is the position of the cell trail[j], of depth j + 1,
   * which the agent fits on; the last entry is the goal's, the parent of
   * each entry is the one before, and the parent of the first is the start,
   * which is not on the path. In the scaled engines each cell of the trail is an allowed move from
   * the one before, and the first from the start.
   */
  ghost predicate Reconstructed(g: Setup, cs0: seq<Cell>, cs: seq<Cell>, start: int, goal: int,
                                path: seq<Coordinate>, trail: seq<int>)
    requires Sane(g) && |cs0| == g.pw * g.ph && |cs| == |cs0| && 0 <= start < |cs0| && 0 <= goal < |cs0|
  {
    |path| == |trail| == cs[goal].depth &&
    (forall j :: 0 <= j < |path| ==>
       0 <= trail[j] < |cs0| && path[j] == cs0[trail[j]].coordinate && cs[trail[j]].depth == j + 1 &&
       CellFits(g, cs0, trail[j])) &&
    (|path| > 0 ==> trail[|path| - 1] == goal && cs[trail[0]].parentCoordinate == cs0[start].coordinate) &&
    (forall j :: 0 < j < |path| ==> cs[trail[j]].parentCoordinate == path[j - 1]) &&
    (g.variant.clearsSkippedSlots ==> forall j :: 0 < j < |path| ==> Step(g, cs0, trail[j - 1], trail[j])) &&
    (g.variant.clearsSkippedSlots && |path| > 0 ==> Step(g, cs0, start, trail[0])) &&
    (forall j :: 0 <= j < |trail| ==> trail[j] != start)
  }

  /** The filled array meets the contract of `Reconstruct`. */
  lemma FilledDone(g: Setup, cs0: seq<Cell>, cs: seq<Cell>, start: int, goal: int, path: seq<Coordinate>,
                   trail: seq<int>, last: int)
    requires Sane(g) && Laid(cs0, g.pw, g.ph) && |cs| == |cs0| && 0 <= start < |cs0| && 0 <= goal < |cs0|
    requires cs[start].depth == 0 && forall i :: 0 <= i < |cs0| && cs[i].isClosed && cs[i].depth == 0 ==> i == start
    requires Filled(g, cs0, cs, goal, path, 0, trail, last) && |path| == cs[goal].depth
    ensures Reconstructed(g, cs0, cs, start, goal, path, trail)
  {
    if |path| > 0 {
      assert last == start;
      var pc := cs[trail[0]].parentCoordinate;
      CoordinateAtCell(g, cs0, pc.x, pc.y);
    }
  }

  /** The parent link of a cell of positive depth, read off `Traced`. */
  lemma LinkOf(g: Setup, cs0: seq<Cell>, cs: seq<Cell>, i: int)
    requires Sane(g) && Laid(cs0, g.pw, g.ph) && SameGrid(cs0, cs) && Traced(g, cs0, cs)
    requires 0 <= i < |cs| && cs[i].depth > 0
    ensures cs[i].coordinate == cs0[i].coordinate && InProvider(g, cs[i].coordinate) && At(g, cs[i].coordinate) == i
    ensures InProvider(g, cs[i].parentCoordinate) && CellFits(g, cs0, i)
    ensures var pa := At(g, cs[i].parentCoordinate);
            cs[pa].isClosed && cs[pa].depth == cs[i].depth - 1 && (g.variant.clearsSkippedSlots ==> Step(g, cs0, pa, i))
  {
    assert Linked(g, cs0, cs, i);
    assert cs[i].GridFacts() == cs0[i].GridFacts();
    CellAtInverse(g, cs0, i);
  }

  /** A walk through the grid along allowed moves. */
  ghost predicate Walk(g: Setup, cs0: seq<Cell>, w: seq<int>)
    requires Sane(g) && |cs0| == g.pw * g.ph
  {
    (forall j :: 0 <= j < |w| ==> 0 <= w[j] < |cs0|) &&
    (forall j :: 0 < j < |w| ==> Step(g, cs0, w[j - 1], w[j]))
  }

  /** Some walk leads from the cell a to the cell b. */
  ghost predicate Reachable(g: Setup, cs0: seq<Cell>, a: int, b: int)
    requires Sane(g) && |cs0| == g.pw * g.ph
  {
    exists w :: Walk(g, cs0, w) && |w| > 0 && w[0] == a && w[|w| - 1] == b
  }

  /** No allowed move leaves the closed cells of cs. */
  ghost predicate ClosedUnderSteps(g: Setup, cs0: seq<Cell>, cs: seq<Cell>)
    requires Sane(g) && |cs0| == g.pw * g.ph && |cs| == |cs0|
  {
    forall i, e :: 0 <= i < |cs0| && 0 <= e < |cs0| && cs[i].isClosed && Step(g, cs0, i, e) ==> cs[e].isClosed
  }

  /** A walk that starts on a closed cell stays on closed cells. */
  lemma {:induction false} WalkStaysClosed(g: Setup, cs0: seq<Cell>, cs: seq<Cell>, w: seq<int>, n: int)
    requires Sane(g) && |cs0| == g.pw * g.ph && |cs| == |cs0| && ClosedUnderSteps(g, cs0, cs)
    requires Walk(g, cs0, w) && 0 <= n < |w| && cs[w[0]].isClosed
    ensures cs[w[n]].isClosed
    decreases n
  {
    if n > 0 {
      WalkStaysClosed(g, cs0, cs, w, n - 1);
      assert Step(g, cs0, w[n - 1], w[n]);
    }
  }

  /** When the closed cells admit no way out, no cell outside them is reachable from inside. */
  lemma ClosedCellsEnclose(g: Setup, cs0: seq<Cell>, cs: seq<Cell>, a: int, b: int)
    requires Sane(g) && |cs0| == g.pw * g.ph && |cs| == |cs0| && ClosedUnderSteps(g, cs0, cs)
    requires 0 <= a < |cs| && 0 <= b < |cs| && cs[a].isClosed && !cs[b].isClosed
    ensures !Reachable(g, cs0, a, b)
  {
    forall w | Walk(g, cs0, w) && |w| > 0 && w[0] == a ensures w[|w| - 1] != b {
      WalkStaysClosed(g, cs0, cs, w, |w| - 1);
    }
  }

  /**
   * When the open set runs empty, the start is closed and the closed cells
   * admit no way out; the goal, never closed, is then out of reach.
   */
  lemma ExhaustedUnreachable(g: Setup, cs0: seq<Cell>, s: State, start: int, goal: int)
    requires Inv(g, cs0, s, start, goal, Null) && s.count == 0
    ensures s.cells[start].isClosed
    ensures !Reachable(g, cs0, start, goal)
  {
    assert !Open(s, start);
    forall i, e | 0 <= i < |cs0| && 0 <= e < |cs0| && s.cells[i].isClosed && Step(g, cs0, i, e)
      ensures s.cells[e].isClosed
    {
      assert Reached(s, e) && !Open(s, e);
    }
    ClosedCellsEnclose(g, cs0, s.cells, start, goal);
  }

  /**
   * What the search returns, for the grid `cs0` at the call and the cells
   * `cs` it leaves: an empty path when the start is the goal; otherwise an
   * empty path only when the goal cannot be reached from the start, and a
   * non-empty one is `Reconstructed`.
   */
  ghost predicate Searched(g: Setup, cs0: seq<Cell>, cs: seq<Cell>, start: int, goal: int,
                           path: seq<Coordinate>, trail: seq<int>)
    requires Sane(g) && |cs0| == g.pw * g.ph && |cs| == |cs0| && 0 <= start < |cs0| && 0 <= goal < |cs0|
  {
    (start == goal ==> path == []) &&
    (path == [] && start != goal ==> !Reachable(g, cs0, start, goal)) &&
    (path != [] ==> Reconstructed(g, cs0, cs, start, goal, path, trail))
  }

  /** In the scaled engines a reconstructed path, preceded by the start, is a walk from the start to the goal. */
  lemma ReconstructedWalks(g: Setup, cs0: seq<Cell>, cs: seq<Cell>, start: int, goal: int,
                           path: seq<Coordinate>, trail: seq<int>)
    requires Sane(g) && |cs0| == g.pw * g.ph && |cs| == |cs0| && 0 <= start < |cs0| && 0 <= goal < |cs0|
    requires g.variant.clearsSkippedSlots && Reconstructed(g, cs0, cs, start, goal, path, trail) && path != []
    ensures Walk(g, cs0, [start] + trail) && Reachable(g, cs0, start, goal)
  {
    var w := [start] + trail;
    forall j | 0 <= j < |w| ensures 0 <= w[j] < |cs0| {
      if j > 0 {
        assert w[j] == trail[j - 1];
      }
    }
    forall j | 0 < j < |w| ensures Step(g, cs0, w[j - 1], w[j]) {
      if j > 1 {
        assert w[j - 1] == trail[j - 2] && w[j] == trail[j - 1];
        assert Step(g, cs0, trail[j - 2], trail[j - 1]);
      } else {
        assert w[0] == start && w[1] == trail[0];
      }
    }
    assert w[|w| - 1] == trail[|path| - 1] == goal;
    assert Walk(g, cs0, w) && |w| > 0 && w[0] == start;
  }

  /**
   * In the scaled engines the search returns a non-empty path exactly when
   * the goal is another cell that some walk from the start reaches.
   */
  lemma SearchedExactly(g: Setup, cs0: seq<Cell>, cs: seq<Cell>, start: int, goal: int,
                        path: seq<Coordinate>, trail: seq<int>)
    requires Sane(g) && |cs0| == g.pw * g.ph && |cs| == |cs0| && 0 <= start < |cs0| && 0 <= goal < |cs0|
    requires g.variant.clearsSkippedSlots && Searched(g, cs0, cs, start, goal, path, trail)
    ensures path != [] <==> start != goal && Reachable(g, cs0, start, goal)
  {
    if path != [] {
      ReconstructedWalks(g, cs0, cs, start, goal, path, trail);
    }
  }

  /** The dequeued cell is the goal: the facts `Reconstruct` needs. */
  lemma DequeuedGoal(g: Setup, cs0: seq<Cell>, s: State, start: int, goal: int, current: int)
    requires Inv(g, cs0, s, start, goal, Null) && Open(s, current)
    ensures 0 <= current < |cs0| && Traced(g, cs0, s.cells) && SameGrid(cs0, s.cells)
    ensures forall i :: 0 <= i < |cs0| && s.cells[i].isClosed && s.cells[i].depth == 0 ==> i == start
    ensures s.cells[current].depth == 0 <==> current == start
  {
    assert Reached(s, current);
    forall i | 0 <= i < |cs0| && s.cells[i].isClosed && s.cells[i].depth == 0 ensures i == start {
      assert Reached(s, i);
    }
  }

  /**
   * The state after `ResetCells`, `Clear` and the enqueueing of the start:
   * no cell closed, every depth 0, the start the only open cell.
   */
  lemma StartKeeps(g: Setup, cs0: seq<Cell>, s: State, start: int, goal: int, scoreH: real)
    requires Sane(g) && Laid(cs0, g.pw, g.ph) && WellFormed(s.ix, s.slots, s.count, |cs0|)
    requires 0 <= start < |cs0| && 0 <= goal < |cs0| && |s.cells| == |cs0|
    requires forall i :: 0 <= i < |cs0| ==> s.cells[i] == if i == start then cs0[i].Reset().(scoreF := scoreH) else cs0[i].Reset()
    requires forall c :: Open(s, c) <==> c == start
    ensures Inv(g, cs0, s, start, goal, Null)
  {
    assert forall i :: 0 <= i < |cs0| ==> s.cells[i].depth == 0;
  }

  /**
   * The search of `GetPath` from `from` to `to` on the provider p with the
   * open set q (assumed to match the provider's buffer, as constructed).
   * A destination outside the engine's bounds raises before anything
   * changes. Otherwise the grid is searched: a non-empty path is what
   * `Reconstruct` promises, from the start cell to the goal cell; an empty
   * one means `from == to` or no walk of allowed moves leads from the
   * start to the goal.
   */
  method FindPath(p: CellProvider, q: FastPriorityQueue, g: Setup, from: Coordinate, to: Coordinate)
    returns (r: Result<PathResult>, ghost trail: seq<int>)
    requires p.Valid() && p.Serves(g) && Sane(g) && q.Reusable() && InProvider(g, from)
    modifies p.cells, q
    ensures !IsPositionValid(to.x, to.y, g.w, g.h) ==>
              r == Err(InvalidDestination) && unchanged(p.cells) && unchanged(q)
    ensures IsPositionValid(to.x, to.y, g.w, g.h) ==>
              r.Ok? && q.Valid(p.cells.Length) && SameGrid(old(p.cells[..]), p.cells[..]) && InProvider(g, to) &&
              Searched(g, old(p.cells[..]), p.cells[..], At(g, from), At(g, to), r.value.path, trail)
  {
    if !IsPositionValid(to.x, to.y, g.w, g.h) {
      return Err(InvalidDestination), [];
    }
    ghost var cs0 := p.cells[..];
    var current := StartSearch(p, q, g, from, to);
    ghost var start := current;
    ghost var goal := At(g, to);
    var neighbors := new int[MaxNeighbors](_ => Null);
    current := Explore(p, q, g, cs0, current, goal, to, neighbors);
    if p.cells[current].coordinate != to {
      return Ok(PathResult([])), [];
    }
    var path;
    path, trail := Reconstruct(p, g, cs0, p.cells[..], start, current);
    return Ok(PathResult(path)), trail;
  }

  /** The cells not closed. */
  ghost function Unclosed(cs: seq<Cell>): set<int> {
    set i | 0 <= i < |cs| && !cs[i].isClosed
  }

  /**
   * The loop of `GetPath`, from the start cell: dequeue the cell of least
   * priority, stop at the destination, otherwise expand it. The last cell
   * dequeued is the goal, or the goal is out of reach of the start.
   */
  method Explore(p: CellProvider, q: FastPriorityQueue, g: Setup, ghost cs0: seq<Cell>, start: int, ghost goal: int,
                 to: Coordinate, neighbors: array<int>) returns (current: int)
    requires p.Serves(g) && q.Valid(p.cells.Length) && neighbors.Length == MaxNeighbors
    requires Inv(g, cs0, StateOf(p, q), start, goal, Null) && InProvider(g, to) && goal == At(g, to)
    requires forall k :: 0 <= k < MaxNeighbors ==> neighbors[k] == Null || CellFits(g, cs0, neighbors[k])
    modifies p.cells, q, neighbors
    ensures q.Valid(p.cells.Length) && Explored(g, cs0, p.cells[..], start, goal, current, to)
  {
    current := start;
    CoordinateAtCell(g, cs0, to.x, to.y);
    ghost var unclosed := Unclosed(p.cells[..]);
    var found := false;
    while q.count > 0
      invariant q.Valid(p.cells.Length) && Inv(g, cs0, StateOf(p, q), start, goal, Null)
      invariant forall k :: 0 <= k < MaxNeighbors ==> neighbors[k] == Null || CellFits(g, cs0, neighbors[k])
      invariant 0 <= current < |cs0| && (current == start || p.cells[current].isClosed)
      invariant forall i :: 0 <= i < |cs0| && !p.cells[i].isClosed ==> i in unclosed
      decreases unclosed
    {
      current, found := Visit(p, q, g, cs0, start, goal, to, neighbors);
      if found {
        break;
      }
      unclosed := unclosed - {current};
    }
    if !found {
      ExhaustedUnreachable(g, cs0, StateOf(p, q), start, goal);
      assert p.cells[current].GridFacts() == cs0[current].GridFacts();
      CellAtInverse(g, cs0, current);
    }
  }

  /**
   * One pass of the loop: the cell of least priority is dequeued; when it
   * is at `to` the loop ends with what `Explored` promises, otherwise it
   * is expanded, which closes it and only it.
   */
  method Visit(p: CellProvider, q: FastPriorityQueue, g: Setup, ghost cs0: seq<Cell>, ghost start: int,
               ghost goal: int, to: Coordinate, neighbors: array<int>) returns (current: int, found: bool)
    requires p.Serves(g) && q.Valid(p.cells.Length) && neighbors.Length == MaxNeighbors && q.count > 0
    requires Inv(g, cs0, StateOf(p, q), start, goal, Null) && cs0[goal].coordinate == to
    requires forall k :: 0 <= k < MaxNeighbors ==> neighbors[k] == Null || CellFits(g, cs0, neighbors[k])
    modifies p.cells, q, neighbors
    ensures q.Valid(p.cells.Length) && 0 <= current < |cs0|
    ensures found ==> Explored(g, cs0, p.cells[..], start, goal, current, to)
    ensures !found ==> Inv(g, cs0, StateOf(p, q), start, goal, Null)
    ensures !found ==> forall k :: 0 <= k < MaxNeighbors ==> neighbors[k] == Null || CellFits(g, cs0, neighbors[k])
    ensures !found ==> !old(p.cells[current].isClosed) && p.cells[current].isClosed &&
                       forall i :: 0 <= i < |cs0| && !p.cells[i].isClosed ==> !old(p.cells[i].isClosed)
  {
    ghost var s := StateOf(p, q);
    var next := q.Dequeue(p.cells);
    current := next.value;
    assert p.cells[current].GridFacts() == cs0[current].GridFacts();
    CellAtInverse(g, cs0, current);
    if p.cells[current].coordinate == to {
      CellAtInverse(g, cs0, goal);
      DequeuedGoal(g, cs0, s, start, goal, current);
      return current, true;
    }
    Expand(p, q, g, cs0, s, start, goal, current, neighbors, to);
    found := false;
  }

  /**
   * What the loop leaves: the cells still sit on the grid and are traced;
   * when the last dequeued cell `current` is at `to`, it is the goal, the
   * start is the only closed cell of depth 0, and `current` has depth 0
   * exactly when it is the start; otherwise the goal is out of reach.
   */
  ghost predicate Explored(g: Setup, cs0: seq<Cell>, cs: seq<Cell>, start: int, goal: int, current: int, to: Coordinate)
  {
    Sane(g) && Laid(cs0, g.pw, g.ph) && |cs| == |cs0| && SameGrid(cs0, cs) && Traced(g, cs0, cs) &&
    0 <= start < |cs0| && 0 <= goal < |cs0| && 0 <= current < |cs0| &&
    (cs[current].coordinate == to ==>
       current == goal && cs[start].depth == 0 && (cs[current].depth == 0 <==> current == start) &&
       forall i :: 0 <= i < |cs0| && cs[i].isClosed && cs[i].depth == 0 ==> i == start) &&
    (cs[current].coordinate != to ==> !Reachable(g, cs0, start, goal))
  }

  /**
   * The start of `GetPath`: `ResetCells`, `Clear`, and the start enqueued
   * with its Manhattan distance to `to` as priority.
   */
  method StartSearch(p: CellProvider, q: FastPriorityQueue, g: Setup, from: Coordinate, to: Coordinate)
    returns (start: int)
    requires p.Valid() && p.Serves(g) && Sane(g) && q.Reusable() && InProvider(g, from) && InProvider(g, to)
    modifies p.cells, q
    ensures start == At(g, from) && q.Valid(p.cells.Length)
    ensures Inv(g, old(p.cells[..]), StateOf(p, q), start, At(g, to), Null)
  {
    ghost var cs0 := p.cells[..];
    p.ResetCells();
    q.Clear();
    var scoreH := GetH(from.x, from.y, to.x, to.y);
    start := At(g, from);
    q.Enqueue(p.cells, start, scoreH);
    StartKeeps(g, cs0, StateOf(p, q), start, At(g, to), scoreH);
  }

  /**
   * The expansion of the dequeued cell `current`, not the goal, in the
   * state s before the dequeue: `current` is closed, the neighbour table
   * filled and relaxed; the invariant holds again and only `current` has
   * been closed.
   */
  method Expand(p: CellProvider, q: FastPriorityQueue, g: Setup, ghost cs0: seq<Cell>, ghost s: State,
                ghost start: int, ghost goal: int, current: int, neighbors: array<int>, to: Coordinate)
    requires p.Serves(g) && Inv(g, cs0, s, start, goal, Null) && Open(s, current) && current != goal
    requires q.Valid(p.cells.Length) && p.cells[..] == s.cells
    requires forall c :: 0 <= c ==> (q.InQueue(c) <==> Open(s, c) && c != current)
    requires neighbors.Length == MaxNeighbors
    requires forall k :: 0 <= k < MaxNeighbors ==> neighbors[k] == Null || CellFits(g, cs0, neighbors[k])
    modifies p.cells, q, neighbors
    ensures Inv(g, cs0, StateOf(p, q), start, goal, Null) && q.Valid(p.cells.Length)
    ensures forall k :: 0 <= k < MaxNeighbors ==> neighbors[k] == Null || CellFits(g, cs0, neighbors[k])
    ensures forall i :: 0 <= i < |cs0| ==> p.cells[i].isClosed == (s.cells[i].isClosed || i == current)
  {
    OpenInRange(s, |cs0|, current);
    CloseCurrent(p, q, g, cs0, s, start, goal, current);
    FillTable(p, cs0, g, current, neighbors);
    RelaxTable(p, q, g, cs0, start, goal, current, neighbors, to);
  }

  /** `current` closed: the invariant holds with it as the cell being expanded. */
  method CloseCurrent(p: CellProvider, q: FastPriorityQueue, g: Setup, ghost cs0: seq<Cell>, ghost s: State,
                      ghost start: int, ghost goal: int, current: int)
    requires 0 <= current < p.cells.Length && p.cells[..] == s.cells && q.Valid(p.cells.Length)
    requires Inv(g, cs0, s, start, goal, Null) && Open(s, current) && current != goal
    requires forall c :: 0 <= c ==> (q.InQueue(c) <==> Open(s, c) && c != current)
    modifies p.cells
    ensures Inv(g, cs0, StateOf(p, q), start, goal, current) && p.cells[current].isClosed
    ensures forall i :: 0 <= i < |cs0| ==> p.cells[i].isClosed == (s.cells[i].isClosed || i == current)
  {
    p.cells[current] := p.cells[current].(isClosed := true);
    CloseKeeps(g, cs0, s, StateOf(p, q), start, goal, current);
  }

  /** The relaxation of a fine table: afterwards the invariant holds without exception. */
  method RelaxTable(p: CellProvider, q: FastPriorityQueue, g: Setup, ghost cs0: seq<Cell>, ghost start: int,
                    ghost goal: int, current: int, neighbors: array<int>, to: Coordinate)
    requires q.Valid(p.cells.Length) && 0 <= current < p.cells.Length && neighbors.Length == MaxNeighbors
    requires Inv(g, cs0, StateOf(p, q), start, goal, current) && p.cells[current].isClosed
    requires TableFine(g, cs0, current, neighbors[..])
    modifies p.cells, q
    ensures q.Valid(p.cells.Length) && Inv(g, cs0, StateOf(p, q), start, goal, Null)
    ensures forall i :: 0 <= i < p.cells.Length ==> p.cells[i].isClosed == old(p.cells[i].isClosed)
  {
    ghost var s0 := StateOf(p, q);
    RelaxSlots(p, q, g, cs0, start, goal, current, neighbors, to);
    ExpandDone(g, cs0, s0, StateOf(p, q), start, goal, current, neighbors[..], to);
    assert Kept(s0, StateOf(p, q), current);
  }
}
