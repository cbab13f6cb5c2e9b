/**
 * The search that `AStar` and `CellBasedPathfinder` run over a
 * `LocationGrid` (`GetPathResult`, `ReconstructPath`, `GetCellWeight`,
 * `GetNeighborTravelWeight`, `GetScoreH`). The two variants differ in how
 * the next location is chosen (the first cheapest entry of the open
 * dictionary, or whatever the open queue dequeues) and in the test for a
 * better score; `Rule` names the variant.
 *
 * The ghost `rank` of a location counts the moves of the parent chain that
 * reached it: a parent always ranks below its child, which makes the chain
 * `ReconstructPath` follows finite.
 */
module LocationSearch {
  import opened Outcomes
  import opened Coordinates
  import opened FastSettings
  import opened LocationGrids
  import opened PathHelpers
  import GridModel

  datatype Rule = AStarRule | CellBasedRule

  const MaxHScoreBetweenNeighbors: int := 2
  const HScorePerStraightMovement: real := 1.0
  const CostTolerance: real := 0.01
  const MinPreloadedGridsAmount: int := 1

  /** How many location grids a constructor preloads: the requested amount, but at least one. */
  function PreloadedGridsAmount(requested: int): (r: int)
    ensures r >= MinPreloadedGridsAmount && r >= requested
    ensures r == requested || r == MinPreloadedGridsAmount
  {
    if requested < MinPreloadedGridsAmount then MinPreloadedGridsAmount else requested
  }

  /** `grid?.Matrix == null || grid.Matrix.Length == 0`; null is `None`. */
  predicate IsEmptyGrid(grid: Option<Grid>) {
    grid.None? || grid.value.height * grid.value.width == 0
  }

  function RealAbs(r: real): real {
    if r < 0.0 then -r else r
  }

  /** `GetScoreH`: the Manhattan distance, zero only from a position to itself. */
  function GetScoreH(start: Coordinate, destination: Coordinate): (r: nat)
    ensures r == 0 <==> start == destination
  {
    GridModel.Abs(destination.x - start.x) + GridModel.Abs(destination.y - start.y)
  }

  /** The cost `GetNeighborTravelWeight` returns once the distance is accepted. */
  function TravelCost(s: FastPathfinderSettings, start: Coordinate, destination: Coordinate): real {
    if RealAbs(GetScoreH(start, destination) as real - HScorePerStraightMovement) < CostTolerance
    then s.straightMovementMultiplier else s.diagonalMovementMultiplier
  }

  /**
   * `GetNeighborTravelWeight` of `AStar`: an exception for positions more
   * than two apart, the straight cost at distance 1 and the diagonal cost
   * at distance 0 or 2.
   */
  function GetNeighborTravelWeight(s: FastPathfinderSettings, start: Coordinate, destination: Coordinate): (r: Result<real>)
    ensures r.Err? <==> GetScoreH(start, destination) > MaxHScoreBetweenNeighbors
    ensures r.Err? ==> r.error == ArgumentOutOfRange
    ensures r.Ok? ==> r.value == if GetScoreH(start, destination) == 1 then s.straightMovementMultiplier
                                  else s.diagonalMovementMultiplier
  {
    if GetScoreH(start, destination) > MaxHScoreBetweenNeighbors then Err(ArgumentOutOfRange)
    else Ok(TravelCost(s, start, destination))
  }

  /**
   * Every move of the search has a travel weight, and it is the one the
   * grid engines charge: the diagonal cost exactly for diagonal movement.
   */
  lemma MovesHaveTravelWeight(g: Grid, s: FastPathfinderSettings, size: int, a: Coordinate, b: Coordinate)
    requires Rectangular(g) && Step(g, s, size, a, b)
    ensures GetNeighborTravelWeight(s, a, b) == Ok(GridModel.TravelWeight(s, a, b))
  {
    StepIsMove(g, s, size, a, b);
  }

  /** `GetCellWeight`: the grid cell's weight, or 0 when weights are off. */
  function GetCellWeight(g: Grid, s: FastPathfinderSettings, position: Coordinate): real
    requires Rectangular(g) && InGrid(g, position.x, position.y)
  {
    if s.isCellWeightEnabled then g.rows[position.y][position.x].weight else 0.0
  }

  /** A move lands inside the grid. */
  lemma StepInGrid(g: Grid, s: FastPathfinderSettings, size: int, a: Coordinate, b: Coordinate)
    requires Rectangular(g) && Step(g, s, size, a, b)
    ensures InGrid(g, b.x, b.y)
  {
    StepIsMove(g, s, size, a, b);
  }

  /** `OpenSet.Remove`: the open set without one key, the others in their order. */
  function Without(open: seq<Coordinate>, c: Coordinate): (r: seq<Coordinate>)
    ensures forall x :: x in r <==> x in open && x != c
    decreases |open|
  {
    if open == [] then []
    else if open[0] == c then Without(open[1..], c)
    else [open[0]] + Without(open[1..], c)
  }

  predicate Distinct(open: seq<Coordinate>) {
    forall i, j :: 0 <= i < j < |open| ==> open[i] != open[j]
  }

  /** Removing a key keeps the keys distinct. */
  lemma {:induction false} WithoutDistinct(open: seq<Coordinate>, c: Coordinate)
    requires Distinct(open)
    ensures Distinct(Without(open, c))
    decreases |open|
  {
    if open != [] {
      WithoutDistinct(open[1..], c);
      assert open[0] !in open[1..] by {
        forall i | 0 <= i < |open[1..]| ensures open[1..][i] != open[0] {
          assert open[1..][i] == open[i + 1];
        }
      }
    }
  }

  /** The state of a search: the locations, the open and closed sets, and the ghost ranks. */
  datatype SearchState = SearchState(
    locations: map<Coordinate, Location>,
    open: seq<Coordinate>,
    closed: set<Coordinate>,
    rank: map<Coordinate, nat>)

  ghost function StateOf(lg: LocationGrid, rank: map<Coordinate, nat>): SearchState
    reads lg
  {
    SearchState(lg.locations, lg.openSet, lg.closedSet, rank)
  }

  ghost predicate InSearch(st: SearchState, c: Coordinate) {
    c in st.open || c in st.closed
  }

  /** Open keys are distinct locations that are not closed; closed keys are locations. */
  ghost predicate Sets(st: SearchState) {
    (forall i :: 0 <= i < |st.open| ==> st.open[i] in st.locations && st.open[i] !in st.closed) &&
    Distinct(st.open) &&
    (forall c :: c in st.closed ==> c in st.locations)
  }

  /** A location with a parent was reached by a move from that parent, which is closed and ranks lower. */
  ghost predicate Ranked(g: Grid, s: FastPathfinderSettings, size: int, st: SearchState)
    requires Rectangular(g)
  {
    forall c :: c in st.locations && st.locations[c].parent.Some? ==>
      var p := st.locations[c].parent.value;
      p in st.closed && p in st.locations && c in st.rank && p in st.rank && st.rank[p] < st.rank[c] &&
      Step(g, s, size, p, c)
  }

  /** The only location of the search without a parent is the start. */
  ghost predicate Rooted(st: SearchState, from: Coordinate) {
    forall c :: c in st.locations && InSearch(st, c) && st.locations[c].parent.None? ==> c == from
  }

  ghost predicate ClosedRooted(st: SearchState, from: Coordinate) {
    forall c :: c in st.closed && c in st.locations && st.locations[c].parent.None? ==> c == from
  }

  /** Every move out of a closed location, the one being expanded aside, stays in the search. */
  ghost predicate Covered(g: Grid, s: FastPathfinderSettings, size: int, st: SearchState, except: Option<Coordinate>)
    requires Rectangular(g)
  {
    forall c, b :: c in st.closed && Some(c) != except && Step(g, s, size, c, b) ==> InSearch(st, b)
  }

  /** What holds between the steps of the search from `from` to `to`. */
  ghost predicate Inv(g: Grid, s: FastPathfinderSettings, size: int, from: Coordinate, to: Coordinate,
                      st: SearchState, except: Option<Coordinate>)
  {
    Rectangular(g) && Matrix(g, st.locations) && Sets(st) &&
    (forall c :: c in st.locations ==> c in st.rank) &&
    from in st.locations && st.locations[from].parent.None? &&
    (from in st.closed || (st.closed == {} && st.open == [from])) &&
    to !in st.closed &&
    Ranked(g, s, size, st) && Rooted(st, from) && Covered(g, s, size, st, except)
  }

  /**
   * Closing the chosen location: it leaves the open set (`OpenSet.Remove`
   * or `Dequeue`) and enters the closed set (`ClosedSet.Add` or
   * `IsClosed = true`).
   */
  ghost function CloseStep(st: SearchState, current: Coordinate): SearchState {
    st.(open := Without(st.open, current), closed := st.closed + {current})
  }

  /** The test for a better score: on G in `AStar`, on G + H against F in `CellBasedPathfinder`. */
  predicate Improves(rule: Rule, loc: Location, scoreG: real) {
    match rule
    case AStarRule => scoreG < loc.scoreG
    case CellBasedRule => scoreG + loc.scoreH < loc.scoreF
  }

  /** The score G offered to neighbour n reached from `current`. */
  ghost function OfferedScoreG(g: Grid, s: FastPathfinderSettings, st: SearchState, current: Coordinate, n: Coordinate): real
    requires Rectangular(g) && current in st.locations && InGrid(g, n.x, n.y)
  {
    st.locations[current].scoreG + TravelCost(s, current, n) + GetCellWeight(g, s, n)
  }

  /**
   * A location not yet open gets the current location as parent, the
   * offered G, its H and F = G + H, and joins the open set; an open one is
   * re-parented, with the offered G and F = G + H, when the offer is better.
   */
  ghost function Offer(rule: Rule, st: SearchState, current: Coordinate, n: Coordinate, scoreG: real, to: Coordinate): SearchState
    requires n in st.locations && current in st.rank
  {
    var loc := st.locations[n];
    var rank := st.rank[n := st.rank[current] + 1];
    if n !in st.open then
      var h := GetScoreH(n, to) as real;
      st.(locations := st.locations[n := loc.(scoreH := h, parent := Some(current), scoreG := scoreG, scoreF := scoreG + h)],
          open := st.open + [n], rank := rank)
    else if Improves(rule, loc, scoreG) then
      st.(locations := st.locations[n := loc.(parent := Some(current), scoreG := scoreG, scoreF := scoreG + loc.scoreH)],
          rank := rank)
    else st
  }

  /** One slot of the neighbour loop: a null slot and a closed location are skipped, any other gets the offer. */
  ghost function RelaxStep(g: Grid, s: FastPathfinderSettings, rule: Rule, st: SearchState,
                           current: Coordinate, neighbor: Option<Coordinate>, to: Coordinate): SearchState
    requires Rectangular(g) && Matrix(g, st.locations) && current in st.locations && current in st.rank
    requires neighbor.Some? ==> neighbor.value in st.locations
  {
    if neighbor.None? || neighbor.value in st.closed then st
    else Offer(rule, st, current, neighbor.value, OfferedScoreG(g, s, st, current, neighbor.value), to)
  }

  /** The chain of parents that ends at c, first location first. */
  ghost function Lineage(g: Grid, s: FastPathfinderSettings, size: int, st: SearchState, c: Coordinate): seq<Coordinate>
    requires Rectangular(g) && Ranked(g, s, size, st) && c in st.locations
    decreases if c in st.rank then st.rank[c] + 1 else 0
  {
    match st.locations[c].parent
    case None => [c]
    case Some(p) => Lineage(g, s, size, st, p) + [c]
  }

  /** The facts `ReconstructPath` relies on once the destination is chosen. */
  ghost predicate Found(g: Grid, s: FastPathfinderSettings, size: int, from: Coordinate, to: Coordinate, st: SearchState) {
    Rectangular(g) && Matrix(g, st.locations) && Ranked(g, s, size, st) && ClosedRooted(st, from) &&
    to in st.locations &&
    (st.locations[to].parent.None? ==> to == from) &&
    (to == from ==> st.locations[to].parent.None?)
  }

  /** What a search promises about the path it returns; the empty path stands for a null one. */
  ghost predicate Answers(g: Grid, s: FastPathfinderSettings, size: int, from: Coordinate, to: Coordinate, path: seq<Coordinate>)
    requires Rectangular(g)
  {
    (path != [] <==> Reachable(g, s, size, from, to)) &&
    (path != [] ==> path[0] == from && path[|path| - 1] == to && Walk(g, s, size, path)) &&
    (from == to ==> path == [from])
  }

  /**
   * The parent chain of a location of a finished search starts at the
   * start, ends at the location, is a walk of moves, and each entry's
   * parent is the entry before it.
   */
  lemma {:induction false} LineageShape(g: Grid, s: FastPathfinderSettings, size: int, from: Coordinate,
                                        st: SearchState, c: Coordinate)
    requires Rectangular(g) && Ranked(g, s, size, st) && c in st.locations
    requires ClosedRooted(st, from) && (st.locations[c].parent.None? ==> c == from)
    ensures var l := Lineage(g, s, size, st, c);
            |l| > 0 && l[0] == from && l[|l| - 1] == c && Walk(g, s, size, l) &&
            (forall i :: 0 <= i < |l| ==> l[i] in st.locations) &&
            st.locations[l[0]].parent.None? &&
            (forall i :: 0 < i < |l| ==> st.locations[l[i]].parent == Some(l[i - 1]))
    decreases if c in st.rank then st.rank[c] + 1 else 0
  {
    match st.locations[c].parent
    case None =>
    case Some(p) =>
      LineageShape(g, s, size, from, st, p);
      var lp := Lineage(g, s, size, st, p);
      var l := lp + [c];
      assert l == Lineage(g, s, size, st, c);
      assert forall i :: 0 <= i < |lp| ==> l[i] == lp[i];
      WalkExtends(g, s, size, lp, c);
  }

  /** A walk followed by a move from its last location is a walk. */
  lemma WalkExtends(g: Grid, s: FastPathfinderSettings, size: int, w: seq<Coordinate>, c: Coordinate)
    requires Rectangular(g) && Walk(g, s, size, w) && |w| > 0 && Step(g, s, size, w[|w| - 1], c)
    ensures Walk(g, s, size, w + [c])
  {
    var l := w + [c];
    forall j | 0 < j < |l|
      ensures Step(g, s, size, l[j - 1], l[j])
    {
      if j < |w| {
        assert l[j - 1] == w[j - 1] && l[j] == w[j];
      }
    }
  }

  /** A location anywhere is reachable from itself. */
  lemma ReachableSelf(g: Grid, s: FastPathfinderSettings, size: int, a: Coordinate)
    requires Rectangular(g)
    ensures Reachable(g, s, size, a, a)
  {
    assert Walk(g, s, size, [a]);
  }

  /** A walk that starts in a region closed under moves stays in it. */
  lemma {:induction false} WalkStaysIn(g: Grid, s: FastPathfinderSettings, size: int, region: set<Coordinate>, w: seq<Coordinate>)
    requires Rectangular(g) && Walk(g, s, size, w) && |w| > 0 && w[0] in region
    requires forall c, b :: c in region && Step(g, s, size, c, b) ==> b in region
    ensures w[|w| - 1] in region
    decreases |w|
  {
    if |w| > 1 {
      var v := w[..|w| - 1];
      assert forall j :: 0 <= j < |v| ==> v[j] == w[j];
      WalkStaysIn(g, s, size, region, v);
      assert Step(g, s, size, w[|w| - 2], w[|w| - 1]);
    }
  }

  /**
   * An exhausted search proves the destination unreachable: the closed set
   * holds the start, not the destination, and every move out of it.
   */
  lemma ClosedSetEncloses(g: Grid, s: FastPathfinderSettings, size: int, from: Coordinate, to: Coordinate, st: SearchState)
    requires Inv(g, s, size, from, to, st, None) && st.open == []
    ensures !Reachable(g, s, size, from, to)
  {
    forall w | Walk(g, s, size, w) && |w| > 0 && w[0] == from
      ensures w[|w| - 1] != to
    {
      WalkStaysIn(g, s, size, st.closed, w);
    }
  }

  /** After `Reset` and the start's entry into the open set, the search state holds. */
  lemma StartKeeps(g: Grid, s: FastPathfinderSettings, size: int, from: Coordinate, to: Coordinate, st: SearchState)
    requires Rectangular(g) && Matrix(g, st.locations) && from in st.locations
    requires forall c :: c in st.locations ==> st.locations[c].parent.None? && c in st.rank
    requires st.open == [from] && st.closed == {}
    ensures Inv(g, s, size, from, to, st, None)
  {
  }

  /** Closing a chosen location other than the destination keeps the state, with that location to expand. */
  lemma CloseKeeps(g: Grid, s: FastPathfinderSettings, size: int, from: Coordinate, to: Coordinate,
                   st: SearchState, current: Coordinate)
    requires Inv(g, s, size, from, to, st, None) && current in st.open && current != to
    ensures Inv(g, s, size, from, to, CloseStep(st, current), Some(current))
    ensures current in CloseStep(st, current).closed && current !in st.closed
  {
    var st' := CloseStep(st, current);
    CloseSets(st, current);
    CloseRanked(g, s, size, st, current);
    CloseRooted(st, from, current);
    CloseCovered(g, s, size, st, current);
    assert from in st'.closed;
  }

  /** Closing moves a key from the open set to the closed set: the search holds the same locations. */
  lemma CloseSets(st: SearchState, current: Coordinate)
    requires Sets(st) && current in st.open
    ensures Sets(CloseStep(st, current)) && current !in st.closed
    ensures forall c :: InSearch(CloseStep(st, current), c) <==> InSearch(st, c)
  {
    var st' := CloseStep(st, current);
    WithoutDistinct(st.open, current);
    forall i | 0 <= i < |st'.open|
      ensures st'.open[i] in st.locations && st'.open[i] !in st'.closed
    {
      var x := st'.open[i];
      assert x in st.open && x != current;
      var j :| 0 <= j < |st.open| && st.open[j] == x;
    }
    var k :| 0 <= k < |st.open| && st.open[k] == current;
  }

  lemma CloseRanked(g: Grid, s: FastPathfinderSettings, size: int, st: SearchState, current: Coordinate)
    requires Rectangular(g) && Ranked(g, s, size, st)
    ensures Ranked(g, s, size, CloseStep(st, current))
  {
  }

  lemma CloseRooted(st: SearchState, from: Coordinate, current: Coordinate)
    requires Rooted(st, from)
    requires forall c :: InSearch(CloseStep(st, current), c) <==> InSearch(st, c)
    ensures Rooted(CloseStep(st, current), from)
  {
  }

  lemma CloseCovered(g: Grid, s: FastPathfinderSettings, size: int, st: SearchState, current: Coordinate)
    requires Rectangular(g) && Covered(g, s, size, st, None)
    requires forall c :: InSearch(CloseStep(st, current), c) <==> InSearch(st, c)
    ensures Covered(g, s, size, CloseStep(st, current), Some(current))
  {
  }

  /**
   * One slot keeps the state: the neighbour ends up in the search, nothing
   * leaves it, and the closed set stays.
   */
  lemma RelaxKeeps(g: Grid, s: FastPathfinderSettings, size: int, rule: Rule, from: Coordinate, to: Coordinate,
                   st: SearchState, current: Coordinate, neighbor: Option<Coordinate>)
    requires Inv(g, s, size, from, to, st, Some(current)) && current in st.closed
    requires neighbor.Some? ==> Step(g, s, size, current, neighbor.value)
    ensures neighbor.Some? ==> neighbor.value in st.locations
    ensures var st' := RelaxStep(g, s, rule, st, current, neighbor, to);
            Inv(g, s, size, from, to, st', Some(current)) && st'.closed == st.closed &&
            (forall c :: InSearch(st, c) ==> InSearch(st', c)) &&
            (neighbor.Some? ==> InSearch(st', neighbor.value))
  {
    if neighbor.Some? {
      var n := neighbor.value;
      StepInGrid(g, s, size, current, n);
      if n !in st.closed {
        var st' := RelaxStep(g, s, rule, st, current, neighbor, to);
        OfferAdopts(g, s, rule, st, current, n, to);
        AdoptSets(st, st', current, n);
        AdoptMatrix(g, st, st', current, n);
        AdoptRanked(g, s, size, st, st', current, n);
        AdoptRooted(st, st', from, current, n);
        AdoptCovered(g, s, size, st, st', Some(current));
        assert n != from;
      }
    }
  }

  /**
   * What an offer to n changes: nothing, or n's entry, which keeps its
   * position, takes the current location as parent and ranks one above it,
   * and joins the open set if it was not there.
   */
  ghost predicate Adopted(st: SearchState, st': SearchState, current: Coordinate, n: Coordinate) {
    st' == st ||
    (st'.closed == st.closed &&
     (forall c :: c in st'.locations <==> c in st.locations) &&
     (forall c :: c in st.locations && c != n ==> st'.locations[c] == st.locations[c]) &&
     (forall c :: c != n ==> (c in st'.rank <==> c in st.rank) && (c in st.rank ==> st'.rank[c] == st.rank[c])) &&
     n in st.locations && n in st'.locations && n in st'.rank && current in st.rank &&
     st'.locations[n].position == st.locations[n].position &&
     st'.locations[n].parent == Some(current) && st'.rank[n] == st.rank[current] + 1 &&
     (st'.open == st.open || (n !in st.open && st'.open == st.open + [n])))
  }

  lemma OfferAdopts(g: Grid, s: FastPathfinderSettings, rule: Rule, st: SearchState, current: Coordinate, n: Coordinate, to: Coordinate)
    requires Rectangular(g) && Matrix(g, st.locations) && current in st.locations && current in st.rank
    requires n in st.locations && n !in st.closed
    ensures var st' := RelaxStep(g, s, rule, st, current, Some(n), to);
            Adopted(st, st', current, n) && (n in st'.open || n in st.open) && st'.closed == st.closed
  {
  }

  lemma AdoptSets(st: SearchState, st': SearchState, current: Coordinate, n: Coordinate)
    requires Sets(st) && n !in st.closed && Adopted(st, st', current, n) && (n in st'.open || n in st.open)
    ensures Sets(st') && st'.closed == st.closed
    ensures forall c :: InSearch(st, c) ==> InSearch(st', c)
    ensures forall c :: InSearch(st', c) && c != n ==> InSearch(st, c)
    ensures InSearch(st', n)
  {
  }

  lemma AdoptMatrix(g: Grid, st: SearchState, st': SearchState, current: Coordinate, n: Coordinate)
    requires Matrix(g, st.locations) && (forall c :: c in st.locations ==> c in st.rank)
    requires Adopted(st, st', current, n)
    ensures Matrix(g, st'.locations) && (forall c :: c in st'.locations ==> c in st'.rank)
  {
  }

  lemma AdoptRanked(g: Grid, s: FastPathfinderSettings, size: int, st: SearchState, st': SearchState, current: Coordinate, n: Coordinate)
    requires Rectangular(g) && Ranked(g, s, size, st) && Adopted(st, st', current, n)
    requires current in st.closed && current in st.locations && n !in st.closed && Step(g, s, size, current, n)
    ensures Ranked(g, s, size, st')
  {
    if st' != st {
      forall c | c in st'.locations && st'.locations[c].parent.Some?
        ensures var p := st'.locations[c].parent.value;
                p in st'.closed && p in st'.locations && c in st'.rank && p in st'.rank &&
                st'.rank[p] < st'.rank[c] && Step(g, s, size, p, c)
      {
        if c != n {
          var p := st.locations[c].parent.value;
          assert p != n;
        }
      }
    }
  }

  lemma AdoptRooted(st: SearchState, st': SearchState, from: Coordinate, current: Coordinate, n: Coordinate)
    requires Rooted(st, from) && Adopted(st, st', current, n)
    requires forall c :: InSearch(st', c) && c != n ==> InSearch(st, c)
    ensures Rooted(st', from)
  {
  }

  lemma AdoptCovered(g: Grid, s: FastPathfinderSettings, size: int, st: SearchState, st': SearchState, except: Option<Coordinate>)
    requires Rectangular(g) && Covered(g, s, size, st, except) && st'.closed == st.closed
    requires forall c :: InSearch(st, c) ==> InSearch(st', c)
    ensures Covered(g, s, size, st', except)
  {
  }

  /** The invariant of the neighbour loop: the state holds and the slots before k are in the search. */
  ghost predicate Relaxed(g: Grid, s: FastPathfinderSettings, size: int, from: Coordinate, to: Coordinate,
                          st: SearchState, current: Coordinate, table: seq<Option<Coordinate>>, k: int)
  {
    Inv(g, s, size, from, to, st, Some(current)) && current in st.closed &&
    0 <= k <= |table| && table == NeighborTable(g, s, current, size) &&
    (forall j :: 0 <= j < k && table[j].Some? ==> InSearch(st, table[j].value))
  }

  lemma RelaxedNext(g: Grid, s: FastPathfinderSettings, size: int, rule: Rule, from: Coordinate, to: Coordinate,
                    st: SearchState, current: Coordinate, table: seq<Option<Coordinate>>, k: int)
    requires Relaxed(g, s, size, from, to, st, current, table, k) && k < |table|
    requires table[k].Some? ==> table[k].value in st.locations
    ensures Relaxed(g, s, size, from, to, RelaxStep(g, s, rule, st, current, table[k], to), current, table, k + 1)
  {
    assert table[k].Some? ==> Step(g, s, size, current, table[k].value);
    RelaxKeeps(g, s, size, rule, from, to, st, current, table[k]);
  }

  /** Once every slot is done, every move out of the expanded location stays in the search. */
  lemma ExpandDone(g: Grid, s: FastPathfinderSettings, size: int, from: Coordinate, to: Coordinate,
                   st: SearchState, current: Coordinate, table: seq<Option<Coordinate>>)
    requires Relaxed(g, s, size, from, to, st, current, table, |table|)
    ensures Inv(g, s, size, from, to, st, None)
  {
    forall b | Step(g, s, size, current, b)
      ensures InSearch(st, b)
    {
      var j :| 0 <= j < |table| && table[j] == Some(b);
    }
  }

  /** The destination chosen from the open set is found: its chain of parents starts at the start. */
  lemma FoundFacts(g: Grid, s: FastPathfinderSettings, size: int, from: Coordinate, to: Coordinate,
                   st0: SearchState, st: SearchState)
    requires Inv(g, s, size, from, to, st0, None) && to in st0.open
    requires st.locations == st0.locations && st.closed == st0.closed && st.rank == st0.rank
    ensures Found(g, s, size, from, to, st)
  {
  }

  /**
   * The choice of the next location. `AStar` takes `GetLowestCostLocation`,
   * the first open entry of least F, and leaves it open; the queue of
   * `CellBasedPathfinder` dequeues some open location.
   */
  method Select(lg: LocationGrid, rule: Rule) returns (current: Coordinate, ghost m: int)
    requires lg.Valid() && |lg.openSet| > 0
    requires forall i :: 0 <= i < |lg.openSet| ==> lg.openSet[i] in lg.locations
    modifies lg
    ensures current in old(lg.openSet) && lg.current == Some(current)
    ensures lg.locations == old(lg.locations) && lg.closedSet == old(lg.closedSet)
    ensures rule == AStarRule ==> lg.openSet == old(lg.openSet) &&
                                  FirstLowest(lg.openSet, lg.locations, m) && lg.openSet[m] == current
    ensures rule == CellBasedRule ==> lg.openSet == Without(old(lg.openSet), current)
  {
    if rule == AStarRule {
      var location;
      location, m := GetLowestCostLocation(lg.openSet, lg.locations);
      current := location.value.position;
    } else {
      assert lg.openSet[0] in lg.openSet;
      current :| current in lg.openSet;
      m := 0;
      lg.openSet := Without(lg.openSet, current);
    }
    lg.current := Some(current);
  }

  /** Closing the chosen location; the queue of `CellBasedPathfinder` already dropped it. */
  method Close(lg: LocationGrid, rule: Rule, current: Coordinate)
    modifies lg
    ensures lg.closedSet == old(lg.closedSet) + {current}
    ensures lg.openSet == if rule == AStarRule then Without(old(lg.openSet), current) else old(lg.openSet)
    ensures lg.locations == old(lg.locations) && lg.current == old(lg.current)
  {
    lg.closedSet := lg.closedSet + {current};
    if rule == AStarRule {
      lg.openSet := Without(lg.openSet, current);
    }
  }

  /** One slot of the neighbour loop, as each variant writes it. */
  method Relax(lg: LocationGrid, rule: Rule, agentSize: int, current: Coordinate, neighbor: Option<Coordinate>,
               to: Coordinate, ghost rank: map<Coordinate, nat>) returns (ghost rank': map<Coordinate, nat>)
    requires lg.Valid() && current in lg.locations && current in rank
    requires neighbor.Some? ==> Step(lg.grid, lg.Options(), agentSize, current, neighbor.value)
    modifies lg
    ensures neighbor.Some? ==> neighbor.value in old(lg.locations)
    ensures StateOf(lg, rank') == RelaxStep(lg.grid, lg.Options(), rule, old(StateOf(lg, rank)), current, neighbor, to)
    ensures lg.Valid() && lg.current == old(lg.current) && lg.closedSet == old(lg.closedSet)
  {
    rank' := rank;
    if neighbor.None? {
      return;
    }
    var n := neighbor.value;
    StepInGrid(lg.grid, lg.Options(), agentSize, current, n);
    MovesHaveTravelWeight(lg.grid, lg.Options(), agentSize, current, n);
    if n in lg.closedSet {
      return;
    }
    var weight := GetNeighborTravelWeight(lg.Options(), current, n);
    var scoreG := lg.locations[current].scoreG + weight.value + GetCellWeight(lg.grid, lg.Options(), n);
    if rule == AStarRule {
      rank' := OfferAStar(lg, current, n, scoreG, to, rank);
    } else {
      rank' := OfferCellBased(lg, current, n, scoreG, to, rank);
    }
  }

  /** The body of the `AStar` neighbour loop after the closed test, with its `isBestScore` flag. */
  method OfferAStar(lg: LocationGrid, current: Coordinate, n: Coordinate, scoreG: real, to: Coordinate,
                    ghost rank: map<Coordinate, nat>) returns (ghost rank': map<Coordinate, nat>)
    requires n in lg.locations && current in rank
    modifies lg
    ensures StateOf(lg, rank') == Offer(AStarRule, old(StateOf(lg, rank)), current, n, scoreG, to)
    ensures lg.current == old(lg.current) && lg.closedSet == old(lg.closedSet)
  {
    rank' := rank;
    var isBestScore := false;
    if n !in lg.openSet {
      isBestScore := true;
      var h := GetScoreH(n, to) as real;
      lg.locations := lg.locations[n := lg.locations[n].(scoreH := h)];
      lg.openSet := lg.openSet + [n];
    } else if scoreG < lg.locations[n].scoreG {
      isBestScore := true;
    }
    if isBestScore {
      var loc := lg.locations[n];
      lg.locations := lg.locations[n := loc.(parent := Some(current), scoreG := scoreG, scoreF := scoreG + loc.scoreH)];
      rank' := rank[n := rank[current] + 1];
    }
  }

  /** The body of the `CellBasedPathfinder` neighbour loop after the null and closed test. */
  method OfferCellBased(lg: LocationGrid, current: Coordinate, n: Coordinate, scoreG: real, to: Coordinate,
                        ghost rank: map<Coordinate, nat>) returns (ghost rank': map<Coordinate, nat>)
    requires n in lg.locations && current in rank
    modifies lg
    ensures StateOf(lg, rank') == Offer(CellBasedRule, old(StateOf(lg, rank)), current, n, scoreG, to)
    ensures lg.current == old(lg.current) && lg.closedSet == old(lg.closedSet)
  {
    rank' := rank;
    if n !in lg.openSet {
      var h := GetScoreH(n, to) as real;
      lg.locations := lg.locations[n := lg.locations[n].(parent := Some(current), scoreG := scoreG, scoreH := h)];
      lg.locations := lg.locations[n := lg.locations[n].(scoreF := scoreG + h)];
      lg.openSet := lg.openSet + [n];
      rank' := rank[n := rank[current] + 1];
    } else if scoreG + lg.locations[n].scoreH < lg.locations[n].scoreF {
      var loc := lg.locations[n];
      lg.locations := lg.locations[n := loc.(scoreG := scoreG, scoreF := scoreG + loc.scoreH, parent := Some(current))];
      rank' := rank[n := rank[current] + 1];
    }
  }

  /** The neighbour loop over the eight slots of the table `GetNeighbors` filled. */
  method RelaxSlots(lg: LocationGrid, rule: Rule, agentSize: int, current: Coordinate, from: Coordinate, to: Coordinate,
                    ghost rank: map<Coordinate, nat>) returns (ghost rank': map<Coordinate, nat>)
    requires lg.Valid() && lg.neighbors[..] == NeighborTable(lg.grid, lg.Options(), current, agentSize)
    requires Inv(lg.grid, lg.Options(), agentSize, from, to, StateOf(lg, rank), Some(current)) && current in lg.closedSet
    modifies lg
    ensures lg.Valid() && lg.closedSet == old(lg.closedSet) && lg.current == old(lg.current)
    ensures Inv(lg.grid, lg.Options(), agentSize, from, to, StateOf(lg, rank'), None)
  {
    rank' := rank;
    ghost var g, s, table := lg.grid, lg.Options(), lg.neighbors[..];
    for k := 0 to lg.neighbors.Length
      invariant lg.Valid() && lg.closedSet == old(lg.closedSet) && lg.current == old(lg.current)
      invariant lg.grid == g && lg.Options() == s && lg.neighbors[..] == table
      invariant Relaxed(g, s, agentSize, from, to, StateOf(lg, rank'), current, table, k)
    {
      rank' := RelaxSlot(lg, rule, agentSize, current, from, to, g, s, table, k, rank');
    }
    ExpandDone(g, s, agentSize, from, to, StateOf(lg, rank'), current, table);
  }

  /** One turn of the neighbour loop: slot `k` relaxed, the earlier slots kept. */
  method RelaxSlot(lg: LocationGrid, rule: Rule, agentSize: int, current: Coordinate, from: Coordinate, to: Coordinate,
                   ghost g: Grid, ghost s: FastPathfinderSettings, ghost table: seq<Option<Coordinate>>, k: int,
                   ghost rank: map<Coordinate, nat>)
    returns (ghost rank': map<Coordinate, nat>)
    requires lg.Valid() && lg.grid == g && lg.Options() == s && lg.neighbors[..] == table && k < |table|
    requires Relaxed(g, s, agentSize, from, to, StateOf(lg, rank), current, table, k)
    modifies lg
    ensures lg.Valid() && lg.closedSet == old(lg.closedSet) && lg.current == old(lg.current)
    ensures Relaxed(g, s, agentSize, from, to, StateOf(lg, rank'), current, table, k + 1)
  {
    ghost var st := StateOf(lg, rank);
    var neighbor := lg.neighbors[k];
    assert neighbor == table[k];
    assert neighbor.Some? ==> Step(g, s, agentSize, current, neighbor.value);
    rank' := Relax(lg, rule, agentSize, current, neighbor, to, rank);
    RelaxedNext(g, s, agentSize, rule, from, to, st, current, table, k);
  }

  /**
   * The main loop: while the open set is not empty, choose a location; stop
   * at the destination, otherwise close it and relax its neighbours. On
   * return the current location is the destination, with its chain of
   * parents in place, or the destination is unreachable.
   */
  method Explore(lg: LocationGrid, rule: Rule, agentSize: int, from: Coordinate, to: Coordinate,
                 ghost rank: map<Coordinate, nat>) returns (ghost rank': map<Coordinate, nat>)
    requires lg.Valid() && Inv(lg.grid, lg.Options(), agentSize, from, to, StateOf(lg, rank), None)
    requires lg.current == None && lg.openSet == [from]
    modifies lg, lg.neighbors
    ensures lg.Valid() && lg.current.Some?
    ensures lg.current == Some(to) ==> Found(lg.grid, lg.Options(), agentSize, from, to, StateOf(lg, rank'))
    ensures lg.current != Some(to) ==> !Reachable(lg.grid, lg.Options(), agentSize, from, to)
  {
    rank' := rank;
    ghost var all := lg.locations.Keys;
    while |lg.openSet| > 0
      invariant lg.Valid() && Inv(lg.grid, lg.Options(), agentSize, from, to, StateOf(lg, rank'), None)
      invariant lg.closedSet <= all && lg.current != Some(to)
      invariant lg.current.None? ==> |lg.openSet| > 0
      decreases all - lg.closedSet
    {
      ghost var st0 := StateOf(lg, rank');
      var current, m := Select(lg, rule);
      if current == to {
        FoundFacts(lg.grid, lg.Options(), agentSize, from, to, st0, StateOf(lg, rank'));
        return;
      }
      rank' := Expand(lg, rule, agentSize, current, from, to, st0, rank');
    }
    ClosedSetEncloses(lg.grid, lg.Options(), agentSize, from, to, StateOf(lg, rank'));
  }

  /** One pass of the main loop past the destination test: close the location and relax its neighbours. */
  method Expand(lg: LocationGrid, rule: Rule, agentSize: int, current: Coordinate, from: Coordinate, to: Coordinate,
                ghost st0: SearchState, ghost rank: map<Coordinate, nat>) returns (ghost rank': map<Coordinate, nat>)
    requires lg.Valid() && Inv(lg.grid, lg.Options(), agentSize, from, to, st0, None)
    requires current in st0.open && current != to && rank == st0.rank
    requires lg.locations == st0.locations && lg.closedSet == st0.closed
    requires lg.openSet == if rule == AStarRule then st0.open else Without(st0.open, current)
    modifies lg, lg.neighbors
    ensures lg.Valid() && Inv(lg.grid, lg.Options(), agentSize, from, to, StateOf(lg, rank'), None)
    ensures lg.closedSet == st0.closed + {current} && lg.current == old(lg.current)
  {
    Close(lg, rule, current);
    assert StateOf(lg, rank) == CloseStep(st0, current);
    CloseKeeps(lg.grid, lg.Options(), agentSize, from, to, st0, current);
    var neighbors := lg.GetNeighbors(current, agentSize);
    rank' := RelaxSlots(lg, rule, agentSize, current, from, to, rank);
  }

  /** `ReconstructPath` of `AStar`: each location's position is inserted at the front of a list. */
  method ReconstructWithList(lg: LocationGrid, last: Coordinate, ghost agentSize: int, ghost rank: map<Coordinate, nat>)
    returns (path: seq<Coordinate>)
    requires Rectangular(lg.grid) && Ranked(lg.grid, lg.Options(), agentSize, StateOf(lg, rank)) && last in lg.locations
    requires forall c :: c in lg.locations ==> lg.locations[c].position == c
    ensures path == Lineage(lg.grid, lg.Options(), agentSize, StateOf(lg, rank), last)
  {
    ghost var st := StateOf(lg, rank);
    path := [];
    var current: Option<Coordinate> := Some(last);
    while current.Some?
      invariant current.Some? ==> current.value in lg.locations &&
                                  Lineage(lg.grid, lg.Options(), agentSize, st, current.value) + path ==
                                  Lineage(lg.grid, lg.Options(), agentSize, st, last)
      invariant current.None? ==> path == Lineage(lg.grid, lg.Options(), agentSize, st, last)
      decreases if current.Some? then (if current.value in rank then rank[current.value] + 2 else 1) else 0
    {
      var location := lg.locations[current.value];
      assert location.parent.Some? ==> location.parent.value in rank && rank[location.parent.value] < rank[current.value];
      path := [location.position] + path;
      current := location.parent;
    }
  }

  /** Stack.ToArray: the items in the order they would be popped, the last pushed first. */
  function Reversed(stack: seq<Coordinate>): (r: seq<Coordinate>)
    ensures |r| == |stack| && forall i :: 0 <= i < |stack| ==> r[i] == stack[|stack| - 1 - i]
  {
    if stack == [] then [] else Reversed(stack[1..]) + [stack[0]]
  }

  /** `ReconstructPath` of `CellBasedPathfinder`: positions pushed from the destination back, then popped. */
  method ReconstructWithStack(lg: LocationGrid, last: Coordinate, ghost agentSize: int, ghost rank: map<Coordinate, nat>)
    returns (path: seq<Coordinate>)
    requires Rectangular(lg.grid) && Ranked(lg.grid, lg.Options(), agentSize, StateOf(lg, rank)) && last in lg.locations
    requires forall c :: c in lg.locations ==> lg.locations[c].position == c
    ensures path == Lineage(lg.grid, lg.Options(), agentSize, StateOf(lg, rank), last)
  {
    ghost var st := StateOf(lg, rank);
    var stack: seq<Coordinate> := [];
    var current: Option<Coordinate> := Some(last);
    while current.Some?
      invariant current.Some? ==> current.value in lg.locations &&
                                  Lineage(lg.grid, lg.Options(), agentSize, st, current.value) + Reversed(stack) ==
                                  Lineage(lg.grid, lg.Options(), agentSize, st, last)
      invariant current.None? ==> Reversed(stack) == Lineage(lg.grid, lg.Options(), agentSize, st, last)
      decreases if current.Some? then (if current.value in rank then rank[current.value] + 2 else 1) else 0
    {
      var location := lg.locations[current.value];
      assert location.parent.Some? ==> location.parent.value in rank && rank[location.parent.value] < rank[current.value];
      assert Reversed(stack + [location.position]) == [location.position] + Reversed(stack);
      stack := stack + [location.position];
      current := location.parent;
    }
    path := Reversed(stack);
  }

  /**
   * `GetPathResult`: reset the grid, open the start with F = H, search, and
   * reconstruct the path when the search stopped at the destination. A
   * start outside the grid has a null location, which the code
   * dereferences. The path is empty exactly when the destination cannot be
   * reached; otherwise it is a walk from the start to the destination.
   */
  method GetPathResult(lg: LocationGrid, rule: Rule, agentSize: int, from: Coordinate, to: Coordinate)
    returns (r: Result<GridModel.PathResult>)
    requires lg.Valid()
    modifies lg, lg.neighbors
    ensures lg.Valid()
    ensures r.Err? <==> !InGrid(lg.grid, from.x, from.y)
    ensures r.Err? ==> r.error == NullReference
    ensures r.Ok? ==> Answers(lg.grid, lg.Options(), agentSize, from, to, r.value.path)
    ensures r.Ok? ==> (r.value.IsPathFound() <==> Reachable(lg.grid, lg.Options(), agentSize, from, to))
  {
    lg.Reset();
    var start := lg.GetLocation(from);
    if start.None? {
      return Err(NullReference);
    }
    lg.locations := lg.locations[from := lg.locations[from].(scoreF := GetScoreH(from, to) as real)];
    lg.openSet := lg.openSet + [from];
    ghost var rank: map<Coordinate, nat> := map c | c in lg.locations :: 0;
    StartKeeps(lg.grid, lg.Options(), agentSize, from, to, StateOf(lg, rank));
    rank := Explore(lg, rule, agentSize, from, to, rank);
    var path := ResultPath(lg, rule, agentSize, from, to, rank);
    r := Ok(GridModel.PathResult(path));
  }

  /** The end of `GetPathResult`: the reconstructed path when the search stopped at the destination, or none. */
  method ResultPath(lg: LocationGrid, rule: Rule, agentSize: int, from: Coordinate, to: Coordinate,
                    ghost rank: map<Coordinate, nat>) returns (path: seq<Coordinate>)
    requires lg.Valid() && lg.current.Some?
    requires lg.current == Some(to) ==> Found(lg.grid, lg.Options(), agentSize, from, to, StateOf(lg, rank))
    requires lg.current != Some(to) ==> !Reachable(lg.grid, lg.Options(), agentSize, from, to)
    ensures Answers(lg.grid, lg.Options(), agentSize, from, to, path)
  {
    path := [];
    if lg.current.value == to {
      if rule == AStarRule {
        path := ReconstructWithList(lg, to, agentSize, rank);
      } else {
        path := ReconstructWithStack(lg, to, agentSize, rank);
      }
      LineageShape(lg.grid, lg.Options(), agentSize, from, StateOf(lg, rank), to);
    } else {
      ReachableSelf(lg.grid, lg.Options(), agentSize, from);
    }
  }
}
