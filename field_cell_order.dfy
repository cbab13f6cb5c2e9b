/**
 * `Utils.FieldCellComparison` of the Unity demo: orders field cells by the
 * Y of their cell coordinate, then by X. Only the coordinates are read, so
 * the model compares coordinates.
 */
module FieldCellOrder {
  import opened Coordinates
  import GridIndex

  /** `int.CompareTo`: -1, 0 or 1. */
  function CompareTo(a: int, b: int): int {
    if a < b then -1 else if a > b then 1 else 0
  }

  function FieldCellComparison(a: Coordinate, b: Coordinate): int {
    var result := CompareTo(a.y, b.y);
    if result == 0 then CompareTo(a.x, b.x) else result
  }

  lemma ComparisonByRowThenColumn(a: Coordinate, b: Coordinate)
    ensures a.y != b.y ==> FieldCellComparison(a, b) == CompareTo(a.y, b.y)
    ensures a.y == b.y ==> FieldCellComparison(a, b) == CompareTo(a.x, b.x)
    ensures FieldCellComparison(a, b) == 0 <==> a == b
    ensures FieldCellComparison(a, b) == -FieldCellComparison(b, a)
  {
  }

  lemma ComparisonTransitive(a: Coordinate, b: Coordinate, c: Coordinate)
    ensures FieldCellComparison(a, b) <= 0 && FieldCellComparison(b, c) <= 0 ==> FieldCellComparison(a, c) <= 0
  {
  }

  /** Inside a grid of row length w, the comparison is the order of the flattened index `row·w + column`. */
  lemma {:induction false} ComparisonIsRowMajor(a: Coordinate, b: Coordinate, w: int)
    requires 0 <= a.x < w && 0 <= b.x < w
    ensures FieldCellComparison(a, b) < 0 <==> GridIndex.GetCellIndex(a.x, a.y, w) < GridIndex.GetCellIndex(b.x, b.y, w)
  {
    var ia, ib := GridIndex.GetCellIndex(a.x, a.y, w), GridIndex.GetCellIndex(b.x, b.y, w);
    if a.y < b.y {
      GridIndex.MulAtLeast(b.y - a.y, w);
      assert ib - ia == (b.y - a.y) * w + b.x - a.x;
    } else if a.y > b.y {
      GridIndex.MulAtLeast(a.y - b.y, w);
      assert ia - ib == (a.y - b.y) * w + a.x - b.x;
    }
  }

  predicate InGrid(c: Coordinate, w: int, h: int) { 0 <= c.x < w && 0 <= c.y < h }

  /**
   * `Array.Sort(_fieldCells, FieldCellComparison)` over one field cell per
   * grid position puts the cell of position (x, y) at index y·w + x, which is
   * where `GetFieldIndex(column, row)` looks it up.
   */
  lemma {:induction false} SortedFieldIsRowMajor(s: seq<Coordinate>, w: int, h: int)
    requires w > 0 && h >= 0 && |s| == w * h
    requires forall i :: 0 <= i < |s| ==> InGrid(s[i], w, h)
    requires forall i, j :: 0 <= i < j < |s| ==> s[i] != s[j]
    requires forall i, j :: 0 <= i < j < |s| ==> FieldCellComparison(s[i], s[j]) <= 0
    ensures forall i :: 0 <= i < |s| ==> GridIndex.GetCellIndex(s[i].x, s[i].y, w) == i
  {
    var idx := seq(|s|, i requires 0 <= i < |s| => GridIndex.GetCellIndex(s[i].x, s[i].y, w));
    forall i, j | 0 <= i < j < |s| ensures idx[i] < idx[j] {
      ComparisonByRowThenColumn(s[i], s[j]);
      ComparisonIsRowMajor(s[i], s[j], w);
    }
    forall i | 0 <= i < |s| ensures 0 <= idx[i] < |s| {
      GridIndex.IndexInGrid(s[i].x, s[i].y, w, h);
    }
    IncreasingInRangeIsIdentity(idx);
    forall i | 0 <= i < |s| ensures GridIndex.GetCellIndex(s[i].x, s[i].y, w) == i {
      assert idx[i] == i;
    }
  }

  /** A strictly increasing sequence of n values in [0, n) is 0, 1, …, n-1. */
  lemma {:induction false} IncreasingInRangeIsIdentity(idx: seq<int>)
    requires forall i, j :: 0 <= i < j < |idx| ==> idx[i] < idx[j]
    requires forall i :: 0 <= i < |idx| ==> 0 <= idx[i] < |idx|
    ensures forall i :: 0 <= i < |idx| ==> idx[i] == i
  {
    forall i | 0 <= i < |idx| ensures idx[i] == i {
      AtLeastPosition(idx, i);
      AtMostPosition(idx, i);
    }
  }

  lemma {:induction false} AtLeastPosition(idx: seq<int>, i: int)
    requires 0 <= i < |idx|
    requires forall p, q :: 0 <= p < q < |idx| ==> idx[p] < idx[q]
    requires forall p :: 0 <= p < |idx| ==> 0 <= idx[p]
    ensures idx[i] >= i
  {
    if i > 0 {
      AtLeastPosition(idx, i - 1);
    }
  }

  lemma {:induction false} AtMostPosition(idx: seq<int>, i: int)
    requires 0 <= i < |idx|
    requires forall p, q :: 0 <= p < q < |idx| ==> idx[p] < idx[q]
    requires forall p :: 0 <= p < |idx| ==> idx[p] < |idx|
    ensures idx[i] <= i
    decreases |idx| - i
  {
    if i < |idx| - 1 {
      AtMostPosition(idx, i + 1);
    }
  }
}
