/** `Utils.GetCellIndex`: row-major flattening of a grid position. */
module GridIndex {
  /** The stride parameter is named `height` in the source; it is the row length. */
  function GetCellIndex(x: int, y: int, height: int): int {
    y * height + x
  }

  lemma IndexSteps(x: int, y: int, s: int)
    ensures GetCellIndex(0, 0, s) == 0
    ensures GetCellIndex(x + 1, y, s) == GetCellIndex(x, y, s) + 1
    ensures GetCellIndex(x, y + 1, s) == GetCellIndex(x, y, s) + s
  {
  }

  lemma {:induction false} MulAtLeast(d: int, s: int)
    requires d >= 1 && s > 0
    ensures d * s >= s
  {
    if d > 1 {
      MulAtLeast(d - 1, s);
      assert d * s == (d - 1) * s + s;
    }
  }

  /** Euclidean division is unique: a quotient/remainder pair is the one `/` and `%` give. */
  lemma DivModUnique(i: int, s: int, q: int, r: int)
    requires s > 0 && 0 <= r < s && i == q * s + r
    ensures i / s == q && i % s == r
  {
    var q', r' := i / s, i % s;
    assert i == q' * s + r' && 0 <= r' < s;
    if q' > q {
      MulAtLeast(q' - q, s);
    } else if q' < q {
      MulAtLeast(q - q', s);
    }
  }

  /** Within a row, the index is undone by (i mod s, i div s). */
  lemma IndexInverse(x: int, y: int, s: int)
    requires s > 0 && 0 <= x < s
    ensures GetCellIndex(x, y, s) % s == x
    ensures GetCellIndex(x, y, s) / s == y
  {
    DivModUnique(GetCellIndex(x, y, s), s, y, x);
  }

  lemma IndexInjective(x1: int, y1: int, x2: int, y2: int, s: int)
    requires s > 0 && 0 <= x1 < s && 0 <= x2 < s
    ensures GetCellIndex(x1, y1, s) == GetCellIndex(x2, y2, s) <==> x1 == x2 && y1 == y2
  {
    IndexInverse(x1, y1, s);
    IndexInverse(x2, y2, s);
  }

  /** Positions inside a w×h grid land in [0, w·h). */
  lemma {:induction false} IndexInGrid(x: int, y: int, w: int, h: int)
    requires 0 <= x < w && 0 <= y < h
    ensures 0 <= GetCellIndex(x, y, w) < w * h
  {
    assert y * w <= (h - 1) * w;
    assert (h - 1) * w + w == h * w;
  }

  /** Every index of a w×h grid comes from exactly one in-grid position. */
  lemma {:induction false} IndexOnto(i: int, w: int, h: int)
    requires w > 0 && 0 <= i < w * h
    ensures 0 <= i % w < w && 0 <= i / w < h
    ensures GetCellIndex(i % w, i / w, w) == i
  {
    if i / w >= h {
      MulAtLeast(1 + i / w - h, w);
    }
    DivModUnique(i, w, i / w, i % w);
  }
}
