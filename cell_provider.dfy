/**
 * The cell provider (`ICellProvider`): the buffer of cells a grid engine
 * searches in place. `GetCellPointer(x, y)` is the cell's index in the
 * buffer.
 */
module CellProviders {
  import opened Cells
  import opened GridModel

  class CellProvider {
    const width: int
    const height: int
    const cells: array<Cell>

    /** The buffer holds `height` rows of `width` cells, each at its own position. */
    ghost predicate Valid()
      reads this, cells
    {
      Laid(cells[..], width, height)
    }

    /** The setup of a search reads this provider's extent, and the buffer has that many cells. */
    predicate Serves(g: Setup)
      reads this
    {
      width == g.pw && height == g.ph && cells.Length == g.pw * g.ph
    }

    constructor (width: int, height: int, cs: seq<Cell>)
      requires Laid(cs, width, height)
      ensures this.width == width && this.height == height && cells[..] == cs && fresh(cells)
      ensures Valid()
    {
      this.width := width;
      this.height := height;
      cells := new Cell[|cs|](i requires 0 <= i < |cs| => cs[i]);
    }

    /** `ResetCells`: `Reset` on every cell of the buffer. */
    method ResetCells()
      requires Valid()
      modifies cells
      ensures forall i :: 0 <= i < cells.Length ==> cells[i] == old(cells[i]).Reset()
      ensures Valid()
    {
      for i := 0 to cells.Length
        invariant forall j :: 0 <= j < i ==> cells[j] == old(cells[j]).Reset()
        invariant forall j :: i <= j < cells.Length ==> cells[j] == old(cells[j])
      {
        cells[i] := cells[i].Reset();
      }
    }
  }
}
