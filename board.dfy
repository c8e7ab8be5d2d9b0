/** The game board: a grid of cell symbols with a wall ring, updated in place. */
module Boards {
  import opened Cells

  class Board {
    /** `height()`: one less than the terminal's row count. */
    const rows: int
    /** `width()`: half the terminal's column count, since a cell is drawn two columns wide. */
    const columns: int
    /** The list of rows; `Set` rewrites one cell of it. */
    var cells: CellRows

    predicate Valid()
      reads this
    {
      rows >= 1 && columns >= 1 && Shaped(cells, rows, columns)
    }

    function Height(): int { rows }

    function Width(): int { columns }

    /**
     * Builds the board for a terminal of `terminalRows` x `terminalColumns`:
     * every cell Grid, then the first and last rows and the first and last
     * cell of every row Wall. A terminal under 2 x 2 leaves no row or no
     * column, and the first index into it fails.
     */
    constructor (terminalRows: int, terminalColumns: int)
      requires terminalRows >= 2 && terminalColumns >= 2
      ensures Valid()
      ensures Height() == terminalRows - 1 && Width() == terminalColumns / 2
      ensures forall p :: InGrid(cells, p) ==>
                At(cells, p) == if OnRing(rows, columns, p) then Wall else Grid
    {
      var h := terminalRows - 1;
      var w := terminalColumns / 2;
      var g: CellRows := seq(h, _ => seq(w, _ => Grid));
      g := g[0 := seq(w, _ => Wall)];
      g := g[h - 1 := seq(w, _ => Wall)];
      var i := 0;
      while i < h
        invariant 0 <= i <= h
        invariant Shaped(g, h, w)
        invariant forall r, c :: 0 <= r < h && 0 <= c < w ==>
                    g[r][c] == if r == 0 || r == h - 1 || (r < i && (c == 0 || c == w - 1)) then Wall else Grid
      {
        g := g[i := g[i][0 := Wall][w - 1 := Wall]];
        i := i + 1;
      }
      rows, columns, cells := h, w, g;
    }

    /** `get`: the symbol at a cell of the grid. */
    function Get(p: Coord): Symbol
      reads this
      requires Valid() && InGrid(cells, p)
    {
      At(cells, p)
    }

    /** `set`: assigns one cell in place; every other cell keeps its symbol. */
    method Set(p: Coord, v: Symbol)
      requires Valid() && InGrid(cells, p)
      modifies this
      ensures Valid()
      ensures cells == Put(old(cells), p, v)
      ensures At(cells, p) == v
      ensures forall q :: InGrid(cells, q) && q != p ==> At(cells, q) == old(At(cells, q))
    {
      cells := cells[p.r := cells[p.r][p.c := v]];
    }
  }

  /**
   * Where `Board.draw` puts a cell on the terminal: the row is kept, the
   * column doubled, and both moved to the terminal's 1-based addressing.
   */
  function TerminalCursor(p: Coord): Coord
  {
    Coord(p.r + 1, p.c * 2 + 1)
  }

  /** Distinct cells are drawn at distinct terminal positions, one blank column apart. */
  lemma TerminalCursorSeparates(p: Coord, q: Coord)
    requires p != q
    ensures TerminalCursor(p) != TerminalCursor(q)
    ensures p.r == q.r ==> TerminalCursor(p).c - TerminalCursor(q).c != 1
  {
  }
}
