/** Cell symbols, coordinates, headings and the grid value a board holds. */
module Cells {

  datatype Option<T> = None | Some(value: T)

  /** What a board cell holds; the source stores colour-coded strings. */
  datatype Symbol = Grid | Wall | Food | SnakeBody

  /** A (row, column) pair; rows grow downward, columns rightward. */
  datatype Coord = Coord(r: int, c: int)

  /** The four headings, the keys of the snake's delta table. */
  datatype Heading = Up | Down | Left | Right

  /** The delta table `movement_dicts`. */
  function Delta(h: Heading): Coord
  {
    match h
    case Up => Coord(-1, 0)
    case Down => Coord(1, 0)
    case Left => Coord(0, -1)
    case Right => Coord(0, 1)
  }

  /** Component-wise addition of two coordinates (`add_position`). */
  function Add(a: Coord, b: Coord): Coord
  {
    Coord(a.r + b.r, a.c + b.c)
  }

  /** Two cells that share a side. */
  predicate Adjacent(p: Coord, q: Coord)
  {
    (p.r == q.r && (q.c == p.c + 1 || q.c == p.c - 1)) ||
    (p.c == q.c && (q.r == p.r + 1 || q.r == p.r - 1))
  }

  /** The cell one move away from `p` in heading `h`. */
  function Step(p: Coord, h: Heading): (q: Coord)
    ensures Adjacent(p, q) && Adjacent(q, p)
  {
    Add(p, Delta(h))
  }

  /** The direct reverse of a heading. */
  function Opposite(h: Heading): (o: Heading)
    ensures o != h
  {
    match h
    case Up => Down
    case Down => Up
    case Left => Right
    case Right => Left
  }

  /** Moving in the reverse heading undoes a move. */
  lemma OppositeUndoesStep(p: Coord, h: Heading)
    ensures Step(Step(p, h), Opposite(h)) == p
  {
    match h
    case Up =>
    case Down =>
    case Left =>
    case Right =>
  }

  /** The board's list of rows, each a list of cells. */
  type CellRows = seq<seq<Symbol>>

  /** `g` has `rows` rows of `cols` cells each. */
  predicate Shaped(g: CellRows, rows: int, cols: int)
  {
    |g| == rows && forall r :: 0 <= r < |g| ==> |g[r]| == cols
  }

  predicate InGrid(g: CellRows, p: Coord)
  {
    0 <= p.r < |g| && 0 <= p.c < |g[p.r]|
  }

  function At(g: CellRows, p: Coord): Symbol
    requires InGrid(g, p)
  {
    g[p.r][p.c]
  }

  /** The grid with the one cell at `p` replaced by `s`. */
  function Put(g: CellRows, p: Coord, s: Symbol): (g': CellRows)
    requires InGrid(g, p)
    ensures |g'| == |g| && forall r :: 0 <= r < |g| ==> |g'[r]| == |g[r]|
    ensures forall q :: InGrid(g, q) ==> At(g', q) == if q == p then s else At(g, q)
  {
    g[p.r := g[p.r][p.c := s]]
  }

  /** The outermost ring of a `rows` x `cols` grid. */
  predicate OnRing(rows: int, cols: int, p: Coord)
  {
    p.r == 0 || p.r == rows - 1 || p.c == 0 || p.c == cols - 1
  }

  /**
   * `Board.is_valid_coord`: strictly inside the wall ring. It looks at the
   * coordinate only, so an obstacle wall inside the ring is still valid.
   */
  function IsValidCoord(rows: int, cols: int, p: Coord): (ok: bool)
    ensures ok <==> 0 <= p.r < rows && 0 <= p.c < cols && !OnRing(rows, cols, p)
  {
    1 <= p.r < rows - 1 && 1 <= p.c < cols - 1
  }

  /** Every ring cell of `g` is Wall. */
  ghost predicate RingIsWall(g: CellRows, rows: int, cols: int)
  {
    forall p :: InGrid(g, p) && OnRing(rows, cols, p) ==> At(g, p) == Wall
  }

  /** Two grids of the same shape that agree cell by cell are equal. */
  lemma CellsEqual(g: CellRows, h: CellRows)
    requires |g| == |h| && forall r :: 0 <= r < |g| ==> |g[r]| == |h[r]|
    requires forall p :: InGrid(g, p) ==> At(g, p) == At(h, p)
    ensures g == h
  {
    forall r | 0 <= r < |g|
      ensures g[r] == h[r]
    {
      forall c | 0 <= c < |g[r]|
        ensures g[r][c] == h[r][c]
      {
        assert At(g, Coord(r, c)) == At(h, Coord(r, c));
      }
    }
  }

  /** Writes to two different cells commute. */
  lemma PutCommutes(g: CellRows, p: Coord, a: Symbol, q: Coord, b: Symbol)
    requires InGrid(g, p) && InGrid(g, q) && p != q
    ensures Put(Put(g, p, a), q, b) == Put(Put(g, q, b), p, a)
  {
    CellsEqual(Put(Put(g, p, a), q, b), Put(Put(g, q, b), p, a));
  }

  /** A later write to a cell hides an earlier one; writing a cell's own value changes nothing. */
  lemma PutOverwrites(g: CellRows, p: Coord, a: Symbol, b: Symbol)
    requires InGrid(g, p)
    ensures Put(Put(g, p, a), p, b) == Put(g, p, b)
    ensures Put(g, p, At(g, p)) == g
  {
    CellsEqual(Put(Put(g, p, a), p, b), Put(g, p, b));
    CellsEqual(Put(g, p, At(g, p)), g);
  }
}
