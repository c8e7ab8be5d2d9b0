/**
 * Placing food and obstacles. The source draws coordinates with `randint`
 * and retries until one fits; here the draws are a sequence the caller
 * supplies, tried in order.
 */
module Spawning {
  import opened Cells
  import opened Boards

  /** `spawn_new_food` accepts a valid coordinate whose cell is neither snake nor wall (food is allowed). */
  predicate FoodAllowed(rows: int, cols: int, g: CellRows, p: Coord)
    requires Shaped(g, rows, cols)
  {
    IsValidCoord(rows, cols, p) && At(g, p) != SnakeBody && At(g, p) != Wall
  }

  /** The index of the first acceptable candidate, or `|cands|` when none is. */
  function FirstFoodIndex(rows: int, cols: int, g: CellRows, cands: seq<Coord>): (k: nat)
    requires Shaped(g, rows, cols)
    ensures k <= |cands|
    ensures forall i :: 0 <= i < k ==> !FoodAllowed(rows, cols, g, cands[i])
    ensures k < |cands| ==> FoodAllowed(rows, cols, g, cands[k])
    decreases |cands|
  {
    if cands == [] then 0
    else if FoodAllowed(rows, cols, g, cands[0]) then 0
    else 1 + FirstFoodIndex(rows, cols, g, cands[1..])
  }

  /** The board after food is placed at the first acceptable candidate, if any. */
  function SpawnedCells(rows: int, cols: int, g: CellRows, cands: seq<Coord>): (g': CellRows)
    requires Shaped(g, rows, cols)
    ensures Shaped(g', rows, cols)
  {
    var k := FirstFoodIndex(rows, cols, g, cands);
    if k < |cands| then Put(g, cands[k], Food) else g
  }

  /**
   * Placing food writes Food to one acceptable cell and nothing else: a
   * snake or wall cell, and a cell outside the interior, keep their symbol.
   */
  lemma SpawnTouchesOneAllowedCell(rows: int, cols: int, g: CellRows, cands: seq<Coord>, q: Coord)
    requires Shaped(g, rows, cols) && InGrid(g, q)
    ensures var g' := SpawnedCells(rows, cols, g, cands);
            At(g', q) == At(g, q) || (At(g', q) == Food && FoodAllowed(rows, cols, g, q))
  {
  }

  /** `spawn_new_food`: tries the candidates in order and writes Food to the first acceptable one. */
  method SpawnNewFood(board: Board, cands: seq<Coord>) returns (placed: Option<Coord>)
    requires board.Valid()
    modifies board
    ensures board.Valid()
    ensures var k := FirstFoodIndex(board.rows, board.columns, old(board.cells), cands);
            placed == if k < |cands| then Some(cands[k]) else None
    ensures board.cells == SpawnedCells(board.rows, board.columns, old(board.cells), cands)
  {
    var i := 0;
    while i < |cands|
      invariant 0 <= i <= |cands|
      invariant board.cells == old(board.cells)
      invariant forall j :: 0 <= j < i ==> !FoodAllowed(board.rows, board.columns, board.cells, cands[j])
    {
      var p := cands[i];
      if !IsValidCoord(board.rows, board.columns, p) || board.Get(p) in [SnakeBody, Wall] {
        i := i + 1;
        continue;
      }
      board.Set(p, Food);
      return Some(p);
    }
    return None;
  }

  /** The obstacle cell at row `y`, column `x` of a shape anchored at `anchor` lands on a valid Grid cell. */
  predicate ObstacleCellFree(rows: int, cols: int, g: CellRows, anchor: Coord, y: int, x: int)
    requires Shaped(g, rows, cols)
  {
    IsValidCoord(rows, cols, Coord(anchor.r + y, anchor.c + x)) &&
    At(g, Coord(anchor.r + y, anchor.c + x)) !in [SnakeBody, Food, Wall]
  }

  /** `obstacle_validate`: every position of the shape, blanks included, lands on a free cell. */
  predicate ObstacleFits(rows: int, cols: int, g: CellRows, anchor: Coord, shape: seq<string>)
    requires Shaped(g, rows, cols)
  {
    forall y, x :: 0 <= y < |shape| && 0 <= x < |shape[y]| ==> ObstacleCellFree(rows, cols, g, anchor, y, x)
  }

  /** `obstacle_validate` as the source runs it: a nested scan that stops at the first bad cell. */
  method ObstacleValidate(board: Board, anchor: Coord, shape: seq<string>) returns (ok: bool)
    requires board.Valid()
    ensures ok == ObstacleFits(board.rows, board.columns, board.cells, anchor, shape)
  {
    var y := 0;
    while y < |shape|
      invariant 0 <= y <= |shape|
      invariant forall yy, x :: 0 <= yy < y && 0 <= x < |shape[yy]| ==>
                  ObstacleCellFree(board.rows, board.columns, board.cells, anchor, yy, x)
    {
      var x := 0;
      while x < |shape[y]|
        invariant 0 <= x <= |shape[y]|
        invariant forall yy, xx :: ((0 <= yy < y && 0 <= xx < |shape[yy]|) || (yy == y && 0 <= xx < x)) ==>
                    ObstacleCellFree(board.rows, board.columns, board.cells, anchor, yy, xx)
      {
        var p := Coord(anchor.r + y, anchor.c + x);
        if !IsValidCoord(board.rows, board.columns, p) || board.Get(p) in [SnakeBody, Food, Wall] {
          assert !ObstacleCellFree(board.rows, board.columns, board.cells, anchor, y, x);
          return false;
        }
        x := x + 1;
      }
      y := y + 1;
    }
    return true;
  }

  /** The shape has an 'x' at the position that lands on `p`. */
  predicate IsBrick(anchor: Coord, shape: seq<string>, p: Coord)
  {
    0 <= p.r - anchor.r < |shape| && 0 <= p.c - anchor.c < |shape[p.r - anchor.r]| &&
    shape[p.r - anchor.r][p.c - anchor.c] == 'x'
  }

  /** The board with every 'x' of the shape turned into Wall. */
  function WithObstacle(g: CellRows, anchor: Coord, shape: seq<string>): (g': CellRows)
    ensures |g'| == |g| && forall r :: 0 <= r < |g| ==> |g'[r]| == |g[r]|
    ensures forall p :: InGrid(g, p) ==> At(g', p) == if IsBrick(anchor, shape, p) then Wall else At(g, p)
  {
    seq(|g|, r requires 0 <= r < |g| =>
      seq(|g[r]|, c requires 0 <= c < |g[r]| =>
        if IsBrick(anchor, shape, Coord(r, c)) then Wall else g[r][c]))
  }

  /** Only 'x' positions at or before row `y`, column `x` of the scan. */
  predicate BrickBefore(anchor: Coord, shape: seq<string>, p: Coord, y: int, x: int)
  {
    IsBrick(anchor, shape, p) && (p.r - anchor.r < y || (p.r - anchor.r == y && p.c - anchor.c < x))
  }

  /** `obstacle_make`: sets exactly the 'x' positions of the shape to Wall. */
  method ObstacleMake(board: Board, anchor: Coord, shape: seq<string>)
    requires board.Valid()
    requires forall y, x :: 0 <= y < |shape| && 0 <= x < |shape[y]| && shape[y][x] == 'x' ==>
               InGrid(board.cells, Coord(anchor.r + y, anchor.c + x))
    modifies board
    ensures board.Valid()
    ensures board.cells == WithObstacle(old(board.cells), anchor, shape)
  {
    ghost var g0 := board.cells;
    var y := 0;
    while y < |shape|
      invariant 0 <= y <= |shape|
      invariant board.Valid()
      invariant forall p :: InGrid(g0, p) ==>
                  At(board.cells, p) == if BrickBefore(anchor, shape, p, y, 0) then Wall else At(g0, p)
    {
      var x := 0;
      while x < |shape[y]|
        invariant 0 <= x <= |shape[y]|
        invariant board.Valid()
        invariant forall p :: InGrid(g0, p) ==>
                    At(board.cells, p) == if BrickBefore(anchor, shape, p, y, x) then Wall else At(g0, p)
      {
        if shape[y][x] == 'x' {
          board.Set(Coord(anchor.r + y, anchor.c + x), Wall);
        }
        x := x + 1;
      }
      y := y + 1;
    }
    CellsEqual(board.cells, WithObstacle(g0, anchor, shape));
  }

  /** `n` copies of a string laid end to end. */
  function Repeat(s: string, n: nat): string
  {
    if n == 0 then [] else s + Repeat(s, n - 1)
  }

  /** `n` copies of a row stacked one under another. */
  function Stack(row: string, n: nat): seq<string>
  {
    if n == 0 then [] else [row] + Stack(row, n - 1)
  }

  /** The obstacle shapes `spawn_obstacle` draws from. */
  const Obstacles: seq<seq<string>> := [
    [Repeat("x", 25)],
    Stack("x", 35),
    ["xxxxx",
     "  x  ",
     "  x  "],
    ["   xxx   ",
     "  x  x xx",
     "xxx  x   ",
     "     xxx "],
    ["x         x",
     " x       x ",
     "  xx x xx  ",
     " x       x ",
     "x         x"],
    ["    xx        ",
     "  xx    xxxxx ",
     "xx    xx     x",
     "x     x      x",
     "xx     x    xx",
     " xx        xx ",
     "  xx      xx  ",
     "    xxxxxx    "]
  ]

  /** One draw of `spawn_obstacle`: an anchor and an index into `Obstacles`. */
  datatype Placement = Placement(anchor: Coord, shape: nat)

  /** The index of the first draw whose shape, taken from `shapes`, fits; `|tries|` when none does. */
  function FirstFitIndex(rows: int, cols: int, g: CellRows, shapes: seq<seq<string>>, tries: seq<Placement>): (k: nat)
    requires Shaped(g, rows, cols)
    requires forall i :: 0 <= i < |tries| ==> tries[i].shape < |shapes|
    ensures k <= |tries|
    ensures forall i :: 0 <= i < k ==> !ObstacleFits(rows, cols, g, tries[i].anchor, shapes[tries[i].shape])
    ensures k < |tries| ==> ObstacleFits(rows, cols, g, tries[k].anchor, shapes[tries[k].shape])
    decreases |tries|
  {
    if tries == [] then 0
    else if ObstacleFits(rows, cols, g, tries[0].anchor, shapes[tries[0].shape]) then 0
    else 1 + FirstFitIndex(rows, cols, g, shapes, tries[1..])
  }

  /** The retry loop of `spawn_obstacle` over a given list of shapes: stamps the first draw that fits. */
  method PlaceFirstFit(board: Board, shapes: seq<seq<string>>, tries: seq<Placement>) returns (placed: Option<Placement>)
    requires board.Valid()
    requires forall i :: 0 <= i < |tries| ==> tries[i].shape < |shapes|
    modifies board
    ensures board.Valid()
    ensures var k := FirstFitIndex(board.rows, board.columns, old(board.cells), shapes, tries);
            placed == (if k < |tries| then Some(tries[k]) else None) &&
            board.cells == if k < |tries| then WithObstacle(old(board.cells), tries[k].anchor, shapes[tries[k].shape])
                           else old(board.cells)
  {
    var i := 0;
    while i < |tries|
      invariant 0 <= i <= |tries|
      invariant board.cells == old(board.cells)
      invariant forall j :: 0 <= j < i ==>
                  !ObstacleFits(board.rows, board.columns, board.cells, tries[j].anchor, shapes[tries[j].shape])
    {
      var t := tries[i];
      var shape := shapes[t.shape];
      var found := ObstacleValidate(board, t.anchor, shape);
      if found {
        forall y, x | 0 <= y < |shape| && 0 <= x < |shape[y]| && shape[y][x] == 'x'
          ensures InGrid(board.cells, Coord(t.anchor.r + y, t.anchor.c + x))
        {
          assert ObstacleCellFree(board.rows, board.columns, board.cells, t.anchor, y, x);
        }
        ObstacleMake(board, t.anchor, shape);
        return Some(t);
      }
      i := i + 1;
    }
    return None;
  }

  /** `spawn_obstacle`: stamps the first draw whose shape from `Obstacles` fits. */
  method SpawnObstacle(board: Board, tries: seq<Placement>) returns (placed: Option<Placement>)
    requires board.Valid()
    requires forall i :: 0 <= i < |tries| ==> tries[i].shape < |Obstacles|
    modifies board
    ensures board.Valid()
    ensures var k := FirstFitIndex(board.rows, board.columns, old(board.cells), Obstacles, tries);
            placed == (if k < |tries| then Some(tries[k]) else None) &&
            board.cells == if k < |tries| then WithObstacle(old(board.cells), tries[k].anchor, Obstacles[tries[k].shape])
                           else old(board.cells)
  {
    placed := PlaceFirstFit(board, Obstacles, tries);
  }
}
