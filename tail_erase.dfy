/**
 * The tick erases the old tail cell on the board before it knows whether
 * the snake eats. When it does eat, `consume` puts that tail back on the
 * body, but the board keeps Grid there (the screen does not: the repaint
 * skips the erase). Food may then be spawned under the tail, and the next
 * move erases it uneaten. This module shows that on the tick as written
 * and proves the intended board invariant for the tick that writes the
 * kept tail back.
 */
module TailErase {
  import opened Cells
  import opened Snakes
  import opened Spawning
  import opened Game

  /** Every segment's cell holds SnakeBody. */
  ghost predicate Marked(g: CellRows, body: seq<Coord>)
  {
    forall i :: 0 <= i < |body| ==> InGrid(g, body[i]) && At(g, body[i]) == SnakeBody
  }

  /** No two segments share a cell. */
  ghost predicate Distinct(body: seq<Coord>)
  {
    forall i, j :: 0 <= i < j < |body| ==> body[i] != body[j]
  }

  /** The board before spawning, with the tail a meal keeps written back as SnakeBody. */
  function Remarked(rows: int, cols: int, w: World): (g: CellRows)
    requires Live(rows, cols, w)
    ensures Shaped(g, rows, cols)
  {
    var g := HeadStamped(rows, cols, w);
    if Target(rows, cols, w) == Food then Put(g, OldTail(w), SnakeBody) else g
  }

  /** The tick with the kept tail written back before food is spawned. */
  function UpdateCorrected(rows: int, cols: int, w: World, cands: seq<Coord>): World
    requires Live(rows, cols, w)
  {
    Settle(rows, cols, w, Remarked(rows, cols, w), cands)
  }

  /**
   * The corrected tick keeps the board in step with the body: if every
   * segment is on its own SnakeBody cell before a surviving tick, the same
   * holds after it, so food is never spawned under the snake.
   */
  lemma CorrectedTickKeepsBodyMarked(rows: int, cols: int, w: World, cands: seq<Coord>)
    requires Live(rows, cols, w) && Marked(w.cells, w.body) && Distinct(w.body)
    requires Survives(rows, cols, w)
    ensures var w' := UpdateCorrected(rows, cols, w, cands);
            Marked(w'.cells, w'.body) && Distinct(w'.body)
  {
    var n := |w.body|;
    var nh, tail := NewHead(w), OldTail(w);
    var g1 := Erased(rows, cols, w);
    var g2 := Remarked(rows, cols, w);
    var w' := UpdateCorrected(rows, cols, w, cands);
    var fed := Target(rows, cols, w) == Food;
    assert tail == w.body[n - 1];
    forall i | 0 <= i < n - 1
      ensures w.body[i] != nh && w.body[i] != tail
    {
      assert w.body[i] != w.body[n - 1];
    }
    assert fed ==> nh != tail;
    assert w'.body == [nh] + w.body[..n - 1] + (if fed then [tail] else []);
    forall i | 0 <= i < |w'.body|
      ensures InGrid(g2, w'.body[i]) && At(g2, w'.body[i]) == SnakeBody
    {
      if 0 < i < n {
        assert w'.body[i] == w.body[i - 1];
        assert At(g1, w.body[i - 1]) == SnakeBody;
      }
    }
    forall i | 0 <= i < |w'.body|
      ensures InGrid(w'.cells, w'.body[i]) && At(w'.cells, w'.body[i]) == SnakeBody
    {
      if fed {
        SpawnTouchesOneAllowedCell(rows, cols, g2, cands, w'.body[i]);
      }
    }
    forall i, j | 0 <= i < j < |w'.body|
      ensures w'.body[i] != w'.body[j]
    {
      if 0 < i && j < n {
        assert w'.body[i] == w.body[i - 1] && w'.body[j] == w.body[j - 1];
      } else if 0 < i {
        assert w'.body[i] == w.body[i - 1];
      }
    }
  }

  /** Applying two writes in order. */
  lemma ApplyTwo(screen: CellRows, a: Paint, b: Paint)
    requires InGrid(screen, a.at) && InGrid(screen, b.at)
    ensures ApplyPaints(screen, [a, b]) == Put(Put(screen, a.at, a.symbol), b.at, b.symbol)
  {
    var s1 := Put(screen, a.at, a.symbol);
    assert [a, b][1..] == [b];
    assert [b][1..] == [];
    assert ApplyPaints(s1, [b]) == ApplyPaints(Put(s1, b.at, b.symbol), []);
  }

  /** Applying one write. */
  lemma ApplyOne(screen: CellRows, a: Paint)
    requires InGrid(screen, a.at)
    ensures ApplyPaints(screen, [a]) == Put(screen, a.at, a.symbol)
  {
    assert [a][1..] == [];
  }

  /**
   * With the corrected tick, the writes of one pass of the game loop bring
   * a screen that showed the old board to exactly the new board.
   */
  lemma CorrectedFrameMatchesBoard(rows: int, cols: int, w: World, cands: seq<Coord>)
    requires Live(rows, cols, w) && Marked(w.cells, w.body) && Survives(rows, cols, w)
    ensures ApplyPaints(w.cells, FramePaints(rows, cols, w, Remarked(rows, cols, w), cands)) ==
            UpdateCorrected(rows, cols, w, cands).cells
  {
    var g := w.cells;
    var nh, tail := NewHead(w), OldTail(w);
    var g2 := Remarked(rows, cols, w);
    assert IsValidCoord(rows, cols, tail);
    assert InGrid(g, nh) && InGrid(g, tail);
    if Target(rows, cols, w) == Food {
      assert nh != tail;
      assert At(g, tail) == SnakeBody;
      calc {
        g2;
        Put(Put(Put(g, tail, Grid), nh, SnakeBody), tail, SnakeBody);
        { PutCommutes(Put(g, tail, Grid), nh, SnakeBody, tail, SnakeBody); }
        Put(Put(Put(g, tail, Grid), tail, SnakeBody), nh, SnakeBody);
        { PutOverwrites(g, tail, Grid, SnakeBody); }
        Put(Put(g, tail, SnakeBody), nh, SnakeBody);
        { PutOverwrites(g, tail, Grid, SnakeBody); }
        Put(g, nh, SnakeBody);
      }
      var k := FirstFoodIndex(rows, cols, g2, cands);
      if k < |cands| {
        var f := cands[k];
        assert FoodAllowed(rows, cols, g2, f);
        assert f != nh;
        assert FramePaints(rows, cols, w, g2, cands) == [Paint(f, Food), Paint(nh, SnakeBody)];
        assert UpdateCorrected(rows, cols, w, cands).cells == Put(Put(g, nh, SnakeBody), f, Food);
        ApplyTwo(g, Paint(f, Food), Paint(nh, SnakeBody));
        PutCommutes(g, f, Food, nh, SnakeBody);
      } else {
        assert FramePaints(rows, cols, w, g2, cands) == [Paint(nh, SnakeBody)];
        assert UpdateCorrected(rows, cols, w, cands).cells == Put(g, nh, SnakeBody);
        ApplyOne(g, Paint(nh, SnakeBody));
      }
    } else {
      assert FramePaints(rows, cols, w, g2, cands) == [Paint(tail, Grid), Paint(nh, SnakeBody)];
      assert UpdateCorrected(rows, cols, w, cands).cells == Put(Put(g, tail, Grid), nh, SnakeBody);
      ApplyTwo(g, Paint(tail, Grid), Paint(nh, SnakeBody));
    }
  }

  /** A 3 x 3 interior: a one-segment snake at the centre, heading up, food just above it. */
  const Start: World := World(
    [[Wall, Wall, Wall, Wall, Wall],
     [Wall, Grid, Food, Grid, Wall],
     [Wall, Grid, SnakeBody, Grid, Wall],
     [Wall, Grid, Grid, Grid, Wall],
     [Wall, Wall, Wall, Wall, Wall]],
    [Coord(2, 2)], Up, InitialFood, false)

  /**
   * As written, eating leaves the kept tail at (2, 2) as Grid on the board
   * while the repaint, which skips the erase after a meal, still shows the
   * snake there.
   */
  lemma AsWrittenLeavesTailUnmarked()
    ensures Live(5, 5, Start) && Marked(Start.cells, Start.body)
    ensures var w' := UpdateAsWritten(5, 5, Start, []);
            w'.body == [Coord(1, 2), Coord(2, 2)] && !w'.gameOver &&
            At(w'.cells, Coord(2, 2)) == Grid && !Marked(w'.cells, w'.body)
    ensures var screen := ApplyPaints(Start.cells, FramePaints(5, 5, Start, HeadStamped(5, 5, Start), []));
            At(screen, Coord(2, 2)) == SnakeBody
  {
    var w' := UpdateAsWritten(5, 5, Start, []);
    assert Target(5, 5, Start) == Food;
    assert w'.body[1] == Coord(2, 2);
    ApplyOne(Start.cells, Paint(Coord(1, 2), SnakeBody));
  }

  /**
   * As written, the food spawned after that meal can land on the tail cell
   * (2, 2); the next move, to the right, erases it uneaten, so the count
   * still expects food that is no longer on the board.
   */
  lemma AsWrittenLosesFoodUnderTail()
    ensures var w1 := UpdateAsWritten(5, 5, Start, [Coord(2, 2)]);
            w1.body == [Coord(1, 2), Coord(2, 2)] && !w1.gameOver && w1.numFood == InitialFood - 1 &&
            At(w1.cells, Coord(2, 2)) == Food &&
            Live(5, 5, w1.(heading := Right)) &&
            var w2 := UpdateAsWritten(5, 5, w1.(heading := Right), []);
            !w2.gameOver && w2.numFood == InitialFood - 1 && At(w2.cells, Coord(2, 2)) == Grid
  {
    var w1 := UpdateAsWritten(5, 5, Start, [Coord(2, 2)]);
    assert Target(5, 5, Start) == Food;
    var g := HeadStamped(5, 5, Start);
    assert FoodAllowed(5, 5, g, Coord(2, 2));
    assert FirstFoodIndex(5, 5, g, [Coord(2, 2)]) == 0;
    var v := w1.(heading := Right);
    assert Live(5, 5, v);
    assert NewHead(v) == Coord(1, 3) && OldTail(v) == Coord(2, 2);
    assert Target(5, 5, v) == Grid;
  }

  /** On the same start the corrected tick keeps (2, 2) as snake and refuses to spawn food there. */
  lemma CorrectedKeepsTailOnSameStart()
    ensures var w1 := UpdateCorrected(5, 5, Start, [Coord(2, 2)]);
            w1.body == [Coord(1, 2), Coord(2, 2)] && At(w1.cells, Coord(2, 2)) == SnakeBody
  {
    assert Target(5, 5, Start) == Food;
    var g := Remarked(5, 5, Start);
    assert !FoodAllowed(5, 5, g, Coord(2, 2));
    assert FirstFoodIndex(5, 5, g, [Coord(2, 2)]) == 1;
  }
}
