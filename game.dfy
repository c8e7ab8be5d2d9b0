/**
 * The per-tick update, the repaint it asks for and the exit decision. The
 * source keeps `num_food`, `game_over`, `sig_quit` and `key_quit` as
 * module globals; here they are the fields of one GameState object.
 */
module Game {
  import opened Cells
  import opened Boards
  import opened Snakes
  import opened Spawning

  /** The food a player must eat to win. */
  const InitialFood: int := 40

  class GameState {
    var numFood: int
    var gameOver: bool
    var sigQuit: bool
    var keyQuit: bool

    constructor ()
      ensures numFood == InitialFood && !gameOver && !sigQuit && !keyQuit
    {
      numFood := InitialFood;
      gameOver := false;
      sigQuit := false;
      keyQuit := false;
    }
  }

  /** The part of the game state one tick reads and writes, as a value. */
  datatype World = World(cells: CellRows, body: seq<Coord>, heading: Heading, numFood: int, gameOver: bool)

  /** A state a tick can run from: a well-formed board and a body strictly inside the wall ring. */
  predicate Live(rows: int, cols: int, w: World)
  {
    Shaped(w.cells, rows, cols) && |w.body| >= 1 &&
    forall i :: 0 <= i < |w.body| ==> IsValidCoord(rows, cols, w.body[i])
  }

  function NewHead(w: World): Coord
    requires |w.body| >= 1
  {
    Step(w.body[0], w.heading)
  }

  function OldTail(w: World): Coord
    requires |w.body| >= 1
  {
    Last(w.body)
  }

  /** The board once the old tail cell is set back to Grid. */
  function Erased(rows: int, cols: int, w: World): (g: CellRows)
    requires Live(rows, cols, w)
    ensures Shaped(g, rows, cols) && InGrid(g, NewHead(w))
  {
    Put(w.cells, OldTail(w), Grid)
  }

  /** What the head lands on: read after the tail is erased, before the head is written. */
  function Target(rows: int, cols: int, w: World): Symbol
    requires Live(rows, cols, w)
  {
    At(Erased(rows, cols, w), NewHead(w))
  }

  /** The head lands inside the ring on a cell that is neither wall nor snake. */
  predicate Survives(rows: int, cols: int, w: World)
    requires Live(rows, cols, w)
  {
    IsValidCoord(rows, cols, NewHead(w)) && !Deadly(Target(rows, cols, w))
  }

  /** The board after the tail is erased and the head written, whatever the head landed on. */
  function HeadStamped(rows: int, cols: int, w: World): (g: CellRows)
    requires Live(rows, cols, w)
    ensures Shaped(g, rows, cols)
  {
    Put(Erased(rows, cols, w), NewHead(w), SnakeBody)
  }

  /**
   * The rest of the tick from the board `g` it has written so far: the
   * snake has moved and consumed; a surviving snake that ate lowers the food
   * count and spawns food; a snake outside the interior or on a deadly cell
   * ends the game.
   */
  function Settle(rows: int, cols: int, w: World, g: CellRows, cands: seq<Coord>): World
    requires Live(rows, cols, w) && Shaped(g, rows, cols)
  {
    var target := Target(rows, cols, w);
    var body := Grown(Advanced(w.body, w.heading), OldTail(w), target);
    if Survives(rows, cols, w) then
      if target == Food then World(SpawnedCells(rows, cols, g, cands), body, w.heading, w.numFood - 1, w.gameOver)
      else World(g, body, w.heading, w.numFood, w.gameOver)
    else World(g, body, w.heading, w.numFood, true)
  }

  /** `update_game_board` as the source writes it. */
  function UpdateAsWritten(rows: int, cols: int, w: World, cands: seq<Coord>): World
    requires Live(rows, cols, w)
  {
    Settle(rows, cols, w, HeadStamped(rows, cols, w), cands)
  }

  function WorldOf(board: Board, snake: Snake, state: GameState): World
    reads board, snake, state
  {
    World(board.cells, snake.body, snake.movement, state.numFood, state.gameOver)
  }

  /**
   * `update_game_board`: move the snake, erase the old tail, consume what is
   * under the new head, write the head, then either count the meal and
   * spawn food or end the game.
   */
  method UpdateGameBoard(board: Board, snake: Snake, state: GameState, cands: seq<Coord>)
    requires board.Valid() && snake.Valid()
    requires Live(board.rows, board.columns, WorldOf(board, snake, state))
    modifies board, snake, state
    ensures board.Valid() && snake.Valid()
    ensures WorldOf(board, snake, state) ==
            UpdateAsWritten(board.rows, board.columns, old(WorldOf(board, snake, state)), cands)
    ensures snake.removedTail == Last(old(snake.body))
    ensures snake.justEaten == Target(board.rows, board.columns, old(WorldOf(board, snake, state)))
    ensures snake.movementProcessed
    ensures state.sigQuit == old(state.sigQuit) && state.keyQuit == old(state.keyQuit)
  {
    ghost var w := WorldOf(board, snake, state);
    var newHead := snake.Move();
    board.Set(snake.GetOldTail(), Grid);
    assert board.cells == Erased(board.rows, board.columns, w);
    snake.Consume(board.Get(newHead));
    board.Set(newHead, SnakeBody);
    assert board.cells == HeadStamped(board.rows, board.columns, w);
    if IsValidCoord(board.rows, board.columns, newHead) && !snake.IsDead() {
      if !snake.IsHungry() {
        state.numFood := state.numFood - 1;
        var _ := SpawnNewFood(board, cands);
      }
    } else {
      state.gameOver := true;
    }
  }

  /**
   * Moving into the cell the tail has just left is not a collision: the
   * tail is erased before the head's cell is read.
   */
  lemma VacatedTailIsFree(rows: int, cols: int, w: World, cands: seq<Coord>)
    requires Live(rows, cols, w) && NewHead(w) == OldTail(w)
    ensures Target(rows, cols, w) == Grid && Survives(rows, cols, w)
    ensures var w' := UpdateAsWritten(rows, cols, w, cands);
            w'.gameOver == w.gameOver && |w'.body| == |w.body|
  {
  }

  /** After every tick, fatal or not, the new head's cell holds the snake. */
  lemma HeadCellHoldsSnake(rows: int, cols: int, w: World, cands: seq<Coord>)
    requires Live(rows, cols, w)
    ensures var w' := UpdateAsWritten(rows, cols, w, cands);
            InGrid(w'.cells, NewHead(w)) && At(w'.cells, NewHead(w)) == SnakeBody
  {
    SpawnTouchesOneAllowedCell(rows, cols, HeadStamped(rows, cols, w), cands, NewHead(w));
  }

  /**
   * A meal: the food count drops by exactly one, the body grows by exactly
   * one (the old tail stays on), and food is placed at the first acceptable
   * candidate.
   */
  lemma FeedingTick(rows: int, cols: int, w: World, cands: seq<Coord>)
    requires Live(rows, cols, w) && Survives(rows, cols, w) && Target(rows, cols, w) == Food
    ensures var w' := UpdateAsWritten(rows, cols, w, cands);
            w'.numFood == w.numFood - 1 && w'.gameOver == w.gameOver &&
            |w'.body| == |w.body| + 1 && w'.body[0] == NewHead(w) && Last(w'.body) == OldTail(w)
    ensures var g := HeadStamped(rows, cols, w);
            var k := FirstFoodIndex(rows, cols, g, cands);
            var w' := UpdateAsWritten(rows, cols, w, cands);
            k < |cands| ==> InGrid(w'.cells, cands[k]) && At(w'.cells, cands[k]) == Food
  {
  }

  /**
   * A move onto an empty cell: the count and the length stay, the body
   * shifts by one, and the old tail's cell is Grid again.
   */
  lemma PlainTick(rows: int, cols: int, w: World, cands: seq<Coord>)
    requires Live(rows, cols, w) && Survives(rows, cols, w) && Target(rows, cols, w) != Food
    ensures var w' := UpdateAsWritten(rows, cols, w, cands);
            w'.numFood == w.numFood && w'.gameOver == w.gameOver &&
            |w'.body| == |w.body| && w'.body[0] == NewHead(w) && w'.body[1..] == w.body[..|w.body| - 1] &&
            (OldTail(w) != NewHead(w) ==> At(w'.cells, OldTail(w)) == Grid)
  {
  }

  /**
   * A collision or a step out of the interior ends the game and leaves the
   * food count alone; the head is still written onto the cell it hit, so a
   * ring cell it hits turns from Wall into SnakeBody.
   */
  lemma FatalTick(rows: int, cols: int, w: World, cands: seq<Coord>)
    requires Live(rows, cols, w) && !Survives(rows, cols, w)
    ensures var w' := UpdateAsWritten(rows, cols, w, cands);
            w'.gameOver && w'.numFood == w.numFood &&
            At(w'.cells, NewHead(w)) == SnakeBody &&
            (!IsValidCoord(rows, cols, NewHead(w)) ==> OnRing(rows, cols, NewHead(w)))
  {
  }

  /** A surviving tick writes only interior cells, so the wall ring stays Wall. */
  lemma RingKeptWhileAlive(rows: int, cols: int, w: World, cands: seq<Coord>)
    requires Live(rows, cols, w) && Survives(rows, cols, w) && RingIsWall(w.cells, rows, cols)
    ensures RingIsWall(UpdateAsWritten(rows, cols, w, cands).cells, rows, cols)
  {
    var g := HeadStamped(rows, cols, w);
    var w' := UpdateAsWritten(rows, cols, w, cands);
    forall p | InGrid(w'.cells, p) && OnRing(rows, cols, p)
      ensures At(w'.cells, p) == Wall
    {
      assert IsValidCoord(rows, cols, OldTail(w));
      SpawnTouchesOneAllowedCell(rows, cols, g, cands, p);
    }
  }

  /** A surviving tick leaves a state the next tick can run from. */
  lemma SurvivingTickStaysLive(rows: int, cols: int, w: World, cands: seq<Coord>)
    requires Live(rows, cols, w) && Survives(rows, cols, w)
    ensures Live(rows, cols, UpdateAsWritten(rows, cols, w, cands))
  {
    var w' := UpdateAsWritten(rows, cols, w, cands);
    forall i | 0 <= i < |w'.body|
      ensures IsValidCoord(rows, cols, w'.body[i])
    {
      if 0 < i < |w.body| {
        assert w'.body[i] == w.body[i - 1];
      } else if i == |w.body| {
        assert w'.body[i] == w.body[|w.body| - 1];
      }
    }
  }

  /** One terminal write: the symbol drawn at a cell. */
  datatype Paint = Paint(at: Coord, symbol: Symbol)

  /**
   * `draw_game_board`: erase the old tail only when the snake did not eat,
   * then paint the head.
   */
  function DrawGameBoard(hungry: bool, oldTail: Coord, head: Coord): (paints: seq<Paint>)
    ensures |paints| >= 1 && paints[|paints| - 1] == Paint(head, SnakeBody)
    ensures Paint(oldTail, Grid) in paints <==> hungry
    ensures |paints| == if hungry then 2 else 1
    ensures forall i :: 0 <= i < |paints| ==> paints[i] == Paint(oldTail, Grid) || paints[i] == Paint(head, SnakeBody)
  {
    (if hungry then [Paint(oldTail, Grid)] else []) + [Paint(head, SnakeBody)]
  }

  /** The screen after the writes, in order; a write outside the grid changes no cell of it. */
  function ApplyPaints(screen: CellRows, paints: seq<Paint>): (s: CellRows)
    ensures |s| == |screen| && forall r :: 0 <= r < |screen| ==> |s[r]| == |screen[r]|
    decreases |paints|
  {
    if paints == [] then screen
    else
      var next := if InGrid(screen, paints[0].at) then Put(screen, paints[0].at, paints[0].symbol) else screen;
      ApplyPaints(next, paints[1..])
  }

  /** The food draw `spawn_new_food` makes, if it places food. */
  function SpawnPaints(rows: int, cols: int, g: CellRows, cands: seq<Coord>): seq<Paint>
    requires Shaped(g, rows, cols)
  {
    var k := FirstFoodIndex(rows, cols, g, cands);
    if k < |cands| then [Paint(cands[k], Food)] else []
  }

  /**
   * Every write of one pass of the game loop: the food spawned during the
   * update (spawned on the board `g`), then `draw_game_board`.
   */
  function FramePaints(rows: int, cols: int, w: World, g: CellRows, cands: seq<Coord>): seq<Paint>
    requires Live(rows, cols, w) && Shaped(g, rows, cols)
  {
    var target := Target(rows, cols, w);
    (if Survives(rows, cols, w) && target == Food then SpawnPaints(rows, cols, g, cands) else []) +
    DrawGameBoard(target != Food, OldTail(w), NewHead(w))
  }

  /** How the game ends, in the order `exit_as_needed` checks. */
  datatype Ending = Collision | Win | Terminated | UserQuit

  /** The message `quit` prints for each ending. */
  function Message(e: Ending): string
  {
    match e
    case Collision => "Game Over!"
    case Win => "You win!"
    case Terminated => "Process was politely terminated."
    case UserQuit => "User quit"
  }

  /**
   * `exit_as_needed`: game over wins over a win, a win over a signal, a
   * signal over the quit key; with no flag set and food remaining the game
   * goes on.
   */
  function ExitAsNeeded(gameOver: bool, numFood: int, sigQuit: bool, keyQuit: bool): (e: Option<Ending>)
    ensures e == Some(Collision) <==> gameOver
    ensures e == Some(Win) <==> !gameOver && numFood == 0
    ensures e == Some(Terminated) <==> !gameOver && numFood != 0 && sigQuit
    ensures e == Some(UserQuit) <==> !gameOver && numFood != 0 && !sigQuit && keyQuit
    ensures e == None <==> !gameOver && numFood != 0 && !sigQuit && !keyQuit
  {
    if gameOver then Some(Collision)
    else if numFood == 0 then Some(Win)
    else if sigQuit then Some(Terminated)
    else if keyQuit then Some(UserQuit)
    else None
  }
}
