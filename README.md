# snake.py — a verified model of the game engine

`snake.py` is a terminal snake game. The board is a grid of cells surrounded
by a ring of wall. A snake starts as one segment in the middle and moves one
cell per tick in its current heading. Eating food makes it one segment
longer, lowers the food count and spawns new food somewhere else. Running
into a wall or into itself ends the game. Eating the last of the 40 pieces of
food wins it. Arrow keys change the heading, at most once per tick, and never
straight back into the body. Random obstacles made of wall are stamped onto
the board before play starts.

The model follows the source's own structure:

- `Cells` (`cells.dfy`): the cell symbols (`Grid`, `Wall`, `Food`,
  `SnakeBody`, which stand for the source's colour-coded strings),
  coordinates, headings with their delta table, and the list-of-rows grid as
  a value.
- `Boards` (`board.dfy`): the `Board` class. Its grid field is rewritten in
  place by `Set`. The module also has the terminal placement used by `draw`.
- `Snakes` (`snake.dfy`): the `Snake` class with `move`, `consume`,
  `set_movement` and its one-request-per-tick latch, together with pure
  functions on bodies and request sequences.
- `Keys` (`keys.dfy`): how the input listener decodes bytes into heading
  requests.
- `Spawning` (`spawn.dfy`): food and obstacle placement.
- `Game` (`game.dfy`): the module globals (`num_food`, `game_over`,
  `sig_quit`, `key_quit`), the tick `update_game_board` as a method and as a
  function on a `World` value, the repaint `draw_game_board`, and
  `exit_as_needed`.
- `TailErase` (`tail_erase.dfy`): a defect in the tick, shown and corrected.

Randomness is a parameter. Where the source calls `randint` until a draw
fits, the model takes a sequence of candidate draws from the caller and
tries them in order.

## Model

| member | source | states |
|---|---|---|
| Cells.Step | snake.py:167-178 | moving by a heading's delta gives a cell that shares a side with the old one |
| Cells.Opposite | snake.py:209 | the reverse of a heading is a different heading |
| Cells.OppositeUndoesStep | snake.py:155 | a move in the reverse heading brings the head back to where it was |
| Cells.Put | snake.py:109-113 | writing one cell keeps the grid's shape, sets that cell and leaves every other cell unchanged |
| Cells.IsValidCoord | snake.py:115-119 | a coordinate is valid exactly when it lies on the grid and not on the outer ring |
| Cells.PutCommutes | snake.py:109-113 | writes to two different cells can be done in either order |
| Cells.PutOverwrites | snake.py:109-113 | a second write to a cell hides the first; writing a cell's own value changes nothing |
| Boards.Board.constructor | snake.py:84-101 | height is the terminal's rows minus one and width is half its columns; ring cells are Wall and every other cell is Grid |
| Boards.Board.Set | snake.py:103-113 | after `set`, `get` at that cell returns the new symbol and every other cell keeps its symbol |
| Boards.TerminalCursorSeparates | snake.py:24-27 | `draw` sends different cells to different terminal positions, with a free column between neighbours on a row |
| Snakes.Snake.constructor | snake.py:157-165 | a new snake is the single segment at its start, heading up, with the latch set |
| Snakes.Snake.Move | snake.py:167-187 | the head moves one step in the heading and is pushed onto the front; the last segment becomes the removed tail, so the old body is the new body's tail followed by it; the length stays the same; the latch is set |
| Snakes.Snake.Consume | snake.py:189-200 | the body grows by the removed tail exactly when the target is food; the snake is hungry exactly when the target is not food, and dead exactly when it is a wall or the snake |
| Snakes.Snake.SetMovement | snake.py:202-213 | while the latch is clear nothing changes; otherwise the latch is cleared and the request becomes the heading unless it is missing or reverses a body longer than one segment |
| Snakes.Snake.GetOldTail | snake.py:218-219 | `get_old_tail` returns the segment the last move popped: right after `move`, the old body is the new body without its head followed by this cell (stated by `Move`) |
| Snakes.Snake.SetMovements | snake.py:63-77 | a run of `set_movement` calls between two moves leaves the heading the request fold gives; with the latch clear nothing changes, and a body longer than one segment never ends up reversed |
| Snakes.Snake.GetHead | snake.py:215-216 | `get_head` returns the head that `move` left at the front of the body |
| Snakes.ReversesIsOpposite | snake.py:209-211 | the listed opposite pairs are exactly a heading paired with its reverse |
| Snakes.ClearedLatchIgnoresRequests | snake.py:206-213 | with the latch clear, any run of requests leaves the heading as it is |
| Snakes.OnlyFirstRequestCounts | snake.py:184-213 | between two moves only the first request is evaluated: the heading ends as that request if it is accepted, and otherwise stays |
| Snakes.NoReversalWithinTick | snake.py:184-213 | however many keys arrive between two moves, a snake longer than one segment never ends up heading back into itself |
| Snakes.TickKeepsConnected | snake.py:167-194 | a move followed by a consume keeps consecutive segments next to each other |
| Keys.MovementOfBytes | snake.py:45-47 | a byte string maps to a heading exactly when it is that heading's arrow-key sequence; anything else maps to no request |
| Keys.ListenerStep | snake.py:63-77 | Ctrl-C sets the quit flag even after game over; otherwise game over stops the listener; only an escape followed by two readable bytes sends a request, which is the decoded arrow key or none |
| Keys.ArrowKeyRoundTrip | snake.py:45-77 | the bytes an arrow key sends decode back to its heading |
| Spawning.FirstFoodIndex | snake.py:283-290 | the chosen draw is the first valid one that is neither snake nor wall, and every earlier draw is rejected |
| Spawning.SpawnTouchesOneAllowedCell | snake.py:283-293 | spawning food changes at most one cell, only to Food, and only on an acceptable cell |
| Spawning.SpawnNewFood | snake.py:283-293 | returns the first acceptable draw and writes Food there and nowhere else; with no acceptable draw the board is unchanged |
| Spawning.ObstacleValidate | snake.py:327-335 | accepts exactly when every position of the shape, blanks included, lands on a valid cell that is not snake, food or wall |
| Spawning.WithObstacle | snake.py:337-345 | the cells under the shape's `x` positions become Wall and every other cell is unchanged |
| Spawning.ObstacleMake | snake.py:337-345 | the board afterwards is the old board with the shape's `x` positions set to Wall |
| Spawning.FirstFitIndex | snake.py:347-353 | the chosen draw is the first whose shape fits at its anchor, and every earlier draw does not fit |
| Spawning.PlaceFirstFit | snake.py:347-355 | stamps the first fitting draw and returns it; with no fitting draw the board is unchanged |
| Spawning.SpawnObstacle | snake.py:297-355 | the same, with the source's six obstacle shapes |
| Game.GameState.constructor | snake.py:231-235 | play starts with 40 food and no flag set |
| Game.UpdateGameBoard | snake.py:263-281 | the new board, body, heading, food count and game-over flag are those of the tick function on the old state; the removed tail and the consumed symbol are recorded |
| Game.VacatedTailIsFree | snake.py:268-276 | moving into the cell the tail just left is not a collision, because the tail is erased before the head's cell is read |
| Game.HeadCellHoldsSnake | snake.py:271-279 | after any tick, fatal or not, the new head's cell holds the snake |
| Game.FeedingTick | snake.py:272-279 | a meal lowers the food count by one, makes the body one longer with the old tail kept, and puts food at the first acceptable draw |
| Game.PlainTick | snake.py:268-276 | a move onto an empty cell keeps the count and the length, shifts the body by one and leaves the old tail cell as Grid |
| Game.FatalTick | snake.py:273-281 | a collision or a step onto the ring ends the game without touching the food count, and the head is still written onto the cell it hit |
| Game.RingKeptWhileAlive | snake.py:263-293 | a surviving tick never overwrites the wall ring |
| Game.SurvivingTickStaysLive | snake.py:263-281 | after a surviving tick every segment is still strictly inside the ring |
| Game.DrawGameBoard | snake.py:359-362 | the repaint erases the old tail exactly when the snake is hungry, paints the head last, and writes nothing else: two writes when hungry, one after a meal |
| Game.ExitAsNeeded | snake.py:243-252 | each ending is chosen exactly when its flag holds and no earlier one does: game over, then a win, then a signal, then the quit key; the game goes on exactly when no flag is set and food remains |
| TailErase.AsWrittenLeavesTailUnmarked | snake.py:268-279 | on a concrete board, eating leaves the kept tail cell as Grid on the board while the screen still shows the snake there |
| TailErase.AsWrittenLosesFoodUnderTail | snake.py:268-293 | on the same board, food spawned after the meal can land under the tail, and the next move erases it uneaten while the count still expects it |
| TailErase.CorrectedTickKeepsBodyMarked | snake.py:268-281 | with the tail written back after a meal, every segment's cell holds the snake after each surviving tick, and the segments stay distinct |
| TailErase.CorrectedFrameMatchesBoard | snake.py:279-362 | with the tail written back, the food draw and the repaint bring a screen showing the old board to exactly the new board |
| TailErase.CorrectedKeepsTailOnSameStart | snake.py:268-293 | on the same concrete board, the corrected tick keeps the tail marked and refuses the draw under it |

## Left out

- Terminal output is not modelled: escape sequences, colours, `draw_initial_board`, the alternate screen and flushing. `draw` is modelled only as where it puts a cell (`Boards.TerminalCursor`) and as the sequence of cell writes a pass of the game loop makes (`Game.FramePaints`, `Game.ApplyPaints`).
- The input listener's terminal set-up is not modelled: raw mode, non-blocking reads, `poll` with its 100 ms timeout, and restoring the terminal settings. `Keys.ListenerStep` takes what the poll and reads returned as parameters.
- `keypoll.py` is not part of this model.
- Threads and the snake's lock are not modelled. The model treats each `set_movement` call as happening between two moves, or between moves and other calls, and it does not model the global flags being read while the listener writes them.
- `play`, `init`, `get_terminal_dimensions`, `quit`, the signal handler and `time.sleep` are not modelled. They are I/O, process control and timing. `quit`'s messages are given by `Game.Message`.
- `randint` is replaced by a candidate sequence supplied by the caller. The source draws again until a draw fits and may never stop. The model stops when the sequence runs out and then places nothing.
- Boards.Board.constructor requires a terminal of at least 2 rows and 2 columns. The source fails with an index error on a smaller terminal, and the model does not represent that failure.
- Boards.Board.Set and `Boards.Board.Get` require the coordinate to lie on the grid. Python's negative indices, which wrap around to the other end of a row, are not modelled. The tick only indexes cells on the grid as long as the body is inside the ring (`Game.Live`).
- The `len(coord) != 2` checks are not modelled. A `Coord` always has two components.
- `update_game_board` writes through the global `game_board` but checks validity on its `board` argument. The program passes the same object for both, and the model has a single board.
- `set_movement` evaluates only the first request after a move, even when it rejects that request. Later requests in the same tick are ignored, so no later valid turn is taken. The model follows the code here.
- Game.UpdateGameBoard models the tick as written, including the defect listed under Findings. The corrected tick exists only as the function `TailErase.UpdateCorrected`.

## Findings

| source | as written | input that shows it | evidently intended | confidence | as-written member | corrected member |
|---|---|---|---|---|---|---|
| snake.py:271-279 | the old tail cell is set to Grid before the target is known; when the snake eats, `consume` puts that tail back on the body but the board keeps Grid there, so `spawn_new_food` may put food under the snake and the next move erases it uneaten | `TailErase.Start` (a 5 x 5 board, a one-segment snake at (2, 2) heading up with food at (1, 2)) with the food draw (2, 2), then a move to the right | after a meal the kept tail cell still holds the snake on the board, as it does on the screen | not executed | TailErase.AsWrittenLosesFoodUnderTail | TailErase.CorrectedTickKeepsBodyMarked |
