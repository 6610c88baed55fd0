# Snake web game: a verified model of the game logic

This project models the game logic of a browser snake game (`script.js`) in Dafny.
The snake moves across a grid of 20-pixel cells. It grows when it eats food and the
game ends when its head leaves the grid or runs into its own body. A high score is
kept across games. Drawing, DOM updates, the interval timer and `localStorage` are
not modelled.

Files:

- `grid.dfy` (module `Grid`): the `Cell` datatype, the grid bounds, and the canvas
  sizing arithmetic. JavaScript's truncating `%` is written out as `JsRemGrid`.
- `direction.dfy` (module `Direction`): how a key maps to a direction. Letter keys
  are lower-cased (ASCII only), and a turn straight back is refused (`Turn`).
- `rules.dfy` (module `Rules`): the rules of a tick, stated on values. `Moved` gives
  the snake after one move, `Collides` says when the game ends, and `Best` gives the
  high score over finished games. The lemmas about these functions are here too.
- `game.dfy` (module `SnakeGame`): `class Game` holds the script's module-level
  variables as fields. Each script function is a method that updates those fields.
  The method contracts tie each new state to the rules above. `Valid()` is the
  session invariant: a game in progress has its snake on the grid with no repeated
  cell, `score + 1 == |snake|`, a unit velocity, and food on the grid off the snake.
  The high score is the best of the stored score and every finished game's final
  score (ghost history `finalScores`).
- `scenarios.dfy` (module `Scenarios`): worked examples on a 10 by 10 grid.

Modelling decisions:

- The random food cell is a nondeterministic choice. `PlaceFood` makes a first draw
  of any grid cell and scans the snake for it (`Occupied`, the `for … of` loop). If
  the cell is taken, the retries are collapsed into one choice among the free cells.
- Before the first game, the script leaves `dx`, `dy`, `snake` and `score` undefined.
  The model starts them at `0`, `0`, `[]` and `0`. The key guards (`dx === 1` and so
  on) treat `undefined` and `0` alike, and nothing reads the snake before a game starts.
- The script writes `dx`/`dy` as soon as a key is pressed, and the reversal guard
  compares only with the current velocity (script.js:156-176). `Turn` promises only
  that per-key guarantee, and `Direction.TwoKeysReverse` shows two key presses in one
  tick reversing the snake.
- The script has only `gameActive`, so "not started yet" and "game over" are the
  same state.

## Model

| member | source | states |
|---|---|---|
| `Grid.JsRemGrid` | script.js:29 | `v % gridSize` as JavaScript computes it: it differs from `v` by a multiple of 20, is smaller than 20 in magnitude, and has the sign of `v` |
| `Grid.FloorToGrid` | script.js:29-30 | `v - v % gridSize` is a multiple of 20 within one cell of `v`, rounded toward zero |
| `Grid.CanvasWidth` | script.js:25-29 | the canvas width is a multiple of 20 and at most 600. For a non-negative container width it is within 20 pixels of `min(container, 600)` and not above it. It equals 600 for containers of 600 pixels or more, and is at least one cell for containers at least one cell wide |
| `Grid.CanvasHeight` | script.js:27-30 | the canvas height is 400, a multiple of 20, which gives 20 rows |
| `SnakeGame.Game.SetupCanvas` | script.js:23-34 | sets the canvas to `CanvasWidth` by `CanvasHeight`, with `tileCountX * 20 == width` and `tileCountY == 20` |
| `SnakeGame.Game.constructor` | script.js:179-181 | page load sizes the canvas and takes the stored high score. No game is running, no game has finished yet, the remembered stored score is the one read, and the session invariant holds |
| `SnakeGame.Game.Resize` | script.js:198-202 | a resize re-sizes the canvas (width and height) and the grid only when no game is active, and leaves a running game untouched |
| `Rules.RoomToStart` | script.js:29-39 | on a canvas at least one cell wide, the middle start cell is on the grid and a free cell is left for the first food |
| `SnakeGame.Game.InitializeGame` | script.js:37-51 | the snake becomes the single cell `(tileCountX/2, tileCountY/2)` (floor division), the velocity `(1, 0)` and the score 0. The food is on the grid off the snake, the game is active and the invariant holds |
| `SnakeGame.Game.Occupied` | script.js:90-95 | the scan over the segments reports a hit exactly when the cell is one of the snake's cells |
| `SnakeGame.Game.PlaceFood` | script.js:83-96 | afterwards the food lies in `[0, tileCountX) × [0, tileCountY)` and on no segment of the snake |
| `SnakeGame.Game.MoveSnake` | script.js:114-126 | the snake becomes `Moved(old snake, dx, dy, old food)`. On eating, the score rises by 1 and new food is placed on the grid off the grown snake. Otherwise the score and the food are unchanged |
| `Rules.Moved` | script.js:114-126 | the moved snake starts with the old head plus `(dx, dy)`, followed by a prefix of the old snake, and is at most one cell longer than the old snake and never shorter |
| `Rules.MovedShape` | script.js:115-125 | the new head is the old head plus `(dx, dy)`, followed by a prefix of the old snake. The length grows by exactly 1 when the head lands on the food, and is unchanged otherwise. On eating, the whole old snake is kept |
| `Rules.EatingIsSafe` | script.js:116-143 | a move onto food that was on the grid and off the snake never leads to a collision |
| `Rules.MoveKeepsShape` | script.js:114-144 | a move without a collision keeps the snake on the grid with no repeated cell, and uneaten food stays off the snake |
| `Rules.Collides` | script.js:128-144 | a position that passes both checks, with a body on the grid and free of repeats, is on the grid and free of repeats as a whole. Conversely, a snake on the grid with no repeated cell never collides |
| `SnakeGame.Game.CheckCollision` | script.js:128-144 | the game ends, with the high score saved, exactly when the head is off the grid or equals `snake[i]` for some `i ≥ 1`. Otherwise no field changes |
| `Rules.FullGridRejectsEveryDraw` | script.js:83-95 | on a grid with no free cell, every drawn grid cell lies on the snake, so the occupancy scan (`Occupied`) rejects every draw and the retry at line 92 never stops |
| `Rules.OneColumnFills` | script.js:29-33 | every container 20 to 39 pixels wide gets a grid one column wide and 20 rows high, and a 20-cell snake along that column leaves no free cell |
| `SnakeGame.Game.EndGame` | script.js:146-152 | `gameActive` becomes false, the high score becomes `max(highScore, score)`, and this score joins the finished games |
| `SnakeGame.Game.SaveHighScore` | script.js:58-64 | `highScore` becomes `max(highScore, score)`, so it never decreases |
| `Rules.Best` | script.js:58-64 | the high score over a sequence of finished games is at least the stored score and every final score, and equals one of them |
| `Rules.BestAppend` | script.js:58-60 | finishing one more game raises the high score to `max(high score so far, final score)` |
| `SnakeGame.Game.Tick` | script.js:68-76 | nothing changes while no game is active. Otherwise the snake moves as `Moved`, the score counts the food eaten, and the game stays active exactly when the new position does not collide. A tick that eats never ends the game and leaves new food on the grid off the snake. A tick that does not eat leaves the food where it was. The high score changes only when the game ends, and the session invariant is kept |
| `Direction.LowerChar` | script.js:163 | a lower-cased character is never a capital. Characters that do not end up as a–z are left alone. A lower-case letter comes only from itself or its capital |
| `Direction.LowerAscii` | script.js:163-172 | a lower-cased key name has the same length and is lower-cased character by character |
| `Direction.LowerIsLetter` | script.js:163-172 | a key lower-cases to a given letter exactly when it is that letter or its capital |
| `Direction.LongKeyIsNoLetter` | script.js:163-172 | a key name longer or shorter than one character never matches a letter key |
| `Direction.ArrowKeys` | script.js:163-172 | each arrow key matches its own branch and none of the other three |
| `Direction.Turn` | script.js:156-176 | a key press leaves a unit velocity if there was one before. It never sets the velocity to the negation of the velocity before the press. A key other than the arrows and W/A/S/D (in either case) leaves it unchanged |
| `Direction.OnlyBranch` | script.js:163-175 | a key that lower-cases to `a`, `w`, `d` or `s` matches that letter's branch of the else-if chain and none of the other three |
| `Direction.LeftKeysTurn` | script.js:163-165 | `a` and `A` change the velocity exactly as the left arrow does |
| `Direction.UpKeysTurn` | script.js:166-168 | `w` and `W` change the velocity exactly as the up arrow does |
| `Direction.RightKeysTurn` | script.js:169-171 | `d` and `D` change the velocity exactly as the right arrow does |
| `Direction.DownKeysTurn` | script.js:172-174 | `s` and `S` change the velocity exactly as the down arrow does |
| `Direction.TurnPerpendicular` | script.js:163-175 | from a unit velocity, an arrow key for either perpendicular direction turns the snake, and one for its own axis does nothing |
| `Direction.TwoKeysReverse` | script.js:158-175 | moving right, "up" then "left" before the next tick leaves the velocity `(-1, 0)`: the guard is per key press, not per tick |
| `SnakeGame.Game.ChangeDirection` | script.js:156-176 | the velocity becomes `Turn(key, old velocity)`, and the session invariant is kept |
| `Scenarios.GlideRight` | script.js:114-126 | on a 10 by 10 grid, the snake `[(5,5)]` moving right with no food at (6,5) becomes `[(6,5)]` and does not collide |
| `Scenarios.EatRight` | script.js:114-126 | with food at (6,5), the snake `[(5,5)]` moving right becomes `[(6,5),(5,5)]` without collision |
| `Scenarios.LeaveLeftEdge` | script.js:131-135 | a head moving left from x = 0 reaches x = -1, which is a collision |
| `Scenarios.BiteBody` | script.js:137-143 | a curled five-cell snake moving onto its own body collides with itself |
| `Scenarios.ChaseTail` | script.js:114-144 | moving onto the cell the tail vacates in the same tick is not a collision |

## Left out

- Rendering (`clearCanvas`, `drawFood`, `drawSnake`, and the placeholder drawing on load and resize) only draws and holds no game logic.
- DOM output (`textContent`, `style.display`, the start button's caption) is display only.
- The interval timer (`setInterval`/`clearInterval`) is left out. A tick is a direct call to `Tick`.
- `localStorage` is left out, including the string-to-number coercion of the stored value. The constructor takes the stored high score as a natural number, 0 when none is stored.
- `Math.random` and its uniform distribution are left out. The food cell is a nondeterministic choice, and only what every draw guarantees is modelled.
- `SnakeGame.Game.PlaceFood` requires a free cell on the grid. On a full grid the script recurses without end, and the model does not cover that case.
- `SnakeGame.Game.MoveSnake` requires the same room when the move eats, for the same reason.
- `SnakeGame.Game.Tick` requires the same room when the coming move eats (`RoomToGrow`), for the same reason.
- `SnakeGame.Game.InitializeGame` requires a free cell besides the start cell. That excludes grids less than one cell wide, where the script would draw food from column 0, off the grid. `Rules.RoomToStart` shows that every container at least one cell wide qualifies.
- `Grid.CanvasWidth`: how the browser stores a negative width written to `canvas.width` is not modelled. The model keeps the arithmetic value; this only arises for containers narrower than the padding.
- `Direction.LowerChar`: only the ASCII case mapping of `toLowerCase` is modelled. No other character lower-cases to `a`, `w`, `s` or `d`.
- The event wiring (`DOMContentLoaded`, `keydown`, `click`, `resize`) and the reading of `offsetWidth` are left out. These events are the constructor, `ChangeDirection`, `InitializeGame` and `Resize`, called with the container width as an argument.

## Findings

| source | as written | input that shows it | evidently intended | confidence | as-written member | corrected member |
|---|---|---|---|---|---|---|
| script.js:83-96 | `placeFood` retries by recursion until a draw misses the snake, with no bound | a grid the snake fills, e.g. one column of 20 rows (container 20–39 px) and a snake that eats its 20th cell: every draw is rejected, the recursion exhausts the stack and throws inside the tick, leaving the score raised, the snake grown and the food on the snake | food is placed only when a free cell exists; a full grid needs its own outcome | not executed | `Rules.FullGridRejectsEveryDraw` | `SnakeGame.Game.PlaceFood` |
