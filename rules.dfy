/** The rules of one tick, stated on values: where the head goes, when the
    snake grows, when the game is lost, and how the high score is kept. */
module Rules {
  import opened Grid

  /** The cell the head moves to with velocity `(dx, dy)`. */
  function NextHead(head: Cell, dx: int, dy: int): Cell
  {
    Cell(head.x + dx, head.y + dy)
  }

  /** The snake after one move: the new head in front, and the old tail
      dropped unless the new head lands on the food. */
  function Moved(snake: seq<Cell>, dx: int, dy: int, food: Cell): (r: seq<Cell>)
    requires |snake| >= 1
    ensures |snake| <= |r| <= |snake| + 1
    ensures r[0] == NextHead(snake[0], dx, dy) && r[1..] <= snake
  {
    var head := NextHead(snake[0], dx, dy);
    if head == food then [head] + snake else [head] + snake[..|snake| - 1]
  }

  /** Every cell of the snake lies on the grid. */
  ghost predicate AllInGrid(snake: seq<Cell>, tileCountX: int, tileCountY: int)
  {
    forall i :: 0 <= i < |snake| ==> InGrid(snake[i], tileCountX, tileCountY)
  }

  /** No cell of the snake appears twice. */
  ghost predicate Distinct(snake: seq<Cell>)
  {
    forall i, j :: 0 <= i < j < |snake| ==> snake[i] != snake[j]
  }

  /** The grid has a cell the snake does not cover, so a random draw can
      eventually succeed. */
  ghost predicate HasFreeCell(snake: seq<Cell>, tileCountX: int, tileCountY: int)
  {
    exists c :: InGrid(c, tileCountX, tileCountY) && c !in snake
  }

  /** The head has left the grid. */
  predicate HitsWall(snake: seq<Cell>, tileCountX: int, tileCountY: int)
    requires |snake| >= 1
  {
    !InGrid(snake[0], tileCountX, tileCountY)
  }

  /** The head lies on another segment of the snake. */
  predicate HitsSelf(snake: seq<Cell>)
    requires |snake| >= 1
  {
    exists i :: 1 <= i < |snake| && snake[i] == snake[0]
  }

  /** The position ends the game. A position that does not end it, behind
      whose head the body is well formed, is well formed as a whole; and a
      well-formed position never ends it. */
  predicate Collides(snake: seq<Cell>, tileCountX: int, tileCountY: int)
    requires |snake| >= 1
    ensures !Collides(snake, tileCountX, tileCountY)
      && AllInGrid(snake[1..], tileCountX, tileCountY) && Distinct(snake[1..])
      ==> AllInGrid(snake, tileCountX, tileCountY) && Distinct(snake)
    ensures AllInGrid(snake, tileCountX, tileCountY) && Distinct(snake)
      ==> !Collides(snake, tileCountX, tileCountY)
  {
    HitsWall(snake, tileCountX, tileCountY) || HitsSelf(snake)
  }

  /** A move puts the new head in front of a prefix of the old snake; it
      grows the snake by one exactly when the head lands on the food, and
      otherwise keeps its length. */
  lemma MovedShape(snake: seq<Cell>, dx: int, dy: int, food: Cell)
    requires |snake| >= 1
    ensures var r := Moved(snake, dx, dy, food);
      && r[0] == NextHead(snake[0], dx, dy)
      && |r| == |snake| + (if r[0] == food then 1 else 0)
      && r[1..] <= snake
      && (r[0] == food ==> r[1..] == snake)
  {
  }

  /** Eating is safe: food that is off the snake and on the grid can be
      eaten without ending the game, because the whole old snake stays
      behind the new head. */
  lemma EatingIsSafe(snake: seq<Cell>, dx: int, dy: int, food: Cell, tileCountX: int, tileCountY: int)
    requires |snake| >= 1
    requires InGrid(food, tileCountX, tileCountY) && food !in snake
    requires NextHead(snake[0], dx, dy) == food
    ensures !Collides(Moved(snake, dx, dy, food), tileCountX, tileCountY)
  {
  }

  /** A move that does not end the game keeps the snake on the grid and
      free of repeated cells, and keeps the food it did not eat off the
      snake. */
  lemma MoveKeepsShape(snake: seq<Cell>, dx: int, dy: int, food: Cell, tileCountX: int, tileCountY: int)
    requires |snake| >= 1
    requires AllInGrid(snake, tileCountX, tileCountY) && Distinct(snake) && food !in snake
    requires !Collides(Moved(snake, dx, dy, food), tileCountX, tileCountY)
    ensures var r := Moved(snake, dx, dy, food);
      && AllInGrid(r, tileCountX, tileCountY) && Distinct(r)
      && (r[0] != food ==> food !in r)
  {
  }

  /** The high score after a sequence of finished games: the larger of the
      stored score and every final score. */
  function Best(stored: int, finals: seq<int>): (r: int)
    ensures r >= stored
    ensures forall i :: 0 <= i < |finals| ==> r >= finals[i]
    ensures r == stored || r in finals
  {
    if finals == [] then stored
    else Max(Best(stored, finals[..|finals| - 1]), finals[|finals| - 1])
  }

  /** Finishing one more game with `score` raises the high score to the
      larger of the two and never lowers it. */
  lemma BestAppend(stored: int, finals: seq<int>, score: int)
    ensures Best(stored, finals + [score]) == Max(Best(stored, finals), score)
  {
  }

  /** On a canvas sized for a container at least one cell wide, the start
      cell in the middle of the grid lies on the grid and leaves a free cell
      for the first food. */
  lemma RoomToStart(containerWidth: int)
    requires containerWidth >= GridSize
    ensures var tileCountX, tileCountY := CanvasWidth(containerWidth) / GridSize, CanvasHeight() / GridSize;
      && InGrid(Cell(tileCountX / 2, tileCountY / 2), tileCountX, tileCountY)
      && HasFreeCell([Cell(tileCountX / 2, tileCountY / 2)], tileCountX, tileCountY)
  {
    var tileCountX, tileCountY := CanvasWidth(containerWidth) / GridSize, CanvasHeight() / GridSize;
    assert tileCountX >= 1 && tileCountY == 20;
    assert InGrid(Cell(0, 0), tileCountX, tileCountY) && Cell(0, 0) !in [Cell(tileCountX / 2, 10)];
  }

  /** On a grid the snake fills, every drawn cell lies on the snake, so the
      scan of the snake (`SnakeGame.Game.Occupied`, proved to hit exactly
      on the snake's cells) rejects every draw and the script's retry never
      stops. */
  lemma FullGridRejectsEveryDraw(snake: seq<Cell>, tileCountX: int, tileCountY: int, c: Cell)
    requires !HasFreeCell(snake, tileCountX, tileCountY)
    requires InGrid(c, tileCountX, tileCountY)
    ensures c in snake
  {
  }

  /** A container 20 to 39 pixels wide gets a one-column grid of 20 rows,
      and a 20-cell snake filling that column leaves no free cell. */
  lemma OneColumnFills(snake: seq<Cell>)
    requires |snake| == 20
    requires forall y :: 0 <= y < 20 ==> snake[y] == Cell(0, y)
    ensures forall cw :: 20 <= cw < 40 ==> CanvasWidth(cw) / GridSize == 1
    ensures CanvasHeight() / GridSize == 20
    ensures !HasFreeCell(snake, 1, 20)
  {
  }
}
