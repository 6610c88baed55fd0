/** The game session: the module-level state of the page script and the
    functions that update it, with drawing, the DOM, the timer and storage
    taken out. */
module SnakeGame {
  import opened Grid
  import opened Direction
  import opened Rules

  class Game {
    /** Canvas size in pixels and the grid it holds. */
    var canvasWidth: int
    var canvasHeight: int
    var tileCountX: int
    var tileCountY: int

    /** Segments, head first. Empty until the first game starts. */
    var snake: seq<Cell>
    var food: Cell
    /** Velocity; (0, 0) stands for the unset velocity before the first start. */
    var dx: int
    var dy: int
    var score: int
    var highScore: int
    var gameActive: bool

    /** The high score read from storage when the page loaded. */
    ghost const loadedHighScore: int
    /** The final score of every game that has ended, in order. */
    ghost var finalScores: seq<int>

    /** The state of a game in progress: the snake lies on the grid without
        repeated cells, has eaten `score` pieces of food, moves in one of the
        four directions, and the food lies on the grid off the snake. */
    ghost predicate Running()
      reads this
    {
      && |snake| >= 1
      && score + 1 == |snake|
      && IsDirection(dx, dy)
      && AllInGrid(snake, tileCountX, tileCountY)
      && Distinct(snake)
      && InGrid(food, tileCountX, tileCountY)
      && food !in snake
    }

    /** The high score is the best of the stored score and the final score
        of every finished game. */
    ghost predicate ScoresKept()
      reads this
    {
      score >= 0 && highScore == Best(loadedHighScore, finalScores)
    }

    /** The invariant of the session: the scores are kept, and a game in
        progress is well formed. */
    ghost predicate Valid()
      reads this
    {
      ScoresKept() && (gameActive ==> Running())
    }

    /** The state between the move and the collision check of a tick: the
        game is well formed unless the new head collides. */
    ghost predicate Moving()
      reads this
    {
      && ScoresKept()
      && |snake| >= 1
      && (gameActive && !Collides(snake, tileCountX, tileCountY) ==> Running())
    }

    /** Eating on the next tick leaves a free cell for the new food (the
        page script has no answer for a full grid). */
    ghost predicate RoomToGrow()
      reads this
    {
      (gameActive && |snake| >= 1 && NextHead(snake[0], dx, dy) == food)
        ==> HasFreeCell([food] + snake, tileCountX, tileCountY)
    }

    /** Page load: size the canvas and read the stored high score. */
    constructor (containerWidth: int, storedHighScore: nat)
      ensures Valid() && !gameActive
      ensures highScore == storedHighScore && score == 0 && snake == []
      ensures loadedHighScore == storedHighScore && finalScores == []
      ensures canvasWidth == CanvasWidth(containerWidth) && canvasHeight == CanvasHeight()
      ensures tileCountX * GridSize == canvasWidth && tileCountY == 20
    {
      canvasWidth, canvasHeight, tileCountX, tileCountY := 0, 0, 0, 0;
      snake, food := [], Cell(0, 0);
      dx, dy := 0, 0;
      score, highScore, gameActive := 0, storedHighScore, false;
      loadedHighScore := storedHighScore;
      finalScores := [];
      new;
      SetupCanvas(containerWidth);
    }

    /** Size the canvas to the container, in whole cells, and derive the grid. */
    method SetupCanvas(containerWidth: int)
      modifies this`canvasWidth, this`canvasHeight, this`tileCountX, this`tileCountY
      ensures canvasWidth == CanvasWidth(containerWidth) && canvasHeight == CanvasHeight()
      ensures tileCountX * GridSize == canvasWidth && tileCountY * GridSize == canvasHeight
      ensures tileCountY == 20
    {
      var maxWidth, maxHeight := MaxWidth, MaxHeight;
      var w := Min(containerWidth, maxWidth);
      canvasWidth := w - JsRemGrid(w);
      var h := Min(maxHeight, maxHeight);
      canvasHeight := h - JsRemGrid(h);
      tileCountX := canvasWidth / GridSize;
      tileCountY := canvasHeight / GridSize;
    }

    /** Window resize: the grid is recomputed only while no game runs. */
    method Resize(containerWidth: int)
      requires Valid()
      modifies this`canvasWidth, this`canvasHeight, this`tileCountX, this`tileCountY
      ensures Valid()
      ensures old(gameActive) ==> unchanged(this)
      ensures !gameActive ==> canvasWidth == CanvasWidth(containerWidth) && canvasHeight == CanvasHeight()
      ensures !gameActive ==> tileCountY == 20
      ensures !gameActive ==> tileCountX * GridSize == canvasWidth
    {
      if !gameActive {
        SetupCanvas(containerWidth);
      }
    }

    /** Start (or restart) a game: one segment in the middle of the grid,
        moving right, score 0, and food somewhere else. */
    method InitializeGame()
      requires Valid()
      requires HasFreeCell([Cell(tileCountX / 2, tileCountY / 2)], tileCountX, tileCountY)
      modifies this`snake, this`dx, this`dy, this`score, this`food, this`gameActive
      ensures Valid() && gameActive
      ensures snake == [Cell(tileCountX / 2, tileCountY / 2)]
      ensures dx == 1 && dy == 0 && score == 0
      ensures InGrid(food, tileCountX, tileCountY) && food !in snake
    {
      snake := [Cell(tileCountX / 2, tileCountY / 2)];
      dx := 1;
      dy := 0;
      score := 0;
      PlaceFood();
      gameActive := true;
    }

    /** Whether `c` is one of the snake's segments: a scan of the snake. */
    method Occupied(c: Cell) returns (hit: bool)
      ensures hit <==> c in snake
    {
      for i := 0 to |snake|
        invariant c !in snake[..i]
      {
        if c.x == snake[i].x && c.y == snake[i].y {
          return true;
        }
      }
      assert snake[..|snake|] == snake;
      return false;
    }

    /** Put the food on a random cell of the grid that the snake does not
        cover. The random draw is a free choice of a grid cell; when it
        lands on the snake the draw is repeated until it does not, and the
        cell finally taken is then a free choice among the free cells. */
    method PlaceFood()
      requires HasFreeCell(snake, tileCountX, tileCountY)
      modifies this`food
      ensures InGrid(food, tileCountX, tileCountY) && food !in snake
    {
      var x: int, y: int :| 0 <= x < tileCountX && 0 <= y < tileCountY;
      food := Cell(x, y);
      var hit := Occupied(food);
      if hit {
        var c :| InGrid(c, tileCountX, tileCountY) && c !in snake;
        food := c;
      }
    }

    /** Move the head one cell along the velocity; grow and re-place the
        food on eating, otherwise drop the tail. */
    method MoveSnake()
      requires |snake| >= 1
      requires NextHead(snake[0], dx, dy) == food ==> HasFreeCell([food] + snake, tileCountX, tileCountY)
      modifies this`snake, this`score, this`food
      ensures snake == Moved(old(snake), dx, dy, old(food))
      ensures snake[0] == old(food) ==> score == old(score) + 1
      ensures snake[0] == old(food) ==> InGrid(food, tileCountX, tileCountY) && food !in snake
      ensures snake[0] != old(food) ==> score == old(score) && food == old(food)
    {
      var head := Cell(snake[0].x + dx, snake[0].y + dy);
      snake := [head] + snake;
      if head.x == food.x && head.y == food.y {
        score := score + 1;
        PlaceFood();
      } else {
        snake := snake[..|snake| - 1];
      }
    }

    /** Stop the game and keep the better of the high score and this score. */
    method EndGame()
      requires ScoresKept()
      modifies this`gameActive, this`highScore, this`finalScores
      ensures Valid() && !gameActive
      ensures highScore == Max(old(highScore), score)
      ensures finalScores == old(finalScores) + [score]
    {
      gameActive := false;
      finalScores := finalScores + [score];
      SaveHighScore();
      BestAppend(loadedHighScore, old(finalScores), score);
    }

    /** Replace the high score by the current score if that is higher. */
    method SaveHighScore()
      modifies this`highScore
      ensures highScore == Max(old(highScore), score)
    {
      if score > highScore {
        highScore := score;
      }
    }

    /** End the game if the head has left the grid or lies on the body. */
    method CheckCollision()
      requires Moving()
      modifies this`gameActive, this`highScore, this`finalScores
      ensures Valid()
      ensures Collides(snake, tileCountX, tileCountY) ==>
        !gameActive && highScore == Max(old(highScore), score) && finalScores == old(finalScores) + [score]
      ensures !Collides(snake, tileCountX, tileCountY) ==> unchanged(this)
    {
      var head := snake[0];
      if head.x < 0 || head.x >= tileCountX || head.y < 0 || head.y >= tileCountY {
        EndGame();
        return;
      }
      for i := 1 to |snake|
        invariant forall k :: 1 <= k < i ==> snake[k] != head
      {
        if head.x == snake[i].x && head.y == snake[i].y {
          EndGame();
          return;
        }
      }
    }

    /** A key press: steer, unless the key is not a steering key or would
        reverse the current velocity. */
    method ChangeDirection(key: string)
      requires Valid()
      modifies this`dx, this`dy
      ensures Valid()
      ensures (dx, dy) == Turn(key, old(dx), old(dy))
    {
      var goingUp := dy == -1;
      var goingDown := dy == 1;
      var goingRight := dx == 1;
      var goingLeft := dx == -1;
      if (key == "ArrowLeft" || LowerAscii(key) == "a") && !goingRight {
        dx, dy := -1, 0;
      } else if (key == "ArrowUp" || LowerAscii(key) == "w") && !goingDown {
        dx, dy := 0, -1;
      } else if (key == "ArrowRight" || LowerAscii(key) == "d") && !goingLeft {
        dx, dy := 1, 0;
      } else if (key == "ArrowDown" || LowerAscii(key) == "s") && !goingUp {
        dx, dy := 0, 1;
      }
    }

    /** One tick of the timer: nothing while no game runs, otherwise move
        and then check for a collision. */
    method Tick()
      requires Valid() && RoomToGrow()
      modifies this`snake, this`score, this`food, this`gameActive, this`highScore, this`finalScores
      ensures Valid()
      ensures !old(gameActive) ==> unchanged(this)
      ensures old(gameActive) ==> snake == Moved(old(snake), dx, dy, old(food))
      ensures old(gameActive) ==> gameActive == !Collides(snake, tileCountX, tileCountY)
      ensures old(gameActive) ==> score == old(score) + (if snake[0] == old(food) then 1 else 0)
      ensures old(gameActive) && snake[0] == old(food) ==> gameActive
      ensures old(gameActive) && snake[0] == old(food) ==> InGrid(food, tileCountX, tileCountY) && food !in snake
      ensures old(gameActive) && snake[0] != old(food) ==> food == old(food)
      ensures old(gameActive) && !gameActive ==> highScore == Max(old(highScore), score)
      ensures old(gameActive) && !gameActive ==> finalScores == old(finalScores) + [score]
      ensures gameActive ==> highScore == old(highScore) && finalScores == old(finalScores)
    {
      if !gameActive {
        return;
      }
      ghost var before := snake;
      ghost var oldFood := food;
      MoveSnake();
      if snake[0] == oldFood {
        EatingIsSafe(before, dx, dy, oldFood, tileCountX, tileCountY);
      }
      if !Collides(snake, tileCountX, tileCountY) {
        MoveKeepsShape(before, dx, dy, oldFood, tileCountX, tileCountY);
      }
      CheckCollision();
    }
  }
}
