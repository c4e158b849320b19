/**
 * The SnakeGame component of App/index.js as an object whose fields are the
 * four pieces of state its handlers update. Each handler is a method proved
 * against the matching function of module Rules; the random number behind a
 * food cell is passed in as a draw in [0, 1).
 */
module Engine {
  import opened Grid
  import opened Rules

  class SnakeGame {
    var snake: seq<Segment>
    var food: Point
    var direction: Direction
    var gameOver: bool

    /** The state as a value. */
    function State(): Game
      reads this
    {
      Game(snake, food, direction, gameOver)
    }

    predicate Valid()
      reads this
    {
      Inv(State())
    }

    /** The first render: the start snake, a random food cell, heading right, game running. */
    constructor (rx: real, ry: real)
      requires 0.0 <= rx < 1.0 && 0.0 <= ry < 1.0
      ensures Valid()
      ensures State() == Initial(FoodPosition(rx, ry))
    {
      snake := InitialSnake;
      food := FoodPosition(rx, ry);
      direction := Right;
      gameOver := false;
      new;
      InitialSatisfiesInv(food);
    }

    /**
     * The collision test against the current snake: the board bounds first,
     * then a scan of the segments that stops at the first match.
     */
    method CheckCollision(head: Point) returns (hit: bool)
      ensures hit <==> Collides(head, snake)
    {
      if head.x < 0 || head.x >= BoardSize / CellSize || head.y < 0 || head.y >= BoardSize / CellSize {
        return true;
      }
      var i := 0;
      while i < |snake|
        invariant 0 <= i <= |snake|
        invariant Cell(head) !in snake[..i]
      {
        if Matches(snake[i], head) {
          return true;
        }
        i := i + 1;
      }
      assert snake[..i] == snake;
      return false;
    }

    /**
     * One tick of the game loop. The draws rx, ry are used only when the
     * food is eaten. There is no game-over guard, as in the source: after
     * game over the same collision is found again and nothing changes.
     */
    method Move(rx: real, ry: real)
      requires Valid()
      requires 0.0 <= rx < 1.0 && 0.0 <= ry < 1.0
      modifies this
      ensures Valid()
      ensures State() == Tick(old(State()), FoodPosition(rx, ry))
      ensures old(gameOver) ==> State() == old(State())
    {
      ghost var before := State();
      TickPreservesInv(before, FoodPosition(rx, ry));
      var newHead := NextHead(snake[0].at, direction);
      var newSnake := [Cell(newHead)] + snake[..|snake| - 1];
      var hit := CheckCollision(newHead);
      if hit {
        gameOver := true;
        return;
      }
      if newHead.x == food.x && newHead.y == food.y {
        newSnake := newSnake + [Placeholder];
        food := FoodPosition(rx, ry);
      }
      snake := newSnake;
    }

    /** A heading request: ignored after game over and when it is the exact reverse. */
    method ChangeDirection(requested: Direction)
      requires Valid()
      modifies this
      ensures Valid()
      ensures State() == Steer(old(State()), requested)
    {
      SteerPreservesInv(State(), requested);
      if gameOver {
        return;
      }
      var isOppositeDirection :=
        (direction == Up && requested == Down) ||
        (direction == Down && requested == Up) ||
        (direction == Left && requested == Right) ||
        (direction == Right && requested == Left);
      if !isOppositeDirection {
        direction := requested;
      }
    }

    /** A touch at (x, y) on a screen of the given size steers by quadrant. */
    method HandleTouch(x: real, y: real, width: real, height: real)
      requires Valid()
      modifies this
      ensures Valid()
      ensures State() == Steer(old(State()), TouchDirection(x, y, width, height).value)
    {
      var requested := TouchDirection(x, y, width, height);
      if requested.Some? {
        ChangeDirection(requested.value);
      }
    }

    /** Restart: the start snake, a fresh random food cell, heading right, game running. */
    method Reset(rx: real, ry: real)
      requires 0.0 <= rx < 1.0 && 0.0 <= ry < 1.0
      modifies this
      ensures Valid()
      ensures State() == Initial(FoodPosition(rx, ry))
    {
      snake := InitialSnake;
      food := FoodPosition(rx, ry);
      direction := Right;
      gameOver := false;
      InitialSatisfiesInv(food);
    }
  }
}
