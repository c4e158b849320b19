/**
 * The game state of App/index.js as a value, and the transitions the
 * component's handlers perform on it: one tick of moveSnake, a heading
 * request of changeDirection, and the start state that both the initial
 * render and resetGame install. The class in module Engine is proved
 * against these functions; the properties of the game are proved here.
 */
module Rules {
  import opened Grid

  /** The four pieces of component state: snake (head first), food, heading, game-over flag. */
  datatype Game = Game(snake: seq<Segment>, food: Point, direction: Direction, gameOver: bool)

  const InitialSnake: seq<Segment> := [Cell(Point(2, 2)), Cell(Point(2, 1)), Cell(Point(2, 0))]

  /** The start state, with the food cell supplied by the caller. */
  function Initial(food: Point): (g: Game) {
    Game(InitialSnake, food, Right, false)
  }

  /** The snake has a first element and it is a coordinate. */
  predicate HasHead(g: Game) {
    |g.snake| >= 1 && g.snake[0].Cell?
  }

  function Head(g: Game): (p: Point)
    requires HasHead(g)
  {
    g.snake[0].at
  }

  /** The head the next tick will try to move to. */
  function NextHeadOf(g: Game): (p: Point)
    requires HasHead(g)
  {
    NextHead(Head(g), g.direction)
  }

  /** The new head followed by every element but the last. */
  function Shifted(g: Game, newHead: Point): (s: seq<Segment>)
    requires |g.snake| >= 1
  {
    [Cell(newHead)] + g.snake[..|g.snake| - 1]
  }

  /**
   * One tick: game over on a collision with the walls or the pre-move
   * snake; otherwise the shifted snake, with a placeholder appended and
   * the food replaced by newFood when the new head lands on the food.
   */
  function Tick(g: Game, newFood: Point): (r: Game)
    requires HasHead(g)
    ensures HasHead(r)
  {
    var newHead := NextHeadOf(g);
    var newSnake := Shifted(g, newHead);
    if Collides(newHead, g.snake) then
      g.(gameOver := true)
    else if newHead.x == g.food.x && newHead.y == g.food.y then
      g.(snake := newSnake + [Placeholder], food := newFood)
    else
      g.(snake := newSnake)
  }

  /** A heading request: ignored after game over or when it reverses the heading. */
  function Steer(g: Game, requested: Direction): (r: Game) {
    if g.gameOver then g
    else if !IsOpposite(g.direction, requested) then g.(direction := requested)
    else g
  }

  /** Successive ticks, one per food draw in foods (a draw is used only when food is eaten). */
  function Ticks(g: Game, foods: seq<Point>): (r: Game)
    requires HasHead(g)
    decreases |foods|
  {
    if foods == [] then g else Ticks(Tick(g, foods[0]), foods[1..])
  }

  predicate AllInBounds(foods: seq<Point>) {
    forall i :: 0 <= i < |foods| ==> InBounds(foods[i])
  }

  /**
   * What holds of every reachable state: the head is a coordinate, only
   * the last element can be a placeholder, every coordinate and the food
   * lie on the board, and a finished game is one whose next head collides
   * (so that ticking it again keeps it finished and unchanged).
   */
  predicate Inv(g: Game) {
    HasHead(g) &&
    (forall i :: 0 <= i < |g.snake| - 1 ==> g.snake[i].Cell?) &&
    (forall i :: 0 <= i < |g.snake| && g.snake[i].Cell? ==> InBounds(g.snake[i].at)) &&
    InBounds(g.food) &&
    (g.gameOver ==> Collides(NextHeadOf(g), g.snake))
  }

  lemma InitialSatisfiesInv(food: Point)
    requires InBounds(food)
    ensures Inv(Initial(food))
    ensures Initial(food).snake == [Cell(Point(2, 2)), Cell(Point(2, 1)), Cell(Point(2, 0))]
    ensures !Collides(NextHeadOf(Initial(food)), Initial(food).snake)
  {
  }

  lemma TickPreservesInv(g: Game, newFood: Point)
    requires Inv(g) && InBounds(newFood)
    ensures Inv(Tick(g, newFood))
  {
  }

  lemma SteerPreservesInv(g: Game, requested: Direction)
    requires Inv(g)
    ensures Inv(Steer(g, requested))
  {
  }

  /** A collision ends the game and leaves snake, food and heading as they were. */
  lemma TickOnCollision(g: Game, newFood: Point)
    requires HasHead(g) && Collides(NextHeadOf(g), g.snake)
    ensures var r := Tick(g, newFood);
      r.gameOver && r.snake == g.snake && r.food == g.food && r.direction == g.direction
  {
  }

  /**
   * A move that neither collides nor eats: the new snake is the step in the
   * current heading followed by the old snake without its last element; that
   * head is an on-board cell next to the old head and off the old body, the length and the food are kept and the game goes on.
   */
  lemma TickOnPlainMove(g: Game, newFood: Point)
    requires Inv(g)
    requires !Collides(NextHeadOf(g), g.snake) && NextHeadOf(g) != g.food
    ensures var r := Tick(g, newFood);
      && r.snake == [Cell(NextHeadOf(g))] + g.snake[..|g.snake| - 1]
      && InBounds(Head(r)) && Adjacent(Head(g), Head(r)) && Cell(Head(r)) !in g.snake
      && |r.snake| == |g.snake|
      && r.food == g.food && r.direction == g.direction && !r.gameOver
  {
  }

  /**
   * A move onto the food: the length grows by exactly one, the element
   * added at the end is a placeholder, the food becomes newFood.
   */
  lemma TickOnEat(g: Game, newFood: Point)
    requires Inv(g) && InBounds(newFood)
    requires !Collides(NextHeadOf(g), g.snake) && NextHeadOf(g) == g.food
    ensures var r := Tick(g, newFood);
      && Head(r) == g.food
      && |r.snake| == |g.snake| + 1
      && r.snake[|r.snake| - 1] == Placeholder
      && r.snake[1..|g.snake|] == g.snake[..|g.snake| - 1]
      && r.food == newFood && InBounds(r.food)
      && r.direction == g.direction && !r.gameOver
  {
  }

  /**
   * The collision test uses the snake before the move, so stepping onto
   * the cell the last segment still occupies ends the game even though
   * that segment would have moved away.
   */
  lemma TickIntoTailCollides(g: Game, newFood: Point)
    requires HasHead(g) && g.snake[|g.snake| - 1] == Cell(NextHeadOf(g))
    ensures Tick(g, newFood).gameOver && Tick(g, newFood).snake == g.snake
  {
  }

  /**
   * The placeholder that eating appends lives for one tick only: a tick
   * that does not eat again leaves no placeholder in the snake.
   */
  lemma PlaceholderDroppedNextTick(g: Game, newFood: Point)
    requires Inv(g) && !Collides(NextHeadOf(g), g.snake) && NextHeadOf(g) != g.food
    ensures Placeholder !in Tick(g, newFood).snake
  {
  }

  /** A heading request is taken exactly when the game runs and it does not reverse the heading. */
  lemma SteerSpec(g: Game, requested: Direction)
    ensures var r := Steer(g, requested);
      && r.direction == (if g.gameOver || requested == Opposite(g.direction) then g.direction else requested)
      && r.snake == g.snake && r.food == g.food && r.gameOver == g.gameOver
  {
    IsOppositeIsReverse(g.direction, requested);
  }

  /** No request ever turns the snake straight back. */
  lemma SteerNeverReverses(g: Game, requested: Direction)
    ensures Steer(g, requested).direction != Opposite(g.direction)
  {
    IsOppositeIsReverse(g.direction, requested);
  }

  /** After game over, a tick and a heading request change nothing. */
  lemma GameOverIsFrozen(g: Game, newFood: Point, requested: Direction)
    requires Inv(g) && g.gameOver
    ensures Tick(g, newFood) == g
    ensures Steer(g, requested) == g
  {
  }

  /** After game over, any number of further ticks change nothing. */
  lemma {:induction false} GameOverStaysFrozen(g: Game, foods: seq<Point>)
    requires Inv(g) && g.gameOver
    ensures Ticks(g, foods) == g
    decreases |foods|
  {
    if foods != [] {
      GameOverIsFrozen(g, foods[0], Up);
      GameOverStaysFrozen(g, foods[1..]);
    }
  }

  /** Any run of ticks keeps the invariant and never shortens the snake. */
  lemma {:induction false} TicksKeepInvAndLength(g: Game, foods: seq<Point>)
    requires Inv(g) && AllInBounds(foods)
    ensures Inv(Ticks(g, foods))
    ensures |Ticks(g, foods).snake| >= |g.snake|
    decreases |foods|
  {
    if foods != [] {
      TickPreservesInv(g, foods[0]);
      assert AllInBounds(foods[1..]) by {
        forall i | 0 <= i < |foods| - 1 ensures InBounds(foods[1..][i]) {
          assert foods[1..][i] == foods[i + 1];
        }
      }
      TicksKeepInvAndLength(Tick(g, foods[0]), foods[1..]);
    }
  }

  /** From the start state, one tick to the right with the food elsewhere. */
  lemma FirstTickFromStart(food: Point, newFood: Point)
    requires food != Point(3, 2)
    ensures Tick(Initial(food), newFood)
      == Game([Cell(Point(3, 2)), Cell(Point(2, 2)), Cell(Point(2, 1))], food, Right, false)
  {
  }

  /**
   * Eating frees the cell of the old last segment at once: the placeholder
   * does not occupy it, so the snake may move there on the next tick
   * (keeping the old last segment instead would end the game here).
   */
  lemma GrowthFreesOldTail(newFood: Point, laterFood: Point)
    requires InBounds(newFood) && newFood != Point(0, 0)
    ensures var before := Game([Cell(Point(1, 1)), Cell(Point(0, 1)), Cell(Point(0, 0))], Point(1, 0), Up, false);
      var ate := Tick(before, newFood);
      && ate.snake == [Cell(Point(1, 0)), Cell(Point(1, 1)), Cell(Point(0, 1)), Placeholder]
      && !Collides(Point(0, 0), ate.snake)
      && Collides(Point(0, 0), [Cell(Point(1, 0)), Cell(Point(1, 1)), Cell(Point(0, 1)), Cell(Point(0, 0))])
      && Tick(Steer(ate, Left), laterFood).snake
         == [Cell(Point(0, 0)), Cell(Point(1, 0)), Cell(Point(1, 1)), Cell(Point(0, 1))]
  {
    var before := Game([Cell(Point(1, 1)), Cell(Point(0, 1)), Cell(Point(0, 0))], Point(1, 0), Up, false);
    assert NextHeadOf(before) == Point(1, 0);
    assert !Collides(Point(1, 0), before.snake);
    var eaten := [Cell(Point(1, 0)), Cell(Point(1, 1)), Cell(Point(0, 1)), Placeholder];
    assert Shifted(before, Point(1, 0)) + [Placeholder] == eaten;
    var ate := Tick(before, newFood);
    assert ate == before.(snake := eaten, food := newFood);
    assert !Collides(Point(0, 0), eaten);
    var turned := Steer(ate, Left);
    assert turned == ate.(direction := Left);
    assert NextHeadOf(turned) == Point(0, 0);
    assert Tick(turned, laterFood).snake == Shifted(turned, Point(0, 0));
    assert [Cell(Point(1, 0)), Cell(Point(1, 1)), Cell(Point(0, 1)), Cell(Point(0, 0))][3] == Cell(Point(0, 0));
  }
}
