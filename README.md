# Snake game state machine

A Dafny model of the game logic of a single-screen React Native Snake game
(`App/index.js`). The board is 15 × 15 cells (a 300-unit board of 20-unit
cells). The component keeps four pieces of state: the snake (head first),
the food cell, the heading and the game-over flag. Four handlers change
that state:

- `moveSnake` runs once per timer tick. It computes the next head and the
  shifted body. It ends the game on a collision with a wall or with the
  pre-move snake. Otherwise it commits the move, and when the head lands on
  the food it appends an empty object and draws a new food cell.
- `changeDirection` sets the heading. It ignores the request after game over
  and when the request is the exact reverse of the current heading.
- `handleTouch` turns a touch into a heading by screen quadrant:
  top-left Left, top-right Up, bottom-left Down, bottom-right Right.
- `resetGame` restores the start state.

Layout:

- `grid.dfy` (module `Grid`): points, segments, headings, the board
  constants, and the pure case analyses. These are the next head, the
  reverse test, the collision predicate, the food cell drawn from a random
  number, and the touch quadrant.
- `rules.dfy` (module `Rules`): the state as a value `Game`, the transitions
  `Tick`, `Steer` and `Initial`, the invariant `Inv` of reachable states, and
  the lemmas about them.
- `engine.dfy` (module `Engine`): class `SnakeGame` with the four state
  fields. Its methods update the fields step by step as the handlers do.
  Each is proved against the matching function of `Rules`.
- `wrappers.dfy`: an `Option` type.

Modelling decisions:

- A snake element is `Cell(at)` or `Placeholder`. `Placeholder` is the empty
  object `{}` that eating appends. Its coordinates are undefined, so it never
  equals a head in the collision scan, and the next tick's `slice(0, -1)`
  drops it. Growth is therefore not "keep the old tail". The old last cell
  is free as soon as the food is eaten (`Rules.GrowthFreesOldTail`).
- `moveSnake` has no game-over guard. The timer effect depends only on the
  snake and the heading, so the timer keeps firing after game over. The
  model's `Move` has no guard either. It is proved to change nothing after
  game over, because `Inv` records that a finished game's next head collides.
- `Math.random()` is a parameter: a real draw in [0, 1) for each coordinate.
  The food cell is `floor(draw * 15)`.
- Screen size and touch location are real parameters.

## Model

| member | source | states |
|---|---|---|
| `Grid.NextHead` | App/index.js:39-51 | the next head is an orthogonal neighbour of the head; x is kept exactly for Up/Down, y exactly for Left/Right; y decreases exactly for Up, x decreases exactly for Left |
| `Grid.Opposite` | App/index.js:90-94 | the reverse of a heading is a different heading |
| `Grid.IsOppositeIsReverse` | App/index.js:90-94 | the four-way test refuses exactly the reverse of the current heading; it is symmetric, and reversing twice is the identity |
| `Grid.CollidesIgnoresPlaceholder` | App/index.js:79-83 | appending the empty-object segment never changes a collision verdict |
| `Grid.FoodPosition` | App/index.js:18-25 | for draws in [0, 1) the food cell lies on the 15 × 15 board |
| `Grid.FoodPositionCoversBoard` | App/index.js:18-25 | every board cell is the food cell for some pair of draws in [0, 1) |
| `Grid.TouchDirection` | App/index.js:101-115 | the quadrant mapping always yields a heading, and each heading is yielded exactly in its quadrant (split at half width and half height, lower halves strict) |
| `Rules.Tick` | App/index.js:53-68 | after a tick the snake still starts with a coordinate |
| `Rules.InitialSatisfiesInv` | App/index.js:12-16 | the start state is snake (2,2),(2,1),(2,0); it satisfies the invariant for on-board food, and its first move does not collide |
| `Rules.TickPreservesInv` | App/index.js:53-68 | a tick keeps the invariant: head a coordinate, only the last element a placeholder, every coordinate and the food on the board, game over only when the next head collides |
| `Rules.SteerPreservesInv` | App/index.js:87-99 | a heading request keeps the invariant |
| `Rules.TickOnCollision` | App/index.js:57-60 | on a collision the game is over and snake, food and heading are unchanged |
| `Rules.TickOnPlainMove` | App/index.js:53-67 | without collision or food the new snake is exactly the step in the current heading followed by the old snake minus its last element; that head is an on-board neighbour off the old body, and length, food and heading are kept with the game running |
| `Rules.TickOnEat` | App/index.js:62-65 | moving onto the food grows the snake by exactly one placeholder at the end, the new head is the old food, and the food becomes the new draw |
| `Rules.TickIntoTailCollides` | App/index.js:53-60 | the collision test uses the pre-move snake, so stepping onto the current last cell ends the game |
| `Rules.PlaceholderDroppedNextTick` | App/index.js:55-63 | a tick that neither collides nor eats leaves no placeholder in the snake |
| `Rules.SteerSpec` | App/index.js:87-99 | a request is taken exactly when the game runs and it is not the reverse of the heading; snake, food and flag are unchanged |
| `Rules.SteerNeverReverses` | App/index.js:90-98 | no request ever sets the reverse of the current heading |
| `Rules.GameOverIsFrozen` | App/index.js:57-88 | in a reachable finished game a tick and a heading request change nothing |
| `Rules.GameOverStaysFrozen` | App/index.js:33-60 | after game over any number of further ticks change nothing |
| `Rules.TicksKeepInvAndLength` | App/index.js:53-68 | any run of ticks keeps the invariant and never shortens the snake |
| `Rules.FirstTickFromStart` | App/index.js:53-68 | from the start state with food off (3,2), one tick gives snake (3,2),(2,2),(2,1), same food, heading Right, game running |
| `Rules.GrowthFreesOldTail` | App/index.js:55-65 | after eating, the old last cell is free: the snake can move onto it on the next tick, where keeping the old tail would collide |
| `Engine.SnakeGame.constructor` | App/index.js:27-31 | the first state is the start snake, food from the draws, heading Right, game running, and it satisfies the invariant |
| `Engine.SnakeGame.CheckCollision` | App/index.js:70-85 | the early-exit scan returns true exactly when the head is off the board or on a coordinate of the current snake |
| `Engine.SnakeGame.Move` | App/index.js:53-68 | the new state is one `Tick` of the old with food from the draws; the invariant is kept; after game over nothing changes |
| `Engine.SnakeGame.ChangeDirection` | App/index.js:87-99 | the new state is `Steer` of the old with the request; the invariant is kept |
| `Engine.SnakeGame.HandleTouch` | App/index.js:101-115 | the new state is `Steer` of the old with the heading of the touched quadrant |
| `Engine.SnakeGame.Reset` | App/index.js:117-122 | the new state is the start state with food from the draws, and it satisfies the invariant |

## Left out

- Rendering (JSX, styles, the `App` wrapper, the game-over overlay) is layout only. The model does not say where a placeholder segment would be drawn.
- The `setInterval`/`clearInterval` timer and React's re-render and closure semantics are left out. Each tick is one explicit `Move` call, and each call sees the latest state.
- `Math.random` is left out. Its result is taken as a parameter assumed to lie in [0, 1). Nothing is said about its distribution.
- `Dimensions.get('window')` is left out. The screen width and height are parameters of `TouchDirection` and `HandleTouch`.
- The wiring of the restart tap to `resetGame` is left out. It belongs to the overlay's touch handling.
- Headings are an enumeration. The source uses strings, but only the four heading names are ever passed.
- JavaScript numbers are modelled as unbounded integers. Every coordinate stays within one step of the board, so no rounding can occur.
- Engine.SnakeGame.Move: requires the invariant `Inv`. Every state the component reaches satisfies it. States that break it, such as a snake whose head is the empty object, are not modelled.
