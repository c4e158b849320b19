/**
 * The board of the Snake game: its geometry, the cells a snake is made of,
 * the four headings, and the pure case analyses of App/index.js
 * (the next head, the opposite-heading test, the collision test, the food
 * cell drawn from a random number and the touch-quadrant mapping).
 */
module Grid {
  import opened Wrappers

  /** Pixel size of one cell and of the square board. */
  const CellSize: int := 20
  const BoardSize: int := 300

  /** Cells per side: 300 / 20 is exactly 15, in floating point as in integers. */
  const GridSize: int := BoardSize / CellSize

  /** A grid coordinate; x grows to the right, y grows downwards. */
  datatype Point = Point(x: int, y: int)

  /**
   * One element of the snake array: a coordinate, or the empty object that
   * eating appends, whose coordinates are undefined.
   */
  datatype Segment = Cell(at: Point) | Placeholder

  datatype Direction = Up | Down | Left | Right

  predicate InBounds(p: Point) {
    0 <= p.x < GridSize && 0 <= p.y < GridSize
  }

  /** p and q are orthogonal neighbours: one coordinate equal, the other one apart. */
  predicate Adjacent(p: Point, q: Point) {
    (p.x == q.x && (q.y == p.y + 1 || q.y == p.y - 1)) ||
    (p.y == q.y && (q.x == p.x + 1 || q.x == p.x - 1))
  }

  /** The cell one step from head in direction d. */
  function NextHead(head: Point, d: Direction): (r: Point)
    ensures Adjacent(head, r)
    ensures r.x == head.x <==> d == Up || d == Down
    ensures r.y == head.y <==> d == Left || d == Right
    ensures r.y < head.y <==> d == Up
    ensures r.x < head.x <==> d == Left
  {
    match d
    case Up => Point(head.x, head.y - 1)
    case Down => Point(head.x, head.y + 1)
    case Left => Point(head.x - 1, head.y)
    case Right => Point(head.x + 1, head.y)
  }

  /** The reverse of a heading. */
  function Opposite(d: Direction): (r: Direction)
    ensures r != d
  {
    match d
    case Up => Down
    case Down => Up
    case Left => Right
    case Right => Left
  }

  /** The four-way disjunction by which a heading request is refused. */
  predicate IsOpposite(current: Direction, requested: Direction) {
    (current == Up && requested == Down) ||
    (current == Down && requested == Up) ||
    (current == Left && requested == Right) ||
    (current == Right && requested == Left)
  }

  lemma IsOppositeIsReverse(current: Direction, requested: Direction)
    ensures IsOpposite(current, requested) <==> requested == Opposite(current)
    ensures IsOpposite(current, requested) <==> IsOpposite(requested, current)
    ensures Opposite(Opposite(current)) == current
  {
  }

  /** Whether segment seg sits on cell p; a placeholder sits nowhere. */
  predicate Matches(seg: Segment, p: Point) {
    seg.Cell? && seg.at.x == p.x && seg.at.y == p.y
  }

  /**
   * The collision verdict for a prospective head: off the board, or on a
   * cell of the given (pre-move) snake.
   */
  predicate Collides(head: Point, snake: seq<Segment>) {
    !InBounds(head) || Cell(head) in snake
  }

  /** Appending placeholders never changes a collision verdict. */
  lemma CollidesIgnoresPlaceholder(head: Point, snake: seq<Segment>)
    ensures Collides(head, snake + [Placeholder]) <==> Collides(head, snake)
  {
  }

  /**
   * The food cell for two draws of a uniform random number in [0, 1):
   * each coordinate is the floor of the draw scaled by the grid size.
   */
  function FoodPosition(rx: real, ry: real): (r: Point)
    requires 0.0 <= rx < 1.0 && 0.0 <= ry < 1.0
    ensures InBounds(r)
  {
    var maxX := GridSize;
    var maxY := GridSize;
    assert maxX as real == 15.0 && maxY as real == 15.0;
    assert 0.0 <= rx * 15.0 < 15.0 && 0.0 <= ry * 15.0 < 15.0;
    Point((rx * maxX as real).Floor, (ry * maxY as real).Floor)
  }

  /** Every cell of the board can be drawn as food. */
  lemma FoodPositionCoversBoard(p: Point)
    requires InBounds(p)
    ensures 0.0 <= p.x as real / GridSize as real < 1.0
    ensures 0.0 <= p.y as real / GridSize as real < 1.0
    ensures FoodPosition(p.x as real / GridSize as real, p.y as real / GridSize as real) == p
  {
    assert GridSize as real == 15.0;
    assert p.x as real / 15.0 < 1.0 && p.y as real / 15.0 < 1.0;
    assert p.x as real / 15.0 * 15.0 == p.x as real;
    assert p.y as real / 15.0 * 15.0 == p.y as real;
  }

  /**
   * The heading requested by a touch at (x, y) on a screen of the given
   * size: top-left Left, top-right Up, bottom-left Down, bottom-right Right,
   * split at half the width and half the height. None stands for falling
   * through the last guarded branch of the cascade, which the first
   * ensures shows never happens.
   */
  function TouchDirection(x: real, y: real, width: real, height: real): (r: Option<Direction>)
    ensures r.Some?
    ensures r == Some(Left) <==> x < width / 2.0 && y < height / 2.0
    ensures r == Some(Up) <==> x >= width / 2.0 && y < height / 2.0
    ensures r == Some(Down) <==> x < width / 2.0 && y >= height / 2.0
    ensures r == Some(Right) <==> x >= width / 2.0 && y >= height / 2.0
  {
    if x < width / 2.0 && y < height / 2.0 then Some(Left)
    else if x >= width / 2.0 && y < height / 2.0 then Some(Up)
    else if x < width / 2.0 && y >= height / 2.0 then Some(Down)
    else if x >= width / 2.0 && y >= height / 2.0 then Some(Right)
    else None
  }
}
