/** Snake: a head-first list of grid cells, a food cell, and a buffered direction
    (games/snake.js).

    The canvas is a square of `size` pixels cut into cells of `gridSize` pixels, so the
    board is `size / gridSize` cells wide and high; that quotient need not be a whole
    number and is kept as an exact real. */
module Snake {
  import opened Wrappers
  import opened Directions

  datatype Point = Point(x: int, y: int)

  /** `Math.max(10, Math.floor(size / 20))`, the cell size `handleResize` picks. */
  function GridSizeFor(size: nat): (g: nat)
    ensures g >= 10 && (size >= 200 ==> 20 * g <= size)
  {
    if size / 20 > 10 then size / 20 else 10
  }

  /** The head moved one cell in a direction. */
  function Step(p: Point, d: Direction): (q: Point)
    ensures q != p
    ensures q.x == p.x || q.y == p.y
  {
    Point(p.x + DeltaX(d), p.y + DeltaY(d))
  }

  /** Inside `[0, extent) x [0, extent)`, the test of the wall check. */
  predicate OnBoard(p: Point, extent: real)
  {
    0 <= p.x && (p.x as real) < extent && 0 <= p.y && (p.y as real) < extent
  }

  /** No cell occurs twice. */
  ghost predicate Distinct(body: seq<Point>)
  {
    forall i, j :: 0 <= i < j < |body| ==> body[i] != body[j]
  }

  ghost predicate AllOnBoard(body: seq<Point>, extent: real)
  {
    forall i :: 0 <= i < |body| ==> OnBoard(body[i], extent)
  }

  /** The body after a tick that did not collide: the new head in front and, unless
      the food was eaten, the tail popped. */
  function Advance(body: seq<Point>, head: Point, eat: bool): seq<Point>
    requires |body| > 0
  {
    if eat then [head] + body else [head] + body[..|body| - 1]
  }

  /** The cells of the moved body: the old cells and the new head, less the tail
      cell unless the food was eaten. */
  lemma AdvanceCells(body: seq<Point>, head: Point, eat: bool)
    requires |body| > 0
    ensures multiset(Advance(body, head, eat)) ==
      multiset(body) + multiset{head} - (if eat then multiset{} else multiset{body[|body| - 1]})
  {
    if !eat {
      assert body == body[..|body| - 1] + [body[|body| - 1]];
    }
  }

  /** A head that is on the board and on no segment keeps the body free of repeats
      and on the board, whether the tail is popped or not. */
  lemma AdvanceKeepsBody(body: seq<Point>, head: Point, eat: bool, extent: real)
    requires |body| > 0 && Distinct(body) && AllOnBoard(body, extent)
    requires OnBoard(head, extent) && head !in body
    ensures Distinct(Advance(body, head, eat)) && AllOnBoard(Advance(body, head, eat), extent)
  {
    var r := Advance(body, head, eat);
    forall i, j | 0 <= i < j < |r| ensures r[i] != r[j] {
      if i == 0 {
        assert r[j] == body[j - 1];
      } else {
        assert r[i] == body[i - 1] && r[j] == body[j - 1];
      }
    }
    forall i | 0 <= i < |r| ensures OnBoard(r[i], extent) {
      if i > 0 {
        assert r[i] == body[i - 1];
      }
    }
  }

  /** One random food draw: a pair of numbers in [0, 1) scaled to
      `Math.floor(Math.random() * (extent - 1))` in each axis. */
  function Candidate(draw: (real, real), extent: real): Point
  {
    Point((draw.0 * (extent - 1.0)).Floor, (draw.1 * (extent - 1.0)).Floor)
  }

  ghost predicate UnitDraws(draws: seq<(real, real)>)
  {
    forall k :: 0 <= k < |draws| ==> 0.0 <= draws[k].0 < 1.0 && 0.0 <= draws[k].1 < 1.0
  }

  /** A draw in [0, 1) lands in `[0, extent - 1)` on both axes: food never appears in
      the last column or the last row. */
  lemma CandidateBounds(draw: (real, real), extent: real)
    requires 0.0 <= draw.0 < 1.0 && 0.0 <= draw.1 < 1.0 && extent > 1.0
    ensures var p := Candidate(draw, extent);
      0 <= p.x && (p.x as real) < extent - 1.0 && 0 <= p.y && (p.y as real) < extent - 1.0
  {
    var m := extent - 1.0;
    ScaledBelow(draw.0, m);
    ScaledBelow(draw.1, m);
    assert Candidate(draw, extent) == Point((draw.0 * m).Floor, (draw.1 * m).Floor);
  }

  lemma ScaledBelow(r: real, m: real)
    requires 0.0 <= r < 1.0 && m > 0.0
    ensures 0 <= (r * m).Floor && ((r * m).Floor as real) < m
  {
    var v := r * m;
    assert v == m - (1.0 - r) * m;
    assert (1.0 - r) * m > 0.0;
    assert v < m;
    assert 0.0 <= v by {
      if r > 0.0 {
        assert r * m > 0.0;
      }
    }
    assert (v.Floor as real) <= v;
  }

  /** The size of the board in cells along each side, `canvas.width / gridSize`. */
  function Extent(size: nat, gridSize: nat): real
    requires gridSize > 0
  {
    size as real / gridSize as real
  }

  /** A canvas of at least 40 pixels holds more than three cells per side. */
  lemma ExtentAtLeastFour(size: nat)
    requires size >= 40
    ensures Extent(size, GridSizeFor(size)) > 3.0
  {
    var g := GridSizeFor(size);
    assert 3 * g < size;
    QuotientAbove(size as real, g as real, 3.0);
  }

  lemma QuotientAbove(a: real, b: real, c: real)
    requires b > 0.0 && a > c * b
    ensures a / b > c
  {
    var q := a / b;
    assert q * b == a;
    assert (q - c) * b > 0.0;
  }

  class Game {
    const size: nat
    const gridSize: nat
    var snake: seq<Point>
    var food: Point
    var direction: Direction
    var nextDirection: Direction
    /** Points reported through `window.updateScore`. */
    var score: int
    /** `gameOver()` has been called. */
    var over: bool

    function Board(): real
      reads this
      requires gridSize > 0
    {
      Extent(size, gridSize)
    }

    /** The segments never repeat and stay on the board, the food is on no segment, and
        a queued direction never reverses the current one. */
    ghost predicate Valid()
      reads this
    {
      gridSize > 0 && |snake| > 0 && Distinct(snake) && AllOnBoard(snake, Board()) &&
      food !in snake && nextDirection != Opposite(direction)
    }

    /** The constructor followed by `init`: the three-cell snake at (3,1), (2,1),
        (1,1) heading right, and a first food cell off the body. */
    constructor (size: nat, draws: seq<(real, real)>)
      requires size >= 40
      requires UnitDraws(draws)
      requires exists k :: 0 <= k < |draws| &&
                           Candidate(draws[k], Extent(size, GridSizeFor(size))) !in [Point(3, 1), Point(2, 1), Point(1, 1)]
      ensures Valid() && this.size == size && gridSize == GridSizeFor(size)
      ensures snake == [Point(3, 1), Point(2, 1), Point(1, 1)]
      ensures direction == Right && nextDirection == Right && score == 0 && !over
    {
      this.size := size;
      gridSize := GridSizeFor(size);
      snake := [Point(3, 1), Point(2, 1), Point(1, 1)];
      direction, nextDirection := Right, Right;
      score := 0;
      over := false;
      food := Point(0, 0);
      new;
      ExtentAtLeastFour(size);
      GenerateFood(draws);
    }

    /** `handleKeyPress`: an arrow key is queued unless it is the opposite of the
        direction the snake is moving in; other keys are ignored. */
    method HandleKeyPress(key: Key)
      requires Valid()
      modifies this
      ensures Valid() && snake == old(snake) && food == old(food) && direction == old(direction)
      ensures score == old(score) && over == old(over)
      ensures nextDirection ==
        match KeyDirection(key)
        case Some(d) => if Opposite(d) != direction then d else old(nextDirection)
        case None => old(nextDirection)
    {
      var newDirection := KeyDirection(key);
      if newDirection.None? {
        return;
      }
      if Opposite(newDirection.value) != direction {
        nextDirection := newDirection.value;
      }
    }

    /** `generateFood`: draw cells until one is on no segment.  The draws are the
        random numbers the loop consumes; some draw must eventually be free. */
    method GenerateFood(draws: seq<(real, real)>)
      requires gridSize > 0 && UnitDraws(draws)
      requires exists k :: 0 <= k < |draws| && Candidate(draws[k], Board()) !in snake
      modifies this`food
      ensures food !in snake
      ensures exists k :: 0 <= k < |draws| && food == Candidate(draws[k], Board()) &&
                          forall j :: 0 <= j < k ==> Candidate(draws[j], Board()) in snake
      ensures Board() > 1.0 ==>
        0 <= food.x && (food.x as real) < Board() - 1.0 && 0 <= food.y && (food.y as real) < Board() - 1.0
    {
      var i := 0;
      food := Candidate(draws[i], Board());
      while food in snake
        invariant 0 <= i < |draws| && food == Candidate(draws[i], Board())
        invariant forall j :: 0 <= j < i ==> Candidate(draws[j], Board()) in snake
        invariant exists k :: i <= k < |draws| && Candidate(draws[k], Board()) !in snake
        decreases |draws| - i
      {
        i := i + 1;
        food := Candidate(draws[i], Board());
      }
      if Board() > 1.0 {
        CandidateBounds(draws[i], Board());
      }
    }

    /** `checkCollision(head)`: off the board, or on any current segment, the last one
        included. */
    predicate CheckCollision(head: Point)
      reads this
      requires gridSize > 0
    {
      !OnBoard(head, Board()) || head in snake
    }

    /** What a head that passes `checkCollision` buys: the tick keeps the body on the
        board and free of repeats, whether or not it eats.  The test runs before the
        tail moves, so stepping into the cell the tail is about to leave is a
        collision. */
    lemma CollisionFreeKeepsBody(head: Point, eat: bool)
      requires Valid()
      ensures !CheckCollision(head) ==>
        Distinct(Advance(snake, head, eat)) && AllOnBoard(Advance(snake, head, eat), Board())
      ensures head == snake[|snake| - 1] ==> CheckCollision(head)
    {
      if !CheckCollision(head) {
        AdvanceKeepsBody(snake, head, eat, Board());
      }
    }

    /** `update`: adopt the queued direction, move the head one cell; a collision ends
        the game with the body unchanged, otherwise the snake grows onto the food
        (scoring 10 and placing new food) or moves on, popping its tail. */
    method Update(draws: seq<(real, real)>)
      requires Valid() && UnitDraws(draws)
      requires var head := Step(snake[0], nextDirection);
        !CheckCollision(head) && head == food ==>
          exists k :: 0 <= k < |draws| && Candidate(draws[k], Board()) !in [head] + snake
      modifies this
      ensures Valid()
      ensures direction == old(nextDirection) && nextDirection == old(nextDirection)
      ensures var head := Step(old(snake)[0], old(nextDirection));
        if old(CheckCollision(head)) then
          snake == old(snake) && food == old(food) && score == old(score) && over
        else if head == old(food) then
          snake == Advance(old(snake), head, true) && score == old(score) + 10 && over == old(over) &&
          (exists k :: 0 <= k < |draws| && food == Candidate(draws[k], Board()) &&
                       forall j :: 0 <= j < k ==> Candidate(draws[j], Board()) in snake) &&
          0 <= food.x && (food.x as real) < Board() - 1.0 && 0 <= food.y && (food.y as real) < Board() - 1.0
        else
          snake == Advance(old(snake), head, false) && food == old(food) &&
          score == old(score) && over == old(over)
    {
      direction := nextDirection;
      var head := Step(snake[0], direction);
      if CheckCollision(head) {
        over := true;
        return;
      }
      AdvanceKeepsBody(snake, head, head == food, Board());
      snake := [head] + snake;
      if head == food {
        GenerateFood(draws);
        score := score + 10;
      } else {
        snake := snake[..|snake| - 1];
      }
    }
  }

  /** The opening of a game, on a board of at least four cells: from
      [(3,1), (2,1), (1,1)] heading right with food at (5,1), the first tick moves to
      (4,1) and drops (1,1); the second reaches the food and grows to four segments. */
  lemma OpeningMoves(extent: real)
    requires extent > 5.0
    ensures var body := [Point(3, 1), Point(2, 1), Point(1, 1)];
      var h1 := Step(body[0], Right);
      h1 == Point(4, 1) && OnBoard(h1, extent) && h1 !in body &&
      Advance(body, h1, false) == [Point(4, 1), Point(3, 1), Point(2, 1)] &&
      var b1 := Advance(body, h1, false);
      var h2 := Step(b1[0], Right);
      h2 == Point(5, 1) && OnBoard(h2, extent) && h2 !in b1 &&
      Advance(b1, h2, true) == [Point(5, 1), Point(4, 1), Point(3, 1), Point(2, 1)]
  {
  }
}
