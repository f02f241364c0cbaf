/** Breakout: a paddle, a ball and a wall of 7 x 8 bricks that are switched off,
    never removed, when the ball hits them (games/breakout.js).

    The paddle moves on whole pixels; the ball's horizontal speed after a paddle
    hit depends on where it hit, so the ball is kept in exact reals. */
module Breakout {

  const Width := 800
  const Height := 600
  const PaddleHeight := 20
  const PaddleWidth := 100
  const BallSize := 10
  const BrickHeight := 20
  const BrickPadding := 10
  const BallSpeed := 5
  const PaddleSpeed := 7
  /** `(width - brickPadding * 8) / 8`. */
  const BrickWidth := (Width - BrickPadding * 8) / 8
  /** The paddle's row, `height - paddleHeight - 10`. */
  const PaddleY := Height - PaddleHeight - 10
  /** The ball's starting row, `height - paddleHeight - ballSize - 10`. */
  const ServeY := Height - PaddleHeight - BallSize - 10
  const BrickColors: seq<string> := ["#ff0000", "#ff7f00", "#ffff00", "#00ff00", "#0000ff", "#4b0082", "#8f00ff"]

  datatype Ball = Ball(x: real, y: real, dx: real, dy: real)

  datatype Brick = Brick(x: int, y: int, width: int, height: int, color: string, active: bool)

  datatype Key = ArrowLeft | ArrowRight | OtherKey

  /** The ball as served: centred over the paddle, moving up at `ballSpeed`, to the
      right when the serve draw says so and to the left otherwise. */
  function Serve(right: bool): (b: Ball)
    ensures b.x == (Width / 2) as real && b.y == ServeY as real
    ensures (b.dx == BallSpeed as real || b.dx == -BallSpeed as real) && (b.dx > 0.0 <==> right)
    ensures b.dy == -BallSpeed as real && b.y + BallSize as real <= PaddleY as real
  {
    Ball((Width / 2) as real, ServeY as real, BallSpeed as real * (if right then 1.0 else -1.0), -BallSpeed as real)
  }

  // ---------------------------------------------------------------------------
  // The wall

  /** Brick `k` of `createBricks`: row `k / 8`, column `k % 8`, coloured by its row. */
  function WallSlot(k: nat): Brick
    requires k < 56
  {
    Brick((k % 8) * (BrickWidth + BrickPadding) + BrickPadding,
          (k / 8) * (BrickHeight + BrickPadding) + BrickPadding + 50,
          BrickWidth, BrickHeight, BrickColors[k / 8], true)
  }

  function Wall(): seq<Brick>
  {
    seq(56, k requires 0 <= k < 56 => WallSlot(k))
  }

  /** Number of bricks still standing. */
  function ActiveCount(bs: seq<Brick>): (n: nat)
    ensures n <= |bs|
  {
    if |bs| == 0 then 0 else (if bs[0].active then 1 else 0) + ActiveCount(bs[1..])
  }

  /** `bricks.every(b => !b.active)`. */
  predicate AllCleared(bs: seq<Brick>)
  {
    forall k :: 0 <= k < |bs| ==> !bs[k].active
  }

  /** The wall is cleared exactly when no brick is standing. */
  lemma {:induction false} ClearedIffNoneActive(bs: seq<Brick>)
    ensures AllCleared(bs) <==> ActiveCount(bs) == 0
    decreases |bs|
  {
    if |bs| > 0 {
      ClearedIffNoneActive(bs[1..]);
      assert forall k :: 1 <= k < |bs| ==> bs[k] == bs[1..][k - 1];
      if !AllCleared(bs) && !bs[0].active {
        var k :| 0 <= k < |bs| && bs[k].active;
        assert bs[1..][k - 1].active;
      }
    }
  }

  /** `createBricks` builds 56 standing bricks. */
  lemma WallStanding()
    ensures ActiveCount(Wall()) == 56 && !AllCleared(Wall())
  {
    AllActiveCount(Wall());
    assert Wall()[0].active;
  }

  /** Every brick of the wall is 90 pixels wide and inside the screen. */
  lemma WallShape()
    ensures BrickWidth == 90
    ensures forall k :: 0 <= k < 56 ==>
      Wall()[k].width == 90 && 0 < Wall()[k].x && Wall()[k].x + Wall()[k].width <= Width &&
      50 < Wall()[k].y && Wall()[k].y + Wall()[k].height < PaddleY
  {
  }

  /** No two bricks of the wall touch: each pair is separated by padding, sideways
      within a row and vertically across rows. */
  lemma WallSpaced()
    ensures forall i, j :: 0 <= i < j < 56 ==>
      Wall()[i].x + Wall()[i].width < Wall()[j].x || Wall()[i].y + Wall()[i].height < Wall()[j].y
  {
    forall i, j | 0 <= i < j < 56
      ensures Wall()[i].x + Wall()[i].width < Wall()[j].x || Wall()[i].y + Wall()[i].height < Wall()[j].y
    {
      var a, b := WallSlot(i), WallSlot(j);
      if i / 8 == j / 8 {
        assert i % 8 < j % 8;
        assert a.x + a.width < b.x;
      } else {
        assert i / 8 < j / 8;
        assert a.y + a.height < b.y;
      }
    }
  }

  lemma {:induction false} AllActiveCount(bs: seq<Brick>)
    requires forall k :: 0 <= k < |bs| ==> bs[k].active
    ensures ActiveCount(bs) == |bs|
    decreases |bs|
  {
    if |bs| > 0 {
      assert forall k :: 0 <= k < |bs| - 1 ==> bs[1..][k] == bs[k + 1];
      AllActiveCount(bs[1..]);
    }
  }

  // ---------------------------------------------------------------------------
  // Collisions

  /** `isColliding(ball, brick)`: the ball's square strictly overlaps the brick. */
  predicate IsColliding(b: Ball, br: Brick)
  {
    b.x < (br.x + br.width) as real && b.x + BallSize as real > br.x as real &&
    b.y < (br.y + br.height) as real && b.y + BallSize as real > br.y as real
  }

  /** A brick after the ball passed: a standing brick the ball overlaps falls. */
  function Knock(br: Brick, b: Ball): Brick
  {
    br.(active := br.active && !IsColliding(b, br))
  }

  /** The whole wall after the ball passed. */
  function Knocked(bs: seq<Brick>, b: Ball): seq<Brick>
  {
    seq(|bs|, k requires 0 <= k < |bs| => Knock(bs[k], b))
  }

  /** Number of standing bricks the ball overlaps. */
  function Hits(bs: seq<Brick>, b: Ball): (n: nat)
    ensures n <= |bs|
  {
    if |bs| == 0 then 0
    else (if bs[0].active && IsColliding(b, bs[0]) then 1 else 0) + Hits(bs[1..], b)
  }

  /** Knocking only switches bricks off: the wall keeps its length and its bricks'
      places, and exactly `Hits` of the standing bricks fall. */
  lemma {:induction false} KnockedCounts(bs: seq<Brick>, b: Ball)
    ensures ActiveCount(Knocked(bs, b)) + Hits(bs, b) == ActiveCount(bs)
    ensures forall k :: 0 <= k < |bs| ==> Knocked(bs, b)[k].(active := true) == bs[k].(active := true)
    decreases |bs|
  {
    if |bs| > 0 {
      KnockedCounts(bs[1..], b);
      assert Knocked(bs, b)[1..] == Knocked(bs[1..], b);
    }
  }

  /** A second pass of the same ball knocks nothing more: every brick it overlaps
      is already down, so the wall is unchanged and no hit is scored. */
  lemma {:induction false} KnockedIdempotent(bs: seq<Brick>, b: Ball)
    ensures Knocked(Knocked(bs, b), b) == Knocked(bs, b)
    ensures Hits(Knocked(bs, b), b) == 0
    decreases |bs|
  {
    if |bs| > 0 {
      KnockedIdempotent(bs[1..], b);
      assert Knocked(bs, b)[1..] == Knocked(bs[1..], b);
    }
  }

  /** A vertical speed negated once per hit. */
  function FlipEach(dy: real, hits: nat): (r: real)
    ensures r == dy || r == -dy
  {
    if hits % 2 == 0 then dy else -dy
  }

  /** Each further hit turns the ball round once more, so two hits in one tick
      cancel out. */
  lemma FlipEachStep(dy: real, hits: nat)
    ensures FlipEach(dy, hits + 1) == -FlipEach(dy, hits)
    ensures FlipEach(dy, hits + 2) == FlipEach(dy, hits)
  {
  }

  // ---------------------------------------------------------------------------
  // The ball before the bricks

  /** `hitPosition` turned into a horizontal speed: `ballSpeed * (hit - 0.5) * 2`. */
  function Steer(x: real, paddleX: int): real
  {
    BallSpeed as real * ((x - paddleX as real) / PaddleWidth as real - 0.5) * 2.0
  }

  /** A ball over the paddle leaves it no faster than `ballSpeed` sideways, to the left
      exactly when it hit left of the centre, and straight up at the centre. */
  lemma SteerBounded(x: real, paddleX: int)
    requires paddleX as real <= x <= (paddleX + PaddleWidth) as real
    ensures -BallSpeed as real <= Steer(x, paddleX) <= BallSpeed as real
    ensures Steer(x, paddleX) < 0.0 <==> x < (paddleX + PaddleWidth / 2) as real
    ensures Steer(x, paddleX) == 0.0 <==> x == (paddleX + PaddleWidth / 2) as real
  {
    var hit := (x - paddleX as real) / PaddleWidth as real;
    assert hit * PaddleWidth as real == x - paddleX as real;
    assert 0.0 <= hit <= 1.0;
    assert Steer(x, paddleX) == 10.0 * hit - 5.0;
  }

  /** The ball is over the paddle: at or below its top edge and between its ends. */
  predicate OnPaddle(b: Ball, paddleX: int)
  {
    b.y >= (PaddleY - BallSize) as real && b.x >= paddleX as real && b.x <= (paddleX + PaddleWidth) as real
  }

  /** The first part of `updateBall`: move, bounce off the side walls and the ceiling,
      then off the paddle. */
  function Bounce(b: Ball, paddleX: int): (r: Ball)
  {
    var moved := Ball(b.x + b.dx, b.y + b.dy, b.dx, b.dy);
    var walls := if moved.x <= 0.0 || moved.x >= (Width - BallSize) as real then moved.(dx := -moved.dx) else moved;
    var ceiling := if walls.y <= 0.0 then walls.(dy := -walls.dy) else walls;
    if OnPaddle(ceiling, paddleX) then
      Ball(ceiling.x, (PaddleY - BallSize) as real, Steer(ceiling.x, paddleX), -ceiling.dy)
    else ceiling
  }

  /** The ball keeps its vertical speed up to sign through the bounces; a paddle hit
      puts it on top of the paddle, above the bottom edge, so a tick never both
      bounces the ball off the paddle and loses it. */
  lemma BounceFacts(b: Ball, paddleX: int)
    ensures Bounce(b, paddleX).dy == b.dy || Bounce(b, paddleX).dy == -b.dy
    ensures Bounce(b, paddleX).x == b.x + b.dx
    ensures OnPaddle(Ball(b.x + b.dx, b.y + b.dy, 0.0, 0.0), paddleX) ==>
      Bounce(b, paddleX).y == (PaddleY - BallSize) as real && Bounce(b, paddleX).y < Height as real &&
      -BallSpeed as real <= Bounce(b, paddleX).dx <= BallSpeed as real
  {
    var nx := b.x + b.dx;
    if OnPaddle(Ball(nx, b.y + b.dy, 0.0, 0.0), paddleX) {
      SteerBounded(nx, paddleX);
    }
  }

  /** The paddle's step: left first, then right, each only away from its edge. */
  function PaddleStep(x: int, left: bool, right: bool): int
  {
    var x1 := if left && x > 0 then x - PaddleSpeed else x;
    if right && x1 < Width - PaddleWidth then x1 + PaddleSpeed else x1
  }

  /** From any position on the 7-pixel grid between the edges, the paddle stays on
      the grid between the edges. */
  lemma PaddleStaysOnScreen(x: int, left: bool, right: bool)
    requires 0 <= x <= Width - PaddleWidth && x % PaddleSpeed == 0
    ensures var x' := PaddleStep(x, left, right);
      0 <= x' <= Width - PaddleWidth && x' % PaddleSpeed == 0
  {
  }

  class Game {
    var paddleX: int
    var ball: Ball
    var bricks: seq<Brick>
    var leftHeld: bool
    var rightHeld: bool
    /** Points reported through `window.updateScore`. */
    var score: int
    var lives: int
    /** `gameOver` has been called. */
    var over: bool
    /** `gameOver(true)` has been called: the wall was cleared. */
    var won: bool

    /** The paddle stays on screen on a 7-pixel step; the wall keeps its 56 bricks;
        a win is a game over. */
    ghost predicate Valid()
      reads this
    {
      0 <= paddleX <= Width - PaddleWidth && paddleX % PaddleSpeed == 0 && |bricks| == 56 &&
      (won ==> over)
    }

    /** The constructor followed by `init`: the paddle centred, the ball served with
        the given draw, the full wall, three lives. */
    constructor (serveRight: bool)
      ensures Valid()
      ensures paddleX == 350 && ball == Serve(serveRight) && bricks == Wall()
      ensures score == 0 && lives == 3 && !over && !won && !leftHeld && !rightHeld
    {
      paddleX := Width / 2 - PaddleWidth / 2;
      ball := Serve(serveRight);
      bricks := [];
      score, lives := 0, 3;
      over, won := false, false;
      leftHeld, rightHeld := false, false;
      new;
      CreateBricks();
    }

    /** `createBricks`: seven rows of eight, appended row by row. */
    method CreateBricks()
      modifies this`bricks
      ensures bricks == old(bricks) + Wall()
    {
      var row := 0;
      while row < 7
        invariant 0 <= row <= 7
        invariant bricks == old(bricks) + Wall()[..row * 8]
      {
        var col := 0;
        while col < 8
          invariant 0 <= col <= 8
          invariant bricks == old(bricks) + Wall()[..row * 8 + col]
        {
          assert Wall()[..row * 8 + col + 1] == Wall()[..row * 8 + col] + [WallSlot(row * 8 + col)];
          assert (row * 8 + col) % 8 == col && (row * 8 + col) / 8 == row;
          bricks := bricks + [Brick(col * (BrickWidth + BrickPadding) + BrickPadding,
                                    row * (BrickHeight + BrickPadding) + BrickPadding + 50,
                                    BrickWidth, BrickHeight, BrickColors[row], true)];
          col := col + 1;
        }
        row := row + 1;
      }
      assert Wall()[..56] == Wall();
    }

    /** `handleKeyDown`: an arrow key is held. */
    method HandleKeyDown(key: Key)
      modifies this`leftHeld, this`rightHeld
      ensures leftHeld == (old(leftHeld) || key == ArrowLeft)
      ensures rightHeld == (old(rightHeld) || key == ArrowRight)
    {
      if key == ArrowLeft {
        leftHeld := true;
      } else if key == ArrowRight {
        rightHeld := true;
      }
    }

    /** `handleKeyUp`: an arrow key is released. */
    method HandleKeyUp(key: Key)
      modifies this`leftHeld, this`rightHeld
      ensures leftHeld == (old(leftHeld) && key != ArrowLeft)
      ensures rightHeld == (old(rightHeld) && key != ArrowRight)
    {
      if key == ArrowLeft {
        leftHeld := false;
      } else if key == ArrowRight {
        rightHeld := false;
      }
    }

    /** `updatePaddle`. */
    method UpdatePaddle()
      requires Valid()
      modifies this`paddleX
      ensures Valid()
      ensures paddleX == PaddleStep(old(paddleX), leftHeld, rightHeld)
    {
      if leftHeld && paddleX > 0 {
        paddleX := paddleX - PaddleSpeed;
      }
      if rightHeld && paddleX < Width - PaddleWidth {
        paddleX := paddleX + PaddleSpeed;
      }
    }

    /** `resetBall`: serve again. */
    method ResetBall(serveRight: bool)
      modifies this`ball
      ensures ball == Serve(serveRight)
    {
      ball := ball.(x := (Width / 2) as real);
      ball := ball.(y := ServeY as real);
      ball := ball.(dx := BallSpeed as real * (if serveRight then 1.0 else -1.0));
      ball := ball.(dy := -BallSpeed as real);
    }

    /** `updateBall`: bounce, knock down the bricks the ball overlaps, then lose a
        life if the ball fell out, serving again with the given draw while lives
        remain. */
    method UpdateBall(serveRight: bool)
      requires Valid()
      modifies this`ball, this`bricks, this`score, this`lives, this`over, this`won
      ensures Valid()
      ensures var b := Bounce(old(ball), paddleX);
        var hits := Hits(old(bricks), b);
        bricks == Knocked(old(bricks), b) && score == old(score) + 10 * hits &&
        won == (old(won) || (hits > 0 && AllCleared(bricks))) &&
        if b.y >= Height as real then
          lives == old(lives) - 1 &&
          if lives <= 0 then over && ball == b.(dy := FlipEach(b.dy, hits))
          else over == (old(over) || won) && ball == Serve(serveRight)
        else
          lives == old(lives) && over == (old(over) || won) && ball == b.(dy := FlipEach(b.dy, hits))
    {
      BounceBall();
      KnockBricks();
      if ball.y >= Height as real {
        lives := lives - 1;
        if lives <= 0 {
          over := true;
        } else {
          ResetBall(serveRight);
        }
      }
    }

    /** The first part of `updateBall`: move, then the wall, ceiling and paddle
        bounces. */
    method BounceBall()
      modifies this`ball
      ensures ball == Bounce(old(ball), paddleX)
    {
      ball := ball.(x := ball.x + ball.dx);
      ball := ball.(y := ball.y + ball.dy);
      if ball.x <= 0.0 || ball.x >= (Width - BallSize) as real {
        ball := ball.(dx := ball.dx * -1.0);
      }
      if ball.y <= 0.0 {
        ball := ball.(dy := ball.dy * -1.0);
      }
      if ball.y >= (PaddleY - BallSize) as real && ball.x >= paddleX as real && ball.x <= (paddleX + PaddleWidth) as real {
        ball := ball.(dy := ball.dy * -1.0);
        ball := ball.(y := (PaddleY - BallSize) as real);
        var hitPosition := (ball.x - paddleX as real) / PaddleWidth as real;
        ball := ball.(dx := BallSpeed as real * (hitPosition - 0.5) * 2.0);
      }
    }

    /** The brick loop of `updateBall`: from the last brick to the first, a standing
        brick the ball overlaps falls, turns the ball round and scores 10; a hit that
        leaves no brick standing wins the game. */
    method KnockBricks()
      requires Valid()
      modifies this`bricks, this`ball, this`score, this`over, this`won
      ensures Valid()
      ensures var hits := Hits(old(bricks), old(ball));
        bricks == Knocked(old(bricks), old(ball)) && score == old(score) + 10 * hits &&
        ball == old(ball).(dy := FlipEach(old(ball).dy, hits)) &&
        won == (old(won) || (hits > 0 && AllCleared(bricks))) && over == (old(over) || won)
    {
      ghost var start, b, score0, over0, won0 := bricks, ball, score, over, won;
      var i := |bricks| - 1;
      assert start[i + 1..] == [];
      while i >= 0
        invariant -1 <= i < |start| && |bricks| == |start|
        invariant KnockedUpTo(start, b, i, bricks)
        invariant KnockedSoFar(start, b, i, score0, won0, over0, score, ball, won, over, AllCleared(bricks))
      {
        KnockBrick(i, start, b, score0, won0, over0);
        i := i - 1;
      }
      assert start[0..] == start;
      assert bricks == Knocked(start, b);
    }

    /** The body of the brick loop, for brick `i`. */
    method KnockBrick(i: nat, ghost start: seq<Brick>, ghost b: Ball, ghost score0: int, ghost won0: bool, ghost over0: bool)
      requires i < |start| == |bricks| && KnockedUpTo(start, b, i, bricks)
      requires KnockedSoFar(start, b, i, score0, won0, over0, score, ball, won, over, AllCleared(bricks))
      modifies this`bricks, this`ball, this`score, this`over, this`won
      ensures |bricks| == |start| && KnockedUpTo(start, b, i - 1, bricks)
      ensures KnockedSoFar(start, b, i - 1, score0, won0, over0, score, ball, won, over, AllCleared(bricks))
    {
      var brick := bricks[i];
      HitsStep(start, b, i);
      FlipEachStep(b.dy, Hits(start[i + 1..], b));
      if brick.active && IsColliding(ball, brick) {
        ghost var before := bricks;
        bricks := bricks[i := brick.(active := false)];
        ClearedStays(before, i);
        ball := ball.(dy := ball.dy * -1.0);
        score := score + 10;
        if AllCleared(bricks) {
          over, won := true, true;
        }
      }
    }

    /** `update`: the paddle, then the ball. */
    method Update(serveRight: bool)
      requires Valid()
      modifies this
      ensures Valid()
      ensures score >= old(score) && lives <= old(lives) && ActiveCount(bricks) <= old(ActiveCount(bricks))
      ensures old(over) ==> over
    {
      UpdatePaddle();
      ghost var b := Bounce(ball, paddleX);
      ghost var bs := bricks;
      UpdateBall(serveRight);
      KnockedCounts(bs, b);
    }
  }

  /** The state of the brick loop once it has handled the bricks after index `i`:
      score, vertical speed and the win follow the hits among them. */
  ghost predicate KnockedSoFar(start: seq<Brick>, b: Ball, i: int, score0: int, won0: bool, over0: bool,
                               score: int, ball: Ball, won: bool, over: bool, cleared: bool)
    requires -1 <= i < |start|
  {
    var hits := Hits(start[i + 1..], b);
    score == score0 + 10 * hits && ball == b.(dy := FlipEach(b.dy, hits)) &&
    won == (won0 || (hits > 0 && cleared)) && over == (over0 || won)
  }

  /** The bricks up to index `i` are untouched and those after it are knocked. */
  ghost predicate KnockedUpTo(start: seq<Brick>, b: Ball, i: int, bricks: seq<Brick>)
    requires -1 <= i < |start| == |bricks|
  {
    (forall k :: 0 <= k <= i ==> bricks[k] == start[k]) &&
    (forall k :: i < k < |start| ==> bricks[k] == Knock(start[k], b))
  }

  /** Switching a brick off keeps a cleared wall cleared. */
  lemma ClearedStays(bs: seq<Brick>, i: nat)
    requires i < |bs|
    ensures AllCleared(bs) ==> AllCleared(bs[i := bs[i].(active := false)])
  {
  }

  lemma HitsStep(bs: seq<Brick>, b: Ball, i: nat)
    requires i < |bs|
    ensures Hits(bs[i..], b) == (if bs[i].active && IsColliding(b, bs[i]) then 1 else 0) + Hits(bs[i + 1..], b)
  {
    assert bs[i..][1..] == bs[i + 1..];
  }
}
