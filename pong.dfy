/** Pong: two paddles, a ball and first to five points (games/pong.js).

    The court is sized from the page: `handleResize` derives every length from the
    court height, so all lengths are exact reals. */
module Pong {

  const MaxScore := 5

  /** The lengths `handleResize` sets, all proportional to the court height. */
  datatype Court = Court(width: real, height: real, paddleHeight: real, paddleWidth: real,
                         ballSize: real, paddleSpeed: real, ballSpeed: real)

  /** `handleResize` for a game area of the given size: the court is as high as fits
      with a width of twice its height. */
  function CourtFor(clientWidth: real, clientHeight: real): (c: Court)
    ensures c.width == 2.0 * c.height && c.height <= clientHeight && 2.0 * c.height <= clientWidth
    ensures c.height == clientHeight || 2.0 * c.height == clientWidth
  {
    var h := if clientHeight <= clientWidth / 2.0 then clientHeight else clientWidth / 2.0;
    var w := h * 2.0;
    Court(w, h, h / 4.0, w / 40.0, w / 80.0, h / 80.0, w / 160.0)
  }

  /** In a court of positive height the lengths nest the way the game relies on: the
      two paddles and the ball fit side by side across the court, and a paddle fits
      in its height. */
  lemma CourtProportions(clientWidth: real, clientHeight: real)
    requires clientWidth > 0.0 && clientHeight > 0.0
    ensures var c := CourtFor(clientWidth, clientHeight);
      0.0 < c.ballSize < c.paddleWidth && 2.0 * c.paddleWidth + c.ballSize < c.width &&
      0.0 < c.paddleSpeed == c.ballSpeed && c.paddleHeight < c.height
  {
  }

  datatype Ball = Ball(x: real, y: real, dx: real, dy: real)

  datatype Key = KeyW | KeyS | ArrowUp | ArrowDown | OtherKey

  datatype Player = Player1 | Player2

  /** The ball at the centre of the court, moving diagonally at `ballSpeed`; the two
      draws pick right or left and down or up. */
  function Centre(c: Court, right: bool, down: bool): (b: Ball)
    ensures b.x == c.width / 2.0 && b.y == c.height / 2.0
    ensures (b.dx == c.ballSpeed || b.dx == -c.ballSpeed) && (b.dy == c.ballSpeed || b.dy == -c.ballSpeed)
    ensures c.ballSpeed > 0.0 ==> (b.dx > 0.0 <==> right) && (b.dy > 0.0 <==> down)
  {
    Ball(c.width / 2.0, c.height / 2.0, if right then c.ballSpeed else -c.ballSpeed, if down then c.ballSpeed else -c.ballSpeed)
  }

  /** One paddle's step: up if its up key is held and it is below the top, then down
      if its down key is held and it is above `height - paddleHeight`. */
  function PaddleStep(c: Court, y: real, up: bool, down: bool): real
  {
    var y1 := if up && y > 0.0 then y - c.paddleSpeed else y;
    if down && y1 < c.height - c.paddleHeight then y1 + c.paddleSpeed else y1
  }

  /** A paddle never moves further than one step past the top or the bottom guard:
      the band `(-paddleSpeed, height - paddleHeight + paddleSpeed)` is kept, and a
      paddle outside it is never pushed further out. */
  lemma PaddleStaysNearCourt(c: Court, y: real, up: bool, down: bool)
    requires c.paddleSpeed > 0.0
    ensures var y' := PaddleStep(c, y, up, down);
      (y > -c.paddleSpeed ==> y' > -c.paddleSpeed) &&
      (y < c.height - c.paddleHeight + c.paddleSpeed ==> y' < c.height - c.paddleHeight + c.paddleSpeed) &&
      y - c.paddleSpeed <= y' <= y + c.paddleSpeed
  {
  }

  /** The ball is level with a paddle whose top is at `paddleY`. */
  predicate Level(c: Court, b: Ball, paddleY: real)
  {
    b.y >= paddleY && b.y <= paddleY + c.paddleHeight
  }

  /** The first part of `updateBall`: move, bounce off the top or bottom edge, then
      return from the left paddle and then from the right one. */
  function Rally(c: Court, b: Ball, leftY: real, rightY: real): Ball
  {
    var moved := Ball(b.x + b.dx, b.y + b.dy, b.dx, b.dy);
    var edges := if moved.y <= 0.0 || moved.y >= c.height then moved.(dy := -moved.dy) else moved;
    var left := if edges.x <= c.paddleWidth && Level(c, edges, leftY)
                then edges.(dx := -edges.dx, x := c.paddleWidth) else edges;
    if left.x >= c.width - c.paddleWidth - c.ballSize && Level(c, left, rightY)
    then left.(dx := -left.dx, x := c.width - c.paddleWidth - c.ballSize) else left
  }

  /** The rally keeps the ball's speed on both axes up to sign, turns it vertically
      exactly when it reached the top or the bottom edge, and a ball returned by a
      paddle in a court where the paddles and ball fit is not past either goal
      line. */
  lemma RallyFacts(c: Court, b: Ball, leftY: real, rightY: real)
    ensures var r := Rally(c, b, leftY, rightY);
      (r.dx == b.dx || r.dx == -b.dx) && r.y == b.y + b.dy &&
      (r.dy == -b.dy <==> (b.y + b.dy <= 0.0 || b.y + b.dy >= c.height || b.dy == 0.0))
    ensures var r := Rally(c, b, leftY, rightY);
      0.0 < c.paddleWidth && 2.0 * c.paddleWidth + c.ballSize < c.width && r.dx != b.dx ==>
        0.0 < r.x < c.width - c.ballSize
  {
  }

  /** The paddle returns of the rally, in a court where the two paddles and the
      ball fit side by side: a ball reaching the left paddle's face level with it
      leaves from that face with `dx` negated, likewise at the right paddle, and a
      ball that reaches neither keeps its step. */
  lemma RallyReturns(c: Court, b: Ball, leftY: real, rightY: real)
    requires 2.0 * c.paddleWidth + c.ballSize < c.width
    ensures var r := Rally(c, b, leftY, rightY);
      var x, y := b.x + b.dx, b.y + b.dy;
      var atLeft := x <= c.paddleWidth && y >= leftY && y <= leftY + c.paddleHeight;
      var atRight := x >= c.width - c.paddleWidth - c.ballSize && y >= rightY && y <= rightY + c.paddleHeight;
      (atLeft ==> r.x == c.paddleWidth && r.dx == -b.dx) &&
      (atRight ==> r.x == c.width - c.paddleWidth - c.ballSize && r.dx == -b.dx) &&
      (!atLeft && !atRight ==> r.x == x && r.dx == b.dx)
  {
  }

  /** `gameOver`'s choice: Player 1 wins when the left score reached `maxScore`. */
  function Winner(leftScore: int): Player
  {
    if leftScore >= MaxScore then Player1 else Player2
  }

  class Game {
    const court: Court
    var leftY: real
    var rightY: real
    var leftScore: int
    var rightScore: int
    var ball: Ball
    var wHeld: bool
    var sHeld: bool
    var upHeld: bool
    var downHeld: bool
    /** `gameOver` has been called, naming `winner`. */
    var over: bool
    var winner: Player

    /** The constructor followed by `init`: both paddles at 150 (half the default
        height less half the default paddle), the court sized from the game area,
        and `resetGame` with the given serve draws. */
    constructor (clientWidth: real, clientHeight: real, right: bool, down: bool)
      ensures court == CourtFor(clientWidth, clientHeight)
      ensures leftY == 150.0 && rightY == 150.0 && leftScore == 0 && rightScore == 0
      ensures ball == Centre(court, right, down) && !over
      ensures !wHeld && !sHeld && !upHeld && !downHeld
    {
      court := CourtFor(clientWidth, clientHeight);
      leftY, rightY := 400.0 / 2.0 - 100.0 / 2.0, 400.0 / 2.0 - 100.0 / 2.0;
      leftScore, rightScore := 0, 0;
      ball := Ball(0.0, 0.0, 0.0, 0.0);
      wHeld, sHeld, upHeld, downHeld := false, false, false, false;
      over, winner := false, Player2;
      new;
      ResetGame(right, down);
    }

    /** `resetGame`: the ball to the centre and both scores to zero. */
    method ResetGame(right: bool, down: bool)
      modifies this`ball, this`leftScore, this`rightScore
      ensures ball == Centre(court, right, down) && leftScore == 0 && rightScore == 0
    {
      ball := ball.(x := court.width / 2.0);
      ball := ball.(y := court.height / 2.0);
      ball := ball.(dx := if right then court.ballSpeed else -court.ballSpeed);
      ball := ball.(dy := if down then court.ballSpeed else -court.ballSpeed);
      leftScore := 0;
      rightScore := 0;
    }

    /** `handleKeyDown`: one of the four paddle keys is held. */
    method HandleKeyDown(key: Key)
      modifies this`wHeld, this`sHeld, this`upHeld, this`downHeld
      ensures wHeld == (old(wHeld) || key == KeyW) && sHeld == (old(sHeld) || key == KeyS)
      ensures upHeld == (old(upHeld) || key == ArrowUp) && downHeld == (old(downHeld) || key == ArrowDown)
    {
      match key
      case KeyW => wHeld := true;
      case KeyS => sHeld := true;
      case ArrowUp => upHeld := true;
      case ArrowDown => downHeld := true;
      case OtherKey =>
    }

    /** `handleKeyUp`: one of the four paddle keys is released. */
    method HandleKeyUp(key: Key)
      modifies this`wHeld, this`sHeld, this`upHeld, this`downHeld
      ensures wHeld == (old(wHeld) && key != KeyW) && sHeld == (old(sHeld) && key != KeyS)
      ensures upHeld == (old(upHeld) && key != ArrowUp) && downHeld == (old(downHeld) && key != ArrowDown)
    {
      match key
      case KeyW => wHeld := false;
      case KeyS => sHeld := false;
      case ArrowUp => upHeld := false;
      case ArrowDown => downHeld := false;
      case OtherKey =>
    }

    /** `updatePaddles`: W and S steer the left paddle, the arrows the right one. */
    method UpdatePaddles()
      modifies this`leftY, this`rightY
      ensures leftY == PaddleStep(court, old(leftY), wHeld, sHeld)
      ensures rightY == PaddleStep(court, old(rightY), upHeld, downHeld)
    {
      if wHeld && leftY > 0.0 {
        leftY := leftY - court.paddleSpeed;
      }
      if sHeld && leftY < court.height - court.paddleHeight {
        leftY := leftY + court.paddleSpeed;
      }
      if upHeld && rightY > 0.0 {
        rightY := rightY - court.paddleSpeed;
      }
      if downHeld && rightY < court.height - court.paddleHeight {
        rightY := rightY + court.paddleSpeed;
      }
    }

    /** `resetBall`: the ball back to the centre with fresh directions. */
    method ResetBall(right: bool, down: bool)
      modifies this`ball
      ensures ball == Centre(court, right, down)
    {
      ball := ball.(x := court.width / 2.0);
      ball := ball.(y := court.height / 2.0);
      ball := ball.(dx := if right then court.ballSpeed else -court.ballSpeed);
      ball := ball.(dy := if down then court.ballSpeed else -court.ballSpeed);
    }

    /** The first part of `updateBall`: the move, the edge bounce and the paddle
        returns. */
    method PlayRally()
      modifies this`ball
      ensures ball == Rally(court, old(ball), leftY, rightY)
    {
      ball := ball.(x := ball.x + ball.dx);
      ball := ball.(y := ball.y + ball.dy);
      if ball.y <= 0.0 || ball.y >= court.height {
        ball := ball.(dy := -ball.dy);
      }
      if ball.x <= court.paddleWidth && ball.y >= leftY && ball.y <= leftY + court.paddleHeight {
        ball := ball.(dx := -ball.dx);
        ball := ball.(x := court.paddleWidth);
      }
      if ball.x >= court.width - court.paddleWidth - court.ballSize && ball.y >= rightY && ball.y <= rightY + court.paddleHeight {
        ball := ball.(dx := -ball.dx);
        ball := ball.(x := court.width - court.paddleWidth - court.ballSize);
      }
    }

    /** `updateBall`: the rally, then at most one point (the right player's when the
        ball is at or past the left edge, otherwise the left player's when it is at
        or past the right one) with a fresh serve, then the game-over check. */
    method UpdateBall(right: bool, down: bool)
      modifies this`ball, this`leftScore, this`rightScore, this`over, this`winner
      ensures var r := Rally(court, old(ball), leftY, rightY);
        var p := Point(court, r.x);
        leftScore == old(leftScore) + p.0 && rightScore == old(rightScore) + p.1 &&
        ball == if p.0 + p.1 == 1 then Centre(court, right, down) else r
      ensures over == (old(over) || leftScore >= MaxScore || rightScore >= MaxScore)
      ensures leftScore >= MaxScore || rightScore >= MaxScore ==> winner == Winner(leftScore)
      ensures leftScore < MaxScore && rightScore < MaxScore ==> winner == old(winner)
    {
      PlayRally();
      if ball.x <= 0.0 {
        rightScore := rightScore + 1;
        ResetBall(right, down);
      } else if ball.x >= court.width - court.ballSize {
        leftScore := leftScore + 1;
        ResetBall(right, down);
      }
      if leftScore >= MaxScore || rightScore >= MaxScore {
        GameOver();
      }
    }

    /** `gameOver`: the winner is Player 1 if the left score reached `maxScore`. */
    method GameOver()
      modifies this`over, this`winner
      ensures over && winner == Winner(leftScore)
    {
      over := true;
      winner := if leftScore >= MaxScore then Player1 else Player2;
    }

    /** `update`: the paddles, then the ball.  At most one point is scored, and the
        scores never go down. */
    method Update(right: bool, down: bool)
      modifies this`leftY, this`rightY, this`ball, this`leftScore, this`rightScore, this`over, this`winner
      ensures leftScore >= old(leftScore) && rightScore >= old(rightScore)
      ensures leftScore + rightScore <= old(leftScore) + old(rightScore) + 1
      ensures old(over) ==> over
    {
      UpdatePaddles();
      UpdateBall(right, down);
    }
  }

  /** The scoring rule of `updateBall` on its own: the point that a rally ending at
      `x` gives to the left and right players. */
  function Point(c: Court, x: real): (p: (nat, nat))
    ensures p.0 + p.1 <= 1
    ensures p.1 == 1 <==> x <= 0.0
    ensures c.ballSize < c.width ==> (p.0 == 1 <==> x >= c.width - c.ballSize)
  {
    if x <= 0.0 then (0, 1) else if x >= c.width - c.ballSize then (1, 0) else (0, 0)
  }

  /** `gameOver` names the player who leads: a tick that starts with both scores
      below `MaxScore` gives at most one point, so once a score reaches `MaxScore`
      the winner is Player 1 exactly when the left score is the higher. */
  lemma WinnerLeads(c: Court, x: real, leftScore: int, rightScore: int)
    requires leftScore < MaxScore && rightScore < MaxScore
    ensures var p := Point(c, x);
      var l, r := leftScore + p.0, rightScore + p.1;
      l >= MaxScore || r >= MaxScore ==> (Winner(l) == Player1 <==> l > r)
  {
  }

  /** The paddles start at 150, half the default height of 400 less half the
      default paddle, and are not re-centred when the court is sized: they start
      wholly inside the court exactly when it is at least 200 high. */
  lemma StartInsideCourt(clientWidth: real, clientHeight: real)
    ensures var c := CourtFor(clientWidth, clientHeight);
      150.0 + c.paddleHeight <= c.height <==> c.height >= 200.0
  {
  }
}
