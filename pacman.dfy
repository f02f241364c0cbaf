/** Pac-Man: Pac-Man, four ghosts and two dot lists on a fixed tile maze
    (games/pacman.js).  Positions are whole pixels; a position lies in the tile
    `(x / GridSize, y / GridSize)`, floor division as in `Math.floor`. */
module Pacman {
  import opened Wrappers
  import opened Directions
  import opened PacmanMaze

  const GridSize := 20
  const GhostSize := 20
  const DotSize := 8
  const PowerDotSize := 16
  const Speed := 3
  const GhostSpeed := 2

  /** Where `initializeGame` puts a dot or power dot inside its tile. */
  const DotInset := GridSize / 2 - DotSize / 2
  const PowerDotInset := GridSize / 2 - PowerDotSize / 2

  const GhostColors: seq<string> := ["#ff0000", "#00ffff", "#ffb8ff", "#ffb852"]

  datatype Pos = Pos(x: int, y: int)

  datatype Ghost = Ghost(x: int, y: int, color: string, direction: Direction, speed: int)

  /** The cell test of `movePacman` and `moveGhosts`: the row must exist and the tile
      must not be a wall; a column outside the row reads as `undefined`, which is not
      0, so it counts as open. */
  predicate Passable(maze: seq<seq<int>>, gx: int, gy: int)
  {
    0 <= gy < |maze| && (gx < 0 || gx >= |maze[gy]| || maze[gy][gx] != 0)
  }

  /** `isColliding`: strict Chebyshev distance below `size`. */
  predicate IsColliding(a: Pos, b: Pos, size: int)
  {
    -size < a.x - b.x < size && -size < a.y - b.y < size
  }

  function Abs(n: int): (r: nat)
    ensures r == n || r == -n
  {
    if n < 0 then -n else n
  }

  /** The test is symmetric, and strict: objects exactly `size` apart on an axis do
      not collide. */
  lemma CollidingSymmetricStrict(a: Pos, b: Pos, size: int)
    ensures IsColliding(a, b, size) <==> Abs(a.x - b.x) < size && Abs(a.y - b.y) < size
    ensures IsColliding(a, b, size) <==> IsColliding(b, a, size)
    ensures Abs(a.x - b.x) == size ==> !IsColliding(a, b, size)
  {
  }

  function GhostPos(g: Ghost): Pos
  {
    Pos(g.x, g.y)
  }

  /** One step of `speed` pixels in a direction. */
  function StepBy(p: Pos, d: Direction, speed: int): Pos
  {
    Pos(p.x + DeltaX(d) * speed, p.y + DeltaY(d) * speed)
  }

  /** The tile test applied to the tile holding a pixel position. */
  predicate PassableAt(maze: seq<seq<int>>, p: Pos)
  {
    Passable(maze, p.x / GridSize, p.y / GridSize)
  }

  /** A position is passable exactly when its row exists and no wall tile is at its
      column; positions left or right of a row are open even though no tile is
      there. */
  lemma PassableAtMeans(maze: seq<seq<int>>, p: Pos)
    ensures PassableAt(maze, p) <==>
      0 <= p.y && p.y < GridSize * |maze| &&
      !(0 <= p.x && p.x < GridSize * |maze[p.y / GridSize]| && maze[p.y / GridSize][p.x / GridSize] == 0)
  {
  }

  /** The ghost after its random step: moved and turned when the target tile is
      passable, otherwise exactly as it was. */
  function GhostStep(maze: seq<seq<int>>, g: Ghost, d: Direction): Ghost
  {
    var next := StepBy(GhostPos(g), d, g.speed);
    if PassableAt(maze, next) then g.(x := next.x, y := next.y, direction := d) else g
  }

  /** A ghost either stays where it is or lands on a passable position exactly its
      speed away along one axis, keeping its colour and speed. */
  lemma GhostStepMoves(maze: seq<seq<int>>, g: Ghost, d: Direction)
    ensures var r := GhostStep(maze, g, d);
      r.color == g.color && r.speed == g.speed &&
      (GhostPos(r) == GhostPos(g) ||
       (PassableAt(maze, GhostPos(r)) && (r.x == g.x || r.y == g.y) &&
        Abs(r.x - g.x) + Abs(r.y - g.y) == Abs(g.speed)))
  {
  }

  /** The four ghosts `initializeGame` creates, at tiles (10, 5), (15, 5), (20, 5)
      and (25, 5), heading right at `GhostSpeed`. */
  function InitialGhosts(): seq<Ghost>
  {
    seq(4, i requires 0 <= i < 4 => Ghost((10 + 5 * i) * GridSize, 5 * GridSize, GhostColors[i], Right, GhostSpeed))
  }

  /** Every ghost starts inside a wall tile. */
  lemma GhostsStartInWalls()
    ensures forall i :: 0 <= i < 4 ==>
      var g := InitialGhosts()[i];
      Maze[g.y / GridSize][g.x / GridSize] == 0
  {
    MazeShape();
    forall i | 0 <= i < 4
      ensures Maze[InitialGhosts()[i].y / GridSize][InitialGhosts()[i].x / GridSize] == 0
    {
      assert InitialGhosts()[i].y / GridSize == 5;
      assert InitialGhosts()[i].x / GridSize == 10 + 5 * i;
    }
  }

  /** The four ghosts start 100 pixels apart, so none touches another, and none
      touches Pac-Man at his starting corner (0, 0). */
  lemma InitialGhostsApart()
    ensures forall i, j :: 0 <= i < j < 4 ==>
      !IsColliding(GhostPos(InitialGhosts()[i]), GhostPos(InitialGhosts()[j]), GhostSize)
    ensures HitCount(InitialGhosts(), Pos(0, 0)) == 0
  {
    NoTouchNoHit(InitialGhosts(), Pos(0, 0));
  }

  // ---------------------------------------------------------------------------
  // Maze scans of `initializeGame`

  /** The first column of a row holding tile 1, if any. */
  function FirstPath(row: seq<int>): (r: Option<nat>)
    ensures r.Some? ==> r.value < |row| && row[r.value] == 1 && forall x :: 0 <= x < r.value ==> row[x] != 1
    ensures r.None? ==> forall x :: 0 <= x < |row| ==> row[x] != 1
  {
    if |row| == 0 then None
    else if row[0] == 1 then Some(0)
    else match FirstPath(row[1..])
      case None => None
      case Some(x) => Some(x + 1)
  }

  /** Where the start scan leaves Pac-Man: the `break` leaves only the inner loop, so
      the last row holding a 1 wins, at its first 1. */
  function StartCell(m: seq<seq<int>>): (r: Option<Pos>)
    ensures r.None? <==> forall y, x :: 0 <= y < |m| && 0 <= x < |m[y]| ==> m[y][x] != 1
    ensures r.Some? ==> 0 <= r.value.y < |m| && 0 <= r.value.x < |m[r.value.y]| && m[r.value.y][r.value.x] == 1
    ensures r.Some? ==> forall y, x :: r.value.y < y < |m| && 0 <= x < |m[y]| ==> m[y][x] != 1
  {
    if |m| == 0 then None
    else match FirstPath(m[|m| - 1])
      case Some(x) => Some(Pos(x, |m| - 1))
      case None =>
        var r := StartCell(m[..|m| - 1]);
        assert forall y :: 0 <= y < |m| - 1 ==> m[..|m| - 1][y] == m[y];
        r
  }

  /** No tile of a maze is a path tile (code 1). */
  ghost predicate NoPathTile(m: seq<seq<int>>)
  {
    forall y, x :: 0 <= y < |m| && 0 <= x < |m[y]| ==> m[y][x] != 1
  }

  /** The maze holds no tile 1, so the start scan never moves Pac-Man. */
  lemma StartScanFindsNothing()
    ensures NoPathTile(Maze) && StartCell(Maze) == None
  {
    MazeHasNoPathTile();
  }

  /** The pixel positions of every `tile` in a maze row, left to right, `inset`
      pixels into each tile. */
  function RowPositions(row: seq<int>, y: int, tile: int, inset: int): (ps: seq<Pos>)
    ensures |ps| <= |row|
  {
    if |row| == 0 then []
    else
      RowPositions(row[..|row| - 1], y, tile, inset) +
      (if row[|row| - 1] == tile then [Pos((|row| - 1) * GridSize + inset, y * GridSize + inset)] else [])
  }

  /** The same over the rows of a maze, top to bottom. */
  function TilePositions(m: seq<seq<int>>, tile: int, inset: int): seq<Pos>
  {
    if |m| == 0 then []
    else TilePositions(m[..|m| - 1], tile, inset) + RowPositions(m[|m| - 1], |m| - 1, tile, inset)
  }

  lemma {:induction false} RowPositionsExact(row: seq<int>, y: int, tile: int, inset: int, p: Pos)
    ensures p in RowPositions(row, y, tile, inset) <==>
      exists x :: 0 <= x < |row| && row[x] == tile && p == Pos(x * GridSize + inset, y * GridSize + inset)
    decreases |row|
  {
    if |row| > 0 {
      var init := row[..|row| - 1];
      RowPositionsExact(init, y, tile, inset, p);
      assert forall x :: 0 <= x < |init| ==> init[x] == row[x];
    }
  }

  /** The positions are exactly those of the tiles holding `tile`. */
  lemma {:induction false} TilePositionsExact(m: seq<seq<int>>, tile: int, inset: int, p: Pos)
    ensures p in TilePositions(m, tile, inset) <==>
      exists y, x :: 0 <= y < |m| && 0 <= x < |m[y]| && m[y][x] == tile &&
                     p == Pos(x * GridSize + inset, y * GridSize + inset)
    decreases |m|
  {
    if |m| > 0 {
      var last := |m| - 1;
      var init := m[..last];
      TilePositionsExact(init, tile, inset, p);
      RowPositionsExact(m[last], last, tile, inset, p);
      if p in TilePositions(m, tile, inset) {
        if p in TilePositions(init, tile, inset) {
          var y, x :| 0 <= y < |init| && 0 <= x < |init[y]| && init[y][x] == tile &&
                      p == Pos(x * GridSize + inset, y * GridSize + inset);
          assert init[y] == m[y];
        } else {
          var x :| 0 <= x < |m[last]| && m[last][x] == tile && p == Pos(x * GridSize + inset, last * GridSize + inset);
        }
      }
      if exists y, x :: 0 <= y < |m| && 0 <= x < |m[y]| && m[y][x] == tile &&
                        p == Pos(x * GridSize + inset, y * GridSize + inset) {
        var y, x :| 0 <= y < |m| && 0 <= x < |m[y]| && m[y][x] == tile &&
                    p == Pos(x * GridSize + inset, y * GridSize + inset);
        if y < last {
          assert init[y] == m[y];
        }
      }
    }
  }

  /** The dots and power dots one call of `initializeGame` appends. */
  function DotsOf(maze: seq<seq<int>>): seq<Pos>
  {
    TilePositions(maze, 2, DotInset)
  }

  function PowerDotsOf(maze: seq<seq<int>>): seq<Pos>
  {
    TilePositions(maze, 3, PowerDotInset)
  }

  function Repeat<T>(s: seq<T>, n: nat): seq<T>
  {
    if n == 0 then [] else Repeat(s, n - 1) + s
  }

  // ---------------------------------------------------------------------------
  // Dots

  /** The items a sweep of `checkDots` keeps: those not colliding with Pac-Man, in
      their original order. */
  function Uneaten(s: seq<Pos>, pac: Pos, size: int): (r: seq<Pos>)
    ensures |r| <= |s|
  {
    if |s| == 0 then []
    else (if IsColliding(pac, s[0], size) then [] else [s[0]]) + Uneaten(s[1..], pac, size)
  }

  /** An item survives exactly when it is present and does not collide; nothing is
      eaten exactly when no item collides. */
  lemma {:induction false} UneatenExact(s: seq<Pos>, pac: Pos, size: int, d: Pos)
    ensures d in Uneaten(s, pac, size) <==> d in s && !IsColliding(pac, d, size)
    ensures |Uneaten(s, pac, size)| == |s| <==> forall i :: 0 <= i < |s| ==> !IsColliding(pac, s[i], size)
    decreases |s|
  {
    if |s| > 0 {
      UneatenExact(s[1..], pac, size, d);
      assert s == [s[0]] + s[1..];
      if forall i :: 0 <= i < |s| ==> !IsColliding(pac, s[i], size) {
        assert forall i :: 0 <= i < |s[1..]| ==> !IsColliding(pac, s[1..][i], size) by {
          forall i | 0 <= i < |s[1..]| ensures !IsColliding(pac, s[1..][i], size) {
            assert s[1..][i] == s[i + 1];
          }
        }
      }
      if |Uneaten(s, pac, size)| == |s| {
        assert !IsColliding(pac, s[0], size);
        forall i | 0 <= i < |s| ensures !IsColliding(pac, s[i], size) {
          if i > 0 {
            assert s[i] == s[1..][i - 1];
          }
        }
      }
    }
  }

  /** Removing or keeping the item at `i` of a list whose prefix up to `i` is
      untouched and whose tail `u` was already filtered. */
  lemma SpliceAt<T>(s: seq<T>, i: nat, u: seq<T>)
    requires i < |s|
    ensures var t := s[..i + 1] + u;
      i < |t| && t[i] == s[i] && t[..i] + t[i + 1..] == s[..i] + u && s[..i] + ([s[i]] + u) == t
  {
    var t := s[..i + 1] + u;
    assert t[..i] == s[..i];
    assert t[i + 1..] == u;
    assert s[..i + 1] == s[..i] + [s[i]];
  }

  lemma UneatenCons(s: seq<Pos>, i: nat, pac: Pos, size: int)
    requires 0 < i <= |s|
    ensures Uneaten(s[i - 1..], pac, size) ==
      (if IsColliding(pac, s[i - 1], size) then [] else [s[i - 1]]) + Uneaten(s[i..], pac, size)
  {
    assert s[i - 1..][1..] == s[i..];
  }

  // ---------------------------------------------------------------------------
  // Ghost collisions

  /** How many ghosts of a list touch Pac-Man. */
  function HitCount(gs: seq<Ghost>, pac: Pos): (n: nat)
    ensures n <= |gs|
  {
    if |gs| == 0 then 0
    else HitCount(gs[..|gs| - 1], pac) + (if IsColliding(pac, GhostPos(gs[|gs| - 1]), GhostSize) then 1 else 0)
  }

  /** A ghost eaten in power mode is sent back to tile (10, 5). */
  function Captured(g: Ghost, pac: Pos): Ghost
  {
    if IsColliding(pac, GhostPos(g), GhostSize) then g.(x := 10 * GridSize, y := 5 * GridSize) else g
  }

  function CaptureAll(gs: seq<Ghost>, pac: Pos): seq<Ghost>
  {
    seq(|gs|, i requires 0 <= i < |gs| => Captured(gs[i], pac))
  }

  /** No ghost touching Pac-Man means no hit. */
  lemma {:induction false} NoTouchNoHit(gs: seq<Ghost>, pac: Pos)
    ensures (forall i :: 0 <= i < |gs| ==> !IsColliding(pac, GhostPos(gs[i]), GhostSize)) ==> HitCount(gs, pac) == 0
    decreases |gs|
  {
    if |gs| > 0 {
      NoTouchNoHit(gs[..|gs| - 1], pac);
    }
  }

  /** After the power-mode sweep no ghost touches Pac-Man any more, unless he stands
      at the ghosts' home: a second sweep would find nothing to eat. */
  lemma CaptureAllClears(gs: seq<Ghost>, pac: Pos)
    ensures !IsColliding(pac, Pos(10 * GridSize, 5 * GridSize), GhostSize) ==>
      HitCount(CaptureAll(gs, pac), pac) == 0
  {
    NoTouchNoHit(CaptureAll(gs, pac), pac);
  }

  lemma HitCountStep(gs: seq<Ghost>, i: nat, pac: Pos)
    requires i < |gs|
    ensures HitCount(gs[..i + 1], pac) ==
      HitCount(gs[..i], pac) + if IsColliding(pac, GhostPos(gs[i]), GhostSize) then 1 else 0
  {
    assert gs[..i + 1][..i] == gs[..i];
  }

  lemma CaptureAllStep(gs: seq<Ghost>, i: nat, pac: Pos)
    requires i < |gs|
    ensures CaptureAll(gs[..i + 1], pac) + gs[i + 1..] == (CaptureAll(gs[..i], pac) + gs[i..])[i := Captured(gs[i], pac)]
  {
  }

  /** How many of `hits` successive life losses from `lives` leave lives above zero,
      each of which restarts the level with `initializeGame`. */
  function Restarts(lives: int, hits: nat): nat
  {
    if hits == 0 then 0 else Restarts(lives, hits - 1) + (if lives - hits > 0 then 1 else 0)
  }

  /** Closed form: every hit restarts the level until lives run out. */
  lemma {:induction false} RestartsClosedForm(lives: int, hits: nat)
    ensures Restarts(lives, hits) == if lives - 1 <= 0 then 0 else if hits <= lives - 1 then hits else lives - 1
  {
    if hits > 0 {
      RestartsClosedForm(lives, hits - 1);
    }
  }

  /** Lives, game-over flag, ghosts, dots and power dots after `hits` ghosts have
      touched Pac-Man out of power mode, from the given starting values: each hit
      costs a life and each loss that leaves lives above zero restarts the level. */
  function Hunted(m: seq<seq<int>>, hits: nat, lives0: int, over0: bool, ghosts0: seq<Ghost>,
                  dots0: seq<Pos>, powerDots0: seq<Pos>): (int, bool, seq<Ghost>, seq<Pos>, seq<Pos>)
  {
    var restarts := Restarts(lives0, hits);
    (lives0 - hits, over0 || (hits > 0 && lives0 - hits <= 0),
     if restarts > 0 then InitialGhosts() else ghosts0,
     dots0 + Repeat(DotsOf(m), restarts), powerDots0 + Repeat(PowerDotsOf(m), restarts))
  }

  /** One more hit: a life lost, then the game is over if that left none, and
      otherwise the ghosts are reset and the maze's dots placed once more. */
  lemma HuntedStep(m: seq<seq<int>>, hits: nat, lives0: int, over0: bool, ghosts0: seq<Ghost>,
                   dots0: seq<Pos>, powerDots0: seq<Pos>)
    ensures var h := Hunted(m, hits, lives0, over0, ghosts0, dots0, powerDots0);
      Hunted(m, hits + 1, lives0, over0, ghosts0, dots0, powerDots0) ==
        if h.0 - 1 <= 0 then (h.0 - 1, true, h.2, h.3, h.4)
        else (h.0 - 1, h.1, InitialGhosts(), h.3 + DotsOf(m), h.4 + PowerDotsOf(m))
  {
    var restarts := Restarts(lives0, hits);
    assert Restarts(lives0, hits + 1) == restarts + if lives0 - (hits + 1) > 0 then 1 else 0;
    if lives0 - (hits + 1) > 0 {
      assert Repeat(DotsOf(m), restarts + 1) == Repeat(DotsOf(m), restarts) + DotsOf(m);
      assert Repeat(PowerDotsOf(m), restarts + 1) == Repeat(PowerDotsOf(m), restarts) + PowerDotsOf(m);
      assert dots0 + (Repeat(DotsOf(m), restarts) + DotsOf(m)) == dots0 + Repeat(DotsOf(m), restarts) + DotsOf(m);
      assert powerDots0 + (Repeat(PowerDotsOf(m), restarts) + PowerDotsOf(m)) ==
        powerDots0 + Repeat(PowerDotsOf(m), restarts) + PowerDotsOf(m);
    }
  }

  /** Before any hit nothing has changed. */
  lemma HuntedNone(m: seq<seq<int>>, lives0: int, over0: bool, ghosts0: seq<Ghost>,
                   dots0: seq<Pos>, powerDots0: seq<Pos>)
    ensures Hunted(m, 0, lives0, over0, ghosts0, dots0, powerDots0) == (lives0, over0, ghosts0, dots0, powerDots0)
  {
    assert dots0 + [] == dots0 && powerDots0 + [] == powerDots0;
  }

  class Game {
    /** The tile layout, `Maze` from construction on. */
    const maze: seq<seq<int>>
    var pacX: int
    var pacY: int
    var direction: Direction
    var nextDirection: Direction
    var ghosts: seq<Ghost>
    var dots: seq<Pos>
    var powerDots: seq<Pos>
    /** Points reported through `window.updateScore`. */
    var score: int
    var lives: int
    var powerMode: bool
    /** The pending power-mode timeout, named by the number of timeouts set so far;
        `None` once it fired or was cleared. */
    var powerModeTimer: Option<nat>
    var timersSet: nat
    /** `gameOver()` has been called (it may be called more than once). */
    var over: bool

    function Pac(): Pos
      reads this
    {
      Pos(pacX, pacY)
    }

    /** The maze has no start tile, a pending timeout is the latest one set, and one
        is pending exactly when power mode is on. */
    ghost predicate Valid()
      reads this
    {
      NoPathTile(maze) &&
      (powerModeTimer.Some? ==> powerModeTimer.value == timersSet) &&
      (powerMode <==> powerModeTimer.Some?)
    }

    /** The constructor: Pac-Man at (0, 0) facing right, no ghosts or dots yet,
        three lives.  The layout is passed in (the game always passes `Maze`, which
        meets the requirement by `StartScanFindsNothing`). */
    constructor (layout: seq<seq<int>>)
      requires NoPathTile(layout)
      ensures Valid() && maze == layout
      ensures pacX == 0 && pacY == 0 && direction == Right && nextDirection == Right
      ensures ghosts == [] && dots == [] && powerDots == []
      ensures score == 0 && lives == 3 && !powerMode && powerModeTimer == None && !over
    {
      pacX, pacY := 0, 0;
      direction, nextDirection := Right, Right;
      ghosts, dots, powerDots := [], [], [];
      score, lives := 0, 3;
      powerMode, powerModeTimer, timersSet := false, None, 0;
      over := false;
      maze := layout;
    }

    /** `init`, less its canvas and listener set-up: `initializeGame`. */
    method Init()
      requires Valid()
      modifies this`pacX, this`pacY, this`ghosts, this`dots, this`powerDots
      ensures Valid()
      ensures Pac() == old(Pac()) && ghosts == InitialGhosts()
      ensures dots == old(dots) + DotsOf(maze) && powerDots == old(powerDots) + PowerDotsOf(maze)
    {
      InitializeGame();
    }

    /** `handleKeyPress`: an arrow key is queued unless it is the opposite of
        Pac-Man's current direction; other keys are ignored. */
    method HandleKeyPress(key: Key)
      modifies this`nextDirection
      ensures nextDirection ==
        match KeyDirection(key)
        case Some(d) => if Opposite(d) != direction then d else old(nextDirection)
        case None => old(nextDirection)
    {
      var newDirection := KeyDirection(key);
      if newDirection.None? {
        return;
      }
      if Opposite(newDirection.value) != direction {
        nextDirection := newDirection.value;
      }
    }

    /** `initializeGame`: the start scan (which finds nothing), four fresh ghosts,
        and every dot and power dot of the maze appended to the current lists. */
    method InitializeGame()
      requires NoPathTile(maze)
      modifies this`pacX, this`pacY, this`ghosts, this`dots, this`powerDots
      ensures pacX == old(pacX) && pacY == old(pacY)
      ensures ghosts == InitialGhosts()
      ensures dots == old(dots) + DotsOf(maze) && powerDots == old(powerDots) + PowerDotsOf(maze)
    {
      FindStart();
      ghosts := InitialGhosts();
      PlaceDots();
    }

    /** The start scan of `initializeGame`: Pac-Man goes to the first tile 1 of the
        last row that has one. */
    method FindStart()
      modifies this`pacX, this`pacY
      ensures Pac() == match StartCell(maze)
                       case None => old(Pac())
                       case Some(c) => Pos(c.x * GridSize, c.y * GridSize)
    {
      ghost var pac0 := Pac();
      var y := 0;
      while y < |maze|
        invariant 0 <= y <= |maze|
        invariant Pac() == match StartCell(maze[..y])
                           case None => pac0
                           case Some(c) => Pos(c.x * GridSize, c.y * GridSize)
      {
        var x := 0;
        while x < |maze[y]|
          invariant 0 <= x <= |maze[y]|
          invariant forall j :: 0 <= j < x ==> maze[y][j] != 1
          invariant Pac() == match StartCell(maze[..y])
                             case None => pac0
                             case Some(c) => Pos(c.x * GridSize, c.y * GridSize)
        {
          if maze[y][x] == 1 {
            pacX := x * GridSize;
            pacY := y * GridSize;
            break;
          }
          x := x + 1;
        }
        assert maze[..y + 1][..y] == maze[..y] && maze[..y + 1][y] == maze[y];
        y := y + 1;
      }
      assert maze[..y] == maze;
    }

    /** The dot loop of `initializeGame`: every tile 2 appends a dot and every tile 3
        a power dot, row by row, to the lists as they are. */
    method PlaceDots()
      modifies this`dots, this`powerDots
      ensures dots == old(dots) + DotsOf(maze) && powerDots == old(powerDots) + PowerDotsOf(maze)
    {
      ghost var dots0, powerDots0 := dots, powerDots;
      var y := 0;
      while y < |maze|
        invariant 0 <= y <= |maze|
        invariant dots == dots0 + TilePositions(maze[..y], 2, DotInset)
        invariant powerDots == powerDots0 + TilePositions(maze[..y], 3, PowerDotInset)
      {
        var x := 0;
        while x < |maze[y]|
          invariant 0 <= x <= |maze[y]|
          invariant dots == dots0 + TilePositions(maze[..y], 2, DotInset) +
                            RowPositions(maze[y][..x], y, 2, DotInset)
          invariant powerDots == powerDots0 + TilePositions(maze[..y], 3, PowerDotInset) +
                                 RowPositions(maze[y][..x], y, 3, PowerDotInset)
        {
          assert maze[y][..x + 1][..x] == maze[y][..x];
          if maze[y][x] == 2 {
            dots := dots + [Pos(x * GridSize + GridSize / 2 - DotSize / 2, y * GridSize + GridSize / 2 - DotSize / 2)];
          } else if maze[y][x] == 3 {
            powerDots := powerDots + [Pos(x * GridSize + GridSize / 2 - PowerDotSize / 2,
                                          y * GridSize + GridSize / 2 - PowerDotSize / 2)];
          }
          x := x + 1;
        }
        assert maze[y][..x] == maze[y];
        assert maze[..y + 1][..y] == maze[..y] && maze[..y + 1][y] == maze[y];
        y := y + 1;
      }
      assert maze[..y] == maze;
    }

    /** `activatePowerMode`: power mode on, the previous timeout cleared and a new
        one set. */
    method ActivatePowerMode()
      modifies this`powerMode, this`powerModeTimer, this`timersSet
      ensures powerMode && timersSet == old(timersSet) + 1 && powerModeTimer == Some(timersSet)
    {
      powerMode := true;
      timersSet := timersSet + 1;
      powerModeTimer := Some(timersSet);
    }

    /** The pending timeout fires `powerModeDuration` after it was set: power mode
        ends.  A cleared timeout never fires. */
    method PowerModeTimeout()
      requires Valid() && powerModeTimer.Some?
      modifies this`powerMode, this`powerModeTimer
      ensures Valid() && !powerMode && powerModeTimer == None
    {
      powerMode := false;
      powerModeTimer := None;
    }

    /** `gameOver`: the flag, and the power-mode timeout cleared. */
    method GameOver()
      modifies this`over, this`powerModeTimer
      ensures over && powerModeTimer == None
    {
      over := true;
      powerModeTimer := None;
    }

    /** `checkDots`: two reverse sweeps splicing out every dot, then every power dot,
        that Pac-Man touches; 10 points per dot, 50 per power dot, and power mode
        (re)activated for each power dot eaten. */
    method CheckDots()
      requires Valid()
      modifies this`dots, this`powerDots, this`score, this`powerMode, this`powerModeTimer, this`timersSet
      ensures Valid()
      ensures dots == Uneaten(old(dots), Pac(), DotSize)
      ensures powerDots == Uneaten(old(powerDots), Pac(), PowerDotSize)
      ensures var eaten := |old(powerDots)| - |powerDots|;
        score == old(score) + 10 * (|old(dots)| - |dots|) + 50 * eaten &&
        timersSet == old(timersSet) + eaten &&
        if eaten > 0 then powerMode && powerModeTimer == Some(timersSet)
        else powerMode == old(powerMode) && powerModeTimer == old(powerModeTimer)
    {
      EatDots();
      EatPowerDots();
    }

    /** The first sweep of `checkDots`, from the last dot to the first. */
    method EatDots()
      modifies this`dots, this`score
      ensures dots == Uneaten(old(dots), Pac(), DotSize)
      ensures score == old(score) + 10 * (|old(dots)| - |dots|)
    {
      ghost var start, score0 := dots, score;
      var i := |dots| - 1;
      while i >= 0
        invariant -1 <= i < |start|
        invariant dots == start[..i + 1] + Uneaten(start[i + 1..], Pac(), DotSize)
        invariant score == score0 + 10 * (|start| - |dots|)
      {
        UneatenCons(start, i + 1, Pac(), DotSize);
        if IsColliding(Pac(), dots[i], DotSize) {
          dots := dots[..i] + dots[i + 1..];
          score := score + 10;
        }
        i := i - 1;
      }
      assert start[0..] == start;
    }

    /** The power-mode bookkeeping after `eaten` power dots, from the given score,
        timeout count, mode and pending timeout. */
    ghost predicate PoweredUp(eaten: nat, score0: int, timers0: nat, mode0: bool, timer0: Option<nat>)
      reads this
    {
      score == score0 + 50 * eaten && timersSet == timers0 + eaten &&
      if eaten > 0 then powerMode && powerModeTimer == Some(timersSet)
      else powerMode == mode0 && powerModeTimer == timer0
    }

    /** The second sweep of `checkDots` with the power dots after index `i` still
        to check: those before are as they were, those after were filtered, and the
        bookkeeping counts the ones eaten. */
    ghost predicate PowerSweep(start: seq<Pos>, i: int, score0: int, timers0: nat, mode0: bool, timer0: Option<nat>)
      reads this
    {
      -1 <= i < |start| && Valid() &&
      powerDots == start[..i + 1] + Uneaten(start[i + 1..], Pac(), PowerDotSize) &&
      PoweredUp(|start| - |powerDots|, score0, timers0, mode0, timer0)
    }

    /** The second sweep of `checkDots`, over the power dots. */
    method EatPowerDots()
      requires Valid()
      modifies this`powerDots, this`score, this`powerMode, this`powerModeTimer, this`timersSet
      ensures Valid()
      ensures powerDots == Uneaten(old(powerDots), Pac(), PowerDotSize)
      ensures PoweredUp(|old(powerDots)| - |powerDots|, old(score), old(timersSet), old(powerMode), old(powerModeTimer))
    {
      ghost var start, score0, timers0, mode0, timer0 := powerDots, score, timersSet, powerMode, powerModeTimer;
      var i := |powerDots| - 1;
      while i >= 0
        invariant PowerSweep(start, i, score0, timers0, mode0, timer0)
      {
        EatPowerDot(i, start, score0, timers0, mode0, timer0);
        i := i - 1;
      }
      assert start[0..] == start;
    }

    /** One turn of the power-dot sweep: the power dot at `i` against Pac-Man. */
    method EatPowerDot(i: nat, ghost start: seq<Pos>, ghost score0: int, ghost timers0: nat, ghost mode0: bool,
                       ghost timer0: Option<nat>)
      requires PowerSweep(start, i, score0, timers0, mode0, timer0)
      modifies this`powerDots, this`score, this`powerMode, this`powerModeTimer, this`timersSet
      ensures PowerSweep(start, i - 1, score0, timers0, mode0, timer0)
    {
      ghost var rest := Uneaten(start[i + 1..], Pac(), PowerDotSize);
      ghost var eaten := |start| - |powerDots|;
      UneatenCons(start, i + 1, Pac(), PowerDotSize);
      SpliceAt(start, i, rest);
      if IsColliding(Pac(), powerDots[i], PowerDotSize) {
        powerDots := powerDots[..i] + powerDots[i + 1..];
        assert powerDots == start[..i] + Uneaten(start[i..], Pac(), PowerDotSize);
        assert |start| - |powerDots| == eaten + 1;
        score := score + 50;
        ActivatePowerMode();
      } else {
        assert powerDots == start[..i] + Uneaten(start[i..], Pac(), PowerDotSize);
      }
    }

    /** `movePacman`: the step in the current direction is taken only into a passable
        tile; only then does the queued direction take effect and the dots get
        checked.  A blocked step changes nothing. */
    method MovePacman()
      requires Valid()
      modifies this`pacX, this`pacY, this`direction, this`dots, this`powerDots, this`score
      modifies this`powerMode, this`powerModeTimer, this`timersSet
      ensures Valid()
      ensures var next := StepBy(old(Pac()), old(direction), Speed);
        if PassableAt(maze, next) then
          Pac() == next && direction == old(nextDirection) &&
          dots == Uneaten(old(dots), next, DotSize) && powerDots == Uneaten(old(powerDots), next, PowerDotSize) &&
          score == old(score) + 10 * (|old(dots)| - |dots|) + 50 * (|old(powerDots)| - |powerDots|) &&
          (powerMode <==> old(powerMode) || |powerDots| < |old(powerDots)|) &&
          timersSet == old(timersSet) + (|old(powerDots)| - |powerDots|) &&
          powerModeTimer == if |powerDots| < |old(powerDots)| then Some(timersSet) else old(powerModeTimer)
        else
          Pac() == old(Pac()) && direction == old(direction) && dots == old(dots) &&
          powerDots == old(powerDots) && score == old(score) && powerMode == old(powerMode) &&
          timersSet == old(timersSet) && powerModeTimer == old(powerModeTimer)
      ensures nextDirection == old(nextDirection) && ghosts == old(ghosts) && lives == old(lives) && over == old(over)
    {
      var next := StepBy(Pac(), direction, Speed);
      var gridX := next.x / GridSize;
      var gridY := next.y / GridSize;
      if 0 <= gridY < |maze| && (gridX < 0 || gridX >= |maze[gridY]| || maze[gridY][gridX] != 0) {
        pacX, pacY := next.x, next.y;
        direction := nextDirection;
        CheckDots();
      }
    }

    /** `moveGhosts`: each ghost takes its own random step (`choices[i]` for ghost
        `i`), kept only when the target tile is passable. */
    method MoveGhosts(choices: seq<Direction>)
      requires |choices| == |ghosts|
      modifies this`ghosts
      ensures |ghosts| == |old(ghosts)|
      ensures forall i :: 0 <= i < |ghosts| ==> ghosts[i] == GhostStep(maze, old(ghosts)[i], choices[i])
    {
      var i := 0;
      while i < |ghosts|
        invariant 0 <= i <= |ghosts| == |old(ghosts)|
        invariant forall j :: 0 <= j < i ==> ghosts[j] == GhostStep(maze, old(ghosts)[j], choices[j])
        invariant forall j :: i <= j < |ghosts| ==> ghosts[j] == old(ghosts)[j]
      {
        var g := ghosts[i];
        var randomDirection := choices[i];
        var next := StepBy(GhostPos(g), randomDirection, g.speed);
        var gridX := next.x / GridSize;
        var gridY := next.y / GridSize;
        if 0 <= gridY < |maze| && (gridX < 0 || gridX >= |maze[gridY]| || maze[gridY][gridX] != 0) {
          ghosts := ghosts[i := g.(x := next.x, y := next.y, direction := randomDirection)];
        }
        i := i + 1;
      }
    }

    /** The state, in power mode, once the ghosts in `swept` have been checked
        against Pac-Man with `rest` still to check: each swept ghost that touched
        Pac-Man went home, for 200 points. */
    ghost predicate SweptPowered(swept: seq<Ghost>, rest: seq<Ghost>, score0: int)
      reads this
    {
      ghosts == CaptureAll(swept, Pac()) + rest && score == score0 + 200 * HitCount(swept, Pac())
    }

    /** The state, out of power mode, after `hits` ghosts touched Pac-Man, from the
        given lives, flag, ghosts and dot lists, as `Hunted` says. */
    ghost predicate HuntedAfter(hits: nat, lives0: int, over0: bool,
                                ghosts0: seq<Ghost>, dots0: seq<Pos>, powerDots0: seq<Pos>)
      reads this
    {
      (lives, over, ghosts, dots, powerDots) == Hunted(maze, hits, lives0, over0, ghosts0, dots0, powerDots0)
    }

    /** The state, out of power mode, once the ghosts in `swept` have been checked
        against Pac-Man: `HuntedAfter` as many hits as swept ghosts touched him. */
    ghost predicate SweptHunted(swept: seq<Ghost>, lives0: int, over0: bool,
                                ghosts0: seq<Ghost>, dots0: seq<Pos>, powerDots0: seq<Pos>)
      reads this
    {
      HuntedAfter(HitCount(swept, Pac()), lives0, over0, ghosts0, dots0, powerDots0)
    }

    /** The state once the ghosts in `swept` have been checked against Pac-Man with
        `rest` still to check, from the given lives, score, flag, ghosts and dot
        lists: in power mode as `SweptPowered` says and nothing else changed, out of
        it as `SweptHunted` says with the score unchanged. */
    ghost predicate Swept(swept: seq<Ghost>, rest: seq<Ghost>, lives0: int, score0: int, over0: bool,
                          ghosts0: seq<Ghost>, dots0: seq<Pos>, powerDots0: seq<Pos>)
      reads this
    {
      if powerMode then
        SweptPowered(swept, rest, score0) &&
        lives == lives0 && over == over0 && dots == dots0 && powerDots == powerDots0
      else
        SweptHunted(swept, lives0, over0, ghosts0, dots0, powerDots0) && score == score0
    }

    /** `checkGhostCollisions`, over the ghost array as it was when the sweep began
        (a restart replaces the array but not the one being swept). */
    method CheckGhostCollisions()
      requires Valid()
      modifies this`ghosts, this`score, this`lives, this`over, this`powerModeTimer, this`pacX, this`pacY, this`dots, this`powerDots
      ensures Valid() && Pac() == old(Pac())
      ensures Swept(old(ghosts), [], old(lives), old(score), old(over), old(ghosts), old(dots), old(powerDots))
    {
      var snapshot := ghosts;
      ghost var pac0, lives0, score0, over0, dots0, powerDots0 := Pac(), lives, score, over, dots, powerDots;
      HuntedNone(maze, lives0, over0, snapshot, dots0, powerDots0);
      var i := 0;
      while i < |snapshot|
        invariant 0 <= i <= |snapshot|
        invariant Valid() && Pac() == pac0
        invariant Swept(snapshot[..i], snapshot[i..], lives0, score0, over0, snapshot, dots0, powerDots0)
      {
        MeetGhost(snapshot, i, lives0, score0, over0, snapshot, dots0, powerDots0);
        i := i + 1;
      }
      assert snapshot[..i] == snapshot && snapshot[i..] == [];
    }

    /** One turn of the sweep: the ghost `snapshot[i]` against Pac-Man. */
    method MeetGhost(snapshot: seq<Ghost>, i: nat, ghost lives0: int, ghost score0: int, ghost over0: bool,
                     ghost ghosts0: seq<Ghost>, ghost dots0: seq<Pos>, ghost powerDots0: seq<Pos>)
      requires i < |snapshot| && Valid()
      requires Swept(snapshot[..i], snapshot[i..], lives0, score0, over0, ghosts0, dots0, powerDots0)
      modifies this`ghosts, this`score, this`lives, this`over, this`powerModeTimer, this`pacX, this`pacY, this`dots, this`powerDots
      ensures Valid() && Pac() == old(Pac())
      ensures Swept(snapshot[..i + 1], snapshot[i + 1..], lives0, score0, over0, ghosts0, dots0, powerDots0)
    {
      HitCountStep(snapshot, i, Pac());
      var g := snapshot[i];
      if IsColliding(Pac(), GhostPos(g), GhostSize) {
        if powerMode {
          CaptureAllStep(snapshot, i, Pac());
          ghosts := ghosts[i := g.(x := 10 * GridSize, y := 5 * GridSize)];
          score := score + 200;
        } else {
          LoseLife(HitCount(snapshot[..i], Pac()), lives0, over0, ghosts0, dots0, powerDots0);
        }
      } else if powerMode {
        CaptureAllStep(snapshot, i, Pac());
      }
    }

    /** The branch where Pac-Man is eaten by a ghost, after `hits` earlier hits in
        this sweep: a life lost, then game over at zero lives or fewer, otherwise a
        restart of the level. */
    method LoseLife(ghost hits: nat, ghost lives0: int, ghost over0: bool,
                    ghost ghosts0: seq<Ghost>, ghost dots0: seq<Pos>, ghost powerDots0: seq<Pos>)
      requires Valid() && !powerMode
      requires HuntedAfter(hits, lives0, over0, ghosts0, dots0, powerDots0)
      modifies this`ghosts, this`lives, this`over, this`powerModeTimer, this`pacX, this`pacY, this`dots, this`powerDots
      ensures Valid() && HuntedAfter(hits + 1, lives0, over0, ghosts0, dots0, powerDots0)
      ensures lives == old(lives) - 1 && Pac() == old(Pac())
    {
      HuntedStep(maze, hits, lives0, over0, ghosts0, dots0, powerDots0);
      lives := lives - 1;
      if lives <= 0 {
        GameOver();
      } else {
        InitializeGame();
      }
    }

    /** `update`: Pac-Man, then the ghosts (with one random direction per ghost),
        then the ghost collisions. */
    method Update(choices: seq<Direction>)
      requires Valid() && |choices| == |ghosts|
      modifies this
      ensures Valid()
      ensures score >= old(score) && lives <= old(lives)
      ensures old(powerMode) ==> powerMode && lives == old(lives)
    {
      MovePacman();
      MoveGhosts(choices);
      CheckGhostCollisions();
    }
  }

  /** Pac-Man starts at (0, 0) facing right, and the tile three pixels to the right,
      (0, 0), is a wall: the first step is refused, so the direction never changes
      and every later step is refused too.  The queued direction is never adopted. */
  lemma StuckAtStart()
    ensures !PassableAt(Maze, StepBy(Pos(0, 0), Right, Speed))
  {
    MazeShape();
  }
}
