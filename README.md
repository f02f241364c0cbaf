# Arcade games: a verified model of the per-tick simulation

This project models the game logic of six browser arcade games: Tetris, Snake, Pac-Man,
Space Invaders, Breakout and Pong. Each game is a JavaScript class whose `update()` runs
once per timer tick and changes its own fields in place. Each game is modelled here as a
Dafny `class Game` with the same fields. Its methods `modify` those fields, and their
`ensures` clauses state the new state through pure specification functions (`Rise`,
`Knocked`, `Cleared`, `Rally`, `Hunted`, …). Lemmas about those functions carry the
properties: bounds, invariants, exact characterisations and round trips.

One module per game file:

- `Wrappers` (wrappers.dfy) holds the `Option` type the lookups and scans return.
- `Directions` (directions.dfy) holds the four directions shared by Snake and Pac-Man, with
  their arrow keys, opposites and unit steps.
- `Tetris` (tetris.dfy) models the grid, the seven shapes, rotation, collision, locking,
  line clearing, spawning and the hard drop.
- `Snake` (snake.dfy) models the body list, the buffered direction, food placement and the
  wall/self test.
- `PacmanMaze` (pacman_maze.dfy) holds the 13-row maze literal and facts about it.
  `Pacman` (pacman.dfy) models the start scan, dots, ghosts, power mode, the ghost sweep
  and lives.
- `SpaceInvaders` (space_invaders.dfy) models the formation, bullets, the march and drop,
  enemy fire, and the three collision sweeps.
- `Breakout` (breakout.dfy) models the paddle, the ball, the brick wall and the brick
  sweep.
- `Pong` (pong.dfy) models the court proportions, paddles, the rally, scoring and the
  winner.

Random choices are inputs, not effects:

- the next Tetris piece kind;
- the Snake food draws, as pairs in [0, 1);
- one direction per Pac-Man ghost;
- one fire flag per invader;
- the serve signs in Breakout and Pong.

`window.updateScore(n)` calls are modelled as a `score` field that grows by `n`.
`gameOver()` is modelled as an `over` flag. Breakout also records the `won` argument, and
Pong records the winner.

## Model

| member | source | states |
|---|---|---|
| Directions.KeyDirection | games/snake.js:80-88 | exactly the four arrow keys map to a direction |
| Directions.Opposite | games/snake.js:90-95 | the opposite differs from the direction and lies on the same axis |
| Directions.DeltaX | games/snake.js:120-129 | a step changes x by at most one cell |
| Directions.DeltaY | games/snake.js:120-129 | a step changes y by at most one cell |
| Directions.OppositeCancels | games/pacman.js:110-115 | opposite is an involution, its step is the negated step, and every step moves along exactly one axis |
| Tetris.ShapeOf | games/tetris.js:16-24 | every shape is a rectangle with a filled cell, at most 2 rows by 4 columns |
| Tetris.ColorOf | games/tetris.js:26-34 | every colour is a seven-character `#rrggbb` string |
| Tetris.Rotate | games/tetris.js:149-151 | rotating an r×c rectangle gives a c×r rectangle |
| Tetris.RotateAt | games/tetris.js:149-151 | cell (i, j) of the rotation is cell (rows-1-j, i) of the original, a clockwise quarter turn |
| Tetris.RotateKeepsBlock | games/tetris.js:148-159 | a rotated shape still has a filled cell |
| Tetris.RotateTwice | games/tetris.js:149-151 | two rotations turn the shape half way: cell (i, j) becomes cell (rows-1-i, cols-1-j) |
| Tetris.RotateFourTimes | games/tetris.js:148-159 | four rotations give back the original shape |
| Tetris.GridExt | games/tetris.js:51 | two well-formed grids that agree on every cell are equal |
| Tetris.FreePieceInside | games/tetris.js:168-184 | every filled cell of a piece that does not collide lies between the side walls and above the floor, on an empty cell |
| Tetris.Lock | games/tetris.js:186-199 | locking keeps the grid's dimensions |
| Tetris.LockPaintsPiece | games/tetris.js:187-196 | a free piece's visible cells were empty and now hold its colour; every cell it does not cover is unchanged |
| Tetris.Blank | games/tetris.js:207 | a blank row has the grid's width and is not full |
| Tetris.Blanks | games/tetris.js:51 | a stack of blank rows is a well-formed grid |
| Tetris.KeptSplit | games/tetris.js:204-211 | the kept rows plus the full rows account for every row; every kept row is a non-full row of the grid |
| Tetris.KeptWidth | games/tetris.js:204-211 | kept rows keep the grid's width |
| Tetris.ClearedShape | games/tetris.js:201-216 | after clearing, the grid has the same size, no full row, one blank row on top per cleared line, then the kept rows in order |
| Tetris.BlankOnTop | games/tetris.js:207 | a blank row put on top is kept and adds no full row |
| Tetris.ClearStepFull | games/tetris.js:205-209 | removing full row y and adding a blank on top keeps the final result and uses up one full row |
| Tetris.ClearStepKeep | games/tetris.js:204-211 | passing over a non-full row keeps the final result |
| Tetris.Spawn | games/tetris.js:119-128 | a new piece starts at row 0, horizontally centred, with its whole width inside the grid |
| Tetris.ProbeAboveFloor | games/tetris.js:168-184 | a probe that does not collide has its top row above the floor |
| Tetris.DropRowAsWritten | games/tetris.js:161-166 | the hard drop as written never moves the piece up |
| Tetris.DropRowAsWrittenUnfold | games/tetris.js:162 | one step of the as-written probe: stop when the probe at offsets (x, y+1) collides, else go down one row |
| Tetris.DropRowAsWrittenStops | games/tetris.js:162 | the as-written drop stops at a row whose probe collides |
| Tetris.DropRowAsWrittenPasses | games/tetris.js:162 | every row the as-written drop passes had a free probe |
| Tetris.DropRow | games/tetris.js:161-166 | the intended hard drop never moves the piece up |
| Tetris.DropRowStops | games/tetris.js:161-166 | the intended drop stops where one more row down would collide |
| Tetris.DropRowLandsFree | games/tetris.js:161-166 | from a free position, every row down to the intended landing row is free, the landing row included |
| Tetris.ShiftDown | games/tetris.js:168-184 | probing offset (0, 1) is the same as probing the piece one row lower |
| Tetris.HardDropOverlapWitness | games/tetris.js:162 | on a 4×6 grid an I piece at the top is dropped by the code as written into a filled cell (row 2), while the intended drop stops at free row 1 |
| Tetris.Game.constructor | games/tetris.js:37-58 | a 20×10 empty grid, score 0, the first piece spawned; over iff the spawn collides |
| Tetris.Game.CreateNewPiece | games/tetris.js:119-133 | the new piece is the spawn of the drawn kind; the game ends iff it collides; grid and score are unchanged |
| Tetris.Game.CheckCollision | games/tetris.js:168-184 | the nested scan answers exactly `Collides` for the current piece |
| Tetris.Game.Scan | games/tetris.js:168-184 | the nested scan answers exactly `Collides` for a given piece |
| Tetris.Game.MovePiece | games/tetris.js:135-146 | a free move is taken; a blocked sideways or upward move changes nothing; a blocked downward move locks the piece, clears lines and spawns the next |
| Tetris.Game.TryMove | games/tetris.js:136-139 | the piece moves iff the moved piece does not collide; a free piece stays free |
| Tetris.Game.RotatePiece | games/tetris.js:148-159 | the rotation is kept iff it does not collide; a free piece stays free |
| Tetris.Game.HardDrop | games/tetris.js:161-166 | the piece is locked at the as-written drop row, then lines are cleared and the next piece spawned |
| Tetris.Game.DropAsWritten | games/tetris.js:162 | the loop moves the piece to exactly the as-written drop row |
| Tetris.Game.LockPiece | games/tetris.js:186-199 | locking paints the piece, clears full lines, scores them and spawns the next piece |
| Tetris.Game.PaintPiece | games/tetris.js:187-196 | the grid becomes `Lock` of the old grid and the piece |
| Tetris.Game.ClearLines | games/tetris.js:201-216 | the grid becomes `Cleared`, the count is the number of full rows, and the score grows by 100 per line |
| Tetris.Game.Update | games/tetris.js:218-222 | a tick never lowers the score |
| Snake.GridSizeFor | games/snake.js:51 | the cell size is at least 10 and, on a canvas of 200 pixels or more, at most a twentieth of it |
| Snake.Step | games/snake.js:120-129 | the new head differs from the old head and shares a row or a column with it |
| Snake.AdvanceCells | games/snake.js:138-146 | the moved body holds the old cells and the new head, less the tail cell unless the food was eaten |
| Snake.AdvanceKeepsBody | games/snake.js:132-146 | a head on the board and on no segment keeps the body on the board and free of repeats |
| Snake.CandidateBounds | games/snake.js:104-107 | a food draw lands on a cell with 0 ≤ x, y < extent − 1 |
| Snake.ScaledBelow | games/snake.js:105-106 | the floor of a draw in [0, 1) times m lies in [0, m) |
| Snake.ExtentAtLeastFour | games/snake.js:42-56 | a canvas of at least 40 pixels gives a board wider than 3 cells |
| Snake.QuotientAbove | games/snake.js:51 | division by a positive real keeps a strict lower bound |
| Snake.Game.constructor | games/snake.js:2-40 | the body is (3,1),(2,1),(1,1) heading right, score 0, and the food is on no segment |
| Snake.Game.HandleKeyPress | games/snake.js:79-100 | an arrow key becomes the next direction unless it is opposite to the current one; nothing else changes |
| Snake.Game.GenerateFood | games/snake.js:102-114 | the food is the first draw that lands on no segment, and it is on the board |
| Snake.Game.CollisionFreeKeepsBody | games/snake.js:151-162 | a head that passes the test keeps the moved body on the board and free of repeats, eating or not; stepping into the cell the tail is about to leave is a collision, since the test runs before the tail moves |
| Snake.Game.Update | games/snake.js:116-149 | a collision ends the game and changes nothing else; eating grows the body, scores 10 and places the new food at the first draw that misses the grown body, inside the board; otherwise the body moves one cell |
| Snake.OpeningMoves | games/snake.js:29-33 | from the opening body, one plain step and one eating step give the expected bodies |
| PacmanMaze.NoPathTileInRows0To3 | games/pacman.js:38-52 | maze rows 0 to 3 contain no path tile (1) |
| PacmanMaze.NoPathTileInRows4To7 | games/pacman.js:38-52 | maze rows 4 to 7 contain no path tile |
| PacmanMaze.NoPathTileInRows8To12 | games/pacman.js:38-52 | maze rows 8 to 12 contain no path tile |
| PacmanMaze.MazeHasNoPathTile | games/pacman.js:38-52 | no cell of the maze is a path tile |
| PacmanMaze.MazeShape | games/pacman.js:38-52 | the maze has 13 rows, jagged (40, 40, then 39 cells); the ghost start cells are walls |
| Pacman.Abs | games/pacman.js:254-255 | the absolute value is the number or its negation |
| Pacman.CollidingSymmetricStrict | games/pacman.js:253-256 | overlap iff both distances are below the size; symmetric; touching at exactly `size` is no overlap |
| Pacman.PassableAtMeans | games/pacman.js:168-171 | a position is passable iff its row exists and its cell is not a wall (a missing cell is passable) |
| Pacman.GhostStepMoves | games/pacman.js:187-199 | a ghost stays where it is or lands on a passable position exactly its speed away along one axis; colour and speed are kept |
| Pacman.InitialGhostsApart | games/pacman.js:134-141 | the four ghosts start apart from one another, and none touches Pac-Man at his starting corner (0, 0) |
| Pacman.GhostsStartInWalls | games/pacman.js:135-141 | every ghost starts on a wall cell |
| Pacman.FirstPath | games/pacman.js:125-130 | the inner scan finds the first path tile of a row, or proves there is none |
| Pacman.StartCell | games/pacman.js:124-132 | the start is the first path tile of the LAST row holding one, or none iff the maze has no path tile |
| Pacman.StartScanFindsNothing | games/pacman.js:124-132 | on this maze the start scan finds nothing |
| Pacman.RowPositions | games/pacman.js:144-158 | a row yields at most one position per cell |
| Pacman.RowPositionsExact | games/pacman.js:144-158 | a position is produced iff some cell of the row has the tile and the position is its inset corner |
| Pacman.TilePositionsExact | games/pacman.js:144-158 | the same, over every row of the maze |
| Pacman.Uneaten | games/pacman.js:205-221 | eating never adds dots |
| Pacman.UneatenExact | games/pacman.js:205-221 | a dot remains iff it was there and Pac-Man does not overlap it; nothing is eaten iff no dot overlaps |
| Pacman.UneatenCons | games/pacman.js:205-210 | the backward sweep removes the current dot iff it overlaps |
| Pacman.HitCount | games/pacman.js:233-234 | at most one hit per ghost |
| Pacman.CaptureAllClears | games/pacman.js:233-239 | after the power-mode sweep no ghost touches Pac-Man, unless he stands at the ghosts' home, so a second sweep would find nothing |
| Pacman.NoTouchNoHit | games/pacman.js:233-234 | when no ghost touches Pac-Man the sweep counts no hit |
| Pacman.HitCountStep | games/pacman.js:233-234 | the count grows by one exactly for an overlapping ghost |
| Pacman.CaptureAllStep | games/pacman.js:233-239 | capturing one more ghost changes only that ghost |
| Pacman.RestartsClosedForm | games/pacman.js:240-247 | the number of restarts is the number of hits, capped at lives − 1, and 0 when no life is left |
| Pacman.HuntedStep | games/pacman.js:240-247 | each further hit costs a life; it ends the game at 0 lives and otherwise resets the ghosts and adds the maze's dots again |
| Pacman.HuntedNone | games/pacman.js:232-251 | with no hit the state is unchanged |
| Pacman.Game.constructor | games/pacman.js:2-56 | Pac-Man at (0,0) facing right, no ghosts or dots, score 0, 3 lives, no power mode |
| Pacman.Game.Init | games/pacman.js:58-75 | init sets up the ghosts and appends the maze's dots and power dots; score, lives, directions, power mode, its timer and the over flag are untouched |
| Pacman.Game.HandleKeyPress | games/pacman.js:99-120 | an arrow key becomes the next direction unless it is opposite to the current one |
| Pacman.Game.InitializeGame | games/pacman.js:122-159 | the ghosts are reset and the maze's dots are appended, not replaced |
| Pacman.Game.FindStart | games/pacman.js:124-132 | Pac-Man moves to the scanned start cell, or stays when there is none |
| Pacman.Game.PlaceDots | games/pacman.js:143-158 | dots and power dots grow by the maze's dot and power-dot positions |
| Pacman.Game.ActivatePowerMode | games/pacman.js:224-230 | power mode is on and the pending timer is a newly set one |
| Pacman.Game.PowerModeTimeout | games/pacman.js:227-229 | the expiry turns power mode off |
| Pacman.Game.GameOver | games/pacman.js:267-272 | the game is over and the power timer is cleared |
| Pacman.Game.CheckDots | games/pacman.js:203-222 | overlapping dots and power dots are removed and scored 10 and 50; power mode starts iff a power dot was eaten |
| Pacman.Game.EatDots | games/pacman.js:205-211 | the remaining dots are `Uneaten` and the score grows by 10 per eaten dot |
| Pacman.Game.EatPowerDots | games/pacman.js:214-221 | the remaining power dots are `Uneaten`; each eaten one scores 50 and restarts the power timer |
| Pacman.Game.EatPowerDot | games/pacman.js:215-220 | one step of the backward power-dot sweep keeps the sweep invariant |
| Pacman.Game.MovePacman | games/pacman.js:161-179 | Pac-Man moves iff the next cell is passable, then takes the buffered direction and eats, re-arming the power timeout once per power dot; otherwise nothing changes, the pending timeout included |
| Pacman.Game.MoveGhosts | games/pacman.js:181-201 | every ghost takes `GhostStep` with its drawn direction |
| Pacman.Game.CheckGhostCollisions | games/pacman.js:232-251 | over the ghosts present at the start: in power mode overlapping ghosts go home for 200 each; otherwise each hit plays out as `Hunted` |
| Pacman.Game.MeetGhost | games/pacman.js:233-249 | one ghost of the sweep keeps the sweep invariant |
| Pacman.Game.LoseLife | games/pacman.js:242-247 | a lost life moves the state one `HuntedStep` on |
| Pacman.Game.Update | games/pacman.js:258-265 | a tick never lowers the score or raises lives; no life is lost while power mode lasts |
| Pacman.StuckAtStart | games/pacman.js:161-179 | from (0,0) facing right the first step is blocked by a wall |
| SpaceInvaders.CollidingSymmetric | games/space-invaders.js:220-225 | overlap is symmetric; rectangles that only touch do not overlap |
| SpaceInvaders.CollidingJsAgrees | games/space-invaders.js:220-225 | on rectangles with every field set, the JavaScript test agrees with the exact one |
| SpaceInvaders.EnemyBulletsNeverHitAsWritten | games/space-invaders.js:203 | as written, no enemy bullet ever hits the player |
| SpaceInvaders.EnemyBulletMissWitness | games/space-invaders.js:203 | a bullet inside the drawn player is missed as written and hit when the player's size is used |
| SpaceInvaders.FormationSpreadOut | games/space-invaders.js:97-112 | every invader starts on screen above the player, and no two overlap |
| SpaceInvaders.MarchIsRigid | games/space-invaders.js:156-173 | the march moves the formation rigidly: the opposite shift or drop undoes it, and two invaders overlap after it exactly when they did before |
| SpaceInvaders.VolleyCount | games/space-invaders.js:175-185 | one bullet per firing invader, each 5×5 |
| SpaceInvaders.RiseExact | games/space-invaders.js:136-143 | a bullet survives iff it is a moved-up old bullet that is still on screen |
| SpaceInvaders.FallExact | games/space-invaders.js:146-153 | an enemy bullet survives iff it is a moved-down old bullet not below the screen |
| SpaceInvaders.RiseSplice | games/space-invaders.js:137-142 | one step of the backward sweep keeps the sweep invariant |
| SpaceInvaders.FallSplice | games/space-invaders.js:147-152 | one step of the backward sweep keeps the sweep invariant |
| SpaceInvaders.LastHitExact | games/space-invaders.js:191-197 | the inner scan finds the highest-indexed invader the bullet overlaps, or shows that none does |
| SpaceInvaders.LastHitScan | games/space-invaders.js:191-197 | a descending scan's stopping index is `LastHit` |
| SpaceInvaders.ResolvePairs | games/space-invaders.js:190-199 | each hit removes exactly one bullet and one invader |
| SpaceInvaders.ResolveKeeps | games/space-invaders.js:190-199 | the surviving bullets and invaders are sub-multisets of the old ones |
| SpaceInvaders.ResolveOnHit | games/space-invaders.js:192-196 | a hit by the last bullet removes it and its invader and counts one |
| SpaceInvaders.ShotHits | games/space-invaders.js:192-196 | a hit in the sweep keeps the sweep invariant |
| SpaceInvaders.ShotMisses | games/space-invaders.js:190-199 | a miss in the sweep keeps the sweep invariant |
| SpaceInvaders.MissedExact | games/space-invaders.js:202-210 | tested against the cannon as drawn, an enemy bullet stays iff it was there and does not overlap the cannon (the corrected test) |
| SpaceInvaders.MissedAsWritten | games/space-invaders.js:202-210 | tested against the `player` object as written, which has no size, the sweep leaves every enemy bullet |
| SpaceInvaders.MissedSplice | games/space-invaders.js:203-204 | one step of the backward sweep keeps the sweep invariant |
| SpaceInvaders.PlayerStaysOnScreen | games/space-invaders.js:125-132 | the player stays on screen on the 5-pixel lattice and moves at most 5 |
| SpaceInvaders.Game.constructor | games/space-invaders.js:2-58 | player at 375, no bullets, the full formation, score 0, 3 lives, marching right |
| SpaceInvaders.Game.CreateEnemies | games/space-invaders.js:97-112 | the formation is appended |
| SpaceInvaders.Game.HandleKeyDown | games/space-invaders.js:82-89 | arrows set the held flags; space fires a centred bullet iff fewer than 3 are in flight; nothing else changes |
| SpaceInvaders.Game.HandleKeyUp | games/space-invaders.js:91-95 | releasing an arrow clears its flag |
| SpaceInvaders.Game.Shoot | games/space-invaders.js:114-123 | a centred 5×5 bullet is added iff fewer than 3 are in flight |
| SpaceInvaders.Game.UpdatePlayer | games/space-invaders.js:125-132 | the player takes `PlayerStep` |
| SpaceInvaders.Game.UpdateBullets | games/space-invaders.js:134-154 | bullets become `Rise` and enemy bullets `Fall` of the old ones |
| SpaceInvaders.Game.RaiseBullets | games/space-invaders.js:136-143 | the loop leaves exactly `Rise` of the old bullets |
| SpaceInvaders.Game.RaiseBullet | games/space-invaders.js:137-142 | bullet i moves up and is spliced out iff it left the screen |
| SpaceInvaders.Game.DropEnemyBullets | games/space-invaders.js:146-153 | the loop leaves exactly `Fall` of the old enemy bullets |
| SpaceInvaders.Game.DropEnemyBullet | games/space-invaders.js:147-152 | enemy bullet i moves down and is spliced out iff it passed the bottom |
| SpaceInvaders.Game.UpdateEnemies | games/space-invaders.js:156-186 | the formation marches; if any invader is off a side it turns and drops 20; firing invaders add bullets |
| SpaceInvaders.Game.ShiftAll | games/space-invaders.js:158-166 | every invader moves and the drop flag says whether one is off a side |
| SpaceInvaders.Game.DropAll | games/space-invaders.js:170-172 | every invader moves down by the drop |
| SpaceInvaders.Game.FireVolley | games/space-invaders.js:175-185 | the volley is appended to the enemy bullets |
| SpaceInvaders.Game.CheckCollisions | games/space-invaders.js:188-218 | the shots resolve as `Resolve`, scoring 100 per hit; the enemy bullets are tested against the cannon as drawn (the corrected test), each hit costing a life; the game ends at 0 lives or on invasion |
| SpaceInvaders.Game.ShootDown | games/space-invaders.js:190-199 | the nested sweep gives exactly `Resolve` and scores 100 per hit |
| SpaceInvaders.Game.HitPlayer | games/space-invaders.js:202-210 | the backward sweep removes exactly the bullets the test finds on the object it is handed (`Missed`); each costs a life, and the game ends once lives reach 0 |
| SpaceInvaders.Game.CheckInvasion | games/space-invaders.js:213-217 | the game ends iff an invader reaches the player's row |
| SpaceInvaders.Game.Update | games/space-invaders.js:227-235 | a tick never grows the formation, never lowers the score, never raises lives, and never un-ends the game |
| Breakout.Serve | games/breakout.js:178-183 | the ball is served from the centre just above the paddle, upward, sideways toward the drawn side |
| Breakout.ActiveCount | games/breakout.js:161 | never more active bricks than bricks |
| Breakout.ClearedIffNoneActive | games/breakout.js:161 | the win test holds iff no brick is active |
| Breakout.WallStanding | games/breakout.js:99-114 | a new wall has all 56 bricks active, so it is not cleared |
| Breakout.WallShape | games/breakout.js:99-114 | bricks are 90 wide, inside the screen, below row 50 and above the paddle |
| Breakout.WallSpaced | games/breakout.js:99-114 | no two bricks touch: there is a gap across or down between every pair |
| Breakout.AllActiveCount | games/breakout.js:110 | a wall of active bricks counts them all |
| Breakout.KnockedIdempotent | games/breakout.js:153-165 | a second pass of the same ball knocks nothing more: the wall is unchanged and no hit is scored |
| Breakout.Hits | games/breakout.js:153-165 | at most one hit per brick |
| Breakout.KnockedCounts | games/breakout.js:153-165 | the active bricks after the sweep plus the hits equal the active bricks before; positions and colours are kept |
| Breakout.FlipEach | games/breakout.js:157 | after the hits the vertical speed is kept or negated |
| Breakout.FlipEachStep | games/breakout.js:157 | one more hit negates it; two more restore it |
| Breakout.SteerBounded | games/breakout.js:148-149 | the paddle sends the ball at most ballSpeed sideways, to the left iff it hit left of the centre, straight up iff dead centre |
| Breakout.BounceFacts | games/breakout.js:125-150 | the ball moves by dx; dy is kept or negated; on the paddle it is lifted onto it, stays above the floor, and is steered |
| Breakout.PaddleStaysOnScreen | games/breakout.js:116-123 | the paddle stays on screen on the 7-pixel lattice |
| Breakout.ClearedStays | games/breakout.js:156 | knocking out a brick keeps a cleared wall cleared |
| Breakout.HitsStep | games/breakout.js:154-158 | the sweep counts the current brick iff it is active and overlaps |
| Breakout.Game.constructor | games/breakout.js:2-63 | paddle at 350, the ball served, the full wall, score 0, 3 lives |
| Breakout.Game.CreateBricks | games/breakout.js:99-114 | the wall is appended |
| Breakout.Game.HandleKeyDown | games/breakout.js:87-91 | pressing an arrow sets its flag |
| Breakout.Game.HandleKeyUp | games/breakout.js:93-97 | releasing an arrow clears its flag |
| Breakout.Game.UpdatePaddle | games/breakout.js:116-123 | the paddle takes `PaddleStep` |
| Breakout.Game.ResetBall | games/breakout.js:178-183 | the ball is served again |
| Breakout.Game.UpdateBall | games/breakout.js:125-176 | bounce, knock out overlapping bricks for 10 each, flip dy once per hit, win when the last brick falls, lose a life below the floor and re-serve or end |
| Breakout.Game.BounceBall | games/breakout.js:126-150 | the ball becomes `Bounce` of the old ball |
| Breakout.Game.KnockBricks | games/breakout.js:153-165 | the backward sweep leaves exactly `Knocked`, scores 10 per hit and flips dy once per hit |
| Breakout.Game.KnockBrick | games/breakout.js:154-164 | one step of the sweep keeps the sweep invariant |
| Breakout.Game.Update | games/breakout.js:192-198 | a tick never lowers the score, raises lives, adds active bricks, or un-ends the game |
| Pong.CourtFor | games/pong.js:66-82 | the court is twice as wide as high and fits the area, touching it on one side |
| Pong.CourtProportions | games/pong.js:78-82 | the ball is narrower than a paddle, both paddles and the ball fit across, paddle and ball speeds agree, and a paddle is shorter than the court |
| Pong.Centre | games/pong.js:194-199 | the ball restarts at the centre, moving ±ballSpeed on each axis toward the drawn sides |
| Pong.PaddleStaysNearCourt | games/pong.js:136-152 | a paddle moves at most one step and never leaves the band one step beyond the court |
| Pong.RallyFacts | games/pong.js:154-177 | dx is kept or negated; dy is negated iff the ball reached the top or bottom; a returned ball is strictly between the goal lines |
| Pong.RallyReturns | games/pong.js:165-177 | a ball reaching a paddle is put on that paddle's face and turned; one that reaches neither keeps moving the same way |
| Pong.WinnerLeads | games/pong.js:179-212 | while the game runs, once a score reaches 5 the winner `gameOver` names is the player with more points |
| Pong.Point | games/pong.js:179-186 | at most one point per tick: right scores iff the ball passed the left goal line, left iff it passed the right one |
| Pong.StartInsideCourt | games/pong.js:15-23 | the paddles' start row 150 fits the court iff the court is at least 200 high |
| Pong.Game.constructor | games/pong.js:2-64 | paddles at 150, scores 0, the court from the area, the ball at the centre |
| Pong.Game.ResetGame | games/pong.js:126-134 | scores are zeroed and the ball is centred |
| Pong.Game.HandleKeyDown | games/pong.js:114-119 | pressing W, S or an arrow sets its flag |
| Pong.Game.HandleKeyUp | games/pong.js:120-124 | releasing a key clears its flag |
| Pong.Game.UpdatePaddles | games/pong.js:136-152 | each paddle takes `PaddleStep` with its own keys |
| Pong.Game.ResetBall | games/pong.js:194-199 | the ball is centred |
| Pong.Game.PlayRally | games/pong.js:156-177 | the ball becomes `Rally` of the old ball |
| Pong.Game.UpdateBall | games/pong.js:154-192 | the rally plays; a point is scored and the ball re-centred, or the ball moves on; the game ends with the winner once a score reaches 5 |
| Pong.Game.GameOver | games/pong.js:209-214 | the game is over and the winner is decided by the left score |
| Pong.Game.Update | games/pong.js:201-207 | a tick raises the total score by at most one and never un-ends the game |

## Left out

- Drawing, canvases, the DOM, `alert`, event-listener registration, `start`/`pause`/`destroy`, and the timer
  handles are left out: they produce output or schedule `update`, and do not compute game state.
- A paused tick (`if (this.isPaused) return`) is not modelled; `Update` is the unpaused tick.
- Tetris `handleKeyPress` and the drawing helpers of every game are not part of this model.
- `Math.random` is an input to each method that draws (piece kind, food draws, ghost directions, fire flags,
  serve signs).
- Snake food placement loops until a draw misses the body. The model takes a finite sequence of draws and
  requires one of them to miss.
- Snake `handleResize` runs once, at construction; a resize in mid-game is not modelled.
- Pac-Man's constructor takes its maze as a parameter, and requires that it has no path tile (true of the
  shipped maze, proved by `PacmanMaze.MazeHasNoPathTile`). With a path tile, the jagged start scan and moves
  would start elsewhere; that case is not modelled.
- Pac-Man's mouth state (`mouthOpen`, `mouthAngle`) is left out: only drawing reads it.
- Pac-Man power-mode expiry (a `setTimeout` callback) is the explicit method `Pacman.Game.PowerModeTimeout`,
  not a clock.
- Space Invaders and Breakout merge the constructor and `init` into one Dafny constructor.
- `gameOver()` may run several times in one tick in the source; the model sets the `over` flag, which is idempotent.
- Pong `handleResize` runs once, at construction; a resize in mid-game is not modelled. The constructor's own random serve is overwritten by
  `resetGame`, so only the latter's draws are parameters.
- Pong paddles are not re-centred when the court is measured; `Pong.StartInsideCourt` says when 150 fits.
- Tetris.Game.PaintPiece: cells above the top row are skipped, as in the source. A cell beside or below
  the grid is also skipped; in the source, writing there would throw or add a stray entry to a row. A
  piece that does not collide has no such cell (`Tetris.FreePieceInside`).
- SpaceInvaders.Rise: its own ensures states only a length bound; the exact contents are in
  `SpaceInvaders.RiseExact`.
- SpaceInvaders.Fall: its own ensures states only a length bound; the exact contents are in
  `SpaceInvaders.FallExact`.
- SpaceInvaders.Missed: its own ensures states only a length bound; the exact contents are in
  `SpaceInvaders.MissedExact`.
- SpaceInvaders.LastHit: its own ensures states only the index bound; the meaning is in
  `SpaceInvaders.LastHitExact`.
- Pacman.Repeat has no ensures of its own; it only spells out the dots appended once per restart.
- Pong.Game.Update: states bounds on the scores and the over flag; the exact step is `Pong.Game.UpdateBall`.
- Tetris.Game.Update: states only that the score never drops; the exact step is the contract of
  `Tetris.Game.MovePiece`.
- Pacman.Game.Update: states monotonicity only; the exact steps are the contracts of `MovePacman`,
  `MoveGhosts` and `CheckGhostCollisions`.
- SpaceInvaders.Game.Update: states monotonicity only; the exact steps are the contracts of
  `UpdatePlayer`, `UpdateBullets`, `UpdateEnemies` and `CheckCollisions`.
- Breakout.Game.Update: states monotonicity only; the exact steps are the contracts of `UpdatePaddle`
  and `UpdateBall`.
- SpaceInvaders.Game.CheckCollisions: tests the enemy bullets against the cannon as drawn, the corrected
  test of the finding below. As written (games/space-invaders.js:203) the test never fires
  (`SpaceInvaders.MissedAsWritten`), so in the source no enemy bullet is removed, lives never drop, and
  only an invasion ends the game. `SpaceInvaders.Game.HitPlayer` runs either test, as it is handed the
  player object.
- Snake.Game.constructor: requires a game area of at least 40 pixels. Below that the board is under
  four cells, the opening segment (3,1) lies off the board, and the first tick ends the game; the
  class invariant that every segment is on the board excludes that start.
- JavaScript numbers are modelled as exact reals or integers, without double-precision rounding. This
  covers the Breakout ball, every Pong length and speed, the Snake board extent and food scaling, and
  the Space Invaders positions. Facts such as `Breakout.SteerBounded` (straight up iff dead centre) and
  `Pong.RallyFacts` (`y` moves by exactly `dy`) hold of the reals, not necessarily of rounded
  doubles.

## Findings

| source | as written | input that shows it | evidently intended | confidence | as-written member | corrected member |
|---|---|---|---|---|---|---|
| games/tetris.js:162 | `hardDrop` probes `checkCollision(piece.x, piece.y + 1)`, passing the absolute position as an offset, so the probe sits at twice the piece's coordinates | a 4-wide, 6-high grid with filled cells at (0,2) and (0,5) and an I piece at (0,0): the drop stops at row 2, on the filled cell | probe offsets (0, 1), so the piece drops to row 1, the last free row | not executed | Tetris.HardDropOverlapWitness | Tetris.DropRowLandsFree |
| games/space-invaders.js:203 | `isColliding(enemyBullet, this.player)` reads `player.width` and `player.height`, which are never set, so the test compares against NaN and is always false | a 5×5 enemy bullet at (390, 570) with the player at x = 375 lies inside the drawn player yet is never counted | test against the player's drawn 50×30 rectangle | not executed | SpaceInvaders.EnemyBulletMissWitness | SpaceInvaders.MissedExact |
