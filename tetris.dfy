/** Tetris: a rows x cols occupancy grid and one falling piece (games/tetris.js).

    Grid cells are either empty (the source's 0) or hold the colour string of the
    piece that was locked there.  A piece shape is a rectangular 0/1 matrix, here a
    matrix of booleans. */
module Tetris {

  datatype Cell = Empty | Block(color: string)

  type Row = seq<Cell>
  type Grid = seq<Row>
  type Shape = seq<seq<bool>>

  datatype Kind = I | O | T | S | Z | J | L

  datatype Piece = Piece(shape: Shape, color: string, x: int, y: int)

  // ---------------------------------------------------------------------------
  // Shapes and rotation
  // ---------------------------------------------------------------------------

  ghost predicate Rectangular(s: Shape)
  {
    |s| > 0 && |s[0]| > 0 && forall r :: 0 <= r < |s| ==> |s[r]| == |s[0]|
  }

  ghost predicate HasBlock(s: Shape)
  {
    exists r, c :: 0 <= r < |s| && 0 <= c < |s[r]| && s[r][c]
  }

  /** What every shape the game ever holds satisfies: a non-empty rectangle with at
      least one filled cell. */
  ghost predicate WellShaped(s: Shape)
  {
    Rectangular(s) && HasBlock(s)
  }

  /** The seven tetrominoes of the `shapes` table. */
  function ShapeOf(k: Kind): (s: Shape)
    ensures WellShaped(s) && |s| <= 2 && |s[0]| <= 4
  {
    match k
    case I => var s := [[true, true, true, true]]; assert s[0][0]; s
    case O => var s := [[true, true], [true, true]]; assert s[0][0]; s
    case T => var s := [[false, true, false], [true, true, true]]; assert s[1][0]; s
    case S => var s := [[false, true, true], [true, true, false]]; assert s[1][0]; s
    case Z => var s := [[true, true, false], [false, true, true]]; assert s[0][0]; s
    case J => var s := [[true, false, false], [true, true, true]]; assert s[0][0]; s
    case L => var s := [[false, false, true], [true, true, true]]; assert s[1][0]; s
  }

  /** The `colors` table. */
  function ColorOf(k: Kind): (c: string)
    ensures |c| == 7 && c[0] == '#'
  {
    match k
    case I => "#00f0f0"
    case O => "#f0f000"
    case T => "#a000f0"
    case S => "#00f000"
    case Z => "#f00000"
    case J => "#0000f0"
    case L => "#f0a000"
  }

  /** Clockwise quarter turn: column i read bottom-up becomes row i. */
  function Rotate(s: Shape): (r: Shape)
    requires Rectangular(s)
    ensures Rectangular(r) && |r| == |s[0]| && |r[0]| == |s|
  {
    seq(|s[0]|, i requires 0 <= i < |s[0]| =>
      seq(|s|, j requires 0 <= j < |s| => s[|s| - 1 - j][i]))
  }

  /** Cell (i, j) of the rotated shape is cell (h-1-j, i) of the original. */
  lemma RotateAt(s: Shape, i: int, j: int)
    requires Rectangular(s) && 0 <= i < |s[0]| && 0 <= j < |s|
    ensures Rotate(s)[i][j] == s[|s| - 1 - j][i]
  {
  }

  /** Rotation keeps a filled cell, so a rotated tetromino is still well shaped. */
  lemma RotateKeepsBlock(s: Shape)
    requires WellShaped(s)
    ensures WellShaped(Rotate(s))
  {
    var r, c :| 0 <= r < |s| && 0 <= c < |s[r]| && s[r][c];
    RotateAt(s, c, |s| - 1 - r);
  }

  /** Two quarter turns are a half turn: cell (i, j) comes from (h-1-i, w-1-j). */
  lemma RotateTwice(s: Shape)
    requires Rectangular(s)
    ensures |Rotate(Rotate(s))| == |s| && |Rotate(Rotate(s))[0]| == |s[0]|
    ensures forall i, j :: 0 <= i < |s| && 0 <= j < |s[0]| ==>
      Rotate(Rotate(s))[i][j] == s[|s| - 1 - i][|s[0]| - 1 - j]
  {
    var r := Rotate(s);
    forall i, j | 0 <= i < |s| && 0 <= j < |s[0]|
      ensures Rotate(r)[i][j] == s[|s| - 1 - i][|s[0]| - 1 - j]
    {
      RotateAt(r, i, j);
      RotateAt(s, |s[0]| - 1 - j, i);
    }
  }

  /** Four clockwise rotations give back the original shape. */
  lemma RotateFourTimes(s: Shape)
    requires Rectangular(s)
    ensures Rotate(Rotate(Rotate(Rotate(s)))) == s
  {
    var h := Rotate(Rotate(s));
    RotateTwice(s);
    RotateTwice(h);
    var f := Rotate(Rotate(h));
    assert |f| == |s|;
    forall i | 0 <= i < |s|
      ensures f[i] == s[i]
    {
      assert |f[i]| == |f[0]| == |s[0]| == |s[i]|;
      forall j | 0 <= j < |s[0]|
        ensures f[i][j] == s[i][j]
      {
        assert f[i][j] == h[|s| - 1 - i][|s[0]| - 1 - j];
      }
    }
  }

  // ---------------------------------------------------------------------------
  // The grid and the collision test
  // ---------------------------------------------------------------------------

  ghost predicate WellFormed(g: Grid, rows: int, cols: int)
  {
    |g| == rows && forall r :: 0 <= r < |g| ==> |g[r]| == cols
  }

  /** Two well-formed grids with the same cells are equal. */
  lemma GridExt(a: Grid, b: Grid, rows: int, cols: int)
    requires WellFormed(a, rows, cols) && WellFormed(b, rows, cols)
    requires forall y, x :: 0 <= y < rows && 0 <= x < cols ==> a[y][x] == b[y][x]
    ensures a == b
  {
    forall y | 0 <= y < rows ensures a[y] == b[y] {
      assert forall x :: 0 <= x < cols ==> a[y][x] == b[y][x];
    }
  }

  /** The test `checkCollision` applies to one target cell: outside the side walls,
      at or below the floor, or on an occupied cell of a visible row.  Rows above the
      grid (negative) are always free. */
  predicate Blocked(g: Grid, rows: int, cols: int, gx: int, gy: int)
    requires WellFormed(g, rows, cols)
  {
    gx < 0 || gx >= cols || gy >= rows || (gy >= 0 && g[gy][gx] != Empty)
  }

  /** `checkCollision(ox, oy)`: some filled cell of the piece, shifted by the piece
      position plus the offset, is blocked. */
  predicate Collides(g: Grid, rows: int, cols: int, p: Piece, ox: int, oy: int)
    requires WellFormed(g, rows, cols)
  {
    exists r, c :: 0 <= r < |p.shape| && 0 <= c < |p.shape[r]| && p.shape[r][c] &&
      Blocked(g, rows, cols, p.x + c + ox, p.y + r + oy)
  }

  /** A piece that does not collide has every filled cell on the board or above it,
      and every visible one on an empty cell. */
  lemma FreePieceInside(g: Grid, rows: int, cols: int, p: Piece, r: int, c: int)
    requires WellFormed(g, rows, cols) && !Collides(g, rows, cols, p, 0, 0)
    requires 0 <= r < |p.shape| && 0 <= c < |p.shape[r]| && p.shape[r][c]
    ensures 0 <= p.x + c < cols && p.y + r < rows
    ensures p.y + r >= 0 ==> g[p.y + r][p.x + c] == Empty
  {
    assert !Blocked(g, rows, cols, p.x + c + 0, p.y + r + 0);
  }

  // ---------------------------------------------------------------------------
  // Locking and line clearing
  // ---------------------------------------------------------------------------

  /** Grid cell (gx, gy) lies under a filled cell of the piece. */
  predicate Covers(p: Piece, gx: int, gy: int)
  {
    0 <= gy - p.y < |p.shape| && 0 <= gx - p.x < |p.shape[gy - p.y]| && p.shape[gy - p.y][gx - p.x]
  }

  /** Covered by a piece cell that comes before (sr, sc) in row-major order. */
  predicate CoversBefore(p: Piece, gx: int, gy: int, sr: int, sc: int)
  {
    Covers(p, gx, gy) && (gy - p.y < sr || (gy - p.y == sr && gx - p.x < sc))
  }

  /** The grid after `lockPiece` has painted the piece: every grid cell under a filled
      piece cell takes the piece colour, every other cell is as before. */
  function Lock(g: Grid, rows: nat, cols: nat, p: Piece): (r: Grid)
    requires WellFormed(g, rows, cols)
    ensures WellFormed(r, rows, cols)
  {
    seq(rows, y requires 0 <= y < rows =>
      seq(cols, x requires 0 <= x < cols => if Covers(p, x, y) then Block(p.color) else g[y][x]))
  }

  /** Locking a piece that does not collide paints exactly its filled cells of visible
      rows, all of which were empty, and nothing else. */
  lemma LockPaintsPiece(g: Grid, rows: nat, cols: nat, p: Piece)
    requires WellFormed(g, rows, cols) && !Collides(g, rows, cols, p, 0, 0)
    ensures forall r, c :: 0 <= r < |p.shape| && 0 <= c < |p.shape[r]| && p.shape[r][c] && p.y + r >= 0 ==>
      0 <= p.x + c < cols && p.y + r < rows && g[p.y + r][p.x + c] == Empty &&
      Lock(g, rows, cols, p)[p.y + r][p.x + c] == Block(p.color)
    ensures forall y, x :: 0 <= y < rows && 0 <= x < cols && !Covers(p, x, y) ==>
      Lock(g, rows, cols, p)[y][x] == g[y][x]
  {
    forall r, c | 0 <= r < |p.shape| && 0 <= c < |p.shape[r]| && p.shape[r][c] && p.y + r >= 0
      ensures 0 <= p.x + c < cols && p.y + r < rows && g[p.y + r][p.x + c] == Empty &&
        Lock(g, rows, cols, p)[p.y + r][p.x + c] == Block(p.color)
    {
      FreePieceInside(g, rows, cols, p, r, c);
      assert Covers(p, p.x + c, p.y + r);
    }
  }

  /** `grid[y].every(cell => cell !== 0)`. */
  predicate Full(row: Row)
  {
    forall c :: 0 <= c < |row| ==> row[c] != Empty
  }

  function Blank(cols: nat): (row: Row)
    ensures |row| == cols && (cols > 0 ==> !Full(row))
  {
    var row := seq(cols, _ => Empty);
    assert cols > 0 ==> row[0] == Empty;
    row
  }

  function Blanks(n: nat, cols: nat): (g: Grid)
    ensures WellFormed(g, n, cols)
  {
    seq(n, _ => Blank(cols))
  }

  /** The rows that are not full, in their original order. */
  function Kept(g: Grid): Grid
  {
    if |g| == 0 then []
    else Kept(g[..|g| - 1]) + (if Full(g[|g| - 1]) then [] else [g[|g| - 1]])
  }

  /** The number of full rows. */
  function FullCount(g: Grid): nat
  {
    if |g| == 0 then 0
    else FullCount(g[..|g| - 1]) + (if Full(g[|g| - 1]) then 1 else 0)
  }

  /** The grid `clearLines` leaves: one blank row on top for each full row removed,
      above the surviving rows in their original order. */
  function Cleared(g: Grid, cols: nat): Grid
  {
    Blanks(FullCount(g), cols) + Kept(g)
  }

  /** Each row is either kept or counted as full, and every kept row is a non-full
      row of the input. */
  lemma {:induction false} KeptSplit(g: Grid)
    ensures |Kept(g)| + FullCount(g) == |g|
    ensures forall k :: 0 <= k < |Kept(g)| ==> !Full(Kept(g)[k]) && Kept(g)[k] in g
  {
    if |g| > 0 {
      var p := g[..|g| - 1];
      KeptSplit(p);
      assert forall k :: 0 <= k < |Kept(p)| ==> Kept(p)[k] in g by {
        forall k | 0 <= k < |Kept(p)| ensures Kept(p)[k] in g {
          var j :| 0 <= j < |p| && p[j] == Kept(p)[k];
          assert g[j] == p[j];
        }
      }
    }
  }

  /** Kept rows of a well-formed grid have the grid's width. */
  lemma {:induction false} KeptWidth(g: Grid, rows: int, cols: int)
    requires WellFormed(g, rows, cols)
    ensures forall k :: 0 <= k < |Kept(g)| ==> |Kept(g)[k]| == cols
  {
    KeptSplit(g);
    forall k | 0 <= k < |Kept(g)| ensures |Kept(g)[k]| == cols {
      var j :| 0 <= j < |g| && g[j] == Kept(g)[k];
    }
  }

  /** After `clearLines` the grid keeps its `rows` rows of length `cols`, no row is
      full (when `cols > 0`), the cleared rows come back as blank rows on top, and the
      surviving rows keep their relative order below them. */
  lemma ClearedShape(g: Grid, rows: nat, cols: nat)
    requires WellFormed(g, rows, cols)
    ensures WellFormed(Cleared(g, cols), rows, cols)
    ensures cols > 0 ==> forall k :: 0 <= k < rows ==> !Full(Cleared(g, cols)[k])
    ensures Cleared(g, cols)[..FullCount(g)] == Blanks(FullCount(g), cols)
    ensures Cleared(g, cols)[FullCount(g)..] == Kept(g)
  {
    KeptSplit(g);
    KeptWidth(g, rows, cols);
    var c := Cleared(g, cols);
    var n := FullCount(g);
    forall k | 0 <= k < rows ensures |c[k]| == cols && (cols > 0 ==> !Full(c[k])) {
      if k >= n {
        assert c[k] == Kept(g)[k - n];
      }
    }
  }

  /** A blank row on top of a grid is kept and does not count as full. */
  lemma {:induction false} BlankOnTop(b: Row, p: Grid)
    requires !Full(b)
    ensures Kept([b] + p) == [b] + Kept(p)
    ensures FullCount([b] + p) == FullCount(p)
    decreases |p|
  {
    if |p| > 0 {
      var q := p[..|p| - 1];
      assert ([b] + p)[..|p|] == [b] + q;
      BlankOnTop(b, q);
    } else {
      assert [b] + p == [b];
      assert [b][..0] == [];
    }
  }

  /** The step `clearLines` takes at row y keeps the rows still to be scanned
      equivalent to the final result: either row y is not full and is passed over, or
      it is full and is replaced by a blank row on top. */
  lemma ClearStepFull(g: Grid, y: nat, cols: nat)
    requires y < |g| && Full(g[y]) && cols > 0
    ensures var g' := [Blank(cols)] + g[..y] + g[y + 1..];
      Cleared(g'[..y + 1], cols) + g'[y + 1..] == Cleared(g[..y + 1], cols) + g[y + 1..] &&
      FullCount(g'[..y + 1]) + 1 == FullCount(g[..y + 1])
  {
    var g' := [Blank(cols)] + g[..y] + g[y + 1..];
    assert g'[..y + 1] == [Blank(cols)] + g[..y];
    assert g'[y + 1..] == g[y + 1..];
    BlankOnTop(Blank(cols), g[..y]);
    assert g[..y + 1][..y] == g[..y];
    var n := FullCount(g[..y]);
    assert Blanks(n, cols) + [Blank(cols)] == Blanks(n + 1, cols);
  }

  lemma ClearStepKeep(g: Grid, y: nat, cols: nat)
    requires y < |g| && !Full(g[y])
    ensures Cleared(g[..y], cols) + g[y..] == Cleared(g[..y + 1], cols) + g[y + 1..]
    ensures FullCount(g[..y]) == FullCount(g[..y + 1])
  {
    assert g[..y + 1][..y] == g[..y];
    assert g[y..] == [g[y]] + g[y + 1..];
  }

  // ---------------------------------------------------------------------------
  // Spawning and dropping
  // ---------------------------------------------------------------------------

  /** The piece `createNewPiece` makes: centred horizontally on row 0. */
  function Spawn(k: Kind, cols: nat): (p: Piece)
    ensures WellShaped(p.shape) && p.y == 0
    ensures cols >= 4 ==> 0 <= p.x && p.x + |p.shape[0]| <= cols
  {
    Piece(ShapeOf(k), ColorOf(k), cols / 2 - |ShapeOf(k)[0]| / 2, 0)
  }

  /** A probe below a filled piece cell that does not collide lies above the floor. */
  lemma ProbeAboveFloor(g: Grid, rows: int, cols: int, p: Piece, ox: int, oy: int)
    requires WellFormed(g, rows, cols) && WellShaped(p.shape) && !Collides(g, rows, cols, p, ox, oy)
    ensures p.y + oy < rows
  {
    var r, c :| 0 <= r < |p.shape| && 0 <= c < |p.shape[r]| && p.shape[r][c];
    assert !Blocked(g, rows, cols, p.x + c + ox, p.y + r + oy);
  }

  /** The row at which `hardDrop` as written stops: it probes
      `checkCollision(x, y + 1)`, whose arguments are offsets added to the piece
      position, so the probe looks at column 2x+c and row 2y+1+r. */
  function DropRowAsWritten(g: Grid, rows: nat, cols: nat, p: Piece): (y: int)
    requires WellFormed(g, rows, cols) && WellShaped(p.shape)
    ensures y >= p.y
    decreases rows - p.y
  {
    if Collides(g, rows, cols, p, p.x, p.y + 1) then p.y
    else
      ProbeAboveFloor(g, rows, cols, p, p.x, p.y + 1);
      DropRowAsWritten(g, rows, cols, p.(y := p.y + 1))
  }

  /** One step of the as-written drop: it stops on a colliding probe, and otherwise
      goes on from the next row down, which is still above the floor. */
  lemma DropRowAsWrittenUnfold(g: Grid, rows: nat, cols: nat, p: Piece)
    requires WellFormed(g, rows, cols) && WellShaped(p.shape)
    ensures Collides(g, rows, cols, p, p.x, p.y + 1) ==> DropRowAsWritten(g, rows, cols, p) == p.y
    ensures !Collides(g, rows, cols, p, p.x, p.y + 1) ==>
      p.y < rows && DropRowAsWritten(g, rows, cols, p) == DropRowAsWritten(g, rows, cols, p.(y := p.y + 1))
  {
    if !Collides(g, rows, cols, p, p.x, p.y + 1) {
      ProbeAboveFloor(g, rows, cols, p, p.x, p.y + 1);
    }
  }

  /** The as-written drop ends on a row whose probe collides. */
  lemma {:induction false} DropRowAsWrittenStops(g: Grid, rows: nat, cols: nat, p: Piece)
    requires WellFormed(g, rows, cols) && WellShaped(p.shape)
    ensures var y := DropRowAsWritten(g, rows, cols, p);
      Collides(g, rows, cols, p.(y := y), p.x, y + 1)
    decreases rows - p.y
  {
    DropRowAsWrittenUnfold(g, rows, cols, p);
    if !Collides(g, rows, cols, p, p.x, p.y + 1) {
      var q := p.(y := p.y + 1);
      DropRowAsWrittenStops(g, rows, cols, q);
      assert q.(y := DropRowAsWritten(g, rows, cols, q)) == p.(y := DropRowAsWritten(g, rows, cols, q));
    } else {
      assert p.(y := p.y) == p;
    }
  }

  /** The as-written drop passes only rows whose probe is free. */
  lemma {:induction false} DropRowAsWrittenPasses(g: Grid, rows: nat, cols: nat, p: Piece, k: int)
    requires WellFormed(g, rows, cols) && WellShaped(p.shape)
    requires p.y <= k < DropRowAsWritten(g, rows, cols, p)
    ensures !Collides(g, rows, cols, p.(y := k), p.x, k + 1)
    decreases rows - p.y
  {
    DropRowAsWrittenUnfold(g, rows, cols, p);
    var q := p.(y := p.y + 1);
    if k == p.y {
      assert p.(y := k) == p;
    } else {
      DropRowAsWrittenPasses(g, rows, cols, q, k);
      assert q.(y := k) == p.(y := k);
    }
  }

  /** The row a hard drop is meant to reach: the piece falls while one row further
      down is free. */
  function DropRow(g: Grid, rows: nat, cols: nat, p: Piece): (y: int)
    requires WellFormed(g, rows, cols) && WellShaped(p.shape)
    ensures y >= p.y
    decreases rows - p.y
  {
    if Collides(g, rows, cols, p, 0, 1) then p.y
    else
      ProbeAboveFloor(g, rows, cols, p, 0, 1);
      DropRow(g, rows, cols, p.(y := p.y + 1))
  }

  /** The intended drop stops where one more row down collides. */
  lemma {:induction false} DropRowStops(g: Grid, rows: nat, cols: nat, p: Piece)
    requires WellFormed(g, rows, cols) && WellShaped(p.shape)
    ensures var y := DropRow(g, rows, cols, p);
      Collides(g, rows, cols, p.(y := y), 0, 1)
    decreases rows - p.y
  {
    if !Collides(g, rows, cols, p, 0, 1) {
      ProbeAboveFloor(g, rows, cols, p, 0, 1);
      var q := p.(y := p.y + 1);
      DropRowStops(g, rows, cols, q);
      assert q.(y := DropRow(g, rows, cols, q)) == p.(y := DropRow(g, rows, cols, q));
    } else {
      assert p.(y := p.y) == p;
    }
  }

  /** A piece that starts free passes only through free rows on its intended drop,
      so it is locked without overlapping anything. */
  lemma {:induction false} DropRowLandsFree(g: Grid, rows: nat, cols: nat, p: Piece, k: int)
    requires WellFormed(g, rows, cols) && WellShaped(p.shape) && !Collides(g, rows, cols, p, 0, 0)
    requires p.y <= k <= DropRow(g, rows, cols, p)
    ensures !Collides(g, rows, cols, p.(y := k), 0, 0)
    decreases rows - p.y
  {
    if k == p.y {
      assert p.(y := k) == p;
    } else {
      ProbeAboveFloor(g, rows, cols, p, 0, 1);
      var q := p.(y := p.y + 1);
      ShiftDown(g, rows, cols, p);
      DropRowLandsFree(g, rows, cols, q, k);
      assert q.(y := k) == p.(y := k);
    }
  }

  /** Probing one row down is the same as moving the piece one row down. */
  lemma ShiftDown(g: Grid, rows: int, cols: int, p: Piece)
    requires WellFormed(g, rows, cols)
    ensures Collides(g, rows, cols, p, 0, 1) == Collides(g, rows, cols, p.(y := p.y + 1), 0, 0)
  {
    var q := p.(y := p.y + 1);
    if Collides(g, rows, cols, p, 0, 1) {
      var r, c :| 0 <= r < |p.shape| && 0 <= c < |p.shape[r]| && p.shape[r][c] &&
        Blocked(g, rows, cols, p.x + c + 0, p.y + r + 1);
      assert Blocked(g, rows, cols, q.x + c + 0, q.y + r + 0);
    }
    if Collides(g, rows, cols, q, 0, 0) {
      var r, c :| 0 <= r < |q.shape| && 0 <= c < |q.shape[r]| && q.shape[r][c] &&
        Blocked(g, rows, cols, q.x + c + 0, q.y + r + 0);
      assert Blocked(g, rows, cols, p.x + c + 0, p.y + r + 1);
    }
  }

  /** The source's hard drop can lock a piece on top of an occupied cell.  On a 4x6
      grid with cells (0, 2) and (0, 5) occupied, an I piece at (0, 0) is probed at rows
      1, 3 and 5, stops at row 2 and overlaps the block at (0, 2); the intended drop
      stops at row 1, just above it. */
  lemma HardDropOverlapWitness()
    ensures var g := HardDropWitnessGrid();
      var p := Piece(ShapeOf(I), ColorOf(I), 0, 0);
      WellFormed(g, 6, 4) && !Collides(g, 6, 4, p, 0, 0) &&
      DropRowAsWritten(g, 6, 4, p) == 2 && Collides(g, 6, 4, p.(y := 2), 0, 0) &&
      DropRow(g, 6, 4, p) == 1
  {
    WitnessAsWritten();
    WitnessIntended();
  }

  /** The as-written half of the witness: probes at rows 1 and 3 are free, the probe
      at row 5 hits, and the piece stops at row 2 on top of the block there. */
  lemma WitnessAsWritten()
    ensures var g := HardDropWitnessGrid();
      var p := Piece(ShapeOf(I), ColorOf(I), 0, 0);
      WellFormed(g, 6, 4) &&
      DropRowAsWritten(g, 6, 4, p) == 2 && Collides(g, 6, 4, p.(y := 2), 0, 0)
  {
    var g := HardDropWitnessGrid();
    var p := Piece(ShapeOf(I), ColorOf(I), 0, 0);
    var s := p.shape;
    assert WellFormed(g, 6, 4);
    assert forall c :: 0 <= c < 4 ==> s[0][c];
    assert !Blocked(g, 6, 4, 0, 1) && !Blocked(g, 6, 4, 1, 1) && !Blocked(g, 6, 4, 2, 1) && !Blocked(g, 6, 4, 3, 1);
    assert !Blocked(g, 6, 4, 0, 3) && !Blocked(g, 6, 4, 1, 3) && !Blocked(g, 6, 4, 2, 3) && !Blocked(g, 6, 4, 3, 3);
    assert !Collides(g, 6, 4, p, p.x, p.y + 1);
    var p1 := p.(y := 1);
    assert !Collides(g, 6, 4, p1, p1.x, p1.y + 1);
    var p2 := p.(y := 2);
    assert s[0][0] && Blocked(g, 6, 4, 0, 5);
    assert Collides(g, 6, 4, p2, p2.x, p2.y + 1);
    assert DropRowAsWritten(g, 6, 4, p1) == 2;
    assert Blocked(g, 6, 4, 0, 2);
  }

  /** The intended half of the witness: the piece is free at rows 0 and 1 and the
      row below row 1 is blocked, so it stops at row 1. */
  lemma WitnessIntended()
    ensures var g := HardDropWitnessGrid();
      var p := Piece(ShapeOf(I), ColorOf(I), 0, 0);
      WellFormed(g, 6, 4) && !Collides(g, 6, 4, p, 0, 0) && DropRow(g, 6, 4, p) == 1
  {
    var g := HardDropWitnessGrid();
    var p := Piece(ShapeOf(I), ColorOf(I), 0, 0);
    var s := p.shape;
    assert WellFormed(g, 6, 4);
    assert forall c :: 0 <= c < 4 ==> s[0][c];
    assert !Blocked(g, 6, 4, 0, 0) && !Blocked(g, 6, 4, 1, 0) && !Blocked(g, 6, 4, 2, 0) && !Blocked(g, 6, 4, 3, 0);
    assert !Blocked(g, 6, 4, 0, 1) && !Blocked(g, 6, 4, 1, 1) && !Blocked(g, 6, 4, 2, 1) && !Blocked(g, 6, 4, 3, 1);
    assert !Collides(g, 6, 4, p, 0, 0);
    assert !Collides(g, 6, 4, p, 0, 1);
    var p1 := p.(y := 1);
    assert p1.shape[0][0] && Blocked(g, 6, 4, p1.x + 0 + 0, p1.y + 0 + 1);
    assert Collides(g, 6, 4, p1, 0, 1);
  }

  function HardDropWitnessGrid(): Grid
  {
    var e := Empty;
    var b := Block("#ffffff");
    [[e, e, e, e], [e, e, e, e], [b, e, e, e], [e, e, e, e], [e, e, e, e], [b, e, e, e]]
  }

  // ---------------------------------------------------------------------------
  // The game object
  // ---------------------------------------------------------------------------

  class Game {
    const rows: nat
    const cols: nat
    var grid: Grid
    var piece: Piece
    /** Points reported through `window.updateScore`. */
    var score: int
    /** `gameOver()` has been called. */
    var over: bool

    ghost predicate Valid()
      reads this
    {
      cols > 0 && WellFormed(grid, rows, cols) && WellShaped(piece.shape)
    }

    ghost predicate Colliding(ox: int, oy: int)
      reads this
      requires Valid()
    {
      Collides(grid, rows, cols, piece, ox, oy)
    }

    /** The constructor followed by `init`: an empty 20 x 10 grid and a first piece. */
    constructor (first: Kind)
      ensures Valid() && rows == 20 && cols == 10
      ensures grid == Blanks(20, 10) && score == 0
      ensures piece == Spawn(first, 10) && over == Colliding(0, 0)
    {
      rows, cols := 20, 10;
      grid := Blanks(20, 10);
      score := 0;
      over := false;
      piece := Spawn(first, 10);
      new;
      CreateNewPiece(first);
    }

    /** `createNewPiece`: spawn a piece of the chosen kind; if it collides at once the
        game is over. */
    method CreateNewPiece(k: Kind)
      requires Valid()
      modifies this
      ensures Valid() && grid == old(grid) && score == old(score)
      ensures piece == Spawn(k, cols)
      ensures over == (old(over) || Colliding(0, 0))
    {
      piece := Spawn(k, cols);
      var hit := CheckCollision(0, 0);
      if hit {
        over := true;
      }
    }

    /** `checkCollision(offsetX, offsetY)`: whether the current piece, moved by the
        offset, has a filled cell that is blocked. */
    method CheckCollision(ox: int, oy: int) returns (hit: bool)
      requires Valid()
      ensures hit == Collides(grid, rows, cols, piece, ox, oy)
    {
      hit := Scan(piece, ox, oy);
    }

    /** The scan of `checkCollision` for piece `p`: the shape row by row, reporting
        whether some filled cell, moved by position plus offset, is blocked. */
    method Scan(p: Piece, ox: int, oy: int) returns (hit: bool)
      requires WellFormed(grid, rows, cols)
      ensures hit == Collides(grid, rows, cols, p, ox, oy)
    {
      var s := p.shape;
      var y := 0;
      while y < |s|
        invariant 0 <= y <= |s|
        invariant forall r, c :: 0 <= r < y && 0 <= c < |s[r]| && s[r][c] ==>
          !Blocked(grid, rows, cols, p.x + c + ox, p.y + r + oy)
      {
        var x := 0;
        while x < |s[y]|
          invariant 0 <= x <= |s[y]|
          invariant forall c :: 0 <= c < x && s[y][c] ==>
            !Blocked(grid, rows, cols, p.x + c + ox, p.y + y + oy)
        {
          if s[y][x] {
            var newX := p.x + x + ox;
            var newY := p.y + y + oy;
            if newX < 0 || newX >= cols || newY >= rows || (newY >= 0 && grid[newY][newX] != Empty) {
              return true;
            }
          }
          x := x + 1;
        }
        y := y + 1;
      }
      return false;
    }

    /** `movePiece(dx, dy)`: a move into a colliding position is undone, and when it
        was a move down the piece is locked where it stands. */
    method MovePiece(dx: int, dy: int, next: Kind)
      requires Valid()
      modifies this
      ensures Valid()
      ensures var moved := old(piece).(x := old(piece).x + dx, y := old(piece).y + dy);
        if !Collides(old(grid), rows, cols, moved, 0, 0) then
          piece == moved && grid == old(grid) && score == old(score) && over == old(over)
        else if dy <= 0 then
          piece == old(piece) && grid == old(grid) && score == old(score) && over == old(over)
        else
          LockedFrom(old(grid), old(piece), old(score), old(over), next)
    {
      var blocked := TryMove(dx, dy);
      if blocked && dy > 0 {
        LockPiece(next);
      }
    }

    /** The first half of `movePiece`: shift the piece, and shift it back if it now
        collides.  A piece that was free stays free. */
    method TryMove(dx: int, dy: int) returns (blocked: bool)
      requires Valid()
      modifies this
      ensures Valid() && grid == old(grid) && score == old(score) && over == old(over)
      ensures var moved := old(piece).(x := old(piece).x + dx, y := old(piece).y + dy);
        blocked == Collides(grid, rows, cols, moved, 0, 0) &&
        piece == if blocked then old(piece) else moved
      ensures !old(Colliding(0, 0)) ==> !Colliding(0, 0)
    {
      piece := piece.(x := piece.x + dx, y := piece.y + dy);
      blocked := CheckCollision(0, 0);
      if blocked {
        piece := piece.(x := piece.x - dx, y := piece.y - dy);
      }
    }

    /** The state `lockPiece` leaves: the piece painted, full lines cleared and scored,
        and a new piece spawned (game over if it collides). */
    ghost predicate LockedFrom(g: Grid, p: Piece, sc: int, ov: bool, next: Kind)
      reads this
      requires WellFormed(g, rows, cols) && Valid()
    {
      var painted := Lock(g, rows, cols, p);
      grid == Cleared(painted, cols) &&
      score == sc + (if FullCount(painted) > 0 then FullCount(painted) * 100 else 0) &&
      piece == Spawn(next, cols) &&
      over == (ov || Collides(grid, rows, cols, piece, 0, 0))
    }

    /** `rotatePiece`: turn the shape clockwise unless the turned piece collides. */
    method RotatePiece()
      requires Valid()
      modifies this
      ensures Valid() && grid == old(grid) && score == old(score) && over == old(over)
      ensures var turned := old(piece).(shape := Rotate(old(piece).shape));
        piece == if Collides(grid, rows, cols, turned, 0, 0) then old(piece) else turned
      ensures !old(Colliding(0, 0)) ==> !Colliding(0, 0)
    {
      var original := piece.shape;
      RotateKeepsBlock(original);
      piece := piece.(shape := Rotate(original));
      var hit := CheckCollision(0, 0);
      if hit {
        piece := piece.(shape := original);
      }
    }

    /** `hardDrop` as written: lower the piece while the probe
        `checkCollision(x, y + 1)` is free, then lock it. */
    method HardDrop(next: Kind)
      requires Valid()
      modifies this
      ensures Valid()
      ensures LockedFrom(old(grid), old(piece).(y := DropRowAsWritten(old(grid), rows, cols, old(piece))),
                         old(score), old(over), next)
    {
      DropAsWritten();
      LockPiece(next);
    }

    /** The loop of `hardDrop`. */
    method DropAsWritten()
      requires Valid()
      modifies this`piece
      ensures Valid()
      ensures piece == old(piece).(y := DropRowAsWritten(grid, rows, cols, old(piece)))
    {
      ghost var target := DropRowAsWritten(grid, rows, cols, piece);
      var p := piece;
      var hit := Scan(p, p.x, p.y + 1);
      DropRowAsWrittenUnfold(grid, rows, cols, p);
      while !hit
        invariant p == old(piece).(y := p.y)
        invariant hit ==> p.y == target
        invariant !hit ==> p.y < rows && DropRowAsWritten(grid, rows, cols, p.(y := p.y + 1)) == target
        decreases rows - p.y
      {
        p := p.(y := p.y + 1);
        hit := Scan(p, p.x, p.y + 1);
        DropRowAsWrittenUnfold(grid, rows, cols, p);
      }
      piece := p;
    }

    /** `lockPiece`: paint the filled cells of visible rows, clear full lines, spawn the
        next piece. */
    method LockPiece(next: Kind)
      requires Valid()
      modifies this
      ensures Valid()
      ensures LockedFrom(old(grid), old(piece), old(score), old(over), next)
    {
      PaintPiece();
      var _ := ClearLines();
      CreateNewPiece(next);
    }

    /** The painting loops of `lockPiece`.  A covered cell beside or below the grid
        is skipped. */
    method PaintPiece()
      requires Valid()
      modifies this
      ensures Valid() && grid == Lock(old(grid), rows, cols, piece)
      ensures piece == old(piece) && score == old(score) && over == old(over)
    {
      var s := piece.shape;
      var p := piece;
      var y := 0;
      while y < |s|
        invariant 0 <= y <= |s| && piece == p && score == old(score) && over == old(over)
        invariant Valid()
        invariant forall gy, gx :: 0 <= gy < rows && 0 <= gx < cols ==>
          grid[gy][gx] == if CoversBefore(p, gx, gy, y, 0) then Block(p.color) else old(grid)[gy][gx]
      {
        var x := 0;
        while x < |s[y]|
          invariant 0 <= x <= |s[y]| && piece == p && score == old(score) && over == old(over)
          invariant Valid()
          invariant forall gy, gx :: 0 <= gy < rows && 0 <= gx < cols ==>
            grid[gy][gx] == if CoversBefore(p, gx, gy, y, x) then Block(p.color) else old(grid)[gy][gx]
        {
          if s[y][x] {
            var gridY := p.y + y;
            var gridX := p.x + x;
            if gridY >= 0 && gridY < rows && 0 <= gridX < cols {
              grid := grid[gridY := grid[gridY][gridX := Block(p.color)]];
            }
          }
          x := x + 1;
        }
        y := y + 1;
      }
      GridExt(grid, Lock(old(grid), rows, cols, p), rows, cols);
    }

    /** `clearLines`: scan from the bottom row up; a full row is spliced out, a blank
        row is put on top, and the same index is scanned again.  The lines cleared are
        scored once, as `linesCleared * 100`. */
    method ClearLines() returns (linesCleared: nat)
      requires Valid()
      modifies this
      ensures Valid() && piece == old(piece) && over == old(over)
      ensures grid == Cleared(old(grid), cols) && linesCleared == FullCount(old(grid))
      ensures score == old(score) + (if linesCleared > 0 then linesCleared * 100 else 0)
    {
      linesCleared := 0;
      var y: int := rows - 1;
      assert grid[..y + 1] == grid && grid[y + 1..] == [];
      while y >= 0
        invariant -1 <= y < rows && Valid() && piece == old(piece) && over == old(over)
        invariant score == old(score)
        invariant Cleared(grid[..y + 1], cols) + grid[y + 1..] == Cleared(old(grid), cols)
        invariant linesCleared + FullCount(grid[..y + 1]) == FullCount(old(grid))
        decreases FullCount(grid[..y + 1]), y
      {
        if Full(grid[y]) {
          ClearStepFull(grid, y, cols);
          grid := [Blank(cols)] + grid[..y] + grid[y + 1..];
          linesCleared := linesCleared + 1;
          y := y + 1;
        } else {
          ClearStepKeep(grid, y, cols);
        }
        y := y - 1;
      }
      assert grid[..0] == [] && grid[0..] == grid;
      if linesCleared > 0 {
        score := score + linesCleared * 100;
      }
    }

    /** `update`: one gravity step. */
    method Update(next: Kind)
      requires Valid()
      modifies this
      ensures Valid()
      ensures score >= old(score)
    {
      MovePiece(0, 1, next);
    }
  }
}
