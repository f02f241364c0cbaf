/** The Pac-Man tile layout (games/pacman.js), kept apart from the game so that only
    the facts proved here about its contents reach the game's proofs.

    Tile codes: 0 wall, 1 path, 2 dot, 3 power dot.  Rows 0 and 1 have 40 tiles, the
    other rows 39. */
module PacmanMaze {

  const Row0: seq<int> := [0, 0, 0, 0, 0, 0, 0, 0, 0, 0, 0, 0, 0, 0, 0, 0, 0, 0, 0, 0, 0, 0, 0, 0, 0, 0, 0, 0, 0, 0, 0, 0, 0, 0, 0, 0, 0, 0, 0, 0]
  const Row1: seq<int> := [0, 2, 2, 2, 2, 2, 2, 2, 2, 2, 2, 2, 2, 0, 0, 2, 2, 2, 2, 2, 2, 2, 2, 2, 2, 2, 2, 2, 2, 2, 2, 2, 2, 2, 2, 2, 2, 2, 2, 0]
  const Row2: seq<int> := [0, 3, 0, 0, 0, 2, 0, 0, 0, 0, 0, 0, 2, 0, 0, 2, 0, 0, 0, 0, 0, 0, 0, 0, 0, 0, 0, 0, 0, 0, 0, 0, 0, 0, 0, 0, 0, 3, 0]
  const Row3: seq<int> := [0, 2, 0, 0, 0, 2, 0, 0, 0, 0, 0, 0, 2, 0, 0, 2, 0, 0, 0, 0, 0, 0, 0, 0, 0, 0, 0, 0, 0, 0, 0, 0, 0, 0, 0, 0, 0, 2, 0]
  const Row4: seq<int> := [0, 2, 2, 2, 2, 2, 2, 2, 2, 2, 2, 2, 2, 0, 0, 2, 2, 2, 2, 2, 2, 2, 2, 2, 2, 2, 2, 2, 2, 2, 2, 2, 2, 2, 2, 2, 2, 2, 0]
  const Row5: seq<int> := [0, 0, 0, 0, 0, 2, 0, 0, 0, 0, 0, 0, 0, 0, 0, 0, 0, 0, 0, 0, 0, 0, 0, 0, 0, 0, 0, 0, 0, 0, 0, 0, 0, 0, 0, 0, 0, 0, 0]
  const Row6: seq<int> := [0, 0, 0, 0, 0, 2, 0, 0, 0, 0, 0, 0, 0, 0, 0, 0, 0, 0, 0, 0, 0, 0, 0, 0, 0, 0, 0, 0, 0, 0, 0, 0, 0, 0, 0, 0, 0, 0, 0]
  const Row7: seq<int> := [0, 2, 2, 2, 2, 2, 2, 2, 2, 2, 2, 2, 2, 0, 0, 2, 2, 2, 2, 2, 2, 2, 2, 2, 2, 2, 2, 2, 2, 2, 2, 2, 2, 2, 2, 2, 2, 2, 0]
  const Row8: seq<int> := [0, 2, 0, 0, 0, 0, 0, 0, 0, 0, 0, 0, 2, 0, 0, 2, 0, 0, 0, 0, 0, 0, 0, 0, 0, 0, 0, 0, 0, 0, 0, 0, 0, 0, 0, 0, 0, 2, 0]
  const Row9: seq<int> := [0, 2, 0, 0, 0, 0, 0, 0, 0, 0, 0, 0, 2, 0, 0, 2, 0, 0, 0, 0, 0, 0, 0, 0, 0, 0, 0, 0, 0, 0, 0, 0, 0, 0, 0, 0, 0, 2, 0]
  const Row10: seq<int> := [0, 3, 2, 2, 2, 2, 2, 2, 2, 2, 2, 2, 2, 0, 0, 2, 2, 2, 2, 2, 2, 2, 2, 2, 2, 2, 2, 2, 2, 2, 2, 2, 2, 2, 2, 2, 2, 3, 0]
  const Row11: seq<int> := [0, 0, 0, 0, 0, 0, 0, 0, 0, 0, 0, 0, 0, 0, 0, 0, 0, 0, 0, 0, 0, 0, 0, 0, 0, 0, 0, 0, 0, 0, 0, 0, 0, 0, 0, 0, 0, 0, 0]
  const Row12: seq<int> := [0, 0, 0, 0, 0, 0, 0, 0, 0, 0, 0, 0, 0, 0, 0, 0, 0, 0, 0, 0, 0, 0, 0, 0, 0, 0, 0, 0, 0, 0, 0, 0, 0, 0, 0, 0, 0, 0, 0]

  const Maze: seq<seq<int>> := [Row0, Row1, Row2, Row3, Row4, Row5, Row6, Row7, Row8, Row9, Row10, Row11, Row12]

  lemma NoPathTileInRows0To3()
    ensures 1 !in Row0 && 1 !in Row1 && 1 !in Row2 && 1 !in Row3
  {
  }

  lemma NoPathTileInRows4To7()
    ensures 1 !in Row4 && 1 !in Row5 && 1 !in Row6 && 1 !in Row7
  {
  }

  lemma NoPathTileInRows8To12()
    ensures 1 !in Row8 && 1 !in Row9 && 1 !in Row10 && 1 !in Row11 && 1 !in Row12
  {
  }

  /** No tile of the layout is a path tile (code 1). */
  lemma MazeHasNoPathTile()
    ensures forall y, x :: 0 <= y < |Maze| && 0 <= x < |Maze[y]| ==> Maze[y][x] != 1
  {
    NoPathTileInRows0To3();
    NoPathTileInRows4To7();
    NoPathTileInRows8To12();
    forall y | 0 <= y < |Maze| ensures 1 !in Maze[y] {
      assert y in {0, 1, 2, 3, 4, 5, 6, 7, 8, 9, 10, 11, 12};
    }
  }

  /** The layout's shape, and the walls under Pac-Man's and the ghosts' starting
      tiles. */
  lemma MazeShape()
    ensures |Maze| == 13 && |Maze[0]| == 40 && |Maze[1]| == 40 && |Maze[12]| == 39
    ensures Maze[0][0] == 0
    ensures Maze[5][10] == 0 && Maze[5][15] == 0 && Maze[5][20] == 0 && Maze[5][25] == 0
  {
  }
}
