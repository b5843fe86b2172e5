/** The terrain oracle of the arena: a fixed 32 x 24 grid of 25-unit tiles,
    generated once at start-up, and the point, corner and spawn tests that the
    movement, bullet and pickup rules ask of it. */
module Collision {

  const TILE_SIZE: real := 25.0
  const COLS: int := 32
  const ROWS: int := 24
  const ARENA_WIDTH: real := 800.0
  const ARENA_HEIGHT: real := 600.0

  const TANK_RADIUS: real := 10.0
  /** Inward tolerance of the two corners tested when a tank moves. */
  const PAD: real := 4.0
  /** Offset of the four diagonal points that a safe spawn point must keep clear. */
  const SAFE_RADIUS: real := 10.0

  const WALL: int := 1
  const FLOOR: int := 0
  /** Chance that an interior cell becomes an obstacle at start-up. */
  const OBSTACLE_CHANCE: real := 0.1

  /** Rows of cells; `g[row][col]`. */
  type Grid = seq<seq<int>>

  predicate ValidGrid(g: Grid) {
    |g| == ROWS && forall r :: 0 <= r < |g| ==> |g[r]| == COLS
  }

  predicate IsBorder(r: int, c: int) {
    r == 0 || r == ROWS - 1 || c == 0 || c == COLS - 1
  }

  /** Every grid made at start-up has a wall all around its edge. */
  predicate BorderWalls(g: Grid)
    requires ValidGrid(g)
  {
    forall r, c :: 0 <= r < ROWS && 0 <= c < COLS && IsBorder(r, c) ==> g[r][c] == WALL
  }

  // ---------------------------------------------------------------------------
  // Map generation

  /** Builds the grid row by row: border cells are walls, an interior cell is a
      wall exactly when its random draw `roll(r, c)` falls below 0.1. */
  method GenerateMap(roll: (int, int) -> real) returns (g: Grid)
    ensures ValidGrid(g) && BorderWalls(g)
    ensures forall r, c :: 0 <= r < ROWS && 0 <= c < COLS && !IsBorder(r, c) ==>
              (g[r][c] == WALL <==> roll(r, c) < OBSTACLE_CHANCE)
    ensures forall r, c :: 0 <= r < ROWS && 0 <= c < COLS ==> g[r][c] == WALL || g[r][c] == FLOOR
  {
    g := [];
    var r := 0;
    while r < ROWS
      invariant 0 <= r <= ROWS && |g| == r
      invariant forall i :: 0 <= i < r ==> |g[i]| == COLS
      invariant forall i, c :: 0 <= i < r && 0 <= c < COLS ==>
                  g[i][c] == (if IsBorder(i, c) || roll(i, c) < OBSTACLE_CHANCE then WALL else FLOOR)
    {
      var row: seq<int> := [];
      var c := 0;
      while c < COLS
        invariant 0 <= c <= COLS && |row| == c
        invariant forall j :: 0 <= j < c ==>
                    row[j] == (if IsBorder(r, j) || roll(r, j) < OBSTACLE_CHANCE then WALL else FLOOR)
      {
        if IsBorder(r, c) {
          row := row + [WALL];
        } else if roll(r, c) < OBSTACLE_CHANCE {
          row := row + [WALL];
        } else {
          row := row + [FLOOR];
        }
        c := c + 1;
      }
      g := g + [row];
      r := r + 1;
    }
  }

  // ---------------------------------------------------------------------------
  // Point and corner tests

  /** The tile index of a world coordinate (JavaScript `Math.floor(v / 25)`). */
  function Cell(v: real): int {
    (v / TILE_SIZE).Floor
  }

  /** A point is blocked when its tile lies off the grid or is a wall. */
  predicate IsColliding(g: Grid, x: real, y: real)
    requires ValidGrid(g)
  {
    var col := Cell(x);
    var row := Cell(y);
    if row < 0 || row >= ROWS || col < 0 || col >= COLS then true
    else g[row][col] == WALL
  }

  /** May a tank move along an axis from `oldVal` to `x`, `y` being its
      coordinate on the other axis?  Moving towards smaller values tests the two
      corners on the low side, moving towards larger values the two on the high
      side; not moving at all is always allowed.  The x-axis step uses it as
      `CanMove(newX, y, x)`. */
  predicate CanMove(g: Grid, x: real, y: real, oldVal: real)
    requires ValidGrid(g)
  {
    if x < oldVal then
      !(IsColliding(g, x - TANK_RADIUS, y - TANK_RADIUS + PAD) ||
        IsColliding(g, x - TANK_RADIUS, y + TANK_RADIUS - PAD))
    else if x > oldVal then
      !(IsColliding(g, x + TANK_RADIUS, y - TANK_RADIUS + PAD) ||
        IsColliding(g, x + TANK_RADIUS, y + TANK_RADIUS - PAD))
    else true
  }

  /** The vertical counterpart of `CanMove`, testing the two leading corners
      of a tank centred at `(x, y)` that moves from `oldY` to `y`.  The server
      reuses `CanMove` for this axis with its arguments in the wrong order; see
      `Physics.MoveAsWritten`. */
  predicate CanMoveY(g: Grid, x: real, y: real, oldY: real)
    requires ValidGrid(g)
  {
    if y < oldY then
      !(IsColliding(g, x - TANK_RADIUS + PAD, y - TANK_RADIUS) ||
        IsColliding(g, x + TANK_RADIUS - PAD, y - TANK_RADIUS))
    else if y > oldY then
      !(IsColliding(g, x - TANK_RADIUS + PAD, y + TANK_RADIUS) ||
        IsColliding(g, x + TANK_RADIUS - PAD, y + TANK_RADIUS))
    else true
  }

  /** A spawn point must be clear, and so must the four points 10 units away
      along the diagonals. */
  predicate IsSafeSpawn(g: Grid, x: real, y: real)
    requires ValidGrid(g)
  {
    !IsColliding(g, x, y) &&
    !IsColliding(g, x - SAFE_RADIUS, y - SAFE_RADIUS) &&
    !IsColliding(g, x + SAFE_RADIUS, y - SAFE_RADIUS) &&
    !IsColliding(g, x - SAFE_RADIUS, y + SAFE_RADIUS) &&
    !IsColliding(g, x + SAFE_RADIUS, y + SAFE_RADIUS)
  }

  // ---------------------------------------------------------------------------
  // Facts about tiles

  lemma CellBounds(v: real)
    ensures (Cell(v) as real) * TILE_SIZE <= v < (Cell(v) as real + 1.0) * TILE_SIZE
  {
  }

  /** Two coordinates at most one tile apart lie in the same tile or in
      neighbouring ones, and the order of the tiles follows the coordinates. */
  lemma CellStep(a: real, b: real)
    requires a <= b <= a + TILE_SIZE
    ensures Cell(a) <= Cell(b) <= Cell(a) + 1
  {
    CellBounds(a);
    CellBounds(b);
  }

  /** Whatever lies off the 800 x 600 arena is blocked. */
  lemma OutsideArenaCollides(g: Grid, x: real, y: real)
    requires ValidGrid(g)
    requires x < 0.0 || x >= ARENA_WIDTH || y < 0.0 || y >= ARENA_HEIGHT
    ensures IsColliding(g, x, y)
  {
    CellBounds(x);
    CellBounds(y);
  }

  /** Inside the 800 x 600 arena a point's tile is on the grid, and the point
      is blocked exactly when that tile is a wall. */
  lemma InsideArenaReadsMap(g: Grid, x: real, y: real)
    requires ValidGrid(g)
    requires 0.0 <= x < ARENA_WIDTH && 0.0 <= y < ARENA_HEIGHT
    ensures 0 <= Cell(x) < COLS && 0 <= Cell(y) < ROWS
    ensures IsColliding(g, x, y) <==> g[Cell(y)][Cell(x)] == WALL
  {
    CellBounds(x);
    CellBounds(y);
  }

  /** On a grid walled all round, a clear point lies at least one tile inside
      the arena's edge. */
  lemma BorderConfines(g: Grid, x: real, y: real)
    requires ValidGrid(g) && BorderWalls(g)
    requires !IsColliding(g, x, y)
    ensures TILE_SIZE <= x < ARENA_WIDTH - TILE_SIZE
    ensures TILE_SIZE <= y < ARENA_HEIGHT - TILE_SIZE
  {
    CellBounds(x);
    CellBounds(y);
    var col, row := Cell(x), Cell(y);
    assert 0 <= row < ROWS && 0 <= col < COLS;
  }

  /** `IsColliding` depends on the tile only. */
  lemma SameCellSameAnswer(g: Grid, x1: real, y1: real, x2: real, y2: real)
    requires ValidGrid(g)
    requires Cell(x1) == Cell(x2) && Cell(y1) == Cell(y2)
    ensures IsColliding(g, x1, y1) == IsColliding(g, x2, y2)
  {
  }

  /** A point whose coordinate lies between `lo` and `hi`, less than a tile
      apart, is in the tile of `lo` or in that of `hi`. */
  lemma BetweenTiles(lo: real, v: real, hi: real)
    requires lo <= v <= hi && hi - lo < TILE_SIZE
    ensures Cell(v) == Cell(lo) || Cell(v) == Cell(hi)
  {
    CellStep(lo, v);
    CellStep(v, hi);
    CellStep(lo, hi);
  }

  /** A safe spawn point keeps the whole 20 x 20 square around it clear, so a
      tank of radius 10 placed there touches no wall. */
  lemma SafeSpawnClearsSquare(g: Grid, x: real, y: real, px: real, py: real)
    requires ValidGrid(g) && IsSafeSpawn(g, x, y)
    requires x - SAFE_RADIUS <= px <= x + SAFE_RADIUS
    requires y - SAFE_RADIUS <= py <= y + SAFE_RADIUS
    ensures !IsColliding(g, px, py)
  {
    BetweenTiles(x - SAFE_RADIUS, px, x + SAFE_RADIUS);
    BetweenTiles(y - SAFE_RADIUS, py, y + SAFE_RADIUS);
    var cx := if Cell(px) == Cell(x - SAFE_RADIUS) then x - SAFE_RADIUS else x + SAFE_RADIUS;
    var cy := if Cell(py) == Cell(y - SAFE_RADIUS) then y - SAFE_RADIUS else y + SAFE_RADIUS;
    SameCellSameAnswer(g, px, py, cx, cy);
  }

  /** No wall clipping on the x axis: a tank whose centre is clear and that
      moves by at most 15 units (the server moves at most 6 per tick) keeps a
      clear centre when `CanMove` lets it through. */
  lemma CanMoveKeepsCentreClear(g: Grid, x: real, y: real, newX: real)
    requires ValidGrid(g) && !IsColliding(g, x, y)
    requires x - 15.0 <= newX <= x + 15.0
    requires CanMove(g, newX, y, x)
    ensures !IsColliding(g, newX, y)
  {
    BetweenTiles(y - TANK_RADIUS + PAD, y, y + TANK_RADIUS - PAD);
    var cy := if Cell(y) == Cell(y - TANK_RADIUS + PAD) then y - TANK_RADIUS + PAD else y + TANK_RADIUS - PAD;
    if newX < x {
      CellStep(newX, x);
      if Cell(newX) == Cell(x) {
        SameCellSameAnswer(g, newX, y, x, y);
      } else {
        CellBounds(x);
        CellBounds(newX);
        CellStep(newX - TANK_RADIUS, newX);
        CellBounds(newX - TANK_RADIUS);
        assert Cell(newX - TANK_RADIUS) == Cell(newX);
        SameCellSameAnswer(g, newX, y, newX - TANK_RADIUS, cy);
      }
    } else if newX > x {
      CellStep(x, newX);
      if Cell(newX) == Cell(x) {
        SameCellSameAnswer(g, newX, y, x, y);
      } else {
        CellBounds(x);
        CellBounds(newX);
        CellStep(newX, newX + TANK_RADIUS);
        CellBounds(newX + TANK_RADIUS);
        assert Cell(newX + TANK_RADIUS) == Cell(newX);
        SameCellSameAnswer(g, newX, y, newX + TANK_RADIUS, cy);
      }
    }
  }

  /** The same guarantee for the vertical test `CanMoveY`. */
  lemma CanMoveYKeepsCentreClear(g: Grid, x: real, y: real, newY: real)
    requires ValidGrid(g) && !IsColliding(g, x, y)
    requires y - 15.0 <= newY <= y + 15.0
    requires CanMoveY(g, x, newY, y)
    ensures !IsColliding(g, x, newY)
  {
    BetweenTiles(x - TANK_RADIUS + PAD, x, x + TANK_RADIUS - PAD);
    var cx := if Cell(x) == Cell(x - TANK_RADIUS + PAD) then x - TANK_RADIUS + PAD else x + TANK_RADIUS - PAD;
    if newY < y {
      CellStep(newY, y);
      if Cell(newY) == Cell(y) {
        SameCellSameAnswer(g, x, newY, x, y);
      } else {
        CellBounds(y);
        CellBounds(newY);
        CellStep(newY - TANK_RADIUS, newY);
        CellBounds(newY - TANK_RADIUS);
        assert Cell(newY - TANK_RADIUS) == Cell(newY);
        SameCellSameAnswer(g, x, newY, cx, newY - TANK_RADIUS);
      }
    } else if newY > y {
      CellStep(y, newY);
      if Cell(newY) == Cell(y) {
        SameCellSameAnswer(g, x, newY, x, y);
      } else {
        CellBounds(y);
        CellBounds(newY);
        CellStep(newY, newY + TANK_RADIUS);
        CellBounds(newY + TANK_RADIUS);
        assert Cell(newY + TANK_RADIUS) == Cell(newY);
        SameCellSameAnswer(g, x, newY, cx, newY + TANK_RADIUS);
      }
    }
  }
}
