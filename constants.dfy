/** The shared constants of the game: board extent, cell values and the
    eight scan directions. The constants file of the original program is not
    part of this model. The extent and EMPTY follow from how the other files
    use them (an 8x8 zero-initialised grid whose centre cells are 3 and 4);
    those files show only that the two colours are 1 and 2, so BLACK = 1,
    WHITE = 2 and the order of DIRS below are assumptions. */
module Constants {

  const ROWS: int := 8
  const COLS: int := 8

  const EMPTY: int := 0
  const BLACK: int := 1
  const WHITE: int := 2

  /** A scan direction: a non-zero vector with both components in {-1, 0, 1}. */
  predicate IsDir(d: (int, int)) {
    -1 <= d.0 <= 1 && -1 <= d.1 <= 1 && d != (0, 0)
  }

  type Dir = d: (int, int) | IsDir(d) witness (0, 1)

  /** The eight compass unit vectors, in the order the scans visit them. */
  const DIRS: seq<Dir> := [(-1, -1), (-1, 0), (-1, 1), (0, -1), (0, 1), (1, -1), (1, 0), (1, 1)]

  /** DIRS lists every direction. */
  lemma DirsComplete()
    ensures |DIRS| == 8
    ensures forall d :: IsDir(d) <==> d in DIRS
  {
  }

  /** No direction is listed twice. */
  lemma DirsDistinct(i: int, j: int)
    requires 0 <= i < j < |DIRS|
    ensures DIRS[i] != DIRS[j]
  {
  }
}

/** The board as a value: an 8x8 grid of integers, row-major, origin at the
    top left; and its relation to the mutable two-dimensional array. */
module Grids {
  import opened Constants

  type Grid = g: seq<seq<int>> | |g| == ROWS && forall r :: 0 <= r < ROWS ==> |g[r]| == COLS
    witness seq(ROWS, _ => seq(COLS, _ => EMPTY))

  predicate InBounds(r: int, c: int) {
    0 <= r < ROWS && 0 <= c < COLS
  }

  predicate IsBoard(a: array2<int>) {
    a.Length0 == ROWS && a.Length1 == COLS
  }

  /** The current contents of a board array, as a value. */
  function Snapshot(a: array2<int>): (g: Grid)
    requires IsBoard(a)
    reads a
    ensures forall r, c :: InBounds(r, c) ==> g[r][c] == a[r, c]
  {
    seq(ROWS, r requires 0 <= r < ROWS reads a => seq(COLS, c requires 0 <= c < COLS reads a => a[r, c]))
  }

  /** Grids are equal when they agree cell by cell. */
  lemma GridsEqual(a: Grid, b: Grid)
    requires forall r, c :: InBounds(r, c) ==> a[r][c] == b[r][c]
    ensures a == b
  {
    forall r | 0 <= r < ROWS
      ensures a[r] == b[r]
    {
      assert forall c :: 0 <= c < COLS ==> a[r][c] == b[r][c];
    }
  }

  /** The cell reached after `i` steps from coordinate `x` in direction
      component `d` (one of -1, 0, 1): x + i * d, written without
      multiplication. */
  function Along(x: int, d: int, i: int): int {
    if d == 0 then x else if d > 0 then x + i else x - i
  }

  /** Steps left before coordinate `x`, moving by `dx`, leaves 0..n-1. */
  function Room(x: int, dx: int, n: int): nat {
    if dx > 0 && x < n then n - x else if dx < 0 && x >= 0 then x + 1 else 0
  }

  /** Cell m comes strictly before cell n in row-major order: the order in
      which the scans visit cells. */
  predicate RowMajorBefore(m: (int, int), n: (int, int)) {
    m.0 < n.0 || (m.0 == n.0 && m.1 < n.1)
  }

  /** Two rays leaving the same cell in directions d1 and d2 meet (after at
      least one step each) only when they are the same ray at the same
      distance: the rays of one placement are pairwise disjoint. */
  lemma RaysDisjoint(row: int, col: int, d1: Dir, i1: int, d2: Dir, i2: int)
    requires i1 >= 1 && i2 >= 1
    requires Along(row, d1.0, i1) == Along(row, d2.0, i2)
    requires Along(col, d1.1, i1) == Along(col, d2.1, i2)
    ensures d1 == d2 && i1 == i2
  {
  }

  /** A cell one or more steps along a ray is never the ray's origin. */
  lemma RayLeavesOrigin(row: int, col: int, d: Dir, i: int)
    requires i >= 1
    ensures (Along(row, d.0, i), Along(col, d.1, i)) != (row, col)
  {
  }
}
