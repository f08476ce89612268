/**
 * Shared vocabulary for the 3x3 boards of the 8-puzzle and of tic-tac-toe:
 * an optional value, a cell position, and a grid as a sequence of rows.
 */
module Grids {

  datatype Option<T> = None | Some(value: T)

  /** A cell of a 3x3 board, addressed as (row, column). */
  datatype Pos = Pos(row: int, col: int)

  /** A board as the source stores it: a tuple (or list) of rows. */
  type Grid = seq<seq<int>>

  predicate InBoard(p: Pos) {
    0 <= p.row < 3 && 0 <= p.col < 3
  }

  predicate IsGrid(g: Grid) {
    |g| == 3 && |g[0]| == 3 && |g[1]| == 3 && |g[2]| == 3
  }

  function At(g: Grid, p: Pos): int
    requires IsGrid(g) && InBoard(p)
  {
    g[p.row][p.col]
  }

  /** p comes strictly before q in row-major order (the order of the source's nested loops). */
  predicate Before(p: Pos, q: Pos) {
    p.row < q.row || (p.row == q.row && p.col < q.col)
  }

  /** Position of a cell in row-major order (the order of the source's nested loops). */
  function Index(p: Pos): int {
    3 * p.row + p.col
  }

  /** The cell visited at step k of a row-major scan. */
  function PosAt(k: int): (p: Pos)
    requires 0 <= k < 9
    ensures InBoard(p) && Index(p) == k
  {
    if k < 3 then Pos(0, k) else if k < 6 then Pos(1, k - 3) else Pos(2, k - 6)
  }

  lemma PosAtIndex(p: Pos)
    requires InBoard(p)
    ensures 0 <= Index(p) < 9 && PosAt(Index(p)) == p
  {
  }

  /**
   * Python (and numpy) indexing on an axis of length 3: an index from -3 to -1
   * counts from the end.
   */
  function PyIndex(k: int): (r: int)
    requires -3 <= k < 3
    ensures 0 <= r < 3 && (r == k || r == k + 3)
  {
    if k < 0 then k + 3 else k
  }

  /** The cell a Python index pair (row, col) addresses. */
  function Wrap(t: Pos): (p: Pos)
    requires -3 <= t.row < 3 && -3 <= t.col < 3
    ensures InBoard(p)
  {
    Pos(PyIndex(t.row), PyIndex(t.col))
  }

  /** The grid with cell p overwritten by v. */
  function Update(g: Grid, p: Pos, v: int): (r: Grid)
    requires IsGrid(g) && InBoard(p)
    ensures IsGrid(r) && At(r, p) == v
    ensures forall q :: InBoard(q) && q != p ==> At(r, q) == At(g, q)
  {
    g[p.row := g[p.row][p.col := v]]
  }

  /** Two grids with the same cells are the same grid. */
  lemma GridExtensionality(a: Grid, b: Grid)
    requires IsGrid(a) && IsGrid(b)
    requires forall p :: InBoard(p) ==> At(a, p) == At(b, p)
    ensures a == b
  {
    forall i | 0 <= i < 3
      ensures a[i] == b[i]
    {
      forall j | 0 <= j < 3
        ensures a[i][j] == b[i][j]
      {
        assert At(a, Pos(i, j)) == At(b, Pos(i, j));
      }
    }
  }

  /** The cells of a grid in row-major order. */
  function Flatten(g: Grid): (s: seq<int>)
    requires IsGrid(g)
    ensures |s| == 9
  {
    g[0] + g[1] + g[2]
  }

  lemma FlattenAt(g: Grid, p: Pos)
    requires IsGrid(g) && InBoard(p)
    ensures 0 <= Index(p) < 9 && Flatten(g)[Index(p)] == At(g, p)
  {
  }

  lemma FlattenUpdate(g: Grid, p: Pos, v: int)
    requires IsGrid(g) && InBoard(p)
    ensures Flatten(Update(g, p, v)) == Flatten(g)[Index(p) := v]
  {
    var r := Update(g, p, v);
    forall k | 0 <= k < 9
      ensures Flatten(r)[k] == Flatten(g)[Index(p) := v][k]
    {
      FlattenAt(r, PosAt(k));
      FlattenAt(g, PosAt(k));
    }
  }
}
