/** The maze's storage: a list of rows, each a list of cells (the `_grid`
    attribute of Maze.py), with single-cell reads and writes and the
    "write one marker over many locations" loop that `mark` and `clear` share. */
module Grids {
  import opened Cells
  import opened Locations

  type Grid = seq<seq<Cell>>

  /** Every row has the same number of cells. */
  predicate Shaped(g: Grid, rows: int, columns: int)
  {
    && |g| == rows
    && forall r :: 0 <= r < |g| ==> |g[r]| == columns
  }

  /** Two grids whose rows have pairwise the same lengths. */
  predicate SameShape(a: Grid, b: Grid)
  {
    && |a| == |b|
    && forall r :: 0 <= r < |a| ==> |a[r]| == |b[r]|
  }

  /** `l` addresses a cell of `g` with non-negative indices. */
  predicate Within(g: Grid, l: MazeLocation)
  {
    0 <= l.row < |g| && 0 <= l.column < |g[l.row]|
  }

  /** `grid[l.row][l.column]`. */
  function At(g: Grid, l: MazeLocation): Cell
    requires Within(g, l)
  {
    g[l.row][l.column]
  }

  /** `grid[l.row][l.column] = c`: the addressed cell changes, nothing else does. */
  function Set(g: Grid, l: MazeLocation, c: Cell): (r: Grid)
    requires Within(g, l)
    ensures SameShape(r, g)
    ensures At(r, l) == c
    ensures forall k :: Within(g, k) && k != l ==> At(r, k) == At(g, k)
  {
    g[l.row := g[l.row][l.column := c]]
  }

  /** `for l in path: grid[l.row][l.column] = c`, in the order of `path`. */
  function Overlay(g: Grid, path: seq<MazeLocation>, c: Cell): (r: Grid)
    requires forall k :: k in path ==> Within(g, k)
    ensures SameShape(r, g)
    ensures forall k :: Within(g, k) ==> At(r, k) == if k in path then c else At(g, k)
    decreases |path|
  {
    if path == [] then g
    else
      var g' := Set(g, path[0], c);
      assert forall k :: k in path[1..] ==> k in path;
      Overlay(g', path[1..], c)
  }

  /** Grids of the same shape that agree on every cell are the same grid. */
  lemma {:induction false} Extensionality(a: Grid, b: Grid)
    requires SameShape(a, b)
    requires forall k :: Within(a, k) ==> At(a, k) == At(b, k)
    ensures a == b
  {
    forall r | 0 <= r < |a|
      ensures a[r] == b[r]
    {
      forall c | 0 <= c < |a[r]|
        ensures a[r][c] == b[r][c]
      {
        assert Within(a, MazeLocation(r, c));
      }
    }
  }

}
