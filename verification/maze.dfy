/** The `Maze` class of Maze.py: a `rows` x `columns` grid with a start and a
    goal location, its constructor, goal test, move generator, path overlay
    and removal, and printable picture. */
module Mazes {
  import opened Wrappers
  import opened Cells
  import opened Locations
  import opened Grids
  import opened Rendering

  datatype Maze = Maze(rows: int, columns: int, grid: Grid, start: MazeLocation, goal: MazeLocation)

  /** The bound tests `successors` applies before indexing the grid. */
  predicate InBounds(m: Maze, l: MazeLocation)
  {
    0 <= l.row < m.rows && 0 <= l.column < m.columns
  }

  /** What the constructor establishes and every operation keeps: the grid
      has the stated dimensions, and start and goal lie on it. */
  predicate Valid(m: Maze)
  {
    && Shaped(m.grid, m.rows, m.columns)
    && InBounds(m, m.start)
    && InBounds(m, m.goal)
  }

  /** The goal square shows `G`, and the start square shows `S` unless it is
      the goal square too. */
  predicate MarkersPlaced(m: Maze)
    requires Valid(m)
  {
    && At(m.grid, m.goal) == Goal
    && (m.start != m.goal ==> At(m.grid, m.start) == Start)
  }

  /** No path is drawn: apart from start and goal, every square is empty or
      an obstacle. */
  ghost predicate Fresh(m: Maze)
    requires Valid(m)
  {
    forall l :: InBounds(m, l) && l != m.start && l != m.goal ==> At(m.grid, l) in {Empty, Blocked}
  }

  /** The random fill, with the coin flips supplied by the caller: the squares
      in `blocked` become obstacles and all others stay empty. */
  function Fill(rows: nat, columns: nat, blocked: set<MazeLocation>): (g: Grid)
    ensures Shaped(g, rows, columns)
    ensures forall l :: Within(g, l) ==> At(g, l) == if l in blocked then Blocked else Empty
  {
    seq(rows, r => seq(columns, c => if MazeLocation(r, c) in blocked then Blocked else Empty))
  }

  /** `Maze(rows, columns, sparseness, start, goal)`, with the squares the
      random draw blocked given as `blocked`. */
  function Init(rows: int, columns: int, blocked: set<MazeLocation>, start: MazeLocation, goal: MazeLocation): (m: Maze)
    requires 0 <= start.row < rows && 0 <= start.column < columns
    requires 0 <= goal.row < rows && 0 <= goal.column < columns
    ensures Valid(m)
    ensures m.rows == rows && m.columns == columns && m.start == start && m.goal == goal
    ensures MarkersPlaced(m)
    ensures At(m.grid, start) == if start == goal then Goal else Start
    ensures forall l :: InBounds(m, l) && l != start && l != goal ==>
      At(m.grid, l) == if l in blocked then Blocked else Empty
  {
    var g := Fill(rows, columns, blocked);
    var g := Set(g, start, Start);
    var g := Set(g, goal, Goal);
    Maze(rows, columns, g, start, goal)
  }

  /** Every freshly built maze has no path drawn on it. */
  lemma InitIsFresh(rows: int, columns: int, blocked: set<MazeLocation>, start: MazeLocation, goal: MazeLocation)
    requires 0 <= start.row < rows && 0 <= start.column < columns
    requires 0 <= goal.row < rows && 0 <= goal.column < columns
    ensures Fresh(Init(rows, columns, blocked, start, goal))
  {
  }

  /** `goal_test`. */
  function GoalTest(m: Maze, ml: MazeLocation): (b: bool)
    ensures b <==> ManhattanDistance(m.goal)(ml) == 0
  {
    ml == m.goal
  }

  /** The four moves, in the order `successors` tries them. */
  datatype Direction = Down | Up | Right | Left

  function Step(ml: MazeLocation, d: Direction): MazeLocation
  {
    match d
    case Down => MazeLocation(ml.row + 1, ml.column)
    case Up => MazeLocation(ml.row - 1, ml.column)
    case Right => MazeLocation(ml.row, ml.column + 1)
    case Left => MazeLocation(ml.row, ml.column - 1)
  }

  /** Position of the move from `ml` to `l` in the order down, up, right, left. */
  function Order(ml: MazeLocation, l: MazeLocation): nat
  {
    if l == Step(ml, Down) then 0
    else if l == Step(ml, Up) then 1
    else if l == Step(ml, Right) then 2
    else 3
  }

  /** The move in direction `d`, kept when it stays on the grid and does not
      enter an obstacle. */
  function TryMove(m: Maze, ml: MazeLocation, d: Direction): (s: seq<MazeLocation>)
    requires Valid(m) && InBounds(m, ml)
  {
    var l := Step(ml, d);
    if InBounds(m, l) && At(m.grid, l) != Blocked then [l] else []
  }

  /** `successors`: the locations one move away that the mover may enter,
      down, up, right, left, skipping those off the grid or blocked. */
  function Successors(m: Maze, ml: MazeLocation): (s: seq<MazeLocation>)
    requires Valid(m) && InBounds(m, ml)
    ensures |s| <= 4
    ensures forall i :: 0 <= i < |s| ==>
      InBounds(m, s[i]) && Passable(At(m.grid, s[i])) && Adjacent(ml, s[i])
    ensures forall l :: l in s <==> InBounds(m, l) && Adjacent(ml, l) && At(m.grid, l) != Blocked
    ensures forall i, j :: 0 <= i < j < |s| ==> Order(ml, s[i]) < Order(ml, s[j]) && s[i] != s[j]
  {
    TryMove(m, ml, Down) + TryMove(m, ml, Up) + TryMove(m, ml, Right) + TryMove(m, ml, Left)
  }

  /** Two mazes of the same size with obstacles in the same places offer the
      same moves everywhere, whatever else is drawn on them. */
  lemma SameObstaclesSameSuccessors(m: Maze, m': Maze, ml: MazeLocation)
    requires Valid(m) && Valid(m') && InBounds(m, ml)
    requires m.rows == m'.rows && m.columns == m'.columns
    requires forall l :: InBounds(m, l) ==> (At(m.grid, l) == Blocked <==> At(m'.grid, l) == Blocked)
    ensures Successors(m, ml) == Successors(m', ml)
  {
    assert forall d :: TryMove(m, ml, d) == TryMove(m', ml, d);
  }

  /** The part `mark` and `clear` share: write `c` over every path square,
      then put the start and goal markers back. */
  function Paint(m: Maze, path: seq<MazeLocation>, c: Cell): (r: Maze)
    requires Valid(m)
    requires forall l :: l in path ==> InBounds(m, l)
    ensures Valid(r) && MarkersPlaced(r)
    ensures r.rows == m.rows && r.columns == m.columns && r.start == m.start && r.goal == m.goal
    ensures forall l :: InBounds(m, l) && l != m.start && l != m.goal ==>
      At(r.grid, l) == if l in path then c else At(m.grid, l)
    ensures At(r.grid, m.start) == if m.start == m.goal then Goal else Start
  {
    assert forall k :: InBounds(m, k) ==> Within(m.grid, k);
    var g := Overlay(m.grid, path, c);
    var g := Set(g, m.start, Start);
    var g := Set(g, m.goal, Goal);
    m.(grid := g)
  }

  /** `mark`: draw the path with `*`, keeping the `S` and `G` markers. */
  function Mark(m: Maze, path: seq<MazeLocation>): (r: Maze)
    requires Valid(m)
    requires forall l :: l in path ==> InBounds(m, l)
    ensures Valid(r) && MarkersPlaced(r)
    ensures r.rows == m.rows && r.columns == m.columns && r.start == m.start && r.goal == m.goal
    ensures forall l :: InBounds(m, l) && l != m.start && l != m.goal ==>
      At(r.grid, l) == if l in path then Path else At(m.grid, l)
  {
    Paint(m, path, Path)
  }

  /** `clear`: rub the path out with blanks, keeping the `S` and `G` markers. */
  function Clear(m: Maze, path: seq<MazeLocation>): (r: Maze)
    requires Valid(m)
    requires forall l :: l in path ==> InBounds(m, l)
    ensures Valid(r) && MarkersPlaced(r)
    ensures r.rows == m.rows && r.columns == m.columns && r.start == m.start && r.goal == m.goal
    ensures forall l :: InBounds(m, l) && l != m.start && l != m.goal ==>
      At(r.grid, l) == if l in path then Empty else At(m.grid, l)
  {
    Paint(m, path, Empty)
  }

  /** Drawing the same path twice changes nothing the second time. */
  lemma MarkIdempotent(m: Maze, path: seq<MazeLocation>)
    requires Valid(m)
    requires forall l :: l in path ==> InBounds(m, l)
    ensures Mark(Mark(m, path), path) == Mark(m, path)
  {
    var once := Mark(m, path);
    var twice := Mark(once, path);
    Extensionality(twice.grid, once.grid);
  }

  /** Clearing a path wipes out whatever marking of it came before. */
  lemma ClearAfterMark(m: Maze, path: seq<MazeLocation>)
    requires Valid(m)
    requires forall l :: l in path ==> InBounds(m, l)
    ensures Clear(Mark(m, path), path) == Clear(m, path)
  {
    var a := Clear(Mark(m, path), path);
    var b := Clear(m, path);
    Extensionality(a.grid, b.grid);
  }

  /** Marking a path and then clearing it gives back the maze it started from,
      provided the path ran only over blank squares apart from start and goal
      and the markers were in place. */
  lemma MarkThenClearRestores(m: Maze, path: seq<MazeLocation>)
    requires Valid(m) && MarkersPlaced(m)
    requires forall l :: l in path ==> InBounds(m, l)
    requires forall l :: InBounds(m, l) && l in path && l != m.start && l != m.goal ==> At(m.grid, l) == Empty
    ensures Clear(Mark(m, path), path) == m
  {
    ClearAfterMark(m, path);
    var b := Clear(m, path);
    Extensionality(b.grid, m.grid);
  }

  /** Neither drawing nor erasing a path that avoids obstacles changes the
      moves the search sees. */
  lemma MarkKeepsSuccessors(m: Maze, path: seq<MazeLocation>, ml: MazeLocation)
    requires Valid(m) && MarkersPlaced(m) && InBounds(m, ml)
    requires forall l :: l in path ==> InBounds(m, l) && At(m.grid, l) != Blocked
    ensures Successors(Mark(m, path), ml) == Successors(m, ml)
    ensures Successors(Clear(m, path), ml) == Successors(m, ml)
  {
    SameObstaclesSameSuccessors(Mark(m, path), m, ml);
    SameObstaclesSameSuccessors(Clear(m, path), m, ml);
  }

  /** `__str__`: `rows` lines of `columns` characters, each followed by a
      newline, the character of row `r`, column `c` at `r * (columns + 1) + c`. */
  function Str(m: Maze): (s: string)
    requires Valid(m)
    ensures |s| == m.rows * (m.columns + 1)
    ensures forall l :: InBounds(m, l) ==>
      0 <= Offset(l.row, l.column, m.columns) < |s| && s[Offset(l.row, l.column, m.columns)] == ToChar(At(m.grid, l))
    ensures forall r :: 0 <= r < m.rows ==>
      0 <= Offset(r, m.columns, m.columns) < |s| && s[Offset(r, m.columns, m.columns)] == '\n'
    ensures Parse(s, m.columns) == Some(m.grid)
  {
    RenderLayout(m.grid, m.columns);
    ParseRender(m.grid, m.columns);
    Render(m.grid)
  }

}
