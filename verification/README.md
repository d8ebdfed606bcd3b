# Maze grid model

A Dafny model of the grid side of a small maze solver written in Python
(`Maze.py`). The maze is a `rows` x `columns` grid of five markers
(empty ` `, obstacle `X`, start `S`, goal `G`, path `*`) with a start and a
goal location. The model covers how the maze is built, how it tests for the
goal, which moves it offers a search (down, up, right, left, skipping moves
off the grid or into obstacles), the integer Manhattan heuristic it gives to
A*, how it draws a found path over itself and erases it again, and how it
prints itself.

Layout, one module per file:

- `wrappers.dfy` (`Wrappers`): an `Option` type.
- `cells.dfy` (`Cells`): the `Cell` enumeration and its characters.
- `locations.dfy` (`Locations`): `MazeLocation`, adjacency, the Manhattan
  distance and the `manhattan_distance` closure.
- `grids.dfy` (`Grids`): the grid as `seq<seq<Cell>>`, cell reads and writes,
  and the loop that writes one marker over a list of locations.
- `rendering.dfy` (`Rendering`): the printed picture and a reader that undoes it.
- `maze.dfy` (`Mazes`): the `Maze` record and its operations.
- `walks.dfy` (`Walks`): walks through the maze as the search returns them,
  and what the maze guarantees about them.

The random obstacle draw becomes a parameter. `Init` takes the set of squares
the draw blocked, and any set is allowed. The three-way search engine is not
part of this model (see below). Its side of the interface is captured by
`Walks.IsWalk`: a non-empty list of locations in which each location is a
successor of the one before. That is the shape of path the maze is asked to
draw.

## Model

| member | source | states |
|---|---|---|
| Cells.ToChar | Maze.py:7-12 | Each marker prints as its own character, and reading that character back gives the same marker. |
| Cells.CharRoundTrip | Maze.py:7-12 | Printing a marker and reading a character back are inverse in both directions. |
| Locations.Distance | Maze.py:98-103 | The distance is a natural number. It is 0 exactly when the two locations coincide and 1 exactly when they are orthogonal neighbours. |
| Locations.ManhattanDistance | Maze.py:98-103 | The heuristic closure is 0 exactly at the goal. Its value at a location equals the distance from that location to the goal, with the arguments swapped. |
| Locations.DistanceSymmetric | Maze.py:98-103 | The distance does not depend on which location is called the goal. |
| Locations.TriangleInequality | Maze.py:98-103 | Going through a third location is never shorter. |
| Locations.StepChangesDistanceByOne | Maze.py:98-103 | One orthogonal unit step changes the distance to any goal by exactly one. |
| Grids.Set | Maze.py:30-31 | A single-cell assignment changes the addressed cell to the new marker, keeps every row's length, and leaves every other cell alone. |
| Grids.Overlay | Maze.py:70-71 | Writing one marker over every location of a path sets exactly the cells on the path to that marker. The grid shape and every other cell stay the same. |
| Rendering.RowText | Maze.py:45 | A row's line has one character per cell, and each character reads back as its cell. |
| Rendering.RenderLayout | Maze.py:42-46 | The picture of a grid with rows `w` wide has length `rows * (w + 1)`. The cell at row `r`, column `c` appears at offset `r * (w + 1) + c`, and each row ends with a newline at offset `r * (w + 1) + w`. |
| Rendering.ParseRender | Maze.py:42-46 | Reading the picture of a grid gives back that grid. |
| Rendering.RenderParse | Maze.py:42-46 | Any text that reads back as a grid is exactly that grid's picture. The picture format is therefore unambiguous. |
| Mazes.Fill | Maze.py:26-37 | The filled grid has the given dimensions. A square is an obstacle exactly when the draw chose it, and every other square is empty. |
| Mazes.Init | Maze.py:19-31 | The constructed maze has the given dimensions, start and goal. The goal shows `G`. The start shows `S`, or `G` when start and goal coincide. Every other square is an obstacle exactly when the draw chose it and is empty otherwise. |
| Mazes.InitIsFresh | Maze.py:19-37 | A newly built maze has no path drawn on it: apart from start and goal, each square is empty or an obstacle. |
| Mazes.GoalTest | Maze.py:48-49 | A location passes the goal test exactly when the Manhattan heuristic for the goal is 0 there. |
| Mazes.Successors | Maze.py:53-67 | At most four successors are returned. Each is on the grid, not an obstacle, and one unit step away. A location is a successor exactly when it is on the grid, adjacent and not an obstacle, so start, goal and path squares all count as passable. Successors come in the order down, up, right, left, with no repeats. |
| Mazes.SameObstaclesSameSuccessors | Maze.py:53-67 | Successors depend only on the grid size and on where the obstacles are. |
| Mazes.Paint | Maze.py:69-81 | After writing a marker over a path and then restoring `S` and `G`: the shape, start and goal are kept, both markers are in place, path squares other than start and goal hold the marker, and all other squares are unchanged. |
| Mazes.Mark | Maze.py:69-73 | After `mark`: path squares other than start and goal show `*`, `S` and `G` are in place, and nothing else changes. |
| Mazes.Clear | Maze.py:77-81 | After `clear`: path squares other than start and goal are blank, `S` and `G` are in place, and nothing else changes. |
| Mazes.MarkIdempotent | Maze.py:69-73 | Marking the same path twice gives the same maze as marking it once. |
| Mazes.ClearAfterMark | Maze.py:69-81 | Clearing a path erases any earlier marking of that path completely. |
| Mazes.MarkThenClearRestores | Maze.py:69-81 | Marking a path and then clearing it restores the original maze, if the path's squares other than start and goal were blank and the markers were in place. |
| Mazes.MarkKeepsSuccessors | Maze.py:53-81 | Marking or clearing a path that avoids obstacles leaves every location's successors unchanged. |
| Mazes.Str | Maze.py:42-46 | The printed maze has `rows` lines of `columns` characters, each line followed by a newline. Every square's character sits at its offset, and the text reads back as the grid. |
| Walks.WalkFirstMove | Maze.py:53-67 | The first move of a walk, if there is one, is a unit step onto a passable square of the grid. |
| Walks.WalkAvoidsObstacles | Maze.py:53-67 | A walk never enters an obstacle after its first location. |
| Walks.ManhattanAdmissible | Maze.py:98-103 | A walk that ends at the goal makes at least as many moves as the heuristic estimates at its first location, and the difference is even. The heuristic is therefore admissible for this move set. |
| Walks.ManhattanConsistent | Maze.py:98-103 | From any location to any of its successors, the heuristic drops by at most one. |
| Walks.MarkThenClearWalk | Maze.py:107-116 | On a freshly built maze, marking a walk from the start and clearing it again gives back the same maze. While the walk is marked, every location has the same successors. The demonstration driver relies on this when it reuses one maze for several searches. |
| Walks.WalledOffHasNoSuccessors | Maze.py:53-67 | A location whose neighbours are all off the grid or blocked has no successors. |
| Walks.WalledOffStartGoesNowhere | Maze.py:53-67 | From a walled-in start every walk has length one, so no goal elsewhere can be reached. |
| Walks.OpenThreeByThreeStartMoves | Maze.py:53-67 | In an open 3 x 3 maze the top-left corner has exactly two moves, down before right. |
| Walks.OpenThreeByThreeShortest | Maze.py:98-103 | In an open 3 x 3 maze a five-location walk from corner to corner exists, and no walk between those corners is shorter. |

## Left out

- The search engine (`dfs`, `bfs`, `astar`, `node_to_path`, `Node`) is imported from `generic_search` (Maze.py:5). `generic_search` is not part of this model, so no search behaviour is stated. Only the shape of the paths it hands back is modelled, as `Walks.IsWalk`.
- `_randomly_fill` draws `random.uniform(0, 1.0) < sparseness` for each square. The random draw and the floating-point `sparseness` are replaced by an arbitrary caller-supplied set of blocked squares (`Mazes.Fill`, `Mazes.Init`).
- `euclidean_distance` uses floating-point `sqrt` and is declared inside the class without `self`. It is not modelled.
- The `__main__` driver only prints and sequences calls. Its printing is not modelled. Its mark-and-clear reuse of one maze is stated as `Walks.MarkThenClearWalk`.
- Python's default constructor arguments (10 x 10, sparseness 0.2, start (0, 0), goal (9, 9)) are not a separate member. `Mazes.Init` takes every argument explicitly.
- Mazes.Init: requires start and goal on the grid. Python would raise `IndexError` for an index past the end and would silently wrap a negative index to the other side. Neither case is modelled.
- Mazes.Successors: requires its location to be on the grid, for the same reason. Python only ever calls it with locations the search reached from the start.
- Mazes.Mark: requires every path location on the grid; out-of-range or negative indices are not modelled. Paths returned by the search satisfy this (`Walks.IsWalk`).
- Mazes.Clear: the same requirement as `Mazes.Mark`.
- Locations.ManhattanDistance: is annotated as returning a float in Python but computes an integer. The model returns a natural number.
