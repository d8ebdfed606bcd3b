/** Grid coordinates (`MazeLocation` of Maze.py), orthogonal adjacency and the
    integer Manhattan heuristic. */
module Locations {

  datatype MazeLocation = MazeLocation(row: int, column: int)

  function Abs(x: int): (r: nat)
    ensures r == x || r == -x
  {
    if x < 0 then -x else x
  }

  /** Two locations one orthogonal unit step apart: exactly one coordinate
      differs, and by exactly one. */
  predicate Adjacent(a: MazeLocation, b: MazeLocation)
  {
    || (a.row == b.row && Abs(a.column - b.column) == 1)
    || (a.column == b.column && Abs(a.row - b.row) == 1)
  }

  /** Number of unit moves between `ml` and `goal` when nothing is in the way. */
  function Distance(goal: MazeLocation, ml: MazeLocation): (d: nat)
    ensures d == 0 <==> ml == goal
    ensures d == 1 <==> Adjacent(goal, ml)
  {
    Abs(ml.column - goal.column) + Abs(ml.row - goal.row)
  }

  /** `manhattan_distance(goal)`: the heuristic closure handed to the search. */
  function ManhattanDistance(goal: MazeLocation): (h: MazeLocation -> nat)
    ensures forall ml :: h(ml) == 0 <==> ml == goal
    ensures forall ml :: h(ml) == Distance(ml, goal)
  {
    ml => Distance(goal, ml)
  }

  lemma DistanceSymmetric(a: MazeLocation, b: MazeLocation)
    ensures Distance(a, b) == Distance(b, a)
  {
  }

  lemma TriangleInequality(a: MazeLocation, b: MazeLocation, c: MazeLocation)
    ensures Distance(a, c) <= Distance(a, b) + Distance(b, c)
  {
  }

  /** One unit step moves the heuristic by exactly one, in either direction;
      in particular it never drops by more than the cost of the step. */
  lemma StepChangesDistanceByOne(goal: MazeLocation, a: MazeLocation, b: MazeLocation)
    requires Adjacent(a, b)
    ensures Distance(goal, b) == Distance(goal, a) + 1 || Distance(goal, b) + 1 == Distance(goal, a)
  {
  }

}
