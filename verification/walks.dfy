/** Sequences of moves through a maze, as the search hands them back to the
    maze for drawing, and what the maze's own operations guarantee about them:
    the Manhattan heuristic never overestimates the number of moves left, a
    drawn path can be erased without trace, and a walled-in start goes nowhere. */
module Walks {
  import opened Cells
  import opened Locations
  import opened Grids
  import opened Mazes

  /** `p` is a non-empty list of locations on the grid in which every
      location after the first is among the successors of the one before. */
  predicate IsWalk(m: Maze, p: seq<MazeLocation>)
    requires Valid(m)
  {
    && |p| > 0
    && (forall i :: 0 <= i < |p| ==> InBounds(m, p[i]))
    && (forall i :: 0 < i < |p| ==> p[i] in Successors(m, p[i - 1]))
  }

  lemma WalkTail(m: Maze, p: seq<MazeLocation>)
    requires Valid(m) && IsWalk(m, p) && |p| > 1
    ensures IsWalk(m, p[1..])
  {
    forall i | 0 < i < |p| - 1
      ensures p[1..][i] in Successors(m, p[1..][i - 1])
    {
      assert p[1..][i] == p[i + 1] && p[1..][i - 1] == p[i];
    }
  }

  /** The first move of a walk, if it makes one, is a unit step onto a
      passable square of the grid. */
  lemma WalkFirstMove(m: Maze, p: seq<MazeLocation>)
    requires Valid(m) && IsWalk(m, p)
    ensures |p| > 1 ==> InBounds(m, p[1]) && Adjacent(p[0], p[1]) && At(m.grid, p[1]) != Blocked
  {
    if |p| > 1 {
      assert p[1] in Successors(m, p[0]);
    }
  }

  /** Every location a walk enters after its first is passable. */
  lemma WalkAvoidsObstacles(m: Maze, p: seq<MazeLocation>)
    requires Valid(m) && IsWalk(m, p)
    ensures forall i :: 0 < i < |p| ==> At(m.grid, p[i]) != Blocked
  {
    forall i | 0 < i < |p|
      ensures At(m.grid, p[i]) != Blocked
    {
      assert p[i] in Successors(m, p[i - 1]);
    }
  }

  /** The heuristic `manhattan_distance(goal)` is admissible for this move
      set: a walk ending at `goal` makes at least as many moves as the
      heuristic estimates at its first location, and since each move changes
      the estimate by exactly one, the surplus is even. */
  lemma {:induction false} ManhattanAdmissible(m: Maze, p: seq<MazeLocation>, goal: MazeLocation)
    requires Valid(m) && IsWalk(m, p) && p[|p| - 1] == goal
    ensures ManhattanDistance(goal)(p[0]) <= |p| - 1
    ensures (|p| - 1 - ManhattanDistance(goal)(p[0])) % 2 == 0
  {
    if |p| > 1 {
      WalkTail(m, p);
      ManhattanAdmissible(m, p[1..], goal);
      assert p[1] in Successors(m, p[0]);
      StepChangesDistanceByOne(goal, p[0], p[1]);
    }
  }

  /** Every move keeps the heuristic consistent: it drops by at most the cost
      of the move. */
  lemma ManhattanConsistent(m: Maze, ml: MazeLocation, goal: MazeLocation)
    requires Valid(m) && InBounds(m, ml)
    ensures forall s :: s in Successors(m, ml) ==>
      ManhattanDistance(goal)(ml) <= ManhattanDistance(goal)(s) + 1
  {
    forall s | s in Successors(m, ml)
      ensures Distance(goal, ml) <= Distance(goal, s) + 1
    {
      StepChangesDistanceByOne(goal, ml, s);
    }
  }

  /** What the demonstration driver relies on when it reuses one maze for
      three searches: on a freshly built maze, drawing a walk from the start
      and erasing it again gives back the same maze, and while it is drawn
      the search sees the same moves. */
  lemma MarkThenClearWalk(m: Maze, p: seq<MazeLocation>)
    requires Valid(m) && MarkersPlaced(m) && Fresh(m)
    requires IsWalk(m, p) && p[0] == m.start
    ensures Clear(Mark(m, p), p) == m
    ensures forall ml :: InBounds(m, ml) ==> Successors(Mark(m, p), ml) == Successors(m, ml)
  {
    WalkAvoidsObstacles(m, p);
    forall l | InBounds(m, l) && l in p && l != m.start && l != m.goal
      ensures At(m.grid, l) == Empty
    {
      var i :| 0 <= i < |p| && p[i] == l;
      assert i > 0;
    }
    MarkThenClearRestores(m, p);
    forall ml | InBounds(m, ml)
      ensures Successors(Mark(m, p), ml) == Successors(m, ml)
    {
      MarkKeepsSuccessors(m, p, ml);
    }
  }

  /** A location whose four neighbours are all off the grid or blocked has
      no successors. */
  lemma WalledOffHasNoSuccessors(m: Maze, ml: MazeLocation)
    requires Valid(m) && InBounds(m, ml)
    requires forall l :: InBounds(m, l) && Adjacent(ml, l) ==> At(m.grid, l) == Blocked
    ensures Successors(m, ml) == []
  {
  }

  /** From a walled-in start every walk stops where it began, so no search
      can reach a goal elsewhere. */
  lemma WalledOffStartGoesNowhere(m: Maze, p: seq<MazeLocation>)
    requires Valid(m) && IsWalk(m, p) && p[0] == m.start
    requires forall l :: InBounds(m, l) && Adjacent(m.start, l) ==> At(m.grid, l) == Blocked
    ensures |p| == 1
  {
    WalkFirstMove(m, p);
  }

  /** A 3 x 3 maze without obstacles, start at the top left and goal at the
      bottom right. */
  function OpenThreeByThree(): Maze
  {
    Init(3, 3, {}, MazeLocation(0, 0), MazeLocation(2, 2))
  }

  /** From the top-left start of the open 3 x 3 maze there are two moves,
      down before right. */
  lemma OpenThreeByThreeStartMoves()
    ensures Successors(OpenThreeByThree(), MazeLocation(0, 0)) == [MazeLocation(1, 0), MazeLocation(0, 1)]
  {
    var m := OpenThreeByThree();
    assert At(m.grid, MazeLocation(1, 0)) == Empty;
    assert At(m.grid, MazeLocation(0, 1)) == Empty;
  }

  /** In the open 3 x 3 maze the shortest walk from start to goal visits five
      locations: one such walk exists and none is shorter. */
  lemma OpenThreeByThreeShortest()
    ensures IsWalk(OpenThreeByThree(),
      [MazeLocation(0, 0), MazeLocation(1, 0), MazeLocation(2, 0), MazeLocation(2, 1), MazeLocation(2, 2)])
    ensures forall p :: IsWalk(OpenThreeByThree(), p) && p[0] == MazeLocation(0, 0) && p[|p| - 1] == MazeLocation(2, 2) ==>
      |p| >= 5
  {
    var m := OpenThreeByThree();
    var p := [MazeLocation(0, 0), MazeLocation(1, 0), MazeLocation(2, 0), MazeLocation(2, 1), MazeLocation(2, 2)];
    forall i | 0 < i < |p|
      ensures p[i] in Successors(m, p[i - 1])
    {
      assert At(m.grid, p[i]) != Blocked;
    }
    forall q | IsWalk(m, q) && q[0] == m.start && q[|q| - 1] == m.goal
      ensures |q| >= 5
    {
      ManhattanAdmissible(m, q, m.goal);
    }
  }

}
