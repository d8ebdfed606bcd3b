/** The markers a maze square can hold and the character each one prints as
    (the `Cell` string enumeration of Maze.py). */
module Cells {
  import opened Wrappers

  datatype Cell = Empty | Blocked | Start | Goal | Path

  /** Reads a printed marker back; every other character is rejected. */
  function FromChar(ch: char): (r: Option<Cell>)
    ensures r.Some? ==> ch in {' ', 'X', 'S', 'G', '*'}
  {
    match ch
    case ' ' => Some(Empty)
    case 'X' => Some(Blocked)
    case 'S' => Some(Start)
    case 'G' => Some(Goal)
    case '*' => Some(Path)
    case _ => None
  }

  /** The one-character value of a marker, as the enumeration declares it. */
  function ToChar(c: Cell): (ch: char)
    ensures FromChar(ch) == Some(c)
  {
    match c
    case Empty => ' '
    case Blocked => 'X'
    case Start => 'S'
    case Goal => 'G'
    case Path => '*'
  }

  /** Printing a marker and reading it back are inverse in both directions. */
  lemma CharRoundTrip(c: Cell, ch: char)
    ensures FromChar(ch) == Some(c) <==> ToChar(c) == ch
  {
  }

  /** A square the mover may enter: everything except an obstacle. */
  predicate Passable(c: Cell)
  {
    c != Blocked
  }

}
