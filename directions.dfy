/** Facing directions of the player and their two mappings, `dirToDelta` and `dirToString`. */
module Directions {

  /** The four facings, in the order of the game's `Dir` enum. */
  datatype Dir = Up | Left | Down | Right

  function Abs(n: int): nat {
    if n < 0 then -n else n
  }

  /** The one-cell step `(dx, dy)` a facing points at; rows grow downward. */
  function DirToDelta(d: Dir): (delta: (int, int))
    // a unit step along exactly one axis
    ensures Abs(delta.0) + Abs(delta.1) == 1
    // Up and Down change only the row, Left and Right only the column
    ensures delta.0 == 0 <==> (d == Up || d == Down)
    // Up and Left point toward smaller indices
    ensures delta.0 + delta.1 < 0 <==> (d == Up || d == Left)
  {
    match d
    case Up => (0, -1)
    case Left => (-1, 0)
    case Down => (0, 1)
    case Right => (1, 0)
  }

  /** The facing's part of an animation name. */
  function DirToString(d: Dir): (s: string)
    ensures 2 <= |s| <= 5
    ensures '-' !in s
  {
    match d
    case Up => "up"
    case Left => "left"
    case Down => "down"
    case Right => "right"
  }

  /** Distinct facings have distinct names, so a name identifies its facing. */
  lemma DirToStringInjective(a: Dir, b: Dir)
    ensures DirToString(a) == DirToString(b) <==> a == b
  {
  }
}
