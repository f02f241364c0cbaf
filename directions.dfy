/** The four grid directions shared by Snake and Pac-Man, with the key map and the
    `opposites` table both games consult before accepting a queued direction. */
module Directions {

  import opened Wrappers

  datatype Direction = Up | Down | Left | Right

  /** Keyboard keys as the games see them; every key the games ignore is `OtherKey`. */
  datatype Key = ArrowUp | ArrowDown | ArrowLeft | ArrowRight | OtherKey

  /** The `keyMap` table: arrow keys name a direction, other keys none. */
  function KeyDirection(k: Key): (d: Option<Direction>)
    ensures d.None? <==> k == OtherKey
  {
    match k
    case ArrowUp => Some(Up)
    case ArrowDown => Some(Down)
    case ArrowLeft => Some(Left)
    case ArrowRight => Some(Right)
    case OtherKey => None
  }

  /** The `opposites` table. */
  function Opposite(d: Direction): (r: Direction)
    ensures r != d
    ensures (d == Up || d == Down) <==> (r == Up || r == Down)
  {
    match d
    case Up => Down
    case Down => Up
    case Left => Right
    case Right => Left
  }

  /** Horizontal unit step of a direction (screen coordinates: x grows to the right). */
  function DeltaX(d: Direction): (dx: int)
    ensures -1 <= dx <= 1
  {
    match d
    case Left => -1
    case Right => 1
    case _ => 0
  }

  /** Vertical unit step of a direction (screen coordinates: y grows downwards). */
  function DeltaY(d: Direction): (dy: int)
    ensures -1 <= dy <= 1
  {
    match d
    case Up => -1
    case Down => 1
    case _ => 0
  }

  /** A step in a direction followed by a step in its opposite cancels out, and every
      direction moves along exactly one axis. */
  lemma OppositeCancels(d: Direction)
    ensures Opposite(Opposite(d)) == d
    ensures DeltaX(Opposite(d)) == -DeltaX(d) && DeltaY(Opposite(d)) == -DeltaY(d)
    ensures (DeltaX(d) == 0) != (DeltaY(d) == 0)
  {
  }
}
