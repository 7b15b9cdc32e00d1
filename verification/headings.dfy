/** Compass headings, the three rotations the ant can make, and unit moves on
    the integer grid.

    The square ant's `Direction` (North, South, West, East) and the hex ant's
    `AntDirection` (Up, Down, Left, Right) have the same rotation tables and
    the same moves, so both are modelled by `Heading`, reading Up as North,
    Down as South, Left as West and Right as East. */
module Headings {

  datatype Heading = North | South | West | East

  /** A grid cell. One unit is one ant step (20 pixels on screen). */
  datatype Pos = Pos(x: int, y: int)

  /** Clockwise quarter turns from North: the reference against which the
      rotation tables are stated. */
  function Quarter(h: Heading): (q: nat)
    ensures q < 4
  {
    match h
    case North => 0
    case East => 1
    case South => 2
    case West => 3
  }

  /** A quarter turn counter-clockwise. */
  function RotateLeft(h: Heading): (r: Heading)
    ensures Quarter(r) == (Quarter(h) + 3) % 4
  {
    match h
    case North => West
    case West => South
    case South => East
    case East => North
  }

  /** A quarter turn clockwise. */
  function RotateRight(h: Heading): (r: Heading)
    ensures Quarter(r) == (Quarter(h) + 1) % 4
  {
    match h
    case North => East
    case West => North
    case South => West
    case East => South
  }

  /** A half turn. */
  function RotateBack(h: Heading): (r: Heading)
    ensures Quarter(r) == (Quarter(h) + 2) % 4
  {
    match h
    case North => South
    case West => East
    case South => North
    case East => West
  }

  /** Left and right rotations undo each other, so each is a bijection. */
  lemma LeftRightInverse(h: Heading)
    ensures RotateRight(RotateLeft(h)) == h
    ensures RotateLeft(RotateRight(h)) == h
  {
  }

  lemma RotateLeftInjective(a: Heading, b: Heading)
    requires RotateLeft(a) == RotateLeft(b)
    ensures a == b
  {
  }

  lemma RotateRightInjective(a: Heading, b: Heading)
    requires RotateRight(a) == RotateRight(b)
    ensures a == b
  {
  }

  /** Four quarter turns in the same sense come back to the start. */
  lemma FourTurnsIdentity(h: Heading)
    ensures RotateLeft(RotateLeft(RotateLeft(RotateLeft(h)))) == h
    ensures RotateRight(RotateRight(RotateRight(RotateRight(h)))) == h
  {
  }

  /** A half turn is two quarter turns either way, and undoes itself. */
  lemma BackIsTwoQuarters(h: Heading)
    ensures RotateLeft(RotateLeft(h)) == RotateBack(h)
    ensures RotateRight(RotateRight(h)) == RotateBack(h)
    ensures RotateBack(RotateBack(h)) == h
  {
  }

  function Abs(n: int): nat {
    if n < 0 then -n else n
  }

  /** One step from `p` in direction `h`: North and South change `y`, West
      and East change `x`. */
  function Move(p: Pos, h: Heading): (q: Pos)
    ensures Abs(q.x - p.x) + Abs(q.y - p.y) == 1
    ensures q.x == p.x <==> (h == North || h == South)
    ensures q.y > p.y <==> h == North
    ensures q.x > p.x <==> h == East
  {
    match h
    case North => Pos(p.x, p.y + 1)
    case South => Pos(p.x, p.y - 1)
    case West => Pos(p.x - 1, p.y)
    case East => Pos(p.x + 1, p.y)
  }

  /** Stepping forward and then stepping in the opposite heading returns to
      the start. */
  lemma MoveBack(p: Pos, h: Heading)
    ensures Move(Move(p, h), RotateBack(h)) == p
  {
  }
}
