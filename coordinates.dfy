/**
 * Grid positions and the one-cell wrap-around step of the Snake game
 * (class Coordinate of Snake/Snake.py).
 */
module Coordinates {

  // Dimensions of the toroidal grid.
  const Width: int := 32
  const Height: int := 24
  const MaxX: int := Width - 1
  const MinX: int := 0
  const MaxY: int := Height - 1
  const MinY: int := 0

  /** A cell as the game stores it: an (x, y) pair of integers. */
  datatype Pos = Pos(x: int, y: int)

  predicate InGrid(p: Pos) {
    MinX <= p.x <= MaxX && MinY <= p.y <= MaxY
  }

  /** The four direction strings the game reacts to; "u" lowers y. */
  predicate IsDirection(direction: string) {
    direction == "l" || direction == "r" || direction == "u" || direction == "d"
  }

  predicate IsHorizontal(direction: string) {
    direction == "l" || direction == "r"
  }

  predicate IsVertical(direction: string) {
    direction == "u" || direction == "d"
  }

  function Opposite(direction: string): string {
    if direction == "l" then "r"
    else if direction == "r" then "l"
    else if direction == "u" then "d"
    else if direction == "d" then "u"
    else direction
  }

  /** Offset of one step in the given direction, as plain vector arithmetic. */
  function DeltaX(direction: string): int {
    if direction == "l" then -1 else if direction == "r" then 1 else 0
  }

  function DeltaY(direction: string): int {
    if direction == "u" then -1 else if direction == "d" then 1 else 0
  }

  /**
   * The position a Coordinate holds after move(direction): one step on the
   * relevant axis, jumping to the opposite bound when the coordinate sits
   * on the bound it would leave. Any other string leaves the position alone.
   */
  function Moved(p: Pos, direction: string): Pos {
    if direction == "l" then
      (if p.x != MinX then Pos(p.x - 1, p.y) else Pos(MaxX, p.y))
    else if direction == "r" then
      (if p.x != MaxX then Pos(p.x + 1, p.y) else Pos(MinX, p.y))
    else if direction == "u" then
      (if p.y != MinY then Pos(p.x, p.y - 1) else Pos(p.x, MaxY))
    else if direction == "d" then
      (if p.y != MaxY then Pos(p.x, p.y + 1) else Pos(p.x, MinY))
    else p
  }

  /** A mutable grid point, updated in place by its methods. */
  class Coordinate {
    var x: int
    var y: int

    constructor (x0: int, y0: int)
      ensures x == x0 && y == y0
    {
      x, y := x0, y0;
    }

    function At(): Pos
      reads this
    {
      Pos(x, y)
    }

    /** Adds the given offsets and returns the new pair. */
    method ChangeValues(changeX: int, changeY: int) returns (r: Pos)
      modifies this
      ensures x == old(x) + changeX && y == old(y) + changeY
      ensures r == At()
    {
      x := x + changeX;
      y := y + changeY;
      r := Pos(x, y);
    }

    /** Overwrites both components and returns the new pair. */
    method SwapValues(newX: int, newY: int) returns (r: Pos)
      modifies this
      ensures x == newX && y == newY
      ensures r == At()
    {
      x := newX;
      y := newY;
      r := Pos(x, y);
    }

    method Move(direction: string)
      modifies this
      ensures At() == Moved(old(At()), direction)
    {
      var pair: Pos;  // the pair change_values/swap_values hand back, unused here
      if direction == "l" {
        if x != MinX { pair := ChangeValues(-1, 0); } else { pair := SwapValues(MaxX, y); }
      }
      if direction == "r" {
        if x != MaxX { pair := ChangeValues(1, 0); } else { pair := SwapValues(MinX, y); }
      }
      if direction == "u" {
        if y != MinY { pair := ChangeValues(0, -1); } else { pair := SwapValues(x, MaxY); }
      }
      if direction == "d" {
        if y != MaxY { pair := ChangeValues(0, 1); } else { pair := SwapValues(x, MinY); }
      }
    }
  }

  /** At a bound, a step across it lands on the opposite bound of the same axis. */
  lemma MovedWrapsAtBounds(p: Pos)
    ensures p.x == MaxX ==> Moved(p, "r") == Pos(MinX, p.y)
    ensures p.x == MinX ==> Moved(p, "l") == Pos(MaxX, p.y)
    ensures p.y == MaxY ==> Moved(p, "d") == Pos(p.x, MinY)
    ensures p.y == MinY ==> Moved(p, "u") == Pos(p.x, MaxY)
  {
  }

  /** Away from the bound it would cross, a step changes its axis by exactly one. */
  lemma MovedStepsInside(p: Pos, direction: string)
    requires IsDirection(direction)
    requires direction == "r" ==> p.x != MaxX
    requires direction == "l" ==> p.x != MinX
    requires direction == "d" ==> p.y != MaxY
    requires direction == "u" ==> p.y != MinY
    ensures Moved(p, direction) == Pos(p.x + DeltaX(direction), p.y + DeltaY(direction))
  {
  }

  /** A step never touches the other axis, and an unknown direction is a no-op. */
  lemma MovedKeepsOtherAxis(p: Pos, direction: string)
    ensures IsHorizontal(direction) ==> Moved(p, direction).y == p.y
    ensures IsVertical(direction) ==> Moved(p, direction).x == p.x
    ensures !IsDirection(direction) ==> Moved(p, direction) == p
  {
  }

  /**
   * On the grid, move agrees with stepping on a torus: add the direction's
   * offset and reduce modulo the grid's dimensions.
   */
  lemma MovedIsToroidal(p: Pos, direction: string)
    requires InGrid(p)
    ensures Moved(p, direction) == Pos((p.x + DeltaX(direction)) % Width, (p.y + DeltaY(direction)) % Height)
    ensures InGrid(Moved(p, direction))
  {
  }

  /** Stepping back in the opposite direction undoes a step on the grid. */
  lemma MovedOppositeUndoes(p: Pos, direction: string)
    requires InGrid(p)
    ensures Moved(Moved(p, direction), Opposite(direction)) == p
  {
  }
}
